/**
 * `write_calendar`: one venue page becomes one calendar. Every result table must have exactly
 * three rows; the first names the shop, the second gives its address, and in the third each
 * block of items up to an `hr` yields an event from its first `strong` only.
 */
module Venue {
  import opened Wrappers
  import opened Faults
  import opened Gathering
  import Text
  import SchedulePattern
  import Timestamp

  /** A node the third row's selector list `.list-adtext-detitext > div > strong,hr` yields,
      with the text contents of a `strong`. */
  datatype Item = Strong(text: string) | Hr

  /** A `tr` of a result table, as the program's selectors see it: the text contents of its
      first `.shopname` node, of its first `.list-adtext-detitext` node, and its items. */
  datatype Row = Row(shopName: Option<string>, address: Option<string>, items: seq<Item>)

  /** A `.shoplist_resultlist[cellpadding]` table: its `tr` rows. */
  datatype Table = Table(rows: seq<Row>)

  datatype Event = Event(
    summary: string,
    description: string,
    location: string,
    start: Timestamp.DateTime,
    end: Timestamp.DateTime)

  /** What processing a venue leaves behind: a diagnostic, or the file to write. */
  datatype Output = NoEvents(diagnostic: string) | CalendarFile(fileName: string, events: seq<Event>)

  /** What every event of one table shares. */
  datatype Shop = Shop(eventTitle: string, uri: string, name: string, address: string)

  // ---------------------------------------------------------------------------------------------
  // Which items yield events.

  /**
   * items[i] opens a block: it is a `strong` and every earlier `strong` is separated from it
   * by an `hr`, so nothing has been captured since the table start or the last `hr`.
   */
  ghost predicate Opens(items: seq<Item>, i: int)
    requires 0 <= i < |items|
  {
    items[i].Strong? && forall j :: 0 <= j < i && items[j].Strong? ==> HrBetween(items, j, i)
  }

  /** Some `hr` lies strictly between items[lo] and items[hi]. */
  ghost predicate HrBetween(items: seq<Item>, lo: int, hi: int)
    requires 0 <= lo <= hi <= |items|
  {
    exists k :: lo < k < hi && items[k].Hr?
  }

  /**
   * The flag `start_cap` after the first i items is `i > 0 && items[i - 1].Strong?`; so the
   * machine captures items[i] exactly when it opens a block.
   */
  lemma {:induction false} OpensLocally(items: seq<Item>, i: int)
    requires 0 <= i < |items|
    ensures Opens(items, i) <==> items[i].Strong? && (i == 0 || items[i - 1].Hr?)
  {
    if items[i].Strong? && i > 0 && items[i - 1].Hr? {
      forall j | 0 <= j < i && items[j].Strong? ensures HrBetween(items, j, i) {
        assert j < i - 1;
      }
    }
    if i > 0 && items[i - 1].Strong? {
      assert !HrBetween(items, i - 1, i);
    }
  }

  /** The first `strong` of a table always opens a block. */
  lemma FirstStrongOpens(items: seq<Item>, i: int)
    requires 0 <= i < |items| && items[i].Strong?
    requires forall j :: 0 <= j < i ==> items[j].Hr?
    ensures Opens(items, i)
  {
  }

  /** The indices below n of the items that open a block, in increasing order. */
  ghost function OpenIndices(items: seq<Item>, n: nat): (r: seq<nat>)
    requires n <= |items|
    ensures forall a :: 0 <= a < |r| ==> r[a] < n && Opens(items, r[a])
    ensures forall i :: 0 <= i < n && Opens(items, i) ==> i in r
    ensures forall a, b :: 0 <= a < b < |r| ==> r[a] < r[b]
  {
    if n == 0 then []
    else
      var prev := OpenIndices(items, n - 1);
      var r := prev + (if Opens(items, n - 1) then [n - 1] else []);
      assert forall a :: 0 <= a < |prev| ==> r[a] == prev[a];
      r
  }

  function HrCount(items: seq<Item>): nat {
    if items == [] then 0
    else HrCount(items[..|items| - 1]) + (if items[|items| - 1].Hr? then 1 else 0)
  }

  lemma {:induction false} BlocksBound(items: seq<Item>, n: nat)
    requires n <= |items|
    ensures |OpenIndices(items, n)| + (if n > 0 && items[n - 1].Strong? then 0 else 1)
            <= HrCount(items[..n]) + 1
  {
    if n > 0 {
      BlocksBound(items, n - 1);
      OpensLocally(items, n - 1);
      assert items[..n][..n - 1] == items[..n - 1];
    }
  }

  /** At most one event per `hr`-delimited block: no more events than separators plus one. */
  lemma AtMostOneEventPerBlock(items: seq<Item>)
    ensures |OpenIndices(items, |items|)| <= HrCount(items) + 1
  {
    BlocksBound(items, |items|);
    assert items[..|items|] == items;
  }

  /** Two `strong`s, an `hr`, a `strong`: the first and the last yield events, the second does not. */
  lemma StrongStrongHrStrong(a: string, b: string, c: string)
    ensures OpenIndices([Strong(a), Strong(b), Hr, Strong(c)], 4) == [0, 3]
  {
    var items := [Strong(a), Strong(b), Hr, Strong(c)];
    OpensLocally(items, 0);
    OpensLocally(items, 1);
    OpensLocally(items, 2);
    OpensLocally(items, 3);
    OpenIndicesNext(items, 0);
    OpenIndicesNext(items, 1);
    OpenIndicesNext(items, 2);
    OpenIndicesNext(items, 3);
  }

  /** OpenIndices grows one item at a time. */
  lemma OpenIndicesNext(items: seq<Item>, n: nat)
    requires n < |items|
    ensures OpenIndices(items, n + 1) == OpenIndices(items, n) + (if Opens(items, n) then [n] else [])
  {
  }

  // ---------------------------------------------------------------------------------------------
  // One event.

  /** The event a captured `strong` with text `text` yields, or the panic it causes. */
  function MakeEvent(shop: Shop, text: string): (r: Result<Event, Fault>)
    ensures SchedulePattern.Match(text).None? ==>
      r == Failure(UnrecognizableDescription(shop.uri, shop.name, text))
    ensures r.Success? ==>
      && r.value.summary == shop.eventTitle
      && r.value.description == shop.name + "\n" + shop.uri
      && r.value.location == shop.address
      && Timestamp.Valid(r.value.start) && r.value.start.offset == Timestamp.Jst
      && Timestamp.Valid(r.value.end) && r.value.end.offset == Timestamp.Jst
      && Timestamp.ToMinutes(r.value.end) == Timestamp.ToMinutes(r.value.start) + 60
  {
    match SchedulePattern.Match(text)
    case None => Failure(UnrecognizableDescription(shop.uri, shop.name, text))
    case Some(c) =>
      SchedulePattern.SearchSound(text);
      match Timestamp.StartTime(c)
      case None => Failure(InvalidStartTime(c))
      case Some(start) =>
        Timestamp.AddHourIsOneHourLater(start);
        Success(Event(shop.eventTitle, shop.name + "\n" + shop.uri, shop.address, start, Timestamp.AddHour(start)))
  }

  /**
   * A matched text yields an event exactly when its captures name a valid start time; the
   * event starts at that time and ends an hour later. Captures naming no valid time give the
   * start-time panic with those captures.
   */
  lemma MakeEventTimes(shop: Shop, text: string)
    ensures SchedulePattern.Match(text).Some? ==> SchedulePattern.FieldsAreDigits(SchedulePattern.Match(text).value)
    ensures var r, m := MakeEvent(shop, text), SchedulePattern.Match(text);
      r.Success? <==> m.Some? && Timestamp.StartTime(m.value).Some?
    ensures var r, m := MakeEvent(shop, text), SchedulePattern.Match(text);
      r.Success? ==> r.value.start == Timestamp.StartTime(m.value).value
                     && r.value.end == Timestamp.AddHour(r.value.start)
    ensures var r, m := MakeEvent(shop, text), SchedulePattern.Match(text);
      m.Some? && Timestamp.StartTime(m.value).None? ==> r == Failure(InvalidStartTime(m.value))
  {
    if SchedulePattern.Match(text).Some? {
      SchedulePattern.SearchSound(text);
    }
  }

  // ---------------------------------------------------------------------------------------------
  // What a page yields, stated without the flag.

  /** How the text of a captured `strong` becomes an event, or the panic it causes. */
  type Maker = string -> Result<Event, Fault>

  /** Within a table, the loop body closes over the shop its first two rows describe. */
  function EventMaker(shop: Shop): Maker {
    text => MakeEvent(shop, text)
  }

  /** What items[i] contributes to its table: its event if it opens a block, else nothing. */
  ghost function ItemResult(make: Maker, items: seq<Item>, i: int): Result<seq<Event>, Fault>
    requires 0 <= i < |items|
  {
    if !Opens(items, i) then Success([])
    else match make(items[i].text)
      case Failure(e) => Failure(e)
      case Success(ev) => Success([ev])
  }

  ghost function ItemResults(make: Maker, items: seq<Item>): (rs: seq<Result<seq<Event>, Fault>>)
    ensures |rs| == |items|
    ensures forall i :: 0 <= i < |items| ==> rs[i] == ItemResult(make, items, i)
  {
    seq(|items|, i requires 0 <= i < |items| => ItemResult(make, items, i))
  }

  /** The events of a table's third row, or the first panic it causes. */
  ghost function RowEvents(make: Maker, items: seq<Item>): (r: Result<seq<Event>, Fault>)
    ensures r.Success? ==> |r.value| == |OpenIndices(items, |items|)|
  {
    var r := Gather(ItemResults(make, items), |items|);
    if r.Success? then
      RowEventsFromOpeningStrongs(make, items, |items|);
      r
    else r
  }

  /** The row checks of a table, and the shop its first two rows describe. */
  ghost function ReadShop(eventTitle: string, uri: string, table: Table): (r: Result<Shop, Fault>)
    ensures r.Success? <==>
      |table.rows| == 3 && table.rows[0].shopName.Some? && table.rows[1].address.Some?
    ensures r.Success? ==>
      && r.value.eventTitle == eventTitle && r.value.uri == uri
      && r.value.name == Text.Trim(table.rows[0].shopName.value)
      && r.value.address == Text.Trim(table.rows[1].address.value)
    ensures |table.rows| != 3 ==> r == Failure(UnexpectedRows(uri, |table.rows|))
    ensures |table.rows| == 3 && table.rows[0].shopName.None? ==> r == Failure(MissingShopName)
    ensures |table.rows| == 3 && table.rows[0].shopName.Some? && table.rows[1].address.None? ==>
      r == Failure(MissingAddress)
  {
    if |table.rows| != 3 then Failure(UnexpectedRows(uri, |table.rows|))
    else if table.rows[0].shopName.None? then Failure(MissingShopName)
    else if table.rows[1].address.None? then Failure(MissingAddress)
    else Success(Shop(eventTitle, uri, Text.Trim(table.rows[0].shopName.value),
                      Text.Trim(table.rows[1].address.value)))
  }

  /** The events of one result table, or the first panic it causes. */
  ghost function TableEvents(eventTitle: string, uri: string, table: Table): (r: Result<seq<Event>, Fault>)
    ensures ReadShop(eventTitle, uri, table).Failure? ==> r.Failure?
    ensures r.Success? ==>
      && ReadShop(eventTitle, uri, table).Success?
      && |r.value| == |OpenIndices(table.rows[2].items, |table.rows[2].items|)|
  {
    match ReadShop(eventTitle, uri, table)
    case Failure(e) => Failure(e)
    case Success(shop) => RowEvents(EventMaker(shop), table.rows[2].items)
  }

  ghost function TableResults(eventTitle: string, uri: string, tables: seq<Table>): (rs: seq<Result<seq<Event>, Fault>>)
    ensures |rs| == |tables|
    ensures forall t :: 0 <= t < |tables| ==> rs[t] == TableEvents(eventTitle, uri, tables[t])
  {
    seq(|tables|, t requires 0 <= t < |tables| => TableEvents(eventTitle, uri, tables[t]))
  }

  /** The events of a page's tables, in order, or the first panic among them. */
  ghost function PageEvents(eventTitle: string, uri: string, tables: seq<Table>): (r: Result<seq<Event>, Fault>)
    ensures r.Success? ==> forall t :: 0 <= t < |tables| ==> TableEvents(eventTitle, uri, tables[t]).Success?
  {
    var rs := TableResults(eventTitle, uri, tables);
    var r := Gather(rs, |tables|);
    if r.Success? then
      GatherSuccess(rs, |tables|);
      r
    else r
  }

  /** What processing one venue leaves behind; `page` is None when fetching it failed. */
  ghost function VenueOutcome(eventTitle: string, title: string, uri: string, page: Option<seq<Table>>): (r: Result<Output, Fault>)
    ensures page.None? ==> r == Failure(FetchFailed(uri))
    ensures r.Success? && r.value.CalendarFile? ==> r.value.fileName == title + ".ics" && r.value.events != []
    ensures r.Success? && r.value.NoEvents? ==> r.value.diagnostic == title + " has no events"
  {
    if page.None? then Failure(FetchFailed(uri))
    else match PageEvents(eventTitle, uri, page.value)
      case Failure(e) => Failure(e)
      case Success(evs) =>
        if evs == [] then Success(NoEvents(title + " has no events"))
        else Success(CalendarFile(title + ".ics", evs))
  }

  // ---------------------------------------------------------------------------------------------
  // Properties of the specification.

  /**
   * The events of the first n items are those of the block-opening `strong`s among them, one
   * each, in document order.
   */
  lemma {:induction false} RowEventsFromOpeningStrongs(make: Maker, items: seq<Item>, n: nat)
    requires n <= |items| && Gather(ItemResults(make, items), n).Success?
    ensures var evs, idx := Gather(ItemResults(make, items), n).value, OpenIndices(items, n);
      && |evs| == |idx|
      && forall k :: 0 <= k < |idx| ==>
           items[idx[k]].Strong? && make(items[idx[k]].text) == Success(evs[k])
  {
    if n > 0 {
      RowEventsFromOpeningStrongs(make, items, n - 1);
    }
  }

  /** A row that panics does so on the first block-opening `strong` whose text gives no event. */
  lemma {:induction false} RowEventsFailure(make: Maker, items: seq<Item>)
    requires RowEvents(make, items).Failure?
    ensures exists i :: && 0 <= i < |items| && Opens(items, i)
                        && make(items[i].text) == Failure(RowEvents(make, items).error)
                        && (forall j :: 0 <= j < i && Opens(items, j) ==> make(items[j].text).Success?)
  {
    var rs := ItemResults(make, items);
    GatherFailure(rs, |items|);
    var i :| 0 <= i < |items| && rs[i] == Failure(Gather(rs, |items|).error)
             && forall j :: 0 <= j < i ==> rs[j].Success?;
    assert Opens(items, i);
    forall j | 0 <= j < i && Opens(items, j) ensures make(items[j].text).Success? {
      assert rs[j].Success?;
    }
  }

  /** Every event of a row carries the event title, the shop's name, URI and address, and
      lasts exactly one hour at +09:00. */
  lemma {:induction false} RowEventsWellFormed(shop: Shop, items: seq<Item>)
    requires RowEvents(EventMaker(shop), items).Success?
    ensures forall e :: e in RowEvents(EventMaker(shop), items).value ==>
      && e.summary == shop.eventTitle
      && e.description == shop.name + "\n" + shop.uri
      && e.location == shop.address
      && Timestamp.Valid(e.start) && e.start.offset == Timestamp.Jst
      && Timestamp.Valid(e.end) && e.end.offset == Timestamp.Jst
      && Timestamp.ToMinutes(e.end) == Timestamp.ToMinutes(e.start) + 60
  {
    var evs := RowEvents(EventMaker(shop), items).value;
    RowEventsFromOpeningStrongs(EventMaker(shop), items, |items|);
    var idx := OpenIndices(items, |items|);
    forall e | e in evs ensures e.summary == shop.eventTitle && e.location == shop.address {
      var k :| 0 <= k < |evs| && evs[k] == e;
      assert MakeEvent(shop, items[idx[k]].text) == Success(e);
    }
  }

  /** e is an event of the shop the given table describes: it carries the event title and the
      shop's name, URL and address, and lasts one hour at +09:00. */
  ghost predicate EventOfTable(eventTitle: string, uri: string, table: Table, e: Event) {
    && ReadShop(eventTitle, uri, table).Success?
    && e.summary == eventTitle
    && e.description == ReadShop(eventTitle, uri, table).value.name + "\n" + uri
    && e.location == ReadShop(eventTitle, uri, table).value.address
    && Timestamp.Valid(e.start) && e.start.offset == Timestamp.Jst
    && Timestamp.Valid(e.end) && e.end.offset == Timestamp.Jst
    && Timestamp.ToMinutes(e.end) == Timestamp.ToMinutes(e.start) + 60
  }

  /** Every event of a table is an event of the shop its first two rows describe. */
  lemma {:induction false} TableEventFields(eventTitle: string, uri: string, table: Table, e: Event)
    requires TableEvents(eventTitle, uri, table).Success? && e in TableEvents(eventTitle, uri, table).value
    ensures EventOfTable(eventTitle, uri, table, e)
  {
    RowEventsWellFormed(ReadShop(eventTitle, uri, table).value, table.rows[2].items);
  }

  /** Every event of a page comes from one of its tables and is an event of that table's shop. */
  lemma {:induction false} PageEventsFromTables(eventTitle: string, uri: string, tables: seq<Table>)
    requires PageEvents(eventTitle, uri, tables).Success?
    ensures forall e :: e in PageEvents(eventTitle, uri, tables).value ==>
      exists t :: 0 <= t < |tables| && EventOfTable(eventTitle, uri, tables[t], e)
  {
    var rs := TableResults(eventTitle, uri, tables);
    forall e | e in PageEvents(eventTitle, uri, tables).value
      ensures exists t :: 0 <= t < |tables| && EventOfTable(eventTitle, uri, tables[t], e)
    {
      GatherMember(rs, |tables|, e);
      var t :| 0 <= t < |tables| && rs[t].Success? && e in rs[t].value;
      TableEventFields(eventTitle, uri, tables[t], e);
    }
  }

  /** Every event of a venue's file is an event of the shop of one of the venue's tables. */
  lemma {:induction false} VenueEventsFromTables(eventTitle: string, title: string, uri: string, tables: seq<Table>)
    requires VenueOutcome(eventTitle, title, uri, Some(tables)).Success?
    requires VenueOutcome(eventTitle, title, uri, Some(tables)).value.CalendarFile?
    ensures forall e :: e in VenueOutcome(eventTitle, title, uri, Some(tables)).value.events ==>
      exists t :: 0 <= t < |tables| && EventOfTable(eventTitle, uri, tables[t], e)
  {
    PageEventsFromTables(eventTitle, uri, tables);
  }

  /** A table without exactly three rows ends the venue with a panic naming the URL and the
      count, provided the tables before it went through. */
  lemma {:induction false} WrongRowCountIsFatal(eventTitle: string, title: string, uri: string, tables: seq<Table>, t: nat)
    requires t < |tables| && |tables[t].rows| != 3
    requires Gather(TableResults(eventTitle, uri, tables), t).Success?
    ensures VenueOutcome(eventTitle, title, uri, Some(tables)) == Failure(UnexpectedRows(uri, |tables[t].rows|))
  {
    var rs := TableResults(eventTitle, uri, tables);
    var e := UnexpectedRows(uri, |tables[t].rows|);
    assert rs[t] == Failure(e);
    assert Gather(rs, t + 1) == Failure(e);
    GatherFailureSticks(rs, t + 1, |tables|);
  }

  /** A venue yields a file exactly when its page yields events; the file is named after the
      venue's title, and otherwise the diagnostic names it. */
  lemma {:induction false} FileOnlyWithEvents(eventTitle: string, title: string, uri: string, tables: seq<Table>)
    requires PageEvents(eventTitle, uri, tables).Success?
    ensures var out := VenueOutcome(eventTitle, title, uri, Some(tables));
      && out.Success?
      && (out.value.CalendarFile? <==> PageEvents(eventTitle, uri, tables).value != [])
      && (out.value.CalendarFile? ==> out.value.fileName == title + ".ics"
                                      && out.value.events == PageEvents(eventTitle, uri, tables).value)
      && (out.value.NoEvents? ==> out.value.diagnostic == title + " has no events")
  {
  }

  // ---------------------------------------------------------------------------------------------
  // The program.

  /** One step of the walk over a row, stated with the flag's value before items[i]. */
  lemma {:induction false} CaptureStep(make: Maker, items: seq<Item>, i: nat, events: seq<Event>)
    requires i < |items| && Gather(ItemResults(make, items), i) == Success(events)
    ensures var rs, startCap := ItemResults(make, items), i > 0 && items[i - 1].Strong?;
      && (items[i].Strong? && !startCap ==>
            Gather(rs, i + 1) == match make(items[i].text)
                                 case Success(ev) => Success(events + [ev])
                                 case Failure(e) => Failure(e))
      && (!(items[i].Strong? && !startCap) ==> Gather(rs, i + 1) == Success(events))
  {
    OpensLocally(items, i);
    assert events + [] == events;
  }

  /** The walk over a table's third row: `start_cap` starts false, is set by a captured
      `strong` and cleared by every `hr`. */
  method CaptureEvents(make: Maker, items: seq<Item>) returns (r: Result<seq<Event>, Fault>)
    ensures r == RowEvents(make, items)
  {
    ghost var rs := ItemResults(make, items);
    var events: seq<Event> := [];
    var startCap := false;
    var i := 0;
    while i < |items|
      invariant 0 <= i <= |items|
      invariant startCap == (i > 0 && items[i - 1].Strong?)
      invariant Gather(rs, i) == Success(events)
    {
      CaptureStep(make, items, i, events);
      if items[i].Strong? {
        if !startCap {
          var ev := make(items[i].text);
          if ev.Failure? {
            GatherFailureSticks(rs, i + 1, |items|);
            return Failure(ev.error);
          }
          events := events + [ev.value];
          startCap := true;
        }
      } else {
        startCap := false;
      }
      i := i + 1;
    }
    return Success(events);
  }

  /** The row checks of one table, in the order the program makes them. */
  method CheckRows(eventTitle: string, uri: string, table: Table) returns (r: Result<Shop, Fault>)
    ensures r == ReadShop(eventTitle, uri, table)
  {
    var rows := table.rows;
    if |rows| != 3 {
      return Failure(UnexpectedRows(uri, |rows|));
    }
    if rows[0].shopName.None? {
      return Failure(MissingShopName);
    }
    var shopName := Text.Trim(rows[0].shopName.value);
    if rows[1].address.None? {
      return Failure(MissingAddress);
    }
    var address := Text.Trim(rows[1].address.value);
    return Success(Shop(eventTitle, uri, shopName, address));
  }

  /** One step of the walk over a page's tables. */
  lemma {:induction false} TableStep(eventTitle: string, uri: string, tables: seq<Table>, t: nat, calendar: seq<Event>)
    requires t < |tables| && Gather(TableResults(eventTitle, uri, tables), t) == Success(calendar)
    ensures var rs := TableResults(eventTitle, uri, tables);
      match TableEvents(eventTitle, uri, tables[t])
      case Failure(e) => Gather(rs, t + 1) == Failure(e)
      case Success(evs) => Gather(rs, t + 1) == Success(calendar + evs)
  {
  }

  /** `write_calendar`, from the venue page as fetched (None when the request failed). */
  method WriteCalendar(eventTitle: string, title: string, shopUri: string, page: Option<seq<Table>>)
    returns (r: Result<Output, Fault>)
    ensures r == VenueOutcome(eventTitle, title, shopUri, page)
  {
    if page.None? {
      return Failure(FetchFailed(shopUri));
    }
    var tables := page.value;
    ghost var rs := TableResults(eventTitle, shopUri, tables);
    var calendar: seq<Event> := [];
    var t := 0;
    while t < |tables|
      invariant 0 <= t <= |tables|
      invariant Gather(rs, t) == Success(calendar)
    {
      TableStep(eventTitle, shopUri, tables, t, calendar);
      var shop := CheckRows(eventTitle, shopUri, tables[t]);
      if shop.Failure? {
        GatherFailureSticks(rs, t + 1, |tables|);
        return Failure(shop.error);
      }
      var events := CaptureEvents(EventMaker(shop.value), tables[t].rows[2].items);
      if events.Failure? {
        GatherFailureSticks(rs, t + 1, |tables|);
        return Failure(events.error);
      }
      calendar := calendar + events.value;
      t := t + 1;
    }
    if calendar == [] {
      return Success(NoEvents(title + " has no events"));
    }
    return Success(CalendarFile(title + ".ics", calendar));
  }
}
