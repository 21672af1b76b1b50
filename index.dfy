/**
 * `subcommand_generate`: the index page names the event (the `alt` of its title image) and
 * lists the venues as `area` elements; each venue is processed in document order, and the
 * first panic ends the run with the files written so far left in place.
 */
module IndexPage {
  import opened Wrappers
  import opened Faults
  import Venue

  /**
   * The index page as the program's selectors see it: the attributes of the first
   * `#title img` node, if any, and those of each `#m_shop area[href]` node, in order.
   */
  datatype Page = Page(titleImage: Option<map<string, string>>, areas: seq<map<string, string>>)

  /** `base_uri.join(href)`: the absolute URL of a venue page, or None where it cannot be formed. */
  type Resolver = string -> Option<string>

  /**
   * The venue pages as the program would read them: a URL outside the map is one whose
   * request or read fails.
   */
  type Web = map<string, seq<Venue.Table>>

  /** What a run leaves behind: what each venue processed produced, and the panic that ended it. */
  datatype Run = Run(outputs: seq<Venue.Output>, fault: Option<Fault>)

  /** The venue page at uri, as `write_calendar` fetches it. */
  function Fetch(web: Web, uri: string): Option<seq<Venue.Table>> {
    if uri in web then Some(web[uri]) else None
  }

  // ---------------------------------------------------------------------------------------------
  // The run, stated area by area.

  /** What one area yields: its attribute checks, its link, then its venue. */
  ghost function AreaOutcome(eventTitle: string, area: map<string, string>, join: Resolver, web: Web): (r: Result<Venue.Output, Fault>)
    ensures r.Success? ==>
      && "href" in area && "title" in area
      && join(area["href"]).Some? && join(area["href"]).value in web
    ensures r.Success? && r.value.CalendarFile? ==> r.value.fileName == area["title"] + ".ics"
  {
    if "href" !in area then Failure(AreaWithoutHref)
    else if "title" !in area then Failure(AreaWithoutTitle)
    else match join(area["href"])
      case None => Failure(UnresolvableLink(area["href"]))
      case Some(uri) => Venue.VenueOutcome(eventTitle, area["title"], uri, Fetch(web, uri))
  }

  /** What processing an area yields. */
  type Visit = map<string, string> -> Result<Venue.Output, Fault>

  /** The loop body of a run with the given event title, links and venue pages. */
  ghost function Visiting(eventTitle: string, join: Resolver, web: Web): Visit {
    area => AreaOutcome(eventTitle, area, join, web)
  }

  /** The run over the first n areas: their outputs in order, up to the first panic. */
  ghost function Areas(visit: Visit, areas: seq<map<string, string>>, n: nat): (r: Run)
    requires n <= |areas|
    ensures |r.outputs| <= n
    ensures r.fault.None? <==> |r.outputs| == n
  {
    if n == 0 then Run([], None)
    else
      var before := Areas(visit, areas, n - 1);
      if before.fault.Some? then before
      else match visit(areas[n - 1])
        case Failure(e) => Run(before.outputs, Some(e))
        case Success(out) => Run(before.outputs + [out], None)
  }

  /** The whole run on an index page. */
  ghost function RunOf(page: Page, join: Resolver, web: Web): (r: Run)
    ensures |r.outputs| <= |page.areas|
    ensures r.outputs != [] ==> page.titleImage.Some? && "alt" in page.titleImage.value
  {
    if page.titleImage.None? then Run([], Some(MissingTitle))
    else if "alt" !in page.titleImage.value then Run([], Some(MissingAlt))
    else Areas(Visiting(page.titleImage.value["alt"], join, web), page.areas, |page.areas|)
  }

  // ---------------------------------------------------------------------------------------------
  // Properties of the run.

  /**
   * The outputs are those of a prefix of the areas, each the outcome of its own area; the run
   * ends without a panic exactly when every area was processed, and otherwise with the panic
   * of the first area that was not.
   */
  lemma {:induction false} AreasInOrder(visit: Visit, areas: seq<map<string, string>>, n: nat)
    requires n <= |areas|
    ensures var run := Areas(visit, areas, n);
      && |run.outputs| <= n
      && (forall k :: 0 <= k < |run.outputs| ==> visit(areas[k]) == Success(run.outputs[k]))
      && (run.fault.None? <==> |run.outputs| == n)
      && (run.fault.Some? ==> visit(areas[|run.outputs|]) == Failure(run.fault.value))
  {
    if n > 0 {
      AreasInOrder(visit, areas, n - 1);
    }
  }

  /** Every calendar file a run writes is named after the title of its area. */
  lemma FilesNamedAfterAreas(page: Page, join: Resolver, web: Web)
    requires page.titleImage.Some? && "alt" in page.titleImage.value
    ensures var run := RunOf(page, join, web);
      forall k :: 0 <= k < |run.outputs| && run.outputs[k].CalendarFile? ==>
        && "title" in page.areas[k]
        && run.outputs[k].fileName == page.areas[k]["title"] + ".ics"
  {
    var visit := Visiting(page.titleImage.value["alt"], join, web);
    AreasInOrder(visit, page.areas, |page.areas|);
    var run := RunOf(page, join, web);
    forall k | 0 <= k < |run.outputs| && run.outputs[k].CalendarFile?
      ensures "title" in page.areas[k] && run.outputs[k].fileName == page.areas[k]["title"] + ".ics"
    {
      assert AreaOutcome(page.titleImage.value["alt"], page.areas[k], join, web) == Success(run.outputs[k]);
    }
  }

  /**
   * Every event of every file a run writes carries the index page's event title, and is an
   * event of the shop of one of the tables on the page its area links to.
   */
  lemma EventsFromAreas(page: Page, join: Resolver, web: Web)
    requires page.titleImage.Some? && "alt" in page.titleImage.value
    ensures var run, alt := RunOf(page, join, web), page.titleImage.value["alt"];
      forall k, e :: 0 <= k < |run.outputs| && run.outputs[k].CalendarFile? && e in run.outputs[k].events ==>
        && e.summary == alt
        && "href" in page.areas[k] && join(page.areas[k]["href"]).Some?
        && var uri := join(page.areas[k]["href"]).value;
           && uri in web
           && exists t :: 0 <= t < |web[uri]| && Venue.EventOfTable(alt, uri, web[uri][t], e)
  {
    var alt := page.titleImage.value["alt"];
    AreasInOrder(Visiting(alt, join, web), page.areas, |page.areas|);
    var run := RunOf(page, join, web);
    forall k, e | 0 <= k < |run.outputs| && run.outputs[k].CalendarFile? && e in run.outputs[k].events
      ensures && e.summary == alt
              && "href" in page.areas[k] && join(page.areas[k]["href"]).Some?
              && var uri := join(page.areas[k]["href"]).value;
                 && uri in web
                 && exists t :: 0 <= t < |web[uri]| && Venue.EventOfTable(alt, uri, web[uri][t], e)
    {
      var area := page.areas[k];
      assert AreaOutcome(alt, area, join, web) == Success(run.outputs[k]);
      var uri := join(area["href"]).value;
      Venue.VenueEventsFromTables(alt, area["title"], uri, web[uri]);
      var t :| 0 <= t < |web[uri]| && Venue.EventOfTable(alt, uri, web[uri][t], e);
    }
  }

  /** A page without an event title panics before any venue is processed. */
  lemma NoTitleNoOutput(page: Page, join: Resolver, web: Web)
    requires page.titleImage.None? || "alt" !in page.titleImage.value
    ensures RunOf(page, join, web).outputs == [] && RunOf(page, join, web).fault.Some?
  {
  }

  // ---------------------------------------------------------------------------------------------
  // The program.

  /** One step of the walk over the areas. */
  lemma {:induction false} AreaStep(visit: Visit, areas: seq<map<string, string>>, k: nat, outputs: seq<Venue.Output>)
    requires k < |areas| && Areas(visit, areas, k) == Run(outputs, None)
    ensures Areas(visit, areas, k + 1) ==
      match visit(areas[k])
      case Failure(e) => Run(outputs, Some(e))
      case Success(out) => Run(outputs + [out], None)
  {
  }

  /** Once a panic has ended the run, later areas change nothing. */
  lemma {:induction false} FaultSticks(visit: Visit, areas: seq<map<string, string>>, k: nat, n: nat)
    requires k <= n <= |areas| && Areas(visit, areas, k).fault.Some?
    ensures Areas(visit, areas, n) == Areas(visit, areas, k)
    decreases n
  {
    if k < n {
      FaultSticks(visit, areas, k, n - 1);
    }
  }

  /** The body of the loop over the areas: read the link and the title, then the venue. */
  method ProcessArea(eventTitle: string, area: map<string, string>, join: Resolver, web: Web)
    returns (r: Result<Venue.Output, Fault>)
    ensures r == AreaOutcome(eventTitle, area, join, web)
  {
    if "href" !in area {
      return Failure(AreaWithoutHref);
    }
    var href := area["href"];
    if "title" !in area {
      return Failure(AreaWithoutTitle);
    }
    var title := area["title"];
    var uri := join(href);
    if uri.None? {
      return Failure(UnresolvableLink(href));
    }
    r := Venue.WriteCalendar(eventTitle, title, uri.value, Fetch(web, uri.value));
  }

  /** `subcommand_generate`, from the index page as read. */
  method Generate(page: Page, join: Resolver, web: Web) returns (run: Run)
    ensures run == RunOf(page, join, web)
  {
    if page.titleImage.None? {
      return Run([], Some(MissingTitle));
    }
    var attrs := page.titleImage.value;
    if "alt" !in attrs {
      return Run([], Some(MissingAlt));
    }
    var eventTitle := attrs["alt"];
    var areas := page.areas;
    ghost var visit := Visiting(eventTitle, join, web);
    var outputs: seq<Venue.Output> := [];
    var k := 0;
    while k < |areas|
      invariant 0 <= k <= |areas|
      invariant Areas(visit, areas, k) == Run(outputs, None)
    {
      AreaStep(visit, areas, k, outputs);
      var out := ProcessArea(eventTitle, areas[k], join, web);
      assert out == visit(areas[k]);
      if out.Failure? {
        FaultSticks(visit, areas, k + 1, |areas|);
        return Run(outputs, Some(out.error));
      }
      outputs := outputs + [out.value];
      k := k + 1;
    }
    return Run(outputs, None);
  }
}
