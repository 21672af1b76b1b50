# friendsscout-calendar, modelled in Dafny

friendsscout-calendar reads a schedule index page. It takes the event title from the `alt` of
the page's title image and visits each venue linked from the page's `area` elements, in order.
On each venue page it walks every result table. A table must have exactly three rows: the shop
name, the address, and a row of `strong` and `hr` nodes. The first `strong` of each
`hr`-delimited block carries a date and time such as `2024年03月15日 … /18:30～`. Each such
`strong` becomes a one-hour event at +09:00. A venue with events gets a `<title>.ics` file; a
venue without events gets a diagnostic. Any unexpected shape makes the program panic. The
panic ends the run, and the files already written stay in place.

The model has one module per concern:

- `SchedulePattern` (schedule_pattern.dfy) matches `(?s)(\d+)年(\d+)月(\d+)日.+/(\d+):(\d+)～`
  by hand. It tries each start position and takes the last time part after the date. It is
  proved to return exactly the leftmost-first match that a declarative reading of the pattern
  (`IsMatch`) describes.
- `Timestamp` (timestamp.dfy) builds the start time from the captured digits and adds an hour.
  The result is proved to be the unique valid time sixty minutes later on an absolute-minute
  scale.
- `Text` (text.dfy) is `str::trim`.
- `Gathering` (gather.dfy) runs steps in order and stops at the first failure. A panic part-way
  through a loop is modelled this way.
- `Faults` (faults.dfy) lists the panics, each with the context the model records for it.
- `Venue` (venue.dfy) is `write_calendar`. Its ghost functions state what a page yields without
  the `start_cap` flag: the events of the block-opening `strong`s, in document order. The
  methods `CaptureEvents`, `CheckRows` and `WriteCalendar` keep the program's loops and flag
  and are proved equal to those functions. The loop body's closure over the shop name, address
  and URL is passed to `CaptureEvents` as a function value, `EventMaker(shop)`.
- `IndexPage` (index.dfy) is `subcommand_generate`. `Generate` loops over the areas and is
  proved equal to `RunOf`, the run stated area by area.

HTTP, HTML parsing and CSS selection are inputs: a `Page` holds the attributes the index
selectors yield, a `Table` holds the rows and items the venue selectors yield, and a `Web` maps
each venue URL to its page. A URL missing from the `Web` stands for a failed request or read.
`Url::join` is the `Resolver` parameter.

Three behaviours of the code worth stating:

- A venue without events is not an error. The code prints the diagnostic, returns, and the
  loop goes on to the next area.
- The missing `href` and the missing `title` are two distinct panics.
- The flag starts as `false`, meaning "nothing captured yet".

## Model

| member | source | states |
|---|---|---|
| SchedulePattern.LastTimeAt | src/main.rs:89 | the greedy `.+`: the time part found is the last one in the range, none lies after it, and None means none lies in the range |
| SchedulePattern.SearchFrom | src/main.rs:89 | a found match starts at or after the first position tried, has its date part read there and a time part after the date's end |
| SchedulePattern.DateAtSound | src/main.rs:89 | what the date reader returns is three digit runs closed by 年, 月, 日 at that position |
| SchedulePattern.DateAtComplete | src/main.rs:89 | wherever the date part occurs, the date reader finds it with the same captures |
| SchedulePattern.TimeAtSound | src/main.rs:89 | what the time reader returns is `/`, digits, `:`, digits, `～` at that position |
| SchedulePattern.TimeAtComplete | src/main.rs:89 | wherever the time part occurs, the time reader finds it with the same captures |
| SchedulePattern.SearchFromLeftmostFirst | src/main.rs:131 | from any start position k, the search finds a match whenever one starts at or after k; it starts no later than any such match; at the same start its time part is no earlier and its date captures agree, and at the same time part all captures agree |
| SchedulePattern.SearchSound | src/main.rs:131 | whatever the search returns is a match of the pattern |
| SchedulePattern.SearchLeftmostFirst | src/main.rs:131 | every match of the pattern starts no earlier than the returned one; at the same start its time part is no later and the date captures agree; at the same start and time part all captures agree |
| SchedulePattern.Match | src/main.rs:131 | the captures returned are those of a match of the pattern somewhere in the text |
| SchedulePattern.MatchFailsOnlyWithoutMatch | src/main.rs:131-136 | the captures are missing (the panic) exactly when the pattern matches nowhere in the text |
| Timestamp.StartTime | src/main.rs:137-140 | the start time exists exactly when the captured numbers name a valid time with a year up to 9999; it is at +09:00 and carries those numbers |
| Timestamp.LeadingZeroIgnored | src/main.rs:137-140 | a leading zero does not change the number a captured field names, so `09` and `9` spell the same number |
| Timestamp.AddHour | src/main.rs:141 | the end time is a valid time at the start's offset, with the start's minute |
| Timestamp.AddHourIsOneHourLater | src/main.rs:141 | the end time is valid, at the same offset, and exactly sixty minutes after the start |
| Timestamp.ToMinutesInjective | src/main.rs:141 | two valid times at one offset naming the same minute are equal |
| Timestamp.AddHourUnique | src/main.rs:141 | any valid time sixty minutes after the start at its offset is the computed end time |
| Timestamp.YearRollover | src/main.rs:141 | 2024-12-31T23:30+09:00 plus an hour is 2025-01-01T00:30+09:00 |
| Text.Trim | src/main.rs:111 | the result is the slice of the input between its leading and trailing whitespace, and starts and ends with non-whitespace when non-empty |
| Text.TrimIdempotent | src/main.rs:119 | trimming a trimmed text changes nothing |
| Venue.OpensLocally | src/main.rs:121-158 | a `strong` is captured exactly when it is the first item or follows an `hr`, which is when no earlier `strong` shares its block |
| Venue.FirstStrongOpens | src/main.rs:121-129 | the first `strong` of a row is always captured |
| Venue.OpenIndices | src/main.rs:121-158 | the captured positions are exactly the block-opening `strong`s, in increasing order |
| Venue.AtMostOneEventPerBlock | src/main.rs:121-158 | a row yields at most one event more than it has `hr`s |
| Venue.StrongStrongHrStrong | src/main.rs:128-157 | in `strong, strong, hr, strong` the first and the fourth are captured and the second is not |
| Venue.MakeEvent | src/main.rs:130-153 | no match gives the unrecognizable-description panic with URL, shop name and text; an event has the event title, `name\nURL`, the address, valid start and end at +09:00, and the end sixty minutes after the start |
| Venue.MakeEventTimes | src/main.rs:130-141 | a matched text yields an event exactly when its captures name a valid start time; the event starts at that time and ends at that time plus an hour; captures naming no valid time give the start-time panic with those captures |
| Venue.ReadShop | src/main.rs:96-119 | a table yields a shop exactly when it has three rows, a shop-name node in the first and an address node in the second; the shop's name and address are those texts trimmed; otherwise the panic is the row-count one (with URL and count), then the shop-name one, then the address one, in that order |
| Venue.RowEvents | src/main.rs:121-158 | a row that goes through yields exactly one event per block-opening `strong` |
| Venue.TableEvents | src/main.rs:96-158 | a table whose row checks fail panics; a table that goes through had its shop read and yields one event per block-opening `strong` of its third row |
| Venue.PageEvents | src/main.rs:92-160 | a page that yields events went through every one of its tables |
| Venue.VenueOutcome | src/main.rs:77-172 | a failed fetch is the fetch panic naming the URL; a file is named `<title>.ics` and holds at least one event; the diagnostic is `<title> has no events` |
| Venue.RowEventsFromOpeningStrongs | src/main.rs:121-158 | a row's events are those of its block-opening `strong`s, one each and in document order |
| Venue.RowEventsFailure | src/main.rs:131-140 | a row that panics does so on the first block-opening `strong` whose text yields no event |
| Venue.RowEventsWellFormed | src/main.rs:142-151 | every event of a row carries the event title, the shop's name and URL, its address, and lasts one hour at +09:00 |
| Venue.TableEventFields | src/main.rs:104-151 | every event of a table carries the event title, the name, URL and address of the shop its first two rows describe, and lasts one hour at +09:00 |
| Venue.PageEventsFromTables | src/main.rs:92-160 | every event of a page is an event of the shop of one of its tables |
| Venue.VenueEventsFromTables | src/main.rs:92-172 | every event of a venue's file is an event of the shop of one of the venue's tables |
| Venue.WrongRowCountIsFatal | src/main.rs:97-103 | a table without three rows ends the venue with the panic naming the URL and the row count, once the tables before it went through |
| Venue.FileOnlyWithEvents | src/main.rs:161-166 | a venue yields `<title>.ics` with its events exactly when it has events, and otherwise the diagnostic `<title> has no events` |
| Venue.CaptureEvents | src/main.rs:121-158 | the flag walk over the third row returns the row's specified events, or its first panic |
| Venue.CheckRows | src/main.rs:96-119 | the row-count, shop-name and address checks, in the program's order, give the specified shop or panic |
| Venue.WriteCalendar | src/main.rs:77-172 | processing a venue gives the specified outcome: the fetch panic, the first panic among its tables, the diagnostic, or the file |
| IndexPage.AreaOutcome | src/main.rs:65-73 | an area that goes through has an `href` and a `title`, its link resolves to a URL whose page was read, and its file is named after its `title` |
| IndexPage.Areas | src/main.rs:64-74 | a run over n areas has at most n outputs, and ends without a panic exactly when it has n |
| IndexPage.RunOf | src/main.rs:55-74 | a run has at most one output per area, and any output at all means the page had a title image with an `alt` |
| IndexPage.AreasInOrder | src/main.rs:64-74 | the outputs are those of a prefix of the areas, each its own area's outcome; no panic exactly when every area was processed; otherwise the panic is that of the first unprocessed area |
| IndexPage.FilesNamedAfterAreas | src/main.rs:69-73 | every calendar file of a run is named after the `title` of its own area |
| IndexPage.EventsFromAreas | src/main.rs:55-74 | every event of every file a run writes has the index page's `alt` as its summary, and is an event of the shop of one of the tables on the page its area links to |
| IndexPage.NoTitleNoOutput | src/main.rs:55-63 | without a title image or its `alt` the run panics before any venue is processed |
| IndexPage.ProcessArea | src/main.rs:65-73 | reading `href`, then `title`, resolving the link and processing the venue gives the specified outcome of the area |
| IndexPage.Generate | src/main.rs:55-74 | the loop over the areas produces the specified run |

## Left out

- Command-line parsing, the parse of the URL argument, the client's User-Agent header and the
  fetch of the index page itself: `Generate` starts from the index page as read.
- HTTP transport and HTML parsing: a failed request and a failed read of a venue page are one
  fault, `FetchFailed`. The CSS selectors are not evaluated; their results are the inputs. In
  particular `tr` selects descendant rows, and the model takes the rows as given.
- `Url::join` and the printing of URLs: URLs are strings, and joining is a parameter.
- iCalendar serialization, the creation and writing of the `.ics` file and their failures, and
  the printing of the diagnostic. A venue's outcome is the file name with its events, or the
  diagnostic text.
- Timestamp.StartTime: it accepts any digit strings whose numbers name a valid time, and does
  not model the text the program formats for the RFC 3339 parser. `{:02}` applied to the hour,
  which is text, pads it with a trailing space rather than a leading zero. A one-digit hour such
  as `/9:00～` therefore becomes `T9 :00`, which the parser rejects: the program panics where
  the model makes an event. The parser's field widths (four-digit years, two-digit months, days
  and minutes in current chrono releases) are not modelled either, so a one-digit month or day
  is accepted here as well.
- SchedulePattern.Match: `\d` is taken as an ASCII digit; the regex crate's `\d` also matches
  other Unicode decimal digits.
- `AreaWithoutHref`: the selector `area[href]` yields only areas with an `href`, so that panic
  cannot occur. The model keeps the check as the code has it.
- The program stops at its first panic and does nothing after it. A run's `fault` records the
  panic and its context, not the message text.
