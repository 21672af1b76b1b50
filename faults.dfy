/** The conditions on which the program panics, each with the context the model records for it. */
module Faults {
  import SchedulePattern

  datatype Fault =
    | MissingTitle                                   // no `#title img` node
    | MissingAlt                                     // the title image has no `alt`
    | AreaWithoutHref                                // an `area` without `href`
    | AreaWithoutTitle                               // an `area` without `title`
    | UnresolvableLink(href: string)                 // `base_uri.join(href)` failed
    | FetchFailed(uri: string)                       // the GET request or the read failed
    | UnexpectedRows(uri: string, rows: nat)         // a result table without exactly 3 rows
    | MissingShopName                                // no `.shopname` in the first row
    | MissingAddress                                 // no `.list-adtext-detitext` in the second
    | UnrecognizableDescription(uri: string, shopName: string, text: string)
    | InvalidStartTime(captures: SchedulePattern.Captures)  // the RFC 3339 parse failed
}
