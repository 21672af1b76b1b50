/**
 * The schedule text matcher: a hand-written replacement for the regular expression
 *
 *     (?s)(\d+)年(\d+)月(\d+)日.+/(\d+):(\d+)～
 *
 * applied with leftmost-first semantics, as `Regex::captures` does. `\d` is taken to be an
 * ASCII digit, and `(?s)` lets `.` match every character, newlines included.
 */
module SchedulePattern {
  import opened Wrappers

  const Nen: char := '\U{5E74}'       // 年, closes the year
  const Gatsu: char := '\U{6708}'     // 月, closes the month
  const Nichi: char := '\U{65E5}'     // 日, closes the day
  const WaveDash: char := '\U{FF5E}'  // ～, closes the minute

  predicate IsDigit(c: char) { '0' <= c <= '9' }

  /** What `\d+` matches: one or more digits. */
  predicate IsDigits(s: string) {
    |s| > 0 && forall i :: 0 <= i < |s| ==> IsDigit(s[i])
  }

  /** The five capture groups, as the text they matched. */
  datatype Captures = Captures(year: string, month: string, day: string, hour: string, minute: string)

  // ---------------------------------------------------------------------------------------------
  // The pattern, read declaratively.

  predicate FieldsAreDigits(c: Captures) {
    IsDigits(c.year) && IsDigits(c.month) && IsDigits(c.day) && IsDigits(c.hour) && IsDigits(c.minute)
  }

  /** `(\d+)` followed by `stop`, with d the text of the group: d occupies s[i..i + |d|]. */
  predicate RunThen(s: string, i: nat, d: string, stop: char) {
    i + |d| < |s| && s[i..i + |d|] == d && s[i + |d|] == stop
  }

  /** `(\d+)年(\d+)月(\d+)日` matches at p with the given captures. */
  predicate DateOccursAt(s: string, p: nat, c: Captures) {
    && RunThen(s, p, c.year, Nen)
    && RunThen(s, p + |c.year| + 1, c.month, Gatsu)
    && RunThen(s, p + |c.year| + |c.month| + 2, c.day, Nichi)
  }

  /** The length of the text `(\d+)年(\d+)月(\d+)日` matches. */
  function DateLength(c: Captures): nat {
    |c.year| + |c.month| + |c.day| + 3
  }

  /** `/(\d+):(\d+)～` matches at q with the given captures. */
  predicate TimeOccursAt(s: string, q: nat, c: Captures) {
    && q < |s| && s[q] == '/'
    && RunThen(s, q + 1, c.hour, ':')
    && RunThen(s, q + |c.hour| + 2, c.minute, WaveDash)
  }

  /**
   * The whole pattern matches s with the date part starting at p and the `/` of the time part
   * at q; `.+` matches s[p + DateLength(c) .. q], which holds at least one character.
   */
  predicate IsMatch(s: string, p: nat, q: nat, c: Captures) {
    && FieldsAreDigits(c)
    && DateOccursAt(s, p, c)
    && p + DateLength(c) < q
    && TimeOccursAt(s, q, c)
  }

  // ---------------------------------------------------------------------------------------------
  // The matcher.

  /** The end of the run of digits that starts at i. */
  function DigitRunEnd(s: string, i: nat): (j: nat)
    requires i <= |s|
    ensures i <= j <= |s|
    ensures forall k :: i <= k < j ==> IsDigit(s[k])
    ensures j == |s| || !IsDigit(s[j])
    decreases |s| - i
  {
    if i < |s| && IsDigit(s[i]) then DigitRunEnd(s, i + 1) else i
  }

  /** `(\d+)` immediately followed by `stop`, starting at i: the digits and the index after `stop`. */
  function DigitsThen(s: string, i: nat, stop: char): Option<(string, nat)>
    requires i <= |s|
  {
    var j := DigitRunEnd(s, i);
    if i < j < |s| && s[j] == stop then Some((s[i..j], j + 1)) else None
  }

  datatype DatePart = DatePart(year: string, month: string, day: string, end: nat)
  datatype TimePart = TimePart(hour: string, minute: string)

  /** `(\d+)年(\d+)月(\d+)日` at p; `end` is the index just after 日. */
  function DateAt(s: string, p: nat): Option<DatePart>
    requires p <= |s|
  {
    match DigitsThen(s, p, Nen)
    case None => None
    case Some((y, i)) =>
      match DigitsThen(s, i, Gatsu)
      case None => None
      case Some((m, j)) =>
        match DigitsThen(s, j, Nichi)
        case None => None
        case Some((d, k)) => Some(DatePart(y, m, d, k))
  }

  /** `/(\d+):(\d+)～` at q. */
  function TimeAt(s: string, q: nat): Option<TimePart>
    requires q <= |s|
  {
    if q < |s| && s[q] == '/' then
      match DigitsThen(s, q + 1, ':')
      case None => None
      case Some((h, i)) =>
        match DigitsThen(s, i, WaveDash)
        case None => None
        case Some((m, _)) => Some(TimePart(h, m))
    else None
  }

  /** The greedy `.+`: the last q in [lo, hi) at which the time part matches. */
  function LastTimeAt(s: string, lo: nat, hi: nat): (r: Option<(nat, TimePart)>)
    requires hi <= |s|
    ensures r.Some? ==> lo <= r.value.0 < hi && TimeAt(s, r.value.0) == Some(r.value.1)
    ensures r.Some? ==> forall q :: r.value.0 < q < hi ==> TimeAt(s, q).None?
    ensures r.None? ==> forall q :: lo <= q < hi ==> TimeAt(s, q).None?
    decreases hi
  {
    if hi <= lo then None
    else match TimeAt(s, hi - 1)
      case Some(t) => Some((hi - 1, t))
      case None => LastTimeAt(s, lo, hi - 1)
  }

  /** A match: where it starts, where its time part starts, and what it captured. */
  datatype Found = Found(start: nat, timeAt: nat, captures: Captures)

  /** Tries the start positions p, p + 1, ... in turn, as the regex engine does. */
  function SearchFrom(s: string, p: nat): (r: Option<Found>)
    requires p <= |s|
    ensures r.Some? ==>
      var Found(start, q, c) := r.value;
      && p <= start < |s| && q < |s|
      && DateAt(s, start).Some? && DateAt(s, start).value.end < q
      && DateAt(s, start).value == DatePart(c.year, c.month, c.day, DateAt(s, start).value.end)
      && TimeAt(s, q) == Some(TimePart(c.hour, c.minute))
    decreases |s| - p
  {
    if p == |s| then None
    else match DateAt(s, p)
      case None => SearchFrom(s, p + 1)
      case Some(d) =>
        match LastTimeAt(s, d.end + 1, |s|)
        case None => SearchFrom(s, p + 1)
        case Some((q, t)) => Some(Found(p, q, Captures(d.year, d.month, d.day, t.hour, t.minute)))
  }

  /** `re.captures(&desc)`: the leftmost-first match, if any. */
  function Search(s: string): Option<Found> {
    SearchFrom(s, 0)
  }

  /** The five capture groups of `re.captures(&desc)`, or None where the text does not match. */
  function Match(s: string): (r: Option<Captures>)
    ensures r.Some? ==> exists p: nat, q: nat :: IsMatch(s, p, q, r.value)
  {
    match Search(s)
    case None => None
    case Some(f) =>
      SearchSound(s);
      Some(f.captures)
  }

  // ---------------------------------------------------------------------------------------------
  // The matcher finds exactly what the pattern describes.

  /** What DigitsThen reads is a run of digits followed by `stop`. */
  lemma {:induction false} DigitsThenSound(s: string, i: nat, stop: char)
    requires i <= |s| && DigitsThen(s, i, stop).Some?
    ensures var (d, k) := DigitsThen(s, i, stop).value;
      IsDigits(d) && k == i + |d| + 1 && RunThen(s, i, d, stop)
  {
  }

  /** A maximal run of digits is found where it is. */
  lemma {:induction false} DigitRunEndAt(s: string, i: nat, j: nat)
    requires i <= j <= |s|
    requires forall k :: i <= k < j ==> IsDigit(s[k])
    requires j == |s| || !IsDigit(s[j])
    ensures DigitRunEnd(s, i) == j
    decreases j - i
  {
    if i < j {
      DigitRunEndAt(s, i + 1, j);
    }
  }

  /** A run of digits followed by a non-digit `stop` is read by DigitsThen as it is. */
  lemma {:induction false} DigitsThenAt(s: string, i: nat, d: string, stop: char)
    requires i <= |s| && IsDigits(d) && !IsDigit(stop)
    requires RunThen(s, i, d, stop)
    ensures DigitsThen(s, i, stop) == Some((d, i + |d| + 1))
  {
    var j := i + |d|;
    forall k | i <= k < j ensures IsDigit(s[k]) {
      assert s[k] == s[i..j][k - i];
    }
    DigitRunEndAt(s, i, j);
  }

  /** What DateAt reads is the date part of the pattern. */
  lemma {:induction false} DateAtSound(s: string, p: nat, c: Captures, end: nat)
    requires p <= |s| && DateAt(s, p) == Some(DatePart(c.year, c.month, c.day, end))
    ensures IsDigits(c.year) && IsDigits(c.month) && IsDigits(c.day)
    ensures DateOccursAt(s, p, c) && end == p + DateLength(c)
  {
    var (y, i) := DigitsThen(s, p, Nen).value;
    DigitsThenSound(s, p, Nen);
    var (m, j) := DigitsThen(s, i, Gatsu).value;
    DigitsThenSound(s, i, Gatsu);
    DigitsThenSound(s, j, Nichi);
  }

  /** Wherever the date part occurs, DateAt finds it, with the same captures. */
  lemma {:induction false} DateAtComplete(s: string, p: nat, c: Captures)
    requires FieldsAreDigits(c) && DateOccursAt(s, p, c)
    ensures DateAt(s, p) == Some(DatePart(c.year, c.month, c.day, p + DateLength(c)))
  {
    var i, j := p + |c.year| + 1, p + |c.year| + |c.month| + 2;
    DigitsThenAt(s, p, c.year, Nen);
    DigitsThenAt(s, i, c.month, Gatsu);
    DigitsThenAt(s, j, c.day, Nichi);
  }

  /** What TimeAt reads is the time part of the pattern. */
  lemma {:induction false} TimeAtSound(s: string, q: nat, c: Captures)
    requires q <= |s| && TimeAt(s, q) == Some(TimePart(c.hour, c.minute))
    ensures IsDigits(c.hour) && IsDigits(c.minute) && TimeOccursAt(s, q, c)
  {
    var (h, i) := DigitsThen(s, q + 1, ':').value;
    DigitsThenSound(s, q + 1, ':');
    DigitsThenSound(s, i, WaveDash);
  }

  /** Wherever the time part occurs, TimeAt finds it, with the same captures. */
  lemma {:induction false} TimeAtComplete(s: string, q: nat, c: Captures)
    requires FieldsAreDigits(c) && TimeOccursAt(s, q, c)
    ensures TimeAt(s, q) == Some(TimePart(c.hour, c.minute))
  {
    DigitsThenAt(s, q + 1, c.hour, ':');
    DigitsThenAt(s, q + |c.hour| + 2, c.minute, WaveDash);
  }

  /** Whatever Search finds is a match of the pattern. */
  lemma {:induction false} SearchSound(s: string)
    requires Search(s).Some?
    ensures var f := Search(s).value; IsMatch(s, f.start, f.timeAt, f.captures)
  {
    var Found(p, q, c) := Search(s).value;
    DateAtSound(s, p, c, DateAt(s, p).value.end);
    TimeAtSound(s, q, c);
  }

  /** The greedy `.+` settles on the last time part, so never on one before another. */
  lemma LastTimeAtReaches(s: string, lo: nat, q: nat, t: TimePart)
    requires lo <= q < |s| && TimeAt(s, q) == Some(t)
    ensures var last := LastTimeAt(s, lo, |s|);
      last.Some? && q <= last.value.0 && (q == last.value.0 ==> last.value.1 == t)
  {
  }

  /** Where the date part is read at p and a time part after it, the search stops at p. */
  lemma {:induction false} SearchFromAtDate(s: string, p: nat, d: DatePart, q: nat, t: TimePart)
    requires p < |s| && DateAt(s, p) == Some(d) && d.end < q < |s| && TimeAt(s, q) == Some(t)
    ensures SearchFrom(s, p).Some?
    ensures var f := SearchFrom(s, p).value;
      && f.start == p && q <= f.timeAt
      && f.captures.year == d.year && f.captures.month == d.month && f.captures.day == d.day
      && (q == f.timeAt ==> f.captures.hour == t.hour && f.captures.minute == t.minute)
  {
    LastTimeAtReaches(s, d.end + 1, q, t);
  }

  /** At the start of a match, the search succeeds, with the greedy choice of time part. */
  lemma {:induction false} SearchFromAtMatch(s: string, p: nat, q: nat, c: Captures)
    requires IsMatch(s, p, q, c)
    ensures SearchFrom(s, p).Some?
    ensures var f := SearchFrom(s, p).value;
      && f.start == p && q <= f.timeAt
      && f.captures.year == c.year && f.captures.month == c.month && f.captures.day == c.day
      && (q == f.timeAt ==> f.captures == c)
  {
    DateAtComplete(s, p, c);
    TimeAtComplete(s, q, c);
    SearchFromAtDate(s, p, DatePart(c.year, c.month, c.day, p + DateLength(c)), q, TimePart(c.hour, c.minute));
  }

  lemma {:induction false} SearchFromLeftmostFirst(s: string, k: nat, p: nat, q: nat, c: Captures)
    requires k <= p && IsMatch(s, p, q, c)
    ensures SearchFrom(s, k).Some?
    ensures var f := SearchFrom(s, k).value;
      && f.start <= p
      && (f.start == p ==> q <= f.timeAt && f.captures.year == c.year
                           && f.captures.month == c.month && f.captures.day == c.day)
      && (f.start == p && q == f.timeAt ==> f.captures == c)
    decreases p - k
  {
    if k == p {
      SearchFromAtMatch(s, p, q, c);
    } else if DateAt(s, k).None? || LastTimeAt(s, DateAt(s, k).value.end + 1, |s|).None? {
      SearchFromLeftmostFirst(s, k + 1, p, q, c);
    }
  }

  /**
   * Search returns THE leftmost-first match: any match of the pattern starts no earlier than
   * the one found; at the same start, the greedy `.+` puts the found time part at or after it
   * and the date captures agree; at the same start and time part, all captures agree.
   */
  lemma {:induction false} SearchLeftmostFirst(s: string, p: nat, q: nat, c: Captures)
    requires IsMatch(s, p, q, c)
    ensures Search(s).Some?
    ensures var f := Search(s).value;
      && f.start <= p
      && (f.start == p ==> q <= f.timeAt && f.captures.year == c.year
                           && f.captures.month == c.month && f.captures.day == c.day)
      && (f.start == p && q == f.timeAt ==> f.captures == c)
  {
    SearchFromLeftmostFirst(s, 0, p, q, c);
  }

  /** Match fails exactly on the texts the pattern does not match anywhere. */
  lemma {:induction false} MatchFailsOnlyWithoutMatch(s: string)
    ensures Match(s).None? <==> forall p: nat, q: nat, c :: !IsMatch(s, p, q, c)
  {
    if Match(s).None? {
      forall p: nat, q: nat, c | IsMatch(s, p, q, c) ensures false {
        SearchLeftmostFirst(s, p, q, c);
      }
    } else {
      SearchSound(s);
    }
  }
}
