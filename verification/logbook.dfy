/**
 * Logbook entries: `CLOCK:` lines of a task, the duration after their `=>`,
 * and the entries the reconciliation writes for a given duration.
 */
module Logbook {
  import opened Wrappers
  import opened Text
  import opened Duration

  /** One logbook line, kept as its text. */
  datatype LogbookEntry = LogbookEntry(content: string)

  const Arrow := "=>"

  /** Python's `content.split('=>')[1]`: the text between the first and the second arrow. */
  function ArrowField(s: string): (r: Option<string>)
    ensures r.Some? <==> Contains(s, Arrow)
  {
    match Find(s, Arrow)
    case None => None
    case Some(i) =>
      var rest := s[i + 2..];
      match Find(rest, Arrow)
      case None => Some(rest)
      case Some(j) => Some(rest[..j])
  }

  /**
   * The field `split('=>')[1]` is the text after the first arrow, up to the
   * next arrow or to the end when there is none, and holds no arrow.
   */
  lemma ArrowFieldText(s: string)
    requires Contains(s, Arrow)
    ensures var rest := s[Find(s, Arrow).value + |Arrow|..];
      var f := ArrowField(s).value;
      !Contains(f, Arrow) && (f == rest || StartsWith(rest, f + Arrow))
  {
    var i := Find(s, Arrow).value;
    var rest := s[i + 2..];
    match Find(rest, Arrow)
    case None =>
      assert ArrowField(s) == Some(rest);
    case Some(j) =>
      assert ArrowField(s) == Some(rest[..j]);
      NoArrowBefore(rest, j);
      assert OccursAt(rest, Arrow, j);
      assert rest[..j + 2] == rest[..j] + rest[j..j + 2];
  }

  /** The text before the first arrow holds no arrow. */
  lemma NoArrowBefore(s: string, j: nat)
    requires Find(s, Arrow) == Some(j)
    ensures !Contains(s[..j], Arrow)
  {
    forall m: nat ensures !OccursAt(s[..j], Arrow, m) {
      if OccursAt(s[..j], Arrow, m) {
        assert s[..j][m..m + 2] == s[m..m + 2];
        assert OccursAt(s, Arrow, m);
      }
    }
  }

  /** An entry that records a duration: only such entries enter a logbook. */
  predicate Closed(e: LogbookEntry) {
    Contains(e.content, Arrow)
  }

  /** LogbookEntry.duration: the `H:M:S` text after the arrow, in seconds. */
  function EntryDuration(e: LogbookEntry): (r: Result<nat, Failure>)
    requires Closed(e)
    ensures r.Err? ==> r.error == ValueError
  {
    ParseTimestamp(Strip(ArrowField(e.content).value))
  }

  /**
   * The rendered start and end timestamps of an entry written for a
   * duration; the end depends on the duration. Rendered dates never hold an
   * arrow.
   */
  datatype Stamps = Stamps(start: string, end: nat -> string)

  ghost predicate ValidStamps(st: Stamps) {
    !Contains(st.start, Arrow) && forall d: nat :: !Contains(st.end(d), Arrow)
  }

  /** `{hours:02}:{minutes:02}:{seconds:02}` of a duration. */
  function ClockText(d: nat): (t: string)
    ensures '=' !in t && t != [] && IsDigit(t[0]) && IsDigit(t[|t| - 1])
  {
    var hours, remainder := d / 3600, d % 3600;
    var t := PadTwo(hours) + ":" + PadTwo(remainder / 60) + ":" + PadTwo(remainder % 60);
    assert forall u: string :: AllDigits(u) ==> '=' !in u;
    t
  }

  /** LogbookEntry.from_duration: a `CLOCK:` line for the given duration. */
  function FromDuration(st: Stamps, d: nat): (e: LogbookEntry)
    ensures StartsWith(e.content, "CLOCK:")
  {
    LogbookEntry("CLOCK: [" + st.start + "]--[" + st.end(d) + "] => " + ClockText(d))
  }

  /** The text of an entry before its arrow holds no arrow. */
  lemma ClockPrefixNoArrow(st: Stamps, d: nat)
    requires ValidStamps(st)
    ensures !Contains("CLOCK: [" + st.start + "]--[" + st.end(d) + "] ", Arrow)
  {
    var p1 := "CLOCK: [";
    NoPairWithout(p1, '=', '>');
    NoPairInConcat(p1, st.start, '=', '>');
    var p2 := p1 + st.start;
    NoPairWithout("]--[", '=', '>');
    NoPairInConcat(p2, "]--[", '=', '>');
    var p3 := p2 + "]--[";
    NoPairInConcat(p3, st.end(d), '=', '>');
    var p4 := p3 + st.end(d);
    NoPairWithout("] ", '=', '>');
    NoPairInConcat(p4, "] ", '=', '>');
  }

  /** The field after the arrow of an entry written for `d` is its clock text. */
  lemma ArrowFieldOfEntry(st: Stamps, d: nat)
    requires ValidStamps(st)
    ensures ArrowField(FromDuration(st, d).content) == Some(" " + ClockText(d))
  {
    var t := ClockText(d);
    var prefix := "CLOCK: [" + st.start + "]--[" + st.end(d) + "] ";
    var content := FromDuration(st, d).content;
    assert content == prefix + ['=', '>'] + (" " + t);
    ClockPrefixNoArrow(st, d);
    FindPairAfter(prefix, '=', '>', " " + t);
    assert content[|prefix| + 2..] == " " + t;
    NoPairWithout(" " + t, '=', '>');
  }

  /** The clock text of a duration reads back as that duration. */
  lemma ClockTextRoundTrip(d: nat)
    ensures ParseTimestamp(ClockText(d)) == Ok(d)
  {
    var hours, minutes, seconds := d / 3600, (d % 3600) / 60, (d % 3600) % 60;
    var text := PadTwo(hours) + ":" + PadTwo(minutes) + ":" + PadTwo(seconds);
    DurationPartsSum(d);
    TimestampRoundTrip(hours, minutes, seconds);
    assert ParseTimestamp(text) == Ok(d);
    assert ClockText(d) == text;
  }

  /** The duration read back from an entry written for `d` is `d`. */
  lemma FromDurationRoundTrip(st: Stamps, d: nat)
    requires ValidStamps(st)
    ensures Closed(FromDuration(st, d))
    ensures EntryDuration(FromDuration(st, d)) == Ok(d)
  {
    var t := ClockText(d);
    ArrowFieldOfEntry(st, d);
    StripLeadingSpace(t);
    ClockTextRoundTrip(d);
  }
}
