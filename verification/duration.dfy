/**
 * The duration codec: reading `H:M:S` timestamps and free-form `Xh Ym`
 * input, rounding to five-minute units, and rendering `1h 1m`-style text.
 * Every duration is a whole number of seconds.
 */
module Duration {
  import opened Wrappers
  import opened Text

  /** The rounding granularity: five minutes, in seconds. */
  const Interval: nat := 300

  /** Remainders above this many seconds round up to the next interval. */
  const RoundUpThreshold: nat := 90

  /** The ParseError message for a token that ends in neither `h` nor `m`. */
  const InputFormatMessage := "Invalid duration string format. Only hours and minutes are supported."

  /**
   * parse_duration_timestamp: `H:M:S` with three integer fields, as seconds.
   * Anything else (a wrong number of fields, a field that is not an integer)
   * raises ValueError; a ParseError never comes out of it.
   */
  function ParseTimestamp(s: string): (r: Result<nat, Failure>)
    ensures r.Err? ==> r.error == ValueError
    ensures r.Ok? <==> |Split(s, ':')| == 3 && forall f :: f in Split(s, ':') ==> ParseNat(f).Some?
  {
    var fields := Split(s, ':');
    if |fields| != 3 then Err(ValueError)
    else
      match (ParseNat(fields[0]), ParseNat(fields[1]), ParseNat(fields[2]))
      case (Some(h), Some(m), Some(sec)) => Ok(h * 3600 + m * 60 + sec)
      case _ => Err(ValueError)
  }

  /** Three colon-free fields joined with colons read back field by field. */
  lemma ParseTimestampOf(a: string, b: string, c: string, h: nat, m: nat, sec: nat)
    requires ':' !in a && ':' !in b && ':' !in c
    requires ParseNat(a) == Some(h) && ParseNat(b) == Some(m) && ParseNat(c) == Some(sec)
    ensures ParseTimestamp(a + ":" + b + ":" + c) == Ok(h * 3600 + m * 60 + sec)
  {
    var s := a + ":" + b + ":" + c;
    assert s == a + [':'] + (b + [':'] + c);
    SplitAt(a, ':', b + [':'] + c);
    SplitAt(b, ':', c);
    SplitNone(c, ':');
    assert Split(s, ':') == [a, b, c];
  }

  /** Three zero-padded fields joined with colons read back as h*3600 + m*60 + s. */
  lemma {:induction false} TimestampRoundTrip(h: nat, m: nat, sec: nat)
    ensures ParseTimestamp(PadTwo(h) + ":" + PadTwo(m) + ":" + PadTwo(sec)) == Ok(h * 3600 + m * 60 + sec)
  {
    var a, b, c := PadTwo(h), PadTwo(m), PadTwo(sec);
    DigitsExclude(a, ':');
    DigitsExclude(b, ':');
    DigitsExclude(c, ':');
    PadTwoRoundTrip(h);
    PadTwoRoundTrip(m);
    PadTwoRoundTrip(sec);
    ParseTimestampOf(a, b, c, h, m, sec);
  }

  /** What one token of free-form input contributes. */
  datatype Token = Hours(hours: nat) | Minutes(minutes: nat) | Invalid(failure: Failure)

  /**
   * One whitespace-separated token of parse_duration_input: `<int>h` sets the
   * hours, `<int>m` adds minutes; a bad magnitude raises ValueError and any
   * other suffix raises ParseError.
   */
  function ReadToken(part: string): (t: Token)
    ensures t.Hours? ==> EndsWith(part, "h") && ParseNat(part[..|part| - 1]) == Some(t.hours)
    ensures t.Minutes? ==> EndsWith(part, "m") && ParseNat(part[..|part| - 1]) == Some(t.minutes)
    ensures t.Invalid? && t.failure.ParseError? <==> !EndsWith(part, "h") && !EndsWith(part, "m")
    ensures EndsWith(part, "h") && ParseNat(part[..|part| - 1]).Some? ==>
      t == Hours(ParseNat(part[..|part| - 1]).value)
    ensures EndsWith(part, "m") && ParseNat(part[..|part| - 1]).Some? ==>
      t == Minutes(ParseNat(part[..|part| - 1]).value)
    ensures t == Invalid(ValueError) <==>
      (EndsWith(part, "h") || EndsWith(part, "m")) && ParseNat(part[..|part| - 1]).None?
  {
    if EndsWith(part, "h") then
      match ParseNat(part[..|part| - 1])
      case Some(n) => Hours(n)
      case None => Invalid(ValueError)
    else if EndsWith(part, "m") then
      match ParseNat(part[..|part| - 1])
      case Some(n) => Minutes(n)
      case None => Invalid(ValueError)
    else Invalid(ParseError(InputFormatMessage))
  }

  /** The failure of the first invalid token, if any. */
  function FirstFailure(parts: seq<string>): (f: Option<Failure>)
    ensures f.Some? ==> f.value == ValueError || f.value == ParseError(InputFormatMessage)
  {
    if parts == [] then None
    else
      match FirstFailure(parts[..|parts| - 1])
      case Some(f) => Some(f)
      case None =>
        match ReadToken(parts[|parts| - 1])
        case Invalid(f) => Some(f)
        case _ => None
  }

  /** The hours of the last `h` token (a later one overrides an earlier one), 0 if none. */
  function LastHours(parts: seq<string>): nat {
    if parts == [] then 0
    else
      match ReadToken(parts[|parts| - 1])
      case Hours(n) => n
      case _ => LastHours(parts[..|parts| - 1])
  }

  /** The sum of the minutes of all `m` tokens. */
  function TotalMinutes(parts: seq<string>): nat {
    if parts == [] then 0
    else
      TotalMinutes(parts[..|parts| - 1]) +
      match ReadToken(parts[|parts| - 1])
      case Minutes(n) => n
      case _ => 0
  }

  /**
   * The meaning of parse_duration_input: the failure of the first invalid
   * token, otherwise the last hours and the summed minutes, in seconds.
   */
  function DurationInput(s: string): (r: Result<nat, Failure>)
    ensures r.Err? ==> r.error == ValueError || r.error == ParseError(InputFormatMessage)
  {
    var parts := Words(s);
    match FirstFailure(parts)
    case Some(f) => Err(f)
    case None => Ok(LastHours(parts) * 3600 + TotalMinutes(parts) * 60)
  }

  /** Once a failure is found, later tokens do not change it. */
  lemma {:induction false} FirstFailureSticks(parts: seq<string>, j: nat)
    requires j <= |parts| && FirstFailure(parts[..j]).Some?
    ensures FirstFailure(parts) == FirstFailure(parts[..j])
    decreases |parts|
  {
    if j == |parts| {
      assert parts[..j] == parts;
    } else {
      var front := parts[..|parts| - 1];
      assert front[..j] == parts[..j];
      FirstFailureSticks(front, j);
    }
  }

  /** An invalid token after valid ones is the first failure of the prefix it ends. */
  lemma {:induction false} FailureEndsPrefix(parts: seq<string>, i: nat)
    requires i < |parts| && FirstFailure(parts[..i]) == None && ReadToken(parts[i]).Invalid?
    ensures FirstFailure(parts[..i + 1]) == Some(ReadToken(parts[i]).failure)
  {
    var pre := parts[..i + 1];
    assert pre[..|pre| - 1] == parts[..i];
    assert pre[|pre| - 1] == parts[i];
  }

  /** An invalid token after valid ones decides the outcome of the whole input. */
  lemma {:induction false} FailureAt(parts: seq<string>, i: nat)
    requires i < |parts| && FirstFailure(parts[..i]) == None && ReadToken(parts[i]).Invalid?
    ensures FirstFailure(parts) == Some(ReadToken(parts[i]).failure)
  {
    var f := ReadToken(parts[i]).failure;
    FailureEndsPrefix(parts, i);
    assert FirstFailure(parts[..i + 1]) == Some(f);
    FirstFailureSticks(parts, i + 1);
  }

  /** parse_duration_input, token by token. */
  method ParseDurationInput(s: string) returns (r: Result<nat, Failure>)
    ensures r == DurationInput(s)
  {
    var parts := Words(s);
    var hours, minutes := 0, 0;
    for i := 0 to |parts|
      invariant FirstFailure(parts[..i]) == None
      invariant hours == LastHours(parts[..i])
      invariant minutes == TotalMinutes(parts[..i])
    {
      var part := parts[i];
      if EndsWith(part, "h") {
        var n := ParseNat(part[..|part| - 1]);
        if n.None? {
          FailureAt(parts, i);
          return Err(ValueError);
        }
        hours := n.value;
      } else if EndsWith(part, "m") {
        var n := ParseNat(part[..|part| - 1]);
        if n.None? {
          FailureAt(parts, i);
          return Err(ValueError);
        }
        minutes := minutes + n.value;
      } else {
        FailureAt(parts, i);
        return Err(ParseError(InputFormatMessage));
      }
      FoldsSnoc(parts[..i], part);
      assert parts[..i + 1] == parts[..i] + [part];
    }
    assert parts[..|parts|] == parts;
    return Ok(hours * 3600 + minutes * 60);
  }

  /**
   * round_duration: zero stays zero, anything shorter than five minutes
   * counts as five minutes, and otherwise the result is the multiple of five
   * minutes reached by rounding down a remainder of up to 90 seconds and
   * rounding up a larger one.
   */
  function RoundDuration(seconds: nat): (r: nat)
    ensures r % Interval == 0
    ensures r == 0 <==> seconds == 0
    ensures 0 < seconds < Interval ==> r == Interval
    ensures seconds >= Interval ==> seconds as int - RoundUpThreshold <= r < seconds + Interval - RoundUpThreshold
  {
    if seconds == 0 then 0
    else if seconds < Interval then Interval
    else
      var base, remainder := seconds / Interval, seconds % Interval;
      var duration := Interval * base;
      if remainder > RoundUpThreshold then duration + Interval else duration
  }

  /** The window in RoundDuration's contract holds exactly one multiple of five minutes. */
  lemma RoundDurationDetermined(seconds: nat, m: nat)
    requires seconds >= Interval && m % Interval == 0
    requires seconds as int - RoundUpThreshold <= m < seconds + Interval - RoundUpThreshold
    ensures m == RoundDuration(seconds)
  {
    var r := RoundDuration(seconds);
    assert r % Interval == 0;
    assert m as int - r < Interval && r as int - m < Interval;
    assert (m as int - r) % Interval == 0;
  }

  /** Rounding a rounded duration changes nothing. */
  lemma RoundDurationIdempotent(seconds: nat)
    ensures RoundDuration(RoundDuration(seconds)) == RoundDuration(seconds)
  {
    var r := RoundDuration(seconds);
    if r >= Interval {
      RoundDurationDetermined(r, r);
    }
  }

  /** A longer duration never rounds to less. */
  lemma RoundDurationMonotonic(a: nat, b: nat)
    requires a <= b
    ensures RoundDuration(a) <= RoundDuration(b)
  {
    var ra, rb := RoundDuration(a), RoundDuration(b);
    assert (ra - rb) % Interval == 0;
    assert ra > rb ==> ra - rb >= Interval;
  }

  /** The 90-second threshold: a remainder of 90 rounds down, 91 rounds up. */
  lemma RoundDurationThreshold()
    ensures RoundDuration(390) == 300
    ensures RoundDuration(391) == 600
    ensures RoundDuration(1) == 300 && RoundDuration(0) == 0
  {
  }

  /** A written number with the given unit is a word. */
  lemma WrittenIsWord(n: nat, unit: char)
    requires unit == 'h' || unit == 'm' || unit == 's'
    ensures IsWord(NatToString(n) + [unit])
  {
    var t := NatToString(n) + [unit];
    forall j | 0 <= j < |t| ensures !IsSpace(t[j]) {
      if j < |NatToString(n)| { assert IsDigit(t[j]); }
    }
  }

  /** The hours and minutes tokens format_duration writes, each left out when zero. */
  function WrittenHoursMinutes(hours: nat, minutes: nat): seq<string> {
    (if hours > 0 then [NatToString(hours) + "h"] else []) +
    (if minutes > 0 then [NatToString(minutes) + "m"] else [])
  }

  /** The tokens written for a duration split into hours, minutes and seconds. */
  function WrittenParts(hours: nat, minutes: nat, secs: nat): (parts: seq<string>)
    ensures 1 <= |parts| <= 3
    ensures forall i :: 0 <= i < |parts| ==> IsWord(parts[i])
  {
    var hm := WrittenHoursMinutes(hours, minutes);
    WrittenIsWord(hours, 'h');
    WrittenIsWord(minutes, 'm');
    WrittenIsWord(secs, 's');
    if secs > 0 || hm == [] then hm + [NatToString(secs) + "s"] else hm
  }

  /** The pieces of format_duration: hours, minutes and seconds, zero parts left out. */
  function DurationParts(seconds: nat): (parts: seq<string>)
    ensures 1 <= |parts| <= 3
    ensures forall i :: 0 <= i < |parts| ==> IsWord(parts[i])
  {
    WrittenParts(seconds / 3600, (seconds % 3600) / 60, (seconds % 3600) % 60)
  }

  /** format_duration: `1h 1m`, `45s`, `0s`. */
  function FormatDuration(seconds: nat): string {
    Join(DurationParts(seconds), " ")
  }

  /** format_duration renders no time at all as `0s`. */
  lemma FormatDurationZero()
    ensures FormatDuration(0) == "0s"
  {
    assert WrittenHoursMinutes(0, 0) == [];
    assert NatToString(0) + "s" == "0s";
    assert WrittenParts(0, 0, 0) == ["0s"];
  }

  /** format_duration renders less than a minute in seconds alone: `45s`. */
  lemma FormatDurationSeconds()
    ensures FormatDuration(45) == "45s"
  {
    assert NatToString(45) == "45" by {
      assert NatToString(4) == "4";
    }
    assert WrittenHoursMinutes(0, 0) == [];
    assert NatToString(45) + "s" == "45s";
    assert WrittenParts(0, 0, 45) == ["45s"];
  }

  /** format_duration leaves out zero seconds after hours and minutes: `1h 1m`. */
  lemma FormatDurationHoursMinutes()
    ensures FormatDuration(3660) == "1h 1m"
  {
    assert NatToString(1) + "h" == "1h" && NatToString(1) + "m" == "1m";
    assert WrittenHoursMinutes(1, 1) == ["1h", "1m"];
    assert WrittenParts(1, 1, 0) == ["1h", "1m"];
  }

  /** The reading of an `<n>h` or `<n>m` token written by format_duration. */
  lemma ReadWrittenToken(n: nat, unit: char)
    requires unit == 'h' || unit == 'm' || unit == 's'
    ensures ReadToken(NatToString(n) + [unit]) ==
      if unit == 'h' then Hours(n) else if unit == 'm' then Minutes(n) else Invalid(ParseError(InputFormatMessage))
  {
    var t := NatToString(n) + [unit];
    assert t[..|t| - 1] == NatToString(n);
    NatToStringRoundTrip(n);
    assert EndsWith(t, [unit]);
  }

  /** Each fold takes one more token into account. */
  lemma FoldsSnoc(parts: seq<string>, x: string)
    ensures FirstFailure(parts + [x]) ==
      match FirstFailure(parts) case Some(f) => Some(f) case None =>
        match ReadToken(x) case Invalid(f) => Some(f) case _ => None
    ensures LastHours(parts + [x]) == match ReadToken(x) case Hours(n) => n case _ => LastHours(parts)
    ensures TotalMinutes(parts + [x]) == TotalMinutes(parts) + match ReadToken(x) case Minutes(n) => n case _ => 0
  {
    assert (parts + [x])[..|parts|] == parts;
  }

  /** The hours and minutes tokens read back as they were written. */
  lemma ReadHoursMinutes(hours: nat, minutes: nat)
    ensures FirstFailure(WrittenHoursMinutes(hours, minutes)) == None
    ensures LastHours(WrittenHoursMinutes(hours, minutes)) == hours
    ensures TotalMinutes(WrittenHoursMinutes(hours, minutes)) == minutes
  {
    var h, m := NatToString(hours) + "h", NatToString(minutes) + "m";
    var hp: seq<string> := if hours > 0 then [] + [h] else [];
    ReadWrittenToken(hours, 'h');
    ReadWrittenToken(minutes, 'm');
    if hours > 0 {
      FoldsSnoc([], h);
    }
    if minutes > 0 {
      FoldsSnoc(hp, m);
      assert WrittenHoursMinutes(hours, minutes) == hp + [m];
    } else {
      assert WrittenHoursMinutes(hours, minutes) == hp;
    }
  }

  /** The decomposition format_duration uses puts the seconds back together. */
  lemma DurationPartsSum(seconds: nat)
    ensures seconds == (seconds / 3600) * 3600 + ((seconds % 3600) / 60) * 60 + (seconds % 3600) % 60
    ensures seconds % 60 == (seconds % 3600) % 60
  {
    var q, r := seconds / 3600, seconds % 3600;
    assert seconds == q * 3600 + r;
    var m, t := r / 60, r % 60;
    assert r == m * 60 + t;
    assert seconds == (q * 60 + m) * 60 + t;
  }

  /** Reading back written parts: a seconds token is refused, hours and minutes alone come back. */
  lemma ReadWrittenParts(hours: nat, minutes: nat, secs: nat)
    ensures DurationInput(Join(WrittenParts(hours, minutes, secs), " ")) ==
      if secs == 0 && (hours > 0 || minutes > 0) then Ok(hours * 3600 + minutes * 60)
      else Err(ParseError(InputFormatMessage))
  {
    var parts := WrittenParts(hours, minutes, secs);
    WordsOfJoin(parts);
    var hm := WrittenHoursMinutes(hours, minutes);
    ReadHoursMinutes(hours, minutes);
    if secs > 0 || hm == [] {
      ReadWrittenToken(secs, 's');
      FoldsSnoc(hm, NatToString(secs) + "s");
    }
  }

  /**
   * Reading back a formatted duration: whole, non-zero minutes come back
   * unchanged; any seconds part (also the `0s` of zero) is refused with a
   * ParseError, since free-form input knows only hours and minutes.
   */
  lemma FormatThenParse(seconds: nat)
    ensures DurationInput(FormatDuration(seconds)) ==
      if seconds > 0 && seconds % 60 == 0 then Ok(seconds) else Err(ParseError(InputFormatMessage))
  {
    var hours, remainder := seconds / 3600, seconds % 3600;
    var minutes, secs := remainder / 60, remainder % 60;
    DurationPartsSum(seconds);
    ReadWrittenParts(hours, minutes, secs);
  }

  /** Two words separated by one space are read as those two tokens. */
  lemma WordsOfPair(x: string, y: string)
    requires IsWord(x) && IsWord(y)
    ensures Words(x + " " + y) == [x, y]
  {
    WordsOfJoin([x, y]);
    assert Join([x, y], " ") == x + " " + y;
  }

  /** A single `<n>m` token reads as n minutes. */
  lemma MinutesOnly(n: nat)
    ensures DurationInput(NatToString(n) + "m") == Ok(n * 60)
  {
    var t := NatToString(n) + "m";
    WrittenIsWord(n, 'm');
    WordsOfJoin([t]);
    ReadWrittenToken(n, 'm');
    FoldsSnoc([], t);
    assert [] + [t] == [t];
  }

  /** The hours a valid token sets, if it is an `h` token. */
  function HoursOf(t: Token, otherwise: nat): nat {
    if t.Hours? then t.hours else otherwise
  }

  /** The minutes a valid token adds. */
  function MinutesOf(t: Token): nat {
    if t.Minutes? then t.minutes else 0
  }

  /** Regrouping a space-joined pair whose second part ends in a unit. */
  lemma SpaceAssoc(x: string, y: string, u: char)
    ensures x + " " + y + [u] == x + " " + (y + [u])
  {
  }

  /** Two valid tokens separated by a space: the later hours win, the minutes add up. */
  lemma ValidPair(x: string, y: string)
    requires IsWord(x) && IsWord(y)
    requires !ReadToken(x).Invalid? && !ReadToken(y).Invalid?
    ensures DurationInput(x + " " + y) ==
      Ok(HoursOf(ReadToken(y), HoursOf(ReadToken(x), 0)) * 3600 + (MinutesOf(ReadToken(x)) + MinutesOf(ReadToken(y))) * 60)
  {
    WordsOfPair(x, y);
    FoldsSnoc([], x);
    assert [] + [x] == [x];
    FoldsSnoc([x], y);
    assert [x] + [y] == [x, y];
  }

  /** `<h>h <m>m` reads as h hours and m minutes. */
  lemma HoursThenMinutes(h: nat, m: nat)
    ensures DurationInput(NatToString(h) + "h" + " " + NatToString(m) + "m") == Ok(h * 3600 + m * 60)
  {
    var x, y := NatToString(h) + "h", NatToString(m) + "m";
    SpaceAssoc(x, NatToString(m), 'm');
    WrittenIsWord(h, 'h');
    WrittenIsWord(m, 'm');
    ReadWrittenToken(h, 'h');
    ReadWrittenToken(m, 'm');
    ValidPair(x, y);
  }

  /** Of two `h` tokens, the later one wins. */
  lemma LaterHoursOverride(a: nat, b: nat)
    ensures DurationInput(NatToString(a) + "h" + " " + NatToString(b) + "h") == Ok(b * 3600)
  {
    var x, y := NatToString(a) + "h", NatToString(b) + "h";
    SpaceAssoc(x, NatToString(b), 'h');
    WrittenIsWord(a, 'h');
    WrittenIsWord(b, 'h');
    ReadWrittenToken(a, 'h');
    ReadWrittenToken(b, 'h');
    ValidPair(x, y);
  }

  /** Two `m` tokens add up. */
  lemma MinutesAddUp(a: nat, b: nat)
    ensures DurationInput(NatToString(a) + "m" + " " + NatToString(b) + "m") == Ok((a + b) * 60)
  {
    var x, y := NatToString(a) + "m", NatToString(b) + "m";
    SpaceAssoc(x, NatToString(b), 'm');
    WrittenIsWord(a, 'm');
    WrittenIsWord(b, 'm');
    ReadWrittenToken(a, 'm');
    ReadWrittenToken(b, 'm');
    ValidPair(x, y);
  }

  /** A token with a unit other than `h` or `m` is refused with a ParseError, wherever it stands. */
  lemma BadUnitRefused(x: string, y: string)
    requires IsWord(x) && IsWord(y)
    requires !EndsWith(y, "h") && !EndsWith(y, "m")
    requires FirstFailure([x]) == None
    ensures DurationInput(x + " " + y) == Err(ParseError(InputFormatMessage))
  {
    WordsOfPair(x, y);
    FoldsSnoc([x], y);
    assert [x] + [y] == [x, y];
  }

  /** Reading the empty string gives zero. */
  lemma DurationInputEmpty()
    ensures DurationInput("") == Ok(0)
  {
  }
}
