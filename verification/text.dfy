/**
 * The Python `str` operations the journal code relies on, as functions on
 * `seq<char>`: strip, startswith/endswith, `in`, find, count, replace (first
 * occurrence), split (with a separator, with a limit, or on whitespace),
 * join, and the decimal conversions of `int()` and f-string formatting.
 */
module Text {
  import opened Wrappers

  /** The characters Python's `str.isspace()` accepts, which `strip()` and `split()` remove. */
  predicate IsSpace(c: char) {
    || ('\U{9}' <= c <= '\U{D}')
    || ('\U{1C}' <= c <= '\U{20}')
    || c == '\U{85}' || c == '\U{A0}' || c == '\U{1680}'
    || ('\U{2000}' <= c <= '\U{200A}')
    || c == '\U{2028}' || c == '\U{2029}' || c == '\U{202F}' || c == '\U{205F}' || c == '\U{3000}'
  }

  predicate IsDigit(c: char) { '0' <= c <= '9' }

  predicate IsUpper(c: char) { 'A' <= c <= 'Z' }

  predicate AllDigits(s: string) {
    forall i :: 0 <= i < |s| ==> IsDigit(s[i])
  }

  /** A string of digits holds no other character. */
  lemma DigitsExclude(s: string, c: char)
    requires AllDigits(s) && !IsDigit(c)
    ensures c !in s
  {
  }

  predicate StartsWith(s: string, prefix: string) {
    |prefix| <= |s| && s[..|prefix|] == prefix
  }

  predicate EndsWith(s: string, suffix: string) {
    |suffix| <= |s| && s[|s| - |suffix|..] == suffix
  }

  /** `s.lstrip()`: the suffix left after dropping leading whitespace. */
  function LStrip(s: string): (r: string)
    ensures |r| <= |s| && r == s[|s| - |r|..]
    ensures forall i :: 0 <= i < |s| - |r| ==> IsSpace(s[i])
    ensures r != [] ==> !IsSpace(r[0])
  {
    if s != [] && IsSpace(s[0]) then LStrip(s[1..]) else s
  }

  /** `s.rstrip()`: the prefix left after dropping trailing whitespace. */
  function RStrip(s: string): (r: string)
    ensures |r| <= |s| && r == s[..|r|]
    ensures forall i :: |r| <= i < |s| ==> IsSpace(s[i])
    ensures r != [] ==> !IsSpace(r[|r| - 1])
  {
    if s != [] && IsSpace(s[|s| - 1]) then RStrip(s[..|s| - 1]) else s
  }

  /** `s.strip()`. */
  function Strip(s: string): string {
    RStrip(LStrip(s))
  }

  /** A string that neither starts nor ends with whitespace is its own strip. */
  lemma StripUnchanged(s: string)
    requires s != [] && !IsSpace(s[0]) && !IsSpace(s[|s| - 1])
    ensures Strip(s) == s
  {
    var l := LStrip(s);
    assert l == s;
    var r := RStrip(l);
  }

  /** One leading space goes when stripping a text that has no whitespace at its ends. */
  lemma StripLeadingSpace(s: string)
    requires s != [] && !IsSpace(s[0]) && !IsSpace(s[|s| - 1])
    ensures Strip(" " + s) == s
  {
    assert (" " + s)[1..] == s;
    StripUnchanged(s);
  }

  /** The stripped text starts and ends with a non-space character, so stripping twice changes nothing. */
  lemma StripIdempotent(s: string)
    ensures Strip(Strip(s)) == Strip(s)
  {
    var t := Strip(s);
    if t != [] {
      var l := LStrip(s);
      assert t == l[..|t|];
      assert !IsSpace(t[0]);
      StripUnchanged(t);
    }
  }

  /** `s.strip(c)` for one character `c`. */
  function TrimChar(s: string, c: char): string {
    TrimRightChar(TrimLeftChar(s, c), c)
  }

  function TrimLeftChar(s: string, c: char): (r: string)
    ensures |r| <= |s|
  {
    if s != [] && s[0] == c then TrimLeftChar(s[1..], c) else s
  }

  function TrimRightChar(s: string, c: char): (r: string)
    ensures |r| <= |s|
  {
    if s != [] && s[|s| - 1] == c then TrimRightChar(s[..|s| - 1], c) else s
  }

  /** `p` occurs in `s` starting at index `j`. */
  predicate OccursAt(s: string, p: string, j: nat) {
    j + |p| <= |s| && s[j..j + |p|] == p
  }

  /** An occurrence in `s[1..]` is an occurrence in `s`, one place further on. */
  lemma OccursAtTail(s: string, p: string, j: nat)
    requires s != []
    ensures OccursAt(s[1..], p, j) <==> OccursAt(s, p, j + 1)
  {
    if j + |p| <= |s[1..]| {
      assert s[1..][j..j + |p|] == s[j + 1..j + 1 + |p|];
    }
  }

  /** `s.find(p)`: the first index at which `p` occurs in `s`, if any. */
  function Find(s: string, p: string): (r: Option<nat>)
    ensures r.Some? ==> OccursAt(s, p, r.value)
    ensures r.Some? ==> forall j: nat :: j < r.value ==> !OccursAt(s, p, j)
    ensures r.None? ==> forall j: nat :: !OccursAt(s, p, j)
    decreases |s|
  {
    if |s| < |p| then None
    else if s[..|p|] == p then Some(0)
    else
      match Find(s[1..], p)
      case None =>
        assert forall j: nat :: !OccursAt(s, p, j) by {
          forall j: nat ensures !OccursAt(s, p, j) {
            if j > 0 { OccursAtTail(s, p, j - 1); }
          }
        }
        None
      case Some(i) =>
        OccursAtTail(s, p, i);
        assert forall j: nat :: j < i + 1 ==> !OccursAt(s, p, j) by {
          forall j: nat | j < i + 1 ensures !OccursAt(s, p, j) {
            if j > 0 { OccursAtTail(s, p, j - 1); }
          }
        }
        Some(i + 1)
  }

  /** Python's `p in s` for strings. */
  predicate Contains(s: string, p: string) {
    Find(s, p).Some?
  }


  /** A two-character pattern whose first character is absent does not occur. */
  lemma NoPairWithout(s: string, a: char, b: char)
    requires a !in s
    ensures !Contains(s, [a, b])
  {
    forall j: nat ensures !OccursAt(s, [a, b], j) {
      if j + 2 <= |s| {
        assert s[j..j + 2][0] == s[j];
      }
    }
  }

  /** A two-character pattern occurs where its two characters stand next to each other. */
  lemma OccursPair(s: string, a: char, b: char, k: nat)
    ensures OccursAt(s, [a, b], k) <==> k + 2 <= |s| && s[k] == a && s[k + 1] == b
  {
    if k + 2 <= |s| {
      assert s[k..k + 2][0] == s[k] && s[k..k + 2][1] == s[k + 1];
      if s[k] == a && s[k + 1] == b {
        assert s[k..k + 2] == [a, b];
      }
    }
  }

  /** A text without `p` has no occurrence of it at any index. */
  lemma AbsentAt(s: string, p: string, k: nat)
    requires !Contains(s, p)
    ensures !OccursAt(s, p, k)
  {
    assert Find(s, p).None?;
  }

  /** A text with no occurrence of `p` at any index does not contain it. */
  lemma AbsentEverywhere(s: string, p: string)
    requires forall k: nat :: !OccursAt(s, p, k)
    ensures !Contains(s, p)
  {
  }

  /** A two-character pattern occurs in a concatenation only inside a part or across the seam. */
  lemma NoPairInConcat(x: string, y: string, a: char, b: char)
    requires !Contains(x, [a, b]) && !Contains(y, [a, b])
    requires x == [] || y == [] || x[|x| - 1] != a || y[0] != b
    ensures !Contains(x + y, [a, b])
  {
    var s := x + y;
    forall k: nat ensures !OccursAt(s, [a, b], k) {
      OccursPair(s, a, b, k);
      if k + 2 <= |s| {
        if k + 2 <= |x| {
          AbsentAt(x, [a, b], k);
          OccursPair(x, a, b, k);
        } else if k >= |x| {
          AbsentAt(y, [a, b], k - |x|);
          OccursPair(y, a, b, k - |x|);
        }
      }
    }
    AbsentEverywhere(s, [a, b]);
  }

  /** The first occurrence of a two-character pattern placed right after a text free of it. */
  lemma FindPairAfter(x: string, a: char, b: char, y: string)
    requires !Contains(x, [a, b]) && (x == [] || x[|x| - 1] != a)
    ensures Find(x + [a, b] + y, [a, b]) == Some(|x|)
  {
    var s := x + [a, b] + y;
    assert s[|x|..|x| + 2] == [a, b];
    assert OccursAt(s, [a, b], |x|);
    forall k: nat | k < |x| ensures !OccursAt(s, [a, b], k) {
      if k + 2 <= |x| {
        assert s[k..k + 2] == x[k..k + 2];
        assert !OccursAt(x, [a, b], k);
      } else {
        assert s[k] == x[|x| - 1];
        assert k + 2 <= |s| ==> s[k..k + 2][0] == s[k];
      }
    }
  }

  /** `s.index(c)` for one character, if it occurs. */
  function IndexOf(s: string, c: char): (r: Option<nat>)
    ensures r.Some? ==> r.value < |s| && s[r.value] == c && c !in s[..r.value]
    ensures r.None? ==> c !in s
  {
    if s == [] then None
    else if s[0] == c then Some(0)
    else
      match IndexOf(s[1..], c)
      case None => None
      case Some(i) =>
        assert s[..i + 1] == [s[0]] + s[1..][..i];
        Some(i + 1)
  }

  /** `s.split(c, 1)[0]`: the text before the first `c`, or all of `s`. */
  function FieldBefore(s: string, c: char): (r: string)
    ensures c !in r && StartsWith(s, r)
    ensures |r| < |s| <==> c in s
  {
    match IndexOf(s, c)
    case None => s
    case Some(i) => s[..i]
  }

  /** The text after the first `c` in `s`, if there is a `c`. */
  function FieldAfter(s: string, c: char): (r: Option<string>)
    ensures r.Some? <==> c in s
    ensures r.Some? ==> s == FieldBefore(s, c) + [c] + r.value
  {
    match IndexOf(s, c)
    case None => None
    case Some(i) =>
      assert s == s[..i] + [c] + s[i + 1..];
      Some(s[i + 1..])
  }

  /** The fields around the first `c` of `x + [c] + y` when `x` has none. */
  lemma FieldsAround(x: string, c: char, y: string)
    requires c !in x
    ensures FieldBefore(x + [c] + y, c) == x
    ensures FieldAfter(x + [c] + y, c) == Some(y)
  {
    IndexOfAfter(x, c, y);
    assert (x + [c] + y)[..|x|] == x;
    assert (x + [c] + y)[|x| + 1..] == y;
  }

  /** A text without `c` is its own first field and has nothing after it. */
  lemma FieldsWithout(s: string, c: char)
    requires c !in s
    ensures FieldBefore(s, c) == s && FieldAfter(s, c) == None
  {
  }

  /** No occurrence of `p` ends before its first occurrence. */
  lemma PrefixBeforeFind(s: string, p: string)
    requires p != [] && Find(s, p).Some?
    ensures !Contains(s[..Find(s, p).value], p)
  {
    var i := Find(s, p).value;
    var t := s[..i];
    forall j: nat ensures !OccursAt(t, p, j) {
      if j + |p| <= |t| {
        assert t[j..j + |p|] == s[j..j + |p|];
        assert !OccursAt(s, p, j);
      }
    }
  }

  /** `s.count(c)` for one character. */
  function CountChar(s: string, c: char): nat {
    if s == [] then 0 else (if s[0] == c then 1 else 0) + CountChar(s[1..], c)
  }

  /** `s.replace(c, '', 1)`: removes the first occurrence of `c`, if any. */
  function RemoveFirst(s: string, c: char): (r: string)
    ensures s != [] && s[0] == c ==> r == s[1..]
  {
    if s == [] then []
    else if s[0] == c then s[1..]
    else [s[0]] + RemoveFirst(s[1..], c)
  }

  /** `sep.join(parts)`. */
  function Join(parts: seq<string>, sep: string): string {
    if |parts| == 0 then ""
    else if |parts| == 1 then parts[0]
    else parts[0] + sep + Join(parts[1..], sep)
  }

  /** `s.split(c)`: every occurrence of `c` separates two parts, empty parts included. */
  function Split(s: string, c: char): (r: seq<string>)
    ensures |r| >= 1
    ensures forall i :: 0 <= i < |r| ==> c !in r[i]
    ensures Join(r, [c]) == s
    decreases |s|
  {
    match IndexOf(s, c)
    case None => [s]
    case Some(i) =>
      var rest := Split(s[i + 1..], c);
      assert ([s[..i]] + rest)[1..] == rest;
      assert s == s[..i] + [c] + s[i + 1..];
      [s[..i]] + rest
  }

  /** `s.split(c, n)`: at most `n` splits, the remainder is kept whole in the last part. */
  function SplitMax(s: string, c: char, n: nat): (r: seq<string>)
    ensures 1 <= |r| <= n + 1
    ensures forall i :: 0 <= i < |r| - 1 ==> c !in r[i]
    ensures |r| <= n ==> c !in r[|r| - 1]
    ensures Join(r, [c]) == s
    decreases n
  {
    if n == 0 then [s]
    else
      match IndexOf(s, c)
      case None => [s]
      case Some(i) =>
        var rest := SplitMax(s[i + 1..], c, n - 1);
        assert ([s[..i]] + rest)[1..] == rest;
        assert s == s[..i] + [c] + s[i + 1..];
        [s[..i]] + rest
  }

  /** The first occurrence of `c` in `x + [c] + y` is right after `x` when `x` has none. */
  lemma {:induction false} IndexOfAfter(x: string, c: char, y: string)
    requires c !in x
    ensures IndexOf(x + [c] + y, c) == Some(|x|)
  {
    if x != [] {
      assert (x + [c] + y)[1..] == x[1..] + [c] + y;
      IndexOfAfter(x[1..], c, y);
    }
  }

  /** Splitting at a separator that does not occur in the first part yields that part first. */
  lemma SplitAt(x: string, c: char, y: string)
    requires c !in x
    ensures Split(x + [c] + y, c) == [x] + Split(y, c)
  {
    var s := x + [c] + y;
    IndexOfAfter(x, c, y);
    assert s[..|x|] == x;
    assert s[|x| + 1..] == y;
  }

  /** A string without the separator is not split. */
  lemma SplitNone(y: string, c: char)
    requires c !in y
    ensures Split(y, c) == [y]
  {
  }

  /** The longest prefix of `t` without whitespace. */
  function LeadingWord(t: string): (w: string)
    ensures |w| <= |t| && w == t[..|w|]
    ensures forall j :: 0 <= j < |w| ==> !IsSpace(w[j])
    ensures |w| < |t| ==> IsSpace(t[|w|])
    ensures t != [] && !IsSpace(t[0]) ==> |w| >= 1
  {
    if t == [] || IsSpace(t[0]) then [] else [t[0]] + LeadingWord(t[1..])
  }

  /** A non-empty string without whitespace. */
  predicate IsWord(w: string) {
    w != [] && forall j :: 0 <= j < |w| ==> !IsSpace(w[j])
  }

  /** `s.split()`: the maximal runs of non-whitespace characters, in order. */
  function Words(s: string): seq<string>
    decreases |s|
  {
    if s == [] then []
    else if IsSpace(s[0]) then Words(s[1..])
    else
      var w := LeadingWord(s);
      [w] + Words(s[|w|..])
  }

  /** A string that starts with a non-space character starts with its first word. */
  lemma FirstWordIsPrefix(s: string)
    requires s != [] && !IsSpace(s[0])
    ensures |Words(s)| > 0 && StartsWith(s, Words(s)[0])
  {
  }

  /** The leading word of a word followed by whitespace (or nothing) is that word. */
  lemma {:induction false} LeadingWordOf(w: string, tail: string)
    requires forall j :: 0 <= j < |w| ==> !IsSpace(w[j])
    requires tail == [] || IsSpace(tail[0])
    ensures LeadingWord(w + tail) == w
  {
    if w != [] {
      assert (w + tail)[1..] == w[1..] + tail;
      LeadingWordOf(w[1..], tail);
    }
  }

  /** Splitting a space-joined list of words on whitespace gives the words back. */
  lemma {:induction false} WordsOfJoin(parts: seq<string>)
    requires forall i :: 0 <= i < |parts| ==> IsWord(parts[i])
    ensures Words(Join(parts, " ")) == parts
  {
    if |parts| == 0 {
    } else if |parts| == 1 {
      var w := parts[0];
      assert IsWord(w);
      LeadingWordOf(w, "");
      assert w + "" == w;
      assert w[|w|..] == [];
    } else {
      var w := parts[0];
      assert IsWord(w);
      var rest := Join(parts[1..], " ");
      var s := Join(parts, " ");
      assert s == w + (" " + rest);
      LeadingWordOf(w, " " + rest);
      assert s[|w|..] == " " + rest;
      assert (" " + rest)[1..] == rest;
      WordsOfJoin(parts[1..]);
    }
  }

  /** The value of a string of decimal digits. */
  function DigitsValue(s: string): nat
    requires AllDigits(s)
  {
    if s == [] then 0 else DigitsValue(s[..|s| - 1]) * 10 + (s[|s| - 1] as int - '0' as int)
  }

  /**
   * Python's `int(s)`, restricted to strings of ASCII digits: `None` stands
   * for the ValueError that `int()` raises.
   */
  function ParseNat(s: string): (r: Option<nat>)
    ensures r.Some? <==> s != [] && AllDigits(s)
  {
    if s != [] && AllDigits(s) then Some(DigitsValue(s)) else None
  }

  function Digit(d: nat): char
    requires d < 10
  {
    ('0' as int + d) as char
  }

  /** `f'{n}'` for a non-negative integer. */
  function NatToString(n: nat): (r: string)
    ensures r != [] && AllDigits(r)
  {
    if n < 10 then [Digit(n)] else NatToString(n / 10) + [Digit(n % 10)]
  }

  /** `f'{n:02}'`: at least two digits, zero-padded. */
  function PadTwo(n: nat): (r: string)
    ensures |r| >= 2 && AllDigits(r)
  {
    if n < 10 then "0" + NatToString(n) else NatToString(n)
  }

  /** `int()` reads back what an f-string wrote. */
  lemma {:induction false} NatToStringRoundTrip(n: nat)
    ensures ParseNat(NatToString(n)) == Some(n)
  {
    var s := NatToString(n);
    if n >= 10 {
      var front := NatToString(n / 10);
      NatToStringRoundTrip(n / 10);
      assert s[..|s| - 1] == front;
      assert s[|s| - 1] as int - '0' as int == n % 10;
      assert DigitsValue(front) == n / 10;
      assert DigitsValue(s) == DigitsValue(front) * 10 + n % 10;
    } else {
      assert s[..0] == [];
      assert s[0] as int - '0' as int == n;
      assert DigitsValue(s) == n;
    }
  }

  /** `int()` reads back a zero-padded two-digit field. */
  lemma PadTwoRoundTrip(n: nat)
    ensures ParseNat(PadTwo(n)) == Some(n)
  {
    NatToStringRoundTrip(n);
    if n < 10 {
      var s := PadTwo(n);
      assert s[..1] == "0";
      assert "0"[..0] == [];
      assert DigitsValue("0") == 0;
      assert s[1] as int - '0' as int == n;
      assert DigitsValue(s) == n;
    }
  }
}
