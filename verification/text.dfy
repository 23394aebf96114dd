/** Text primitives the player relies on: decimal digits and their values,
    zero padding, clock texts such as "07:30", substring search, ASCII
    lower-casing, JavaScript whitespace trimming, and splitting and joining
    a string at a separator. */
module Text {

  datatype Option<+T> = None | Some(value: T)

  // ---------------------------------------------------------------------
  // Decimal digits

  predicate IsDigit(c: char) { '0' <= c <= '9' }

  function DigitValue(c: char): nat
    requires IsDigit(c)
  {
    (c as int) - ('0' as int)
  }

  function DigitChar(d: nat): (c: char)
    requires d < 10
    ensures IsDigit(c) && DigitValue(c) == d
  {
    (('0' as int) + d) as char
  }

  predicate AllDigits(s: string) {
    forall i :: 0 <= i < |s| ==> IsDigit(s[i])
  }

  /** The value of a string of decimal digits, read left to right: what
      JavaScript's `Number` gives for such a string. */
  function DigitsValue(s: string): nat
    requires AllDigits(s)
    decreases |s|
  {
    if |s| == 0 then 0 else DigitsValue(s[..|s| - 1]) * 10 + DigitValue(s[|s| - 1])
  }

  /** Decimal text of a natural number without leading zeros: JavaScript's
      `n.toString()` for a non-negative integer. */
  function NatText(n: nat): (r: string)
    ensures 1 <= |r| && AllDigits(r)
    ensures n < 10 <==> |r| == 1
  {
    if n < 10 then [DigitChar(n)] else NatText(n / 10) + [DigitChar(n % 10)]
  }

  /** Reading the decimal text of `n` gives `n` back. */
  lemma {:induction false} NatTextRoundTrip(n: nat)
    ensures DigitsValue(NatText(n)) == n
  {
    if n >= 10 {
      var t := NatText(n);
      assert t[..|t| - 1] == NatText(n / 10);
      NatTextRoundTrip(n / 10);
    }
  }

  /** `n.toString().padStart(2, '0')`: one leading zero below ten. */
  function Pad2(n: nat): (r: string)
    ensures AllDigits(r) && 2 <= |r|
    ensures n < 100 ==> |r| == 2
    ensures n >= 10 ==> r == NatText(n)
  {
    if n < 10 then "0" + NatText(n) else NatText(n)
  }

  lemma Pad2RoundTrip(n: nat)
    ensures DigitsValue(Pad2(n)) == n
  {
    NatTextRoundTrip(n);
    if n < 10 {
      var t := Pad2(n);
      assert t[..1] == "0";
    }
  }

  // ---------------------------------------------------------------------
  // Substring search

  /** `pat` occurs in `s` starting at position `j`. */
  predicate OccursAt(s: string, pat: string, j: nat) {
    j + |pat| <= |s| && s[j..j + |pat|] == pat
  }

  /** The first position at or after `from` where `pat` occurs in `s`. */
  function IndexOfFrom(s: string, pat: string, from: nat): (r: Option<nat>)
    requires from <= |s|
    ensures r.Some? ==> from <= r.value && OccursAt(s, pat, r.value)
    ensures r.Some? ==> forall j :: from <= j < r.value ==> !OccursAt(s, pat, j)
    ensures r.None? ==> forall j :: from <= j ==> !OccursAt(s, pat, j)
    decreases |s| - from
  {
    if from + |pat| > |s| then None
    else if OccursAt(s, pat, from) then Some(from)
    else if from == |s| then None
    else IndexOfFrom(s, pat, from + 1)
  }

  /** JavaScript's `s.indexOf(pat)`, with -1 as None: the first position
      where `pat` occurs. */
  function IndexOf(s: string, pat: string): (r: Option<nat>)
    ensures r.Some? ==> OccursAt(s, pat, r.value)
    ensures r.Some? ==> forall j :: 0 <= j < r.value ==> !OccursAt(s, pat, j)
    ensures r.None? ==> forall j :: !OccursAt(s, pat, j)
  {
    IndexOfFrom(s, pat, 0)
  }

  /** JavaScript's `s.includes(pat)`. */
  predicate Contains(s: string, pat: string) {
    IndexOf(s, pat).Some?
  }

  /** `includes`: the pattern occurs somewhere in the text. */
  lemma ContainsMeans(s: string, pat: string)
    ensures Contains(s, pat) <==> exists j: nat :: OccursAt(s, pat, j)
  {
    if Contains(s, pat) {
      assert OccursAt(s, pat, IndexOf(s, pat).value);
    }
  }

  /** A string in which the character `c` does not occur. */
  predicate Lacks(s: string, c: char) {
    forall i :: 0 <= i < |s| ==> s[i] != c
  }

  /** The first occurrence of a one-character pattern is the first position
      holding that character. */
  lemma FirstOccurrence(a: string, c: char, b: string)
    requires Lacks(a, c)
    ensures IndexOf(a + [c] + b, [c]) == Some(|a|)
  {
    var s := a + [c] + b;
    assert OccursAt(s, [c], |a|);
    assert forall j :: 0 <= j < |a| ==> s[j] == a[j] && !OccursAt(s, [c], j);
  }

  /** Cutting at the first occurrence of a character gives back the parts
      before and after it. */
  lemma CutAtFirst(a: string, c: char, b: string)
    requires Lacks(a, c)
    ensures IndexOf(a + [c] + b, [c]) == Some(|a|)
    ensures (a + [c] + b)[..|a|] == a && (a + [c] + b)[|a| + 1..] == b
  {
    FirstOccurrence(a, c, b);
    var t := a + [c] + b;
    assert t[..|a|] == a;
    assert t[|a| + 1..] == b;
  }

  /** A string without the character `pat[k]` holds no occurrence of `pat`. */
  lemma NoOccurrence(s: string, pat: string, k: nat)
    requires k < |pat| && Lacks(s, pat[k])
    ensures IndexOf(s, pat) == None
  {
  }

  // ---------------------------------------------------------------------
  // Clock texts

  /** The two numbers of an "H:M" text, as `t.split(":").map(Number)` gives them. */
  datatype HourMinute = HourMinute(hours: nat, minutes: nat)

  /** Reads a text made of digits, one colon and digits. Any other text is
      outside the model: JavaScript reads some of them as numbers (":30"
      as 30 minutes) and others as NaN. */
  function ParseHM(t: string): (r: Option<HourMinute>)
    ensures r.Some? ==> exists i :: 0 < i < |t| - 1 && t[i] == ':' && AllDigits(t[..i]) && AllDigits(t[i + 1..])
  {
    match IndexOf(t, ":")
    case None => None
    case Some(i) =>
      var h := t[..i];
      var m := t[i + 1..];
      if 0 < |h| && 0 < |m| && AllDigits(h) && AllDigits(m) then
        assert t[i..i + 1] == ":";
        Some(HourMinute(DigitsValue(h), DigitsValue(m)))
      else None
  }

  predicate IsClock(t: string) { ParseHM(t).Some? }

  /** `h * 60 + m` for the two numbers of a clock text. */
  function Minutes(hm: HourMinute): nat {
    HoursInMinutes(hm.hours) + hm.minutes
  }

  /** `h * 60`, named so that the product is not unfolded into every
      statement about `Minutes`. */
  function HoursInMinutes(h: nat): nat {
    h * 60
  }

  /** `timeToMins`: minutes since midnight of an "HH:MM" text. */
  function TimeToMins(t: string): nat
    requires IsClock(t)
  {
    Minutes(ParseHM(t).value)
  }

  /** Joining two digit strings with a colon gives a text `ParseHM` reads back. */
  lemma ParseJoined(h: string, m: string)
    requires 0 < |h| && 0 < |m| && AllDigits(h) && AllDigits(m)
    ensures ParseHM(h + ":" + m) == Some(HourMinute(DigitsValue(h), DigitsValue(m)))
  {
    var t := h + ":" + m;
    FirstOccurrence(h, ':', m);
    assert t[..|h|] == h;
    assert t[|h| + 1..] == m;
  }

  /** A minute of the day, as the wall clock gives it. */
  type Minute = m: int | 0 <= m < 1440

  /** A day of the week, 0 = Sunday .. 6 = Saturday. */
  type Day = d: int | 0 <= d < 7

  /** `now.toTimeString().slice(0, 5)`: the "HH:MM" text of a clock minute. */
  function ClockText(m: Minute): (r: string)
    ensures |r| == 5 && r[2] == ':'
  {
    Pad2(m / 60) + ":" + Pad2(m % 60)
  }

  /** The clock text of a minute reads back as that minute, so the minute
      the resolver sees is always in 0..1439. */
  lemma ClockTextRoundTrip(m: Minute)
    ensures IsClock(ClockText(m))
    ensures ParseHM(ClockText(m)) == Some(HourMinute(m / 60, m % 60))
    ensures TimeToMins(ClockText(m)) == m
  {
    Pad2RoundTrip(m / 60);
    Pad2RoundTrip(m % 60);
    ParseJoined(Pad2(m / 60), Pad2(m % 60));
  }

  // ---------------------------------------------------------------------
  // Case and whitespace

  function LowerChar(c: char): char {
    if 'A' <= c <= 'Z' then ((c as int) + 32) as char else c
  }

  /** `toLowerCase` on the letters A to Z; other characters are kept. */
  function Lower(s: string): (r: string)
    ensures |r| == |s|
    ensures forall i :: 0 <= i < |s| ==> r[i] == LowerChar(s[i])
  {
    seq(|s|, i requires 0 <= i < |s| => LowerChar(s[i]))
  }

  /** The characters `String.prototype.trim` removes: ECMAScript white space
      (tab, vertical tab, form feed, no-break space, byte order mark and the
      Unicode space separators) and line terminators. */
  predicate IsSpace(c: char) {
    ('\U{0009}' <= c <= '\U{000D}') || c == ' ' || c == '\U{00A0}' || c == '\U{1680}'
    || ('\U{2000}' <= c <= '\U{200A}') || c == '\U{2028}' || c == '\U{2029}'
    || c == '\U{202F}' || c == '\U{205F}' || c == '\U{3000}' || c == '\U{FEFF}'
  }

  /** The first position at or after `i` that does not hold white space. */
  function SkipSpaces(s: string, i: nat): (k: nat)
    requires i <= |s|
    ensures i <= k <= |s|
    ensures forall m :: i <= m < k ==> IsSpace(s[m])
    ensures k < |s| ==> !IsSpace(s[k])
    decreases |s| - i
  {
    if i < |s| && IsSpace(s[i]) then SkipSpaces(s, i + 1) else i
  }

  /** The end of `s[lo..j]` once white space at its end is dropped. */
  function BackSpaces(s: string, lo: nat, j: nat): (k: nat)
    requires lo <= j <= |s|
    ensures lo <= k <= j
    ensures forall m :: k <= m < j ==> IsSpace(s[m])
    ensures lo < k ==> !IsSpace(s[k - 1])
    decreases j
  {
    if lo < j && IsSpace(s[j - 1]) then BackSpaces(s, lo, j - 1) else j
  }

  /** `s.trim()`: `s` without the white space at both of its ends. */
  function Trim(s: string): (r: string)
    ensures var i := SkipSpaces(s, 0);
      (i + |r| <= |s| && r == s[i..i + |r|] && forall m :: i + |r| <= m < |s| ==> IsSpace(s[m]))
    ensures |r| > 0 ==> !IsSpace(r[0]) && !IsSpace(r[|r| - 1])
  {
    var i := SkipSpaces(s, 0);
    s[i..BackSpaces(s, i, |s|)]
  }

  // ---------------------------------------------------------------------
  // Splitting and joining

  /** `s.split(sep)` for a non-empty separator: the pieces between the
      non-overlapping occurrences of `sep`, found left to right. */
  function Split(s: string, sep: string): (parts: seq<string>)
    requires 0 < |sep|
    ensures 1 <= |parts|
    decreases |s|
  {
    match IndexOf(s, sep)
    case None => [s]
    case Some(i) => [s[..i]] + Split(s[i + |sep|..], sep)
  }

  /** `parts.join(sep)`. */
  function Join(parts: seq<string>, sep: string): string
    decreases |parts|
  {
    if |parts| == 0 then ""
    else if |parts| == 1 then parts[0]
    else parts[0] + sep + Join(parts[1..], sep)
  }

  /** Joining the pieces of a split with the same separator gives the
      original string back. */
  lemma {:induction false} JoinSplit(s: string, sep: string)
    requires 0 < |sep|
    ensures Join(Split(s, sep), sep) == s
    decreases |s|
  {
    var r := IndexOf(s, sep);
    if r.Some? {
      var i := r.value;
      var rest := s[i + |sep|..];
      var parts := Split(s, sep);
      assert parts == [s[..i]] + Split(rest, sep);
      assert parts[1..] == Split(rest, sep);
      JoinSplit(rest, sep);
      assert Join(parts, sep) == s[..i] + sep + rest;
      assert s[i..i + |sep|] == sep;
      assert s == s[..i] + s[i..i + |sep|] + rest;
    }
  }
}
