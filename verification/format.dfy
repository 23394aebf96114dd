/** The display helpers of the player: `formatTime` ("M:SS"),
    `formatRange` (a slot's times on the 12-hour clock) and
    `formatProgramName` (a program's name with its host). */
module Format {
  import opened Text
  import opened Schedule

  // ---------------------------------------------------------------------
  // formatTime

  /** `formatTime`: whole seconds as minutes, a colon and two-digit
      seconds. */
  function FormatTime(seconds: nat): string {
    NatText(seconds / 60) + ":" + Pad2(seconds % 60)
  }

  /** Reading "M:SS" back as `timeToMins` reads "H:M" gives the seconds
      back: the minutes count sixty each and the seconds are below sixty. */
  lemma FormatTimeRoundTrip(seconds: nat)
    ensures IsClock(FormatTime(seconds))
    ensures ParseHM(FormatTime(seconds)) == Some(HourMinute(seconds / 60, seconds % 60))
    ensures TimeToMins(FormatTime(seconds)) == seconds
  {
    NatTextRoundTrip(seconds / 60);
    Pad2RoundTrip(seconds % 60);
    ParseJoined(NatText(seconds / 60), Pad2(seconds % 60));
  }

  lemma FormatTimeExample()
    ensures FormatTime(125) == "2:05"
  {
    assert NatText(2) == "2";
    assert Pad2(5) == "05";
  }

  // ---------------------------------------------------------------------
  // formatRange

  /** `((h + 11) % 12) + 1`: the hour on the 12-hour clock. */
  function Hour12(h: nat): nat {
    ((h + 11) % 12) + 1
  }

  function Suffix(h: nat): string {
    if h >= 12 then "PM" else "AM"
  }

  /** One end of the range: "h:mm AM" or "h:mm PM". */
  function Clock12(hm: HourMinute): string {
    NatText(Hour12(hm.hours)) + ":" + Pad2(hm.minutes) + " " + Suffix(hm.hours)
  }

  /** `formatRange`: the slot's start and end on the 12-hour clock. The
      source reads both texts with `split(":")`, so a slot without them
      is outside its domain. */
  function FormatRange(p: Slot): string
    requires HasTimes(p)
  {
    Clock12(p.start.hm) + " - " + Clock12(p.end.hm)
  }

  /** The 24-hour hour from a 12-hour hour and its suffix. */
  function From12(h12: nat, pm: bool): nat {
    h12 % 12 + (if pm then 12 else 0)
  }

  /** The 12-hour hour is in 1..12, the suffix is "PM" exactly from noon,
      and the two together give the 24-hour hour back. */
  lemma TwelveHourClock(h: nat)
    requires h < 24
    ensures 1 <= Hour12(h) <= 12
    ensures Suffix(h) == "PM" <==> h >= 12
    ensures From12(Hour12(h), Suffix(h) == "PM") == h
  {
  }

  /** Reads "h:mm AM" or "h:mm PM" back as minutes since midnight. */
  function Read12(t: string): Option<nat> {
    match IndexOf(t, ":")
    case None => None
    case Some(i) => Read12Rest(t[..i], t[i + 1..])
  }

  /** The minutes and the suffix after the colon, given the hour text. */
  function Read12Rest(hh: string, rest: string): Option<nat> {
    match IndexOf(rest, " ")
    case None => None
    case Some(j) => ReadClockParts(hh, rest[..j], rest[j + 1..])
  }

  function ReadClockParts(hh: string, mm: string, suffix: string): Option<nat> {
    if 0 < |hh| && 0 < |mm| && AllDigits(hh) && AllDigits(mm) && (suffix == "AM" || suffix == "PM")
    then Some(HoursInMinutes(From12(DigitsValue(hh), suffix == "PM")) + DigitsValue(mm))
    else None
  }

  lemma DigitsLack(s: string, c: char)
    requires AllDigits(s) && !IsDigit(c)
    ensures Lacks(s, c)
  {
  }

  lemma LacksConcat(a: string, b: string, c: char)
    requires Lacks(a, c) && Lacks(b, c)
    ensures Lacks(a + b, c)
  {
    assert forall i :: |a| <= i < |a + b| ==> (a + b)[i] == b[i - |a|];
  }

  /** Reading an "h:mm SUFFIX" text built from its three parts. */
  lemma Read12Parts(t: string, hText: string, mText: string, suffix: string)
    requires 0 < |hText| && 0 < |mText| && AllDigits(hText) && AllDigits(mText)
    requires suffix == "AM" || suffix == "PM"
    requires t == hText + [':'] + (mText + [' '] + suffix)
    ensures Read12(t)
      == Some(HoursInMinutes(From12(DigitsValue(hText), suffix == "PM")) + DigitsValue(mText))
  {
    ReadAfterColon(hText, mText, suffix);
    ReadAtColon(hText, mText + [' '] + suffix);
    ClockPartsValue(hText, mText, suffix);
  }

  lemma ClockPartsValue(hText: string, mText: string, suffix: string)
    requires 0 < |hText| && 0 < |mText| && AllDigits(hText) && AllDigits(mText)
    requires suffix == "AM" || suffix == "PM"
    ensures ReadClockParts(hText, mText, suffix)
      == Some(HoursInMinutes(From12(DigitsValue(hText), suffix == "PM")) + DigitsValue(mText))
  {
  }

  /** A text of digits ends at the first colon after it. */
  lemma ReadAtColon(hText: string, rest: string)
    requires AllDigits(hText)
    ensures Read12(hText + [':'] + rest) == Read12Rest(hText, rest)
  {
    DigitsLack(hText, ':');
    CutAtFirst(hText, ':', rest);
  }

  /** A text of digits ends at the first space after it. */
  lemma ReadAfterColon(hText: string, mText: string, suffix: string)
    requires AllDigits(mText)
    ensures Read12Rest(hText, mText + [' '] + suffix) == ReadClockParts(hText, mText, suffix)
  {
    DigitsLack(mText, ' ');
    CutAtFirst(mText, ' ', suffix);
  }

  /** One end of the range reads back as the minute it shows. */
  lemma Clock12RoundTrip(hm: HourMinute)
    requires hm.hours < 24 && hm.minutes < 60
    ensures Read12(Clock12(hm)) == Some(Minutes(hm))
  {
    Clock12Shape(hm);
    Read12Parts(Clock12(hm), NatText(Hour12(hm.hours)), Pad2(hm.minutes), Suffix(hm.hours));
    Clock12Value(hm);
  }

  /** The numbers read from the three parts give the minute back. */
  lemma Clock12Value(hm: HourMinute)
    requires hm.hours < 24 && hm.minutes < 60
    ensures HoursInMinutes(From12(DigitsValue(NatText(Hour12(hm.hours))), Suffix(hm.hours) == "PM"))
            + DigitsValue(Pad2(hm.minutes)) == Minutes(hm)
  {
    NatTextRoundTrip(Hour12(hm.hours));
    Pad2RoundTrip(hm.minutes);
    TwelveHourClock(hm.hours);
  }

  lemma Clock12Shape(hm: HourMinute)
    ensures Clock12(hm) == NatText(Hour12(hm.hours)) + [':'] + (Pad2(hm.minutes) + [' '] + Suffix(hm.hours))
  {
  }

  /** No hyphen occurs in one end of the range. */
  lemma Clock12NoDash(hm: HourMinute)
    ensures Lacks(Clock12(hm), '-')
  {
    var hText := NatText(Hour12(hm.hours));
    var mText := Pad2(hm.minutes);
    DigitsLack(hText, '-');
    DigitsLack(mText, '-');
    LacksConcat(hText, ":", '-');
    LacksConcat(hText + ":", mText, '-');
    LacksConcat(hText + ":" + mText, " ", '-');
    LacksConcat(hText + ":" + mText + " ", Suffix(hm.hours), '-');
  }

  /** Splitting at " - " two texts without a hyphen gives the two back. */
  lemma SplitAtDash(x: string, y: string)
    requires Lacks(x, '-') && Lacks(y, '-')
    ensures Split(x + " - " + y, " - ") == [x, y]
  {
    var s := x + " - " + y;
    assert OccursAt(s, " - ", |x|) by {
      assert s[|x|..|x| + 3] == " - ";
    }
    forall j | 0 <= j < |x|
      ensures !OccursAt(s, " - ", j)
    {
      if j + 3 <= |s| {
        assert s[j..j + 3][1] == s[j + 1];
        if j + 1 < |x| {
          assert s[j + 1] == x[j + 1];
        } else {
          assert s[j + 1] == ' ';
        }
      }
    }
    assert IndexOf(s, " - ") == Some(|x|);
    assert s[|x| + 3..] == y;
    assert s[..|x|] == x;
    NoOccurrence(y, " - ", 1);
  }

  /** The text `formatRange` shows splits at " - " into the two ends, and
      each end reads back as the slot's start and end minute. */
  lemma FormatRangeRoundTrip(p: Slot)
    requires HasTimes(p)
    requires p.start.hm.hours < 24 && p.start.hm.minutes < 60
    requires p.end.hm.hours < 24 && p.end.hm.minutes < 60
    ensures var parts := Split(FormatRange(p), " - ");
      && |parts| == 2
      && Read12(parts[0]) == Some(StartMins(p))
      && Read12(parts[1]) == Some(EndMins(p))
  {
    Clock12RoundTrip(p.start.hm);
    Clock12RoundTrip(p.end.hm);
    Clock12NoDash(p.start.hm);
    Clock12NoDash(p.end.hm);
    SplitAtDash(Clock12(p.start.hm), Clock12(p.end.hm));
  }

  lemma FormatRangeExample()
    ensures FormatRange(Slot(Clock(HourMinute(13, 5)), Clock(HourMinute(1, 0)), "", "", None, ""))
      == "1:05 PM - 1:00 AM"
  {
    assert Hour12(13) == 1 && Hour12(1) == 1 && NatText(1) == "1";
    assert Pad2(5) == "05" && Pad2(0) == "00";
    Clock12Text(HourMinute(13, 5), "1", "05", "PM");
    Clock12Text(HourMinute(1, 0), "1", "00", "AM");
  }

  /** `Clock12` from the texts of its three parts. */
  lemma Clock12Text(hm: HourMinute, hText: string, mText: string, suffix: string)
    requires NatText(Hour12(hm.hours)) == hText && Pad2(hm.minutes) == mText && Suffix(hm.hours) == suffix
    ensures Clock12(hm) == hText + ":" + mText + " " + suffix
  {
  }

  // ---------------------------------------------------------------------
  // formatProgramName

  const Station := "Praise FM"

  /** Programs shown under their own name, without a host. */
  const OwnName := ["Praise FM Non Stop", "Praise FM POP", "Praise FM Magazine", "Praise FM Worship"]

  /** The `hosts` table: the presenter of each program. */
  const Hosts: map<string, string> := map[
    "Morning Show" := "Stancy Campbell",
    "Midday Grace" := "Michael Ray",
    "Praise FM Carpool" := "Rachael Harris",
    "Praise FM POP" := "Jordan Reys",
    "Sunday With Christ" := "Matt Riley",
    "Midnight Grace" := "Daniel Brooks",
    "Praise FM Non Stop" := "Praise FM",
    "Praise FM Worship" := "Praise FM"
  ]

  /** `t` matches `/ \([^)]*\)$/` from its first character to its end: a
      space, an opening parenthesis, no closing one until the last
      character, which is one. */
  predicate IsTag(t: string) {
    && 3 <= |t|
    && t[0] == ' ' && t[1] == '('
    && t[|t| - 1] == ')'
    && forall k :: 2 <= k < |t| - 1 ==> t[k] != ')'
  }

  /** The leftmost position at or after `i` where the pattern matches. */
  function TagFrom(s: string, i: nat): (r: Option<nat>)
    requires i <= |s|
    ensures r.Some? ==> i <= r.value <= |s| && IsTag(s[r.value..])
    ensures r.Some? ==> forall j :: i <= j < r.value ==> !IsTag(s[j..])
    ensures r.None? ==> forall j :: i <= j <= |s| ==> !IsTag(s[j..])
    decreases |s| - i
  {
    if IsTag(s[i..]) then Some(i)
    else if i == |s| then None
    else TagFrom(s, i + 1)
  }

  /** `s.replace(/ \([^)]*\)$/, '')`: drops the leftmost match, if any. */
  function StripTag(s: string): string {
    match TagFrom(s, 0)
    case None => s
    case Some(k) => s[..k]
  }

  /** A name that does not end with ")" has no tag to drop. */
  lemma UntaggedKept(s: string)
    requires |s| == 0 || s[|s| - 1] != ')'
    ensures StripTag(s) == s
  {
  }

  /** The program name without a trailing " (...)" and surrounding white
      space. */
  function BaseName(name: string): string {
    Trim(StripTag(name))
  }

  /** `formatProgramName`; None stands for a missing program. */
  function FormatProgramName(p: Option<Slot>): string {
    if p.None? then Station
    else
      var base := BaseName(p.value.name);
      if base in OwnName then base
      else base + " With " + (if base in Hosts && Hosts[base] != "" then Hosts[base] else Station)
  }

  /** The shown name starts with the base name; programs of the own-name
      list show exactly it, every other program is credited to its host,
      or to the station when it has none. */
  lemma ProgramNameShape(p: Slot)
    ensures var r := FormatProgramName(Some(p)); var base := BaseName(p.name);
      && |base| <= |r| && r[..|base|] == base
      && (r == base <==> base in OwnName)
      && (base !in OwnName && base in Hosts ==> r == base + " With " + Hosts[base])
      && (base !in OwnName && base !in Hosts ==> r == base + " With " + Station)
  {
    var base := BaseName(p.name);
    var r := FormatProgramName(Some(p));
    assert base in Hosts ==> Hosts[base] != "";
    if base !in OwnName {
      assert r[..|base|] == base;
      assert |r| > |base|;
    }
  }

  /** A missing program shows the station's name. */
  lemma MissingProgramName()
    ensures FormatProgramName(None) == "Praise FM"
  {
  }

  /** The station's own name is kept as it is by `BaseName`. */
  lemma StationBaseName()
    ensures BaseName(Station) == Station
  {
    UntaggedKept(Station);
    assert SkipSpaces(Station, 0) == 0;
    assert BackSpaces(Station, 0, 9) == 9;
  }

  /** The placeholder program is credited to the station as its host. */
  lemma FallbackProgramName()
    ensures FormatProgramName(Some(Fallback)) == "Praise FM With Praise FM"
  {
    assert Fallback.name == Station;
    StationBaseName();
    StationIsNoProgram();
    ProgramNameShape(Fallback);
    assert Station + " With " + Station == "Praise FM With Praise FM";
  }

  /** The station's name is neither in the own-name list nor a program
      with a host. */
  lemma StationIsNoProgram()
    ensures Station !in OwnName && Station !in Hosts
  {
    assert Station !in Hosts.Keys;
  }
}
