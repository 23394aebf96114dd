/** The schedule resolver of the player (`getCurrentAndNext`): given the
    weekly schedule, the day of the week and the minute of the day, which
    program is on air and which two programs come next. The clock read
    that produces the day and the minute is outside this module. */
module Schedule {
  import opened Text

  /** The `start` or `end` text of a program: `Blank` for a missing or
      empty text (false in a JavaScript test), `Clock` for an "H:M" text,
      held as the two numbers `split(":").map(Number)` gives for it. */
  datatype TimeText = Blank | Clock(hm: HourMinute)

  /** The `TimeText` a string stands for; None for a text that is neither
      empty nor an "H:M" text. */
  function ReadTimeText(t: string): (r: Option<TimeText>)
    ensures r == Some(Blank) <==> t == ""
    ensures r.Some? && r.value.Clock? ==>
      exists i :: 0 < i < |t| - 1 && t[i] == ':' && AllDigits(t[..i]) && AllDigits(t[i + 1..])
  {
    if t == "" then Some(Blank)
    else match ParseHM(t)
      case Some(hm) => Some(Clock(hm))
      case None => None
  }

  /** Digits, a colon and digits read as the clock holding the two
      numbers, whose minutes are `timeToMins` of the text. */
  lemma ReadTimeTextJoined(h: string, m: string)
    requires 0 < |h| && 0 < |m| && AllDigits(h) && AllDigits(m)
    ensures ReadTimeText(h + ":" + m) == Some(Clock(HourMinute(DigitsValue(h), DigitsValue(m))))
    ensures TimeToMins(h + ":" + m) == DigitsValue(h) * 60 + DigitsValue(m)
  {
    ParseJoined(h, m);
  }

  /** One program of the schedule. `days` is None when the slot has no day
      list and so plays every day; `desc` is "" where the slot has none. */
  datatype Slot = Slot(start: TimeText, end: TimeText, name: string, img: string,
                       days: Option<seq<int>>, desc: string)

  const DefaultImage := "/image/logopraisefm.webp"

  /** "00:00" */
  const Midnight := Clock(HourMinute(0, 0))

  /** The placeholder `current` when no slot is on air; its times are the
      text "00:00". */
  const Fallback := Slot(Midnight, Midnight, "Praise FM", DefaultImage, None, "")

  predicate HasTimes(p: Slot) { p.start.Clock? && p.end.Clock? }

  /** Every slot's start and end are "H:M" texts. */
  predicate ValidSchedule(sch: seq<Slot>) {
    forall i :: 0 <= i < |sch| ==> HasTimes(sch[i])
  }

  /** The text "00:00" reads as the placeholder's times. */
  lemma MidnightText()
    ensures ReadTimeText("00:00") == Some(Midnight)
  {
    ParseJoined("00", "00");
    assert "00" + ":" + "00" == "00:00";
  }

  /** `(day + 1) % 7`: the day after `day`. */
  function NextDay(day: Day): Day {
    (day + 1) % 7
  }

  /** The slot's day filter lets it play on `day`: it has no day list, or
      its day list holds `day`. An empty day list never plays. */
  predicate PlaysOn(p: Slot, day: int) {
    p.days.None? || day in p.days.value
  }

  function StartMins(p: Slot): nat
    requires HasTimes(p)
  {
    Minutes(p.start.hm)
  }

  function EndMins(p: Slot): nat
    requires HasTimes(p)
  {
    Minutes(p.end.hm)
  }

  /** A slot whose end is not after its start runs past midnight: its end
      counts one day (1440 minutes) later. */
  function EffectiveEnd(p: Slot): nat
    requires HasTimes(p)
  {
    if EndMins(p) <= StartMins(p) then EndMins(p) + 1440 else EndMins(p)
  }

  /** The slot plays on `day` and `mins` lies in its half-open interval. */
  predicate OnAir(p: Slot, day: Day, mins: Minute)
    requires HasTimes(p)
  {
    PlaysOn(p, day) && StartMins(p) <= mins < EffectiveEnd(p)
  }

  // ---------------------------------------------------------------------
  // The current program

  /** The index `current` holds after the loop has visited the first `n`
      slots: a slot on air replaces the one held only when its effective
      end is strictly later. */
  function Winner(sch: seq<Slot>, day: Day, mins: Minute, n: nat): (r: Option<nat>)
    requires ValidSchedule(sch) && n <= |sch|
    ensures r.None? <==> forall j :: 0 <= j < n ==> !OnAir(sch[j], day, mins)
    ensures r.Some? ==> r.value < n && OnAir(sch[r.value], day, mins)
    ensures r.Some? ==> forall j :: 0 <= j < n && OnAir(sch[j], day, mins) ==>
      EffectiveEnd(sch[j]) <= EffectiveEnd(sch[r.value])
    ensures r.Some? ==> forall j :: 0 <= j < r.value && OnAir(sch[j], day, mins) ==>
      EffectiveEnd(sch[j]) < EffectiveEnd(sch[r.value])
  {
    if n == 0 then None
    else
      var held := Winner(sch, day, mins, n - 1);
      var p := sch[n - 1];
      if OnAir(p, day, mins) && (held.None? || EffectiveEnd(p) > EffectiveEnd(sch[held.value])) then
        Some(n - 1)
      else
        held
  }

  /** Slot `k` is the program on air: it is on air, no slot on air ends
      later, and every slot on air declared before it ends strictly
      earlier. */
  ghost predicate IsCurrent(sch: seq<Slot>, day: Day, mins: Minute, k: int)
    requires ValidSchedule(sch)
  {
    && 0 <= k < |sch|
    && OnAir(sch[k], day, mins)
    && (forall j :: 0 <= j < |sch| && OnAir(sch[j], day, mins) ==>
          EffectiveEnd(sch[j]) <= EffectiveEnd(sch[k]))
    && (forall j :: 0 <= j < k && OnAir(sch[j], day, mins) ==>
          EffectiveEnd(sch[j]) < EffectiveEnd(sch[k]))
  }

  // ---------------------------------------------------------------------
  // The upcoming programs

  /** An entry of the `future` list: a slot and the minute it starts at,
      counted from today's midnight. */
  datatype Upcoming = Upcoming(prog: Slot, startMins: int)

  /** The slots that play today and start after `mins`, in declaration
      order. */
  function Today(sch: seq<Slot>, day: Day, mins: Minute): (r: seq<Upcoming>)
    requires ValidSchedule(sch)
    ensures forall u :: u in r ==>
      (u.prog in sch && HasTimes(u.prog) && PlaysOn(u.prog, day)
       && u.startMins == StartMins(u.prog) && mins < u.startMins)
    ensures forall i :: 0 <= i < |sch| && PlaysOn(sch[i], day) && mins < StartMins(sch[i]) ==>
      Upcoming(sch[i], StartMins(sch[i])) in r
  {
    if |sch| == 0 then []
    else
      var p := sch[0];
      var rest := Today(sch[1..], day, mins);
      assert forall i :: 1 <= i < |sch| ==> sch[i] == sch[1..][i - 1];
      (if PlaysOn(p, day) && mins < StartMins(p) then [Upcoming(p, StartMins(p))] else []) + rest
  }

  /** A slot's `future` entry for tomorrow: its start one day later. */
  function DayLater(p: Slot): Upcoming
    requires HasTimes(p)
  {
    Upcoming(p, StartMins(p) + 1440)
  }

  /** Every slot that plays tomorrow, with its start moved one day later,
      in declaration order. */
  function Tomorrow(sch: seq<Slot>, day: Day): (r: seq<Upcoming>)
    requires ValidSchedule(sch)
    ensures forall u :: u in r ==>
      (u.prog in sch && HasTimes(u.prog) && PlaysOn(u.prog, NextDay(day))
       && u.startMins == StartMins(u.prog) + 1440)
    ensures forall i :: 0 <= i < |sch| && PlaysOn(sch[i], NextDay(day)) ==>
      DayLater(sch[i]) in r
  {
    if |sch| == 0 then []
    else
      var p := sch[0];
      var rest := Tomorrow(sch[1..], day);
      assert forall i :: 1 <= i < |sch| ==> sch[i] == sch[1..][i - 1];
      (if PlaysOn(p, NextDay(day)) then [DayLater(p)] else []) + rest
  }

  predicate SortedByStart(s: seq<Upcoming>) {
    forall i, j :: 0 <= i < j < |s| ==> s[i].startMins <= s[j].startMins
  }

  /** Puts `x` into a sorted list after every entry that does not start
      later than it. */
  function Insert(x: Upcoming, s: seq<Upcoming>): (r: seq<Upcoming>)
    requires SortedByStart(s)
    ensures SortedByStart(r)
    ensures multiset(r) == multiset(s) + multiset{x}
  {
    if |s| == 0 || x.startMins < s[0].startMins then
      ConsSorted(x, s);
      [x] + s
    else
      var tail := Insert(x, s[1..]);
      StartsFrom(s[0], s[1..], x, tail);
      ConsSorted(s[0], tail);
      assert s == [s[0]] + s[1..];
      [s[0]] + tail
  }

  /** An entry starting no later than a sorted list goes in front of it. */
  lemma ConsSorted(y: Upcoming, t: seq<Upcoming>)
    requires SortedByStart(t)
    requires |t| == 0 || y.startMins <= t[0].startMins
    ensures SortedByStart([y] + t)
  {
    var r := [y] + t;
    forall i, j | 0 <= i < j < |r|
      ensures r[i].startMins <= r[j].startMins
    {
      if i == 0 {
        assert r[j] == t[j - 1];
      } else {
        assert r[i] == t[i - 1] && r[j] == t[j - 1];
      }
    }
  }

  /** A permutation of a sorted list and one more entry, none starting
      before `y`, starts with an entry no earlier than `y`. */
  lemma StartsFrom(y: Upcoming, s: seq<Upcoming>, x: Upcoming, t: seq<Upcoming>)
    requires SortedByStart([y] + s) && y.startMins <= x.startMins
    requires multiset(t) == multiset(s) + multiset{x}
    ensures |t| == 0 || y.startMins <= t[0].startMins
  {
    if |t| > 0 {
      assert t[0] in multiset(t);
      if t[0] != x {
        assert t[0] in multiset(s);
        var i :| 0 <= i < |s| && s[i] == t[0];
        assert ([y] + s)[0] == y && ([y] + s)[i + 1] == s[i];
      }
    }
  }

  /** `future.sort((a, b) => a.startMins - b.startMins)`. The JavaScript
      sort is stable, as this insertion sort is. */
  function SortByStart(s: seq<Upcoming>): (r: seq<Upcoming>)
    ensures SortedByStart(r)
    ensures multiset(r) == multiset(s)
  {
    if |s| == 0 then []
    else
      assert s == s[..|s| - 1] + [s[|s| - 1]];
      Insert(s[|s| - 1], SortByStart(s[..|s| - 1]))
  }

  /** The entries of `s` that start at minute `k`, in order. */
  function WithStart(s: seq<Upcoming>, k: int): seq<Upcoming> {
    if |s| == 0 then []
    else (if s[0].startMins == k then [s[0]] else []) + WithStart(s[1..], k)
  }

  /** The `future` list of `getCurrentAndNext`, sorted. */
  function UpcomingList(sch: seq<Slot>, day: Day, mins: Minute): seq<Upcoming>
    requires ValidSchedule(sch)
  {
    var today := Today(sch, day, mins);
    SortByStart(if |today| > 0 then today else Tomorrow(sch, day))
  }

  // ---------------------------------------------------------------------
  // Resolution

  /** What `getCurrentAndNext` returns; None stands for `undefined`. */
  datatype Resolved = Resolved(current: Slot, next1: Option<Slot>, next2: Option<Slot>)

  /** `sch[i]`, which is `undefined` past the end. */
  function SlotAt(sch: seq<Slot>, i: nat): Option<Slot> {
    if i < |sch| then Some(sch[i]) else None
  }

  /** `getCurrentAndNext` at a given day and minute. */
  function Resolve(sch: seq<Slot>, day: Day, mins: Minute): (r: Resolved)
    requires ValidSchedule(sch)
    ensures HasTimes(r.current)
    ensures r.current == Fallback || exists k :: IsCurrent(sch, day, mins, k) && r.current == sch[k]
    ensures (forall j :: 0 <= j < |sch| ==> !OnAir(sch[j], day, mins)) ==> r.current == Fallback
  {
    var w := Winner(sch, day, mins, |sch|);
    var future := UpcomingList(sch, day, mins);
    assert w.Some? ==> IsCurrent(sch, day, mins, w.value);
    Resolved(
      if w.Some? then sch[w.value] else Fallback,
      if |future| > 0 then Some(future[0].prog) else SlotAt(sch, 0),
      if |future| > 1 then Some(future[1].prog) else SlotAt(sch, 1))
  }

  // ---------------------------------------------------------------------
  // Properties of the resolver

  /** Whenever some slot is on air, the current program is the slot
      `IsCurrent` describes, never the placeholder. */
  lemma CurrentIsResolved(sch: seq<Slot>, day: Day, mins: Minute, k: int)
    requires ValidSchedule(sch) && IsCurrent(sch, day, mins, k)
    ensures Resolve(sch, day, mins).current == sch[k]
  {
    CurrentIsUnique(sch, day, mins, k);
  }

  /** A slot on air at the minute means the current program is a slot of
      the schedule, the one `IsCurrent` describes. */
  lemma OnAirGivesSlot(sch: seq<Slot>, day: Day, mins: Minute, j: int)
    requires ValidSchedule(sch) && 0 <= j < |sch| && OnAir(sch[j], day, mins)
    ensures exists k :: IsCurrent(sch, day, mins, k) && Resolve(sch, day, mins).current == sch[k]
  {
    var w := Winner(sch, day, mins, |sch|);
    CurrentIsUnique(sch, day, mins, w.value);
    CurrentIsResolved(sch, day, mins, w.value);
  }

  /** The loop's `current` is exactly the slot `IsCurrent` describes: the
      latest-ending slot on air, the earliest declared among equal ends. */
  lemma CurrentIsUnique(sch: seq<Slot>, day: Day, mins: Minute, k: int)
    requires ValidSchedule(sch)
    ensures Winner(sch, day, mins, |sch|) == Some(k) <==> IsCurrent(sch, day, mins, k)
  {
    var w := Winner(sch, day, mins, |sch|);
    if IsCurrent(sch, day, mins, k) {
      assert w.Some?;
    }
  }

  /** A slot whose day list leaves out `day` is never the current program
      and never among today's upcoming programs; tomorrow's programs all
      play on the next day. */
  lemma DayFilter(sch: seq<Slot>, day: Day, mins: Minute, p: Slot)
    requires ValidSchedule(sch)
    requires !PlaysOn(p, day)
    ensures Resolve(sch, day, mins).current != p
    ensures forall u :: u in Today(sch, day, mins) ==> u.prog != p
    ensures forall u :: u in Tomorrow(sch, day) ==> PlaysOn(u.prog, NextDay(day))
  {
    var r := Resolve(sch, day, mins);
    if r.current != Fallback {
      var k :| IsCurrent(sch, day, mins, k) && r.current == sch[k];
    }
  }

  /** A slot that runs past midnight is on air from its start to the end
      of the day only: the minute never reaches 1440, so the part after
      midnight is never matched. */
  lemma WrapSlotBeforeMidnightOnly(p: Slot, day: Day, mins: Minute)
    requires HasTimes(p) && EndMins(p) <= StartMins(p)
    ensures OnAir(p, day, mins) <==> PlaysOn(p, day) && StartMins(p) <= mins
    ensures mins < StartMins(p) ==> !OnAir(p, day, mins)
  {
  }

  /** Filtering by start minute distributes over concatenation. */
  lemma {:induction false} WithStartAppend(a: seq<Upcoming>, b: seq<Upcoming>, k: int)
    ensures WithStart(a + b, k) == WithStart(a, k) + WithStart(b, k)
    decreases |a|
  {
    if |a| == 0 {
      assert a + b == b;
    } else {
      var head := if a[0].startMins == k then [a[0]] else [];
      assert (a + b)[0] == a[0];
      assert (a + b)[1..] == a[1..] + b;
      assert WithStart(a + b, k) == head + WithStart(a[1..] + b, k);
      WithStartAppend(a[1..], b, k);
      assert WithStart(a, k) == head + WithStart(a[1..], k);
    }
  }

  /** Inserting `x` adds it after the entries with the same start. */
  lemma {:induction false} InsertKeepsOrder(x: Upcoming, s: seq<Upcoming>, k: int)
    requires SortedByStart(s)
    ensures WithStart(Insert(x, s), k) == WithStart(s, k) + (if x.startMins == k then [x] else [])
    decreases |s|
  {
    if |s| == 0 || x.startMins < s[0].startMins {
      var r := [x] + s;
      assert Insert(x, s) == r;
      if x.startMins == k {
        NoneStartAt(s, k);
      }
      assert r[1..] == s;
      assert WithStart(r, k) == (if x.startMins == k then [x] else []) + WithStart(s, k);
    } else {
      var tail := Insert(x, s[1..]);
      var r := [s[0]] + tail;
      assert Insert(x, s) == r;
      InsertKeepsOrder(x, s[1..], k);
      assert r[1..] == tail;
      assert WithStart(r, k) == (if s[0].startMins == k then [s[0]] else []) + WithStart(tail, k);
    }
  }

  /** No entry of a sorted list starting after `k` starts at `k`. */
  lemma {:induction false} NoneStartAt(s: seq<Upcoming>, k: int)
    requires forall i :: 0 <= i < |s| ==> k < s[i].startMins
    ensures WithStart(s, k) == []
    decreases |s|
  {
    if |s| > 0 {
      NoneStartAt(s[1..], k);
    }
  }

  /** The sort is stable: entries with the same start keep their order. */
  lemma {:induction false} SortIsStable(s: seq<Upcoming>, k: int)
    ensures WithStart(SortByStart(s), k) == WithStart(s, k)
    decreases |s|
  {
    if |s| > 0 {
      var init := s[..|s| - 1];
      var last := s[|s| - 1];
      var sorted := SortByStart(init);
      assert SortByStart(s) == Insert(last, sorted);
      SortIsStable(init, k);
      InsertKeepsOrder(last, sorted, k);
      assert s == init + [last];
      WithStartAppend(init, [last], k);
      assert WithStart([last], k) == (if last.startMins == k then [last] else []) + WithStart([], k);
    }
  }

  /** The shape of the sorted `future` list: today's later programs when
      there are any, otherwise every program of tomorrow a day later. */
  lemma UpcomingShape(sch: seq<Slot>, day: Day, mins: Minute)
    requires ValidSchedule(sch)
    ensures SortedByStart(UpcomingList(sch, day, mins))
    ensures |Today(sch, day, mins)| == 0 <==>
      forall i :: 0 <= i < |sch| && PlaysOn(sch[i], day) ==> StartMins(sch[i]) <= mins
    ensures |Today(sch, day, mins)| > 0 ==>
      multiset(UpcomingList(sch, day, mins)) == multiset(Today(sch, day, mins))
    ensures |Today(sch, day, mins)| == 0 ==>
      multiset(UpcomingList(sch, day, mins)) == multiset(Tomorrow(sch, day))
    ensures forall u :: u in UpcomingList(sch, day, mins) ==>
      HasTimes(u.prog) && u.prog in sch &&
      if |Today(sch, day, mins)| > 0
      then PlaysOn(u.prog, day) && mins < u.startMins && u.startMins == StartMins(u.prog)
      else PlaysOn(u.prog, NextDay(day)) && u.startMins == StartMins(u.prog) + 1440
  {
    var today := Today(sch, day, mins);
    var ul := UpcomingList(sch, day, mins);
    if |today| > 0 {
      assert today[0] in today;
    }
    assert forall u :: u in ul ==> u in multiset(ul);
  }

  /** When some program playing today starts after `mins`, `next1` is one
      of them, and none of them starts earlier. */
  lemma NextIsEarliestToday(sch: seq<Slot>, day: Day, mins: Minute, i: int)
    requires ValidSchedule(sch)
    requires 0 <= i < |sch| && PlaysOn(sch[i], day) && mins < StartMins(sch[i])
    ensures var n1 := Resolve(sch, day, mins).next1;
      && n1.Some? && n1.value in sch && HasTimes(n1.value)
      && PlaysOn(n1.value, day) && mins < StartMins(n1.value)
      && forall j :: 0 <= j < |sch| && PlaysOn(sch[j], day) && mins < StartMins(sch[j]) ==>
           StartMins(n1.value) <= StartMins(sch[j])
  {
    UpcomingShape(sch, day, mins);
    var today := Today(sch, day, mins);
    var ul := UpcomingList(sch, day, mins);
    assert Upcoming(sch[i], StartMins(sch[i])) in today;
    assert |ul| > 0 by {
      assert multiset(ul) == multiset(today);
    }
    assert ul[0] in ul;
    forall j | 0 <= j < |sch| && PlaysOn(sch[j], day) && mins < StartMins(sch[j])
      ensures ul[0].startMins <= StartMins(sch[j])
    {
      var u := Upcoming(sch[j], StartMins(sch[j]));
      assert u in multiset(today);
      assert u in ul;
    }
  }

  /** When no program playing today starts after `mins`, `next1` is a
      program of tomorrow, and no program of tomorrow starts earlier. */
  lemma NextIsEarliestTomorrow(sch: seq<Slot>, day: Day, mins: Minute, i: int)
    requires ValidSchedule(sch)
    requires forall j :: 0 <= j < |sch| && PlaysOn(sch[j], day) ==> StartMins(sch[j]) <= mins
    requires 0 <= i < |sch| && PlaysOn(sch[i], NextDay(day))
    ensures var n1 := Resolve(sch, day, mins).next1;
      && n1.Some? && n1.value in sch && HasTimes(n1.value) && PlaysOn(n1.value, NextDay(day))
      && forall j :: 0 <= j < |sch| && PlaysOn(sch[j], NextDay(day)) ==>
           StartMins(n1.value) <= StartMins(sch[j])
  {
    UpcomingShape(sch, day, mins);
    var tomorrow := Tomorrow(sch, day);
    var ul := UpcomingList(sch, day, mins);
    assert DayLater(sch[i]) in tomorrow;
    assert |ul| > 0 by {
      assert multiset(ul) == multiset(tomorrow);
    }
    assert ul[0] in ul;
    forall j | 0 <= j < |sch| && PlaysOn(sch[j], NextDay(day))
      ensures ul[0].startMins <= StartMins(sch[j]) + 1440
    {
      var u := DayLater(sch[j]);
      assert u in multiset(tomorrow);
      assert u in ul;
    }
  }

  /** `next1` and `next2` are the programs of the first two entries of the
      `future` list. Where the list runs short, the declared slot at the
      same position stands in, without regard to the day: both with an
      empty list, only `next2` with one entry. With two or more entries,
      `next1`'s entry starts no later than any entry, and `next2`'s no
      later than any other entry. */
  lemma NextPair(sch: seq<Slot>, day: Day, mins: Minute)
    requires ValidSchedule(sch)
    ensures var r := Resolve(sch, day, mins);
      var ul := UpcomingList(sch, day, mins);
      && ((forall j :: 0 <= j < |sch| ==> !PlaysOn(sch[j], day) || StartMins(sch[j]) <= mins)
          && (forall j :: 0 <= j < |sch| ==> !PlaysOn(sch[j], NextDay(day)))
          ==> r.next1 == SlotAt(sch, 0) && r.next2 == SlotAt(sch, 1))
      && (|ul| == 1 ==> r.next1 == Some(ul[0].prog) && r.next2 == SlotAt(sch, 1))
      && (|ul| >= 2 ==>
            && r.next1 == Some(ul[0].prog) && r.next2 == Some(ul[1].prog)
            && (forall i :: 0 <= i < |ul| ==> ul[0].startMins <= ul[i].startMins)
            && (forall i :: 1 <= i < |ul| ==> ul[1].startMins <= ul[i].startMins))
      && (|ul| >= 2 ==>
            r.next1.Some? && r.next2.Some? && HasTimes(r.next1.value) && HasTimes(r.next2.value)
            && StartMins(r.next1.value) <= StartMins(r.next2.value))
  {
    if (forall j :: 0 <= j < |sch| ==> !PlaysOn(sch[j], day) || StartMins(sch[j]) <= mins)
       && (forall j :: 0 <= j < |sch| ==> !PlaysOn(sch[j], NextDay(day)))
    {
      NoneLeft(sch, day, mins);
    }
    NextTwoEarliest(sch, day, mins);
    NextInOrder(sch, day, mins);
  }

  /** The programs of the first two entries of the sorted `future` list,
      and the declared slots standing in where it runs short. */
  lemma NextTwoEarliest(sch: seq<Slot>, day: Day, mins: Minute)
    requires ValidSchedule(sch)
    ensures var r := Resolve(sch, day, mins);
      var ul := UpcomingList(sch, day, mins);
      && (|ul| == 1 ==> r.next1 == Some(ul[0].prog) && r.next2 == SlotAt(sch, 1))
      && (|ul| >= 2 ==>
            && r.next1 == Some(ul[0].prog) && r.next2 == Some(ul[1].prog)
            && (forall i :: 0 <= i < |ul| ==> ul[0].startMins <= ul[i].startMins)
            && (forall i :: 1 <= i < |ul| ==> ul[1].startMins <= ul[i].startMins))
  {
    UpcomingShape(sch, day, mins);
  }

  /** With nothing later today and nothing tomorrow, the `future` list is
      empty and the first two declared slots stand in. */
  lemma NoneLeft(sch: seq<Slot>, day: Day, mins: Minute)
    requires ValidSchedule(sch)
    requires forall j :: 0 <= j < |sch| ==> !PlaysOn(sch[j], day) || StartMins(sch[j]) <= mins
    requires forall j :: 0 <= j < |sch| ==> !PlaysOn(sch[j], NextDay(day))
    ensures UpcomingList(sch, day, mins) == []
    ensures Resolve(sch, day, mins).next1 == SlotAt(sch, 0)
    ensures Resolve(sch, day, mins).next2 == SlotAt(sch, 1)
  {
    UpcomingShape(sch, day, mins);
    NoTomorrow(sch, day);
    assert multiset(UpcomingList(sch, day, mins)) == multiset{};
  }

  /** No slot plays on the next day, so the tomorrow list is empty. */
  lemma NoTomorrow(sch: seq<Slot>, day: Day)
    requires ValidSchedule(sch)
    requires forall j :: 0 <= j < |sch| ==> !PlaysOn(sch[j], NextDay(day))
    ensures Tomorrow(sch, day) == []
  {
  }

  /** With two or more entries in the `future` list, `next1` starts no
      later than `next2`. */
  lemma NextInOrder(sch: seq<Slot>, day: Day, mins: Minute)
    requires ValidSchedule(sch)
    ensures var r := Resolve(sch, day, mins);
      |UpcomingList(sch, day, mins)| >= 2 ==>
        r.next1.Some? && r.next2.Some? && HasTimes(r.next1.value) && HasTimes(r.next2.value)
        && StartMins(r.next1.value) <= StartMins(r.next2.value)
  {
    UpcomingShape(sch, day, mins);
    var ul := UpcomingList(sch, day, mins);
    if |ul| >= 2 {
      assert ul[0] in ul && ul[1] in ul;
    }
  }
}
