/** The integer arithmetic of `updateProgramProgress`: the length of the
    current program and the minutes it has run, and the two labels the
    mini player shows for them. The percentage and the styles built from
    it are floating point and are not modelled. */
module Progress {
  import opened Text
  import opened Schedule
  import opened Format

  /** `Live` is the branch taken when the program lacks a start or an end
      text; `Elapsed` carries the minutes run and the program's length. */
  datatype Progress = Live | Elapsed(elapsed: int, total: int)

  /** The arithmetic on the start minute `s`, the end minute `e0` and the
      clock minute `n`: an end not after the start moves to the next day. */
  function Arithmetic(s: int, e0: int, n: int): Progress {
    var e := if e0 <= s then e0 + 1440 else e0;
    Elapsed(if n >= s && n < e then n - s else (n + 1440) - s, e - s)
  }

  /** The `current.start && current.end` test and the arithmetic under
      it, for program `current` at clock minute `n`. */
  function ProgressOf(current: Slot, n: Minute): Progress {
    if current.start.Clock? && current.end.Clock? then
      Arithmetic(Minutes(current.start.hm), Minutes(current.end.hm), n)
    else
      Live
  }

  /** The arithmetic for times within the day, stated on the minutes. */
  lemma ArithmeticBounds(s: int, e0: int, n: int)
    requires 0 <= s < 1440 && 0 <= e0 < 1440 && 0 <= n < 1440
    ensures var e := if e0 <= s then e0 + 1440 else e0;
      var r := Arithmetic(s, e0, n);
      && r.total == e - s
      && 1 <= r.total <= 1440
      && 0 <= r.elapsed
      && (s <= n < e ==> r.elapsed == n - s)
      && (r.elapsed < r.total <==> s <= n < e || (e0 <= s && n < e0))
  {
  }

  /** For a span running past midnight the test `n < e` always holds, so
      the minutes run are counted from the start exactly when `n` is not
      before it. */
  lemma WrappingElapsed(s: int, e0: int, n: int)
    requires 0 <= s < 1440 && 0 <= e0 <= s && 0 <= n < 1440
    ensures Arithmetic(s, e0, n).elapsed == if n >= s then n - s else (n + 1440) - s
  {
  }

  /** At a minute inside the span, the minutes run are counted from the
      start. */
  lemma ArithmeticInside(s: int, e0: int, n: int)
    requires s <= n < (if e0 <= s then e0 + 1440 else e0)
    ensures Arithmetic(s, e0, n) == Elapsed(n - s, (if e0 <= s then e0 + 1440 else e0) - s)
  {
  }

  /** For a program with times within the day the length is the span up
      to the resolver's effective end, between one minute and a whole
      day, so the `total > 0` guard always holds; the minutes run are
      never negative, and are below the length exactly when the clock is
      inside the span or, for a program running past midnight, in the
      part after midnight. */
  lemma ProgressBounds(current: Slot, n: Minute)
    requires HasTimes(current) && StartMins(current) < 1440 && EndMins(current) < 1440
    ensures var r := ProgressOf(current, n);
      && r.Elapsed?
      && r.total == EffectiveEnd(current) - StartMins(current)
      && 1 <= r.total <= 1440
      && 0 <= r.elapsed
      && (StartMins(current) <= n < EffectiveEnd(current) ==> r.elapsed == n - StartMins(current))
      && (r.elapsed < r.total <==>
            StartMins(current) <= n < EffectiveEnd(current)
            || (EndMins(current) <= StartMins(current) && n < EndMins(current)))
  {
    ArithmeticBounds(StartMins(current), EndMins(current), n);
  }

  /** The progress the player means to show: current program and clock
      minute from one reading of the clock. The minutes run are always
      below the program's length, and the `Live` branch is never taken,
      because the placeholder carries the "00:00" texts. */
  function ProgressNow(sch: seq<Slot>, day: Day, mins: Minute): (r: Progress)
    requires ValidSchedule(sch)
    ensures r.Elapsed? && 0 <= r.elapsed < r.total
  {
    NowBounds(sch, day, mins);
    ProgressOf(Resolve(sch, day, mins).current, mins)
  }

  lemma NowBounds(sch: seq<Slot>, day: Day, mins: Minute)
    requires ValidSchedule(sch)
    ensures var r := ProgressOf(Resolve(sch, day, mins).current, mins);
      r.Elapsed? && 0 <= r.elapsed < r.total
  {
    CurrentOnAir(sch, day, mins);
    ResolvedProgress(Resolve(sch, day, mins).current, mins);
  }

  /** The placeholder, or a program on air at `n`, has run fewer minutes
      than its length at `n`. */
  lemma ResolvedProgress(current: Slot, n: Minute)
    requires current == Fallback || (HasTimes(current) && StartMins(current) <= n < EffectiveEnd(current))
    ensures var r := ProgressOf(current, n); r.Elapsed? && 0 <= r.elapsed < r.total
  {
    if current == Fallback {
      FallbackProgress(n);
    } else {
      OnAirProgress(current, n);
    }
  }

  /** The resolved program is the placeholder or a slot on air. */
  lemma CurrentOnAir(sch: seq<Slot>, day: Day, mins: Minute)
    requires ValidSchedule(sch)
    ensures var current := Resolve(sch, day, mins).current;
      current == Fallback || StartMins(current) <= mins < EffectiveEnd(current)
  {
    var current := Resolve(sch, day, mins).current;
    if current != Fallback {
      var k :| IsCurrent(sch, day, mins, k) && current == sch[k];
    }
  }

  /** The placeholder runs from midnight to midnight: at minute `n` it
      has run `n` minutes of 1440. */
  lemma FallbackProgress(n: Minute)
    ensures ProgressOf(Fallback, n) == Elapsed(n, 1440)
  {
    WholeDay(StartMins(Fallback), n);
  }

  /** A span that starts and ends at minute 0 is the whole day. The start
      is a parameter so that the placeholder's start minute is not
      evaluated inside the arithmetic. */
  lemma WholeDay(s: int, n: Minute)
    requires s == 0
    ensures Arithmetic(s, s, n) == Elapsed(n, 1440)
  {
  }

  /** A program on air at `n` has run fewer minutes than its length. */
  lemma OnAirProgress(p: Slot, n: Minute)
    requires HasTimes(p) && StartMins(p) <= n < EffectiveEnd(p)
    ensures ProgressOf(p, n) == Elapsed(n - StartMins(p), EffectiveEnd(p) - StartMins(p))
  {
    ArithmeticInside(StartMins(p), EndMins(p), n);
  }

  /** `updateProgramProgress` as written: the current program comes from
      one reading of the clock (inside `getCurrentAndNext`) and the minute
      `later` from a second one. When both read the same minute this is
      the progress above. */
  function ProgressTwoReads(sch: seq<Slot>, day: Day, mins: Minute, later: Minute): (r: Progress)
    requires ValidSchedule(sch)
    ensures later == mins ==> r == ProgressNow(sch, day, mins)
  {
    ProgressOf(Resolve(sch, day, mins).current, later)
  }

  /** Midday Grace, 12:00 to 16:00 every day. */
  const Midday := Slot(Clock(HourMinute(12, 0)), Clock(HourMinute(16, 0)),
                       "Midday Grace", "/image/middaygracelogo.webp", None, "")

  /** When the minute turns between the two readings at the end of a
      program, the minutes run exceed the program's length (the bar shows
      700%): Midday Grace read at 15:59 and then 16:00. */
  lemma TwoReadsOverrun()
    ensures ProgressTwoReads([Midday], 1, 959, 960) == Elapsed(1680, 240)
  {
    MiddayAtEnd();
    MiddayTimes();
    assert ProgressOf(Midday, 960) == Arithmetic(720, 960, 960);
  }

  /** At 15:59 Midday Grace is the current program. */
  lemma MiddayAtEnd()
    ensures ValidSchedule([Midday]) && Resolve([Midday], 1, 959).current == Midday
  {
    MiddayTimes();
    assert OnAir(Midday, 1, 959);
    CurrentIsUnique([Midday], 1, 959, 0);
  }

  lemma MiddayTimes()
    ensures HasTimes(Midday) && StartMins(Midday) == 720 && EndMins(Midday) == 960
  {
    assert Minutes(HourMinute(12, 0)) == HoursInMinutes(12);
    assert Minutes(HourMinute(16, 0)) == HoursInMinutes(16);
  }

  /** The two labels of the mini player: the minutes run and the length,
      each as `formatTime` of that many minutes in seconds; "--:--" and
      "Live" on the `Live` branch. */
  function ProgressLabels(p: Progress): (labels: (string, string))
    requires p.Elapsed? ==> 0 <= p.elapsed && 0 <= p.total
    ensures p.Live? ==> labels == ("--:--", "Live")
    ensures p.Elapsed? ==> IsClock(labels.0) && TimeToMins(labels.0) == p.elapsed * 60
    ensures p.Elapsed? ==> IsClock(labels.1) && TimeToMins(labels.1) == p.total * 60
  {
    match p
    case Live => ("--:--", "Live")
    case Elapsed(elapsed, total) =>
      FormatTimeRoundTrip(elapsed * 60);
      FormatTimeRoundTrip(total * 60);
      (FormatTime(elapsed * 60), FormatTime(total * 60))
  }
}
