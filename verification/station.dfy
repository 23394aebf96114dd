/** The station's own weekly schedule and what the resolver makes of it
    at a few moments of the week. */
module Station {
  import opened Text
  import opened Schedule
  import opened Format

  function At(h: nat, m: nat): TimeText {
    Clock(HourMinute(h, m))
  }

  /** Every time of the table is written as two digits, a colon and two
      digits ("06:00", "20:31"); such a text reads as `At` of its two
      numbers. */
  lemma PaddedTimeText(h: nat, m: nat)
    ensures ReadTimeText(Pad2(h) + ":" + Pad2(m)) == Some(At(h, m))
  {
    Pad2RoundTrip(h);
    Pad2RoundTrip(m);
    ReadTimeTextJoined(Pad2(h), Pad2(m));
  }

  const Weekdays: seq<int> := [1, 2, 3, 4, 5]

  /** The `schedule` table, in its declared order. */
  const Week: seq<Slot> := [
    Slot(At(0, 0), At(6, 0), "Midnight Grace", "/image/midnightgracelogo.webp", None,
         "Daniel Brooks lays down the most soothing overnight praise vibes."),
    Slot(At(6, 0), At(7, 0), "Praise FM Worship", "/image/praisefmworship.png", None,
         "Praise FM plays the finest worship music."),
    Slot(At(7, 0), At(12, 0), "Morning Show", "/image/morningshowlogo.webp", Some(Weekdays),
         "Stancy Campbell kickstarts your day with uplifting praise and inspiration."),
    Slot(At(7, 0), At(12, 0), "Sunday With Christ", "/image/sundaywithchrist.png", Some([0]),
         "Matt Riley shares spiritual insights and Sunday music."),
    Slot(At(12, 0), At(16, 0), "Midday Grace", "/image/middaygracelogo.webp", None,
         "Michael Ray brings grace and tunes through the midday."),
    Slot(At(16, 0), At(17, 0), "Praise FM Non Stop", "/image/praisefmnonstop.png", None,
         "Praise FM with non-stop praise hits."),
    Slot(At(17, 0), At(18, 0), "Praise FM Worship", "/image/praisefmworship.png", None,
         "Praise FM plays the finest worship music."),
    Slot(At(18, 0), At(20, 0), "Praise FM Carpool", "/image/praisefmcarpoollogo.webp", Some(Weekdays),
         "Rachael Harris with praise tunes for your drive home."),
    Slot(At(20, 0), At(20, 30), "Praise FM POP", "/image/praisefmpoplogo.webp", None,
         "Jordan Reys with all things pop and contemporary praise."),
    Slot(At(20, 30), At(20, 31), "Praise FM Magazine", "/image/praisefmmagazine.png", Some([0]),
         "Praise FM with magazine-style content and features."),
    Slot(At(20, 30), At(21, 30), "Praise FM Non Stop", "/image/praisefmnonstop.png", Some([1, 2, 3, 4, 5, 6]),
         "Praise FM with non-stop praise hits."),
    Slot(At(21, 30), At(0, 0), "Praise FM Worship", "/image/praisefmworship.png", None,
         "Praise FM plays the finest worship music.")
  ]

  lemma WeekIsValid()
    ensures ValidSchedule(Week)
  {
  }

  /** At 20:30 on a Sunday the one-minute magazine is the only program on
      air, so it is the current one. */
  lemma SundayEvening()
    ensures Resolve(Week, 0, 1230).current == Week[9]
  {
    OnlyOnAir(0, 1230, 9);
  }

  /** At 20:30 on a Monday the non-stop hour is the only program on air. */
  lemma MondayEvening()
    ensures Resolve(Week, 1, 1230).current == Week[10]
  {
    OnlyOnAir(1, 1230, 10);
  }

  /** When exactly one slot is on air, the resolver picks it. */
  lemma OnlyOnAir(day: Day, mins: Minute, k: nat)
    requires k < |Week| && ValidSchedule(Week)
    requires forall j :: 0 <= j < |Week| ==> (OnAir(Week[j], day, mins) <==> j == k)
    ensures Resolve(Week, day, mins).current == Week[k]
  {
    assert Week[k] != Fallback;
  }

  /** At 06:30 on a Sunday the next program is Sunday With Christ, not the
      weekday Morning Show declared before it at the same time. */
  lemma SundayMorningNext()
    ensures Resolve(Week, 0, 390).next1 == Some(Week[3])
  {
    WeekIsValid();
    OnlyNextToday(0, 390, 3);
  }

  /** When slot `k` is the only slot of the day starting after `mins` and
      no later than it, `next1` is slot `k`. */
  lemma OnlyNextToday(day: Day, mins: Minute, k: nat)
    requires k < |Week| && ValidSchedule(Week)
    requires forall j :: 0 <= j < |Week| ==>
      (PlaysOn(Week[j], day) && mins < StartMins(Week[j]) <= StartMins(Week[k]) <==> j == k)
    ensures Resolve(Week, day, mins).next1 == Some(Week[k])
  {
    NextIsEarliestToday(Week, day, mins, k);
  }

  /** At 21:40 on a Wednesday the late worship slot, which runs to
      midnight, is on air. */
  lemma WednesdayLate()
    ensures Resolve(Week, 3, 1300).current == Week[11]
  {
    OnlyOnAir(3, 1300, 11);
  }

  /** With nothing left to start on a Wednesday after 21:40, the next
      program is Thursday's first, Midnight Grace. */
  lemma WednesdayLateNext()
    ensures Resolve(Week, 3, 1300).next1 == Some(Week[0])
  {
    WednesdayStarted();
    ThursdayFirst();
    OnlyNextTomorrow(3, 1300, 0);
  }

  lemma WednesdayStarted()
    ensures ValidSchedule(Week)
    ensures forall j :: 0 <= j < |Week| && PlaysOn(Week[j], 3) ==> StartMins(Week[j]) <= 1300
  {
  }

  lemma ThursdayFirst()
    ensures ValidSchedule(Week) && NextDay(3) == 4
    ensures forall j :: 0 <= j < |Week| ==>
      (PlaysOn(Week[j], 4) && StartMins(Week[j]) <= StartMins(Week[0]) <==> j == 0)
  {
  }

  /** When no slot of the day starts after `mins` and slot `k` is the only
      slot of the next day starting no later than it, `next1` is slot `k`. */
  lemma OnlyNextTomorrow(day: Day, mins: Minute, k: nat)
    requires k < |Week| && ValidSchedule(Week)
    requires forall j :: 0 <= j < |Week| && PlaysOn(Week[j], day) ==> StartMins(Week[j]) <= mins
    requires forall j :: 0 <= j < |Week| ==>
      (PlaysOn(Week[j], NextDay(day)) && StartMins(Week[j]) <= StartMins(Week[k]) <==> j == k)
    ensures Resolve(Week, day, mins).next1 == Some(Week[k])
  {
    NextIsEarliestTomorrow(Week, day, mins, k);
  }

  /** The late worship slot is shown as running to midnight on the
      12-hour clock. */
  lemma LateWorshipRange()
    ensures FormatRange(Week[11]) == "9:30 PM - 12:00 AM"
  {
    assert Week[11].start == At(21, 30) && Week[11].end == At(0, 0);
    HalfNineToMidnight(Week[11]);
  }

  /** Any slot from 21:30 to 00:00 shows as that range. */
  lemma HalfNineToMidnight(p: Slot)
    requires p.start == At(21, 30) && p.end == At(0, 0)
    ensures FormatRange(p) == "9:30 PM - 12:00 AM"
  {
    assert Hour12(21) == 9 && NatText(9) == "9";
    assert Hour12(0) == 12 && NatText(12) == "12";
    assert Pad2(30) == "30" && Pad2(0) == "00";
    Clock12Text(HourMinute(21, 30), "9", "30", "PM");
    Clock12Text(HourMinute(0, 0), "12", "00", "AM");
  }
}
