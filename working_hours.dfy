/** The opening-hours and pickup-time engine of the ordering app
    (src/utils/workingHours.ts).

    Instants are whole seconds counted from local midnight of the day of
    `now`; a value of 86400 or more lies on the next day. Opening and closing
    times are time-of-day strings ("HH:mm" or "HH:mm:ss") parsed against
    today's date; a string that does not parse stands for JavaScript's Invalid
    Date, against which every comparison is false. */
module WorkingHours {
  import opened Common

  const SecondsPerDay := 86400
  /** Minimum preparation time before the earliest pickup. */
  const LeadTimeSeconds := 30 * 60
  /** Distance between two consecutive pickup slots. */
  const SlotStepSeconds := 10 * 60
  /** Length of the "closing soon" window before closing time. */
  const ClosingSoonSeconds := 60 * 60

  /** `now`, as seconds since the local midnight of its own day. */
  type DaySecond = t: int | 0 <= t < 86400

  datatype TimeSlot = TimeSlot(value: string, labelText: string, disabled: bool)

  datatype OrderingStatus = Open | Closed | ClosingSoon

  datatype OrderPermission = OrderPermission(canOrder: bool, reason: Option<string>)

  const ClosedReason: string := "Restavracija trenutno ne sprejema naročil. Poskusite v delovnem času."

  /** The inner `formatTime`: "HH:mm" passes unchanged, a longer string is cut
      to its first five characters, a shorter one is kept whole. */
  function TruncateClock(s: string): (r: string)
    ensures |r| == if |s| < 5 then |s| else 5
    ensures r == s[..|r|]
  {
    if |s| == 5 then s else s[..if |s| < 5 then |s| else 5]
  }

  /** The length of an `HH` or `mm` field: date-fns reads one or two
      digits for a two-letter numeric token. */
  function FieldLength(s: string): (n: nat)
    ensures n <= 2 && n <= |s|
    ensures forall i :: 0 <= i < n ==> IsDigit(s[i])
    ensures n < 2 && n < |s| ==> !IsDigit(s[n])
  {
    if |s| >= 1 && IsDigit(s[0]) then (if |s| >= 2 && IsDigit(s[1]) then 2 else 1) else 0
  }

  /** The number written by the first `n` (one or two) digits of `s`. */
  function FieldValue(s: string, n: nat): (v: nat)
    requires 1 <= n <= 2 && n <= |s| && forall i :: 0 <= i < n ==> IsDigit(s[i])
    ensures v < if n == 1 then 10 else 100
  {
    if n == 1 then DigitValue(s[0]) else DigitValue(s[0]) * 10 + DigitValue(s[1])
  }

  /** `parse("<today> " + s, "yyyy-MM-dd HH:mm")`: one or two digits of
      hour, a colon, one or two digits of minute, then nothing but
      whitespace; an hour above 23 or a minute above 59 is refused. The
      instant of that clock time today, or `None` for Invalid Date. */
  function ParseClock(s: string): (r: Option<int>)
    ensures r.Some? ==> 0 <= r.value < SecondsPerDay && r.value % 60 == 0
  {
    var a := FieldLength(s);
    if a == 0 || a == |s| || s[a] != ':' then None
    else
      var rest := s[a + 1..];
      var b := FieldLength(rest);
      if b == 0 || !AllWhitespace(rest[b..]) then None
      else
        var h, m := FieldValue(s, a), FieldValue(rest, b);
        if h < 24 && m < 60 then Some(h * 3600 + m * 60) else None
  }

  /** A two-digit "HH:mm" text reads as its hour and minute. */
  lemma ParseTwoDigitFields(s: string)
    requires |s| == 5 && IsDigit(s[0]) && IsDigit(s[1]) && s[2] == ':' && IsDigit(s[3]) && IsDigit(s[4])
    ensures var h, m := DigitValue(s[0]) * 10 + DigitValue(s[1]), DigitValue(s[3]) * 10 + DigitValue(s[4]);
      ParseClock(s) == if h < 24 && m < 60 then Some(h * 3600 + m * 60) else None
  {
    var rest := s[3..];
    assert FieldLength(s) == 2;
    assert rest[0] == s[3] && rest[1] == s[4] && FieldLength(rest) == 2;
    assert rest[2..] == [];
  }

  /** Single-digit fields are read as date-fns reads them. */
  lemma ShortFields()
    ensures ClockOf("8:00") == Some(8 * 3600)
    ensures ClockOf("08:5") == Some(8 * 3600 + 5 * 60)
  {
    assert TruncateClock("8:00") == "8:00";
    assert "8:00"[2..] == "00" && "00"[2..] == [];
    assert TruncateClock("08:5") == "08:5";
    assert "08:5"[3..] == "5" && "5"[1..] == [];
  }

  /** A one-digit hour with seconds is cut to "H:mm:" and its trailing colon
      makes it an invalid date; so is hour 24. */
  lemma InvalidClocks()
    ensures ClockOf("8:00:00") == None
    ensures ClockOf("24:00") == None
  {
    assert TruncateClock("8:00:00") == "8:00:";
    assert FieldLength("8:00:") == 1 && "8:00:"[2..] == "00:" && "00:"[2..] == ":";
    assert !IsWhitespace(":"[0]);
    ParseTwoDigitFields("24:00");
  }

  /** Today's instant of a restaurant time string, as both functions
      compute it: a whole minute of the day, or `None` for Invalid Date. */
  function ClockOf(s: string): (r: Option<int>)
    ensures r.Some? ==> 0 <= r.value < SecondsPerDay && r.value % 60 == 0
  {
    ParseClock(TruncateClock(s))
  }

  /** date-fns `isAfter` and `isBefore`: false whenever either side is Invalid Date. */
  predicate IsAfter(a: Option<int>, b: Option<int>)
  {
    a.Some? && b.Some? && a.value > b.value
  }

  predicate IsBefore(a: Option<int>, b: Option<int>)
  {
    a.Some? && b.Some? && a.value < b.value
  }

  /** `isRestaurantOpen`: strictly after opening and strictly before closing. */
  predicate IsRestaurantOpen(casOd: string, casDo: string, now: DaySecond)
  {
    IsAfter(Some(now), ClockOf(casOd)) && IsBefore(Some(now), ClockOf(casDo))
  }

  lemma OpenIffStrictlyInside(casOd: string, casDo: string, now: DaySecond)
    ensures IsRestaurantOpen(casOd, casDo, now) <==>
      ClockOf(casOd).Some? && ClockOf(casDo).Some? && ClockOf(casOd).value < now < ClockOf(casDo).value
  {
  }

  /** Both ends are exclusive: closed at the opening and at the closing instant. */
  lemma ClosedAtBothBoundaries(casOd: string, casDo: string, now: DaySecond)
    requires ClockOf(casOd) == Some(now as int) || ClockOf(casDo) == Some(now as int)
    ensures !IsRestaurantOpen(casOd, casDo, now)
  {
  }

  /** The whole-minute part of `t` rounded up to the next multiple of ten
      minutes: `setMinutes(ceil(minutes / 10) * 10)` followed by `setSeconds(0)`. */
  function RoundUpToTenMinutes(t: int): (r: int)
    requires t >= 0
    ensures r % SlotStepSeconds == 0
    ensures r >= t - t % 60 && r - SlotStepSeconds < t - t % 60
  {
    var minutes := (t % 3600) / 60;
    var rounded := ((minutes + 9) / 10) * 10;
    RoundUpFacts(t);
    (t / 3600) * 3600 + rounded * 60
  }

  /** The arithmetic behind `RoundUpToTenMinutes`, one division at a time. */
  lemma RoundUpFacts(t: int)
    requires t >= 0
    ensures var minutes := (t % 3600) / 60;
      var r := (t / 3600) * 3600 + ((minutes + 9) / 10) * 10 * 60;
      r % SlotStepSeconds == 0 && r >= t - t % 60 && r - SlotStepSeconds < t - t % 60
  {
    var q, rem := t / 3600, t % 3600;
    var minutes, sec := rem / 60, rem % 60;
    var k := (minutes + 9) / 10;
    assert t == 3600 * q + 60 * minutes + sec;
    DivMod60(t, 60 * q + minutes, sec);
    assert 10 * k >= minutes && 10 * k < minutes + 10;
    var r := q * 3600 + k * 10 * 60;
    DivMod600(r, 6 * q + k, 0);
  }

  lemma DivMod60(x: int, quotient: int, remainder: int)
    requires 0 <= remainder < 60 && x == quotient * 60 + remainder
    ensures x / 60 == quotient && x % 60 == remainder
  {
  }

  lemma DivMod600(x: int, quotient: int, remainder: int)
    requires 0 <= remainder < 600 && x == quotient * 600 + remainder
    ensures x / 600 == quotient && x % 600 == remainder
  {
  }

  /** The first candidate slot: the later of `now` + 30 minutes and the
      opening instant, rounded up to ten minutes with the seconds dropped. */
  function SlotStart(open: int, now: DaySecond): (start: int)
    requires 0 <= open && open % 60 == 0
    ensures start % SlotStepSeconds == 0
    ensures start >= open
    ensures start > now + LeadTimeSeconds - 60
  {
    var earliest := now + LeadTimeSeconds;
    RoundUpToTenMinutes(if earliest > open then earliest else open)
  }

  /** The instants `from`, `from` + 10 min, ... that lie strictly before `close`. */
  function SlotInstants(from: int, close: int): seq<int>
    decreases close - from
  {
    if from < close then [from] + SlotInstants(from + SlotStepSeconds, close) else []
  }

  /** The instants of the pickup slots `getAvailablePickupTimes` offers. */
  function PickupInstants(casOd: string, casDo: string, now: DaySecond): seq<int>
  {
    var openTime, closeTime := ClockOf(casOd), ClockOf(casDo);
    if openTime.Some? && closeTime.Some? then SlotInstants(SlotStart(openTime.value, now), closeTime.value) else []
  }

  function TwoDigits(n: nat): (s: string)
    requires n < 100
    ensures |s| == 2 && IsDigit(s[0]) && IsDigit(s[1])
    ensures DigitValue(s[0]) * 10 + DigitValue(s[1]) == n
  {
    [('0' as int + n / 10) as char, ('0' as int + n % 10) as char]
  }

  /** `format(t, "HH:mm")`: hour of the day and minute of the hour. */
  function ClockLabel(t: int): (s: string)
    ensures |s| == 5 && s[2] == ':'
  {
    TwoDigits((t / 3600) % 24) + ":" + TwoDigits((t % 3600) / 60)
  }

  function SlotAt(t: int): TimeSlot
  {
    var text := ClockLabel(t);
    TimeSlot(text, text, false)
  }

  function RenderSlots(ts: seq<int>): (slots: seq<TimeSlot>)
    ensures |slots| == |ts|
  {
    if ts == [] then [] else [SlotAt(ts[0])] + RenderSlots(ts[1..])
  }

  /** Each instant is rendered, in order, as the slot of its own clock time. */
  lemma {:induction false} RenderedSlots(ts: seq<int>)
    ensures forall i :: 0 <= i < |ts| ==> RenderSlots(ts)[i] == SlotAt(ts[i])
  {
    if ts != [] {
      RenderedSlots(ts[1..]);
      assert forall i :: 1 <= i < |ts| ==> ts[1..][i - 1] == ts[i];
    }
  }

  lemma {:induction false} SlotInstantsAt(from: int, close: int, i: nat)
    requires i < |SlotInstants(from, close)|
    ensures SlotInstants(from, close)[i] == from + SlotStepSeconds * i
    ensures SlotInstants(from, close)[i] < close
    decreases close - from
  {
    if i > 0 {
      SlotInstantsAt(from + SlotStepSeconds, close, i - 1);
    }
  }

  /** The slots from `from` are `from` + k * 10 min, all before `close`, ten minutes apart. */
  lemma SlotInstantsShape(from: int, close: int)
    ensures var ts := SlotInstants(from, close);
      forall i :: 0 <= i < |ts| ==> ts[i] == from + SlotStepSeconds * i && ts[i] < close
  {
    var ts := SlotInstants(from, close);
    forall i | 0 <= i < |ts| ensures ts[i] == from + SlotStepSeconds * i && ts[i] < close {
      SlotInstantsAt(from, close, i);
    }
  }

  /** No slot is skipped: every ten-minute step from `from` that lies before `close` is present. */
  lemma {:induction false} SlotInstantsComplete(from: int, close: int, i: nat)
    requires from + SlotStepSeconds * i < close
    ensures i < |SlotInstants(from, close)|
    decreases close - from
  {
    if i > 0 {
      SlotInstantsComplete(from + SlotStepSeconds, close, i - 1);
    }
  }

  /** One step of the slot loop: the first remaining slot is rendered and the rest follow. */
  lemma RenderSlotsStep(done: seq<TimeSlot>, from: int, close: int)
    requires from < close
    ensures done + RenderSlots(SlotInstants(from, close))
      == (done + [SlotAt(from)]) + RenderSlots(SlotInstants(from + SlotStepSeconds, close))
  {
    var rest := SlotInstants(from + SlotStepSeconds, close);
    assert SlotInstants(from, close) == [from] + rest;
    assert ([from] + rest)[1..] == rest;
    assert RenderSlots(SlotInstants(from, close)) == [SlotAt(from)] + RenderSlots(rest);
  }

  /** The `while` loop of `getAvailablePickupTimes` once both ends are
      valid dates: from the start, a slot is pushed every ten minutes while
      it lies strictly before closing. */
  method PushSlots(start: int, close: int) returns (slots: seq<TimeSlot>)
    ensures slots == RenderSlots(SlotInstants(start, close))
  {
    slots := [];
    var currentSlot := Some(start);
    var closeTime := Some(close);
    ghost var all := SlotInstants(start, close);
    while IsBefore(currentSlot, closeTime)
      invariant currentSlot.Some?
      invariant RenderSlots(all) == slots + RenderSlots(SlotInstants(currentSlot.value, close))
      decreases close - currentSlot.value
    {
      var timeValue := ClockLabel(currentSlot.value);
      var timeLabel := ClockLabel(currentSlot.value);
      assert TimeSlot(timeValue, timeLabel, false) == SlotAt(currentSlot.value);
      RenderSlotsStep(slots, currentSlot.value, close);
      slots := slots + [TimeSlot(timeValue, timeLabel, false)];
      currentSlot := Some(currentSlot.value + SlotStepSeconds);
    }
    assert SlotInstants(currentSlot.value, close) == [];
  }

  /** `getAvailablePickupTimes`: the start is moved forward and rounded, then
      ten-minute slots are pushed while they lie strictly before closing; an
      Invalid Date on either side pushes none. */
  method GetAvailablePickupTimes(casOd: string, casDo: string, now: DaySecond) returns (slots: seq<TimeSlot>)
    ensures slots == RenderSlots(PickupInstants(casOd, casDo, now))
  {
    var openTime := ClockOf(casOd);
    var closeTime := ClockOf(casDo);
    var earliestPickup := now + LeadTimeSeconds;
    var startTime := if IsAfter(Some(earliestPickup), openTime) then Some(earliestPickup) else openTime;
    if startTime.Some? {
      startTime := Some(RoundUpToTenMinutes(startTime.value));
    }
    if startTime.Some? && closeTime.Some? {
      assert startTime.value == SlotStart(openTime.value, now);
      slots := PushSlots(startTime.value, closeTime.value);
    } else {
      slots := [];
    }
  }

  /** Every slot lies within the opening hours (at or after opening, strictly
      before closing), no earlier than 59 seconds before `now` + 30 minutes,
      on a ten-minute boundary, and consecutive slots are exactly ten minutes apart. */
  lemma PickupSlotsShape(casOd: string, casDo: string, now: DaySecond)
    ensures var ts := PickupInstants(casOd, casDo, now);
      ts != [] ==> ClockOf(casOd).Some? && ClockOf(casDo).Some?
    ensures var ts := PickupInstants(casOd, casDo, now);
      forall i :: 0 <= i < |ts| ==>
        ClockOf(casOd).value <= ts[i] < ClockOf(casDo).value
        && ts[i] > now + LeadTimeSeconds - 60
        && ts[i] % SlotStepSeconds == 0
    ensures var ts := PickupInstants(casOd, casDo, now);
      forall i :: 0 <= i < |ts| - 1 ==> ts[i + 1] == ts[i] + SlotStepSeconds
  {
    var openTime, closeTime := ClockOf(casOd), ClockOf(casDo);
    if openTime.Some? && closeTime.Some? {
      var start := SlotStart(openTime.value, now);
      var ts := SlotInstants(start, closeTime.value);
      assert start == 600 * (start / 600) + start % 600;
      forall i | 0 <= i < |ts|
        ensures openTime.value <= ts[i] < closeTime.value
        ensures ts[i] > now + LeadTimeSeconds - 60 && ts[i] % SlotStepSeconds == 0
      {
        SlotInstantsAt(start, closeTime.value, i);
        DivMod600(ts[i], start / 600 + i, 0);
      }
      forall i | 0 <= i < |ts| - 1 ensures ts[i + 1] == ts[i] + SlotStepSeconds {
        SlotInstantsAt(start, closeTime.value, i);
        SlotInstantsAt(start, closeTime.value, i + 1);
      }
    }
  }

  /** The first slot is the rounded start, and the list runs on up to the last
      ten-minute step before closing: exactly the steps below closing are offered. */
  lemma PickupSlotsFirstAndComplete(casOd: string, casDo: string, now: DaySecond, k: nat)
    requires ClockOf(casOd).Some? && ClockOf(casDo).Some?
    ensures var ts := PickupInstants(casOd, casDo, now);
      var start := SlotStart(ClockOf(casOd).value, now);
      (ts != [] ==> ts[0] == start)
      && (k < |ts| <==> start + SlotStepSeconds * k < ClockOf(casDo).value)
  {
    var o, c := ClockOf(casOd).value, ClockOf(casDo).value;
    var start := SlotStart(o, now);
    var ts := PickupInstants(casOd, casDo, now);
    if ts != [] {
      SlotInstantsAt(start, c, 0);
    }
    if k < |ts| {
      SlotInstantsAt(start, c, k);
    }
    if start + SlotStepSeconds * k < c {
      SlotInstantsComplete(start, c, k);
    }
  }

  /** There is no overnight handling: when closing is not after opening the
      restaurant is never open and no slot is offered. */
  lemma NoOvernightSpan(casOd: string, casDo: string, now: DaySecond)
    requires ClockOf(casOd).Some? && ClockOf(casDo).Some?
    requires ClockOf(casDo).value <= ClockOf(casOd).value
    ensures !IsRestaurantOpen(casOd, casDo, now)
    ensures PickupInstants(casOd, casDo, now) == []
  {
    var o := ClockOf(casOd).value;
    assert SlotStart(o, now) >= o;
  }

  /** A slot's label names its own minute: read back as a clock time it gives
      the slot's instant, and its minute digit is 0. */
  lemma ClockLabelRoundTrip(t: int)
    requires 0 <= t < SecondsPerDay && t % 60 == 0
    ensures ParseClock(ClockLabel(t)) == Some(t)
    ensures t % SlotStepSeconds == 0 ==> ClockLabel(t)[4] == '0'
  {
    var h, m := t / 3600, (t % 3600) / 60;
    ClockParts(t);
    var a, b := TwoDigits(h % 24), TwoDigits(m);
    var s := ClockLabel(t);
    assert s == a + ":" + b;
    assert s[0] == a[0] && s[1] == a[1] && s[3] == b[0] && s[4] == b[1];
    assert DigitValue(s[0]) * 10 + DigitValue(s[1]) == h;
    assert DigitValue(s[3]) * 10 + DigitValue(s[4]) == m;
    ParseTwoDigitFields(s);
  }

  /** The hour and minute of a whole-minute instant of the day. */
  lemma ClockParts(t: int)
    requires 0 <= t < SecondsPerDay && t % 60 == 0
    ensures 0 <= t / 3600 < 24 && (t / 3600) % 24 == t / 3600
    ensures 0 <= (t % 3600) / 60 < 60
    ensures t == (t / 3600) * 3600 + ((t % 3600) / 60) * 60
    ensures t % SlotStepSeconds == 0 ==> ((t % 3600) / 60) % 10 == 0
  {
    var h, rem := t / 3600, t % 3600;
    var m, sec := rem / 60, rem % 60;
    assert t == 3600 * h + 60 * m + sec;
    DivMod60(t, 60 * h + m, sec);
    if t % SlotStepSeconds == 0 {
      var k := t / 600;
      assert 60 * m == 600 * k - 3600 * h;
      assert m == 10 * (k - 6 * h);
    }
  }

  lemma PickupLabelsRoundTrip(casOd: string, casDo: string, now: DaySecond)
    ensures var ts := PickupInstants(casOd, casDo, now);
      forall i :: 0 <= i < |ts| ==>
        ParseClock(SlotAt(ts[i]).value) == Some(ts[i]) && SlotAt(ts[i]).labelText[4] == '0'
        && SlotAt(ts[i]).value == SlotAt(ts[i]).labelText && !SlotAt(ts[i]).disabled
  {
    PickupSlotsShape(casOd, casDo, now);
    var ts := PickupInstants(casOd, casDo, now);
    forall i | 0 <= i < |ts|
      ensures ParseClock(SlotAt(ts[i]).value) == Some(ts[i]) && SlotAt(ts[i]).labelText[4] == '0'
    {
      var t := ts[i];
      assert 0 <= t < SecondsPerDay && t % SlotStepSeconds == 0;
      DivMod60(t, 10 * (t / 600), 0);
      ClockLabelRoundTrip(t);
    }
  }

  /** `canOrderFromRestaurant`: allowed exactly when some pickup slot is left. */
  method CanOrderFromRestaurant(casOd: string, casDo: string, now: DaySecond) returns (r: OrderPermission)
    ensures r.canOrder <==> |PickupInstants(casOd, casDo, now)| > 0
    ensures r.reason == if r.canOrder then None else Some(ClosedReason)
  {
    var availableSlots := GetAvailablePickupTimes(casOd, casDo, now);
    if |availableSlots| == 0 {
      return OrderPermission(false, Some(ClosedReason));
    }
    return OrderPermission(true, None);
  }

  /** `getOrderingStatus`: closed when not open, closing soon when `now` is
      strictly after closing minus one hour, open otherwise. */
  function GetOrderingStatus(casOd: string, casDo: string, now: DaySecond): (r: OrderingStatus)
    ensures r == Closed <==> !IsRestaurantOpen(casOd, casDo, now)
    ensures r == ClosingSoon <==>
      IsRestaurantOpen(casOd, casDo, now) && now > ClockOf(casDo).value - ClosingSoonSeconds
    ensures r == Open <==>
      IsRestaurantOpen(casOd, casDo, now) && now <= ClockOf(casDo).value - ClosingSoonSeconds
  {
    var closeTime := ClockOf(casDo);
    var closingSoonTime := if closeTime.Some? then Some(closeTime.value - ClosingSoonSeconds) else None;
    if !IsRestaurantOpen(casOd, casDo, now) then Closed
    else if IsAfter(Some(now as int), closingSoonTime) then ClosingSoon
    else Open
  }

  /** Ordering is allowed before opening time: slots are offered from
      opening on while the restaurant still counts as closed. */
  lemma OrderableBeforeOpening()
    ensures !IsRestaurantOpen("10:00", "12:00", 9 * 3600)
    ensures PickupInstants("10:00", "12:00", 9 * 3600) != []
  {
    ParseTwoDigitFields("10:00");
    ParseTwoDigitFields("12:00");
    assert SlotStart(36000, 9 * 3600) == 36000;
  }

  /** The stored times "08:00:00" and "20:00:00" read as 08:00 and 20:00. */
  lemma EveningClocks()
    ensures ClockOf("08:00:00") == Some(8 * 3600)
    ensures ClockOf("20:00:00") == Some(20 * 3600)
  {
    assert TruncateClock("08:00:00") == "08:00";
    assert TruncateClock("20:00:00") == "20:00";
    ParseTwoDigitFields("08:00");
    ParseTwoDigitFields("20:00");
  }

  /** Opening 08:00, closing 20:00 (as `EveningClocks` reads "08:00:00" and
      "20:00:00"), ordering at 19:05:00: open but closing soon, and only the
      19:40 and 19:50 slots remain (labelled as `EveningLabels` states). */
  lemma EveningExample(casOd: string, casDo: string)
    requires ClockOf(casOd) == Some(8 * 3600) && ClockOf(casDo) == Some(20 * 3600)
    ensures IsRestaurantOpen(casOd, casDo, 19 * 3600 + 5 * 60)
    ensures GetOrderingStatus(casOd, casDo, 19 * 3600 + 5 * 60) == ClosingSoon
    ensures PickupInstants(casOd, casDo, 19 * 3600 + 5 * 60) == [70800, 71400]
  {
    assert SlotStart(28800, 19 * 3600 + 5 * 60) == 70800;
    assert SlotInstants(72000, 72000) == [];
    assert SlotInstants(71400, 72000) == [71400];
  }

  /** The two remaining evening slots are shown as "19:40" and "19:50". */
  lemma EveningLabels()
    ensures ClockLabel(70800) == "19:40" && ClockLabel(71400) == "19:50"
  {
    assert TwoDigits(19) == "19";
    assert TwoDigits(40) == "40" && TwoDigits(50) == "50";
  }
}
