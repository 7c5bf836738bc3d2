/** Shift templates, the question whether a shift is on at a moment, and the bitmap
    that counts the minutes a club is open on a day. Days are numbered from a Monday;
    a moment is a minute of a day. */
module Shifts {
  import opened Basics

  datatype Shift = Shift(startMin: int, endMin: int, daysMask: int, active: bool)

  const MINUTES_PER_DAY := 1440

  datatype TemplateCheck = Valid | BadTime | ZeroLength | BadDays

  function ValidateShiftTemplate(startMin: int, endMin: int, daysMask: int): TemplateCheck {
    if startMin < 0 || startMin > 1439 || endMin < 0 || endMin > 1439 then BadTime
    else if startMin == endMin then ZeroLength
    else if daysMask < 1 || daysMask > 127 then BadDays
    else Valid
  }

  /** Weekday with Sunday as zero, as calendars count it. */
  function Weekday(day: int): int {
    (day + 1) % 7
  }

  function DowMonday(day: int): (d: int)
    ensures d == day % 7
  {
    (Weekday(day) + 6) % 7
  }

  function Pow2(n: nat): (p: int)
    ensures p > 0
  {
    if n == 0 then 1 else 2 * Pow2(n - 1)
  }

  /** The bit of the mask for this day of the week is set. */
  predicate OnDay(daysMask: int, day: int) {
    daysMask / Pow2(DowMonday(day)) % 2 == 1
  }

  /** The mask of some days, Monday first: each day counts twice the day before it. */
  function MaskOf(days: seq<bool>): int {
    if days == [] then 0 else (if days[0] then 1 else 0) + 2 * MaskOf(days[1..])
  }

  lemma HalfOfIt(bit: int, rest: int, p: int)
    requires 0 <= bit <= 1 && p > 0
    ensures (bit + 2 * rest) / (2 * p) == rest / p
  {
    var q := rest / p;
    var part := rest % p;
    assert rest == q * p + part;
    assert bit + 2 * rest == q * (2 * p) + (bit + 2 * part);
    QuotientIs(2 * p, bit + 2 * part, q);
  }

  lemma QuotientIs(p: int, low: int, q: int)
    requires 0 <= low < p
    ensures (q * p + low) / p == q
  {
    var r := (q * p + low) / p;
    assert q * p + low == r * p + (q * p + low) % p;
    ProductOrder(q, r, p);
    ProductOrder(r, q, p);
  }

  lemma MaskStep(days: seq<bool>, d: nat)
    requires days != [] && d > 0
    ensures MaskOf(days) / Pow2(d) == MaskOf(days[1..]) / Pow2(d - 1)
  {
    HalfOfIt(if days[0] then 1 else 0, MaskOf(days[1..]), Pow2(d - 1));
  }

  lemma MaskStart(days: seq<bool>)
    requires days != []
    ensures MaskOf(days) / Pow2(0) % 2 == if days[0] then 1 else 0
  {
    assert Pow2(0) == 1;
  }

  lemma {:induction false} MaskHasBit(days: seq<bool>, d: nat)
    requires d < |days|
    ensures MaskOf(days) / Pow2(d) % 2 == if days[d] then 1 else 0
  {
    hide MaskOf, Pow2;
    if d == 0 {
      MaskStart(days);
    } else {
      MaskStep(days, d);
      MaskHasBit(days[1..], d - 1);
    }
  }

  /** A mask built from the seven days of a week holds exactly those days. */
  lemma MaskHoldsItsDays(week: seq<bool>, day: int)
    requires |week| == 7
    ensures OnDay(MaskOf(week), day) <==> week[day % 7]
  {
    MaskHasBit(week, day % 7);
  }

  /** A template is accepted exactly when it starts and ends at different minutes of a
      day and names at least one day of the week and nothing else. */
  lemma TemplateIsAcceptedIff(startMin: int, endMin: int, daysMask: int)
    ensures ValidateShiftTemplate(startMin, endMin, daysMask) == Valid
       <==> 0 <= startMin < 1440 && 0 <= endMin < 1440 && startMin != endMin && 0 < daysMask < 128
    ensures ValidateShiftTemplate(startMin, endMin, daysMask) == ZeroLength ==> startMin == endMin
    ensures ValidateShiftTemplate(startMin, endMin, daysMask) == BadDays ==> !(0 < daysMask < 128)
  {
  }

  /** The day a shift that is on at this minute began; none if it is not on. */
  function ShiftActiveAt(startMin: int, endMin: int, daysMask: int, day: int, minute: int): Option<int> {
    if endMin > startMin then
      if minute >= startMin && minute < endMin && OnDay(daysMask, day) then Some(day) else None
    else if minute >= startMin && OnDay(daysMask, day) then Some(day)
    else if minute < endMin && OnDay(daysMask, day - 1) then Some(day - 1)
    else None
  }

  /** Absolute minutes during which an occurrence that begins on `began` runs. */
  predicate Runs(startMin: int, endMin: int, began: int, absolute: int) {
    var from := began * MINUTES_PER_DAY + startMin;
    var to := began * MINUTES_PER_DAY + endMin + if endMin > startMin then 0 else MINUTES_PER_DAY;
    from <= absolute < to
  }

  /** A valid shift is on exactly when some occurrence on one of its days runs, and
      it is then credited to the day that occurrence began. */
  lemma ActiveIffAnOccurrenceRuns(startMin: int, endMin: int, daysMask: int, day: int, minute: int)
    requires ValidateShiftTemplate(startMin, endMin, daysMask) == Valid && 0 <= minute < MINUTES_PER_DAY
    ensures forall began :: ShiftActiveAt(startMin, endMin, daysMask, day, minute) == Some(began) <==>
              OnDay(daysMask, began) && Runs(startMin, endMin, began, day * MINUTES_PER_DAY + minute)
  {
    var on := ShiftActiveAt(startMin, endMin, daysMask, day, minute);
    hide OnDay;
    forall began
      ensures on == Some(began) <==>
              OnDay(daysMask, began) && Runs(startMin, endMin, began, day * MINUTES_PER_DAY + minute)
    {
      assert Runs(startMin, endMin, began, day * MINUTES_PER_DAY + minute) ==> began == day || began == day - 1;
    }
  }

  /** Some active shift is on at this minute. */
  predicate OpenAt(shifts: seq<Shift>, day: int, minute: int) {
    exists i :: 0 <= i < |shifts| && ShiftOpens(shifts[i], day, minute)
  }

  predicate ShiftOpens(s: Shift, day: int, minute: int) {
    s.active && ShiftActiveAt(s.startMin, s.endMin, s.daysMask, day, minute).Some?
  }

  predicate AnyActive(shifts: seq<Shift>) {
    exists i :: 0 <= i < |shifts| && shifts[i].active
  }

  /** Minutes of the day, up to `n`, at which the club is open. */
  function OpenMinutesUpTo(shifts: seq<Shift>, day: int, n: nat): nat {
    if n == 0 then 0 else OpenMinutesUpTo(shifts, day, n - 1) + if OpenAt(shifts, day, n - 1) then 1 else 0
  }

  /** Open minutes of a day: with no active shift at all the club counts as always open. */
  function OpenMinutes(shifts: seq<Shift>, day: int): nat {
    if AnyActive(shifts) then OpenMinutesUpTo(shifts, day, MINUTES_PER_DAY) else MINUTES_PER_DAY
  }

  /** The count is the size of the set of open minutes: overlaps count once. */
  lemma {:induction false} CountIsSetSize(shifts: seq<Shift>, day: int, n: nat)
    ensures OpenMinutesUpTo(shifts, day, n) == |set m | 0 <= m < n && OpenAt(shifts, day, m)|
  {
    hide OpenAt;
    var open := set m | 0 <= m < n && OpenAt(shifts, day, m);
    if n > 0 {
      CountIsSetSize(shifts, day, n - 1);
      var before := set m | 0 <= m < n - 1 && OpenAt(shifts, day, m);
      assert open == if OpenAt(shifts, day, n - 1) then before + {n - 1} else before;
    }
  }

  /** A day without any active shift counts as open throughout; otherwise its minutes
      with an active shift count. */
  lemma OpenMinutesOfADay(shifts: seq<Shift>, day: int)
    ensures OpenMinutes(shifts, day) ==
      if forall i :: 0 <= i < |shifts| ==> !shifts[i].active then 1440
      else |set m | 0 <= m < 1440 && OpenAt(shifts, day, m)|
  {
    hide OpenAt;
    CountIsSetSize(shifts, day, 1440);
  }

  /** For valid templates a minute is open exactly when some occurrence of an active
      shift, begun that day or the day before, runs at it. */
  lemma OpenIffAnOccurrenceRuns(shifts: seq<Shift>, day: int, minute: int)
    requires 0 <= minute < MINUTES_PER_DAY
    requires forall i :: 0 <= i < |shifts| ==>
               ValidateShiftTemplate(shifts[i].startMin, shifts[i].endMin, shifts[i].daysMask) == Valid
    ensures OpenAt(shifts, day, minute) <==>
      exists i, began :: 0 <= i < |shifts| && shifts[i].active && OnDay(shifts[i].daysMask, began)
        && Runs(shifts[i].startMin, shifts[i].endMin, began, day * MINUTES_PER_DAY + minute)
  {
    hide OnDay, Runs, ShiftActiveAt;
    forall i | 0 <= i < |shifts|
      ensures ShiftOpens(shifts[i], day, minute) <==> shifts[i].active && exists began ::
        OnDay(shifts[i].daysMask, began) && Runs(shifts[i].startMin, shifts[i].endMin, began, day * MINUTES_PER_DAY + minute)
    {
      var s := shifts[i];
      ActiveIffAnOccurrenceRuns(s.startMin, s.endMin, s.daysMask, day, minute);
      var on := ShiftActiveAt(s.startMin, s.endMin, s.daysMask, day, minute);
      if on.Some? {
        assert OnDay(s.daysMask, on.value) && Runs(s.startMin, s.endMin, on.value, day * MINUTES_PER_DAY + minute);
      }
    }
  }

  /** Mark the minutes from `from` up to `to`, as far as they lie within the day. */
  method Mark(covered: array<bool>, from: int, to: int)
    requires covered.Length == MINUTES_PER_DAY
    modifies covered
    ensures forall i :: 0 <= i < MINUTES_PER_DAY ==> covered[i] == (old(covered[i]) || from <= i < to)
  {
    var first := if from < 0 then 0 else from;
    var last := if to > MINUTES_PER_DAY then MINUTES_PER_DAY else to;
    var i := first;
    while i < last
      invariant first <= i && (i <= last || i == first)
      invariant forall k :: 0 <= k < MINUTES_PER_DAY ==> covered[k] == (old(covered[k]) || first <= k < i)
    {
      covered[i] := true;
      i := i + 1;
    }
  }

  /** Mark what one active shift covers of a day: its own minutes, and the morning
      tail of the occurrence that began the day before. */
  method MarkShift(covered: array<bool>, s: Shift, day: int)
    requires covered.Length == MINUTES_PER_DAY && s.active
    modifies covered
    ensures forall i :: 0 <= i < MINUTES_PER_DAY ==> covered[i] == (old(covered[i]) || ShiftOpens(s, day, i))
  {
    var today, yesterday := OnDay(s.daysMask, day), OnDay(s.daysMask, day - 1);
    hide OnDay;
    if today {
      if s.endMin > s.startMin {
        Mark(covered, s.startMin, s.endMin);
      } else {
        Mark(covered, s.startMin, MINUTES_PER_DAY);
      }
    }
    if s.endMin <= s.startMin && yesterday {
      Mark(covered, 0, s.endMin);
    }
  }

  /** The coverage bitmap: every minute marked is one at which an active shift is on,
      and every such minute is marked, once. */
  method OpenMinutesPerDay(shifts: seq<Shift>, day: int) returns (n: nat)
    ensures n == OpenMinutes(shifts, day)
  {
    var active := false;
    for k := 0 to |shifts|
      invariant active == AnyActive(shifts[..k])
    {
      assert shifts[..k + 1] == shifts[..k] + [shifts[k]];
      if shifts[k].active {
        active := true;
        assert shifts[..k + 1][k].active;
      }
      assert forall i :: 0 <= i < k ==> shifts[..k][i] == shifts[..k + 1][i];
    }
    assert shifts[..|shifts|] == shifts;
    if !active {
      return MINUTES_PER_DAY;
    }
    var covered := new bool[MINUTES_PER_DAY](_ => false);
    for k := 0 to |shifts|
      invariant forall i :: 0 <= i < MINUTES_PER_DAY ==> covered[i] == OpenAt(shifts[..k], day, i)
    {
      if shifts[k].active {
        MarkShift(covered, shifts[k], day);
      }
      forall i | 0 <= i < MINUTES_PER_DAY ensures covered[i] == OpenAt(shifts[..k + 1], day, i) {
        OpenAtOneMore(shifts, day, i, k);
      }
    }
    n := 0;
    for i := 0 to MINUTES_PER_DAY
      invariant n == OpenMinutesUpTo(shifts, day, i)
    {
      if covered[i] {
        n := n + 1;
      }
    }
  }

  lemma OpenAtOneMore(shifts: seq<Shift>, day: int, minute: int, k: nat)
    requires k < |shifts|
    ensures OpenAt(shifts[..k + 1], day, minute) <==> OpenAt(shifts[..k], day, minute) || ShiftOpens(shifts[k], day, minute)
  {
    hide ShiftOpens;
    var before, after := shifts[..k], shifts[..k + 1];
    if OpenAt(before, day, minute) {
      var i :| 0 <= i < |before| && ShiftOpens(before[i], day, minute);
      assert ShiftOpens(after[i], day, minute);
    }
    if ShiftOpens(shifts[k], day, minute) {
      assert ShiftOpens(after[k], day, minute);
    }
    if OpenAt(after, day, minute) && !ShiftOpens(shifts[k], day, minute) {
      var i :| 0 <= i < |after| && ShiftOpens(after[i], day, minute);
      assert ShiftOpens(before[i], day, minute);
    }
  }

  /** Open minutes of a period of days, both ends included. */
  function OpenMinutesOver(shifts: seq<Shift>, fromDay: int, toDay: int): nat
    decreases toDay - fromDay
  {
    if fromDay > toDay then 0 else OpenMinutes(shifts, fromDay) + OpenMinutesOver(shifts, fromDay + 1, toDay)
  }

  method OpenMinutesInPeriod(shifts: seq<Shift>, fromDay: int, toDay: int) returns (total: nat)
    ensures total == OpenMinutesOver(shifts, fromDay, toDay)
  {
    total := 0;
    var d := fromDay;
    while d <= toDay
      invariant total + OpenMinutesOver(shifts, d, toDay) == OpenMinutesOver(shifts, fromDay, toDay)
      decreases toDay - d
    {
      var n := OpenMinutesPerDay(shifts, d);
      total := total + n;
      d := d + 1;
    }
  }
}
