/** Bookings of machines: creating, cancelling, restoring, seating and no-shows.
    Times are seconds, durations minutes. */
module Bookings {
  import opened Basics

  datatype Status = Pending | Confirmed | Cancelled | Completed | NoShow | Seated

  datatype Booking = Booking(user: nat, pc: nat, club: nat, status: Status, start: int, durationMin: int)

  /** The club each machine stands in, and the booking rows; an index is an id. */
  datatype Book = Book(pcClub: seq<nat>, rows: seq<Booking>)

  const MIN_DURATION_MIN := 30
  const MAX_DURATION_MIN := 480
  const DAY := 86400

  /** Touching ends do not overlap. */
  predicate BookingOverlaps(aStart: int, aDur: int, bStart: int, bDur: int) {
    aStart < bStart + bDur && bStart < aStart + aDur
  }

  /** Two bookings overlap exactly when some moment belongs to both. */
  lemma OverlapIff(aStart: int, aDur: nat, bStart: int, bDur: nat)
    requires aDur > 0 && bDur > 0
    ensures BookingOverlaps(aStart, aDur, bStart, bDur)
       <==> exists t :: Within(t, aStart, aDur) && Within(t, bStart, bDur)
  {
    if BookingOverlaps(aStart, aDur, bStart, bDur) {
      var t := if aStart < bStart then bStart else aStart;
      assert Within(t, aStart, aDur) && Within(t, bStart, bDur);
    }
  }

  predicate Within(t: int, start: int, dur: int) {
    start <= t < start + dur
  }

  datatype TimeCheck = TimeOk | BadDuration | InPast | TooFar

  function ValidateBookingTime(start: int, durationMin: int, now: int): TimeCheck {
    if durationMin < MIN_DURATION_MIN || durationMin > MAX_DURATION_MIN then BadDuration
    else if start < now - 60 then InPast
    else if start > now + 30 * DAY then TooFar
    else TimeOk
  }

  /** A time is accepted for half an hour to eight hours, from a minute ago to thirty
      days ahead; otherwise the first of these that fails is named. */
  lemma TimeIsCheckedFor(start: int, durationMin: int, now: int)
    ensures ValidateBookingTime(start, durationMin, now) == TimeOk
       <==> 30 <= durationMin <= 480 && now - 60 <= start <= now + 2592000
    ensures ValidateBookingTime(start, durationMin, now) == BadDuration <==> durationMin < 30 || 480 < durationMin
    ensures ValidateBookingTime(start, durationMin, now) == InPast <==> 30 <= durationMin <= 480 && start < now - 60
  {
  }

  predicate Live(b: Booking) {
    b.status == Pending || b.status == Confirmed
  }

  predicate Clashes(b: Booking, start: int, durationMin: int) {
    BookingOverlaps(start, durationMin * 60, b.start, b.durationMin * 60)
  }

  /** The rows that the search reads: live, and starting within a day of the wish. */
  predicate InSearchWindow(b: Booking, start: int) {
    Live(b) && start - DAY <= b.start <= start + DAY
  }

  /** The search's verdict on a machine, looking at one club's bookings only, or all. */
  predicate FoundBusy(rows: seq<Booking>, club: Option<nat>, pc: nat, start: int, durationMin: int) {
    exists i :: 0 <= i < |rows| && MakesBusy(rows[i], club, pc, start, durationMin)
  }

  predicate MakesBusy(b: Booking, club: Option<nat>, pc: nat, start: int, durationMin: int) {
    b.pc == pc && (club.None? || b.club == club.value) && InSearchWindow(b, start) && Clashes(b, start, durationMin)
  }

  /** A live booking of this machine overlaps the wish, wherever it starts. */
  ghost predicate ReallyBusy(rows: seq<Booking>, pc: nat, start: int, durationMin: int) {
    exists i :: 0 <= i < |rows| && rows[i].pc == pc && Live(rows[i]) && Clashes(rows[i], start, durationMin)
  }

  predicate DurationOk(durationMin: int) {
    MIN_DURATION_MIN <= durationMin <= MAX_DURATION_MIN
  }

  /** Rows have lawful durations, name known machines, and carry their club. */
  ghost predicate WellKept(b: Book) {
    forall i :: 0 <= i < |b.rows| ==>
      DurationOk(b.rows[i].durationMin) && b.rows[i].pc < |b.pcClub| && b.rows[i].club == b.pcClub[b.rows[i].pc]
  }

  /** No two live bookings of one machine overlap. */
  ghost predicate Disjoint(rows: seq<Booking>) {
    forall i, j :: 0 <= i < j < |rows| && Live(rows[i]) && Live(rows[j]) && rows[i].pc == rows[j].pc ==>
      !BookingOverlaps(rows[i].start, rows[i].durationMin * 60, rows[j].start, rows[j].durationMin * 60)
  }

  /** Because no booking is longer than eight hours, looking only a day around the
      wished start finds every clash. */
  lemma SearchFindsEveryClash(b: Book, club: Option<nat>, pc: nat, start: int, durationMin: int)
    requires WellKept(b) && DurationOk(durationMin) && pc < |b.pcClub|
    requires club.Some? ==> b.pcClub[pc] == club.value
    ensures FoundBusy(b.rows, club, pc, start, durationMin) <==> ReallyBusy(b.rows, pc, start, durationMin)
  {
    if ReallyBusy(b.rows, pc, start, durationMin) {
      var i :| 0 <= i < |b.rows| && b.rows[i].pc == pc && Live(b.rows[i]) && Clashes(b.rows[i], start, durationMin);
      assert MakesBusy(b.rows[i], club, pc, start, durationMin);
    }
  }

  /** The first candidate that the search finds free. */
  function Pick(rows: seq<Booking>, club: Option<nat>, candidates: seq<nat>, start: int, durationMin: int): (r: Option<nat>)
    ensures r.Some? ==> r.value in candidates && !FoundBusy(rows, club, r.value, start, durationMin)
    ensures r.None? ==> forall pc :: pc in candidates ==> FoundBusy(rows, club, pc, start, durationMin)
  {
    if candidates == [] then None
    else if !FoundBusy(rows, club, candidates[0], start, durationMin) then Some(candidates[0])
    else Pick(rows, club, candidates[1..], start, durationMin)
  }

  /** Candidates are known machines, of the club when one is named. */
  predicate CandidatesOf(b: Book, club: Option<nat>, candidates: seq<nat>) {
    forall i :: 0 <= i < |candidates| ==>
      candidates[i] < |b.pcClub| && (club.None? || b.pcClub[candidates[i]] == club.value)
  }

  /** A booking is created on the first free candidate, by the guest within a club or
      by staff anywhere; or nothing happens. */
  function Create(b: Book, user: nat, club: Option<nat>, candidates: seq<nat>, start: int, durationMin: int, now: int): Book
    requires CandidatesOf(b, club, candidates)
  {
    if ValidateBookingTime(start, durationMin, now) != TimeOk then b
    else
      var pick := Pick(b.rows, club, candidates, start, durationMin);
      if pick.None? then b
      else b.(rows := b.rows + [Booking(user, pick.value, b.pcClub[pick.value], Confirmed, start, durationMin)])
  }

  function Cancel(b: Book, id: nat): Book {
    if id < |b.rows| && Live(b.rows[id]) then b.(rows := b.rows[id := b.rows[id].(status := Cancelled)]) else b
  }

  function Restore(b: Book, id: nat): Book {
    if id < |b.rows| && b.rows[id].status == Cancelled
       && !FoundBusy(b.rows, None, b.rows[id].pc, b.rows[id].start, b.rows[id].durationMin)
    then b.(rows := b.rows[id := b.rows[id].(status := Confirmed)]) else b
  }

  function EndTime(b: Booking): int {
    b.start + b.durationMin * 60
  }

  predicate Relevant(b: Booking, pc: nat, now: int) {
    b.pc == pc && Live(b) && EndTime(b) > now
  }

  /** The relevant booking of the machine that starts first among the first `n` rows. */
  function NextRelevantBooking(rows: seq<Booking>, pc: nat, now: int, n: nat): (r: Option<nat>)
    requires n <= |rows|
    ensures r.Some? ==> r.value < n && Relevant(rows[r.value], pc, now)
    ensures forall i :: 0 <= i < n && Relevant(rows[i], pc, now) ==> r.Some? && rows[r.value].start <= rows[i].start
  {
    if n == 0 then None
    else
      var r := NextRelevantBooking(rows, pc, now, n - 1);
      if Relevant(rows[n - 1], pc, now) && (r.None? || rows[n - 1].start < rows[r.value].start) then Some(n - 1) else r
  }

  /** The next booking of a machine is live, not over, and starts no later than any other
      such; there is one if there is any such. */
  lemma NextIsEarliest(rows: seq<Booking>, pc: nat, now: int, i: nat)
    requires i < |rows|
    ensures var next := NextRelevantBooking(rows, pc, now, |rows|);
      var row := rows[i];
      var waits := row.pc == pc && (row.status == Pending || row.status == Confirmed)
        && now < row.start + row.durationMin * 60;
      && (waits ==> next.Some? && rows[next.value].start <= row.start)
      && (next == Some(i) ==> waits)
  {
  }

  /** Seating its owner uses up a booking that has begun or begins within the lock. */
  function ClaimOnSeat(b: Book, pc: nat, user: nat, now: int, lockMin: int): Book {
    var next := NextRelevantBooking(b.rows, pc, now, |b.rows|);
    if next.None? || b.rows[next.value].user != user || b.rows[next.value].start > now + lockMin * 60 then b
    else b.(rows := b.rows[next.value := b.rows[next.value].(status := Seated)])
  }

  /** Whole minutes until the start, cut toward zero as the clock arithmetic does. */
  function MinutesUntil(start: int, now: int): int {
    if start >= now then (start - now) / 60 else -((now - start) / 60)
  }

  /** The sweep's verdict on one row; `present` pairs guests with the
      clubs they have an active session in. */
  function SweepRow(b: Booking, now: int, noShowMin: int, present: set<(nat, nat)>): Booking {
    if !Live(b) || EndTime(b) <= now || MinutesUntil(b.start, now) >= 0 then b
    else if noShowMin <= 0 || now - b.start < noShowMin * 60 then b
    else b.(status := if (b.user, b.club) in present then Seated else NoShow)
  }

  function SweepUpTo(rows: seq<Booking>, now: int, noShowMin: int, present: set<(nat, nat)>, n: nat): (r: seq<Booking>)
    requires n <= |rows|
    ensures |r| == |rows|
    ensures forall i :: 0 <= i < |rows| ==> r[i] == if i < n then SweepRow(rows[i], now, noShowMin, present) else rows[i]
  {
    if n == 0 then rows
    else SweepUpTo(rows, now, noShowMin, present, n - 1)[n - 1 := SweepRow(rows[n - 1], now, noShowMin, present)]
  }

  datatype Event =
    | AddPc(club: nat)
    | CreateIn(user: nat, club: nat, candidates: seq<nat>, start: int, durationMin: int, now: int)
    | WalkIn(user: nat, candidates: seq<nat>, start: int, durationMin: int, now: int)
    | CancelIt(id: nat)
    | RestoreIt(id: nat)
    | SeatGuest(pc: nat, user: nat, now: int, lockMin: int)
    | Sweep(now: int, noShowMin: int, present: set<(nat, nat)>)

  function Step(b: Book, e: Event): Book {
    match e
    case AddPc(club) => b.(pcClub := b.pcClub + [club])
    case CreateIn(user, club, candidates, start, durationMin, now) =>
      if CandidatesOf(b, Some(club), candidates) then Create(b, user, Some(club), candidates, start, durationMin, now) else b
    case WalkIn(user, candidates, start, durationMin, now) =>
      if CandidatesOf(b, None, candidates) then Create(b, user, None, candidates, start, durationMin, now) else b
    case CancelIt(id) => Cancel(b, id)
    case RestoreIt(id) => Restore(b, id)
    case SeatGuest(pc, user, now, lockMin) => ClaimOnSeat(b, pc, user, now, lockMin)
    case Sweep(now, noShowMin, present) => b.(rows := SweepUpTo(b.rows, now, noShowMin, present, |b.rows|))
  }

  // What each step writes.

  /** A creation writes one confirmed booking, on the first candidate that has no live
      booking in that time; or nothing. */
  lemma CreationWrites(b: Book, user: nat, club: Option<nat>, candidates: seq<nat>, start: int, durationMin: int, now: int)
    requires WellKept(b) && CandidatesOf(b, club, candidates)
    ensures var b' := Create(b, user, club, candidates, start, durationMin, now);
      b' == b
      || exists k ::
           && FirstFree(b.rows, candidates, k, start, durationMin)
           && ValidateBookingTime(start, durationMin, now) == TimeOk
           && b' == b.(rows := b.rows + [Booking(user, candidates[k], b.pcClub[candidates[k]], Confirmed, start, durationMin)])
    ensures ValidateBookingTime(start, durationMin, now) != TimeOk ==>
      Create(b, user, club, candidates, start, durationMin, now) == b
  {
    if ValidateBookingTime(start, durationMin, now) == TimeOk && Pick(b.rows, club, candidates, start, durationMin).Some? {
      var k := PickIsFirst(b, club, candidates, start, durationMin);
    }
  }

  /** Candidate `k` is free, and those before it are not. */
  ghost predicate FirstFree(rows: seq<Booking>, candidates: seq<nat>, k: int, start: int, durationMin: int) {
    && 0 <= k < |candidates| && !ReallyBusy(rows, candidates[k], start, durationMin)
    && forall i :: 0 <= i < k ==> ReallyBusy(rows, candidates[i], start, durationMin)
  }

  lemma {:induction false} PickIsFirst(b: Book, club: Option<nat>, candidates: seq<nat>, start: int, durationMin: int) returns (k: nat)
    requires WellKept(b) && CandidatesOf(b, club, candidates) && DurationOk(durationMin)
    requires Pick(b.rows, club, candidates, start, durationMin).Some?
    ensures FirstFree(b.rows, candidates, k, start, durationMin)
    ensures candidates[k] == Pick(b.rows, club, candidates, start, durationMin).value
    decreases |candidates|
  {
    hide FoundBusy, ReallyBusy;
    SearchFindsEveryClash(b, club, candidates[0], start, durationMin);
    if !FoundBusy(b.rows, club, candidates[0], start, durationMin) {
      k := 0;
    } else {
      var rest := PickIsFirst(b, club, candidates[1..], start, durationMin);
      k := rest + 1;
    }
  }

  /** Only a live booking is cancelled, only a cancelled one restored, and then only its
      status changes. */
  lemma CancelAndRestoreWrite(b: Book, id: nat)
    requires WellKept(b) && id < |b.rows|
    ensures var row := b.rows[id];
      && Step(b, CancelIt(id)) ==
           (if row.status == Pending || row.status == Confirmed
            then b.(rows := b.rows[id := row.(status := Cancelled)]) else b)
      && Step(b, RestoreIt(id)) ==
           (if row.status == Cancelled && !ReallyBusy(b.rows, row.pc, row.start, row.durationMin)
            then b.(rows := b.rows[id := row.(status := Confirmed)]) else b)
  {
    hide FoundBusy, ReallyBusy;
    SearchFindsEveryClash(b, None, b.rows[id].pc, b.rows[id].start, b.rows[id].durationMin);
  }

  /** Seating uses up a booking exactly if the machine's next one is the guest's own and
      has begun or begins within the lock. */
  lemma SeatingWrites(b: Book, pc: nat, user: nat, now: int, lockMin: int, i: nat)
    requires i < |b.rows|
    ensures var next := NextRelevantBooking(b.rows, pc, now, |b.rows|);
      var b' := Step(b, SeatGuest(pc, user, now, lockMin));
      && |b'.rows| == |b.rows| && b'.pcClub == b.pcClub
      && b'.rows[i] ==
           if next == Some(i) && b.rows[i].user == user && b.rows[i].start - now <= lockMin * 60
           then b.rows[i].(status := Seated) else b.rows[i]
  {
  }

  /** The sweep touches a booking exactly when it is live, has not ended, began a full
      minute ago or more and the guest is late by the limit or more: he is seated if he
      has a session in that club, and otherwise did not come. */
  lemma SweepWrites(b: Book, now: int, noShowMin: int, present: set<(nat, nat)>, i: nat)
    requires i < |b.rows|
    ensures var row := b.rows[i];
      var b' := Step(b, Sweep(now, noShowMin, present));
      var late := (row.status == Pending || row.status == Confirmed) && now < row.start + row.durationMin * 60
        && now - row.start >= 60 && noShowMin > 0 && now - row.start >= noShowMin * 60;
      && |b'.rows| == |b.rows| && b'.pcClub == b.pcClub
      && (late && (row.user, row.club) in present ==> b'.rows[i] == row.(status := Seated))
      && (late && (row.user, row.club) !in present ==> b'.rows[i] == row.(status := NoShow))
      && (!late ==> b'.rows[i] == row)
  {
  }

  /** Guests book within a club, staff anywhere. */
  lemma CreationsGoThrough(b: Book, user: nat, club: nat, candidates: seq<nat>, start: int, durationMin: int, now: int)
    ensures CandidatesOf(b, Some(club), candidates) ==>
      Step(b, CreateIn(user, club, candidates, start, durationMin, now))
        == Create(b, user, Some(club), candidates, start, durationMin, now)
    ensures CandidatesOf(b, None, candidates) ==>
      Step(b, WalkIn(user, candidates, start, durationMin, now))
        == Create(b, user, None, candidates, start, durationMin, now)
    ensures Step(b, AddPc(club)) == b.(pcClub := b.pcClub + [club])
  {
  }

  ghost predicate Kept(b: Book) {
    WellKept(b) && Disjoint(b.rows)
  }

  /** Rows that only lose liveness stay disjoint. */
  lemma QuieterStaysKept(b: Book, rows: seq<Booking>)
    requires Kept(b) && |rows| == |b.rows|
    requires forall i :: 0 <= i < |rows| ==>
               rows[i] == b.rows[i].(status := rows[i].status) && (Live(rows[i]) ==> Live(b.rows[i]))
    ensures Kept(b.(rows := rows))
  {
    forall i, j | 0 <= i < j < |rows| && Live(rows[i]) && Live(rows[j]) && rows[i].pc == rows[j].pc
      ensures !BookingOverlaps(rows[i].start, rows[i].durationMin * 60, rows[j].start, rows[j].durationMin * 60)
    {
      assert Live(b.rows[i]) && Live(b.rows[j]);
    }
  }

  lemma CreateKeeps(b: Book, user: nat, club: Option<nat>, candidates: seq<nat>, start: int, durationMin: int, now: int)
    requires Kept(b) && CandidatesOf(b, club, candidates)
    ensures Kept(Create(b, user, club, candidates, start, durationMin, now))
  {
    var pick := Pick(b.rows, club, candidates, start, durationMin);
    if ValidateBookingTime(start, durationMin, now) == TimeOk && pick.Some? {
      SearchFindsEveryClash(b, club, pick.value, start, durationMin);
      var rows := b.rows + [Booking(user, pick.value, b.pcClub[pick.value], Confirmed, start, durationMin)];
      forall i | 0 <= i < |b.rows| && Live(rows[i]) && rows[i].pc == pick.value
        ensures !BookingOverlaps(rows[i].start, rows[i].durationMin * 60, start, durationMin * 60)
      {
        assert !Clashes(b.rows[i], start, durationMin);
      }
    }
  }

  lemma RestoreKeeps(b: Book, id: nat)
    requires Kept(b)
    ensures Kept(Restore(b, id))
  {
    var b' := Restore(b, id);
    if b' != b {
      var it := b.rows[id];
      SearchFindsEveryClash(b, None, it.pc, it.start, it.durationMin);
      forall i | 0 <= i < |b.rows| && i != id && Live(b.rows[i]) && b.rows[i].pc == it.pc
        ensures !BookingOverlaps(b.rows[i].start, b.rows[i].durationMin * 60, it.start, it.durationMin * 60)
      {
        assert !Clashes(b.rows[i], it.start, it.durationMin);
      }
    }
  }

  lemma StepKeeps(b: Book, e: Event)
    requires Kept(b)
    ensures Kept(Step(b, e))
  {
    hide Create, Restore, FoundBusy;
    match e
    case CreateIn(user, club, candidates, start, durationMin, now) =>
      if CandidatesOf(b, Some(club), candidates) {
        CreateKeeps(b, user, Some(club), candidates, start, durationMin, now);
      }
    case WalkIn(user, candidates, start, durationMin, now) =>
      if CandidatesOf(b, None, candidates) {
        CreateKeeps(b, user, None, candidates, start, durationMin, now);
      }
    case RestoreIt(id) => RestoreKeeps(b, id);
    case AddPc(_) =>
    case _ => QuieterStaysKept(b, Step(b, e).rows);
  }

  function Run(b: Book, events: seq<Event>): Book
    decreases |events|
  {
    if events == [] then b else Run(Step(b, events[0]), events[1..])
  }

  /** Over every run of creations, walk-ins, cancellations, restorations, seatings
      and sweeps, live bookings of one machine never overlap. */
  lemma {:induction false} NoDoubleBooking(b: Book, events: seq<Event>)
    requires Kept(b)
    ensures Kept(Run(b, events))
    decreases |events|
  {
    if events != [] {
      StepKeeps(b, events[0]);
      NoDoubleBooking(Step(b, events[0]), events[1..]);
    }
  }

  /** From an empty book on, whatever happens. */
  lemma BookingsNeverClash(events: seq<Event>)
    ensures Disjoint(Run(Book([], []), events).rows)
  {
    NoDoubleBooking(Book([], []), events);
  }

  // The search and the writing are not one step: what the search saw may be older.

  /** `rows` is a later state of the table `seen`: rows keep machine, guest and time. */
  ghost predicate LaterThan(seen: seq<Booking>, rows: seq<Booking>) {
    |seen| <= |rows| && forall i :: 0 <= i < |seen| ==> rows[i] == seen[i].(status := rows[i].status)
  }

  /** A clashing booking, other than row `id`, was written or revived since the search. */
  ghost predicate ClashCameSince(seen: seq<Booking>, rows: seq<Booking>, id: int, pc: nat, start: int, durationMin: int) {
    exists i :: 0 <= i < |rows| && i != id && (i >= |seen| || !Live(seen[i]))
      && rows[i].pc == pc && Live(rows[i]) && Clashes(rows[i], start, durationMin)
  }

  /** A machine that the search found free has a clash now only if it came since. */
  lemma ClashIsNew(b: Book, seen: seq<Booking>, club: Option<nat>, pc: nat, start: int, durationMin: int, i: nat)
    requires WellKept(b) && LaterThan(seen, b.rows) && DurationOk(durationMin) && pc < |b.pcClub|
    requires club.Some? ==> b.pcClub[pc] == club.value
    requires !FoundBusy(seen, club, pc, start, durationMin)
    requires i < |seen| && b.rows[i].pc == pc && Clashes(b.rows[i], start, durationMin)
    ensures !Live(seen[i])
  {
    if Live(seen[i]) {
      assert MakesBusy(seen[i], club, pc, start, durationMin);
    }
  }

  lemma NotDisjoint(rows: seq<Booking>, i: nat, j: nat)
    requires i < |rows| && j < |rows| && i != j && Live(rows[i]) && Live(rows[j]) && rows[i].pc == rows[j].pc
    requires Clashes(rows[i], rows[j].start, rows[j].durationMin)
    ensures !Disjoint(rows)
  {
    var first, second := if i < j then i else j, if i < j then j else i;
    assert BookingOverlaps(rows[first].start, rows[first].durationMin * 60, rows[second].start, rows[second].durationMin * 60);
  }

  /** Writing a booking of a machine that an earlier search found free keeps live
      bookings disjoint exactly when no clashing one was written or revived since. */
  lemma DelayedCreateKeepsIff(b: Book, seen: seq<Booking>, club: Option<nat>, user: nat, pc: nat, start: int, durationMin: int)
    requires Kept(b) && LaterThan(seen, b.rows) && DurationOk(durationMin) && pc < |b.pcClub|
    requires club.Some? ==> b.pcClub[pc] == club.value
    requires !FoundBusy(seen, club, pc, start, durationMin)
    ensures Kept(b.(rows := b.rows + [Booking(user, pc, b.pcClub[pc], Confirmed, start, durationMin)]))
       <==> !ClashCameSince(seen, b.rows, -1, pc, start, durationMin)
  {
    var rows := b.rows + [Booking(user, pc, b.pcClub[pc], Confirmed, start, durationMin)];
    assert rows[|b.rows|].pc == pc && Live(rows[|b.rows|]);
    hide FoundBusy;
    if ClashCameSince(seen, b.rows, -1, pc, start, durationMin) {
      var i :| 0 <= i < |b.rows| && b.rows[i].pc == pc && Live(b.rows[i]) && Clashes(b.rows[i], start, durationMin);
      NotDisjoint(rows, i, |b.rows|);
    } else {
      forall i | 0 <= i < |b.rows| && Live(rows[i]) && rows[i].pc == pc
        ensures !BookingOverlaps(rows[i].start, rows[i].durationMin * 60, start, durationMin * 60)
      {
        if Clashes(b.rows[i], start, durationMin) && i < |seen| {
          ClashIsNew(b, seen, club, pc, start, durationMin, i);
        }
      }
    }
  }

  /** Restoring writes the status whatever it is by then. It keeps live bookings
      disjoint exactly when no other clashing one was written or revived since the
      check. */
  lemma DelayedRestoreKeepsIff(b: Book, seen: seq<Booking>, id: nat)
    requires Kept(b) && LaterThan(seen, b.rows) && id < |seen| && seen[id].status == Cancelled
    requires !FoundBusy(seen, None, seen[id].pc, seen[id].start, seen[id].durationMin)
    ensures Kept(b.(rows := b.rows[id := b.rows[id].(status := Confirmed)]))
       <==> !ClashCameSince(seen, b.rows, id, seen[id].pc, seen[id].start, seen[id].durationMin)
  {
    hide FoundBusy;
    var it := b.rows[id];
    var rows := b.rows[id := it.(status := Confirmed)];
    assert Live(rows[id]);
    if ClashCameSince(seen, b.rows, id, it.pc, it.start, it.durationMin) {
      var i :| 0 <= i < |b.rows| && i != id && b.rows[i].pc == it.pc && Live(b.rows[i])
            && Clashes(b.rows[i], it.start, it.durationMin);
      NotDisjoint(rows, i, id);
    } else {
      forall i | 0 <= i < |b.rows| && i != id && Live(rows[i]) && rows[i].pc == it.pc
        ensures !BookingOverlaps(rows[i].start, rows[i].durationMin * 60, it.start, it.durationMin * 60)
      {
        if Clashes(b.rows[i], it.start, it.durationMin) && i < |seen| {
          ClashIsNew(b, seen, None, it.pc, it.start, it.durationMin, i);
        }
      }
    }
  }

  /** A wish is refused for want of a machine exactly when every candidate really has
      an overlapping live booking. */
  lemma RefusedIffAllBusy(b: Book, user: nat, club: Option<nat>, candidates: seq<nat>, start: int, durationMin: int, now: int)
    requires Kept(b) && CandidatesOf(b, club, candidates) && ValidateBookingTime(start, durationMin, now) == TimeOk
    ensures Create(b, user, club, candidates, start, durationMin, now) == b
       <==> forall pc :: pc in candidates ==> ReallyBusy(b.rows, pc, start, durationMin)
  {
    forall pc | pc in candidates
      ensures FoundBusy(b.rows, club, pc, start, durationMin) <==> ReallyBusy(b.rows, pc, start, durationMin)
    {
      var i :| 0 <= i < |candidates| && candidates[i] == pc;
      SearchFindsEveryClash(b, club, pc, start, durationMin);
    }
    var b' := Create(b, user, club, candidates, start, durationMin, now);
    assert b' == b || |b'.rows| == |b.rows| + 1;
  }

  /** The next booking of a machine is the only one that can be meant: it is over
      before any other that is still to come begins. */
  lemma NextBookingComesFirst(b: Book, pc: nat, now: int, i: nat)
    requires Kept(b) && i < |b.rows| && Relevant(b.rows[i], pc, now)
    ensures var next := NextRelevantBooking(b.rows, pc, now, |b.rows|);
      next.Some? && (i == next.value || EndTime(b.rows[next.value]) <= b.rows[i].start)
  {
    var next := NextRelevantBooking(b.rows, pc, now, |b.rows|).value;
    assert Live(b.rows[i]) && Live(b.rows[next]);
    if i != next {
      assert !BookingOverlaps(b.rows[next].start, b.rows[next].durationMin * 60, b.rows[i].start, b.rows[i].durationMin * 60)
        || !BookingOverlaps(b.rows[i].start, b.rows[i].durationMin * 60, b.rows[next].start, b.rows[next].durationMin * 60);
    }
  }

  /** Whole minutes a guest may play before a booking, leaving the buffer. */
  function SeatWindowMin(bookingStart: int, now: int, bufferMin: int): int {
    var sec := bookingStart - now - bufferMin * 60;
    if sec <= 0 then 0 else sec / 60
  }

  predicate IsBookingLocked(bookingStart: int, now: int, lockMin: int) {
    now >= bookingStart - lockMin * 60
  }

  /** The machine is held from the very second that is the lock before the booking. */
  lemma LockBegins(bookingStart: int, now: int, lockMin: int)
    ensures IsBookingLocked(bookingStart, now, lockMin) <==> bookingStart - now <= lockMin * 60
  {
  }

  /** A plan passes the seating rule exactly when it ends, with the buffer, by the
      start of the booking. */
  lemma PlanFitsIff(bookingStart: int, now: int, bufferMin: int, plannedMin: int)
    requires plannedMin > 0
    ensures plannedMin <= SeatWindowMin(bookingStart, now, bufferMin)
       <==> now + plannedMin * 60 + bufferMin * 60 <= bookingStart
  {
  }

  /** Waiting for a guest to confirm never runs into the booking that follows, for
      every seating the rule admits, exactly when the wait and the lock together are
      no longer than the plan and the buffer. */
  lemma ReadyWindowEndsBeforeLockIff(plannedMin: int, bufferMin: int, waitMin: int, lockMin: int)
    requires plannedMin > 0
    ensures (forall bookingStart, now {:trigger SeatWindowMin(bookingStart, now, bufferMin)} ::
               plannedMin <= SeatWindowMin(bookingStart, now, bufferMin) ==>
                 !IsBookingLocked(bookingStart, now + waitMin * 60 - 1, lockMin))
       <==> waitMin + lockMin <= plannedMin + bufferMin
  {
    if waitMin + lockMin > plannedMin + bufferMin {
      PlanFitsIff((plannedMin + bufferMin) * 60, 0, bufferMin, plannedMin);
      assert IsBookingLocked((plannedMin + bufferMin) * 60, 0 + waitMin * 60 - 1, lockMin);
    } else {
      forall bookingStart, now | plannedMin <= SeatWindowMin(bookingStart, now, bufferMin)
        ensures !IsBookingLocked(bookingStart, now + waitMin * 60 - 1, lockMin)
      {
        PlanFitsIff(bookingStart, now, bufferMin, plannedMin);
      }
    }
  }

  /** The booking rows, with the searches as loops over them. */
  class BookingTable {
    var pcClub: seq<nat>
    var rows: seq<Booking>

    constructor ()
      ensures View() == Book([], [])
    {
      pcClub, rows := [], [];
    }

    ghost function View(): Book
      reads this
    {
      Book(pcClub, rows)
    }

    /** The machines made busy by the bookings around the wish. */
    method BusyAround(club: Option<nat>, start: int, durationMin: int) returns (busy: set<nat>)
      ensures forall pc :: pc in busy <==> FoundBusy(rows, club, pc, start, durationMin)
    {
      busy := {};
      for i := 0 to |rows|
        invariant forall pc :: pc in busy <==>
          exists k :: 0 <= k < i && MakesBusy(rows[k], club, pc, start, durationMin)
      {
        var b := rows[i];
        if (club.None? || b.club == club.value) && InSearchWindow(b, start) && Clashes(b, start, durationMin) {
          assert MakesBusy(rows[i], club, b.pc, start, durationMin);
          busy := busy + {b.pc};
        }
      }
    }

    method CreateBooking(user: nat, club: Option<nat>, candidates: seq<nat>, start: int, durationMin: int, now: int)
        returns (ok: bool)
      requires CandidatesOf(View(), club, candidates)
      modifies this
      ensures View() == Create(old(View()), user, club, candidates, start, durationMin, now)
      ensures ok <==> |rows| == |old(rows)| + 1
      ensures ok ==> rows[..|old(rows)|] == old(rows) && rows[|old(rows)|].pc in candidates
      ensures ok ==>
        var pc := rows[|old(rows)|].pc;
        rows[|old(rows)|] == Booking(user, pc, pcClub[pc], Confirmed, start, durationMin)
      ensures !ok ==> View() == old(View())
    {
      hide FoundBusy, MakesBusy;
      if ValidateBookingTime(start, durationMin, now) != TimeOk {
        return false;
      }
      var busy := BusyAround(club, start, durationMin);
      var i := 0;
      assert candidates[0..] == candidates;
      while i < |candidates| && candidates[i] in busy
        invariant 0 <= i <= |candidates|
        invariant Pick(rows, club, candidates, start, durationMin) == Pick(rows, club, candidates[i..], start, durationMin)
      {
        assert candidates[i..][1..] == candidates[i + 1..];
        i := i + 1;
      }
      if i == |candidates| {
        return false;
      }
      rows := rows + [Booking(user, candidates[i], pcClub[candidates[i]], Confirmed, start, durationMin)];
      ok := true;
    }

    method RestoreBooking(id: nat) returns (ok: bool)
      modifies this
      ensures View() == Restore(old(View()), id)
      ensures ok ==> id < |old(rows)| && old(rows)[id].status == Cancelled
      ensures rows == if ok then old(rows)[id := old(rows)[id].(status := Confirmed)] else old(rows)
    {
      if id >= |rows| || rows[id].status != Cancelled {
        return false;
      }
      var it := rows[id];
      for i := 0 to |rows|
        invariant forall k :: 0 <= k < i ==> !MakesBusy(rows[k], None, it.pc, it.start, it.durationMin)
        invariant rows == old(rows)
      {
        if rows[i].pc == it.pc && InSearchWindow(rows[i], it.start) && Clashes(rows[i], it.start, it.durationMin) {
          assert MakesBusy(rows[i], None, it.pc, it.start, it.durationMin);
          return false;
        }
      }
      rows := rows[id := it.(status := Confirmed)];
      ok := true;
    }

    method BookingSweep(now: int, noShowMin: int, present: set<(nat, nat)>)
      modifies this
      ensures View() == Step(old(View()), Sweep(now, noShowMin, present))
    {
      for i := 0 to |rows|
        invariant |rows| == |old(rows)| && pcClub == old(pcClub)
        invariant rows == SweepUpTo(old(rows), now, noShowMin, present, i)
      {
        var b := rows[i];
        if Live(b) && EndTime(b) > now && MinutesUntil(b.start, now) < 0 {
          if noShowMin > 0 && now - b.start >= noShowMin * 60 {
            rows := rows[i := b.(status := if (b.user, b.club) in present then Seated else NoShow)];
          }
        }
      }
    }
  }
}
