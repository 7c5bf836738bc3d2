/** Who sits where. Starting and finishing a session each read first and commit
    later under conditions; moves, cancelled seats, ready presses and repairs are
    single steps. Whatever the interleaving, a machine carries at most one active
    session and is marked in session exactly when it carries one. */
module Machines {
  import opened Sessions

  datatype PcStatus = Available | InSession | Maintenance | Reserved

  /** A session row as far as machines are concerned. */
  datatype Row = Row(user: nat, pc: nat, status: Status, waitingReady: bool)

  /** What a start has read: the guest and the machine it picked. */
  datatype StartTicket = StartTicket(user: nat, pc: nat, readyWindow: bool)

  /** What a finish has read: the session and the machine it was on at that time. */
  datatype FinishTicket = FinishTicket(session: nat, pcRead: nat)

  /** The machines and the session rows as the database holds them. */
  datatype Floor = Floor(pcs: seq<PcStatus>, rows: seq<Row>)

  /** The floor, and what requests in flight have read of it. */
  datatype Club = Club(floor: Floor, starts: seq<StartTicket>, finishes: seq<FinishTicket>)

  datatype Event =
    | AddPc
    | ReadStart(ticket: StartTicket)
    | CommitStart(at: nat)
    | ReadFinish(session: nat)
    | CommitFinish(at: nat)
    | Move(session: nat, pc: nat)
    | PressReady(session: nat)
    | CancelSeat(session: nat)
    | SetStatus(pc: nat, next: PcStatus)

  predicate ActiveRow(rows: seq<Row>, i: int) {
    0 <= i < |rows| && rows[i].status == Active
  }

  predicate UserActive(rows: seq<Row>, user: nat) {
    exists i :: 0 <= i < |rows| && rows[i].user == user && rows[i].status == Active
  }

  /** Staff may only send a free machine to repair and take it back. */
  predicate CanSetComputerStatus(cur: PcStatus, next: PcStatus) {
    if next != Available && next != Maintenance then false
    else cur == next || (cur == Available && next == Maintenance) || (cur == Maintenance && next == Available)
  }

  /** Commit of a start: take the machine if it is still free, then insert the row
      unless the guest already has an active one (a unique index refuses it; the other
      one, on machines, never has to while the floor is consistent). */
  function CommitStartOf(f: Floor, t: StartTicket): Floor {
    if t.pc >= |f.pcs| || f.pcs[t.pc] != Available || UserActive(f.rows, t.user) then f
    else f.(pcs := f.pcs[t.pc := InSession], rows := f.rows + [Row(t.user, t.pc, Active, t.readyWindow)])
  }

  /** Commit of a finish: close the row if it is still active, and free the machine
      that the row names now. */
  function CommitFinishOf(f: Floor, t: FinishTicket): Floor {
    if !ActiveRow(f.rows, t.session) then f
    else
      var row := f.rows[t.session];
      f.(rows := f.rows[t.session := row.(status := Completed)],
         pcs := if row.pc < |f.pcs| then f.pcs[row.pc := Available] else f.pcs)
  }

  function MoveTo(f: Floor, session: nat, pc: nat): Floor {
    if !ActiveRow(f.rows, session) || pc >= |f.pcs| || pc == f.rows[session].pc || f.pcs[pc] != Available then f
    else
      var row := f.rows[session];
      var pcs := f.pcs[pc := InSession];
      f.(rows := f.rows[session := row.(pc := pc)],
         pcs := if row.pc < |pcs| then pcs[row.pc := Available] else pcs)
  }

  function CancelSeatOf(f: Floor, session: nat): Floor {
    if !ActiveRow(f.rows, session) || !f.rows[session].waitingReady then f
    else
      var row := f.rows[session];
      f.(rows := f.rows[session := row.(status := Cancelled)],
         pcs := if row.pc < |f.pcs| then f.pcs[row.pc := Available] else f.pcs)
  }

  function PressReadyOf(f: Floor, session: nat): Floor {
    if !ActiveRow(f.rows, session) then f
    else f.(rows := f.rows[session := f.rows[session].(waitingReady := false)])
  }

  function SetComputerStatus(f: Floor, pc: nat, next: PcStatus): Floor {
    if pc < |f.pcs| && CanSetComputerStatus(f.pcs[pc], next) then f.(pcs := f.pcs[pc := next]) else f
  }

  function Step(c: Club, e: Event): Club {
    var f := c.floor;
    match e
    case AddPc => c.(floor := f.(pcs := f.pcs + [Available]))
    case ReadStart(t) =>
      if t.pc < |f.pcs| && f.pcs[t.pc] == Available && !UserActive(f.rows, t.user)
      then c.(starts := c.starts + [t]) else c
    case CommitStart(at) => if at < |c.starts| then c.(floor := CommitStartOf(f, c.starts[at])) else c
    case ReadFinish(session) =>
      if ActiveRow(f.rows, session) then c.(finishes := c.finishes + [FinishTicket(session, f.rows[session].pc)]) else c
    case CommitFinish(at) => if at < |c.finishes| then c.(floor := CommitFinishOf(f, c.finishes[at])) else c
    case Move(session, pc) => c.(floor := MoveTo(f, session, pc))
    case PressReady(session) => c.(floor := PressReadyOf(f, session))
    case CancelSeat(session) => c.(floor := CancelSeatOf(f, session))
    case SetStatus(pc, next) => c.(floor := SetComputerStatus(f, pc, next))
  }

  // What each commit writes.

  /** A start commits if and only if the machine is free at that moment and the guest
      has no active session; it then seats him there. Otherwise nothing changes. */
  lemma StartWrites(f: Floor, t: StartTicket)
    ensures CommitStartOf(f, t) ==
      if t.pc < |f.pcs| && f.pcs[t.pc] == Available && (forall i :: 0 <= i < |f.rows| && f.rows[i].status == Active ==> f.rows[i].user != t.user)
      then Floor(f.pcs[t.pc := InSession], f.rows + [Row(t.user, t.pc, Active, t.readyWindow)])
      else f
  {
  }

  /** A finish commits if and only if the session is still active; it completes the row
      and frees the machine the row names. */
  lemma FinishWrites(f: Floor, t: FinishTicket)
    requires ActiveRow(f.rows, t.session) ==> f.rows[t.session].pc < |f.pcs|
    ensures CommitFinishOf(f, t) ==
      if t.session < |f.rows| && f.rows[t.session].status == Active
      then Floor(f.pcs[f.rows[t.session].pc := Available], f.rows[t.session := f.rows[t.session].(status := Completed)])
      else f
  {
  }

  /** A move happens if and only if the session is active and the other machine is free;
      one is taken, the other freed. */
  lemma MoveWrites(f: Floor, session: nat, pc: nat)
    requires ActiveRow(f.rows, session) ==> f.rows[session].pc < |f.pcs|
    ensures MoveTo(f, session, pc) ==
      if session < |f.rows| && f.rows[session].status == Active
         && pc < |f.pcs| && pc != f.rows[session].pc && f.pcs[pc] == Available
      then Floor(f.pcs[pc := InSession][f.rows[session].pc := Available], f.rows[session := f.rows[session].(pc := pc)])
      else f
  {
  }

  /** A seat is cancelled if and only if its session is active and still waits. */
  lemma CancelWrites(f: Floor, session: nat)
    requires ActiveRow(f.rows, session) ==> f.rows[session].pc < |f.pcs|
    ensures CancelSeatOf(f, session) ==
      if session < |f.rows| && f.rows[session].status == Active && f.rows[session].waitingReady
      then Floor(f.pcs[f.rows[session].pc := Available], f.rows[session := f.rows[session].(status := Cancelled)])
      else f
    ensures PressReadyOf(f, session) ==
      if session < |f.rows| && f.rows[session].status == Active
      then f.(rows := f.rows[session := f.rows[session].(waitingReady := false)])
      else f
  {
  }

  /** Staff switch a machine between free and repair, and nothing else. */
  lemma StatusWrites(f: Floor, pc: nat, next: PcStatus)
    ensures SetComputerStatus(f, pc, next) ==
      if pc < |f.pcs| && (f.pcs[pc] == Available || f.pcs[pc] == Maintenance) && (next == Available || next == Maintenance)
      then f.(pcs := f.pcs[pc := next]) else f
  {
  }

  /** Readings change nothing on the floor, and keep what a request has seen: a start a
      free machine and a guest without a session, a finish the machine of an active one. */
  lemma ReadingWrites(c: Club, t: StartTicket, session: nat)
    ensures Step(c, ReadStart(t)) ==
      if t.pc < |c.floor.pcs| && c.floor.pcs[t.pc] == Available && !UserActive(c.floor.rows, t.user)
      then c.(starts := c.starts + [t]) else c
    ensures Step(c, ReadFinish(session)) ==
      if ActiveRow(c.floor.rows, session)
      then c.(finishes := c.finishes + [FinishTicket(session, c.floor.rows[session].pc)]) else c
  {
  }

  /** Commits act on what was read; all other steps act at once. */
  lemma CommitsAct(c: Club, at: nat, session: nat, pc: nat, next: PcStatus)
    ensures at < |c.starts| ==> Step(c, CommitStart(at)) == c.(floor := CommitStartOf(c.floor, c.starts[at]))
    ensures at < |c.finishes| ==> Step(c, CommitFinish(at)) == c.(floor := CommitFinishOf(c.floor, c.finishes[at]))
    ensures Step(c, Move(session, pc)) == c.(floor := MoveTo(c.floor, session, pc))
    ensures Step(c, PressReady(session)) == c.(floor := PressReadyOf(c.floor, session))
    ensures Step(c, CancelSeat(session)) == c.(floor := CancelSeatOf(c.floor, session))
    ensures Step(c, SetStatus(pc, next)) == c.(floor := SetComputerStatus(c.floor, pc, next))
    ensures Step(c, AddPc) == c.(floor := c.floor.(pcs := c.floor.pcs + [Available]))
  {
  }

  /** A machine in repair stays in repair, whatever else happens, until staff set it free. */
  lemma RepairLasts(c: Club, e: Event, pc: nat)
    requires Consistent(c.floor) && pc < |c.floor.pcs| && c.floor.pcs[pc] == Maintenance
    ensures pc < |Step(c, e).floor.pcs|
    ensures Step(c, e).floor.pcs[pc] == if e == SetStatus(pc, Available) then Available else Maintenance
  {
    match e
    case CommitFinish(at) =>
      if at < |c.finishes| && ActiveRow(c.floor.rows, c.finishes[at].session) {
        MachineIsTaken(c.floor, c.finishes[at].session);
      }
    case Move(session, _) =>
      if ActiveRow(c.floor.rows, session) {
        MachineIsTaken(c.floor, session);
      }
    case CancelSeat(session) =>
      if ActiveRow(c.floor.rows, session) {
        MachineIsTaken(c.floor, session);
      }
    case _ =>
  }

  lemma MachineIsTaken(f: Floor, i: nat)
    requires Consistent(f) && ActiveRow(f.rows, i)
    ensures f.rows[i].pc < |f.pcs| && f.pcs[f.rows[i].pc] == InSession
  {
    assert Carries(f.rows, f.rows[i].pc);
  }

  predicate SetsFree(events: seq<Event>, pc: nat) {
    exists i :: 0 <= i < |events| && events[i] == SetStatus(pc, Available)
  }

  lemma {:induction false} RepairLastsOverRuns(c: Club, events: seq<Event>, pc: nat)
    requires Consistent(c.floor) && pc < |c.floor.pcs| && c.floor.pcs[pc] == Maintenance && !SetsFree(events, pc)
    ensures pc < |Run(c, events).floor.pcs| && Run(c, events).floor.pcs[pc] == Maintenance
    decreases |events|
  {
    hide Step, Consistent;
    if events != [] {
      RepairLasts(c, events[0], pc);
      StepKeepsConsistent(c, events[0]);
      assert events[0] != SetStatus(pc, Available);
      assert forall i :: 0 <= i < |events[1..]| ==> events[1..][i] == events[i + 1];
      RepairLastsOverRuns(Step(c, events[0]), events[1..], pc);
    }
  }

  ghost predicate Carries(rows: seq<Row>, pc: nat) {
    exists i :: ActiveRow(rows, i) && rows[i].pc == pc
  }

  ghost predicate Consistent(f: Floor) {
    && (forall i :: ActiveRow(f.rows, i) ==> f.rows[i].pc < |f.pcs|)
    && (forall i, j :: ActiveRow(f.rows, i) && ActiveRow(f.rows, j) && i != j ==>
          f.rows[i].pc != f.rows[j].pc && f.rows[i].user != f.rows[j].user)
    && (forall pc :: 0 <= pc < |f.pcs| ==> (f.pcs[pc] == InSession <==> Carries(f.rows, pc)))
  }

  lemma CommitStartKeepsConsistent(f: Floor, t: StartTicket)
    requires Consistent(f)
    ensures Consistent(CommitStartOf(f, t))
  {
    var f' := CommitStartOf(f, t);
    if f' != f {
      assert forall i :: ActiveRow(f.rows, i) ==> ActiveRow(f'.rows, i) && f'.rows[i] == f.rows[i];
      assert ActiveRow(f'.rows, |f.rows|);
      assert !Carries(f.rows, t.pc);
      forall pc | 0 <= pc < |f'.pcs| ensures f'.pcs[pc] == InSession <==> Carries(f'.rows, pc) {
        if pc == t.pc {
          assert f'.rows[|f.rows|].pc == pc;
        } else if Carries(f.rows, pc) {
          var i :| ActiveRow(f.rows, i) && f.rows[i].pc == pc;
          assert ActiveRow(f'.rows, i);
        }
      }
    }
  }

  /** Closing the active row `i`, in whatever way, and freeing its machine. */
  lemma ClosingKeepsConsistent(f: Floor, i: nat, closed: Row)
    requires Consistent(f) && ActiveRow(f.rows, i) && closed.status != Active
    ensures Consistent(f.(rows := f.rows[i := closed], pcs := f.pcs[f.rows[i].pc := Available]))
  {
    var f' := f.(rows := f.rows[i := closed], pcs := f.pcs[f.rows[i].pc := Available]);
    assert forall k :: ActiveRow(f'.rows, k) <==> ActiveRow(f.rows, k) && k != i;
    forall pc | 0 <= pc < |f'.pcs| ensures f'.pcs[pc] == InSession <==> Carries(f'.rows, pc) {
      if pc != f.rows[i].pc && Carries(f.rows, pc) {
        var k :| ActiveRow(f.rows, k) && f.rows[k].pc == pc;
        assert ActiveRow(f'.rows, k) && f'.rows[k] == f.rows[k];
      }
    }
  }

  lemma MoveKeepsConsistent(f: Floor, session: nat, pc: nat)
    requires Consistent(f)
    ensures Consistent(MoveTo(f, session, pc))
  {
    var f' := MoveTo(f, session, pc);
    if f' != f {
      var before := f.rows[session].pc;
      assert forall k :: ActiveRow(f'.rows, k) <==> ActiveRow(f.rows, k);
      assert !Carries(f.rows, pc);
      forall p | 0 <= p < |f'.pcs| ensures f'.pcs[p] == InSession <==> Carries(f'.rows, p) {
        if p == pc {
          assert ActiveRow(f'.rows, session);
        } else if p != before && Carries(f.rows, p) {
          var k :| ActiveRow(f.rows, k) && f.rows[k].pc == p;
          assert ActiveRow(f'.rows, k) && f'.rows[k] == f.rows[k];
        }
      }
    }
  }

  /** Rows that keep user, machine and status carry the same machines. */
  lemma SameCarriers(f: Floor, f': Floor)
    requires Consistent(f) && |f.rows| == |f'.rows| && |f.pcs| <= |f'.pcs|
    requires forall i :: 0 <= i < |f.rows| ==> f'.rows[i] == f.rows[i].(waitingReady := f'.rows[i].waitingReady)
    requires forall p :: 0 <= p < |f.pcs| ==> (f'.pcs[p] == InSession <==> f.pcs[p] == InSession)
    requires forall p :: |f.pcs| <= p < |f'.pcs| ==> f'.pcs[p] != InSession
    ensures Consistent(f')
  {
    assert forall k :: ActiveRow(f'.rows, k) <==> ActiveRow(f.rows, k);
    forall p | 0 <= p < |f'.pcs| ensures f'.pcs[p] == InSession <==> Carries(f'.rows, p) {
      if Carries(f'.rows, p) {
        var k :| ActiveRow(f'.rows, k) && f'.rows[k].pc == p;
        assert ActiveRow(f.rows, k) && f.rows[k].pc == p;
      }
      if p < |f.pcs| && Carries(f.rows, p) {
        var k :| ActiveRow(f.rows, k) && f.rows[k].pc == p;
        assert ActiveRow(f'.rows, k) && f'.rows[k].pc == p;
      }
    }
  }

  lemma StepKeepsConsistent(c: Club, e: Event)
    requires Consistent(c.floor)
    ensures Consistent(Step(c, e).floor)
  {
    var f := c.floor;
    match e
    case CommitStart(at) =>
      if at < |c.starts| {
        CommitStartKeepsConsistent(f, c.starts[at]);
      }
    case CommitFinish(at) =>
      if at < |c.finishes| && ActiveRow(f.rows, c.finishes[at].session) {
        var i := c.finishes[at].session;
        ClosingKeepsConsistent(f, i, f.rows[i].(status := Completed));
      }
    case CancelSeat(session) =>
      if ActiveRow(f.rows, session) {
        ClosingKeepsConsistent(f, session, f.rows[session].(status := Cancelled));
      }
    case Move(session, pc) => MoveKeepsConsistent(f, session, pc);
    case _ => SameCarriers(f, Step(c, e).floor);
  }

  function Run(c: Club, events: seq<Event>): Club
    decreases |events|
  {
    if events == [] then c else Run(Step(c, events[0]), events[1..])
  }

  /** Over every interleaving: one machine, one session; in session exactly when one
      sits on it; and one active session per guest. */
  lemma {:induction false} RunKeepsConsistent(c: Club, events: seq<Event>)
    requires Consistent(c.floor)
    ensures Consistent(Run(c, events).floor)
    decreases |events|
  {
    if events != [] {
      StepKeepsConsistent(c, events[0]);
      RunKeepsConsistent(Step(c, events[0]), events[1..]);
    }
  }

  lemma EmptyClubIsConsistent()
    ensures Consistent(Floor([], []))
  {
  }

  /** From an empty club on, whatever happens. */
  lemma ClubsStayConsistent(events: seq<Event>)
    ensures Consistent(Run(Club(Floor([], []), [], []), events).floor)
  {
    hide Consistent, Run;
    EmptyClubIsConsistent();
    RunKeepsConsistent(Club(Floor([], []), [], []), events);
  }

  /** Two guests who both read the machine as free: whoever commits first sits, and
      the other commit changes nothing. */
  lemma SecondStartLoses(f: Floor, first: StartTicket, second: StartTicket)
    requires first.pc == second.pc < |f.pcs| && f.pcs[first.pc] == Available
    requires !UserActive(f.rows, first.user)
    ensures var won := CommitStartOf(f, first);
      && CommitStartOf(won, second) == won
      && ActiveRow(won.rows, |f.rows|) && won.rows[|f.rows|].user == first.user && won.rows[|f.rows|].pc == first.pc
  {
  }

  /** A session finished after it was moved: its present machine becomes free, and
      the machine it was read on stays as it is, even with someone else on it. */
  lemma FinishFreesPresentMachine(f: Floor, t: FinishTicket)
    requires Consistent(f) && ActiveRow(f.rows, t.session) && t.pcRead < |f.pcs|
    ensures var f' := CommitFinishOf(f, t);
      && f'.pcs[f.rows[t.session].pc] == Available
      && !Carries(f'.rows, f.rows[t.session].pc)
      && (t.pcRead != f.rows[t.session].pc ==>
            f'.pcs[t.pcRead] == f.pcs[t.pcRead] && (Carries(f.rows, t.pcRead) <==> Carries(f'.rows, t.pcRead)))
  {
    var i := t.session;
    ClosingKeepsConsistent(f, i, f.rows[i].(status := Completed));
    assert Consistent(CommitFinishOf(f, t));
  }

  /** A second finisher of the same session finds it closed and frees nothing. */
  lemma SecondFinishDoesNothing(f: Floor, t: FinishTicket, again: FinishTicket)
    requires t.session == again.session
    ensures CommitFinishOf(CommitFinishOf(f, t), again) == CommitFinishOf(f, t)
  {
  }

  // Moves, cancelled seats and status changes check before they write, not while
  // they write. What follows says exactly when that is enough.

  /** Another active session names this machine. */
  predicate TakenByOther(rows: seq<Row>, session: nat, pc: nat) {
    exists k :: 0 <= k < |rows| && ActiveRow(rows, k) && k != session && rows[k].pc == pc
  }

  /** The writes of a move whose checks were made earlier, when the session sat at
      `pcRead`. A unique index on the machines of active sessions refuses a target
      that another one has taken, and with it the whole move. */
  function CommitMove(f: Floor, session: nat, pcRead: nat, target: nat): Floor
    requires pcRead < |f.pcs| && target < |f.pcs|
  {
    if !ActiveRow(f.rows, session) || TakenByOther(f.rows, session, target) then f
    else Floor(f.pcs[target := InSession][pcRead := Available], f.rows[session := f.rows[session].(pc := target)])
  }

  /** The writes of a cancelled seat: the row if it still waits, the machine as read. */
  function CommitCancel(f: Floor, session: nat, pcRead: nat): Floor
    requires pcRead < |f.pcs|
  {
    if !ActiveRow(f.rows, session) || !f.rows[session].waitingReady then f
    else Floor(f.pcs[pcRead := Available], f.rows[session := f.rows[session].(status := Cancelled)])
  }

  /** What these writes leave: the machine that was read is free, and the target taken. */
  lemma DelayedWrites(f: Floor, session: nat, pcRead: nat, target: nat)
    requires pcRead < |f.pcs| && target < |f.pcs| && pcRead != target && ActiveRow(f.rows, session)
    ensures var row := f.rows[session];
      && (!TakenByOther(f.rows, session, target) ==>
            CommitMove(f, session, pcRead, target)
              == Floor(f.pcs[target := InSession][pcRead := Available], f.rows[session := row.(pc := target)]))
      && (row.waitingReady ==>
            CommitCancel(f, session, pcRead)
              == Floor(f.pcs[pcRead := Available], f.rows[session := row.(status := Cancelled)]))
  {
  }

  lemma OnlyItself(f: Floor, i: nat, pc: nat)
    requires Consistent(f) && ActiveRow(f.rows, i) && f.rows[i].pc == pc
    ensures forall k :: ActiveRow(f.rows, k) && f.rows[k].pc == pc ==> k == i
    ensures pc < |f.pcs| && f.pcs[pc] == InSession
  {
    assert Carries(f.rows, pc);
  }

  /** A delayed move keeps the floor consistent exactly when the index refuses it, or
      the session still sits where it was read, or it is at the target already and
      nobody sits where it was read. */
  lemma DelayedMoveKeepsIff(f: Floor, session: nat, pcRead: nat, target: nat)
    requires Consistent(f) && ActiveRow(f.rows, session)
    requires pcRead < |f.pcs| && target < |f.pcs| && pcRead != target
    ensures var pc := f.rows[session].pc;
      Consistent(CommitMove(f, session, pcRead, target)) <==>
        TakenByOther(f.rows, session, target) || pc == pcRead || (pc == target && f.pcs[pcRead] != InSession)
  {
    var pc := f.rows[session].pc;
    var f' := CommitMove(f, session, pcRead, target);
    OnlyItself(f, session, pc);
    if !TakenByOther(f.rows, session, target) {
      assert forall k :: ActiveRow(f'.rows, k) <==> ActiveRow(f.rows, k);
      assert forall k :: ActiveRow(f.rows, k) && k != session ==> f'.rows[k] == f.rows[k];
      if pc == pcRead {
        assert !Carries(f.rows, target);
        MoveKeepsConsistent(f.(pcs := f.pcs[target := Available]), session, target);
        FreeTargetIsMove(f, session, target);
      } else if pc == target {
        assert f'.rows == f.rows;
        if f.pcs[pcRead] != InSession {
          SameCarriers(f, f');
        } else {
          assert Carries(f'.rows, pcRead);
        }
      } else {
        LeftBehind(f', session, pc);
      }
    }
  }

  /** The case that goes wrong: read at machine 0, moved by someone else to machine 1
      since, and now written to machine 2. Machine 1 stays in session with nobody on it. */
  lemma MovedTwiceLeavesAMachineBehind()
    ensures var f := Floor([Available, InSession, Available], [Row(7, 1, Active, false)]);
      Consistent(f) && !Consistent(CommitMove(f, 0, 0, 2))
      && CommitMove(f, 0, 0, 2) == Floor([Available, InSession, InSession], [Row(7, 2, Active, false)])
  {
    var f := Floor([Available, InSession, Available], [Row(7, 1, Active, false)]);
    assert ActiveRow(f.rows, 0);
    assert Carries(f.rows, 1);
    DelayedMoveKeepsIff(f, 0, 0, 2);
  }

  /** A machine marked in session with nobody on it is not consistent. */
  lemma LeftBehind(f: Floor, session: nat, pc: nat)
    requires pc < |f.pcs| && f.pcs[pc] == InSession
    requires forall k :: ActiveRow(f.rows, k) ==> f.rows[k].pc != pc
    ensures !Consistent(f)
  {
  }

  lemma FreeTargetIsMove(f: Floor, session: nat, target: nat)
    requires Consistent(f) && ActiveRow(f.rows, session) && target < |f.pcs| && f.rows[session].pc != target
    requires f.pcs[target] != InSession
    ensures Consistent(f.(pcs := f.pcs[target := Available]))
    ensures MoveTo(f.(pcs := f.pcs[target := Available]), session, target)
         == CommitMove(f, session, f.rows[session].pc, target)
  {
    SameCarriers(f, f.(pcs := f.pcs[target := Available]));
    assert f.pcs[target := Available][target := InSession] == f.pcs[target := InSession];
  }

  /** A delayed cancellation keeps it exactly when the session was not moved since
      (or has been confirmed or closed, and nothing is written). */
  lemma DelayedCancelKeepsIff(f: Floor, session: nat, pcRead: nat)
    requires Consistent(f) && pcRead < |f.pcs|
    ensures Consistent(CommitCancel(f, session, pcRead))
       <==> !ActiveRow(f.rows, session) || !f.rows[session].waitingReady || f.rows[session].pc == pcRead
  {
    if ActiveRow(f.rows, session) && f.rows[session].waitingReady {
      var pc := f.rows[session].pc;
      OnlyItself(f, session, pc);
      var f' := CommitCancel(f, session, pcRead);
      if pc == pcRead {
        ClosingKeepsConsistent(f, session, f.rows[session].(status := Cancelled));
      } else {
        assert forall k :: ActiveRow(f'.rows, k) ==> ActiveRow(f.rows, k) && f'.rows[k] == f.rows[k] && k != session;
        LeftBehind(f', session, pc);
      }
    }
  }

  /** A delayed repair flag keeps it exactly when nobody sat down since. */
  lemma DelayedStatusKeepsIff(f: Floor, pc: nat, next: PcStatus)
    requires Consistent(f) && pc < |f.pcs| && (next == Available || next == Maintenance)
    ensures Consistent(f.(pcs := f.pcs[pc := next])) <==> f.pcs[pc] != InSession
  {
    if f.pcs[pc] != InSession {
      SameCarriers(f, f.(pcs := f.pcs[pc := next]));
    } else {
      assert Carries(f.rows, pc);
    }
  }

  /** The floor, updated in place. */
  class Hall {
    var pcs: seq<PcStatus>
    var rows: seq<Row>

    constructor ()
      ensures pcs == [] && rows == []
    {
      pcs, rows := [], [];
    }

    ghost function View(): Floor
      reads this
    {
      Floor(pcs, rows)
    }

    method HasActive(user: nat) returns (found: bool)
      ensures found == UserActive(rows, user)
    {
      found := false;
      for i := 0 to |rows|
        invariant found == exists k :: 0 <= k < i && rows[k].user == user && rows[k].status == Active
      {
        if rows[i].user == user && rows[i].status == Active {
          found := true;
        }
      }
    }

    method StartSession(t: StartTicket) returns (ok: bool)
      modifies this
      ensures View() == CommitStartOf(old(View()), t)
      ensures ok <==> t.pc < |old(pcs)| && old(pcs)[t.pc] == Available && !UserActive(old(rows), t.user)
      ensures ok ==> pcs == old(pcs)[t.pc := InSession] && rows == old(rows) + [Row(t.user, t.pc, Active, t.readyWindow)]
      ensures !ok ==> View() == old(View())
    {
      var taken := HasActive(t.user);
      if t.pc >= |pcs| || pcs[t.pc] != Available || taken {
        return false;
      }
      pcs := pcs[t.pc := InSession];
      rows := rows + [Row(t.user, t.pc, Active, t.readyWindow)];
      ok := true;
    }

    method FinishSession(t: FinishTicket) returns (ok: bool)
      modifies this
      ensures View() == CommitFinishOf(old(View()), t)
      ensures ok <==> old(ActiveRow(rows, t.session))
      ensures ok ==> rows == old(rows)[t.session := old(rows)[t.session].(status := Completed)]
      ensures ok && old(rows)[t.session].pc < |old(pcs)| ==> pcs == old(pcs)[old(rows)[t.session].pc := Available]
      ensures !ok ==> View() == old(View())
    {
      if t.session >= |rows| || rows[t.session].status != Active {
        return false;
      }
      rows := rows[t.session := rows[t.session].(status := Completed)];
      var pc := rows[t.session].pc;
      if pc < |pcs| {
        pcs := pcs[pc := Available];
      }
      ok := true;
    }

    method MoveSession(session: nat, target: nat) returns (ok: bool)
      modifies this
      ensures View() == MoveTo(old(View()), session, target)
      ensures ok <==>
        && old(ActiveRow(rows, session)) && target < |old(pcs)|
        && target != old(rows)[session].pc && old(pcs)[target] == Available
      ensures ok ==> rows == old(rows)[session := old(rows)[session].(pc := target)]
      ensures ok && old(rows)[session].pc < |old(pcs)| ==>
        pcs == old(pcs)[target := InSession][old(rows)[session].pc := Available]
      ensures !ok ==> View() == old(View())
    {
      if session >= |rows| || rows[session].status != Active || target >= |pcs|
         || target == rows[session].pc || pcs[target] != Available {
        return false;
      }
      var oldPc := rows[session].pc;
      rows := rows[session := rows[session].(pc := target)];
      pcs := pcs[target := InSession];
      if oldPc < |pcs| {
        pcs := pcs[oldPc := Available];
      }
      ok := true;
    }

    method CancelSeat(session: nat) returns (ok: bool)
      modifies this
      ensures View() == CancelSeatOf(old(View()), session)
      ensures ok <==> old(ActiveRow(rows, session)) && old(rows)[session].waitingReady
      ensures ok ==> rows == old(rows)[session := old(rows)[session].(status := Cancelled)]
      ensures ok && old(rows)[session].pc < |old(pcs)| ==> pcs == old(pcs)[old(rows)[session].pc := Available]
      ensures !ok ==> View() == old(View())
    {
      if session >= |rows| || rows[session].status != Active || !rows[session].waitingReady {
        return false;
      }
      var pc := rows[session].pc;
      rows := rows[session := rows[session].(status := Cancelled)];
      if pc < |pcs| {
        pcs := pcs[pc := Available];
      }
      ok := true;
    }
  }
}
