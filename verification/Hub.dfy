/** The hub of shell connections. Registrations and disconnections arrive on two
    queues and are taken off in any order; messages are sent in between. A closed
    channel must never be closed again nor sent to: here those are preconditions. */
module Hub {
  /** A connection as the hub took it off one of its queues. */
  datatype Event = Registered(id: nat, computer: string) | Unregistered(id: nat, computer: string)

  /** Who is entered for each computer, and whose send channel has been closed. */
  datatype Board = Board(entries: map<string, nat>, closed: set<nat>)

  /** Registering displaces and closes the previous connection of the computer;
      unregistering removes the entry only if it is that very connection. */
  function Handle(b: Board, e: Event): Board {
    match e
    case Registered(id, computer) =>
      Board(b.entries[computer := id],
            if computer in b.entries && b.entries[computer] != id then b.closed + {b.entries[computer]} else b.closed)
    case Unregistered(id, computer) =>
      Board(if computer in b.entries && b.entries[computer] == id then b.entries - {computer} else b.entries,
            b.closed + {id})
  }

  function Replay(log: seq<Event>): Board {
    if log == [] then Board(map[], {}) else Handle(Replay(log[..|log| - 1]), log[|log| - 1])
  }

  lemma ReplayAppend(log: seq<Event>, e: Event)
    ensures Replay(log + [e]) == Handle(Replay(log), e)
  {
    assert (log + [e])[..|log|] == log;
  }

  /** A connection belongs to one computer and registers at most once. */
  ghost predicate WellFormed(log: seq<Event>) {
    && (forall i, j :: 0 <= i < j < |log| && log[i].Registered? && log[j].Registered? ==> log[i].id != log[j].id)
    && (forall i, j :: 0 <= i < |log| && 0 <= j < |log| && log[i].id == log[j].id ==> log[i].computer == log[j].computer)
  }

  /** Every event of the log is of a known connection and its own computer. */
  ghost predicate NamesKnown(log: seq<Event>, known: map<nat, Client>) {
    forall i :: 0 <= i < |log| ==> log[i].id in known && log[i].computer == known[log[i].id].computer
  }

  predicate RegisteredBefore(log: seq<Event>, id: nat) {
    exists i :: 0 <= i < |log| && log[i].Registered? && log[i].id == id
  }

  lemma OneMoreEvent(log: seq<Event>, known: map<nat, Client>, e: Event)
    requires WellFormed(log) && NamesKnown(log, known) && e.id in known && e.computer == known[e.id].computer
    requires e.Registered? ==> !RegisteredBefore(log, e.id)
    ensures WellFormed(log + [e]) && NamesKnown(log + [e], known)
  {
  }

  /** Event `i` registers the connection, and the computer saw no later registration. */
  predicate LastRegistered(log: seq<Event>, i: int, id: nat, computer: string) {
    && 0 <= i < |log| && log[i] == Registered(id, computer)
    && forall j :: i < j < |log| && log[j].Registered? ==> log[j].computer != computer
  }

  predicate UnregisteredAfter(log: seq<Event>, i: int, id: nat) {
    exists j :: 0 <= j < |log| && i <= j && log[j].Unregistered? && log[j].id == id
  }

  predicate HasRegistered(log: seq<Event>, id: nat, computer: string) {
    exists i :: 0 <= i < |log| && log[i] == Registered(id, computer)
  }

  /** Another connection registered for the computer after this one had. */
  predicate Displaced(log: seq<Event>, id: nat, computer: string) {
    exists j :: 0 <= j < |log| && log[j].Registered? && log[j].computer == computer && log[j].id != id
             && HasRegistered(log[..j], id, computer)
  }

  lemma UnregisteredByLast(log: seq<Event>, i: int, id: nat)
    requires log != [] && i < |log|
    ensures var before, e := log[..|log| - 1], log[|log| - 1];
      UnregisteredAfter(log, i, id) <==> UnregisteredAfter(before, i, id) || (e.Unregistered? && e.id == id)
  {
    var before := log[..|log| - 1];
    if UnregisteredAfter(before, i, id) {
      var j :| 0 <= j < |before| && i <= j && before[j].Unregistered? && before[j].id == id;
      assert log[j] == before[j];
    }
  }

  lemma DisplacedByLast(log: seq<Event>, id: nat, computer: string)
    requires log != []
    ensures var before, e := log[..|log| - 1], log[|log| - 1];
      Displaced(log, id, computer) <==>
        || Displaced(before, id, computer)
        || (e.Registered? && e.computer == computer && e.id != id && HasRegistered(before, id, computer))
  {
    var before := log[..|log| - 1];
    assert forall j :: 0 <= j < |before| ==> log[..j] == before[..j] && log[j] == before[j];
  }

  /** The entry of a computer: the last connection that registered for it, unless it
      has unregistered since. */
  lemma {:induction false} EntryIsLastRegistered(log: seq<Event>, computer: string, id: nat)
    requires WellFormed(log)
    ensures (computer in Replay(log).entries && Replay(log).entries[computer] == id)
       <==> exists i :: LastRegistered(log, i, id, computer) && !UnregisteredAfter(log, i, id)
  {
    if log != [] {
      var n := |log| - 1;
      var before, e := log[..n], log[n];
      EntryIsLastRegistered(before, computer, id);
      if e.Registered? && e.computer == computer {
        assert LastRegistered(log, n, e.id, computer);
        assert !UnregisteredAfter(log, n, e.id);
      } else {
        forall i | 0 <= i < n
          ensures LastRegistered(log, i, id, computer) <==> LastRegistered(before, i, id, computer)
          ensures UnregisteredAfter(log, i, id) <==> UnregisteredAfter(before, i, id) || (e.Unregistered? && e.id == id)
        {
          UnregisteredByLast(log, i, id);
        }
        assert forall i :: LastRegistered(log, i, id, computer) ==> i < n;
      }
    }
  }

  /** A connection that has registered is still entered, or was displaced, or has
      unregistered. */
  lemma RegisteredIsEnteredOrClosed(log: seq<Event>, id: nat, computer: string)
    requires WellFormed(log)
    ensures computer in Replay(log).entries && Replay(log).entries[computer] == id ==> HasRegistered(log, id, computer)
    ensures HasRegistered(log, id, computer) ==>
              || (computer in Replay(log).entries && Replay(log).entries[computer] == id)
              || Displaced(log, id, computer) || UnregisteredAfter(log, 0, id)
  {
    EntryIsLastRegistered(log, computer, id);
    if HasRegistered(log, id, computer) {
      var i :| 0 <= i < |log| && log[i] == Registered(id, computer);
      if !LastRegistered(log, i, id, computer) {
        var j :| i < j < |log| && log[j].Registered? && log[j].computer == computer;
        assert log[..j][i] == log[i];
        assert HasRegistered(log[..j], id, computer);
      }
    }
  }

  /** A connection's channel is closed exactly when it has unregistered or another
      registration displaced it. */
  lemma {:induction false} ClosedIff(log: seq<Event>, id: nat)
    requires WellFormed(log)
    ensures id in Replay(log).closed
       <==> UnregisteredAfter(log, 0, id) || exists computer :: Displaced(log, id, computer)
  {
    if log != [] {
      var before, e := log[..|log| - 1], log[|log| - 1];
      ClosedIff(before, id);
      UnregisteredByLast(log, 0, id);
      forall computer
        ensures Displaced(log, id, computer) <==>
          || Displaced(before, id, computer)
          || (e.Registered? && e.computer == computer && e.id != id && HasRegistered(before, id, computer))
      {
        DisplacedByLast(log, id, computer);
      }
      RegisteredIsEnteredOrClosed(before, id, e.computer);
    }
  }

  /** The entered connection can be sent to exactly when its disconnection was not
      taken off the queues before its registration. */
  lemma EntryIsOpenIff(log: seq<Event>, computer: string)
    requires WellFormed(log) && computer in Replay(log).entries
    ensures var id := Replay(log).entries[computer];
      id !in Replay(log).closed <==> !UnregisteredAfter(log, 0, id)
  {
    var id := Replay(log).entries[computer];
    EntryIsLastRegistered(log, computer, id);
    ClosedIff(log, id);
    var i :| LastRegistered(log, i, id, computer) && !UnregisteredAfter(log, i, id);
    forall c ensures !Displaced(log, id, c) {
      LastIsNotDisplaced(log, i, id, computer, c);
    }
  }

  lemma LastIsNotDisplaced(log: seq<Event>, i: nat, id: nat, computer: string, c: string)
    requires WellFormed(log) && i < |log| && log[i] == Registered(id, computer)
    ensures LastRegistered(log, i, id, computer) ==> !Displaced(log, id, c)
  {
    if Displaced(log, id, c) {
      var j :| 0 <= j < |log| && log[j].Registered? && log[j].computer == c && log[j].id != id
            && HasRegistered(log[..j], id, c);
      var k :| 0 <= k < j && log[..j][k] == Registered(id, c);
      assert log[k].id == log[i].id;
      assert k == i;
    }
  }

  /** Connections whose registration is taken off before their disconnection. */
  ghost predicate RegisterFirst(log: seq<Event>) {
    forall j :: 0 <= j < |log| && log[j].Unregistered? ==>
      exists i :: 0 <= i < j && log[i] == Registered(log[j].id, log[j].computer)
  }

  /** Then every entry is the last registered connection and is open. */
  lemma EntriesAreOpen(log: seq<Event>, computer: string)
    requires WellFormed(log) && RegisterFirst(log) && computer in Replay(log).entries
    ensures Replay(log).entries[computer] !in Replay(log).closed
  {
    var id := Replay(log).entries[computer];
    EntryIsLastRegistered(log, computer, id);
    EntryIsOpenIff(log, computer);
    var i :| LastRegistered(log, i, id, computer) && !UnregisteredAfter(log, i, id);
    UnregisteredComesLater(log, i, id);
  }

  lemma UnregisteredComesLater(log: seq<Event>, i: nat, id: nat)
    requires WellFormed(log) && RegisterFirst(log)
    requires i < |log| && log[i].Registered? && log[i].id == id
    ensures UnregisteredAfter(log, 0, id) ==> UnregisteredAfter(log, i, id)
  {
    if UnregisteredAfter(log, 0, id) {
      var j :| 0 <= j < |log| && 0 <= j && log[j].Unregistered? && log[j].id == id;
      var k :| 0 <= k < j && log[k] == Registered(log[j].id, log[j].computer);
      assert log[k].id == log[i].id;
    }
  }

  /** The two queues give no such order: a connection that drops at once may be
      unregistered first, and its closed channel is then entered for good. */
  lemma ClosedEntryIsPossible()
    ensures var log := [Unregistered(7, "pc-01"), Registered(7, "pc-01")];
      WellFormed(log) && Replay(log) == Board(map["pc-01" := 7], {7})
  {
    var log := [Unregistered(7, "pc-01"), Registered(7, "pc-01")];
    assert log[..1] == [Unregistered(7, "pc-01")];
    assert log[..1][..0] == [];
    assert Replay(log[..1]) == Board(map[], {7});
  }

  const SEND_BUFFER := 32

  /** A buffered channel. Closing it twice, or sending once it is closed, would stop
      the whole process. */
  class Channel {
    const owner: nat
    var closed: bool
    var enqueued: seq<string>
    var received: nat
    ghost var closings: nat
    ghost var enqueuedAtClose: seq<string>

    ghost predicate Valid()
      reads this
    {
      && received <= |enqueued| <= received + SEND_BUFFER
      && closings == (if closed then 1 else 0)
      && (closed ==> enqueued == enqueuedAtClose)
    }

    constructor (owner: nat)
      ensures Valid() && !closed && enqueued == [] && this.owner == owner
    {
      this.owner := owner;
      closed, enqueued, received := false, [], 0;
      closings, enqueuedAtClose := 0, [];
    }

    method Close()
      requires Valid() && !closed
      modifies this
      ensures Valid() && closed && enqueued == old(enqueued) && received == old(received)
    {
      closed := true;
      closings := closings + 1;
      enqueuedAtClose := enqueued;
    }

    method TrySend(message: string) returns (ok: bool)
      requires Valid() && !closed
      modifies this
      ensures Valid() && !closed && received == old(received)
      ensures ok <==> |old(enqueued)| - received < SEND_BUFFER
      ensures enqueued == if ok then old(enqueued) + [message] else old(enqueued)
    {
      ok := |enqueued| - received < SEND_BUFFER;
      if ok {
        enqueued := enqueued + [message];
      }
    }
  }

  /** One shell connection. */
  class Client {
    const id: nat
    const computer: string
    const send: Channel
    var closed: bool

    ghost predicate Valid()
      reads this, send
    {
      send.owner == id && send.Valid() && closed == send.closed
    }

    constructor (id: nat, computer: string)
      ensures Valid() && fresh(send) && !closed && this.id == id && this.computer == computer
    {
      this.id, this.computer, closed := id, computer, false;
      send := new Channel(id);
    }

    /** Closes the channel exactly once, however often it is called. */
    method CloseSend()
      requires Valid()
      modifies this, send
      ensures Valid() && closed
      ensures send.enqueued == old(send.enqueued)
    {
      if !closed {
        closed := true;
        send.Close();
      }
    }
  }

  datatype SendResult = Sent | NotConnected | Closing | QueueFull

  /** The map of clients holds, for each computer, the connection of the entered id. */
  ghost predicate EnteredAs(clients: map<string, Client>, known: map<nat, Client>, entries: map<string, nat>) {
    && clients.Keys == entries.Keys
    && forall k :: k in entries ==> entries[k] in known && clients[k] == known[entries[k]]
  }

  lemma EnteredLookup(clients: map<string, Client>, known: map<nat, Client>, entries: map<string, nat>, computer: string)
    requires EnteredAs(clients, known, entries)
    ensures computer in clients <==> computer in entries
    ensures computer in entries ==> entries[computer] in known && clients[computer] == known[entries[computer]]
  {
  }

  lemma OneMoreKnown(clients: map<string, Client>, known: map<nat, Client>, entries: map<string, nat>, log: seq<Event>,
                     id: nat, c: Client)
    requires EnteredAs(clients, known, entries) && NamesKnown(log, known) && id !in known
    ensures EnteredAs(clients, known[id := c], entries) && NamesKnown(log, known[id := c])
  {
  }

  lemma EnterKeeps(clients: map<string, Client>, known: map<nat, Client>, entries: map<string, nat>, id: nat, computer: string)
    requires EnteredAs(clients, known, entries) && id in known
    ensures EnteredAs(clients[computer := known[id]], known, entries[computer := id])
  {
  }

  lemma RemoveKeeps(clients: map<string, Client>, known: map<nat, Client>, entries: map<string, nat>, computer: string)
    requires EnteredAs(clients, known, entries)
    ensures EnteredAs(clients - {computer}, known, entries - {computer})
  {
  }

  class ShellHub {
    var clients: map<string, Client>
    ghost var log: seq<Event>
    ghost var known: map<nat, Client>
    ghost var repr: set<object>
    var nextId: nat

    /** Every connection is consistent with its own channel. */
    ghost predicate Sound()
      reads `known, `repr, repr
    {
      && this !in repr
      && forall i :: i in known ==>
           known[i] in repr && known[i].send in repr && known[i].id == i && known[i].Valid()
    }

    /** The clients map and the closed flags are what the log of handled events says,
        and the log is one that connections can produce. */
    ghost predicate Tied()
      requires Sound()
      reads this, repr
    {
      && WellFormed(log) && NamesKnown(log, known)
      && EnteredAs(clients, known, Replay(log).entries)
      && (forall i :: i in known ==> i < nextId && (known[i].closed <==> i in Replay(log).closed))
      && (forall i :: i in Replay(log).closed ==> i in known)
    }

    ghost predicate Valid()
      reads this, repr
    {
      Sound() && Tied()
    }

    constructor ()
      ensures Valid() && log == [] && known == map[]
    {
      clients, log, known, repr, nextId := map[], [], map[], {}, 0;
    }

    /** A shell connects: its connection will reach both queues later. */
    method Accept(computer: string) returns (c: Client)
      requires Valid()
      modifies this
      ensures Valid() && log == old(log) && clients == old(clients)
      ensures fresh(c) && c.computer == computer && c.id !in old(known) && known == old(known)[c.id := c]
    {
      hide Replay, EnteredAs, WellFormed, NamesKnown;
      c := new Client(nextId, computer);
      OneMoreKnown(clients, known, Replay(log).entries, log, nextId, c);
      known, repr := known[nextId := c], repr + {c, c.send};
      nextId := nextId + 1;
    }

    /** Close one connection's channel; the others are not touched. */
    method CloseOne(c: Client)
      requires Sound() && c.id in known && known[c.id] == c
      modifies repr
      ensures Sound()
      ensures forall i :: i in known ==> known[i].closed == (old(known[i].closed) || i == c.id)
                                         && known[i].send.enqueued == old(known[i].send.enqueued)
    {
      c.CloseSend();
    }

    /** Take a connection off the register queue, where it is put once. */
    method Register(c: Client)
      requires Valid() && c.id in known && known[c.id] == c
      requires !RegisteredBefore(log, c.id)
      modifies this, repr
      ensures Valid() && known == old(known) && repr == old(repr) && log == old(log) + [Registered(c.id, c.computer)]
      ensures forall i :: i in known ==> known[i].send.enqueued == old(known[i].send.enqueued)
    {
      hide Replay, EnteredAs, WellFormed, NamesKnown, RegisteredBefore;
      ghost var before := Replay(log);
      EnteredLookup(clients, known, before.entries, c.computer);
      ReplayAppend(log, Registered(c.id, c.computer));
      OneMoreEvent(log, known, Registered(c.id, c.computer));
      if c.computer in clients {
        var previous := clients[c.computer];
        if previous != c {
          CloseOne(previous);
        }
      }
      assert forall i :: i in known ==> (known[i].closed <==> i in Handle(before, Registered(c.id, c.computer)).closed);
      EnterKeeps(clients, known, before.entries, c.id, c.computer);
      clients := clients[c.computer := c];
      log := log + [Registered(c.id, c.computer)];
    }

    /** Take a connection off the unregister queue: identity is compared, so an old
        connection never removes its successor. */
    method Unregister(c: Client) returns (live: bool)
      requires Valid() && c.id in known && known[c.id] == c
      modifies this, repr
      ensures Valid() && known == old(known) && repr == old(repr) && log == old(log) + [Unregistered(c.id, c.computer)]
      ensures forall k :: k in old(clients) && old(clients)[k] != c ==> k in clients && clients[k] == old(clients)[k]
      ensures live <==> c.computer in old(clients) && old(clients)[c.computer] == c
      ensures forall i :: i in known ==> known[i].send.enqueued == old(known[i].send.enqueued)
    {
      hide Replay, EnteredAs, WellFormed, NamesKnown, RegisteredBefore;
      ghost var before := Replay(log);
      EnteredLookup(clients, known, before.entries, c.computer);
      ReplayAppend(log, Unregistered(c.id, c.computer));
      OneMoreEvent(log, known, Unregistered(c.id, c.computer));
      live := c.computer in clients && clients[c.computer] == c;
      if live {
        RemoveKeeps(clients, known, before.entries, c.computer);
        clients := clients - {c.computer};
      }
      CloseOne(c);
      assert forall i :: i in known ==> (known[i].closed <==> i in Handle(before, Unregistered(c.id, c.computer)).closed);
      log := log + [Unregistered(c.id, c.computer)];
    }

    /** In every state of the hub an entered connection is the last registered one of
        its computer, and it is open exactly when it was not taken off the unregister
        queue before. */
    lemma EntryOfThisHub(computer: string)
      requires Valid() && computer in clients
      ensures exists i :: LastRegistered(log, i, clients[computer].id, computer)
      ensures !clients[computer].closed <==> !UnregisteredAfter(log, 0, clients[computer].id)
    {
      hide Replay;
      EnteredLookup(clients, known, Replay(log).entries, computer);
      var id := Replay(log).entries[computer];
      EntryIsLastRegistered(log, computer, id);
      EntryIsOpenIff(log, computer);
    }

    /** Send to a computer: only an entered connection whose channel is open gets the
        message, and no other connection is touched. */
    method Send(computer: string, message: string) returns (result: SendResult)
      requires Valid()
      modifies repr
      ensures Valid() && known == old(known) && repr == old(repr) && log == old(log) && clients == old(clients)
      ensures result == NotConnected <==> computer !in clients
      ensures result == Closing <==> computer in clients && clients[computer].id in Replay(log).closed
      ensures result == QueueFull ==>
                |clients[computer].send.enqueued| - clients[computer].send.received == 32
      ensures result == Sent ==>
                |clients[computer].send.enqueued| - clients[computer].send.received <= 32
      ensures result == Sent ==> clients[computer].send.enqueued == old(clients[computer].send.enqueued) + [message]
      ensures forall i :: i in known && (result != Sent || known[i] != clients[computer]) ==>
                known[i].send.enqueued == old(known[i].send.enqueued)
    {
      if computer !in clients {
        return NotConnected;
      }
      var c := clients[computer];
      if c.closed {
        return Closing;
      }
      var ok := c.send.TrySend(message);
      result := if ok then Sent else QueueFull;
    }
  }
}
