/** The hub that broadcasts events to WebSocket clients through buffered channels it alone writes and closes. */
module WsHub {
  import opened Outcomes
  import opened Runs
  import opened Sets

  type Message = string

  const MAX_CLIENTS := 100
  const SEND_CAP := 64

  /**
    * A client the hub has been offered. received is what its write pump has taken, queue what its send channel still
    * holds, closes how often that channel was closed; joined and left are places in the hub's list of broadcasts.
    */
  datatype Client = Client(joined: nat, left: Option<nat>, received: seq<Message>, queue: seq<Message>, closes: nat) {
    /** Everything ever put in the send channel. */
    function Put(): seq<Message> {
      received + queue
    }

    predicate Full() {
      |queue| >= SEND_CAP
    }
  }

  /** clients is the set of the hub, all lists every client offered; processed the broadcasts sent out so far. */
  datatype State = State(clients: set<nat>, all: seq<Client>, processed: seq<Message>, stopping: bool, running: bool)

  const INIT: State := State({}, [], [], false, true)

  datatype Step =
    | Register
    | Unregister(c: nat)
    | Broadcast(msg: Message)
    | Pump(c: nat)
    | Stop
    | Shutdown

  predicate Enabled(s: State, step: Step) {
    match step
    case Register => s.running
    case Unregister(c) => s.running && c < |s.all|
    case Broadcast(_) => s.running
    case Pump(c) => c < |s.all| && s.all[c].queue != []
    case Stop => true
    case Shutdown => s.running && s.stopping
  }

  /** A client taken out of the set before the n-th broadcast, its channel closed. */
  function Closed(c: Client, n: nat): Client {
    c.(left := Some(n), closes := c.closes + 1)
  }

  function Sent(c: Client, msg: Message): Client {
    c.(queue := c.queue + [msg])
  }

  /** A client whose write pump has taken the next message. */
  function Pumped(c: Client): (d: Client)
    requires c.queue != []
    ensures d.Put() == c.Put()
  {
    assert c.queue == [c.queue[0]] + c.queue[1..];
    c.(received := c.received + [c.queue[0]], queue := c.queue[1..])
  }

  /** What a broadcast does to one client of the set: a channel that is full gets its client evicted. */
  function Served(c: Client, msg: Message, n: nat): Client {
    if c.Full() then Closed(c, n) else Sent(c, msg)
  }

  function Apply(s: State, step: Step): State
    requires Enabled(s, step)
  {
    var n := |s.processed|;
    match step
    case Register =>
      var c := Client(n, None, [], [], 0);
      if |s.clients| >= MAX_CLIENTS then s.(all := s.all + [Closed(c, n)])
      else s.(clients := s.clients + {|s.all|}, all := s.all + [c])
    case Unregister(c) =>
      if c in s.clients then s.(clients := s.clients - {c}, all := s.all[c := Closed(s.all[c], n)]) else s
    case Broadcast(msg) =>
      s.(clients := (set c | c in s.clients && c < |s.all| && !s.all[c].Full()),
         all := seq(|s.all|, c requires 0 <= c < |s.all| =>
           if c in s.clients then Served(s.all[c], msg, n) else s.all[c]),
         processed := s.processed + [msg])
    case Pump(c) =>
      s.(all := s.all[c := Pumped(s.all[c])])
    case Stop => s.(stopping := true)
    case Shutdown =>
      s.(clients := {}, running := false, all := seq(|s.all|, c requires 0 <= c < |s.all| =>
        if c in s.clients then Closed(s.all[c], n) else s.all[c]))
  }

  function Next(s: State, step: Step): State {
    if Enabled(s, step) then Apply(s, step) else s
  }

  /** The hub can be in this state, after any broadcasts, arrivals, departures and writes in any order. */
  ghost predicate Reached(s: State) {
    Reachable(Enabled, Next, INIT, s)
  }

  // The invariant

  /** The broadcasts processed while the client was in the set. */
  function Due(c: Client, processed: seq<Message>): seq<Message>
    requires c.joined <= |processed| && (c.left.Some? ==> c.joined <= c.left.value <= |processed|)
  {
    if c.left.Some? then processed[c.joined..c.left.value] else processed[c.joined..]
  }

  predicate ClientOk(c: Client, inSet: bool, processed: seq<Message>) {
    && c.joined <= |processed| && (c.left.Some? ==> c.joined <= c.left.value <= |processed|)
    && (inSet <==> c.left.None?)
    && c.closes == (if inSet then 0 else 1)
    && |c.queue| <= SEND_CAP
    && c.Put() == Due(c, processed)
  }

  predicate Inv(s: State) {
    && |s.clients| <= MAX_CLIENTS
    && (forall c | c in s.clients :: c < |s.all|)
    && (forall c: nat | c < |s.all| :: ClientOk(s.all[c], c in s.clients, s.processed))
    && (!s.running ==> s.clients == {})
  }

  lemma NewOk(processed: seq<Message>)
    ensures ClientOk(Client(|processed|, None, [], [], 0), true, processed)
    ensures ClientOk(Closed(Client(|processed|, None, [], [], 0), |processed|), false, processed)
  {
  }

  lemma RegisterKeeps(s: State)
    requires Inv(s) && Enabled(s, Register)
    ensures Inv(Apply(s, Register))
  {
    NewOk(s.processed);
    hide ClientOk;
    var t := Apply(s, Register);
    forall c: nat | c < |t.all| ensures ClientOk(t.all[c], c in t.clients, t.processed) {
      if c < |s.all| { assert ClientOk(s.all[c], c in s.clients, s.processed); }
    }
  }

  lemma RegisterResult(s: State)
    requires Enabled(s, Register)
    ensures var c := Client(|s.processed|, None, [], [], 0);
      var all := s.all + [c];
      Apply(s, Register) ==
        if |s.clients| >= MAX_CLIENTS then s.(all := all[|s.all| := Closed(c, |s.processed|)])
        else s.(clients := s.clients + {|s.all|}, all := all)
  {
  }

  lemma ClosedOk(c: Client, processed: seq<Message>)
    requires ClientOk(c, true, processed)
    ensures ClientOk(Closed(c, |processed|), false, processed)
  {
    assert processed[c.joined..|processed|] == processed[c.joined..];
  }

  lemma ServedOk(c: Client, inSet: bool, processed: seq<Message>, msg: Message)
    requires ClientOk(c, inSet, processed)
    ensures var d := if inSet then Served(c, msg, |processed|) else c;
      ClientOk(d, inSet && !c.Full(), processed + [msg])
  {
    if inSet && !c.Full() {
      assert (processed + [msg])[c.joined..] == processed[c.joined..] + [msg];
      assert Sent(c, msg).Put() == c.Put() + [msg];
    } else if inSet {
      assert (processed + [msg])[c.joined..|processed|] == processed[c.joined..];
    } else {
      assert (processed + [msg])[c.joined..c.left.value] == processed[c.joined..c.left.value];
    }
  }

  lemma BroadcastKeeps(s: State, msg: Message)
    requires Inv(s) && Enabled(s, Broadcast(msg))
    ensures Inv(Apply(s, Broadcast(msg)))
  {
    hide ClientOk, Served;
    var t := Apply(s, Broadcast(msg));
    SubsetSize(t.clients, s.clients);
    forall c: nat | c < |t.all| ensures ClientOk(t.all[c], c in t.clients, t.processed) {
      ServedOk(s.all[c], c in s.clients, s.processed, msg);
    }
  }

  lemma PumpedOk(c: Client, inSet: bool, processed: seq<Message>)
    requires ClientOk(c, inSet, processed) && c.queue != []
    ensures ClientOk(Pumped(c), inSet, processed)
  {
    var p := Pumped(c).Put();
    hide Client.Put;
  }

  lemma PumpKeeps(s: State, c: nat)
    requires Inv(s) && Enabled(s, Pump(c))
    ensures Inv(Apply(s, Pump(c)))
  {
    hide ClientOk, Pumped;
    assert ClientOk(s.all[c], c in s.clients, s.processed);
    PumpedOk(s.all[c], c in s.clients, s.processed);
    var t := Apply(s, Pump(c));
    forall k: nat | k < |t.all| ensures ClientOk(t.all[k], k in t.clients, t.processed) {
      assert ClientOk(s.all[k], k in s.clients, s.processed);
    }
  }

  lemma RemovalKeeps(s: State, step: Step)
    requires Inv(s) && Enabled(s, step) && (step.Unregister? || step.Shutdown?)
    ensures Inv(Apply(s, step))
  {
    hide ClientOk, Closed;
    var t := Apply(s, step);
    SubsetSize(t.clients, s.clients);
    forall c: nat | c < |t.all| ensures ClientOk(t.all[c], c in t.clients, t.processed) {
      assert ClientOk(s.all[c], c in s.clients, s.processed);
      if c in s.clients { ClosedOk(s.all[c], s.processed); }
    }
  }

  lemma InvStep(s: State, step: Step)
    requires Inv(s) && Enabled(s, step)
    ensures Inv(Apply(s, step))
  {
    match step
    case Register => RegisterKeeps(s);
    case Broadcast(msg) => BroadcastKeeps(s, msg);
    case Pump(c) => PumpKeeps(s, c);
    case Unregister(_) | Shutdown => RemovalKeeps(s, step);
    case Stop =>
  }

  lemma InvReached(s: State)
    requires Reached(s)
    ensures Inv(s)
  {
    forall s, step | Inv(s) && Enabled(s, step) ensures Inv(Next(s, step)) {
      InvStep(s, step);
    }
    Invariant(Enabled, Next, Inv, INIT, s);
  }

  /**
    * In every run the hub has at most 100 clients, and each client ever offered has been given exactly the broadcasts
    * processed from its registration to its removal, in order and without a gap; a rejected one was given none.
    * Its channel is open while it is in the set and closed once from then on.
    */
  lemma ClientsGetContiguousRun(s: State, c: nat)
    requires Reached(s) && c < |s.all|
    ensures var client := s.all[c];
      var until := if client.left.Some? then client.left.value else |s.processed|;
      && |s.clients| <= 100
      && client.joined <= until <= |s.processed|
      && client.received + client.queue == s.processed[client.joined..until]
      && (c in s.clients <==> client.left.None?)
      && client.closes == (if c in s.clients then 0 else 1)
  {
    InvReached(s);
    assert ClientOk(s.all[c], c in s.clients, s.processed);
  }

  lemma ClosedStep(s: State, step: Step, c: nat)
    requires Enabled(s, step) && c < |s.all| && c !in s.clients
    ensures var t := Apply(s, step);
      c < |t.all| && t.all[c].Put() == s.all[c].Put() && t.all[c].closes == s.all[c].closes
  {
  }

  /** Nothing is ever put in a channel that has been closed, and none is closed again. */
  lemma ClosedStaysClosed(s: State, step: Step, c: nat)
    requires Reached(s) && Enabled(s, step) && c < |s.all| && s.all[c].closes > 0
    ensures var t := Apply(s, step);
      c < |t.all| && t.all[c].Put() == s.all[c].Put() && t.all[c].closes == 1
  {
    hide Enabled, Apply;
    InvReached(s);
    assert ClientOk(s.all[c], c in s.clients, s.processed);
    ClosedStep(s, step, c);
  }

  lemma BroadcastStep(s: State, msg: Message, c: nat)
    requires Enabled(s, Broadcast(msg)) && c in s.clients && c < |s.all|
    ensures var t := Apply(s, Broadcast(msg));
      if |s.all[c].queue| >= SEND_CAP then c !in t.clients && t.all[c].Put() == s.all[c].Put()
      else c in t.clients && t.all[c].Put() == s.all[c].Put() + [msg]
  {
    assert Sent(s.all[c], msg).Put() == s.all[c].Put() + [msg];
  }

  /** A broadcast evicts exactly the clients whose channel is full, and the others get the message. */
  lemma BroadcastEvictsOnlySlow(s: State, msg: Message, c: nat)
    requires Reached(s) && s.running && c in s.clients
    ensures c < |s.all|
    ensures var t := Apply(s, Broadcast(msg));
      if |s.all[c].queue| == 64 then c !in t.clients && t.all[c].Put() == s.all[c].Put()
      else c in t.clients && t.all[c].Put() == s.all[c].Put() + [msg]
  {
    hide Apply;
    InvReached(s);
    assert ClientOk(s.all[c], true, s.processed);
    BroadcastStep(s, msg, c);
  }

  /** When Run returns no client is left open. */
  lemma ShutdownClosesAll(s: State, c: nat)
    requires Reached(s) && !s.running && c < |s.all|
    ensures s.all[c].closes == 1
  {
    InvReached(s);
    assert ClientOk(s.all[c], c in s.clients, s.processed);
  }

  /** A stop ends Run at its next turn, with every client of the set closed and the messages they got left to them. */
  lemma StopEnds(s: State)
    requires Reached(s) && s.running
    ensures Enabled(Next(s, Stop), Shutdown)
    ensures var t := Next(Next(s, Stop), Shutdown);
      && !t.running && |t.all| == |s.all|
      && forall c | 0 <= c < |s.all| :: t.all[c].closes == 1 && t.all[c].Put() == s.all[c].Put()
  {
    InvReached(s);
    forall c | 0 <= c < |s.all|
      ensures Next(Next(s, Stop), Shutdown).all[c].closes == 1
    {
      assert ClientOk(s.all[c], c in s.clients, s.processed);
    }
  }

  /** A client is accepted exactly when fewer than 100 are in the set; otherwise its channel is closed at once. */
  lemma AcceptedIff(s: State)
    requires Reached(s) && s.running
    ensures var t := Apply(s, Register);
      var c := |s.all|;
      && (c in t.clients <==> |s.clients| < 100)
      && t.clients - {c} == s.clients && |t.all| == c + 1 && t.all[..c] == s.all
      && t.all[c].closes == (if |s.clients| < 100 then 0 else 1) && t.all[c].Put() == []
  {
    InvReached(s);
    var c := |s.all|;
    assert c !in s.clients && s.clients + {c} - {c} == s.clients && s.clients - {c} == s.clients;
    hide Inv, Reached;
    assert (s.all + [Client(|s.processed|, None, [], [], 0)])[..c] == s.all;
    assert (s.all + [Closed(Client(|s.processed|, None, [], [], 0), |s.processed|)])[..c] == s.all;
  }

  /** A client that unregisters is out of the set with its channel closed once, also when it has been evicted before. */
  lemma UnregisterCloses(s: State, c: nat)
    requires Reached(s) && Enabled(s, Unregister(c))
    ensures var t := Apply(s, Unregister(c));
      && t.clients == s.clients - {c} && |t.all| == |s.all|
      && t.all[c].closes == 1 && t.all[c].Put() == s.all[c].Put()
      && forall d | 0 <= d < |s.all| && d != c :: t.all[d] == s.all[d]
  {
    InvReached(s);
    assert ClientOk(s.all[c], c in s.clients, s.processed);
  }

  /** A write pump takes the message that has waited longest, and only that. */
  lemma PumpTakesFirst(s: State, c: nat)
    requires Enabled(s, Pump(c))
    ensures var t := Apply(s, Pump(c));
      && t.all[c].received == s.all[c].received + [s.all[c].queue[0]] && t.all[c].queue == s.all[c].queue[1..]
      && t == s.(all := s.all[c := t.all[c]])
  {
  }

  /** How far the first loop of a broadcast has come: todo is still to be served, slow is to be evicted. */
  ghost predicate HalfServed(was: State, all: seq<Client>, todo: set<nat>, slow: seq<nat>, msg: Message) {
    && |all| == |was.all| && (forall c | c in was.clients :: c < |was.all|)
    && (forall c: nat | c < |all| :: all[c] ==
          if c in was.clients && c !in todo && !was.all[c].Full() then Sent(was.all[c], msg) else was.all[c])
    && (forall c: nat :: c in slow <==> c in was.clients && c !in todo && was.all[c].Full())
    && (forall i, j | 0 <= i < j < |slow| :: slow[i] != slow[j])
  }

  lemma HalfServedNext(was: State, all: seq<Client>, todo: set<nat>, slow: seq<nat>, msg: Message, c: nat)
    requires HalfServed(was, all, todo, slow, msg) && c in todo && c in was.clients
    ensures c < |all| && all[c] == was.all[c]
    ensures if all[c].Full() then HalfServed(was, all, todo - {c}, slow + [c], msg)
            else HalfServed(was, all[c := Sent(all[c], msg)], todo - {c}, slow, msg)
  {
  }

  /** How far the second loop has come: the first j slow clients are out. */
  ghost predicate Evicted(was: State, clients: set<nat>, all: seq<Client>, slow: seq<nat>, j: nat, msg: Message)
    requires j <= |slow|
  {
    && |all| == |was.all| && (forall c | c in was.clients :: c < |was.all|)
    && (forall c: nat :: c in slow <==> c in was.clients && was.all[c].Full())
    && (forall i, k | 0 <= i < k < |slow| :: slow[i] != slow[k])
    && (forall c: nat :: c in clients <==> c in was.clients && c !in slow[..j])
    && (forall c: nat | c < |all| :: all[c] ==
          if c !in was.clients then was.all[c]
          else if !was.all[c].Full() then Sent(was.all[c], msg)
          else if c in slow[..j] then Closed(was.all[c], |was.processed|)
          else was.all[c])
  }

  lemma EvictedNext(was: State, clients: set<nat>, all: seq<Client>, slow: seq<nat>, j: nat, msg: Message)
    requires j < |slow| && Evicted(was, clients, all, slow, j, msg)
    ensures slow[j] in clients && slow[j] < |all| && all[slow[j]] == was.all[slow[j]]
    ensures Evicted(was, clients - {slow[j]}, all[slow[j] := Closed(all[slow[j]], |was.processed|)], slow, j + 1, msg)
  {
    var c := slow[j];
    assert c in slow && c !in slow[..j];
    assert slow[..j + 1] == slow[..j] + [c];
  }

  lemma EvictedMember(was: State, clients: set<nat>, all: seq<Client>, slow: seq<nat>, j: nat, msg: Message)
    requires j < |slow| && Evicted(was, clients, all, slow, j, msg)
    ensures slow[j] in was.clients
  {
    assert slow[j] in slow;
  }

  lemma EvictedAll(was: State, clients: set<nat>, all: seq<Client>, slow: seq<nat>, msg: Message)
    requires was.running && Evicted(was, clients, all, slow, |slow|, msg)
    ensures Apply(was, Broadcast(msg)) == was.(clients := clients, all := all, processed := was.processed + [msg])
  {
    assert slow[..|slow|] == slow;
    assert clients == Apply(was, Broadcast(msg)).clients;
    assert all == Apply(was, Broadcast(msg)).all;
  }

  lemma ServedAll(was: State, all: seq<Client>, slow: seq<nat>, msg: Message)
    requires HalfServed(was, all, {}, slow, msg)
    ensures Evicted(was, was.clients, all, slow, 0, msg)
  {
  }

  /** How far a shutdown has come: the clients that are out have their channels closed. */
  ghost predicate HalfShut(was: State, clients: set<nat>, all: seq<Client>) {
    && |all| == |was.all| && clients <= was.clients
    && (forall c: nat | c < |all| ::
          all[c] == if c in was.clients && c !in clients then Closed(was.all[c], |was.processed|) else was.all[c])
  }

  lemma HalfShutNext(was: State, clients: set<nat>, all: seq<Client>, c: nat)
    requires HalfShut(was, clients, all) && c in clients && c < |all|
    ensures all[c] == was.all[c]
    ensures HalfShut(was, clients - {c}, all[c := Closed(all[c], |was.processed|)])
  {
  }

  lemma ShutAll(was: State, all: seq<Client>)
    requires was.running && was.stopping && HalfShut(was, {}, all)
    ensures Apply(was, Shutdown) == was.(clients := {}, all := all, running := false)
  {
    assert all == Apply(was, Shutdown).all;
  }

  /** The channel of a client in the set is open. */
  lemma MemberOpen(s: State, c: nat)
    requires Inv(s) && c in s.clients
    ensures c < |s.all| && s.all[c].closes == 0
  {
    assert ClientOk(s.all[c], true, s.processed);
  }

  /** The hub, with the channels of its clients. A Go channel must not be written or closed once it is closed. */
  class Hub {
    var clients: set<nat>
    var all: seq<Client>
    var processed: seq<Message>
    var stopping: bool
    var running: bool

    constructor ()
      ensures Valid() && Abs() == INIT
    {
      clients, all, processed, stopping, running := {}, [], [], false, true;
    }

    function Abs(): State
      reads this
    {
      State(clients, all, processed, stopping, running)
    }

    predicate Valid()
      reads this
    {
      Inv(Abs())
    }

    /** The send of a select with a default: it must find the channel open. */
    method TrySend(c: nat, msg: Message) returns (ok: bool)
      requires c < |all| && all[c].closes == 0
      modifies `all
      ensures ok == !old(all)[c].Full()
      ensures all == if ok then old(all)[c := Sent(old(all)[c], msg)] else old(all)
    {
      ok := |all[c].queue| < SEND_CAP;
      if ok {
        all := all[c := all[c].(queue := all[c].queue + [msg])];
      }
    }

    method CloseSend(c: nat)
      requires c < |all| && all[c].closes == 0
      modifies `all
      ensures all == old(all)[c := Closed(old(all)[c], |processed|)]
    {
      all := all[c := all[c].(left := Some(|processed|), closes := 1)];
    }

    method Register() returns (c: nat)
      requires Valid() && running
      modifies this
      ensures Valid() && Abs() == Apply(old(Abs()), Step.Register) && c == |old(all)|
    {
      hide Inv, Apply, Closed;
      ghost var was := Abs();
      RegisterKeeps(was);
      RegisterResult(was);
      c := |all|;
      all := all + [Client(|processed|, None, [], [], 0)];
      if |clients| >= MAX_CLIENTS {
        CloseSend(c);
        return;
      }
      clients := clients + {c};
    }

    method Unregister(c: nat)
      requires Valid() && running && c < |all|
      modifies this
      ensures Valid() && Abs() == Apply(old(Abs()), Step.Unregister(c))
    {
      ghost var was := Abs();
      RemovalKeeps(was, Step.Unregister(c));
      if c in clients {
        MemberOpen(was, c);
        hide Inv;
        clients := clients - {c};
        CloseSend(c);
        assert Abs() == Apply(was, Step.Unregister(c));
      }
    }

    /** The first loop of a broadcast: offers the message to every client and lists those that are too slow. */
    method Offer(msg: Message) returns (slow: seq<nat>)
      requires Valid()
      modifies `all
      ensures HalfServed(old(Abs()), all, {}, slow, msg)
    {
      ghost var was := Abs();
      assert forall c | c in was.clients :: c < |was.all|;
      slow := [];
      var todo := clients;
      assert HalfServed(was, all, todo, slow, msg);
      hide *;
      while todo != {}
        invariant todo <= clients == was.clients
        invariant HalfServed(was, all, todo, slow, msg)
      {
        var c: nat :| c in todo;
        MemberOpen(was, c);
        HalfServedNext(was, all, todo, slow, msg, c);
        var ok := TrySend(c, msg);
        if !ok {
          slow := slow + [c];
        }
        todo := todo - {c};
      }
    }

    /** The second loop. */
    method Evict(slow: seq<nat>, ghost was: State, ghost msg: Message)
      requires Inv(was) && Evicted(was, clients, all, slow, 0, msg) && processed == was.processed
      modifies `clients, `all
      ensures Evicted(was, clients, all, slow, |slow|, msg)
    {
      hide *;
      for j := 0 to |slow|
        invariant Evicted(was, clients, all, slow, j, msg)
      {
        EvictedNext(was, clients, all, slow, j, msg);
        EvictedMember(was, clients, all, slow, j, msg);
        MemberOpen(was, slow[j]);
        clients := clients - {slow[j]};
        CloseSend(slow[j]);
      }
    }

    method Broadcast(msg: Message)
      requires Valid() && running
      modifies this
      ensures Valid() && Abs() == Apply(old(Abs()), Step.Broadcast(msg))
    {
      hide Inv, Apply, HalfServed, Evicted;
      ghost var was := Abs();
      BroadcastKeeps(was, msg);
      var slow := Offer(msg);
      ServedAll(was, all, slow, msg);
      Evict(slow, was, msg);
      EvictedAll(was, clients, all, slow, msg);
      processed := processed + [msg];
    }

    method Stop()
      modifies `stopping
      ensures Abs() == Apply(old(Abs()), Step.Stop)
    {
      stopping := true;
    }

    /** The end of Run. */
    method Shutdown()
      requires Valid() && running && stopping
      modifies this
      ensures Valid() && Abs() == Apply(old(Abs()), Step.Shutdown)
    {
      ghost var was := Abs();
      RemovalKeeps(was, Step.Shutdown);
      assert HalfShut(was, clients, all);
      hide *;
      while clients != {}
        invariant processed == was.processed && stopping == was.stopping && running == was.running
        invariant HalfShut(was, clients, all) && clients <= was.clients && |all| == |was.all|
        decreases |clients|
      {
        var c: nat :| c in clients;
        MemberOpen(was, c);
        HalfShutNext(was, clients, all, c);
        CloseSend(c);
        clients := clients - {c};
      }
      ShutAll(was, all);
      running := false;
    }
  }
}
