/** Requests to the NCP and their replies, matched by an 8-bit transaction sequence number that wraps. */
module Requests {
  import opened Bytes
  import opened Outcomes
  import opened Runs

  /** A call of request: it has its number, then its channel is in hlPending, then it has a result, then it is over. */
  datatype Phase = Numbered | Waiting | Returned | Over

  /**
    * One call since the last reset, known by its place in the order of numbers. inbox is its channel of capacity one,
    * holding a reply by the call it answers; got lists what the caller took out; open says that a reply to it, or a
    * repeat of one, can still arrive.
    */
  datatype Call = Call(phase: Phase, inbox: Option<nat>, got: seq<nat>, open: bool)

  /** What the read loop does with a response: nothing, or carrying one to a channel it has looked up. */
  datatype Reader = Idle | Carrying(reply: nat, channel: nat)

  datatype State = State(calls: seq<Call>, pending: map<byte, nat>, reader: Reader)

  const INIT: State := State([], map[], Idle)

  /** The number of the k-th call: a counter's low byte, incremented before use. */
  function Tsn(k: nat): byte {
    ((k + 1) % 256) as byte
  }

  datatype Step =
    | Start
    | Register(k: nat)
    | Lookup(k: nat)
    | Send
    | Receive(k: nat)
    | GiveUp(k: nat)
    | Delete(k: nat)
    | Expire(k: nat)

  predicate In(s: State, k: nat, phase: Phase) {
    k < |s.calls| && s.calls[k].phase == phase
  }

  predicate Enabled(s: State, step: Step) {
    match step
    case Start => true
    case Register(k) => In(s, k, Numbered)
    case Lookup(k) => s.reader.Idle? && k < |s.calls| && s.calls[k].open
    case Send => s.reader.Carrying? && s.reader.channel < |s.calls|
    case Receive(k) => In(s, k, Waiting) && s.calls[k].inbox.Some?
    case GiveUp(k) => In(s, k, Waiting)
    case Delete(k) => In(s, k, Returned)
    case Expire(k) => k < |s.calls|
  }

  function Apply(s: State, step: Step): State
    requires Enabled(s, step)
  {
    match step
    case Start => s.(calls := s.calls + [Call(Numbered, None, [], true)])
    case Register(k) => s.(calls := s.calls[k := s.calls[k].(phase := Waiting)], pending := s.pending[Tsn(k) := k])
    case Lookup(k) => if Tsn(k) in s.pending then s.(reader := Carrying(k, s.pending[Tsn(k)])) else s
    case Send =>
      var ch := s.reader.channel;
      if s.calls[ch].inbox.Some? then s.(reader := Idle)
      else s.(calls := s.calls[ch := s.calls[ch].(inbox := Some(s.reader.reply))], reader := Idle)
    case Receive(k) =>
      var c := s.calls[k];
      s.(calls := s.calls[k := c.(phase := Returned, inbox := None, got := c.got + [c.inbox.value])])
    case GiveUp(k) => s.(calls := s.calls[k := s.calls[k].(phase := Returned)])
    case Delete(k) => s.(calls := s.calls[k := s.calls[k].(phase := Over)], pending := s.pending - {Tsn(k)})
    case Expire(k) => s.(calls := s.calls[k := s.calls[k].(open := false)])
  }

  /** The call is in flight, or a reply to it can still arrive or is being delivered. */
  predicate Alive(s: State, k: nat)
    requires k < |s.calls|
  {
    !s.calls[k].phase.Over? || s.calls[k].open || (s.reader.Carrying? && s.reader.reply == k)
  }

  /** A call starts only when fewer than 256 have started since any call that is still alive. */
  predicate Polite(s: State, step: Step) {
    step.Start? ==> forall k | 0 <= k < |s.calls| && Alive(s, k) :: |s.calls| - k < 256
  }

  predicate Allowed(s: State, step: Step) {
    Enabled(s, step) && Polite(s, step)
  }

  function Next(s: State, step: Step): State {
    if Enabled(s, step) then Apply(s, step) else s
  }

  /** Some run since the reset in which every step is polite leads to this state. */
  ghost predicate Reached(s: State) {
    Reachable(Allowed, Next, INIT, s)
  }

  // The invariant

  predicate Registered(c: Call) {
    c.phase.Waiting? || c.phase.Returned?
  }

  /** hlPending maps exactly the numbers of the calls in flight, each to its own channel. */
  predicate PendingExact(s: State) {
    && (forall t | t in s.pending ::
          var k := s.pending[t]; k < |s.calls| && Registered(s.calls[k]) && Tsn(k) == t)
    && (forall k | 0 <= k < |s.calls| && Registered(s.calls[k]) :: Tsn(k) in s.pending && s.pending[Tsn(k)] == k)
  }

  predicate CallOk(s: State, k: nat)
    requires k < |s.calls|
  {
    var c := s.calls[k];
    && (Alive(s, k) ==> |s.calls| - k <= 256)
    && (c.inbox.Some? ==> c.inbox.value == k)
    && c.got == (if c.got == [] then [] else [k])
    && (c.phase.Numbered? || c.phase.Waiting? ==> c.got == [])
  }

  predicate Inv(s: State) {
    && PendingExact(s)
    && (forall k | 0 <= k < |s.calls| :: CallOk(s, k))
    && (s.reader.Carrying? ==> s.reader.channel == s.reader.reply < |s.calls|)
  }

  lemma TsnDistinct(j: nat, k: nat)
    requires j < k < j + 256
    ensures Tsn(j) != Tsn(k)
  {
  }

  /** Two calls that are both alive have different numbers. */
  lemma AliveDistinct(s: State, j: nat, k: nat)
    requires Inv(s) && j < |s.calls| && k < |s.calls| && Alive(s, j) && Alive(s, k) && Tsn(j) == Tsn(k)
    ensures j == k
  {
    assert CallOk(s, j) && CallOk(s, k);
    if j < k { TsnDistinct(j, k); }
    if k < j { TsnDistinct(k, j); }
  }

  lemma StartKeeps(s: State)
    requires Inv(s) && Polite(s, Start)
    ensures Inv(Apply(s, Start))
  {
    var t := Apply(s, Start);
    forall k | 0 <= k < |t.calls| ensures CallOk(t, k) {
      if k < |s.calls| { assert CallOk(s, k) && Alive(t, k) == Alive(s, k); }
    }
  }

  /** A step that leaves the map and the reader alone keeps the invariant if it keeps it of its own call. */
  lemma OneCallKeeps(s: State, k: nat, c: Call)
    requires Inv(s) && k < |s.calls| && Registered(c) == Registered(s.calls[k])
    requires (!c.phase.Over? || c.open) ==> Alive(s, k)
    requires c.inbox.Some? ==> c.inbox.value == k
    requires c.got == (if c.got == [] then [] else [k])
    requires c.phase.Numbered? || c.phase.Waiting? ==> c.got == []
    ensures Inv(s.(calls := s.calls[k := c]))
  {
    var t := s.(calls := s.calls[k := c]);
    forall j | 0 <= j < |t.calls| ensures CallOk(t, j) { assert CallOk(s, j); }
  }

  lemma RegisterKeeps(s: State, k: nat)
    requires Inv(s) && Enabled(s, Register(k))
    ensures Inv(Apply(s, Register(k)))
  {
    var t := Apply(s, Register(k));
    forall j | 0 <= j < |t.calls| ensures CallOk(t, j) { assert CallOk(s, j); }
    forall j | 0 <= j < |t.calls| && Registered(t.calls[j]) ensures Tsn(j) in t.pending && t.pending[Tsn(j)] == j {
      if Tsn(j) == Tsn(k) { AliveDistinct(s, j, k); }
    }
  }

  lemma DeleteKeeps(s: State, k: nat)
    requires Inv(s) && Enabled(s, Delete(k))
    ensures Inv(Apply(s, Delete(k)))
    ensures Apply(s, Delete(k)).pending == map t | t in s.pending && s.pending[t] != k :: s.pending[t]
  {
    var t := Apply(s, Delete(k));
    forall j | 0 <= j < |t.calls| ensures CallOk(t, j) { assert CallOk(s, j); }
  }

  lemma LookupKeeps(s: State, k: nat)
    requires Inv(s) && Enabled(s, Lookup(k))
    ensures Inv(Apply(s, Lookup(k)))
  {
    var t := Apply(s, Lookup(k));
    if Tsn(k) in s.pending {
      AliveDistinct(s, k, s.pending[Tsn(k)]);
    }
    forall j | 0 <= j < |t.calls| ensures CallOk(t, j) { assert CallOk(s, j); }
  }

  lemma SendKeeps(s: State)
    requires Inv(s) && Enabled(s, Send)
    ensures Inv(Apply(s, Send))
  {
    var t := Apply(s, Send);
    forall j | 0 <= j < |t.calls| ensures CallOk(t, j) { assert CallOk(s, j); }
  }

  lemma InvStep(s: State, step: Step)
    requires Inv(s) && Enabled(s, step) && Polite(s, step)
    ensures Inv(Apply(s, step))
  {
    match step
    case Start => StartKeeps(s);
    case Register(k) => RegisterKeeps(s, k);
    case Lookup(k) => LookupKeeps(s, k);
    case Send => SendKeeps(s);
    case Receive(k) =>
      var c := s.calls[k];
      assert CallOk(s, k);
      OneCallKeeps(s, k, c.(phase := Returned, inbox := None, got := c.got + [c.inbox.value]));
    case GiveUp(k) =>
      assert CallOk(s, k);
      OneCallKeeps(s, k, s.calls[k].(phase := Returned));
    case Delete(k) => DeleteKeeps(s, k);
    case Expire(k) =>
      assert CallOk(s, k);
      OneCallKeeps(s, k, s.calls[k].(open := false));
  }

  lemma InvReached(s: State)
    requires Reached(s)
    ensures Inv(s)
  {
    forall s, step | Inv(s) && Allowed(s, step) ensures Inv(Next(s, step)) {
      InvStep(s, step);
    }
    Invariant(Allowed, Next, Inv, INIT, s);
  }

  /**
    * At any moment of any run the pending table holds exactly the calls in flight, each under its own number, and
    * what a caller has received is at most one reply, to its own request.
    */
  lemma RepliesMatchRequests(s: State, k: nat)
    requires Reached(s) && k < |s.calls|
    ensures Registered(s.calls[k]) <==> exists t :: t in s.pending && s.pending[t] == k
    ensures Registered(s.calls[k]) ==> Tsn(k) in s.pending && s.pending[Tsn(k)] == k
    ensures s.calls[k].got == [] || s.calls[k].got == [k]
  {
    InvReached(s);
    assert CallOk(s, k);
  }

  /** The deferred delete, which names only the number, takes out the caller's own entry and no other. */
  lemma DeleteRemovesOwn(s: State, k: nat)
    requires Reached(s) && Enabled(s, Delete(k))
    ensures Apply(s, Delete(k)).pending == map t | t in s.pending && s.pending[t] != k :: s.pending[t]
  {
    InvReached(s);
    DeleteKeeps(s, k);
  }

  /** Numbers count from 1 and wrap to 0 after 255. */
  lemma NumbersWrap(k: nat)
    ensures Tsn(0) == 1 && Tsn(254) == 255 && Tsn(255) == 0
    ensures Tsn(k + 256) == Tsn(k) && (Tsn(k) != 255 ==> Tsn(k + 1) as nat == Tsn(k) as nat + 1)
  {
  }

  /** A reply that comes in time is received by the caller that waits for it. */
  lemma ReplyInTimeIsReceived(s: State, k: nat) returns (t: State)
    requires Reached(s) && s.reader.Idle? && In(s, k, Waiting) && s.calls[k].open && s.calls[k].inbox.None?
    ensures Reachable(Enabled, Next, s, t) && In(t, k, Returned) && t.calls[k].got == [k]
  {
    InvReached(s);
    assert CallOk(s, k);
    t := LateReplyAnswersWrongCall(s, k, k);
  }

  // What fails without the premise

  /** Reachable without any premise. */
  ghost predicate Possible(s: State) {
    Reachable(Enabled, Next, INIT, s)
  }

  lemma Then(s: State, step: Step)
    requires Possible(s) && Enabled(s, step)
    ensures Possible(Apply(s, step))
  {
    Further(Enabled, Next, INIT, s, step);
  }

  const FRESH: Call := Call(Numbered, None, [], true)

  lemma {:induction false} ManyStarts(s: State, n: nat)
    requires Possible(s)
    ensures Possible(s.(calls := s.calls + seq(n, _ => FRESH)))
    decreases n
  {
    if n == 0 {
      assert s.calls + seq(n, _ => FRESH) == s.calls;
    } else {
      Then(s, Start);
      ManyStarts(Apply(s, Start), n - 1);
      assert s.calls + [FRESH] + seq(n - 1, _ => FRESH) == s.calls + seq(n, _ => FRESH);
    }
  }

  lemma FirstCallGivesUp()
    ensures Possible(State([Call(Over, None, [], true)], map[], Idle))
  {
    Here(Enabled, Next, INIT);
    Then(INIT, Start);
    var s := State([FRESH], map[], Idle);
    Then(s, Register(0));
    Then(State([FRESH.(phase := Waiting)], map[Tsn(0) := 0], Idle), GiveUp(0));
    Then(State([FRESH.(phase := Returned)], map[Tsn(0) := 0], Idle), Delete(0));
    assert Apply(State([FRESH.(phase := Returned)], map[Tsn(0) := 0], Idle), Delete(0)).pending == map[];
  }

  /**
    * From every state: a reply that can still arrive is put in a call's channel exactly when the call has the reply's
    * number in the table and its channel is empty. Whose reply it is does not matter.
    */
  lemma ReplyGoesByNumber(s: State, j: nat, k: nat)
    requires s.reader.Idle? && j < |s.calls| && s.calls[j].open && k < |s.calls| && s.calls[k].inbox.None?
    requires forall t | t in s.pending :: s.pending[t] < |s.calls|
    ensures Next(Next(s, Lookup(j)), Send).calls[k].inbox == (
              if Tsn(j) in s.pending && s.pending[Tsn(j)] == k then Some(j) else None)
  {
  }

  /** A channel that has a reply keeps it, the later one is dropped, and no other call notices. */
  lemma SendKeepsFirst(s: State)
    requires Enabled(s, Send)
    ensures var t := Next(s, Send);
      var ch := s.reader.channel;
      && t.reader.Idle? && t.pending == s.pending && |t.calls| == |s.calls|
      && t.calls[ch].inbox == (if s.calls[ch].inbox.Some? then s.calls[ch].inbox else Some(s.reader.reply))
      && forall k | 0 <= k < |s.calls| && k != ch :: t.calls[k] == s.calls[k]
  {
  }

  lemma TakeStep(from: State, s: State, step: Step) returns (t: State)
    requires Inv(s) && Reachable(Allowed, Next, from, s) && Enabled(s, step) && !step.Start?
    ensures t == Next(s, step) && Inv(t) && Reachable(Allowed, Next, from, t)
  {
    InvStep(s, step);
    Further(Allowed, Next, from, s, step);
    t := Next(s, step);
  }

  /** The section a call comes to next, replied to or not. */
  function NextSection(k: nat, phase: Phase): Step {
    match phase
    case Numbered => Register(k)
    case Waiting => GiveUp(k)
    case _ => Delete(k)
  }

  function Ahead(phase: Phase): nat {
    match phase case Numbered => 3 case Waiting => 2 case Returned => 1 case Over => 0
  }

  lemma {:induction false} CallGoesOn(from: State, s: State, k: nat) returns (t: State)
    requires Inv(s) && Reachable(Allowed, Next, from, s) && k < |s.calls|
    ensures Inv(t) && Reachable(Allowed, Next, from, t) && In(t, k, Over)
    ensures t.calls[k].open == s.calls[k].open && t.reader == s.reader
    decreases Ahead(s.calls[k].phase)
  {
    t := s;
    if !s.calls[k].phase.Over? {
      hide Inv, Reachable;
      t := TakeStep(from, s, NextSection(k, s.calls[k].phase));
      t := CallGoesOn(from, t, k);
    }
  }

  /** Every call can give up and end whatever it waits for, and then its number no longer means it. */
  lemma CallCanEnd(s: State, k: nat) returns (t: State)
    requires Reached(s) && k < |s.calls|
    ensures Reachable(Allowed, Next, s, t) && In(t, k, Over) && !Alive(t, k)
    ensures forall n | n in t.pending :: t.pending[n] != k
  {
    InvReached(s);
    Here(Allowed, Next, s);
    t := CallGoesOn(s, s, k);
    hide Inv, Reached, Reachable, Possible;
    if t.reader.Carrying? {
      SendIsPossible(t);
      t := TakeStep(s, t, Send);
    }
    t := TakeStep(s, t, Expire(k));
    OverIsForgotten(t, k);
  }

  lemma SendIsPossible(s: State)
    requires Inv(s) && s.reader.Carrying?
    ensures Enabled(s, Send)
  {
  }

  lemma OverIsForgotten(s: State, k: nat)
    requires Inv(s) && In(s, k, Over)
    ensures forall n | n in s.pending :: s.pending[n] != k
  {
  }

  /** So any late reply whose number a waiting call has by then can become that call's answer. */
  lemma LateReplyAnswersWrongCall(s: State, j: nat, k: nat) returns (t: State)
    requires s.reader.Idle? && j < |s.calls| && s.calls[j].open
    requires In(s, k, Waiting) && s.calls[k].inbox.None? && Tsn(j) in s.pending && s.pending[Tsn(j)] == k
    ensures Reachable(Enabled, Next, s, t)
    ensures In(t, k, Returned) && t.calls[k].got == s.calls[k].got + [j]
  {
    Here(Enabled, Next, s);
    Further(Enabled, Next, s, s, Lookup(j));
    var s1 := Next(s, Lookup(j));
    Further(Enabled, Next, s, s1, Send);
    var s2 := Next(s1, Send);
    Further(Enabled, Next, s, s2, Receive(k));
    t := Next(s2, Receive(k));
  }

  /** That happens: the first call's number comes back after 256 more starts. */
  lemma NumberComesBack() returns (s: State)
    ensures Possible(s) && s.reader.Idle? && |s.calls| == 257 && s.calls[0].open
    ensures In(s, 256, Waiting) && s.calls[256].inbox.None? && Tsn(0) in s.pending && s.pending[Tsn(0)] == 256
  {
    FirstCallGivesUp();
    s := State([Call(Over, None, [], true)], map[], Idle);
    ManyStarts(s, 256);
    s := s.(calls := s.calls + seq(256, _ => FRESH));
    Then(s, Register(256));
    s := Apply(s, Register(256));
    assert Tsn(256) == Tsn(0);
  }

  /** The fields of the NCP that requests share, with the channels made so far and the read loop's position. */
  class RequestTable {
    var hlTSN: nat
    var hlPending: map<byte, nat>
    var calls: seq<Call>
    var reader: Reader

    constructor ()
      ensures Valid() && Abs() == INIT
    {
      hlTSN, hlPending, calls, reader := 0, map[], [], Idle;
    }

    predicate Valid()
      reads this
    {
      hlTSN == |calls|
    }

    function Abs(): State
      reads this
    {
      State(calls, hlPending, reader)
    }

    /** nextTSN, and the channel request makes. */
    method NextTsn() returns (tsn: byte)
      requires Valid()
      modifies this
      ensures Valid() && Abs() == Apply(old(Abs()), Start) && tsn == Tsn(|old(calls)|)
    {
      hlTSN := hlTSN + 1;
      tsn := (hlTSN % 256) as byte;
      calls := calls + [Call(Numbered, None, [], true)];
    }

    method Register(k: nat)
      requires Valid() && Enabled(Abs(), Step.Register(k))
      modifies this
      ensures Valid() && Abs() == Apply(old(Abs()), Step.Register(k))
    {
      hlPending := hlPending[Tsn(k) := k];
      calls := calls[k := calls[k].(phase := Waiting)];
    }

    /** The read loop on a response frame: the sequence number in the frame is all that picks the channel. */
    method Lookup(tsn: byte, reply: nat) returns (found: bool)
      requires Valid() && Enabled(Abs(), Step.Lookup(reply)) && tsn == Tsn(reply)
      modifies this
      ensures Valid() && Abs() == Apply(old(Abs()), Step.Lookup(reply)) && found == (tsn in hlPending)
    {
      found := tsn in hlPending;
      if found {
        reader := Carrying(reply, hlPending[tsn]);
      }
    }

    /** The send that never blocks: a channel that is full keeps what it has. */
    method Send() returns (sent: bool)
      requires Valid() && Enabled(Abs(), Step.Send)
      modifies this
      ensures Valid() && Abs() == Apply(old(Abs()), Step.Send)
      ensures sent == old(calls)[old(reader).channel].inbox.None?
    {
      var ch := reader.channel;
      sent := calls[ch].inbox.None?;
      if sent {
        calls := calls[ch := calls[ch].(inbox := Some(reader.reply))];
      }
      reader := Idle;
    }

    /** The deferred function of request. */
    method Delete(k: nat)
      requires Valid() && Enabled(Abs(), Step.Delete(k))
      modifies this
      ensures Valid() && Abs() == Apply(old(Abs()), Step.Delete(k))
    {
      hlPending := hlPending - {Tsn(k)};
      calls := calls[k := calls[k].(phase := Over)];
    }
  }
}
