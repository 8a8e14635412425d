/** Device interviews: one goroutine each, tagged with a generation, at most one live per device. */
module Interviews {
  import opened Runs

  type Ieee = string

  /**
    * Where a goroutine running Interview stands. Numbered: it has taken its generation and made its context.
    * Registered: its entry went into the map. Returned: its own deferred cancel has run. Finished: so has the
    * deferred cleanup.
    */
  datatype Phase = Spawned | Numbered | Registered | Returned | Finished

  datatype Interview = Interview(ieee: Ieee, gen: nat, phase: Phase, cancelled: bool)

  /** An entry of interviewCancels: whose context its cancel function cancels, and the generation tag. */
  datatype Entry = Entry(owner: nat, gen: nat)

  /** The generation counter, the map, every interview ever spawned, and whether the coordinator has stopped. */
  datatype State = State(gen: nat, cancels: map<Ieee, Entry>, runs: seq<Interview>, stopped: bool)

  const INIT: State := State(0, map[], [], false)

  datatype Step =
    | Spawn(ieee: Ieee)
    | TakeGen(i: nat)
    | Register(i: nat)
    | Expire(i: nat)
    | Return(i: nat)
    | Cleanup(i: nat)
    | Cancel(ieee: Ieee)
    | Stop
    | CancelAll

  function SetCancelled(runs: seq<Interview>, i: nat): (r: seq<Interview>)
    requires i < |runs|
    ensures |r| == |runs|
  {
    runs[i := runs[i].(cancelled := true)]
  }

  /** Cancels the context an entry of the map belongs to. */
  function CancelEntry(s: State, ieee: Ieee): seq<Interview>
    requires ieee in s.cancels && s.cancels[ieee].owner < |s.runs|
  {
    SetCancelled(s.runs, s.cancels[ieee].owner)
  }

  predicate Enabled(s: State, step: Step) {
    match step
    case TakeGen(i) => i < |s.runs| && s.runs[i].phase.Spawned?
    case Register(i) => i < |s.runs| && s.runs[i].phase.Numbered?
    case Expire(i) => i < |s.runs| && (s.runs[i].phase.Numbered? || s.runs[i].phase.Registered?)
    case Return(i) => i < |s.runs| && s.runs[i].phase.Registered?
    case Cleanup(i) => i < |s.runs| && s.runs[i].phase.Returned?
    case _ => true
  }

  /** Every entry of the map names an interview. */
  predicate OwnersExist(s: State) {
    forall ieee | ieee in s.cancels :: s.cancels[ieee].owner < |s.runs|
  }

  predicate Owned(s: State, i: nat) {
    exists ieee :: ieee in s.cancels && s.cancels[ieee].owner == i
  }

  function Apply(s: State, step: Step): State
    requires OwnersExist(s) && Enabled(s, step)
  {
    match step
    case Spawn(ieee) => s.(runs := s.runs + [Interview(ieee, 0, Spawned, false)])
    case TakeGen(i) =>
      s.(gen := s.gen + 1,
         runs := s.runs[i := s.runs[i].(gen := s.gen + 1, phase := Numbered, cancelled := s.stopped)])
    case Register(i) =>
      var r := s.runs[i];
      var runs := if r.ieee in s.cancels then CancelEntry(s, r.ieee) else s.runs;
      s.(cancels := s.cancels[r.ieee := Entry(i, r.gen)], runs := runs[i := runs[i].(phase := Registered)])
    case Expire(i) => s.(runs := SetCancelled(s.runs, i))
    case Return(i) => s.(runs := s.runs[i := s.runs[i].(phase := Returned, cancelled := true)])
    case Cleanup(i) =>
      var r := s.runs[i];
      var mine := r.ieee in s.cancels && s.cancels[r.ieee].gen == r.gen;
      s.(cancels := if mine then s.cancels - {r.ieee} else s.cancels, runs := s.runs[i := r.(phase := Finished)])
    case Cancel(ieee) =>
      if ieee in s.cancels then s.(runs := CancelEntry(s, ieee), cancels := s.cancels - {ieee}) else s
    case Stop =>
      s.(stopped := true, runs := seq(|s.runs|, i requires 0 <= i < |s.runs| => s.runs[i].(cancelled := true)))
    case CancelAll =>
      s.(cancels := map[], runs := seq(|s.runs|, i requires 0 <= i < |s.runs| =>
        if Owned(s, i) then s.runs[i].(cancelled := true) else s.runs[i]))
  }

  predicate Can(s: State, step: Step) {
    OwnersExist(s) && Enabled(s, step)
  }

  function Next(s: State, step: Step): State {
    if Can(s, step) then Apply(s, step) else s
  }

  /** Some interleaving of interviews, announces, leaves, removals and stops leads to this state. */
  ghost predicate Reached(s: State) {
    Reachable(Enabled, Next, INIT, s)
  }

  // The invariant

  predicate HasGen(r: Interview) {
    !r.phase.Spawned?
  }

  predicate GensUnique(s: State) {
    && (forall i | 0 <= i < |s.runs| && HasGen(s.runs[i]) :: s.runs[i].gen <= s.gen)
    && (forall i, j | 0 <= i < j < |s.runs| && HasGen(s.runs[i]) && HasGen(s.runs[j]) ::
          s.runs[i].gen != s.runs[j].gen)
  }

  /** An entry belongs to an interview of its device that has registered and not finished. */
  predicate EntryOk(s: State, ieee: Ieee)
    requires ieee in s.cancels
  {
    var e := s.cancels[ieee];
    && e.owner < |s.runs|
    && s.runs[e.owner].ieee == ieee && s.runs[e.owner].gen == e.gen
    && (s.runs[e.owner].phase.Registered? || s.runs[e.owner].phase.Returned?)
  }

  predicate Live(r: Interview) {
    r.phase.Registered? && !r.cancelled
  }

  predicate LiveIsEntered(s: State, i: nat)
    requires i < |s.runs|
  {
    Live(s.runs[i]) ==> s.runs[i].ieee in s.cancels && s.cancels[s.runs[i].ieee].owner == i
  }

  /** What holds of each interview by itself. */
  predicate RunOk(s: State, i: nat)
    requires i < |s.runs|
  {
    && (HasGen(s.runs[i]) ==> s.runs[i].gen <= s.gen)
    && LiveIsEntered(s, i)
    && (s.runs[i].phase.Returned? || s.runs[i].phase.Finished? ==> s.runs[i].cancelled)
    && (s.stopped ==> !Live(s.runs[i]) && (s.runs[i].phase.Numbered? ==> s.runs[i].cancelled))
  }

  predicate Inv(s: State) {
    && GensUnique(s)
    && (forall ieee | ieee in s.cancels :: EntryOk(s, ieee))
    && (forall i | 0 <= i < |s.runs| :: RunOk(s, i))
  }

  lemma InvOwners(s: State)
    requires Inv(s)
    ensures OwnersExist(s)
  {
    assert forall ieee | ieee in s.cancels :: EntryOk(s, ieee);
  }

  lemma SpawnKeeps(s: State, ieee: Ieee)
    requires Inv(s) && OwnersExist(s)
    ensures Inv(Apply(s, Spawn(ieee)))
  {
    var t := Apply(s, Spawn(ieee));
    forall k | k in t.cancels ensures EntryOk(t, k) { assert EntryOk(s, k); }
    forall i | 0 <= i < |t.runs| ensures RunOk(t, i) {
      if i < |s.runs| { assert RunOk(s, i); }
    }
  }

  lemma TakeGenKeeps(s: State, i: nat)
    requires Inv(s) && OwnersExist(s) && Enabled(s, TakeGen(i))
    ensures Inv(Apply(s, TakeGen(i)))
  {
    var t := Apply(s, TakeGen(i));
    forall j | 0 <= j < |t.runs| ensures RunOk(t, j) { assert RunOk(s, j); }
    forall k | k in t.cancels ensures EntryOk(t, k) { assert EntryOk(s, k); }
  }

  lemma RegisterRun(s: State, i: nat, j: nat)
    requires Inv(s) && OwnersExist(s) && Enabled(s, Register(i)) && j < |s.runs|
    ensures RunOk(Apply(s, Register(i)), j)
    ensures Apply(s, Register(i)).runs[j].gen == s.runs[j].gen
    ensures HasGen(Apply(s, Register(i)).runs[j]) == HasGen(s.runs[j])
  {
    assert RunOk(s, j);
  }

  lemma RegisterEntry(s: State, i: nat, k: Ieee)
    requires Inv(s) && OwnersExist(s) && Enabled(s, Register(i)) && k in Apply(s, Register(i)).cancels
    ensures EntryOk(Apply(s, Register(i)), k)
  {
    if k != s.runs[i].ieee { assert EntryOk(s, k); }
  }

  lemma RegisterKeeps(s: State, i: nat)
    requires Inv(s) && OwnersExist(s) && Enabled(s, Register(i))
    ensures Inv(Apply(s, Register(i)))
  {
    var t := Apply(s, Register(i));
    assert |t.runs| == |s.runs| && t.gen == s.gen;
    hide Apply, EntryOk, RunOk;
    forall j: nat | j < |t.runs|
      ensures RunOk(t, j) && t.runs[j].gen == s.runs[j].gen && HasGen(t.runs[j]) == HasGen(s.runs[j])
    {
      RegisterRun(s, i, j);
    }
    forall k | k in t.cancels ensures EntryOk(t, k) { RegisterEntry(s, i, k); }
  }

  lemma ReturnKeeps(s: State, i: nat)
    requires Inv(s) && OwnersExist(s) && Enabled(s, Return(i))
    ensures Inv(Apply(s, Return(i)))
  {
    var t := Apply(s, Return(i));
    forall j | 0 <= j < |t.runs| ensures RunOk(t, j) { assert RunOk(s, j); }
    forall k | k in t.cancels ensures EntryOk(t, k) { assert EntryOk(s, k); }
  }

  lemma CleanupKeeps(s: State, i: nat)
    requires Inv(s) && OwnersExist(s) && Enabled(s, Cleanup(i))
    ensures Inv(Apply(s, Cleanup(i)))
  {
    var t := Apply(s, Cleanup(i));
    forall j | 0 <= j < |t.runs| ensures RunOk(t, j) {
      assert RunOk(s, j);
      if Live(s.runs[j]) { assert EntryOk(s, s.runs[j].ieee); }
    }
    forall k | k in t.cancels ensures EntryOk(t, k) { assert EntryOk(s, k); }
  }

  lemma CancelKeeps(s: State, ieee: Ieee)
    requires Inv(s) && OwnersExist(s)
    ensures Inv(Apply(s, Cancel(ieee)))
  {
    var t := Apply(s, Cancel(ieee));
    forall j | 0 <= j < |t.runs| ensures RunOk(t, j) { assert RunOk(s, j); }
    forall k | k in t.cancels ensures EntryOk(t, k) { assert EntryOk(s, k); }
  }

  lemma ExpireKeeps(s: State, i: nat)
    requires Inv(s) && OwnersExist(s) && Enabled(s, Expire(i))
    ensures Inv(Apply(s, Expire(i)))
  {
    var t := Apply(s, Expire(i));
    forall j | 0 <= j < |t.runs| ensures RunOk(t, j) { assert RunOk(s, j); }
    forall k | k in t.cancels ensures EntryOk(t, k) { assert EntryOk(s, k); }
  }

  lemma StopKeeps(s: State)
    requires Inv(s) && OwnersExist(s)
    ensures Inv(Apply(s, Stop))
  {
    var t := Apply(s, Stop);
    forall j | 0 <= j < |t.runs| ensures RunOk(t, j) { assert RunOk(s, j); }
    forall k | k in t.cancels ensures EntryOk(t, k) { assert EntryOk(s, k); }
  }

  lemma CancelAllKeeps(s: State)
    requires Inv(s) && OwnersExist(s)
    ensures Inv(Apply(s, CancelAll))
    ensures forall i | 0 <= i < |s.runs| :: !Live(Apply(s, CancelAll).runs[i])
  {
    var t := Apply(s, CancelAll);
    forall j | 0 <= j < |t.runs| ensures RunOk(t, j) && !Live(t.runs[j]) {
      assert RunOk(s, j);
      if Live(s.runs[j]) { assert s.runs[j].ieee in s.cancels && Owned(s, j); }
    }
  }

  lemma InvStep(s: State, step: Step)
    requires Inv(s) && Enabled(s, step)
    ensures OwnersExist(s) && Inv(Apply(s, step))
  {
    InvOwners(s);
    match step
    case Spawn(ieee) => SpawnKeeps(s, ieee);
    case TakeGen(i) => TakeGenKeeps(s, i);
    case Register(i) => RegisterKeeps(s, i);
    case Expire(i) => ExpireKeeps(s, i);
    case Return(i) => ReturnKeeps(s, i);
    case Cleanup(i) => CleanupKeeps(s, i);
    case Cancel(ieee) => CancelKeeps(s, ieee);
    case Stop => StopKeeps(s);
    case CancelAll => CancelAllKeeps(s);
  }

  lemma InvLater(s: State, t: State)
    requires Inv(s) && Reachable(Enabled, Next, s, t)
    ensures Inv(t) && OwnersExist(t)
  {
    forall s, step | Inv(s) && Enabled(s, step) ensures Inv(Next(s, step)) {
      InvStep(s, step);
    }
    Invariant(Enabled, Next, Inv, s, t);
    InvOwners(t);
  }

  lemma InvReached(s: State)
    requires Reached(s)
    ensures Inv(s) && OwnersExist(s)
  {
    InvLater(INIT, s);
  }

  /**
    * In every interleaving: two running uncancelled interviews of one device are the same one, the map holds exactly
    * that one with its generation, and no entry outlives its interview.
    */
  lemma AtMostOneLive(s: State)
    requires Reached(s)
    ensures forall i, j | 0 <= i < |s.runs| && 0 <= j < |s.runs| && Live(s.runs[i]) && Live(s.runs[j]) ::
              s.runs[i].ieee == s.runs[j].ieee ==> i == j
    ensures forall i | 0 <= i < |s.runs| && Live(s.runs[i]) ::
              s.runs[i].ieee in s.cancels && s.cancels[s.runs[i].ieee] == Entry(i, s.runs[i].gen)
    ensures forall ieee | ieee in s.cancels ::
              && s.cancels[ieee].owner < |s.runs|
              && s.runs[s.cancels[ieee].owner].ieee == ieee
              && !s.runs[s.cancels[ieee].owner].phase.Finished?
  {
    InvReached(s);
    forall i | 0 <= i < |s.runs| && Live(s.runs[i])
      ensures s.runs[i].ieee in s.cancels && s.cancels[s.runs[i].ieee] == Entry(i, s.runs[i].gen)
    {
      assert RunOk(s, i);
      assert EntryOk(s, s.runs[i].ieee);
    }
    forall ieee | ieee in s.cancels ensures EntryOk(s, ieee) {}
  }

  /** The deferred cleanup, which compares generations only, removes an entry exactly when that entry is its own. */
  lemma CleanupRemovesOwnOnly(s: State, i: nat)
    requires Reached(s) && Enabled(s, Cleanup(i))
    ensures OwnersExist(s)
    ensures var ieee := s.runs[i].ieee;
      Apply(s, Cleanup(i)).cancels
        == if ieee in s.cancels && s.cancels[ieee].owner == i then s.cancels - {ieee} else s.cancels
  {
    InvReached(s);
    if s.runs[i].ieee in s.cancels { assert EntryOk(s, s.runs[i].ieee); }
  }

  /** An entry goes away only when its interview is over, or with its interview's context cancelled. */
  lemma NoEntryLost(s: State, step: Step, ieee: Ieee)
    requires Reached(s) && Can(s, step) && ieee in s.cancels
    requires ieee !in Apply(s, step).cancels || Apply(s, step).cancels[ieee] != s.cancels[ieee]
    ensures Apply(s, step).runs[s.cancels[ieee].owner].cancelled
    ensures step == Cleanup(s.cancels[ieee].owner) || step == Cancel(ieee) || step == CancelAll
      || (step.Register? && s.runs[step.i].ieee == ieee)
  {
    InvReached(s);
    var owner := s.cancels[ieee].owner;
    assert EntryOk(s, ieee);
    match step
    case CancelAll => assert Owned(s, owner);
    case Cleanup(i) => assert s.runs[i].gen == s.runs[owner].gen && RunOk(s, i) && RunOk(s, owner);
    case _ =>
  }

  /** The interview has its context, and that is cancelled. */
  predicate Dead(s: State, i: nat) {
    i < |s.runs| && !s.runs[i].phase.Spawned? && s.runs[i].cancelled
  }

  lemma DeadStays(s: State, step: Step, i: nat)
    requires Can(s, step) && Dead(s, i)
    ensures Dead(Apply(s, step), i)
  {
  }

  /** Once cancelled, always cancelled: the check before the final save can only turn off. */
  lemma CancelledForever(s: State, t: State, i: nat)
    requires Reachable(Enabled, Next, s, t) && Dead(s, i)
    ensures Dead(t, i) && !Live(t.runs[i])
  {
    var inv := (s: State) => Dead(s, i);
    forall s, step | inv(s) && Enabled(s, step) ensures inv(Next(s, step)) {
      if Can(s, step) { DeadStays(s, step, i); }
    }
    Invariant(Enabled, Next, inv, s, t);
  }

  /**
    * A leave takes out its device's entry, cancelling the interview it belongs to, and touches no other entry and no
    * other interview: the next announce of the device finds none in the way.
    */
  lemma LeaveRemovesEntry(s: State, ieee: Ieee)
    requires Reached(s)
    ensures OwnersExist(s)
    ensures var t := Apply(s, Cancel(ieee));
      && ieee !in t.cancels
      && (forall k | k != ieee ::
            (k in t.cancels <==> k in s.cancels) && (k in s.cancels ==> t.cancels[k] == s.cancels[k]))
      && |t.runs| == |s.runs|
      && (forall i | 0 <= i < |s.runs| ::
            t.runs[i] == if ieee in s.cancels && s.cancels[ieee].owner == i then s.runs[i].(cancelled := true)
                         else s.runs[i])
  {
    InvReached(s);
  }

  /** Registering makes the interview its device's, and cancels the one that was. */
  lemma RegisterTakesOver(s: State, i: nat)
    requires Reached(s) && Enabled(s, Register(i))
    ensures OwnersExist(s)
    ensures var t := Apply(s, Register(i));
      var ieee := s.runs[i].ieee;
      && |t.runs| == |s.runs|
      && t.cancels == s.cancels[ieee := Entry(i, s.runs[i].gen)]
      && t.runs[i] == s.runs[i].(phase := Registered)
      && (forall j | 0 <= j < |s.runs| && j != i ::
            t.runs[j] == if ieee in s.cancels && s.cancels[ieee].owner == j then s.runs[j].(cancelled := true)
                         else s.runs[j])
  {
    InvReached(s);
    if s.runs[i].ieee in s.cancels { assert EntryOk(s, s.runs[i].ieee); }
  }

  /** After a leave, every interview of the device that had registered by then is dead for good. */
  lemma LeaveSilences(s: State, ieee: Ieee, t: State, i: nat)
    requires Reached(s) && i < |s.runs| && s.runs[i].ieee == ieee && s.runs[i].phase.Registered?
    requires Reachable(Enabled, Next, Next(s, Cancel(ieee)), t)
    ensures i < |t.runs| && !Live(t.runs[i])
  {
    InvReached(s);
    assert RunOk(s, i);
    CancelledForever(Next(s, Cancel(ieee)), t, i);
  }

  /** The interview can still register with a context that is not cancelled. */
  predicate Pending(s: State, i: nat)
    requires i < |s.runs|
  {
    !s.stopped && (s.runs[i].phase.Spawned? || (s.runs[i].phase.Numbered? && !s.runs[i].cancelled))
  }

  /** One that is pending takes its generation if it has none, registers, and is live. */
  lemma PendingComesAlive(s: State, i: nat) returns (t: State)
    requires Inv(s) && i < |s.runs| && Pending(s, i)
    ensures Reachable(Enabled, Next, s, t) && i < |t.runs| && Live(t.runs[i])
  {
    Here(Enabled, Next, s);
    var u := s;
    if s.runs[i].phase.Spawned? {
      InvStep(s, TakeGen(i));
      Further(Enabled, Next, s, s, TakeGen(i));
      u := Next(s, TakeGen(i));
    }
    InvStep(u, Register(i));
    if u.runs[i].ieee in u.cancels { assert EntryOk(u, u.runs[i].ieee); }
    Further(Enabled, Next, s, u, Register(i));
    t := Next(u, Register(i));
  }

  predicate AliveIn(t: State, i: nat) {
    i < |t.runs| && Live(t.runs[i])
  }

  lemma NotPendingStaysDead(s: State, ieee: Ieee, i: nat, t: State)
    requires Reached(s) && i < |s.runs| && s.runs[i].ieee == ieee && !Pending(s, i)
    requires Reachable(Enabled, Next, Next(s, Cancel(ieee)), t)
    ensures !AliveIn(t, i)
  {
    InvReached(s);
    assert RunOk(s, i);
    InvStep(s, Cancel(ieee));
    if s.stopped {
      var stopped := (s: State) => s.stopped;
      Invariant(Enabled, Next, stopped, Next(s, Cancel(ieee)), t);
      InvLater(Next(s, Cancel(ieee)), t);
      if i < |t.runs| { assert RunOk(t, i); }
    } else if s.runs[i].phase.Registered? {
      LeaveSilences(s, ieee, t, i);
    } else {
      CancelledForever(Next(s, Cancel(ieee)), t, i);
    }
  }

  /** A leave silences an interview of its device for good exactly when the interview is not pending. */
  lemma LeaveMissesExactlyPending(s: State, ieee: Ieee, i: nat)
    requires Reached(s) && i < |s.runs| && s.runs[i].ieee == ieee
    ensures (forall t :: Reachable(Enabled, Next, Next(s, Cancel(ieee)), t) ==> !AliveIn(t, i)) <==> !Pending(s, i)
  {
    if Pending(s, i) {
      InvReached(s);
      InvStep(s, Cancel(ieee));
      if ieee in s.cancels { assert EntryOk(s, ieee); }
      var t := PendingComesAlive(Next(s, Cancel(ieee)), i);
      assert AliveIn(t, i);
    } else {
      forall t | Reachable(Enabled, Next, Next(s, Cancel(ieee)), t) ensures !AliveIn(t, i) {
        NotPendingStaysDead(s, ieee, i, t);
      }
    }
  }

  /** Once the coordinator's context is cancelled, no interview of any device is ever live again. */
  lemma StopSilences(s: State, t: State)
    requires Reached(s) && Reachable(Enabled, Next, Next(s, Stop), t)
    ensures forall i | 0 <= i < |t.runs| :: !Live(t.runs[i])
  {
    InvReached(s);
    InvStep(s, Stop);
    InvLater(Next(s, Stop), t);
    var stopped := (s: State) => s.stopped;
    Invariant(Enabled, Next, stopped, Next(s, Stop), t);
    forall i | 0 <= i < |t.runs| ensures !Live(t.runs[i]) { assert RunOk(t, i); }
  }

  /** When the wait of CancelAllInterviews returns, every interview spawned is over: the map is empty. */
  lemma WaitLeavesNone(s: State)
    requires Reached(s) && forall i | 0 <= i < |s.runs| :: s.runs[i].phase.Finished?
    ensures s.cancels == map[]
  {
    InvReached(s);
    assert forall ieee | ieee in s.cancels :: EntryOk(s, ieee);
    assert s.cancels.Keys == {};
  }

  /** How many sections an interview still has before it. */
  function Ahead(phase: Phase): nat {
    match phase
    case Spawned => 4
    case Numbered => 3
    case Registered => 2
    case Returned => 1
    case Finished => 0
  }

  function NextSection(s: State, i: nat): Step
    requires i < |s.runs|
  {
    match s.runs[i].phase
    case Spawned => TakeGen(i)
    case Numbered => Register(i)
    case Registered => Return(i)
    case _ => Cleanup(i)
  }

  /** The section an interview comes to next is always possible, and leaves the others where they are. */
  lemma SectionGoesOn(s: State, i: nat)
    requires OwnersExist(s) && i < |s.runs| && !s.runs[i].phase.Finished?
    ensures Enabled(s, NextSection(s, i))
    ensures var t := Next(s, NextSection(s, i));
      && |t.runs| == |s.runs| && Ahead(t.runs[i].phase) == Ahead(s.runs[i].phase) - 1
      && (forall j | 0 <= j < |s.runs| && j != i :: t.runs[j].phase == s.runs[j].phase)
  {
  }

  lemma {:induction false} CanFinish(s: State, i: nat) returns (t: State)
    requires Inv(s) && i < |s.runs|
    ensures Inv(t) && Reachable(Enabled, Next, s, t)
    ensures |t.runs| == |s.runs| && t.runs[i].phase.Finished?
    ensures forall j | 0 <= j < |s.runs| && j != i :: t.runs[j].phase == s.runs[j].phase
    decreases Ahead(s.runs[i].phase)
  {
    Here(Enabled, Next, s);
    t := s;
    if !s.runs[i].phase.Finished? {
      InvOwners(s);
      SectionGoesOn(s, i);
      InvStep(s, NextSection(s, i));
      hide Inv, NextSection, Enabled, Apply;
      Further(Enabled, Next, s, s, NextSection(s, i));
      t := CanFinish(Next(s, NextSection(s, i)), i);
      Transitive(Enabled, Next, s, Next(s, NextSection(s, i)), t);
    }
  }

  /** The wait of CancelAllInterviews can always end: every interview can go on to its end, and leaves no entry. */
  lemma WaitCanEnd(s: State) returns (t: State)
    requires Reached(s)
    ensures Reachable(Enabled, Next, s, t) && |t.runs| == |s.runs| && t.cancels == map[]
    ensures forall i | 0 <= i < |t.runs| :: t.runs[i].phase.Finished?
  {
    InvReached(s);
    Here(Enabled, Next, s);
    t := s;
    for n := 0 to |s.runs|
      invariant Inv(t) && Reachable(Enabled, Next, s, t) && |t.runs| == |s.runs|
      invariant forall i | 0 <= i < n :: t.runs[i].phase.Finished?
    {
      hide Inv, Enabled, Next;
      var u := CanFinish(t, n);
      Transitive(Enabled, Next, s, t, u);
      t := u;
    }
    Transitive(Enabled, Next, INIT, s, t);
    WaitLeavesNone(t);
  }

  /** An interview whose time is up is never live again; its entry stays for its own cleanup. */
  lemma ExpiredForever(s: State, i: nat, t: State)
    requires Reached(s) && Enabled(s, Expire(i)) && Reachable(Enabled, Next, Next(s, Expire(i)), t)
    ensures !AliveIn(t, i) && Next(s, Expire(i)).cancels == s.cancels
  {
    InvReached(s);
    InvStep(s, Expire(i));
    CancelledForever(Next(s, Expire(i)), t, i);
  }

  /** Unless the coordinator has stopped, an interview spawned for a device can become its live one. */
  lemma SpawnedComesAlive(s: State, ieee: Ieee) returns (t: State)
    requires Reached(s) && !s.stopped
    ensures var u := Next(s, Spawn(ieee));
      && |u.runs| == |s.runs| + 1 && u.runs[..|s.runs|] == s.runs && u.runs[|s.runs|].ieee == ieee
      && Reachable(Enabled, Next, u, t) && AliveIn(t, |s.runs|)
  {
    InvReached(s);
    InvStep(s, Spawn(ieee));
    t := PendingComesAlive(Next(s, Spawn(ieee)), |s.runs|);
  }

  /** How far CancelAllInterviews has come: what is left of the map, and the contexts of what went are cancelled. */
  ghost predicate Partway(s: State, cancels: map<Ieee, Entry>, runs: seq<Interview>) {
    && |runs| == |s.runs|
    && (forall k | k in cancels :: k in s.cancels && cancels[k] == s.cancels[k] && cancels[k].owner < |runs|)
    && (forall j | 0 <= j < |runs| ::
          runs[j] == s.runs[j] || (Owned(s, j) && runs[j] == s.runs[j].(cancelled := true)))
    && (forall k | k in s.cancels && k !in cancels :: s.cancels[k].owner < |runs| && runs[s.cancels[k].owner].cancelled)
  }

  lemma PartwayStart(s: State)
    requires OwnersExist(s)
    ensures Partway(s, s.cancels, s.runs)
  {
  }

  lemma PartwayStep(s: State, cancels: map<Ieee, Entry>, runs: seq<Interview>, ieee: Ieee)
    requires Partway(s, cancels, runs) && ieee in cancels
    ensures cancels[ieee].owner < |runs|
    ensures Partway(s, cancels - {ieee}, SetCancelled(runs, cancels[ieee].owner))
  {
    assert Owned(s, cancels[ieee].owner);
  }

  lemma PartwayDone(s: State, runs: seq<Interview>)
    requires OwnersExist(s) && Partway(s, map[], runs)
    ensures Apply(s, CancelAll) == s.(cancels := map[], runs := runs)
  {
    forall j | 0 <= j < |runs| ensures runs[j] == Apply(s, CancelAll).runs[j] {
      if Owned(s, j) {
        var k :| k in s.cancels && s.cancels[k].owner == j;
        assert runs[s.cancels[k].owner].cancelled;
      }
    }
    assert runs == Apply(s, CancelAll).runs;
  }

  /** The fields of DeviceManager that interviews share, and the contexts of the goroutines spawned so far. */
  class Registry {
    var gen: nat
    var cancels: map<Ieee, Entry>
    var runs: seq<Interview>
    var stopped: bool

    constructor ()
      ensures Abs() == INIT
    {
      gen, cancels, runs, stopped := 0, map[], [], false;
    }

    function Abs(): State
      reads this
    {
      State(gen, cancels, runs, stopped)
    }

    /** The goroutine started at the end of HandleAnnounce. */
    method Spawn(ieee: Ieee) returns (i: nat)
      requires OwnersExist(Abs())
      modifies this
      ensures i == |old(runs)| && Abs() == Apply(old(Abs()), Step.Spawn(ieee))
    {
      i := |runs|;
      runs := runs + [Interview(ieee, 0, Spawned, false)];
    }

    /** The atomic increment at the top of Interview, and its own context under the coordinator's. */
    method TakeGen(i: nat)
      requires OwnersExist(Abs()) && Enabled(Abs(), Step.TakeGen(i))
      modifies this
      ensures Abs() == Apply(old(Abs()), Step.TakeGen(i))
    {
      gen := gen + 1;
      runs := runs[i := runs[i].(gen := gen, phase := Numbered, cancelled := stopped)];
    }

    /** The cancel function an entry carries. */
    method CancelContext(entry: Entry)
      requires entry.owner < |runs|
      modifies `runs
      ensures runs == SetCancelled(old(runs), entry.owner)
    {
      runs := runs[entry.owner := runs[entry.owner].(cancelled := true)];
    }

    method Register(i: nat)
      requires OwnersExist(Abs()) && Enabled(Abs(), Step.Register(i))
      modifies this
      ensures Abs() == Apply(old(Abs()), Step.Register(i))
    {
      var ieee := runs[i].ieee;
      if ieee in cancels {
        CancelContext(cancels[ieee]);
      }
      cancels := cancels[ieee := Entry(i, runs[i].gen)];
      runs := runs[i := runs[i].(phase := Registered)];
    }

    /** The deferred function that runs last. */
    method Cleanup(i: nat)
      requires OwnersExist(Abs()) && Enabled(Abs(), Step.Cleanup(i))
      modifies this
      ensures Abs() == Apply(old(Abs()), Step.Cleanup(i))
    {
      var r := runs[i];
      if r.ieee in cancels && cancels[r.ieee].gen == r.gen {
        cancels := cancels - {r.ieee};
      }
      runs := runs[i := r.(phase := Finished)];
    }

    /** The critical section shared by HandleLeave and RemoveDevice. */
    method Cancel(ieee: Ieee)
      requires OwnersExist(Abs())
      modifies this
      ensures Abs() == Apply(old(Abs()), Step.Cancel(ieee))
    {
      if ieee in cancels {
        CancelContext(cancels[ieee]);
        cancels := cancels - {ieee};
      }
    }

    method CancelAll()
      requires OwnersExist(Abs())
      modifies this
      ensures Abs() == Apply(old(Abs()), Step.CancelAll)
    {
      hide Apply, Partway;
      ghost var was := Abs();
      PartwayStart(was);
      while cancels != map[]
        invariant gen == was.gen && stopped == was.stopped
        invariant Partway(was, cancels, runs)
        decreases |cancels|
      {
        var ieee: Ieee :| ieee in cancels;
        PartwayStep(was, cancels, runs, ieee);
        CancelContext(cancels[ieee]);
        cancels := cancels - {ieee};
      }
      PartwayDone(was, runs);
    }
  }
}
