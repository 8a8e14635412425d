/** Reset and Close of the NCP: its done channel, its read loops, and the response channels they close. */
module Lifecycle {
  import opened Bytes
  import opened Runs

  /** A readLoop goroutine: between frames, holding a response channel it has looked up, or gone. */
  datatype Loop = Waiting | Carrying(channel: nat) | Exited

  /**
    * Where the one Reset or Close in progress stands: Stopped has closed done and waits for the loop; Reopening tries
    * the port; Renewed to Launching are resetState; Probing waits for the first answer.
    */
  datatype Control =
    | Idle
    | Stopped
    | Reopening
    | Renewed
    | HlDrained
    | Launching
    | Probing
    | Closing
    | CloseDraining
    | CloseHlDrained

  /** doneCloses counts the closes of the current done channel, closes those of every response channel made. */
  datatype State = State(
    doneCloses: nat, once: bool, closed: bool, loops: seq<Loop>,
    hl: map<byte, nat>, zcl: map<byte, nat>, closes: seq<nat>, control: Control)

  /** What NewNRF52840NCP leaves: one loop running. */
  const INIT: State := State(0, false, false, [Waiting], map[], map[], [], Idle)

  datatype Step =
    | BeginReset
    | BeginClose
    | LoopGone
    | Renew
    | DrainHl
    | DrainZcl
    | Launch
    | ProbeFails
    | EndReset
    | RegisterHl(tsn: byte)
    | RegisterZcl(seqNo: byte)
    | DeleteHl(tsn: byte)
    | DeleteZcl(seqNo: byte)
    | LookupHl(i: nat, tsn: byte)
    | LookupZcl(i: nat, seqNo: byte)
    | Send(i: nat)
    | Exit(i: nat)

  predicate LoopIs(s: State, i: nat, loop: Loop) {
    i < |s.loops| && s.loops[i] == loop
  }

  predicate AllGone(s: State) {
    forall i | 0 <= i < |s.loops| :: s.loops[i] == Exited
  }

  predicate Enabled(s: State, step: Step) {
    match step
    case BeginReset => s.control.Idle?
    case BeginClose => s.control.Idle?
    case LoopGone => (s.control.Stopped? || s.control.Closing?) && AllGone(s)
    case Renew => s.control.Reopening?
    case DrainHl => s.control.Renewed? || s.control.CloseDraining?
    case DrainZcl => s.control.HlDrained? || s.control.CloseHlDrained?
    case Launch => s.control.Launching?
    case ProbeFails => s.control.Probing?
    case EndReset => s.control.Reopening? || s.control.Probing?
    case LookupHl(i, tsn) => LoopIs(s, i, Waiting) && tsn in s.hl
    case LookupZcl(i, n) => LoopIs(s, i, Waiting) && n in s.zcl
    case Send(i) => i < |s.loops| && s.loops[i].Carrying?
    case Exit(i) => LoopIs(s, i, Waiting) && s.doneCloses > 0
    case _ => true
  }

  /** closeOnce.Do with the close of done inside. */
  function DoneClosed(s: State): State {
    if s.once then s else s.(doneCloses := s.doneCloses + 1, once := true)
  }

  /** The entries of a pending table that hold a channel: each is closed once when the table is drained. */
  function Entries(m: map<byte, nat>, c: nat): set<byte> {
    set k | k in m && m[k] == c
  }

  function CloseAll(closes: seq<nat>, m: map<byte, nat>): (r: seq<nat>)
    ensures |r| == |closes|
  {
    seq(|closes|, c requires 0 <= c < |closes| => closes[c] + |Entries(m, c)|)
  }

  function Apply(s: State, step: Step): State
    requires Enabled(s, step)
  {
    match step
    case BeginReset => DoneClosed(s).(control := Stopped)
    case BeginClose => if s.closed then s else DoneClosed(s).(closed := true, control := Closing)
    case LoopGone => s.(control := if s.control.Stopped? then Reopening else CloseDraining)
    case Renew => s.(doneCloses := 0, once := false, control := Renewed)
    case DrainHl =>
      s.(closes := CloseAll(s.closes, s.hl), hl := map[],
         control := if s.control.Renewed? then HlDrained else CloseHlDrained)
    case DrainZcl =>
      s.(closes := CloseAll(s.closes, s.zcl), zcl := map[],
         control := if s.control.HlDrained? then Launching else Idle)
    case Launch => s.(loops := s.loops + [Waiting], control := Probing)
    case ProbeFails => DoneClosed(s).(control := Stopped)
    case EndReset => s.(control := Idle)
    case RegisterHl(tsn) => s.(hl := s.hl[tsn := |s.closes|], closes := s.closes + [0])
    case RegisterZcl(n) => s.(zcl := s.zcl[n := |s.closes|], closes := s.closes + [0])
    case DeleteHl(tsn) => s.(hl := s.hl - {tsn})
    case DeleteZcl(n) => s.(zcl := s.zcl - {n})
    case LookupHl(i, tsn) => s.(loops := s.loops[i := Carrying(s.hl[tsn])])
    case LookupZcl(i, n) => s.(loops := s.loops[i := Carrying(s.zcl[n])])
    case Send(i) => s.(loops := s.loops[i := Waiting])
    case Exit(i) => s.(loops := s.loops[i := Exited])
  }

  function Next(s: State, step: Step): State {
    if Enabled(s, step) then Apply(s, step) else s
  }

  /** Some run in which resets and Close come one at a time leads to this state. */
  ghost predicate Reached(s: State) {
    Reachable(Enabled, Next, INIT, s)
  }

  // The invariant

  predicate Quiet(control: Control) {
    && !control.Idle? && !control.Stopped? && !control.Probing? && !control.Closing?
  }

  predicate LoopsOk(s: State) {
    && (forall i, j | 0 <= i < j < |s.loops| :: s.loops[i] == Exited || s.loops[j] == Exited)
    && (Quiet(s.control) ==> AllGone(s))
    && (forall i | 0 <= i < |s.loops| && s.loops[i].Carrying? ::
          s.loops[i].channel < |s.closes| && s.closes[s.loops[i].channel] == 0)
  }

  /** done is closed at most once, has been by whoever waits for the read loop, and has not been in a new epoch. */
  predicate DoneOk(s: State) {
    && s.doneCloses == (if s.once then 1 else 0)
    && (match s.control
        case Idle => true
        case Stopped | Reopening | Closing | CloseDraining | CloseHlDrained => s.once
        case Renewed | HlDrained | Launching | Probing => !s.once)
  }

  /** Every entry has a channel of its own, not yet closed. */
  predicate TableOk(m: map<byte, nat>, closes: seq<nat>) {
    && (forall k | k in m :: m[k] < |closes| && closes[m[k]] == 0)
    && (forall j, k | j in m && k in m && m[j] == m[k] :: j == k)
  }

  predicate Apart(a: map<byte, nat>, b: map<byte, nat>) {
    forall j, k | j in a && k in b :: a[j] != b[k]
  }

  predicate ClosedOnce(closes: seq<nat>) {
    forall c | 0 <= c < |closes| :: closes[c] <= 1
  }

  predicate Inv(s: State) {
    && LoopsOk(s) && DoneOk(s)
    && TableOk(s.hl, s.closes) && TableOk(s.zcl, s.closes) && Apart(s.hl, s.zcl) && ClosedOnce(s.closes)
  }

  lemma EntriesOfTable(m: map<byte, nat>, closes: seq<nat>, c: nat)
    requires TableOk(m, closes) && c < |closes|
    ensures |Entries(m, c)| <= 1
    ensures closes[c] == 1 ==> |Entries(m, c)| == 0
    ensures (forall k | k in m :: m[k] != c) ==> |Entries(m, c)| == 0
  {
    if k :| k in Entries(m, c) {
      assert Entries(m, c) == {k};
    } else {
      assert Entries(m, c) == {};
    }
  }

  /** Draining a table closes no channel twice and leaves the other table's channels open. */
  lemma DrainKeeps(m: map<byte, nat>, other: map<byte, nat>, closes: seq<nat>)
    requires TableOk(m, closes) && TableOk(other, closes) && Apart(m, other) && ClosedOnce(closes)
    ensures ClosedOnce(CloseAll(closes, m)) && TableOk(other, CloseAll(closes, m))
    ensures forall k | k in m :: CloseAll(closes, m)[m[k]] == 1
  {
    forall c: nat | c < |closes|
      ensures CloseAll(closes, m)[c] <= 1
    {
      EntriesOfTable(m, closes, c);
    }
    forall k | k in other
      ensures CloseAll(closes, m)[other[k]] == 0
    {
      EntriesOfTable(m, closes, other[k]);
    }
    forall k | k in m
      ensures CloseAll(closes, m)[m[k]] == 1
    {
      assert Entries(m, m[k]) == {k};
    }
  }

  lemma ControlKeeps(s: State, step: Step)
    requires Inv(s) && Enabled(s, step)
    requires step.BeginReset? || step.BeginClose? || step.LoopGone? || step.Renew? || step.Launch?
      || step.ProbeFails? || step.EndReset?
    ensures Inv(Apply(s, step))
  {
    hide TableOk, Apart, ClosedOnce;
  }

  lemma DrainStepKeeps(s: State, step: Step)
    requires Inv(s) && Enabled(s, step) && (step.DrainHl? || step.DrainZcl?)
    ensures Inv(Apply(s, step))
  {
    Swap(s.hl, s.zcl);
    if step.DrainHl? {
      DrainKeeps(s.hl, s.zcl, s.closes);
    } else {
      DrainKeeps(s.zcl, s.hl, s.closes);
    }
  }

  /** A new channel joins one table; it is in neither, and open. */
  lemma RegisterKeeps(m: map<byte, nat>, other: map<byte, nat>, closes: seq<nat>, k: byte)
    requires TableOk(m, closes) && TableOk(other, closes) && Apart(m, other) && ClosedOnce(closes)
    ensures TableOk(m[k := |closes|], closes + [0]) && TableOk(other, closes + [0])
    ensures Apart(m[k := |closes|], other) && ClosedOnce(closes + [0])
  {
  }

  lemma DeleteKeeps(m: map<byte, nat>, other: map<byte, nat>, closes: seq<nat>, k: byte)
    requires TableOk(m, closes) && Apart(m, other)
    ensures TableOk(m - {k}, closes) && Apart(m - {k}, other)
  {
  }

  lemma Swap(a: map<byte, nat>, b: map<byte, nat>)
    requires Apart(a, b)
    ensures Apart(b, a)
  {
  }

  lemma RequestKeeps(s: State, step: Step)
    requires Inv(s) && Enabled(s, step)
    requires step.RegisterHl? || step.RegisterZcl? || step.DeleteHl? || step.DeleteZcl?
    ensures Inv(Apply(s, step))
  {
    Swap(s.hl, s.zcl);
    hide TableOk, Apart, ClosedOnce;
    match step
    case RegisterHl(k) => RegisterKeeps(s.hl, s.zcl, s.closes, k);
    case RegisterZcl(k) =>
      RegisterKeeps(s.zcl, s.hl, s.closes, k);
      Swap(s.zcl[k := |s.closes|], s.hl);
    case DeleteHl(k) => DeleteKeeps(s.hl, s.zcl, s.closes, k);
    case DeleteZcl(k) =>
      DeleteKeeps(s.zcl, s.hl, s.closes, k);
      Swap(s.zcl - {k}, s.hl);
  }

  lemma LoopKeeps(s: State, step: Step)
    requires Inv(s) && Enabled(s, step)
    requires step.LookupHl? || step.LookupZcl? || step.Send? || step.Exit?
    ensures Inv(Apply(s, step))
  {
  }

  lemma InvStep(s: State, step: Step)
    requires Inv(s) && Enabled(s, step)
    ensures Inv(Apply(s, step))
  {
    match step
    case BeginReset | BeginClose | LoopGone | Renew | Launch | ProbeFails | EndReset => ControlKeeps(s, step);
    case DrainHl | DrainZcl => DrainStepKeeps(s, step);
    case RegisterHl(_) | RegisterZcl(_) | DeleteHl(_) | DeleteZcl(_) => RequestKeeps(s, step);
    case LookupHl(_, _) | LookupZcl(_, _) | Send(_) | Exit(_) => LoopKeeps(s, step);
  }

  lemma InvReached(s: State)
    requires Reached(s)
    ensures Inv(s)
  {
    forall s, step | Inv(s) && Enabled(s, step) ensures Inv(Next(s, step)) {
      InvStep(s, step);
    }
    Invariant(Enabled, Next, Inv, INIT, s);
  }

  /** At most one read loop runs, done is closed at most once in its epoch, no response channel is closed twice. */
  lemma ClosedAtMostOnce(s: State)
    requires Reached(s)
    ensures forall i, j | 0 <= i < |s.loops| && 0 <= j < |s.loops| && s.loops[i] != Exited && s.loops[j] != Exited ::
              i == j
    ensures s.doneCloses <= 1 && (s.once <==> s.doneCloses == 1)
    ensures forall c | 0 <= c < |s.closes| :: s.closes[c] <= 1
  {
    InvReached(s);
  }

  /** A read loop never sends on a closed channel: what it looked up is still open when it sends. */
  lemma SendFindsChannelOpen(s: State, i: nat)
    requires Reached(s) && Enabled(s, Send(i))
    ensures s.loops[i].channel < |s.closes| && s.closes[s.loops[i].channel] == 0
  {
    InvReached(s);
  }

  /** A caller registers under its number with a channel that is open and nobody else's. */
  lemma RegisteredAlone(s: State, k: byte)
    requires Reached(s)
    ensures var t := Next(s, RegisterHl(k));
      && t == s.(hl := s.hl[k := |s.closes|], closes := s.closes + [0])
      && (forall j | j in s.hl && j != k :: t.hl[j] != t.hl[k]) && (forall j | j in s.zcl :: t.zcl[j] != t.hl[k])
    ensures var t := Next(s, RegisterZcl(k));
      && t == s.(zcl := s.zcl[k := |s.closes|], closes := s.closes + [0])
      && (forall j | j in s.zcl && j != k :: t.zcl[j] != t.zcl[k]) && (forall j | j in s.hl :: t.hl[j] != t.zcl[k])
  {
    InvReached(s);
  }

  /** A read loop between frames takes the channel of a registered caller, sends on it and is between frames again. */
  lemma LoopServes(s: State, i: nat, k: byte)
    requires LoopIs(s, i, Waiting)
    ensures k in s.hl ==>
      var t := Next(s, LookupHl(i, k));
      t == s.(loops := s.loops[i := Carrying(s.hl[k])]) && Enabled(t, Send(i)) && Next(t, Send(i)) == s
    ensures k in s.zcl ==>
      var t := Next(s, LookupZcl(i, k));
      t == s.(loops := s.loops[i := Carrying(s.zcl[k])]) && Enabled(t, Send(i)) && Next(t, Send(i)) == s
  {
    assert s.loops[i := Waiting] == s.loops;
  }

  /** It leaves only once done is closed. */
  lemma LoopStays(s: State, step: Step, i: nat)
    requires Enabled(s, step) && i < |s.loops| && s.loops[i] != Exited && s.doneCloses == 0
    ensures i < |Next(s, step).loops| && Next(s, step).loops[i] != Exited
  {
  }

  /** A response channel is closed only while no read loop runs. */
  lemma ClosesOnlyWithoutLoop(s: State, step: Step, c: nat)
    requires Reached(s) && Enabled(s, step) && c < |s.closes|
    requires Apply(s, step).closes[c] != s.closes[c]
    ensures AllGone(s)
  {
    InvReached(s);
  }

  /** Draining in resetState and Close releases every caller still registered. */
  lemma DrainReleases(s: State, k: byte)
    requires Reached(s)
    ensures Enabled(s, DrainHl) && k in s.hl ==> s.hl[k] < |s.closes| && Apply(s, DrainHl).closes[s.hl[k]] == 1
    ensures Enabled(s, DrainZcl) && k in s.zcl ==> s.zcl[k] < |s.closes| && Apply(s, DrainZcl).closes[s.zcl[k]] == 1
  {
    InvReached(s);
    DrainKeeps(s.hl, s.zcl, s.closes);
    DrainKeeps(s.zcl, s.hl, s.closes);
  }

  /** A caller that takes itself out of the table first gets no close from the drain, and the others stay in it. */
  lemma DeletedIsNotClosed(s: State, k: byte)
    requires Reached(s)
    ensures var t := Next(s, DeleteHl(k));
      && t == s.(hl := t.hl) && (forall j :: j in t.hl <==> j in s.hl && j != k)
      && (k in s.hl && Enabled(t, DrainHl) ==> s.hl[k] < |s.closes| && Apply(t, DrainHl).closes[s.hl[k]] == 0)
  {
    InvReached(s);
    if k in s.hl { DrainWithout(s.closes, s.hl, k); }
    hide CloseAll, LoopsOk, DoneOk, ClosedOnce, Apart;
  }

  lemma DeletedZclIsNotClosed(s: State, k: byte)
    requires Reached(s)
    ensures var t := Next(s, DeleteZcl(k));
      && t == s.(zcl := t.zcl) && (forall j :: j in t.zcl <==> j in s.zcl && j != k)
      && (k in s.zcl && Enabled(t, DrainZcl) ==> s.zcl[k] < |s.closes| && Apply(t, DrainZcl).closes[s.zcl[k]] == 0)
  {
    InvReached(s);
    if k in s.zcl { DrainWithout(s.closes, s.zcl, k); }
    hide CloseAll, LoopsOk, DoneOk, ClosedOnce, Apart;
  }

  lemma DrainWithout(closes: seq<nat>, m: map<byte, nat>, k: byte)
    requires TableOk(m, closes) && k in m
    ensures CloseAll(closes, m - {k})[m[k]] == 0
  {
    assert Entries(m - {k}, m[k]) == {};
  }

  /** Close has returned: no read loop runs. */
  predicate Shut(s: State) {
    s.closed && s.control.Idle? && AllGone(s)
  }

  /** Close, the first time, and every reset close done, and so does a probe without an answer. */
  lemma StopClosesDone(s: State)
    requires Reached(s)
    ensures s.control.Idle? && !s.closed ==>
      Apply(s, BeginClose).doneCloses == 1 && Apply(s, BeginClose).closed && Apply(s, BeginClose).control.Closing?
    ensures s.control.Idle? && s.closed ==> Apply(s, BeginClose) == s
    ensures s.control.Idle? ==> Apply(s, BeginReset).doneCloses == 1 && Apply(s, BeginReset).control.Stopped?
    ensures s.control.Probing? ==> Apply(s, ProbeFails).doneCloses == 1 && Apply(s, ProbeFails).control.Stopped?
  {
    InvReached(s);
  }

  /** What a read loop does by itself until it is gone. */
  predicate Leaving(s: State, step: Step) {
    Enabled(s, step) && (step.Send? || step.Exit?)
  }

  lemma LoopCanLeave(s: State, i: nat)
    requires s.doneCloses > 0 && i < |s.loops| && s.loops[i] != Exited
    ensures Reachable(Leaving, Next, s, s.(loops := s.loops[i := Exited]))
  {
    hide Runs.Reachable;
    Here(Leaving, Next, s);
    var t := s;
    if s.loops[i].Carrying? {
      Further(Leaving, Next, s, t, Send(i));
      t := Next(t, Send(i));
    }
    Further(Leaving, Next, s, t, Exit(i));
    assert Next(t, Exit(i)).loops == s.loops[i := Exited];
  }

  /**
    * Whoever waits for the read loop has closed done, so that it can send what it carries and leave: the wait can end.
    */
  lemma WaitCanEnd(s: State) returns (t: State)
    requires Reached(s) && (s.control.Stopped? || s.control.Closing?)
    ensures s.doneCloses == 1
    ensures Reachable(Leaving, Next, s, t) && AllGone(t) && Enabled(t, LoopGone)
    ensures t == s.(loops := t.loops)
  {
    InvReached(s);
    t := s;
    if i :| 0 <= i < |s.loops| && s.loops[i] != Exited {
      assert forall j | 0 <= j < |s.loops| && j != i :: s.loops[j] == Exited;
      hide Inv, Reached, Next;
      LoopCanLeave(s, i);
      t := s.(loops := s.loops[i := Exited]);
    } else {
      Here(Leaving, Next, s);
    }
  }

  lemma LeavingReaches(s: State, t: State)
    requires Reached(s) && Reachable(Leaving, Next, s, t)
    ensures Reached(t)
  {
    forall u, step | Reached(u) && Leaving(u, step) ensures Reached(Next(u, step)) {
      Further(Enabled, Next, INIT, u, step);
    }
    Invariant(Leaving, Next, Reached, s, t);
  }

  lemma OneStep(s: State, step: Step) returns (t: State)
    requires Reached(s) && Enabled(s, step)
    ensures t == Apply(s, step) && Reached(t)
  {
    t := Apply(s, step);
    Further(Enabled, Next, INIT, s, step);
  }

  /** Close can always come to its end: no read loop, done closed, nothing pending. */
  lemma CloseCanEnd(s: State) returns (t: State)
    requires Reached(s) && s.control.Idle? && !s.closed
    ensures Reached(t) && Shut(t) && t.doneCloses == 1 && t.hl == map[] && t.zcl == map[]
  {
    hide Reached, CloseAll;
    t := OneStep(s, BeginClose);
    var u := WaitCanEnd(t);
    LeavingReaches(t, u);
    t := OneStep(u, LoopGone);
    t := OneStep(t, DrainHl);
    t := OneStep(t, DrainZcl);
  }

  /** A reset can always come to its end: a new epoch, one read loop between frames, nothing pending. */
  lemma ResetCanEnd(s: State) returns (t: State)
    requires Reached(s) && s.control.Idle?
    ensures Reached(t) && t.control.Idle? && t.doneCloses == 0 && t.hl == map[] && t.zcl == map[]
    ensures t.loops != [] && t.loops[|t.loops| - 1] == Waiting && t.closed == s.closed
  {
    hide Reached, CloseAll;
    t := OneStep(s, BeginReset);
    var u := WaitCanEnd(t);
    LeavingReaches(t, u);
    t := OneStep(u, LoopGone);
    t := OneStep(t, Renew);
    t := OneStep(t, DrainHl);
    t := OneStep(t, DrainZcl);
    t := OneStep(t, Launch);
    t := OneStep(t, EndReset);
  }

  lemma CloseShuts(s: State)
    requires Reached(s) && s.control.CloseHlDrained? && s.closed
    ensures Shut(Apply(s, DrainZcl))
  {
    InvReached(s);
  }

  predicate NoReset(s: State, step: Step) {
    Enabled(s, step) && !step.BeginReset?
  }

  /** From then on nothing but a reset starts a read loop again. */
  lemma ShutLasts(s: State, t: State)
    requires Shut(s) && Reachable(NoReset, Next, s, t)
    ensures Shut(t)
  {
    forall s, step | Shut(s) && NoReset(s, step) ensures Shut(Next(s, step)) {}
    Invariant(NoReset, Next, Shut, s, t);
  }

  /** What a reset that goes through makes of a closed NCP: its tables drained, one read loop more. */
  function Reopened(s: State, control: Control): State {
    State(0, false, true, s.loops + [Waiting], map[], map[], CloseAll(CloseAll(s.closes, s.hl), s.zcl), control)
  }

  lemma Then(from: State, s: State, step: Step, t: State)
    requires Reachable(Enabled, Next, from, s) && Enabled(s, step) && Apply(s, step) == t
    ensures Reachable(Enabled, Next, from, t)
  {
    Further(Enabled, Next, from, s, step);
  }

  /** The reset up to its new epoch: done is closed already, and no read loop is there to wait for. */
  lemma ResetRenews(s: State)
    requires Shut(s)
    ensures Reachable(Enabled, Next, s, s.(doneCloses := 0, once := false, control := Renewed))
  {
    hide Runs.Reachable;
    var t := DoneClosed(s);
    Here(Enabled, Next, s);
    Then(s, s, BeginReset, t.(control := Stopped));
    Then(s, t.(control := Stopped), LoopGone, t.(control := Reopening));
    Then(s, t.(control := Reopening), Renew, s.(doneCloses := 0, once := false, control := Renewed));
  }

  /**
    * The flag closed does not prevent resetState: from every closed NCP a reset starts a read loop, and Close, which
    * returns at once the second time, leaves it running.
    */
  lemma ResetRevivesClosed(s: State)
    requires Shut(s)
    ensures Reachable(Enabled, Next, s, Reopened(s, Idle))
    ensures Enabled(Reopened(s, Idle), BeginClose) && Apply(Reopened(s, Idle), BeginClose) == Reopened(s, Idle)
    ensures !AllGone(Reopened(s, Idle))
  {
    hide Runs.Reachable, CloseAll;
    ResetRenews(s);
    var t := s.(doneCloses := 0, once := false, control := Renewed);
    var u := t.(closes := CloseAll(t.closes, t.hl), hl := map[], control := HlDrained);
    Then(s, t, DrainHl, u);
    Then(s, u, DrainZcl, u.(closes := CloseAll(u.closes, u.zcl), zcl := map[], control := Launching));
    Then(s, u.(closes := CloseAll(u.closes, u.zcl), zcl := map[], control := Launching), Launch, Reopened(s, Probing));
    Then(s, Reopened(s, Probing), EndReset, Reopened(s, Idle));
    assert Reopened(s, Idle).loops[|s.loops|] == Waiting;
  }

  /** A closed NCP stays without a read loop exactly as long as no reset of it begins. */
  lemma OnlyResetRevives(s: State)
    requires Shut(s)
    ensures forall t :: Reachable(NoReset, Next, s, t) ==> AllGone(t)
    ensures exists t :: Reachable(Enabled, Next, s, t) && t.closed && t.control.Idle? && !AllGone(t)
  {
    forall t | Reachable(NoReset, Next, s, t) ensures AllGone(t) {
      ShutLasts(s, t);
    }
    ResetRevivesClosed(s);
  }

  lemma EntriesAdd(m: map<byte, nat>, k: byte, c: nat, d: nat)
    requires k !in m
    ensures |Entries(m[k := c], d)| == |Entries(m, d)| + (if d == c then 1 else 0)
  {
    if d == c {
      assert Entries(m[k := c], d) == Entries(m, d) + {k};
    } else {
      assert Entries(m[k := c], d) == Entries(m, d);
    }
  }

  /** Closing the channel of one more entry. */
  lemma CloseAllAdds(closes: seq<nat>, m: map<byte, nat>, k: byte, c: nat)
    requires k !in m && c < |closes|
    ensures CloseAll(closes, m[k := c]) == CloseAll(closes, m)[c := CloseAll(closes, m)[c] + 1]
  {
    hide Entries;
    forall d: nat | d < |closes|
      ensures CloseAll(closes, m[k := c])[d] == CloseAll(closes, m)[d] + (if d == c then 1 else 0)
    {
      EntriesAdd(m, k, c, d);
    }
  }

  lemma CloseAllNone(closes: seq<nat>)
    ensures CloseAll(closes, map[]) == closes
  {
    forall c: nat | c < |closes|
      ensures |Entries(map[], c)| == 0
    {
      assert Entries(map[], c) == {};
    }
  }

  /** Moving an entry from one half of a map to the other. */
  lemma Moved(m: map<byte, nat>, left: map<byte, nat>, done: map<byte, nat>, k: byte)
    requires left.Keys !! done.Keys && m == left + done && k in left
    ensures (left - {k}).Keys !! done[k := left[k]].Keys && m == (left - {k}) + done[k := left[k]]
  {
  }

  /** The fields of the NCP that its lifecycle touches; each method is one critical section. */
  class Connection {
    var doneCloses: nat
    var once: bool
    var closed: bool
    var loops: seq<Loop>
    var hlPending: map<byte, nat>
    var zclPending: map<byte, nat>
    var closes: seq<nat>
    var control: Control

    /** NewNRF52840NCP with its port open. */
    constructor ()
      ensures Abs() == INIT
    {
      doneCloses, once, closed, loops := 0, false, false, [Waiting];
      hlPending, zclPending, closes, control := map[], map[], [], Idle;
    }

    function Abs(): State
      reads this
    {
      State(doneCloses, once, closed, loops, hlPending, zclPending, closes, control)
    }

    method CloseDone()
      modifies `doneCloses, `once
      ensures once && doneCloses == if old(once) then old(doneCloses) else old(doneCloses) + 1
      ensures old(doneCloses) == (if old(once) then 1 else 0) ==> doneCloses == 1
      ensures Abs() == DoneClosed(old(Abs()))
    {
      if !once {
        once := true;
        doneCloses := doneCloses + 1;
      }
    }

    method BeginReset()
      requires Enabled(Abs(), Step.BeginReset)
      modifies this
      ensures Abs() == Apply(old(Abs()), Step.BeginReset)
    {
      CloseDone();
      control := Stopped;
    }

    method BeginClose()
      requires Enabled(Abs(), Step.BeginClose)
      modifies this
      ensures Abs() == Apply(old(Abs()), Step.BeginClose)
    {
      if closed {
        return;
      }
      closed := true;
      CloseDone();
      control := Closing;
    }

    /** Closes every channel of a pending table, entry by entry. */
    method CloseEach(m: map<byte, nat>)
      requires forall k | k in m :: m[k] < |closes|
      modifies `closes
      ensures closes == CloseAll(old(closes), m)
    {
      CloseAllNone(closes);
      hide CloseAll, Entries;
      var left, done := m, map[];
      while left != map[]
        invariant left.Keys !! done.Keys && m == left + done
        invariant forall k | k in left :: left[k] < |closes|
        invariant |closes| == |old(closes)| && closes == CloseAll(old(closes), done)
        decreases |left|
      {
        var k :| k in left;
        var c := left[k];
        assert k !in done;
        CloseAllAdds(old(closes), done, k, c);
        Moved(m, left, done, k);
        closes := closes[c := closes[c] + 1];
        done := done[k := c];
        left := left - {k};
      }
      assert done == m;
    }

    method DrainHl()
      requires Enabled(Abs(), Step.DrainHl) && TableOk(hlPending, closes)
      modifies this
      ensures Abs() == Apply(old(Abs()), Step.DrainHl)
    {
      CloseEach(hlPending);
      hlPending := map[];
      control := if control.Renewed? then HlDrained else CloseHlDrained;
    }

    method DrainZcl()
      requires Enabled(Abs(), Step.DrainZcl) && TableOk(zclPending, closes)
      modifies this
      ensures Abs() == Apply(old(Abs()), Step.DrainZcl)
    {
      CloseEach(zclPending);
      zclPending := map[];
      control := if control.HlDrained? then Launching else Idle;
    }

    /** resetState under lifecycleMu: a fresh done channel and a fresh once. */
    method Renew()
      requires Enabled(Abs(), Step.Renew)
      modifies this
      ensures Abs() == Apply(old(Abs()), Step.Renew)
    {
      doneCloses, once, control := 0, false, Renewed;
    }
  }
}
