/** Writing a frame to the NCP until it is acknowledged: packet sequences 1, 2, 3, 1, ... and at most four attempts. */
module LinkAck {
  import opened Outcomes
  import opened Runs

  /** llMaxRetries, and the capacity of llAckCh. */
  const MAX_RETRIES := 3
  const ACK_CAP := 4

  type PktSeq = n: nat | n <= 3

  /** The sequence nextPktSeq gives after the one it gave last; 0 stands for none since the reset. */
  function NextSeq(last: PktSeq): PktSeq {
    last % 3 + 1
  }

  /** The sequence of the w-th frame since the reset. */
  function SeqOf(w: nat): PktSeq {
    w % 3 + 1
  }

  /** An acknowledgement as the read loop queues it: the sequence is all the writer sees. */
  datatype Ack = Ack(frame: nat, pktSeq: PktSeq)

  // The writer as a step system

  datatype Phase = Idle | Writing(attempt: nat) | Waiting(attempt: nat)

  /** How a finished write ended: by a matching acknowledgement, which was of some frame, or by an error. */
  datatype Result = Acked(frame: nat) | Failed

  /** wire lists the frame of every write so far; results has one entry for each write that is over. */
  datatype State = State(last: PktSeq, phase: Phase, wire: seq<nat>, acks: seq<Ack>, results: seq<Result>)

  const INIT: State := State(0, Idle, [], [], [])

  datatype Step =
    | Begin
    | Write
    | WriteFails
    | Arrive(frame: nat)
    | Take
    | Timeout
    | Abort

  /** The frame being written, or about to be. */
  function Current(s: State): nat {
    |s.results|
  }

  predicate Enabled(s: State, step: Step) {
    match step
    case Begin => s.phase.Idle?
    case Write => s.phase.Writing?
    case WriteFails => s.phase.Writing?
    case Arrive(frame) => frame in s.wire
    case Take => s.phase.Waiting? && s.acks != []
    case Timeout => s.phase.Waiting?
    case Abort => s.phase.Waiting?
  }

  function Finish(s: State, result: Result): State {
    s.(phase := Idle, results := s.results + [result])
  }

  function Apply(s: State, step: Step): State
    requires Enabled(s, step)
  {
    match step
    case Begin => s.(last := NextSeq(s.last), phase := Writing(0))
    case Write => s.(wire := s.wire + [Current(s)], phase := Waiting(s.phase.attempt))
    case WriteFails => Finish(s, Failed)
    case Arrive(frame) => if |s.acks| < ACK_CAP then s.(acks := s.acks + [Ack(frame, SeqOf(frame))]) else s
    case Take =>
      var s' := s.(acks := s.acks[1..]);
      if s.acks[0].pktSeq == s.last then Finish(s', Acked(s.acks[0].frame)) else s'
    case Timeout =>
      if s.phase.attempt < MAX_RETRIES then s.(phase := Writing(s.phase.attempt + 1)) else Finish(s, Failed)
    case Abort => Finish(s, Failed)
  }

  /** An acknowledgement a writer takes is of its own frame or of one of the two before. */
  predicate Polite(s: State, step: Step) {
    step.Take? && s.acks != [] ==> Current(s) <= s.acks[0].frame + 2
  }

  predicate Allowed(s: State, step: Step) {
    Enabled(s, step) && Polite(s, step)
  }

  function Next(s: State, step: Step): State {
    if Enabled(s, step) then Apply(s, step) else s
  }

  /** Some run in which every step is polite leads to this state. */
  ghost predicate Reached(s: State) {
    Reachable(Allowed, Next, INIT, s)
  }

  function Writes(wire: seq<nat>, frame: nat): nat {
    multiset(wire)[frame]
  }

  ghost predicate Inv(s: State) {
    && s.last == (if Current(s) == 0 && s.phase.Idle? then 0
                  else if s.phase.Idle? then SeqOf(Current(s) - 1)
                  else SeqOf(Current(s)))
    && |s.acks| <= ACK_CAP
    && (forall f | f in s.wire :: f < Current(s) + (if s.phase.Idle? then 0 else 1))
    && (forall a | a in s.acks :: a.pktSeq == SeqOf(a.frame) && a.frame in s.wire)
    && (forall w | 0 <= w < |s.results| :: s.results[w].Acked? ==> s.results[w].frame == w && w in s.wire)
    && (forall f: nat :: Writes(s.wire, f) <= MAX_RETRIES + 1)
    && (match s.phase
        case Idle => true
        case Writing(n) => n <= MAX_RETRIES && Writes(s.wire, Current(s)) == n
        case Waiting(n) => n <= MAX_RETRIES && Writes(s.wire, Current(s)) == n + 1)
  }

  lemma SeqsDiffer(a: nat, b: nat)
    requires a < b <= a + 2
    ensures SeqOf(a) != SeqOf(b)
  {
  }

  lemma BeginKeeps(s: State)
    requires Inv(s) && Enabled(s, Begin)
    ensures Inv(Apply(s, Begin))
  {
    assert Current(s) !in s.wire;
  }

  lemma WriteKeeps(s: State)
    requires Inv(s) && Enabled(s, Write)
    ensures Inv(Apply(s, Write))
  {
    var t := Apply(s, Write);
    assert forall f: nat :: Writes(t.wire, f) == Writes(s.wire, f) + (if f == Current(s) then 1 else 0);
  }

  lemma TakeKeeps(s: State)
    requires Inv(s) && Enabled(s, Take) && Polite(s, Take)
    ensures Inv(Apply(s, Take))
  {
    var a := s.acks[0];
    assert a in s.acks;
    if a.pktSeq == s.last && a.frame != Current(s) {
      SeqsDiffer(a.frame, Current(s));
      assert false;
    }
  }

  lemma InvStep(s: State, step: Step)
    requires Inv(s) && Enabled(s, step) && Polite(s, step)
    ensures Inv(Apply(s, step))
  {
    match step
    case Begin => BeginKeeps(s);
    case Write => WriteKeeps(s);
    case Take => TakeKeeps(s);
    case _ =>
  }

  lemma InvReached(s: State)
    requires Reached(s)
    ensures Inv(s)
  {
    forall s, step | Inv(s) && Allowed(s, step) ensures Inv(Next(s, step)) {
      InvStep(s, step);
    }
    Invariant(Allowed, Next, Inv, INIT, s);
  }

  /**
    * In every run a write that succeeded was acknowledged as itself, after it was on the wire, and no frame is put on
    * the wire more than four times.
    */
  lemma SuccessIsOwnAck(s: State, w: nat)
    requires Reached(s)
    ensures Writes(s.wire, w) <= 4
    ensures w < |s.results| && s.results[w].Acked? ==> s.results[w] == Acked(w) && w in s.wire
  {
    InvReached(s);
  }

  /**
    * Which acknowledgements end a write: those of the frames a multiple of three away. The premise is needed as it
    * stands, for the third frame before is the nearest of them.
    */
  lemma TakeMatchesIff(s: State)
    requires Inv(s) && Enabled(s, Take)
    ensures Apply(s, Take).results
      == if s.acks[0].frame % 3 == Current(s) % 3 then s.results + [Acked(s.acks[0].frame)] else s.results
  {
    assert s.acks[0] in s.acks;
  }

  /** The sequences are 1, 2, 3 and again 1. */
  lemma SequenceCycle(last: PktSeq)
    ensures NextSeq(0) == 1 && NextSeq(1) == 2 && NextSeq(2) == 3 && NextSeq(3) == 1
    ensures SeqOf(0) == 1
  {
  }

  /** A time-out is followed by another write until the fourth, which is the last: the frame is written four times. */
  lemma FourWrites(s: State)
    requires Reached(s) && s.phase.Waiting?
    ensures var n := Writes(s.wire, Current(s));
      var t := Apply(s, Timeout);
      && 1 <= n <= 4
      && (n < 4 ==> t.phase.Writing? && Writes(Apply(t, Write).wire, Current(t)) == n + 1 && Current(t) == Current(s))
      && (n == 4 ==> t.phase.Idle? && t.results == s.results + [Failed])
  {
    InvReached(s);
  }

  /** An acknowledgement that arrives is queued behind the others unless four are waiting. */
  lemma QueuedIff(s: State, frame: nat)
    requires Enabled(s, Arrive(frame))
    ensures Apply(s, Arrive(frame)).acks
      == if |s.acks| < 4 then s.acks + [Ack(frame, SeqOf(frame))] else s.acks
  {
  }

  // writeWithACK as a loop over attempts

  datatype Event = Arrived(frame: nat) | Drawn

  datatype Ending = TimedOut | Cancelled | Closed

  datatype Error = SerialWrite | NoAck | ContextDone | NcpClosed

  /**
    * What one attempt meets: whether the port takes the frame; then, in this order, acknowledgements queued by the read
    * loop and chances to draw one; and, if none drawn matches, what ends the wait.
    */
  datatype Attempt = Attempt(written: bool, events: seq<Event>, ending: Ending)

  function StepOf(e: Event): Step {
    match e case Arrived(frame) => Arrive(frame) case Drawn => Take
  }

  /** The wait of one attempt, event by event. Nothing can be drawn from an empty queue. */
  function Waited(s: State, events: seq<Event>): State
    decreases |events|
  {
    if events == [] || !s.phase.Waiting? then s else Waited(Next(s, StepOf(events[0])), events[1..])
  }

  function Tried(s: State, a: Attempt): State {
    if !a.written then Next(s, WriteFails)
    else
      var t := Waited(Next(s, Write), a.events);
      if !t.phase.Waiting? then t
      else Next(t, if a.ending.TimedOut? then Timeout else Abort)
  }

  function Wrote(s: State, attempts: seq<Attempt>): State
    decreases |attempts|
  {
    if attempts == [] || !s.phase.Writing? then s else Wrote(Tried(s, attempts[0]), attempts[1..])
  }

  /** The error an attempt that is the last ends the write with. */
  function ErrorOf(a: Attempt): Error {
    if !a.written then SerialWrite
    else match a.ending case TimedOut => NoAck case Cancelled => ContextDone case Closed => NcpClosed
  }

  /** Every acknowledgement queued, or to arrive, is of a frame on the wire and at most two frames old. */
  predicate TimelyEvents(wire: seq<nat>, current: nat, events: seq<Event>) {
    forall e | e in events && e.Arrived? :: (e.frame in wire || e.frame == current) && current <= e.frame + 2
  }

  predicate Timely(s: State, attempts: seq<Attempt>) {
    && (forall a | a in s.acks :: Current(s) <= a.frame + 2)
    && (forall a | a in attempts :: TimelyEvents(s.wire, Current(s), a.events))
  }

  /** What one write keeps while it goes on: a run of the system above, every acknowledgement drawn a recent one. */
  ghost predicate Running(from: State, s: State) {
    && Reachable(Allowed, Next, from, s)
    && (!s.phase.Idle? ==>
          && Current(s) == Current(from)
          && (forall a | a in s.acks :: Current(from) <= a.frame + 2)
          && (forall f | f in from.wire :: f in s.wire))
  }

  lemma RunningStep(from: State, s: State, step: Step)
    requires Running(from, s) && !s.phase.Idle? && Enabled(s, step) && !step.Begin?
    requires step.Arrive? ==> Current(from) <= step.frame + 2
    ensures Running(from, Next(s, step))
  {
    if step.Take? { assert s.acks[0] in s.acks; }
    Further(Allowed, Next, from, s, step);
    hide Runs.Reachable;
  }

  lemma {:induction false} WaitedRuns(from: State, s: State, events: seq<Event>)
    requires Running(from, s) && (s.phase.Waiting? ==> Current(from) in s.wire)
    requires TimelyEvents(from.wire, Current(from), events)
    ensures Running(from, Waited(s, events))
    ensures Waited(s, events).phase == s.phase || Waited(s, events).phase.Idle?
    decreases |events|
  {
    if events != [] && s.phase.Waiting? {
      var step := StepOf(events[0]);
      assert events[0] in events && forall e | e in events[1..] :: e in events;
      if Enabled(s, step) { RunningStep(from, s, step); }
      WaitedRuns(from, Next(s, step), events[1..]);
    }
  }

  lemma TriedRuns(from: State, s: State, a: Attempt)
    requires Running(from, s) && s.phase.Writing? && TimelyEvents(from.wire, Current(from), a.events)
    ensures Running(from, Tried(s, a)) && !Tried(s, a).phase.Waiting?
  {
    if !a.written {
      RunningStep(from, s, WriteFails);
    } else {
      RunningStep(from, s, Write);
      var u := Next(s, Write);
      WaitedRuns(from, u, a.events);
      var t := Waited(u, a.events);
      if t.phase.Waiting? {
        RunningStep(from, t, if a.ending.TimedOut? then Timeout else Abort);
      }
    }
  }

  lemma {:induction false} WroteRuns(from: State, s: State, attempts: seq<Attempt>)
    requires Running(from, s) && !s.phase.Waiting?
    requires forall a | a in attempts :: TimelyEvents(from.wire, Current(from), a.events)
    ensures Running(from, Wrote(s, attempts))
    decreases |attempts|
  {
    if attempts != [] && s.phase.Writing? {
      assert attempts[0] in attempts && forall a | a in attempts[1..] :: a in attempts;
      TriedRuns(from, s, attempts[0]);
      WroteRuns(from, Tried(s, attempts[0]), attempts[1..]);
    }
  }

  lemma ReachedAfter(from: State, s: State)
    requires Reached(from) && Reachable(Allowed, Next, from, s)
    ensures Reached(s)
  {
    Transitive(Allowed, Next, INIT, from, s);
  }

  /**
    * The loop is a run of the system: whatever a write with recent acknowledgements meets, its end is a reachable
    * state, so if it succeeds its own frame was acknowledged.
    */
  lemma WriteIsARun(s: State, attempts: seq<Attempt>)
    requires Reached(s) && s.phase.Writing? && Timely(s, attempts)
    ensures var t := Wrote(s, attempts);
      && Reached(t)
      && (|t.results| > |s.results| && t.results[|s.results|].Acked? ==> t.results[|s.results|] == Acked(|s.results|))
  {
    Here(Allowed, Next, s);
    WroteRuns(s, s, attempts);
    ReachedAfter(s, Wrote(s, attempts));
    SuccessIsOwnAck(Wrote(s, attempts), |s.results|);
  }

  /** The NCP driver's side of the link. Beside its fields, how far the write has come and how writes ended. */
  class Link {
    var llPktSeq: PktSeq
    var wire: seq<nat>
    var llAckCh: seq<Ack>
    ghost var phase: Phase
    ghost var results: seq<Result>

    constructor ()
      ensures Abs() == INIT
    {
      llPktSeq, wire, llAckCh := 0, [], [];
      phase, results := Idle, [];
    }

    ghost function Abs(): State
      reads this
    {
      State(llPktSeq, phase, wire, llAckCh, results)
    }

    method NextPktSeq() returns (pktSeq: PktSeq)
      requires phase.Idle?
      modifies this
      ensures pktSeq == llPktSeq && pktSeq != 0 && Abs() == Apply(old(Abs()), Begin)
    {
      llPktSeq := llPktSeq % 3 + 1;
      pktSeq := llPktSeq;
      phase := Writing(0);
    }

    /** The read loop's send, which drops what does not fit. */
    method Arrive(frame: nat)
      requires frame in wire
      modifies `llAckCh
      ensures Abs() == Apply(old(Abs()), Step.Arrive(frame))
    {
      if |llAckCh| < ACK_CAP {
        llAckCh := llAckCh + [Ack(frame, SeqOf(frame))];
      }
    }

    /** The waiting loop of one attempt: true when an acknowledgement with the wanted sequence is drawn. */
    method Wait(events: seq<Event>, pktSeq: PktSeq) returns (hit: bool)
      requires phase.Waiting? && pktSeq == llPktSeq
      requires forall e | e in events && e.Arrived? :: e.frame in wire
      modifies `llAckCh, `phase, `results
      ensures Abs() == Waited(old(Abs()), events)
      ensures phase == (if hit then Idle else old(phase))
      ensures if hit then |results| == |old(results)| + 1 && results[|old(results)|].Acked? else results == old(results)
    {
      hit := false;
      for i := 0 to |events|
        invariant phase == old(phase) && results == old(results)
        invariant Waited(Abs(), events[i..]) == Waited(old(Abs()), events)
      {
        assert events[i..][1..] == events[i + 1..] && events[i] in events;
        ghost var was := Abs();
        match events[i] {
          case Arrived(frame) =>
            Arrive(frame);
          case Drawn =>
            if llAckCh != [] {
              var ack := llAckCh[0];
              llAckCh := llAckCh[1..];
              if ack.pktSeq == pktSeq {
                phase, results := Idle, results + [Acked(ack.frame)];
                assert Abs() == Next(was, Take);
                return true;
              }
            }
        }
        assert Abs() == Next(was, StepOf(events[i]));
      }
    }

    /** One turn of the retry loop: ended when it returns, otherwise it timed out. */
    method Try(frame: nat, pktSeq: PktSeq, attempt: nat, a: Attempt) returns (ended: bool, r: Outcome<(), Error>)
      requires phase == Writing(attempt) && attempt <= MAX_RETRIES && frame == |results| && pktSeq == llPktSeq
      requires forall e | e in a.events && e.Arrived? :: e.frame in wire || e.frame == frame
      modifies `wire, `llAckCh, `phase, `results
      ensures Abs() == Tried(old(Abs()), a)
      ensures wire == old(wire) + if a.written then [frame] else []
      ensures !r.Panic? && (!r.Ok? ==> r == Err(ErrorOf(a)))
      ensures !ended ==> a.written && a.ending.TimedOut? && !r.Ok?
      ensures phase == if ended || attempt == MAX_RETRIES then Idle else Writing(attempt + 1)
      ensures if phase.Idle? then |results| == |old(results)| + 1 && (r.Ok? <==> results[|old(results)|].Acked?)
              else results == old(results)
      ensures ended && !r.Ok? ==> r != Err(NoAck)
    {
      if !a.written {
        phase, results := Idle, results + [Failed];
        return true, Err(SerialWrite);
      }
      wire := wire + [frame];
      phase := Waiting(attempt);
      ghost var was := Abs();
      var hit := Wait(a.events, pktSeq);
      hide Waited;
      if hit {
        return true, Ok(());
      }
      match a.ending {
        case TimedOut =>
          ended, r := false, Err(NoAck);
          if attempt < MAX_RETRIES {
            phase := Writing(attempt + 1);
          } else {
            phase, results := Idle, results + [Failed];
          }
        case Cancelled =>
          ended, r := true, Err(ContextDone);
          phase, results := Idle, results + [Failed];
        case Closed =>
          ended, r := true, Err(NcpClosed);
          phase, results := Idle, results + [Failed];
      }
    }

    /** tries counts the attempts begun. */
    method WriteWithAck(frame: nat, pktSeq: PktSeq, attempts: seq<Attempt>) returns (r: Outcome<(), Error>, tries: nat)
      requires phase == Writing(0) && frame == |results| && pktSeq == llPktSeq && |attempts| == MAX_RETRIES + 1
      requires forall a, e | a in attempts && e in a.events && e.Arrived? :: e.frame in wire || e.frame == frame
      modifies `wire, `llAckCh, `phase, `results
      ensures Abs() == Wrote(old(Abs()), attempts) && phase.Idle? && |results| == |old(results)| + 1
      ensures r.Ok? <==> results[|old(results)|].Acked?
      ensures 0 < tries <= MAX_RETRIES + 1
      ensures forall i | 0 <= i < tries - 1 :: attempts[i].written && attempts[i].ending.TimedOut?
      ensures !r.Ok? ==> r == Err(ErrorOf(attempts[tries - 1])) && (r == Err(NoAck) ==> tries == MAX_RETRIES + 1)
      ensures !r.Ok? ==>
        var last := attempts[tries - 1];
        && (r == Err(SerialWrite) <==> !last.written)
        && (r == Err(NoAck) <==> last.written && last.ending == TimedOut)
        && (r == Err(ContextDone) <==> last.written && last.ending == Cancelled)
        && (r == Err(NcpClosed) <==> last.written && last.ending == Closed)
      ensures wire == old(wire) + seq(if r == Err(SerialWrite) then tries - 1 else tries, _ => frame)
    {
      tries := 0;
      r := Err(NoAck);
      for attempt := 0 to MAX_RETRIES + 1
        invariant tries == attempt && r == Err(NoAck) && llPktSeq == pktSeq
        invariant attempt <= MAX_RETRIES ==> phase == Writing(attempt) && results == old(results)
        invariant attempt > MAX_RETRIES ==>
          phase.Idle? && |results| == |old(results)| + 1 && !results[|old(results)|].Acked?
        invariant wire == old(wire) + seq(attempt, _ => frame)
        invariant Wrote(Abs(), attempts[attempt..]) == Wrote(old(Abs()), attempts)
        invariant forall i | 0 <= i < attempt :: attempts[i].written && attempts[i].ending.TimedOut?
      {
        var a := attempts[attempt];
        assert a in attempts && attempts[attempt..][1..] == attempts[attempt + 1..];
        hide Tried;
        tries := tries + 1;
        var ended;
        ended, r := Try(frame, pktSeq, attempt, a);
        if ended {
          return;
        }
      }
    }
  }
}
