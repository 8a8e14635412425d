/** The cache of recent announces that keeps one device from being interviewed twice in three seconds. */
module Debounce {
  import opened Runs
  import opened Sets

  type Ieee = string

  /** Nanoseconds of a clock that never runs backwards. */
  type Time = nat

  const DEBOUNCE: Time := 3_000_000_000
  const MINUTE: Time := 60_000_000_000
  const CACHE_CAP := 50

  type Cache = map<Ieee, Time>

  /** lastJoin, and the latest reading of the clock so far. */
  datatype State = State(last: Cache, clock: Time)

  /**
    * One pass through the end of HandleAnnounce reads the clock several times: for the check, for the new entry,
    * for every entry the soft eviction looks at, and, after a hard clear, for the entry put back. The entries evicted
    * are those that had lasted a minute when looked at, somewhere between stored and end.
    */
  datatype Step =
    | Announce(ieee: Ieee, check: Time, stored: Time, evicted: set<Ieee>, end: Time)
    | Leave(ieee: Ieee)

  predicate Rejects(s: State, step: Step)
    requires step.Announce?
  {
    step.ieee in s.last && step.check - s.last[step.ieee] < DEBOUNCE
  }

  function Entered(s: State, step: Step): Cache
    requires step.Announce?
  {
    s.last[step.ieee := step.stored]
  }

  predicate Enabled(s: State, step: Step) {
    match step
    case Announce(_, check, stored, evicted, end) =>
      && s.clock <= check <= stored <= end
      && evicted <= Entered(s, step).Keys
      && (forall k | k in Entered(s, step) && stored - Entered(s, step)[k] > MINUTE :: k in evicted)
      && (forall k | k in evicted :: end - Entered(s, step)[k] > MINUTE)
    case Leave(_) => true
  }

  /** Whether the announce empties the cache: it is over its cap even after the soft eviction. */
  predicate Clears(s: State, step: Step) {
    && step.Announce? && !Rejects(s, step)
    && |Entered(s, step)| > CACHE_CAP && |Entered(s, step) - step.evicted| > CACHE_CAP
  }

  function Apply(s: State, step: Step): State {
    match step
    case Leave(ieee) => s.(last := s.last - {ieee})
    case Announce(ieee, check, stored, evicted, end) =>
      if Rejects(s, step) then s.(clock := check)
      else if |Entered(s, step)| <= CACHE_CAP then State(Entered(s, step), end)
      else if |Entered(s, step) - evicted| <= CACHE_CAP then State(Entered(s, step) - evicted, end)
      else State(map[ieee := end], end)
  }

  /** The time in the entry an announce leaves of its own. */
  function StartTime(s: State, step: Step): Time
    requires step.Announce?
  {
    if Clears(s, step) then step.end else step.stored
  }

  /** The announce starts an interview of the device, recorded at the given time. */
  predicate Starts(s: State, step: Step, ieee: Ieee, at: Time) {
    && step.Announce? && step.ieee == ieee && !Rejects(s, step)
    && at == StartTime(s, step)
  }

  // The cap

  /** The cache is within its cap after every step, and an announce brings even a larger one within it. */
  lemma CapKept(s: State, step: Step)
    requires Enabled(s, step)
    requires |s.last| <= CACHE_CAP || (step.Announce? && !Rejects(s, step))
    ensures |Apply(s, step).last| <= CACHE_CAP
  {
    if step.Leave? {
      Removal(s.last, step.ieee);
    }
  }

  lemma Removal(last: Cache, ieee: Ieee)
    ensures |last - {ieee}| <= |last|
  {
    var rest := last - {ieee};
    assert rest.Keys <= last.Keys;
    SubsetSize(rest.Keys, last.Keys);
  }

  function Next(s: State, step: Step): State {
    if Enabled(s, step) then Apply(s, step) else s
  }

  lemma CapAlways(s: State)
    requires Reachable(Enabled, Next, State(map[], 0), s)
    ensures |s.last| <= CACHE_CAP
  {
    var capped := (s: State) => |s.last| <= CACHE_CAP;
    forall s, step | capped(s) && Enabled(s, step) ensures capped(Next(s, step)) {
      CapKept(s, step);
    }
    Invariant(Enabled, Next, capped, State(map[], 0), s);
  }

  /** The device started at a: its entry is still there, or it was evicted more than a minute later. */
  predicate Protected(s: State, ieee: Ieee, a: Time) {
    (ieee in s.last && s.last[ieee] >= a) || s.clock > a + MINUTE
  }

  lemma StartProtects(s: State, step: Step, ieee: Ieee, a: Time)
    requires Enabled(s, step) && Starts(s, step, ieee, a)
    ensures Protected(Apply(s, step), ieee, a) && Apply(s, step).clock >= a
  {
  }

  lemma ProtectionLasts(s: State, step: Step, ieee: Ieee, a: Time)
    requires Enabled(s, step) && Protected(s, ieee, a) && s.clock >= a
    requires step != Leave(ieee) && !Clears(s, step)
    ensures Protected(Apply(s, step), ieee, a) && Apply(s, step).clock >= a
  {
  }

  /** A step that is neither a leave of the device nor a hard clear of the cache. */
  predicate Undisturbed(s: State, step: Step, ieee: Ieee) {
    Enabled(s, step) && step != Leave(ieee) && !Clears(s, step)
  }

  /**
    * From any state: an announce that starts an interview of a device, and a later one that starts another, with
    * anything in between but a leave of the device or a hard clear, are at least three seconds apart. The soft
    * eviction never lets one through.
    */
  lemma StartsThreeSecondsApart(s: State, first: Step, t: State, second: Step, ieee: Ieee, a: Time, b: Time)
    requires Enabled(s, first) && Starts(s, first, ieee, a)
    requires Reachable((s, step) => Undisturbed(s, step, ieee), Next, Apply(s, first), t)
    requires Enabled(t, second) && Starts(t, second, ieee, b)
    ensures b - a >= DEBOUNCE
  {
    StartProtects(s, first, ieee, a);
    var inv := (s: State) => Protected(s, ieee, a) && s.clock >= a;
    forall s, step | inv(s) && Undisturbed(s, step, ieee) ensures inv(Next(s, step)) {
      ProtectionLasts(s, step, ieee, a);
    }
    Invariant((s, step) => Undisturbed(s, step, ieee), Next, inv, Apply(s, first), t);
  }

  /** A leave in between does let a second interview start at once. */
  lemma LeaveAllowsRestart(s: State, first: Step, ieee: Ieee, a: Time, b: Time)
    requires Enabled(s, first) && Starts(s, first, ieee, a)
    requires Apply(s, first).clock <= b
    ensures var t := Apply(Apply(s, first), Leave(ieee));
      exists second :: Enabled(t, second) && Starts(t, second, ieee, b)
  {
    var t := Apply(Apply(s, first), Leave(ieee));
    var second := Announce(ieee, b, b, (set k | k in t.last && b - t.last[k] > MINUTE), b);
    assert ieee !in t.last && t.clock <= b by {
      hide Rejects, Entered;
    }
    hide Apply;
    assert Enabled(t, second) && Starts(t, second, ieee, b);
  }

  /** An announce starts an interview exactly when its device has no entry, or one three seconds old. */
  lemma StartsIff(s: State, step: Step)
    requires Enabled(s, step) && step.Announce?
    ensures (exists at :: Starts(s, step, step.ieee, at))
      <==> step.ieee !in s.last || step.check - s.last[step.ieee] >= 3_000_000_000
  {
    assert Starts(s, step, step.ieee, StartTime(s, step)) || Rejects(s, step);
  }

  /** No entry is from the future. */
  predicate Past(s: State) {
    forall k | k in s.last :: s.last[k] <= s.clock
  }

  lemma PastKept(s: State, step: Step)
    requires Past(s) && Enabled(s, step)
    ensures Past(Apply(s, step))
  {
  }

  /** No interview of the device is started by the step. */
  ghost function WithoutStart(ieee: Ieee): (State, Step) -> bool {
    (s: State, step: Step) => Enabled(s, step) && forall at :: !Starts(s, step, ieee, at)
  }

  lemma QuietEntry(s: State, step: Step, ieee: Ieee, since: Time)
    requires WithoutStart(ieee)(s, step) && (ieee in s.last ==> s.last[ieee] <= since)
    ensures ieee in Apply(s, step).last ==> Apply(s, step).last[ieee] <= since
  {
    if step.Announce? && step.ieee == ieee {
      StartsIff(s, step);
      assert !Starts(s, step, ieee, StartTime(s, step));
    }
  }

  /** Over runs: an announce of a device that has started no interview for three seconds starts one. */
  lemma QuietDeviceStarts(s: State, t: State, step: Step)
    requires Past(s) && step.Announce? && Reachable(WithoutStart(step.ieee), Next, s, t)
    requires Enabled(t, step) && step.check >= s.clock + 3_000_000_000
    ensures exists at :: Starts(t, step, step.ieee, at)
  {
    var ieee := step.ieee;
    var inv := (u: State) => ieee in u.last ==> u.last[ieee] <= s.clock;
    forall u, other | inv(u) && WithoutStart(ieee)(u, other) ensures inv(Next(u, other)) {
      QuietEntry(u, other, ieee, s.clock);
    }
    Invariant(WithoutStart(ieee), Next, inv, s, t);
    StartsIff(t, step);
  }

  /**
    * What an announce leaves in the cache. One that starts nothing changes nothing. One that does adds its entry; with
    * more than 50 the entries over a minute old go, and if that is not enough all go but its own.
    */
  lemma CacheAfter(s: State, step: Step)
    requires Enabled(s, step) && step.Announce?
    ensures var starts := step.ieee !in s.last || step.check - s.last[step.ieee] >= 3_000_000_000;
      var entered := s.last[step.ieee := step.stored];
      var kept := entered - step.evicted;
      Apply(s, step).last ==
        if !starts then s.last
        else if |entered| <= 50 then entered
        else if |kept| <= 50 then kept
        else map[step.ieee := step.end]
    ensures forall k | k in s.last[step.ieee := step.stored] ::
      var at := s.last[step.ieee := step.stored][k];
      && (step.stored - at > 60_000_000_000 ==> k in step.evicted)
      && (k in step.evicted ==> step.end - at > 60_000_000_000)
  {
    assert Entered(s, step) == s.last[step.ieee := step.stored];
    hide Entered;
  }

  /** DeviceManager's field lastJoin and the two places that write it. */
  class JoinCache {
    var last: Cache

    constructor ()
      ensures last == map[]
    {
      last := map[];
    }

    /** HandleLeave's part. RemoveDevice leaves the cache alone. */
    method Leave(ieee: Ieee)
      modifies this
      ensures forall now :: State(last, now) == Apply(State(old(last), now), Step.Leave(ieee))
    {
      last := last - {ieee};
    }

    /** HandleAnnounce's part; looked gives the reading of the clock when the eviction looks at each entry. */
    method Announce(ieee: Ieee, check: Time, stored: Time, looked: Ieee -> Time, end: Time) returns (start: bool)
      requires check <= stored <= end && forall k :: stored <= looked(k) <= end
      modifies this
      ensures var s := State(old(last), check);
        var step := Step.Announce(ieee, check, stored, Stale(old(last)[ieee := stored], looked), end);
        && Enabled(s, step) && start == !Rejects(s, step) && last == Apply(s, step).last
      ensures start <==> ieee !in old(last) || check - old(last)[ieee] >= 3_000_000_000
    {
      if ieee in last && check - last[ieee] < DEBOUNCE {
        return false;
      }
      start := true;
      last := last[ieee := stored];
      ghost var entered := last;
      if |last| > CACHE_CAP {
        var todo := last.Keys;
        while todo != {}
          invariant todo <= last.Keys <= entered.Keys
          invariant forall k | k in last :: last[k] == entered[k]
          invariant forall k | k in entered ::
            k in last <==> k in todo || looked(k) - entered[k] <= MINUTE
        {
          var k :| k in todo;
          if looked(k) - last[k] > MINUTE {
            last := last - {k};
          }
          todo := todo - {k};
        }
        assert last == entered - Stale(entered, looked);
        if |last| > CACHE_CAP {
          last := map[ieee := end];
        }
      }
    }
  }

  /** The entries that had lasted more than a minute when they were looked at. */
  function Stale(cache: Cache, looked: Ieee -> Time): set<Ieee> {
    set k | k in cache && looked(k) - cache[k] > MINUTE
  }
}
