/** The short-address index against the device store, with every critical section and transaction one step. */
module AddrIndex {
  import opened Bytes
  import opened DeviceStore
  import opened Outcomes
  import Interviews
  import opened Runs

  type Index = map<u16, Ieee>

  /** Where the goroutine that handles indications one at a time stands inside a handler. */
  datatype Reader =
    | Idle
      /** HandleJoin or HandleAnnounce, the index written */
    | Indexed(ieee: Ieee, short: u16)
      /** the same handlers, with the record they are about to save */
    | Fetched(device: Device)
      /** RebuildAddrIndex, the store listed */
    | Listed(devices: seq<Device>)
      /** lookupOrRebuild, nothing found under the read lock */
    | Missed(short: u16)
      /** lookupOrRebuild, write lock held and the store listed */
    | Locked(short: u16, devices: seq<Device>)

  datatype State = State(store: Devices, index: Index, reader: Reader)

  /**
    * Indication to LookupInstall are the reader's. Unindex and Delete belong to HandleLeave and to RemoveDevice, which
    * any number of HTTP requests may run at the same time; Update is every caller of UpdateDevice.
    */
  datatype Step =
    | Indication(ieee: Ieee, short: u16)
    | Fetch(now: nat)
    | Save
    | GiveUp
    | List(devices: seq<Device>)
    | Install
    | Lookup(short: u16)
    | LookupList(devices: seq<Device>)
    | LookupInstall
    | Unindex(ieee: Ieee, short: u16)
    | Delete(ieee: Ieee)
    | Update(device: Device)

  /** The index a listing gives: of two records with one short address the later wins. */
  function InstallAll(devices: seq<Device>): Index {
    if devices == [] then map[]
    else
      var last := devices[|devices| - 1];
      InstallAll(devices[..|devices| - 1])[last.short := last.ieee]
  }

  /** What the loop of lookupOrRebuild finds in a listing. */
  function Found(devices: seq<Device>, short: u16): Ieee {
    if devices == [] then ""
    else
      var last := devices[|devices| - 1];
      if last.short == short then last.ieee else Found(devices[..|devices| - 1], short)
  }

  /** The record HandleJoin and HandleAnnounce save: the stored one readdressed, or a new one. */
  function Readdressed(store: Devices, ieee: Ieee, short: u16, now: nat): Device {
    if ieee in store then store[ieee].(short := short, seen := now)
    else Device(ieee, short, now, now, Blank)
  }

  ghost predicate Enabled(s: State, step: Step) {
    match step
    case Indication(ieee, _) => s.reader.Idle? && ieee != ""
    case Fetch(_) => s.reader.Indexed?
    case Save => s.reader.Fetched?
    case GiveUp => !s.reader.Idle? && !s.reader.Locked?
    case List(devices) => s.reader.Idle? && Lists(s.store, devices)
    case Install => s.reader.Listed?
    case Lookup(_) => s.reader.Idle?
    case LookupList(devices) => s.reader.Missed? && Lists(s.store, devices)
    case LookupInstall => s.reader.Locked?
    case Unindex(ieee, short) => !s.reader.Locked? && short in s.index && s.index[short] == ieee
    case Delete(_) => true
    case Update(d) => d.ieee in s.store && s.store[d.ieee].short == d.short
  }

  ghost function Apply(s: State, step: Step): State
    requires Enabled(s, step)
  {
    match step
    case Indication(ieee, short) => s.(index := s.index[short := ieee], reader := Indexed(ieee, short))
    case Fetch(now) => s.(reader := Fetched(Readdressed(s.store, s.reader.ieee, s.reader.short, now)))
    case Save => s.(store := s.store[s.reader.device.ieee := s.reader.device], reader := Idle)
    case GiveUp => s.(reader := Idle)
    case List(devices) => s.(reader := Listed(devices))
    case Install => s.(index := InstallAll(s.reader.devices), reader := Idle)
    case Lookup(short) => if short in s.index then s else s.(reader := Missed(short))
    case LookupList(devices) =>
      if s.reader.short in s.index then s.(reader := Idle) else s.(reader := Locked(s.reader.short, devices))
    case LookupInstall => s.(index := InstallAll(s.reader.devices), reader := Idle)
    case Unindex(_, short) => s.(index := s.index - {short})
    case Delete(ieee) => s.(store := s.store - {ieee})
    case Update(d) => s.(store := s.store[d.ieee := d])
  }

  /** The short address a lookup step settles, and the answer it returns. */
  ghost predicate Answers(s: State, step: Step, short: u16, ieee: Ieee)
    requires Enabled(s, step)
  {
    match step
    case Lookup(a) => short == a && a in s.index && ieee == s.index[a]
    case LookupList(devices) =>
      && short == s.reader.short
      && ieee == if short in s.index then s.index[short] else Found(devices, short)
    case _ => false
  }

  /** No join or announce takes a short address that another stored device holds. */
  ghost predicate Polite(s: State, step: Step) {
    step.Indication? ==> OnlyHolder(s.store, step.ieee, step.short)
  }

  ghost predicate OnlyHolder(store: Devices, ieee: Ieee, short: u16) {
    forall k | k in store && store[k].short == short :: k == ieee
  }

  ghost predicate Allowed(s: State, step: Step) {
    Enabled(s, step) && Polite(s, step)
  }

  ghost function Next(s: State, step: Step): State {
    if Enabled(s, step) then Apply(s, step) else s
  }

  /** A process starting on an existing database, in which no two devices share a short address, with an empty index. */
  ghost predicate Start(s: State) {
    Keyed(s.store) && "" !in s.store && Distinct(s.store) && s.index == map[] && s.reader.Idle?
  }

  /** Some interleaving since the start in which every join and announce is polite leads to this state. */
  ghost predicate Reached(s: State) {
    exists start :: Start(start) && Reachable(Allowed, Next, start, s)
  }

  /** A linear scan of the store. */
  ghost function Scan(store: Devices, short: u16): Ieee {
    if k :| k in store && store[k].short == short then k else ""
  }

  // The invariant

  ghost predicate Distinct(store: Devices) {
    forall j, k | j in store && k in store && store[j].short == store[k].short :: j == k
  }

  /** The index at a stored device's short address is absent or that device. */
  ghost predicate Complete(store: Devices, index: Index) {
    forall k | k in store && store[k].short in index :: index[store[k].short] == k
  }

  ghost predicate Named(index: Index) {
    forall a | a in index :: index[a] != ""
  }

  ghost predicate Holds(devices: seq<Device>, ieee: Ieee, short: u16) {
    exists d :: d in devices && d.ieee == ieee && d.short == short
  }

  /** A listing taken earlier, from which devices can only have gone since. */
  ghost predicate Covers(devices: seq<Device>, store: Devices) {
    && (forall k | k in store :: Holds(devices, k, store[k].short))
    && (forall d, e | d in devices && e in devices && d.short == e.short :: d.ieee == e.ieee)
    && (forall d | d in devices :: d.ieee != "")
  }

  ghost predicate ReaderOk(s: State) {
    match s.reader
    case Indexed(ieee, short) =>
      ieee != "" && OnlyHolder(s.store, ieee, short) && (short in s.index ==> s.index[short] == ieee)
    case Fetched(d) =>
      d.ieee != "" && OnlyHolder(s.store, d.ieee, d.short) && (d.short in s.index ==> s.index[d.short] == d.ieee)
    case Listed(devices) => Covers(devices, s.store)
    case Locked(_, devices) => Covers(devices, s.store)
    case _ => true
  }

  ghost predicate Inv(s: State) {
    Keyed(s.store) && "" !in s.store && Distinct(s.store) && Complete(s.store, s.index) && Named(s.index) && ReaderOk(s)
  }

  lemma {:induction false} InstallAllHolds(devices: seq<Device>, ieee: Ieee, short: u16)
    requires forall d, e | d in devices && e in devices && d.short == e.short :: d.ieee == e.ieee
    requires Holds(devices, ieee, short)
    ensures short in InstallAll(devices) && InstallAll(devices)[short] == ieee
  {
    var front, last := devices[..|devices| - 1], devices[|devices| - 1];
    assert devices == front + [last];
    assert last in devices;
    if last.short != short {
      InstallAllHolds(front, ieee, short);
    }
  }

  lemma {:induction false} InstallAllFrom(devices: seq<Device>, short: u16)
    requires short in InstallAll(devices)
    ensures Holds(devices, InstallAll(devices)[short], short)
  {
    var front, last := devices[..|devices| - 1], devices[|devices| - 1];
    assert devices == front + [last];
    assert last in devices;
    if last.short != short {
      InstallAllFrom(front, short);
      var d :| d in front && d.ieee == InstallAll(front)[short] && d.short == short;
      assert d in devices;
    }
  }

  /** The loop finds what the index it builds would answer. */
  lemma {:induction false} FoundIsInstalled(devices: seq<Device>, short: u16)
    ensures Found(devices, short) == if short in InstallAll(devices) then InstallAll(devices)[short] else ""
  {
    if devices != [] {
      FoundIsInstalled(devices[..|devices| - 1], short);
    }
  }

  lemma ListingCovers(store: Devices, devices: seq<Device>)
    requires Keyed(store) && "" !in store && Distinct(store) && Lists(store, devices)
    ensures Covers(devices, store)
  {
    forall k | k in store ensures Holds(devices, k, store[k].short) {
      assert store[k] in devices;
    }
  }

  /** In a store whose short addresses are distinct, the loop over any listing is the linear scan. */
  lemma FoundIsScan(store: Devices, devices: seq<Device>, short: u16)
    requires Keyed(store) && "" !in store && Distinct(store) && Lists(store, devices)
    ensures Found(devices, short) == Scan(store, short)
  {
    ListingCovers(store, devices);
    FoundIsInstalled(devices, short);
    if k :| k in store && store[k].short == short {
      assert Scan(store, short) == k;
      InstallAllHolds(devices, k, short);
    } else if short in InstallAll(devices) {
      InstallAllFrom(devices, short);
    }
  }

  lemma InstallKeeps(store: Devices, devices: seq<Device>)
    requires Covers(devices, store)
    ensures Complete(store, InstallAll(devices)) && Named(InstallAll(devices))
  {
    var index := InstallAll(devices);
    forall k | k in store && store[k].short in index ensures index[store[k].short] == k {
      assert Holds(devices, k, store[k].short);
      InstallAllHolds(devices, k, store[k].short);
    }
    forall a | a in index ensures index[a] != "" {
      InstallAllFrom(devices, a);
    }
  }

  lemma ShrinkCovers(devices: seq<Device>, store: Devices, ieee: Ieee)
    requires Covers(devices, store)
    ensures Covers(devices, store - {ieee})
  {
    var rest := store - {ieee};
    forall k | k in rest ensures Holds(devices, k, rest[k].short) {
      assert Holds(devices, k, store[k].short);
    }
  }

  lemma UpdateCovers(devices: seq<Device>, store: Devices, d: Device)
    requires Covers(devices, store) && d.ieee in store && store[d.ieee].short == d.short
    ensures Covers(devices, store[d.ieee := d])
  {
    var updated := store[d.ieee := d];
    forall k | k in updated ensures Holds(devices, k, updated[k].short) {
      assert Holds(devices, k, store[k].short);
    }
  }

  lemma InvStep(s: State, step: Step)
    requires Inv(s) && Enabled(s, step) && Polite(s, step)
    ensures Inv(Apply(s, step))
  {
    hide Covers, Lists;
    match step
    case List(devices) => ListingCovers(s.store, devices);
    case LookupList(devices) => ListingCovers(s.store, devices);
    case Install => InstallKeeps(s.store, s.reader.devices);
    case LookupInstall => InstallKeeps(s.store, s.reader.devices);
    case Delete(ieee) =>
      if s.reader.Listed? || s.reader.Locked? {
        ShrinkCovers(s.reader.devices, s.store, ieee);
      }
    case Update(d) =>
      if s.reader.Listed? || s.reader.Locked? {
        UpdateCovers(s.reader.devices, s.store, d);
      }
    case _ =>
  }

  lemma InvReached(s: State)
    requires Reached(s)
    ensures Inv(s)
  {
    forall s, step | Inv(s) && Allowed(s, step) ensures Inv(Next(s, step)) {
      InvStep(s, step);
    }
    var start :| Start(start) && Reachable(Allowed, Next, start, s);
    Invariant(Allowed, Next, Inv, start, s);
  }

  /** In every reachable state the index entry of a stored device's short address is absent or that device. */
  lemma IndexNeverWrong(s: State, ieee: Ieee)
    requires Reached(s) && ieee in s.store
    ensures s.store[ieee].short in s.index ==> s.index[s.store[ieee].short] == ieee
  {
    InvReached(s);
  }

  /**
    * The answer of lookupOrRebuild is the linear scan's of the store at that moment, exactly when the scan finds a
    * device or the index has no entry: an entry left behind by an unknown device is the only way to differ.
    */
  lemma LookupIsScan(s: State, step: Step, short: u16, ieee: Ieee)
    requires Reached(s) && Enabled(s, step) && Answers(s, step, short, ieee)
    ensures ieee == Scan(s.store, short) <==> (Scan(s.store, short) != "" || short !in s.index)
  {
    InvReached(s);
    if k :| k in s.store && s.store[k].short == short {
      assert Scan(s.store, short) == k;
    }
    if step.LookupList? {
      FoundIsScan(s.store, step.devices, short);
    }
  }

  /** A stored device is always found under its short address. */
  lemma StoredDeviceIsFound(s: State, step: Step, ieee: Ieee, answer: Ieee)
    requires Reached(s) && ieee in s.store
    requires Enabled(s, step) && Answers(s, step, s.store[ieee].short, answer)
    ensures answer == ieee
  {
    InvReached(s);
    LookupIsScan(s, step, s.store[ieee].short, answer);
    assert Scan(s.store, s.store[ieee].short) == ieee;
  }

  /**
    * What a handler saves: a stored record with the new address and the time, everything else kept; a new record for a
    * device that is not stored. The index has the new address, and no other record changes.
    */
  lemma RecordedDevice(s: State, ieee: Ieee, short: u16, now: nat)
    requires Keyed(s.store)
    ensures var t := Announced(s, ieee, short, now);
      && t.store.Keys == s.store.Keys + {ieee} && t.index == s.index[short := ieee]
      && (forall k | k in s.store && k != ieee :: t.store[k] == s.store[k])
      && t.store[ieee] == (
            if ieee in s.store then Device(ieee, short, s.store[ieee].joined, now, s.store[ieee].details)
            else Device(ieee, short, now, now, Blank))
  {
  }

  /** A rebuild leaves every stored device that is still where it was listed in the index. */
  lemma RebuildIndexesAll(s: State, ieee: Ieee)
    requires Reached(s) && (s.reader.Listed? || s.reader.Locked?) && ieee in s.store
    ensures var t := Apply(s, if s.reader.Listed? then Install else LookupInstall);
      t.store[ieee].short in t.index && t.index[t.store[ieee].short] == ieee && t.reader.Idle?
  {
    InvReached(s);
    assert Holds(s.reader.devices, ieee, s.store[ieee].short);
    InstallAllHolds(s.reader.devices, ieee, s.store[ieee].short);
  }

  /**
    * No handler, rebuild or lookup has to stay: what fails is given up without another change, and the one that holds
    * the lock of the index finishes.
    */
  lemma ReaderCanEnd(s: State)
    ensures Enabled(s, GiveUp) <==> !s.reader.Idle? && !s.reader.Locked?
    ensures Enabled(s, GiveUp) ==> Next(s, GiveUp) == State(s.store, s.index, Idle)
    ensures s.reader.Locked? ==>
      Enabled(s, LookupInstall) && Next(s, LookupInstall).reader.Idle? && Next(s, LookupInstall).store == s.store
  {
  }

  /** The first look: an entry is the answer, and nothing changes; without one the store is looked through. */
  lemma FirstLook(s: State, short: u16, ieee: Ieee)
    requires Enabled(s, Lookup(short))
    ensures short in s.index ==>
      Next(s, Lookup(short)) == s && (Answers(s, Lookup(short), short, ieee) <==> ieee == s.index[short])
    ensures short !in s.index ==>
      Next(s, Lookup(short)) == s.(reader := Missed(short)) && !Answers(s, Lookup(short), short, ieee)
  {
  }

  /** The second look, under the write lock: an entry made since the first is the answer, and nothing is rebuilt. */
  lemma SecondLook(s: State, devices: seq<Device>)
    requires Enabled(s, LookupList(devices))
    ensures var t := Next(s, LookupList(devices));
      && t.store == s.store && t.index == s.index
      && (t.reader.Idle? <==> s.reader.short in s.index)
      && (s.reader.short !in s.index ==> Next(t, LookupInstall) == State(s.store, InstallAll(devices), Idle))
  {
  }

  // What fails without the premises

  /** What a handler that records a device makes of a state, alone. */
  function Announced(s: State, ieee: Ieee, short: u16, now: nat): State {
    State(s.store[ieee := Readdressed(s.store, ieee, short, now)], s.index[short := ieee], Idle)
  }

  /** Its three steps, under any premise on steps that lets them through. */
  lemma AnnounceAlone(can: (State, Step) -> bool, s: State, ieee: Ieee, short: u16, now: nat)
    requires s.reader.Idle? && ieee != "" && Keyed(s.store) && can(s, Indication(ieee, short))
    requires forall t, step :: Enabled(t, step) && !step.Indication? ==> can(t, step)
    ensures Reachable(can, Next, s, Announced(s, ieee, short, now))
  {
    Here(can, Next, s);
    Further(can, Next, s, s, Indication(ieee, short));
    var s1 := Next(s, Indication(ieee, short));
    Further(can, Next, s, s1, Fetch(now));
    var s2 := Next(s1, Fetch(now));
    Further(can, Next, s, s2, Save);
  }

  /** Away from concurrent removals, the handler taken in steps does what the method below does. */
  lemma RecordIsItsSteps(s: State, ieee: Ieee, short: u16, now: nat)
    requires Reached(s) && s.reader.Idle? && ieee != "" && OnlyHolder(s.store, ieee, short)
    ensures Reached(Announced(s, ieee, short, now))
  {
    InvReached(s);
    ReachedFurther(s, Indication(ieee, short));
    var s1 := Apply(s, Indication(ieee, short));
    ReachedFurther(s1, Fetch(now));
    var s2 := Apply(s1, Fetch(now));
    ReachedFurther(s2, Save);
  }

  /** When another device announces under a stored device's short address, the stored one is no longer found there. */
  lemma SharedShortHidesDevice(s: State, ieee: Ieee, other: Ieee, now: nat)
    requires s.reader.Idle? && Keyed(s.store) && ieee in s.store && other != ieee && other != ""
    ensures var short := s.store[ieee].short;
      var t := Announced(s, other, short, now);
      && Reachable(Enabled, Next, s, t)
      && ieee in t.store && t.store[ieee].short == short
      && forall answer :: Answers(t, Lookup(short), short, answer) <==> answer == other
  {
    AnnounceAlone(Enabled, s, other, s.store[ieee].short, now);
  }

  /**
    * The scan that unindexes a device stops at its first entry. A device that comes back under another address has two,
    * and when the old one is removed the new one answers for it after it has gone.
    */
  lemma OldEntryOutlivesDevice(s: State, ieee: Ieee, short: u16, now: nat)
    requires Reached(s) && s.reader.Idle? && ieee in s.store
    requires s.store[ieee].short in s.index && s.store[ieee].short != short && OnlyHolder(s.store, ieee, short)
    ensures exists t :: Reached(t) && t.reader.Idle? && ieee !in t.store && Answers(t, Lookup(short), short, ieee)
  {
    InvReached(s);
    var former := s.store[ieee].short;
    var t := Announced(s, ieee, short, now);
    RecordIsItsSteps(s, ieee, short, now);
    ReachedFurther(t, Unindex(ieee, former));
    var u := t.(index := t.index - {former});
    ReachedFurther(u, Delete(ieee));
    assert Answers(Apply(u, Delete(ieee)), Lookup(short), short, ieee);
  }

  lemma ReachedFurther(s: State, step: Step)
    requires Reached(s) && Allowed(s, step)
    ensures Reached(Apply(s, step))
  {
    var start :| Start(start) && Reachable(Allowed, Next, start, s);
    Further(Allowed, Next, start, s, step);
  }

  // A deleted device stays deleted

  /** Whether the handler in progress is about to save a record of the device. */
  predicate Recording(reader: Reader, ieee: Ieee) {
    match reader
    case Indexed(k, _) => k == ieee
    case Fetched(d) => d.ieee == ieee
    case _ => false
  }

  /** Any step but a join or announce of the device; nothing is said of short addresses. */
  ghost function Unannounced(ieee: Ieee): (State, Step) -> bool {
    (s: State, step: Step) => Enabled(s, step) && !(step.Indication? && step.ieee == ieee)
  }

  ghost predicate Gone(s: State, ieee: Ieee) {
    Keyed(s.store) && ieee !in s.store && !Recording(s.reader, ieee)
  }

  lemma GoneStays(s: State, step: Step, ieee: Ieee)
    requires Gone(s, ieee) && Unannounced(ieee)(s, step)
    ensures Gone(Apply(s, step), ieee)
  {
  }

  /**
    * With no join or announce of the device in progress or to come, no interleaving of lookups, rebuilds, interviews,
    * reports, cluster commands, property updates and removals puts it back.
    */
  lemma StaysDeleted(s: State, t: State, ieee: Ieee)
    requires Gone(s, ieee) && Reachable(Unannounced(ieee), Next, s, t)
    ensures ieee !in t.store
  {
    var inv := (s: State) => Gone(s, ieee);
    forall s, step | inv(s) && Unannounced(ieee)(s, step) ensures inv(Next(s, step)) {
      GoneStays(s, step, ieee);
    }
    Invariant(Unannounced(ieee), Next, inv, s, t);
  }

  /** One in progress does put it back. */
  lemma RecordingRestores(s: State, ieee: Ieee) returns (t: State)
    requires Keyed(s.store) && ieee !in s.store && Recording(s.reader, ieee)
    ensures Reachable(Unannounced(ieee), Next, s, t) && ieee in t.store
  {
    Here(Unannounced(ieee), Next, s);
    t := s;
    if s.reader.Indexed? {
      Further(Unannounced(ieee), Next, s, t, Fetch(0));
      t := Next(t, Fetch(0));
    }
    Further(Unannounced(ieee), Next, s, t, Save);
    t := Next(t, Save);
  }

  /** If no join or announce of a deleted device begins, it is sure to stay so exactly when none is in progress. */
  lemma StaysDeletedIff(s: State, ieee: Ieee)
    requires Keyed(s.store) && ieee !in s.store
    ensures (forall t :: Reachable(Unannounced(ieee), Next, s, t) ==> ieee !in t.store) <==> !Recording(s.reader, ieee)
  {
    if Recording(s.reader, ieee) {
      var t := RecordingRestores(s, ieee);
    } else {
      forall t | Reachable(Unannounced(ieee), Next, s, t) ensures ieee !in t.store {
        StaysDeleted(s, t, ieee);
      }
    }
  }

  // What is stored by an update stays, or not

  /** Any step but a deletion or another update of the device. */
  ghost function Untouched(ieee: Ieee): (State, Step) -> bool {
    (s: State, step: Step) =>
      Enabled(s, step) && !(step.Delete? && step.ieee == ieee) && !(step.Update? && step.device.ieee == ieee)
  }

  /** The device is stored with these details. */
  ghost predicate Knows(store: Devices, ieee: Ieee, details: Details) {
    ieee in store && store[ieee].details == details
  }

  /** And a handler about to save it has them too. */
  ghost predicate Settled(s: State, ieee: Ieee, details: Details) {
    && Keyed(s.store) && Knows(s.store, ieee, details)
    && (s.reader.Fetched? && s.reader.device.ieee == ieee ==> s.reader.device.details == details)
  }

  lemma SettledStays(s: State, step: Step, ieee: Ieee, details: Details)
    requires Settled(s, ieee, details) && Untouched(ieee)(s, step)
    ensures Settled(Apply(s, step), ieee, details)
  {
  }

  /**
    * What an update stores outlives every join, announce and rebuild to come, exactly when no handler has already read
    * an older record of the device that it is about to save.
    */
  lemma UpdateSurvivesIff(s: State, d: Device)
    requires Keyed(s.store) && Enabled(s, Update(d))
    ensures
      (forall t :: Reachable(Untouched(d.ieee), Next, Apply(s, Update(d)), t) ==> Knows(t.store, d.ieee, d.details))
      <==> !(s.reader.Fetched? && s.reader.device.ieee == d.ieee && s.reader.device.details != d.details)
  {
    var u := Apply(s, Update(d));
    if s.reader.Fetched? && s.reader.device.ieee == d.ieee && s.reader.device.details != d.details {
      Here(Untouched(d.ieee), Next, u);
      Further(Untouched(d.ieee), Next, u, u, Save);
      assert !Knows(Next(u, Save).store, d.ieee, d.details);
    } else {
      forall t | Reachable(Untouched(d.ieee), Next, u, t) ensures Knows(t.store, d.ieee, d.details) {
        UpdateSurvives(u, t, d.ieee, d.details);
      }
    }
  }

  lemma UpdateSurvives(s: State, t: State, ieee: Ieee, details: Details)
    requires Settled(s, ieee, details) && Reachable(Untouched(ieee), Next, s, t)
    ensures Knows(t.store, ieee, details)
  {
    var inv := (s: State) => Settled(s, ieee, details);
    forall s, step | inv(s) && Untouched(ieee)(s, step) ensures inv(Next(s, step)) {
      SettledStays(s, step, ieee, details);
    }
    Invariant(Untouched(ieee), Next, inv, s, t);
  }

  /** The steps of a handler that records a device, with a step of someone else between its reading and its writing. */
  function Interrupted(s: State, ieee: Ieee, short: u16, now: nat, between: Step): (t: State)
    requires s.reader.Idle? && (between.Delete? || between.Update?)
  {
    var store := if between.Delete? then s.store - {between.ieee} else s.store[between.device.ieee := between.device];
    State(store[ieee := Readdressed(s.store, ieee, short, now)], s.index[short := ieee], Idle)
  }

  lemma InterruptedIsReachable(s: State, ieee: Ieee, short: u16, now: nat, between: Step)
    requires s.reader.Idle? && ieee != "" && Keyed(s.store) && Enabled(s, between)
    requires between.Delete? || between.Update?
    ensures Reachable(Enabled, Next, s, Interrupted(s, ieee, short, now, between))
  {
    Here(Enabled, Next, s);
    Further(Enabled, Next, s, s, Indication(ieee, short));
    var s1 := Next(s, Indication(ieee, short));
    Further(Enabled, Next, s, s1, Fetch(now));
    var s2 := Next(s1, Fetch(now));
    Further(Enabled, Next, s, s2, between);
    var s3 := Next(s2, between);
    Further(Enabled, Next, s, s3, Save);
  }

  /** An announce whose handler has read the record when RemoveDevice deletes it saves the old record back. */
  lemma AnnounceInProgressRestores(s: State, ieee: Ieee, short: u16, now: nat)
    requires s.reader.Idle? && Keyed(s.store) && ieee in s.store && ieee != ""
    ensures var t := Interrupted(s, ieee, short, now, Delete(ieee));
      Reachable(Enabled, Next, s, t) && ieee in t.store && t.store[ieee].details == s.store[ieee].details
  {
    InterruptedIsReachable(s, ieee, short, now, Delete(ieee));
  }

  /** What a join or announce handler read is what it writes: an update of the record in between is lost. */
  lemma AnnounceLosesUpdate(s: State, ieee: Ieee, short: u16, now: nat, d: Device)
    requires s.reader.Idle? && Keyed(s.store) && ieee in s.store && ieee != ""
    requires d.ieee == ieee && d.short == s.store[ieee].short
    ensures var t := Interrupted(s, ieee, short, now, Update(d));
      Reachable(Enabled, Next, s, t) && ieee in t.store && t.store[ieee].details == s.store[ieee].details
  {
    InterruptedIsReachable(s, ieee, short, now, Update(d));
  }

  // The handlers, run by themselves

  /** DeviceManager: its store, its interviews, its short-address index, and the devices whose leaving it announced. */
  class DeviceManager {
    const store: BoltStore
    const interviews: Interviews.Registry
    var index: Index
    var left: seq<Ieee>

    constructor (store: BoltStore, interviews: Interviews.Registry)
      ensures this.store == store && this.interviews == interviews && index == map[] && left == []
    {
      this.store, this.interviews := store, interviews;
      index, left := map[], [];
    }

    /** The state between two indications. */
    ghost function Abs(): State
      reads this, store
    {
      State(store.devices, index, Idle)
    }

    method UpdateAddrIndex(ieee: Ieee, short: u16)
      modifies `index
      ensures index == old(index)[short := ieee]
    {
      index := index[short := ieee];
    }

    /** The scan of HandleLeave and RemoveDevice: it stops at the first entry it meets. */
    method RemoveFirst(ieee: Ieee)
      modifies `index
      ensures ieee in old(index).Values ==>
        exists a :: a in old(index) && old(index)[a] == ieee && index == old(index) - {a}
      ensures ieee !in old(index).Values ==> index == old(index)
    {
      var todo := index.Keys;
      while todo != {}
        invariant todo <= index.Keys && index == old(index)
        invariant forall a | a in index && a !in todo :: index[a] != ieee
      {
        var a :| a in todo;
        if index[a] == ieee {
          index := index - {a};
          return;
        }
        todo := todo - {a};
      }
    }

    method RebuildAddrIndex(fails: bool)
      requires Keyed(store.devices)
      modifies `index
      ensures if fails then index == old(index)
              else exists devices :: Lists(store.devices, devices) && index == InstallAll(devices)
    {
      var listed := store.ListDevices(fails);
      if !listed.Ok? {
        return;
      }
      var devices := listed.value;
      index := map[];
      for i := 0 to |devices|
        invariant index == InstallAll(devices[..i])
      {
        assert devices[..i + 1][..i] == devices[..i];
        index := index[devices[i].short := devices[i].ieee];
      }
      assert devices[..|devices|] == devices;
    }

    method LookupOrRebuild(short: u16, fails: bool) returns (ieee: Ieee)
      requires Keyed(store.devices)
      modifies `index
      ensures short in old(index) || fails ==> index == old(index)
      ensures short in old(index) ==> ieee == index[short]
      ensures short !in old(index) && fails ==> ieee == ""
      ensures short !in old(index) && !fails ==>
        exists devices :: Lists(store.devices, devices) && index == InstallAll(devices) && ieee == Found(devices, short)
    {
      if short in index {
        return index[short];
      }
      var listed := store.ListDevices(fails);
      if !listed.Ok? {
        return "";
      }
      var devices := listed.value;
      ieee := "";
      index := map[];
      for i := 0 to |devices|
        invariant index == InstallAll(devices[..i]) && ieee == Found(devices[..i], short)
      {
        assert devices[..i + 1][..i] == devices[..i];
        index := index[devices[i].short := devices[i].ieee];
        if devices[i].short == short {
          ieee := devices[i].ieee;
        }
      }
      assert devices[..|devices|] == devices;
    }

    /**
      * HandleJoin, and HandleAnnounce up to its interview: they record a device the same way. On an error of the
      * database the index has the new address all the same.
      */
    method Record(ieee: Ieee, short: u16, now: nat, getFails: bool, saveFails: bool)
      requires ieee != "" && Keyed(store.devices)
      modifies `index, store
      ensures if getFails || saveFails then store.devices == old(store.devices) && index == old(index)[short := ieee]
              else Abs() == Announced(old(Abs()), ieee, short, now)
    {
      UpdateAddrIndex(ieee, short);
      var found := store.GetDevice(ieee, getFails);
      var dev: Device;
      match found {
        case Ok(stored) => dev := stored.(short := short, seen := now);
        case Err(NotFound) => dev := Device(ieee, short, now, now, Blank);
        case _ => return;
      }
      var saved := store.SaveDevice(dev, saveFails);
    }

    /**
      * RemoveDevice but for its leave request. An unknown device is an error and nothing changes; when the deletion
      * fails the interview is cancelled and an index entry gone all the same, but no leaving is announced.
      */
    method RemoveDevice(ieee: Ieee, getFails: bool, deleteFails: bool) returns (r: Outcome<(), StoreError>)
      requires Interviews.OwnersExist(interviews.Abs())
      modifies this, store, interviews
      ensures r ==
        if getFails then Err(Database)
        else if ieee !in old(store.devices) then Err(NotFound)
        else if deleteFails then Err(Database)
        else Ok(())
      ensures store.devices == if r.Ok? then old(store.devices) - {ieee} else old(store.devices)
      ensures left == if r.Ok? then old(left) + [ieee] else old(left)
      ensures getFails || ieee !in old(store.devices) ==>
        index == old(index) && interviews.Abs() == old(interviews.Abs())
      ensures !getFails && ieee in old(store.devices) ==>
        && interviews.Abs() == Interviews.Apply(old(interviews.Abs()), Interviews.Cancel(ieee))
        && (if ieee in old(index).Values
            then exists a :: a in old(index) && old(index)[a] == ieee && index == old(index) - {a}
            else index == old(index))
    {
      var dev := store.GetDevice(ieee, getFails);
      if !dev.Ok? {
        return Err(dev.error);
      }
      interviews.Cancel(ieee);
      RemoveFirst(ieee);
      r := store.DeleteDevice(ieee, deleteFails);
      if r.Ok? {
        left := left + [ieee];
      }
    }

    /** HandleLeave but for the announce cache: it forgets the device whatever the store says, and announces it. */
    method HandleLeave(ieee: Ieee, deleteFails: bool)
      requires Interviews.OwnersExist(interviews.Abs())
      modifies this, store, interviews
      ensures store.devices == if deleteFails then old(store.devices) else old(store.devices) - {ieee}
      ensures left == old(left) + [ieee]
      ensures interviews.Abs() == Interviews.Apply(old(interviews.Abs()), Interviews.Cancel(ieee))
      ensures if ieee in old(index).Values
              then exists a :: a in old(index) && old(index)[a] == ieee && index == old(index) - {a}
              else index == old(index)
    {
      interviews.Cancel(ieee);
      RemoveFirst(ieee);
      var deleted := store.DeleteDevice(ieee, deleteFails);
      left := left + [ieee];
    }
  }
}
