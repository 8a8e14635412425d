/** The device bucket: a map from IEEE address to record whose every method is one transaction. */
module DeviceStore {
  import opened Bytes
  import opened Outcomes

  /** An IEEE address as sixteen hexadecimal digits; "" is the answer "not found". */
  type Ieee = string

  /** What interviews and reports have learned about a device: everything but its addresses and times. */
  datatype Details = Blank | Learned(json: string)

  datatype Device = Device(ieee: Ieee, short: u16, joined: nat, seen: nat, details: Details)

  type Devices = map<Ieee, Device>

  /** ErrNotFound, the error of an update's own function, or one of the database or of a record's JSON. */
  datatype StoreError = NotFound | Refused | Database

  // The order of keys in a bucket

  predicate Before(a: Ieee, b: Ieee) {
    b != "" && (a == "" || a[0] < b[0] || (a[0] == b[0] && Before(a[1..], b[1..])))
  }

  /** Keys are in ascending order: by the first place where they differ, and a key comes before its extensions. */
  lemma {:induction false} BeforeByFirstDifference(common: Ieee, a: Ieee, b: Ieee)
    requires a == "" || b == "" || a[0] != b[0]
    ensures Before(common + a, common + b) <==> b != "" && (a == "" || a[0] < b[0])
  {
    if common == "" {
      assert common + a == a && common + b == b;
    } else {
      assert (common + a)[1..] == common[1..] + a && (common + b)[1..] == common[1..] + b;
      BeforeByFirstDifference(common[1..], a, b);
    }
  }

  lemma {:induction false} BeforeTransitive(a: Ieee, b: Ieee, c: Ieee)
    requires Before(a, b) && Before(b, c)
    ensures Before(a, c)
  {
    if a != "" && a[0] == b[0] == c[0] {
      BeforeTransitive(a[1..], b[1..], c[1..]);
    }
  }

  lemma {:induction false} BeforeTotal(a: Ieee, b: Ieee)
    ensures Before(a, b) || Before(b, a) || a == b
    ensures !Before(a, a)
  {
    if a != "" {
      BeforeTotal(a[1..], a[1..]);
      if b != "" {
        BeforeTotal(a[1..], b[1..]);
        assert a == [a[0]] + a[1..] && b == [b[0]] + b[1..];
      }
    }
  }

  /** A listing names every stored record once, in the order of their keys. */
  ghost predicate Lists(store: Devices, devices: seq<Device>) {
    && (forall d | d in devices :: d.ieee in store && store[d.ieee] == d)
    && (forall k | k in store :: store[k] in devices)
    && (forall i, j | 0 <= i < j < |devices| :: Before(devices[i].ieee, devices[j].ieee))
  }

  /** Each record sits under its own IEEE address. */
  ghost predicate Keyed(store: Devices) {
    forall k | k in store :: store[k].ieee == k
  }

  method First(keys: set<Ieee>) returns (k: Ieee)
    requires keys != {}
    ensures k in keys && forall j | j in keys && j != k :: Before(k, j)
  {
    k :| k in keys;
    var todo := keys - {k};
    while todo != {}
      invariant todo <= keys && k in keys && k !in todo
      invariant forall j | j in keys && j !in todo && j != k :: Before(k, j)
    {
      var j :| j in todo;
      todo := todo - {j};
      BeforeTotal(j, k);
      if Before(j, k) {
        forall i | i in keys && i !in todo && i != j && i != k ensures Before(j, i) {
          BeforeTransitive(j, k, i);
        }
        k := j;
      }
    }
  }

  /** In every method, fails says that the transaction meets an error of the database or of a record's JSON. */
  class BoltStore {
    var devices: Devices

    constructor ()
      ensures devices == map[]
    {
      devices := map[];
    }

    method SaveDevice(dev: Device, fails: bool) returns (r: Outcome<(), StoreError>)
      modifies this
      ensures r == if fails then Err(Database) else Ok(())
      ensures devices == if fails then old(devices) else old(devices)[dev.ieee := dev]
    {
      if fails {
        return Err(Database);
      }
      devices := devices[dev.ieee := dev];
      r := Ok(());
    }

    method GetDevice(ieee: Ieee, fails: bool) returns (r: Outcome<Device, StoreError>)
      ensures r == if fails then Err(Database) else if ieee in devices then Ok(devices[ieee]) else Err(NotFound)
    {
      if fails {
        return Err(Database);
      }
      if ieee !in devices {
        return Err(NotFound);
      }
      r := Ok(devices[ieee]);
    }

    /** Changes a record in place; fn may refuse with None. A missing record stays missing. */
    method UpdateDevice(ieee: Ieee, fn: Device -> Option<Device>, fails: bool) returns (r: Outcome<(), StoreError>)
      modifies this
      ensures r ==
        if fails then Err(Database)
        else if ieee !in old(devices) then Err(NotFound)
        else if fn(old(devices)[ieee]).None? then Err(Refused)
        else Ok(())
      ensures devices == if r.Ok? then old(devices)[ieee := fn(old(devices)[ieee]).value] else old(devices)
      ensures devices.Keys == old(devices).Keys
    {
      if fails {
        return Err(Database);
      }
      if ieee !in devices {
        return Err(NotFound);
      }
      var changed := fn(devices[ieee]);
      if changed.None? {
        return Err(Refused);
      }
      devices := devices[ieee := changed.value];
      r := Ok(());
    }

    method DeleteDevice(ieee: Ieee, fails: bool) returns (r: Outcome<(), StoreError>)
      modifies this
      ensures r == if fails then Err(Database) else Ok(())
      ensures devices == if fails then old(devices) else old(devices) - {ieee}
    {
      if fails {
        return Err(Database);
      }
      devices := devices - {ieee};
      r := Ok(());
    }

    method ListDevices(fails: bool) returns (r: Outcome<seq<Device>, StoreError>)
      requires Keyed(devices)
      ensures if fails then r == Err(Database) else r.Ok? && Lists(devices, r.value)
    {
      if fails {
        return Err(Database);
      }
      var list: seq<Device> := [];
      var todo := devices.Keys;
      while todo != {}
        invariant todo <= devices.Keys
        invariant forall d | d in list :: d.ieee in devices && d.ieee !in todo && devices[d.ieee] == d
        invariant forall k | k in devices && k !in todo :: devices[k] in list
        invariant forall i, j | 0 <= i < j < |list| :: Before(list[i].ieee, list[j].ieee)
        invariant forall d, k | d in list && k in todo :: Before(d.ieee, k)
      {
        var k := First(todo);
        list := list + [devices[k]];
        todo := todo - {k};
      }
      r := Ok(list);
    }
  }
}
