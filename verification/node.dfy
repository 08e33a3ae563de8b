/**
 * One device node as the client mirrors it (src/lib/node.ts): an info record
 * merged last-write-wins, a `ready` flag, and a dictionary of values keyed by
 * their `value_id`, kept in insertion order.
 */
module ZNode {
  import opened Wrappers
  import opened JsonValues
  import opened ZValue

  /** The device types the node table can name. */
  datatype DeviceType =
    | Outlet | LockManagement | Fan | Lightbulb | SmokeSensor | CarbonMonoxideSensor
    | CarbonDioxideSensor | ContactSensor | TemperatureSensor | LightSensor | HumiditySensor

  /** The `info.type` table of `getType`; an unknown or missing type has no device type. */
  function InfoType(t: Json): (r: Option<DeviceType>)
    ensures r == Some(Outlet) <==> t == Str("Power Strip") || t == Str("On/Off Power Switch")
    ensures r.None? <==> !t.Str? || t.s !in KnownTypes()
  {
    if t == Str("Power Strip") || t == Str("On/Off Power Switch") then Some(Outlet)
    else if t == Str("Door Lock Keypad") then Some(LockManagement)
    else if t == Str("Fan Switch") then Some(Fan)
    else if t == Str("Light Dimmer Switch") then Some(Lightbulb)
    else if t == Str("Smoke Alarm Sensor") then Some(SmokeSensor)
    else if t == Str("CO Alarm Sensor") then Some(CarbonMonoxideSensor)
    else if t == Str("CO2 Alarm Sensor") then Some(CarbonDioxideSensor)
    else if t == Str("Home Security Sensor") then Some(ContactSensor)
    else if t == Str("Air Temperature Sensor") then Some(TemperatureSensor)
    else if t == Str("Luminance Sensor") then Some(LightSensor)
    else if t == Str("Humidity Sensor") then Some(HumiditySensor)
    else None
  }

  /** The `info.type` strings the table knows. */
  function KnownTypes(): set<string>
  {
    {"Power Strip", "On/Off Power Switch", "Door Lock Keypad", "Fan Switch", "Light Dimmer Switch",
     "Smoke Alarm Sensor", "CO Alarm Sensor", "CO2 Alarm Sensor", "Home Security Sensor",
     "Air Temperature Sensor", "Luminance Sensor", "Humidity Sensor"}
  }

  /**
   * `getType`'s priority: an `on` together with a `currentPower` feature makes
   * an outlet, then a `contactSensorState` feature a contact sensor, and only
   * then does the info table decide.
   */
  function TypeFor(features: set<string>, infoType: Json): (r: Option<DeviceType>)
    ensures "on" in features && "currentPower" in features ==> r == Some(Outlet)
    ensures !("on" in features && "currentPower" in features) && "contactSensorState" in features ==> r == Some(ContactSensor)
    ensures !("on" in features && "currentPower" in features) && "contactSensorState" !in features ==> r == InfoType(infoType)
  {
    if "on" in features && "currentPower" in features then Some(Outlet)
    else if "contactSensorState" in features then Some(ContactSensor)
    else InfoType(infoType)
  }

  /** The feature names of a list of value records, skipping records without one. */
  function FeaturesOf(fs: seq<Rec>): set<string>
  {
    if fs == [] then {}
    else
      var ft := FeatureOf(fs[|fs| - 1]);
      FeaturesOf(fs[..|fs| - 1]) + (if ft.Some? then {ft.value} else {})
  }

  /** The records the values of `vs` currently hold, in the same order. */
  function FieldsOf(vs: seq<ZVagValue>): (r: seq<Rec>)
    reads set v | v in vs
    ensures |r| == |vs|
    ensures forall i :: 0 <= i < |vs| ==> r[i] == vs[i].fields
  {
    seq(|vs|, i reads set v | v in vs requires 0 <= i < |vs| => vs[i].fields)
  }

  /**
   * What the device planning reads of a node: its info, whether it is
   * ready, and its values' records in dictionary order.
   */
  datatype NodeView = NodeView(info: Rec, ready: bool, fields: seq<Rec>)

  /** Whether `k` occurs in `ks` at most once. */
  predicate NoDuplicates(ks: seq<string>)
  {
    forall i, j :: 0 <= i < j < |ks| ==> ks[i] != ks[j]
  }

  /** `ks` without `k`, order kept. */
  function Without(ks: seq<string>, k: string): (r: seq<string>)
    ensures forall x :: x in r <==> x in ks && x != k
    ensures NoDuplicates(ks) ==> NoDuplicates(r)
  {
    if ks == [] then []
    else
      var rest := Without(ks[1..], k);
      assert forall x :: x in ks[1..] ==> x in ks;
      if ks[0] == k then rest
      else
        assert NoDuplicates(ks) ==> ks[0] !in ks[1..];
        [ks[0]] + rest
  }

  class ZVagNode {
    const id: int
    var info: Rec
    var ready: bool
    /** The value dictionary's keys, in insertion order (`for … in` order). */
    var keys: seq<string>
    var values: map<string, ZVagValue>
    ghost var Repr: set<object>

    ghost predicate Valid()
      reads this, Repr
    {
      && this in Repr
      && NoDuplicates(keys)
      && (forall k :: k in keys <==> k in values)
      && (forall k :: k in values ==> values[k] in Repr)
      && (forall k :: k in values ==> values[k].Valid())
      && (forall k, k' :: k in values && k' in values && k != k' ==> values[k] != values[k'])
    }

    /** A node starts not ready, without values, with the given info or `{}`. */
    constructor (id: int, info: Option<Rec>)
      ensures Valid() && fresh(Repr)
      ensures this.id == id && !ready && keys == [] && values == map[]
      ensures this.info == if info.Some? then info.value else []
    {
      this.id := id;
      this.info := if info.Some? then info.value else [];
      ready := false;
      keys := [];
      values := map[];
      Repr := {this};
    }

    /** `onReady()`: the node is ready from now on; nothing else changes. */
    method OnReady()
      requires Valid()
      modifies this
      ensures Valid() && Repr == old(Repr)
      ensures ready
      ensures info == old(info) && keys == old(keys) && values == old(values)
    {
      ready := true;
    }

    /** The values in dictionary order. */
    function Ordered(): (r: seq<ZVagValue>)
      reads this, Repr
      requires Valid()
      ensures |r| == |keys|
      ensures forall i :: 0 <= i < |keys| ==> r[i] == values[keys[i]]
    {
      var ks, vals := keys, values;
      seq(|ks|, i requires 0 <= i < |ks| && ks[i] in vals => vals[ks[i]])
    }

    /** `getValues()`: each stored value once, in dictionary order, and nothing else. */
    method GetValues() returns (r: seq<ZVagValue>)
      requires Valid()
      ensures r == Ordered()
      ensures forall k :: k in values ==> values[k] in r
      ensures forall v :: v in r ==> exists k :: k in values && values[k] == v
      ensures forall i, j :: 0 <= i < j < |r| ==> r[i] != r[j]
    {
      r := [];
      var i := 0;
      while i < |keys|
        invariant 0 <= i <= |keys|
        invariant r == Ordered()[..i]
      {
        r := r + [values[keys[i]]];
        i := i + 1;
      }
      assert r == Ordered();
      forall k | k in values ensures values[k] in r {
        var i :| 0 <= i < |keys| && keys[i] == k;
        assert r[i] == values[k];
      }
    }

    /** The node as the device planning sees it. */
    ghost function View(): NodeView
      reads this, Repr
      requires Valid()
    {
      NodeView(info, ready, FieldsOf(Ordered()))
    }

    /** The features of the node's values. */
    ghost function Features(): set<string>
      reads this, Repr
      requires Valid()
    {
      FeaturesOf(FieldsOf(Ordered()))
    }

    /** `getType()`: the type the priority rules give for the values' features and `info.type`. */
    method GetType() returns (t: Option<DeviceType>)
      requires Valid()
      ensures t == TypeFor(Features(), Lookup(info, "type"))
    {
      var vs := GetValues();
      ghost var fs := FieldsOf(vs);
      var features: set<string> := {};
      var i := 0;
      while i < |vs|
        invariant 0 <= i <= |vs|
        invariant features == FeaturesOf(fs[..i])
      {
        assert fs[..i + 1][..i] == fs[..i];
        var ft := FeatureOf(vs[i].fields);
        if ft.Some? {
          features := features + {ft.value};
        }
        i := i + 1;
      }
      assert fs[..i] == fs;
      t := TypeFor(features, Lookup(info, "type"));
    }

    /**
     * `updateValue(value)`: the entry under the observation's `value_id`
     * (as a property key) exists afterwards, created empty only when absent,
     * and takes the observation as `ZVagValue.update` merges it. An
     * unidentified observation leaves that entry as it was and the call then
     * throws on the missing change list; a missing observation throws before
     * anything happens. Other entries are untouched.
     */
    method UpdateValue(obs: Option<Rec>) returns (o: Outcome)
      requires Valid()
      modifies Repr
      ensures Valid() && fresh(Repr - old(Repr))
      ensures o == TypeError <==> !Identified(obs)
      ensures ValueUpdated(obs)
      ensures obs.Some? ==>
        var key := Show(Lookup(obs.value, "value_id"));
        && (key in old(values) ==> values[key] == old(values)[key])
        && (key !in old(values) ==> fresh(values[key]))
    {
      if obs.None? {
        return TypeError;
      }
      var key := Show(Lookup(obs.value, "value_id"));
      var entry := EntryFor(key);
      assert forall k :: k in values && k != key ==> values[k] != entry;
      var changes := entry.Update(obs);
      o := if changes.None? then TypeError else Done;
    }

    /**
     * Everything `updateValue(obs)` leaves behind besides the merge itself:
     * info and readiness are kept; without an observation nothing changes;
     * with one, its entry exists (appended to the key order only when new)
     * and holds the merge, and every other entry is kept and unchanged.
     */
    twostate predicate ValueUpdated(obs: Option<Rec>)
      requires old(Valid()) && Valid()
      reads this, Repr
    {
      && info == old(info) && ready == old(ready)
      && (obs.None? ==> keys == old(keys) && values == old(values) && forall k :: k in values ==> unchanged(values[k]))
      && (obs.Some? ==>
            var key := Show(Lookup(obs.value, "value_id"));
            && Stored(obs.value)
            && keys == (if key in old(values) then old(keys) else old(keys) + [key])
            && values.Keys == old(values).Keys + {key}
            && forall k :: k in old(values) && k != key ==> values[k] == old(values)[k] && unchanged(values[k]))
    }

    /**
     * The entry under the observation's `value_id` holds the observation
     * merged into what that entry held before (nothing, when it is new); an
     * unidentified observation leaves it as it was.
     */
    twostate predicate Stored(obs: Rec)
      requires Valid()
      reads this, Repr
    {
      var key := Show(Lookup(obs, "value_id"));
      var prior := if key in old(values) then old(values[key].fields) else [];
      key in values && values[key].fields == (if Identified(Some(obs)) then Merge(prior, obs).rec else prior)
    }

    /** The entry under `key`, created empty and appended to the key order only when absent. */
    method EntryFor(key: string) returns (v: ZVagValue)
      requires Valid()
      modifies this
      ensures Valid() && fresh(Repr - old(Repr))
      ensures info == old(info) && ready == old(ready)
      ensures key in values && v == values[key]
      ensures keys == (if key in old(values) then old(keys) else old(keys) + [key])
      ensures values == (if key in old(values) then old(values) else old(values)[key := v])
      ensures key !in old(values) ==> fresh(v) && v.fields == []
    {
      if key in values {
        return values[key];
      }
      v := new ZVagValue();
      values := values[key := v];
      keys := keys + [key];
      Repr := Repr + {v};
    }

    /** `removeValue(id)`: exactly that key goes, when present; every other entry stays. */
    method RemoveValue(key: string)
      requires Valid()
      modifies this
      ensures Valid() && Repr == old(Repr)
      ensures values == old(values) - {key}
      ensures keys == Without(old(keys), key)
      ensures info == old(info) && ready == old(ready)
    {
      if key in values {
        values := values - {key};
        keys := Without(keys, key);
      }
      else {
        assert Without(keys, key) == keys by { WithoutAbsent(keys, key); }
      }
    }

    /** `update(info)`: every own field of the given info is copied over the node's info. */
    method Update(src: Option<Rec>)
      requires Valid()
      modifies this
      ensures Valid() && Repr == old(Repr)
      ensures info == if src.Some? then AssignAll(old(info), src.value) else old(info)
      ensures ready == old(ready) && keys == old(keys) && values == old(values)
    {
      if src.Some? {
        var fs := src.value;
        var i := 0;
        while i < |fs|
          invariant 0 <= i <= |fs|
          invariant info == AssignAll(old(info), fs[..i])
          invariant ready == old(ready) && keys == old(keys) && values == old(values) && Repr == old(Repr)
        {
          assert fs[..i + 1][..i] == fs[..i];
          info := Assign(info, fs[i].name, fs[i].val);
          i := i + 1;
        }
        assert fs[..i] == fs;
      }
    }
  }

  lemma {:induction false} WithoutAbsent(ks: seq<string>, k: string)
    requires k !in ks
    ensures Without(ks, k) == ks
  {
    if ks != [] {
      WithoutAbsent(ks[1..], k);
    }
  }

  /**
   * A value only ever provides `on` or `brightness`, so the feature overrides
   * of `getType` never apply and the type is the info table's alone.
   */
  lemma {:induction false} TypeIsInfoType(fs: seq<Rec>, infoType: Json)
    ensures TypeFor(FeaturesOf(fs), infoType) == InfoType(infoType)
  {
    FeaturesOfBound(fs);
  }

  /** Only the feature names a value can have ever show up. */
  lemma {:induction false} FeaturesOfBound(fs: seq<Rec>)
    ensures FeaturesOf(fs) <= {"on", "brightness"}
  {
    if fs != [] {
      FeaturesOfBound(fs[..|fs| - 1]);
    }
  }
}
