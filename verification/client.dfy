/**
 * The client glue (src/lib/index.ts): a node mirror built from driver
 * events, the alarm-value mapping, and the step of `createDevices` that
 * groups each ready node's values by feature and registers one device per
 * topic.
 */
module Client {
  import opened Wrappers
  import opened Decimal
  import opened JsonValues
  import opened ZValue
  import opened ZNode

  /** The values of one feature: their positions in `getValues()` order. */
  datatype Group = Group(feature: string, members: seq<nat>)

  /** A device as registered: its topic, its type and its feature groups in insertion order. */
  datatype Registration = Registration(topic: string, kind: DeviceType, groups: seq<Group>)

  /**
   * `mapValue(item, value)`: the alarm reading (class 113, index 9) becomes
   * the string `'0'` for 23 and `'1'` for anything else; every other value
   * passes through.
   */
  function MapValue(cls: Json, index: Json, value: Json): (r: Json)
  {
    if LooseEq(cls, Num(113)) && LooseEq(index, Num(9)) then
      (if LooseEq(value, Num(23)) then Str("0") else Str("1"))
    else value
  }

  /** The enum member's name, used as the first topic segment. */
  function TypeName(t: DeviceType): string
  {
    match t
    case Outlet => "Outlet"
    case LockManagement => "LockManagement"
    case Fan => "Fan"
    case Lightbulb => "Lightbulb"
    case SmokeSensor => "SmokeSensor"
    case CarbonMonoxideSensor => "CarbonMonoxideSensor"
    case CarbonDioxideSensor => "CarbonDioxideSensor"
    case ContactSensor => "ContactSensor"
    case TemperatureSensor => "TemperatureSensor"
    case LightSensor => "LightSensor"
    case HumiditySensor => "HumiditySensor"
  }

  /** A device's topic: `<type>/<name><node id>`. */
  function DeviceTopic(t: DeviceType, name: string, i: nat): string
  {
    TypeName(t) + "/" + name + NatToString(i)
  }

  // ---------------------------------------------------------------------
  // Feature grouping
  // ---------------------------------------------------------------------

  /** The position of the group named `name`, or -1 (`features.hasOwnProperty(name)`). */
  function Find(gs: seq<Group>, name: string): (r: int)
    ensures -1 <= r < |gs|
    ensures r >= 0 ==> gs[r].feature == name
    ensures r == -1 <==> forall g :: 0 <= g < |gs| ==> gs[g].feature != name
  {
    if gs == [] then -1
    else if gs[|gs| - 1].feature == name then |gs| - 1
    else Find(gs[..|gs| - 1], name)
  }

  /** One step of the grouping loop: the value at position `j` joins its feature's group, opened if new. */
  function AddMember(gs: seq<Group>, j: nat, ft: Option<string>): seq<Group>
  {
    if ft.None? then gs
    else
      var g := Find(gs, ft.value);
      if g >= 0 then gs[g := Group(ft.value, gs[g].members + [j])]
      else gs + [Group(ft.value, [j])]
  }

  /** The groups the loop over `getValues()` builds from the values' features. */
  function Grouped(fts: seq<Option<string>>): seq<Group>
  {
    if fts == [] then [] else AddMember(Grouped(fts[..|fts| - 1]), |fts| - 1, fts[|fts| - 1])
  }

  /** The features of value records, in order. */
  function FeatureList(fs: seq<Rec>): (r: seq<Option<string>>)
    ensures |r| == |fs|
    ensures forall j :: 0 <= j < |fs| ==> r[j] == FeatureOf(fs[j])
  {
    seq(|fs|, j requires 0 <= j < |fs| => FeatureOf(fs[j]))
  }

  /** An outlet without an `outletInUse` group gets an empty one. */
  function WithOutlet(t: DeviceType, gs: seq<Group>): seq<Group>
  {
    if t == Outlet && Find(gs, "outletInUse") < 0 then gs + [Group("outletInUse", [])] else gs
  }

  /**
   * An outlet always ends up with an `outletInUse` feature, other devices only
   * if they had one; the groups already there are kept and the added one has
   * no member values.
   */
  lemma WithOutletFeatures(t: DeviceType, gs: seq<Group>)
    ensures var r := WithOutlet(t, gs);
      && (Find(r, "outletInUse") >= 0 <==> t == Outlet || Find(gs, "outletInUse") >= 0)
      && |gs| <= |r| <= |gs| + 1 && r[..|gs|] == gs
      && forall g :: |gs| <= g < |r| ==> r[g].members == []
  {
  }

  /**
   * A node's view once `updateNode(id, info)` and `onReady()` have run on
   * it: a new node has the given info (or `{}`) and no values, a known one
   * has the info copied over its own and keeps its values; both are ready.
   */
  function ReadyView(prev: Option<NodeView>, info: Option<Rec>): NodeView
  {
    match prev
    case None => NodeView(if info.Some? then info.value else [], true, [])
    case Some(p) => NodeView(if info.Some? then AssignAll(p.info, info.value) else p.info, true, p.fields)
  }

  /**
   * The device `createDevices` would make of node `i`: none unless the node
   * is ready, has a type and has at least one feature.
   */
  function DeviceFor(name: string, i: nat, node: NodeView): Option<Registration>
  {
    if !node.ready then None
    else
      var t := TypeFor(FeaturesOf(node.fields), Lookup(node.info, "type"));
      if t.None? then None
      else
        var gs := Grouped(FeatureList(node.fields));
        if |gs| == 0 then None
        else Some(Registration(DeviceTopic(t.value, name, i), t.value, WithOutlet(t.value, gs)))
  }

  /** Registering devices in order; a topic that is taken is skipped. */
  function Register(devs: map<string, Registration>, plans: seq<Option<Registration>>): map<string, Registration>
  {
    if plans == [] then devs
    else
      var d := Register(devs, plans[..|plans| - 1]);
      var p := plans[|plans| - 1];
      if p.Some? && p.value.topic !in d then d[p.value.topic := p.value] else d
  }

  /** The plan for array slot `i`: nothing for an empty slot. */
  function Slot(name: string, nodes: map<nat, NodeView>, i: nat): Option<Registration>
  {
    if i in nodes then DeviceFor(name, i, nodes[i]) else None
  }

  /** The plan for every array slot below `k`, in `for … in` (ascending) order. */
  function Plans(name: string, nodes: map<nat, NodeView>, k: nat): (r: seq<Option<Registration>>)
    ensures |r| == k
    ensures forall i {:trigger r[i]} :: 0 <= i < k ==> r[i] == Slot(name, nodes, i)
  {
    if k == 0 then []
    else Plans(name, nodes, k - 1) + [Slot(name, nodes, k - 1)]
  }

  class ZVag {
    const name: string
    /** The sparse node array, by node id. */
    var nodes: map<nat, ZVagNode>
    /** The node array's `length`: one past the largest id stored. */
    var length: nat
    /** The `devices` dictionary: each registered device by its topic. */
    var devices: map<string, Registration>

    /** The node objects. */
    ghost function NodeSet(): set<object>
      reads this`nodes
    {
      set id | id in nodes :: nodes[id]
    }

    /** Every object some node owns. */
    ghost function Footprint(): set<object>
      reads this`nodes, NodeSet()
    {
      set id, o | id in nodes && o in nodes[id].Repr :: o
    }

    /** Each node as the device planning sees it, by id. */
    ghost function Views(): map<nat, NodeView>
      reads this`nodes, this`length, NodeSet(), Footprint()
      requires Valid()
    {
      map id | id in nodes :: nodes[id].View()
    }

    /**
     * Ids lie below `length`, every node is valid, and the nodes own disjoint
     * objects that are neither the client nor its device table.
     */
    ghost predicate Valid()
      reads this`nodes, this`length, NodeSet(), Footprint()
    {
      && (forall id :: id in nodes ==> id < length)
      && this !in NodeSet() && this !in Footprint()
      && (forall id :: id in nodes ==> this !in nodes[id].Repr && nodes[id].Valid())
      && (forall id, id' :: id in nodes && id' in nodes && id != id' ==> nodes[id].Repr !! nodes[id'].Repr)
    }

    /** The client starts without nodes or devices; a missing or empty name becomes `zwave`. */
    constructor (configured: Option<string>)
      ensures Valid()
      ensures name == if configured.None? || configured.value == "" then "zwave" else configured.value
      ensures nodes == map[] && length == 0 && devices == map[]
    {
      name := if configured.None? || configured.value == "" then "zwave" else configured.value;
      nodes := map[];
      length := 0;
      devices := map[];
    }

    /**
     * `updateNode(id, info)`: an unknown id gets a new node with the given
     * info; a known one merges the info into its node. Other nodes are untouched.
     */
    method UpdateNode(id: nat, info: Option<Rec>)
      requires Valid()
      modifies this`nodes, this`length, if id in nodes then {nodes[id]} else {}
      ensures Valid()
      ensures nodes.Keys == old(nodes).Keys + {id}
      ensures length == if id < old(length) then old(length) else id + 1
      ensures id !in old(nodes) ==>
        (fresh(nodes[id]) && !nodes[id].ready && nodes[id].values == map[]
         && nodes[id].info == (if info.Some? then info.value else []))
      ensures id in old(nodes) ==>
        (nodes[id] == old(nodes)[id]
         && nodes[id].info == (if info.Some? then AssignAll(old(nodes[id].info), info.value) else old(nodes[id].info))
         && nodes[id].ready == old(nodes[id].ready) && nodes[id].values == old(nodes[id].values))
      ensures forall j :: j in old(nodes) && j != id ==> nodes[j] == old(nodes)[j] && unchanged(nodes[j])
      ensures nodes[id].View() == if id in old(nodes) then old(nodes[id].View()).(info := nodes[id].info) else NodeView(nodes[id].info, false, [])
    {
      if id !in nodes {
        AddNode(id, info);
        assert nodes[id].Ordered() == [];
      } else {
        MergeInfo(id, info);
      }
    }

    /** `this.nodes[id] = new ZVagNode(id, info)` for an id without a node. */
    method AddNode(id: nat, info: Option<Rec>)
      requires Valid() && id !in nodes
      modifies this`nodes, this`length
      ensures Valid()
      ensures id in nodes && nodes == old(nodes)[id := nodes[id]]
      ensures length == if id < old(length) then old(length) else id + 1
      ensures fresh(nodes[id].Repr) && !nodes[id].ready && nodes[id].values == map[]
      ensures nodes[id].info == if info.Some? then info.value else []
      ensures nodes[id].keys == []
    {
      var n := new ZVagNode(id, info);
      nodes := nodes[id := n];
      length := if id < length then length else id + 1;
    }

    /**
     * The node `node` as a value event for an unknown node leaves it: made
     * without info and not ready, `length` grown to cover it, and holding
     * nothing but the one observation (stored as merged into an empty value).
     */
    predicate NewValueNode(node: nat, value: Option<Rec>, oldLength: nat)
      requires Valid()
      reads this, Footprint()
    {
      && node in nodes
      && length == (if node < oldLength then oldLength else node + 1)
      && nodes[node].info == [] && !nodes[node].ready
      && (value.None? ==> nodes[node].keys == [] && nodes[node].values == map[])
      && (value.Some? ==>
            var key := Show(Lookup(value.value, "value_id"));
            && nodes[node].keys == [key]
            && nodes[node].values.Keys == {key}
            && nodes[node].values[key].fields == (if Identified(value) then Merge([], value.value).rec else []))
    }

    /**
     * A `value added/changed/refreshed` event: the node is created first if
     * unknown, then the value goes to its `updateValue`, which throws for an
     * unidentified observation.
     */
    method OnValue(node: nat, value: Option<Rec>) returns (o: Outcome)
      requires Valid()
      modifies this`nodes, this`length, Footprint()
      ensures Valid()
      ensures nodes.Keys == old(nodes).Keys + {node}
      ensures node in old(nodes) ==> nodes[node] == old(nodes)[node]
      ensures o == TypeError <==> !Identified(value)
      ensures node in old(nodes) ==> length == old(length) && nodes[node].ValueUpdated(value)
      ensures node !in old(nodes) ==> NewValueNode(node, value, old(length))
      ensures forall j :: j in old(nodes) && j != node ==> nodes[j] == old(nodes)[j]
      ensures forall j :: j in old(nodes) && j != node ==> unchanged(old(nodes)[j])
    {
      if node in nodes {
        o := RouteValue(node, value);
      } else {
        o := AddThenRoute(node, value);
      }
    }

    /** The `value` events for an unknown node: a new node without info is made, then the value goes to it. */
    method AddThenRoute(node: nat, value: Option<Rec>) returns (o: Outcome)
      requires Valid() && node !in nodes
      modifies this`nodes, this`length
      ensures Valid()
      ensures nodes.Keys == old(nodes).Keys + {node}
      ensures o == TypeError <==> !Identified(value)
      ensures NewValueNode(node, value, old(length))
      ensures forall j :: j in old(nodes) ==> nodes[j] == old(nodes)[j]
    {
      AddNode(node, None);
      o := RouteValue(node, value);
    }

    /** `this.nodes[node].updateValue(value)` for a node that exists. */
    method RouteValue(id: nat, value: Option<Rec>) returns (o: Outcome)
      requires Valid() && id in nodes
      modifies nodes[id].Repr
      ensures Valid()
      ensures o == TypeError <==> !Identified(value)
      ensures nodes[id].ValueUpdated(value)
      ensures forall j :: j in nodes && j != id ==> unchanged(nodes[j])
    {
      var n := nodes[id];
      o := n.UpdateValue(value);
    }

    /**
     * The `node ready` event: the node is updated and marked ready as
     * `UpdateReady` states, no other node changes, and then devices are
     * created from the nodes as they now are.
     */
    method OnNodeReady(id: nat, info: Option<Rec>)
      requires Valid()
      modifies this`nodes, this`length, this`devices, if id in nodes then {nodes[id]} else {}
      ensures Valid()
      ensures nodes.Keys == old(nodes).Keys + {id}
      ensures length == if id < old(length) then old(length) else id + 1
      ensures id in nodes && nodes[id].ready
      ensures id !in old(nodes) ==>
        nodes[id].info == (if info.Some? then info.value else []) && nodes[id].values == map[]
      ensures id in old(nodes) ==>
        && nodes[id].info == (if info.Some? then AssignAll(old(nodes[id].info), info.value) else old(nodes[id].info))
        && nodes[id].values == old(nodes[id].values)
      ensures nodes[id].View() == ReadyView(if id in old(nodes) then Some(old(nodes[id].View())) else None, info)
      ensures forall j :: j in old(nodes) && j != id ==> nodes[j] == old(nodes)[j] && unchanged(nodes[j])
      ensures devices == Register(old(devices), Plans(name, Views(), length))
    {
      UpdateReady(id, info);
      CreateDevices();
    }

    /**
     * The first two steps of the `node ready` event, `updateNode(id, info)`
     * then the node's `onReady()`: the node's info is the given one (or
     * `{}`) for a new node and the merge of the two for a known one, whose
     * values are kept; no other node changes.
     */
    method UpdateReady(id: nat, info: Option<Rec>)
      requires Valid()
      modifies this`nodes, this`length, if id in nodes then {nodes[id]} else {}
      ensures Valid()
      ensures nodes.Keys == old(nodes).Keys + {id}
      ensures length == if id < old(length) then old(length) else id + 1
      ensures id in nodes && nodes[id].ready
      ensures id !in old(nodes) ==>
        nodes[id].info == (if info.Some? then info.value else []) && nodes[id].values == map[]
      ensures id in old(nodes) ==>
        && nodes[id].info == (if info.Some? then AssignAll(old(nodes[id].info), info.value) else old(nodes[id].info))
        && nodes[id].values == old(nodes[id].values)
      ensures nodes[id].View() == ReadyView(if id in old(nodes) then Some(old(nodes[id].View())) else None, info)
      ensures forall j :: j in old(nodes) && j != id ==> nodes[j] == old(nodes)[j] && unchanged(nodes[j])
    {
      UpdateNode(id, info);
      MarkReady(id);
    }

    /** `this.nodes[id].update(info)` for a node that exists. */
    method MergeInfo(id: nat, info: Option<Rec>)
      requires Valid() && id in nodes
      modifies nodes[id]
      ensures Valid()
      ensures nodes[id].info == if info.Some? then AssignAll(old(nodes[id].info), info.value) else old(nodes[id].info)
      ensures nodes[id].ready == old(nodes[id].ready) && nodes[id].values == old(nodes[id].values)
      ensures nodes[id].View() == old(nodes[id].View()).(info := nodes[id].info)
      ensures forall j :: j in nodes && j != id ==> unchanged(nodes[j])
    {
      var n := nodes[id];
      n.Update(info);
    }

    /** `this.nodes[id].onReady()` for a node that exists. */
    method MarkReady(id: nat)
      requires Valid() && id in nodes
      modifies nodes[id]
      ensures Valid()
      ensures nodes[id].ready
      ensures nodes[id].info == old(nodes[id].info) && nodes[id].values == old(nodes[id].values)
      ensures nodes[id].View() == old(nodes[id].View()).(ready := true)
      ensures forall j :: j in nodes && j != id ==> unchanged(nodes[j])
    {
      var n := nodes[id];
      n.OnReady();
    }

    /**
     * `createDevices()`: every array slot in ascending order; the device
     * planned for a ready node is registered unless its topic is taken.
     * Nothing but the device table changes.
     */
    method CreateDevices()
      requires Valid()
      modifies this`devices
      ensures Valid() && nodes == old(nodes) && Views() == old(Views())
      ensures devices == Register(old(devices), Plans(name, old(Views()), length))
    {
      ghost var views := Views();
      RegisterSlots(nodes, length, views);
      assert forall id :: id in nodes ==> nodes[id].View() == views[id];
      ViewsAre(views);
    }

    /** `Views()` is determined node by node. */
    lemma ViewsAre(views: map<nat, NodeView>)
      requires Valid()
      requires views.Keys == nodes.Keys
      requires forall id :: id in nodes ==> nodes[id].View() == views[id]
      ensures Views() == views
    {
    }

    /** The loop of `createDevices` over slots `0 .. n - 1` of the node array `ns`. */
    method RegisterSlots(ns: map<nat, ZVagNode>, n: nat, ghost views: map<nat, NodeView>)
      requires views.Keys == ns.Keys
      requires forall id :: id in ns ==> this !in ns[id].Repr && ns[id].Valid() && ns[id].View() == views[id]
      modifies this`devices
      ensures devices == Register(old(devices), Plans(name, views, n))
    {
      var i := 0;
      while i < n
        invariant 0 <= i <= n
        invariant devices == Register(old(devices), Plans(name, views, i))
      {
        RegisterNext(devices, old(devices), name, views, i);
        var plan := None;
        if i in ns {
          plan := Plan(i, ns[i], views[i]);
        }
        assert plan == Slot(name, views, i);
        if plan.Some? && plan.value.topic !in devices {
          devices := devices[plan.value.topic := plan.value];
        }
        i := i + 1;
      }
    }

    /** The body of `createDevices` for one ready node: its type, then its grouped features. */
    method Plan(i: nat, node: ZVagNode, ghost view: NodeView) returns (plan: Option<Registration>)
      requires node.Valid() && view == node.View()
      ensures plan == DeviceFor(name, i, view)
    {
      if !node.ready {
        return None;
      }
      var t := node.GetType();
      if t.None? {
        return None;
      }
      var vs := node.GetValues();
      assert FieldsOf(vs) == view.fields;
      var gs, cnt := GroupFeatures(vs);
      assert gs == Grouped(FeatureList(view.fields));
      gs := WithOutlet(t.value, gs);
      if cnt > 0 {
        plan := Some(Registration(DeviceTopic(t.value, name, i), t.value, gs));
      } else {
        plan := None;
      }
    }
  }

  /** The grouping loop of `createDevices`, counting each new feature name once. */
  method GroupFeatures(vs: seq<ZVagValue>) returns (gs: seq<Group>, featureCnt: nat)
    ensures gs == Grouped(FeatureList(FieldsOf(vs)))
    ensures featureCnt == |gs|
  {
    ghost var fts := FeatureList(FieldsOf(vs));
    gs, featureCnt := [], 0;
    var j := 0;
    while j < |vs|
      invariant 0 <= j <= |vs|
      invariant gs == Grouped(fts[..j])
      invariant featureCnt == |gs|
    {
      assert fts[..j + 1][..j] == fts[..j];
      var ft := FeatureOf(vs[j].fields);
      if ft.Some? {
        var g := Find(gs, ft.value);
        if g >= 0 {
          gs := gs[g := Group(ft.value, gs[g].members + [j])];
        } else {
          gs := gs + [Group(ft.value, [j])];
          featureCnt := featureCnt + 1;
        }
      }
      j := j + 1;
    }
    assert fts[..j] == fts;
  }

  // ---------------------------------------------------------------------
  // Properties
  // ---------------------------------------------------------------------

  /** The alarm reading maps to `'0'` exactly for 23, to `'1'` otherwise, and nothing else changes. */
  lemma MapValueCases(cls: Json, index: Json, value: Json)
    ensures LooseEq(cls, Num(113)) && LooseEq(index, Num(9)) ==>
      (MapValue(cls, index, value) == Str("0") <==> LooseEq(value, Num(23)))
      && (MapValue(cls, index, value) == Str("1") <==> !LooseEq(value, Num(23)))
    ensures !(LooseEq(cls, Num(113)) && LooseEq(index, Num(9))) ==> MapValue(cls, index, value) == value
  {
  }

  /** Names of groups are distinct: each feature gets one group. */
  predicate GroupNamesDistinct(gs: seq<Group>)
  {
    forall a, b :: 0 <= a < b < |gs| ==> gs[a].feature != gs[b].feature
  }

  /** The group names, in group order. */
  function Names(gs: seq<Group>): (r: seq<string>)
    ensures |r| == |gs|
    ensures forall g :: 0 <= g < |gs| ==> r[g] == gs[g].feature
  {
    seq(|gs|, g requires 0 <= g < |gs| => gs[g].feature)
  }

  /** A grouping step appends the feature's name when it is new and otherwise keeps the names. */
  lemma AddMemberNames(gs: seq<Group>, j: nat, ft: Option<string>)
    ensures Names(AddMember(gs, j, ft)) == if ft.Some? && ft.value !in Names(gs) then Names(gs) + [ft.value] else Names(gs)
  {
    if ft.Some? {
      var g := Find(gs, ft.value);
      if g >= 0 {
        assert Names(gs)[g] == ft.value;
        assert Names(gs[g := Group(ft.value, gs[g].members + [j])]) == Names(gs);
      } else {
        assert ft.value !in Names(gs);
        assert Names(gs + [Group(ft.value, [j])]) == Names(gs) + [ft.value];
      }
    }
  }

  /** The group names are exactly the features present, each once, so `featureCnt` counts distinct names. */
  lemma {:induction false} GroupedNames(fts: seq<Option<string>>)
    ensures GroupNamesDistinct(Grouped(fts))
    ensures forall f :: f in Names(Grouped(fts)) <==> Some(f) in fts
  {
    if fts != [] {
      var n := |fts| - 1;
      var init, ft := fts[..n], fts[n];
      assert fts == init + [ft];
      GroupedNames(init);
      var gs := Grouped(init);
      AddMemberNames(gs, n, ft);
      assert Names(Grouped(fts)) == Names(AddMember(gs, n, ft));
    }
  }

  /** Group `grp` holds exactly the positions of `fts` carrying its feature, in ascending order. */
  ghost predicate MembersOf(grp: Group, fts: seq<Option<string>>)
  {
    (forall j :: j in grp.members <==> 0 <= j < |fts| && fts[j] == Some(grp.feature))
    && (forall a, b :: 0 <= a < b < |grp.members| ==> grp.members[a] < grp.members[b])
  }

  /** A value with another feature leaves a group unchanged. */
  lemma MembersKeep(grp: Group, init: seq<Option<string>>, ft: Option<string>)
    requires MembersOf(grp, init) && ft != Some(grp.feature)
    ensures MembersOf(grp, init + [ft])
  {
    var fts := init + [ft];
    forall j ensures j in grp.members <==> 0 <= j < |fts| && fts[j] == Some(grp.feature) {
      if 0 <= j < |init| { assert fts[j] == init[j]; }
    }
  }

  /** A value with the group's feature joins it at the end. */
  lemma MembersExtend(grp: Group, init: seq<Option<string>>)
    requires MembersOf(grp, init)
    ensures MembersOf(Group(grp.feature, grp.members + [|init|]), init + [Some(grp.feature)])
  {
    var fts, ms := init + [Some(grp.feature)], grp.members + [|init|];
    forall j ensures j in ms <==> 0 <= j < |fts| && fts[j] == Some(grp.feature) {
      if 0 <= j < |init| { assert fts[j] == init[j]; }
    }
    forall a, b | 0 <= a < b < |ms| ensures ms[a] < ms[b] {
      assert ms[a] in grp.members;
    }
  }

  /** A value whose feature is new opens a group holding only it. */
  lemma MembersNew(f: string, init: seq<Option<string>>)
    requires Some(f) !in init
    ensures MembersOf(Group(f, [|init|]), init + [Some(f)])
  {
    var fts := init + [Some(f)];
    forall j ensures j in [|init|] <==> 0 <= j < |fts| && fts[j] == Some(f) {
      if 0 <= j < |init| { assert fts[j] == init[j]; }
    }
  }

  /** A value is in a group exactly when its feature is the group's name; members keep `getValues()` order. */
  lemma {:induction false} GroupedMembers(fts: seq<Option<string>>)
    ensures forall g :: 0 <= g < |Grouped(fts)| ==> MembersOf(Grouped(fts)[g], fts)
  {
    if fts != [] {
      var n := |fts| - 1;
      var init, ft := fts[..n], fts[n];
      assert fts == init + [ft];
      GroupedMembers(init);
      GroupedNames(init);
      var gs := Grouped(init);
      var r := AddMember(gs, n, ft);
      assert Grouped(fts) == r;
      if ft.None? {
        forall g | 0 <= g < |r| ensures MembersOf(r[g], fts) {
          MembersKeep(gs[g], init, ft);
        }
      } else {
        var k := Find(gs, ft.value);
        if k >= 0 {
          forall g | 0 <= g < |r| ensures MembersOf(r[g], fts) {
            if g == k {
              MembersExtend(gs[g], init);
            } else {
              assert g < k ==> gs[g].feature != gs[k].feature;
              assert k < g ==> gs[k].feature != gs[g].feature;
              MembersKeep(gs[g], init, ft);
            }
          }
        } else {
          assert ft.value !in Names(gs);
          forall g | 0 <= g < |r| ensures MembersOf(r[g], fts) {
            if g < |gs| {
              MembersKeep(gs[g], init, ft);
            } else {
              MembersNew(ft.value, init);
            }
          }
        }
      }
    }
  }

  /** One more slot: its plan is registered unless the topic is already taken. */
  lemma RegisterNext(d: map<string, Registration>, devs: map<string, Registration>, name: string, views: map<nat, NodeView>, i: nat)
    requires d == Register(devs, Plans(name, views, i))
    ensures var p := Slot(name, views, i);
      Register(devs, Plans(name, views, i + 1)) == if p.Some? && p.value.topic !in d then d[p.value.topic := p.value] else d
  {
    assert Plans(name, views, i + 1)[..i] == Plans(name, views, i);
  }

  /** Registration keeps every device registered before. */
  lemma {:induction false} RegisterKeeps(devs: map<string, Registration>, plans: seq<Option<Registration>>)
    ensures forall t :: t in devs ==> t in Register(devs, plans) && Register(devs, plans)[t] == devs[t]
  {
    if plans != [] {
      RegisterKeeps(devs, plans[..|plans| - 1]);
    }
  }

  /** Every planned device's topic ends up registered, and nothing unplanned is. */
  lemma {:induction false} RegisterCovers(devs: map<string, Registration>, plans: seq<Option<Registration>>)
    ensures forall j :: 0 <= j < |plans| && plans[j].Some? ==> plans[j].value.topic in Register(devs, plans)
    ensures forall t :: t in Register(devs, plans) ==>
      t in devs || exists j :: 0 <= j < |plans| && plans[j].Some? && plans[j].value.topic == t && Register(devs, plans)[t] == plans[j].value
  {
    if plans != [] {
      var init := plans[..|plans| - 1];
      RegisterCovers(devs, init);
      assert forall j :: 0 <= j < |init| ==> plans[j] == init[j];
      RegisterKeeps(Register(devs, init), [plans[|plans| - 1]]);
    }
  }

  /** Device topics of different nodes differ, so one node's device never blocks another's. */
  lemma DeviceTopicInjective(t: DeviceType, u: DeviceType, name: string, i: nat, j: nat)
    requires DeviceTopic(t, name, i) == DeviceTopic(u, name, j)
    ensures t == u && i == j
  {
    TypeNameNoSlash(t);
    TypeNameNoSlash(u);
    SlotTopicInjective(TypeName(t), TypeName(u), name, i, j);
    TypeNameInjective(t, u);
  }

  /** `<p>/<name><i>` with a `/`-free `p` determines `p` and `i`. */
  lemma SlotTopicInjective(p: string, q: string, name: string, i: nat, j: nat)
    requires '/' !in p && '/' !in q
    requires p + "/" + name + NatToString(i) == q + "/" + name + NatToString(j)
    ensures p == q && i == j
  {
    var x, y := name + NatToString(i), name + NatToString(j);
    assert p + "/" + name + NatToString(i) == p + "/" + x;
    assert q + "/" + name + NatToString(j) == q + "/" + y;
    FirstSegment(p, q, x, y);
    assert NatToString(i) == x[|name|..] && NatToString(j) == y[|name|..];
    NatToStringInjective(i, j);
  }

  /** A first path segment without `/` is determined by the whole path, and so is the rest. */
  lemma FirstSegment(p: string, q: string, x: string, y: string)
    requires '/' !in p && '/' !in q
    requires p + "/" + x == q + "/" + y
    ensures p == q && x == y
  {
    SegmentNoLonger(p, q, x, y);
    SegmentNoLonger(q, p, y, x);
    var a := p + "/" + x;
    assert p == a[..|p|] && x == a[|p| + 1..];
  }

  /** A `/`-free first segment is no longer than any other first segment of the same path. */
  lemma SegmentNoLonger(p: string, q: string, x: string, y: string)
    requires '/' !in q
    requires p + "/" + x == q + "/" + y
    ensures |q| <= |p|
  {
    if |p| < |q| {
      PrefixIndex(q, "/" + y, |p|);
      SlashAfter(p, x);
      assert false;
    }
  }

  /** Indexing into the first part of a concatenation. */
  lemma PrefixIndex(s: string, t: string, k: nat)
    requires k < |s|
    ensures (s + t)[k] == s[k]
  {
  }

  /** The slash sits right after the first segment. */
  lemma SlashAfter(p: string, x: string)
    ensures (p + "/" + x)[|p|] == '/'
  {
  }

  lemma TypeNameNoSlash(t: DeviceType)
    ensures '/' !in TypeName(t)
  {
  }

  lemma TypeNameInjective(t: DeviceType, u: DeviceType)
    requires TypeName(t) == TypeName(u)
    ensures t == u
  {
  }
}
