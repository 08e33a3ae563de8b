/**
 * The remote adapter (src/lib/mqttOzw.ts): a stand-in for the driver on the
 * far side of the broker. It rebuilds node and value mirrors from the
 * gateway's publishes, fires the driver-style callbacks registered with
 * `on`, and turns every driver call into a tagged command on `<name>/set`
 * without applying anything locally.
 */
module Adapter {
  import opened Wrappers
  import opened Decimal
  import opened JsonValues
  import opened Topics
  import opened Commands

  /** One call of a registered callback: the registry list, the callback, its arguments. */
  datatype Invocation = Invocation(event: string, cb: nat, args: seq<Json>)

  /** How `updateValue` classified an observation. */
  datatype Kind = Added | Changed | Refreshed

  /** A node's value list after an observation, and the classification. */
  datatype Observed = Observed(list: seq<Rec>, kind: Kind)

  /** The result of the inner overwrite loop: the entry and whether any field differed. */
  datatype Overwritten = Overwritten(rec: Rec, upd: bool)

  /** The callback registry's lists, created empty. */
  function RegistryNames(): set<string>
  {
    {"driverReady", "driverFailed", "nodeAvailable", "nodeAdded", "nodeNaming", "nodeRemoved",
     "nodeReady", "nodeEvent", "sceneEvent", "valueAdded", "valueChanged", "valueRefreshed",
     "valueRemoved", "scanComplete", "pollingEnabled", "pollingDisabled", "controllerCommand"}
  }

  /** The registry list an observation of each kind fires. */
  function KindEvent(k: Kind): string
  {
    match k
    case Added => "valueAdded"
    case Changed => "valueChanged"
    case Refreshed => "valueRefreshed"
  }

  /**
   * `list.forEach(cb => cb(...args))` for the adapter's driver-style events:
   * each call is logged with the event's name and its argument list. A
   * value's `update` callbacks are logged by `ZValue.Notify` instead, whose
   * calls carry one change list and no event name.
   */
  function Calls(cbs: seq<nat>, event: string, args: seq<Json>): (r: seq<Invocation>)
    ensures |r| == |cbs|
    ensures forall i :: 0 <= i < |cbs| ==> r[i] == Invocation(event, cbs[i], args)
  {
    if cbs == [] then [] else Calls(cbs[..|cbs| - 1], event, args) + [Invocation(event, cbs[|cbs| - 1], args)]
  }

  // ---------------------------------------------------------------------
  // Event names
  // ---------------------------------------------------------------------

  /** `s.indexOf(c)`: the first position of `c`, or -1. */
  function IndexOf(s: string, c: char): (r: int)
    ensures -1 <= r < |s|
    ensures r == -1 <==> c !in s
    ensures r >= 0 ==> s[r] == c && c !in s[..r]
  {
    if s == [] then -1
    else if s[0] == c then 0
    else
      var r := IndexOf(s[1..], c);
      assert s[1..] == s[1..];
      if r == -1 then -1
      else
        assert s[..r + 1] == [s[0]] + s[1..][..r];
        r + 1
  }

  /** `toUpperCase` on one character, for the ASCII letters. */
  function Upper(c: char): char
  {
    if 'a' <= c <= 'z' then (c as int - 'a' as int + 'A' as int) as char else c
  }

  /** `s.substr(0,1).toUpperCase() + s.substr(1)`. */
  function Capitalize(s: string): (r: string)
    ensures |r| == |s|
  {
    if s == [] then [] else [Upper(s[0])] + s[1..]
  }

  /**
   * The registry key `on` makes of an event name: no key unless a space
   * occurs after the first character; otherwise the first word followed by
   * the second, capitalised (`ev.split(" ", 2)`).
   */
  function EventKey(ev: string): (r: Option<string>)
    ensures r.None? <==> IndexOf(ev, ' ') <= 0
  {
    var sp := IndexOf(ev, ' ');
    if sp <= 0 then None
    else
      var rest := ev[sp + 1..];
      var sp2 := IndexOf(rest, ' ');
      var second := if sp2 < 0 then rest else rest[..sp2];
      Some(ev[..sp] + Capitalize(second))
  }

  // ---------------------------------------------------------------------
  // Value observations
  // ---------------------------------------------------------------------

  /** The first entry whose `value_id` is `==` to `id`. */
  function FirstLoose(list: seq<Rec>, id: Json, k: nat): (r: Option<nat>)
    requires k <= |list|
    ensures r.Some? ==> (k <= r.value < |list| && LooseEq(Lookup(list[r.value], "value_id"), id)
      && forall j :: k <= j < r.value ==> !LooseEq(Lookup(list[j], "value_id"), id))
    ensures r.None? ==> forall j :: k <= j < |list| ==> !LooseEq(Lookup(list[j], "value_id"), id)
    decreases |list| - k
  {
    if k == |list| then None
    else if LooseEq(Lookup(list[k], "value_id"), id) then Some(k)
    else FirstLoose(list, id, k + 1)
  }

  /**
   * The inner loop over the observation's fields `kk`: each writes `x` (the
   * observation's field named by the entry's position) into `kk`, and `upd`
   * records whether any of them was not `===` to `x` before.
   */
  function Overwrite(vv: Rec, names: Rec, x: Json): Overwritten
  {
    if names == [] then Overwritten(vv, false)
    else
      var o := Overwrite(vv, names[..|names| - 1], x);
      var kk := names[|names| - 1].name;
      Overwritten(Assign(o.rec, kk, x), o.upd || !StrictEq(Lookup(o.rec, kk), x))
  }

  /**
   * `updateValue`: a new `value_id` is appended; for a known one the inner
   * loop tests `val.hasOwnProperty(k)` with the entry's position `k`, so it
   * writes only when the observation has a field named by that decimal
   * position, and then writes that field's value under every name.
   */
  function Observe(list: seq<Rec>, val: Rec): (r: Observed)
    ensures r.kind == Added <==> FirstLoose(list, Lookup(val, "value_id"), 0).None?
    ensures r.kind == Added ==> r.list == list + [val]
    ensures r.kind != Added ==> |r.list| == |list|
  {
    match FirstLoose(list, Lookup(val, "value_id"), 0)
    case None => Observed(list + [val], Added)
    case Some(k) =>
      var idx := NatToString(k);
      if idx !in Keys(val) then Observed(list, Refreshed)
      else
        var o := Overwrite(list[k], val, Lookup(val, idx));
        Observed(list[k := o.rec], if o.upd then Changed else Refreshed)
  }

  /** `{node_id, class_id, instance, index}` as parsed from a value topic. */
  function ValueIdOf(n: nat, c: nat, i: nat, x: nat): Json
  {
    Obj([Field("node_id", Num(n)), Field("class_id", Num(c)), Field("instance", Num(i)), Field("index", Num(x))])
  }

  // ---------------------------------------------------------------------
  // Commands
  // ---------------------------------------------------------------------

  /**
   * The command `setValue` sends: given an object, array or null as the
   * first argument it takes the id's fields and the second argument as the
   * value (reading a field of null throws, so nothing is sent).
   */
  function SetValueCommand(nodeId: Json, classId: Json, instance: Json, index: Json, value: Json): (r: Option<Json>)
    ensures r.None? <==> nodeId.Null?
  {
    if IsObjectType(nodeId) then
      if nodeId.Null? then None
      else Some(ValueCommand(Get(nodeId, "node_id"), Get(nodeId, "class_id"), Get(nodeId, "instance"), Get(nodeId, "index"), classId))
    else Some(ValueCommand(nodeId, classId, instance, index, value))
  }

  /**
   * The inner loop of `updateValue` for the entry at the position written
   * `idx`: it overwrites only if the observation has a field named `idx`.
   */
  method Refresh(vv: Rec, val: Rec, idx: string) returns (entry: Rec, upd: bool)
    ensures idx in Keys(val) ==> Overwritten(entry, upd) == Overwrite(vv, val, Lookup(val, idx))
    ensures idx !in Keys(val) ==> entry == vv && !upd
  {
    var has := idx in Keys(val);
    entry, upd := vv, false;
    var j := 0;
    while j < |val|
      invariant 0 <= j <= |val|
      invariant has ==> Overwritten(entry, upd) == Overwrite(vv, val[..j], Lookup(val, idx))
      invariant !has ==> entry == vv && !upd
    {
      assert val[..j + 1][..j] == val[..j];
      if has {
        if !StrictEq(Lookup(entry, val[j].name), Lookup(val, idx)) {
          upd := true;
        }
        entry := Assign(entry, val[j].name, Lookup(val, idx));
      }
      j := j + 1;
    }
    assert val[..j] == val;
  }

  class MqttOzw {
    const name: string
    /** The node records, by node id as a property key. */
    var nodes: map<string, Rec>
    /** The value records of each node, by node id as a property key. */
    var values: map<string, seq<Rec>>
    /** The callback registry. */
    var cb: map<string, seq<nat>>
    /** Every callback call made so far. */
    var fired: seq<Invocation>
    /** The nodes whose `nodeReady` callbacks were scheduled (5 s later), in order. */
    var readyTimers: seq<nat>
    /** Every command published. */
    var sent: seq<Message>

    ghost predicate Valid()
      reads this
    {
      cb.Keys == RegistryNames()
    }

    constructor (name: string)
      ensures Valid()
      ensures this.name == name && nodes == map[] && values == map[] && fired == [] && readyTimers == [] && sent == []
      ensures forall ev :: ev in cb ==> cb[ev] == []
    {
      this.name := name;
      nodes := map[];
      values := map[];
      cb := map ev | ev in RegistryNames() :: [];
      fired := [];
      readyTimers := [];
      sent := [];
    }

    /** `on(ev, cb)`: registers under the event's key, or throws for an invalid or unknown event. */
    method On(ev: string, id: nat) returns (registered: bool)
      requires Valid()
      modifies this
      ensures Valid()
      ensures registered <==> EventKey(ev).Some? && EventKey(ev).value in RegistryNames()
      ensures registered ==> cb == old(cb)[EventKey(ev).value := old(cb)[EventKey(ev).value] + [id]]
      ensures !registered ==> cb == old(cb)
      ensures nodes == old(nodes) && values == old(values) && fired == old(fired)
      ensures readyTimers == old(readyTimers) && sent == old(sent)
    {
      var key := EventKey(ev);
      if key.None? || key.value !in cb {
        return false;
      }
      cb := cb[key.value := cb[key.value] + [id]];
      registered := true;
    }

    /** Calls every callback registered under `event`, in order. */
    method Fire(event: string, args: seq<Json>)
      requires Valid() && event in cb
      modifies this
      ensures Valid()
      ensures fired == old(fired) + Calls(cb[event], event, args)
      ensures cb == old(cb) && nodes == old(nodes) && values == old(values)
      ensures readyTimers == old(readyTimers) && sent == old(sent)
    {
      var list := cb[event];
      var i := 0;
      while i < |list|
        invariant 0 <= i <= |list|
        invariant fired == old(fired) + Calls(list[..i], event, args)
        invariant cb == old(cb) && nodes == old(nodes) && values == old(values)
        invariant readyTimers == old(readyTimers) && sent == old(sent)
      {
        assert list[..i + 1][..i] == list[..i];
        fired := fired + [Invocation(event, list[i], args)];
        i := i + 1;
      }
      assert list[..i] == list;
    }

    /** `createNode(id)`: an unknown node gets an empty record and `nodeAdded` fires; a known one is left alone. */
    method CreateNode(nodeId: Json)
      requires Valid()
      modifies this
      ensures Valid()
      ensures var key := Show(nodeId);
        && nodes == (if key in old(nodes) then old(nodes) else old(nodes)[key := []])
        && fired == old(fired) + (if key in old(nodes) then [] else Calls(cb["nodeAdded"], "nodeAdded", [nodeId]))
      ensures cb == old(cb) && values == old(values) && readyTimers == old(readyTimers) && sent == old(sent)
    {
      var key := Show(nodeId);
      if key !in nodes {
        nodes := nodes[key := []];
        Fire("nodeAdded", [nodeId]);
      }
    }

    /**
     * The effect of `updateValue(val)`: the node named by the observation's
     * own `node_id` is created if unknown (firing `nodeAdded`), its value
     * list becomes the one `Observe` gives, and the callback list of the
     * resulting kind fires with the node id, the class id and the observation.
     */
    twostate predicate Observed(val: Rec)
      requires old(Valid())
      reads this
    {
      var nodeId := Lookup(val, "node_id");
      var key := Show(nodeId);
      var prior := if key in old(values) then old(values)[key] else [];
      var obs := Observe(prior, val);
      && nodes == (if key in old(nodes) then old(nodes) else old(nodes)[key := []])
      && values == old(values)[key := obs.list]
      && fired == old(fired)
           + (if key in old(nodes) then [] else Calls(old(cb)["nodeAdded"], "nodeAdded", [nodeId]))
           + Calls(old(cb)[KindEvent(obs.kind)], KindEvent(obs.kind), [nodeId, Lookup(val, "class_id"), Obj(val)])
      && readyTimers == old(readyTimers)
    }

    /**
     * `updateValue(val)`: creates the node, then classifies the observation
     * against the node's list as `Observe` says and fires the one matching
     * callback list with the node id, the class id and the observation.
     */
    method UpdateValue(val: Rec)
      requires Valid()
      modifies this
      ensures Valid()
      ensures Observed(val)
      ensures cb == old(cb) && sent == old(sent)
    {
      var nodeId := Lookup(val, "node_id");
      var key := Show(nodeId);
      CreateNode(nodeId);
      if key !in values {
        values := values[key := []];
      }
      var list := values[key];
      var args := [nodeId, Lookup(val, "class_id"), Obj(val)];
      var id := Lookup(val, "value_id");
      var k := 0;
      while k < |list|
        invariant 0 <= k <= |list|
        invariant FirstLoose(list, id, 0) == FirstLoose(list, id, k)
      {
        if LooseEq(Lookup(list[k], "value_id"), id) {
          var idx := NatToString(k);
          var has := idx in Keys(val);
          var entry, upd := Refresh(list[k], val, idx);
          if has {
            values := values[key := list[k := entry]];
          } else {
            assert list[k := entry] == list;
          }
          if upd {
            Fire("valueChanged", args);
          } else {
            Fire("valueRefreshed", args);
          }
          return;
        }
        k := k + 1;
      }
      values := values[key := list + [val]];
      Fire("valueAdded", args);
    }

    /**
     * What `onMsg(topic, obj)` does: an unrecognised subtopic changes nothing;
     * the removal sentinel on a value topic drops the node's whole value list
     * and fires `valueRemoved`, on a node topic drops the node and fires
     * `nodeRemoved`; an object on a value topic is an observation handed to
     * `updateValue`; an object on a node topic is merged into the node and
     * may schedule `nodeReady`. Callbacks and commands are never touched.
     */
    twostate predicate Handled(topic: string, obj: Option<Rec>)
      reads this
    {
      && Valid() && cb == old(cb) && sent == old(sent)
      && (ParseTopic(topic).Unrecognised? ==>
            nodes == old(nodes) && values == old(values) && fired == old(fired) && readyTimers == old(readyTimers))
      && (ParseTopic(topic).ValueTopic? && obj.None? ==>
            var t := ParseTopic(topic);
            && values == old(values) - {NatToString(t.node)}
            && fired == old(fired) + Calls(cb["valueRemoved"], "valueRemoved",
                                             [Num(t.node), Num(t.cls), ValueIdOf(t.node, t.cls, t.instance, t.index)])
            && nodes == old(nodes) && readyTimers == old(readyTimers))
      && (ParseTopic(topic).NodeTopic? && obj.None? ==>
            var t := ParseTopic(topic);
            && nodes == old(nodes) - {NatToString(t.node)}
            && fired == old(fired) + Calls(cb["nodeRemoved"], "nodeRemoved", [Num(t.node)])
            && values == old(values) && readyTimers == old(readyTimers))
      && (ParseTopic(topic).ValueTopic? && obj.Some? ==> Observed(obj.value))
      && (ParseTopic(topic).NodeTopic? && obj.Some? ==>
            var t := ParseTopic(topic);
            var key := NatToString(t.node);
            var before := if key in old(nodes) then old(nodes)[key] else [];
            && nodes == old(nodes)[key := AssignAll(before, obj.value)]
            && fired == old(fired) + (if key in old(nodes) then [] else Calls(cb["nodeAdded"], "nodeAdded", [Num(t.node)]))
            && readyTimers == old(readyTimers) + (if Truthy(Lookup(obj.value, "ready")) then [t.node] else [])
            && values == old(values))
    }

    /**
     * `onMsg(topic, obj)` for a subtopic and a payload that is an object
     * (`Some`) or the removal sentinel (`None`).
     */
    method OnMsg(topic: string, obj: Option<Rec>)
      requires Valid()
      modifies this
      ensures Handled(topic, obj)
    {
      match ParseTopic(topic)
      case Unrecognised =>
      case ValueTopic(n, c, i, x) =>
        if obj.None? {
          values := values - {NatToString(n)};
          Fire("valueRemoved", [Num(n), Num(c), ValueIdOf(n, c, i, x)]);
        } else {
          UpdateValue(obj.value);
        }
      case NodeTopic(n) =>
        if obj.None? {
          nodes := nodes - {NatToString(n)};
          Fire("nodeRemoved", [Num(n)]);
        } else {
          UpdateNode(n, obj.value);
        }
    }

    /**
     * A node topic with an object: the node is created if needed, every own
     * field of the object is copied onto its record, and a truthy `ready`
     * schedules the `nodeReady` callbacks.
     */
    method UpdateNode(n: nat, src: Rec)
      requires Valid()
      modifies this
      ensures Valid()
      ensures var key := NatToString(n);
        var before := if key in old(nodes) then old(nodes)[key] else [];
        && nodes == old(nodes)[key := AssignAll(before, src)]
        && fired == old(fired) + (if key in old(nodes) then [] else Calls(cb["nodeAdded"], "nodeAdded", [Num(n)]))
        && readyTimers == old(readyTimers) + (if Truthy(Lookup(src, "ready")) then [n] else [])
      ensures values == old(values) && cb == old(cb) && sent == old(sent)
    {
      var key := NatToString(n);
      assert Show(Num(n)) == key;
      CreateNode(Num(n));
      var rec := nodes[key];
      var j := 0;
      while j < |src|
        invariant 0 <= j <= |src|
        invariant rec == AssignAll(nodes[key], src[..j])
      {
        assert src[..j + 1][..j] == src[..j];
        rec := Assign(rec, src[j].name, src[j].val);
        j := j + 1;
      }
      assert src[..j] == src;
      nodes := nodes[key := rec];
      if Truthy(Lookup(src, "ready")) {
        readyTimers := readyTimers + [n];
      }
    }

    /**
     * The message handler installed by `connect`: the empty payload (and a
     * body that parses to `null`) is the removal sentinel; a topic is handled
     * only if it is longer than the name and starts with the name and a slash.
     */
    method OnMessage(topic: string, payload: Payload)
      requires Valid()
      modifies this
      ensures Valid()
      ensures Strip(name, topic).None? ==>
        nodes == old(nodes) && values == old(values) && fired == old(fired) && readyTimers == old(readyTimers)
      ensures Strip(name, topic).Some? && (payload.Empty? || payload == Body(Null)) ==> Handled(Strip(name, topic).value, None)
      ensures Strip(name, topic).Some? && payload.Body? && payload.doc.Obj? ==>
        Handled(Strip(name, topic).value, Some(payload.doc.fields))
      ensures Strip(name, topic).Some? && payload.Body? && !payload.doc.Obj? && !payload.doc.Null? ==>
        nodes == old(nodes) && values == old(values) && fired == old(fired) && readyTimers == old(readyTimers)
      ensures cb == old(cb) && sent == old(sent)
    {
      var sub := Strip(name, topic);
      if sub.None? {
        return;
      }
      match payload
      case Empty => OnMsg(sub.value, None);
      case Body(doc) =>
        if doc.Null? {
          OnMsg(sub.value, None);
        } else if doc.Obj? {
          OnMsg(sub.value, Some(doc.fields));
        }
    }

    /** `cmd(c)`: one publish on `<name>/set`, not retained. */
    method Send(command: Json)
      modifies this
      ensures sent == old(sent) + [Message(FullTopic(name, "set"), Body(command), false)]
      ensures nodes == old(nodes) && values == old(values) && cb == old(cb)
      ensures fired == old(fired) && readyTimers == old(readyTimers)
    {
      sent := sent + [Message(FullTopic(name, "set"), Body(command), false)];
    }

    /** `setValue(...)`: sends the `value` command, or throws when the id is null. */
    method SetValue(nodeId: Json, classId: Json, instance: Json, index: Json, value: Json) returns (o: Outcome)
      modifies this
      ensures var c := SetValueCommand(nodeId, classId, instance, index, value);
        && (o == TypeError <==> c.None?)
        && sent == old(sent) + (if c.Some? then [Message(FullTopic(name, "set"), Body(c.value), false)] else [])
      ensures nodes == old(nodes) && values == old(values) && cb == old(cb)
      ensures fired == old(fired) && readyTimers == old(readyTimers)
    {
      var c := SetValueCommand(nodeId, classId, instance, index, value);
      if c.None? {
        return TypeError;
      }
      Send(c.value);
      o := Done;
    }

    method SetNodeOn(nodeId: Json)
      modifies this
      ensures sent == old(sent) + [Message(FullTopic(name, "set"), Body(OnCommand(nodeId)), false)]
      ensures nodes == old(nodes) && values == old(values) && cb == old(cb)
      ensures fired == old(fired) && readyTimers == old(readyTimers)
    {
      Send(OnCommand(nodeId));
    }

    method SetNodeOff(nodeId: Json)
      modifies this
      ensures sent == old(sent) + [Message(FullTopic(name, "set"), Body(OffCommand(nodeId)), false)]
      ensures nodes == old(nodes) && values == old(values) && cb == old(cb)
      ensures fired == old(fired) && readyTimers == old(readyTimers)
    {
      Send(OffCommand(nodeId));
    }

    method SetLevel(nodeId: Json, level: Json)
      modifies this
      ensures sent == old(sent) + [Message(FullTopic(name, "set"), Body(LevelCommand(nodeId, level)), false)]
      ensures nodes == old(nodes) && values == old(values) && cb == old(cb)
      ensures fired == old(fired) && readyTimers == old(readyTimers)
    {
      Send(LevelCommand(nodeId, level));
    }

    method SetNodeLocation(nodeId: Json, location: Json)
      modifies this
      ensures sent == old(sent) + [Message(FullTopic(name, "set"), Body(LocationCommand(nodeId, location)), false)]
      ensures nodes == old(nodes) && values == old(values) && cb == old(cb)
      ensures fired == old(fired) && readyTimers == old(readyTimers)
    {
      Send(LocationCommand(nodeId, location));
    }

    method SetNodeName(nodeId: Json, nodeName: Json)
      modifies this
      ensures sent == old(sent) + [Message(FullTopic(name, "set"), Body(NameCommand(nodeId, nodeName)), false)]
      ensures nodes == old(nodes) && values == old(values) && cb == old(cb)
      ensures fired == old(fired) && readyTimers == old(readyTimers)
    {
      Send(NameCommand(nodeId, nodeName));
    }
  }

  // ---------------------------------------------------------------------
  // Properties
  // ---------------------------------------------------------------------

  /** The first occurrence of `c` is right after a prefix without it. */
  lemma {:induction false} IndexOfAfter(a: string, c: char, b: string)
    requires c !in a
    ensures IndexOf(a + [c] + b, c) == |a|
  {
    if a != [] {
      assert (a + [c] + b)[1..] == a[1..] + [c] + b;
      IndexOfAfter(a[1..], c, b);
    }
  }

  /** `"a b"` (two words, `a` non-empty) maps to `a` followed by `b` capitalised. */
  lemma EventKeyOfTwoWords(a: string, b: string)
    requires a != [] && ' ' !in a && ' ' !in b
    ensures EventKey(a + " " + b) == Some(a + Capitalize(b))
  {
    var ev := a + " " + b;
    IndexOfAfter(a, ' ', b);
    assert ev[..|a|] == a;
    assert ev[|a| + 1..] == b;
  }

  /** Words after the second are ignored: `"a b c"` maps like `"a b"`. */
  lemma EventKeyIgnoresThirdWord(a: string, b: string, c: string)
    requires a != [] && ' ' !in a && ' ' !in b
    ensures EventKey(a + " " + b + " " + c) == Some(a + Capitalize(b))
  {
    var ev := a + " " + b + " " + c;
    assert ev == a + [' '] + (b + " " + c);
    IndexOfAfter(a, ' ', b + " " + c);
    assert ev[..|a|] == a;
    var rest := ev[|a| + 1..];
    assert rest == b + [' '] + c;
    IndexOfAfter(b, ' ', c);
    assert rest[..|b|] == b;
  }

  /** `on("node ready", …)` registers with `nodeReady`. */
  lemma NodeReadyKey()
    ensures EventKey("node ready") == Some("nodeReady")
  {
    CapitalizeReady();
    EventKeyOfTwoWords("node", "ready");
  }

  lemma CapitalizeReady()
    ensures "node" + Capitalize("ready") == "nodeReady"
    ensures "node" + " " + "ready" == "node ready"
  {
  }

  /** A name without a space, or one that starts with a space, is rejected. */
  lemma EventKeyRejects(ev: string)
    requires ' ' !in ev || (ev != [] && ev[0] == ' ')
    ensures EventKey(ev).None?
  {
  }

  /** An observation that matches no stored `value_id` is appended and classified as added. */
  lemma ObserveNew(list: seq<Rec>, val: Rec)
    requires forall j :: 0 <= j < |list| ==> !LooseEq(Lookup(list[j], "value_id"), Lookup(val, "value_id"))
    ensures Observe(list, val) == Observed(list + [val], Added)
  {
  }

  /**
   * An observation with no field named like a decimal position (every
   * observation the gateway publishes) for a stored `value_id` is classified
   * as refreshed and changes nothing: the stored record keeps its old fields.
   */
  lemma ObserveKnownIsRefresh(list: seq<Rec>, val: Rec)
    requires forall i :: 0 <= i < |val| ==> !AllDigits(val[i].name)
    requires FirstLoose(list, Lookup(val, "value_id"), 0).Some?
    ensures Observe(list, val) == Observed(list, Refreshed)
  {
    var k := FirstLoose(list, Lookup(val, "value_id"), 0).value;
    var idx := NatToString(k);
    assert AllDigits(idx);
    assert idx !in Keys(val);
  }

  /**
   * When the observation does have a field named by the entry's position,
   * every field of the entry named like an observation field takes that one
   * field's value.
   */
  lemma {:induction false} OverwriteLookup(vv: Rec, names: Rec, x: Json, k: string)
    ensures Lookup(Overwrite(vv, names, x).rec, k) == if k in Keys(names) then x else Lookup(vv, k)
  {
    if names != [] {
      var init := names[..|names| - 1];
      var last := names[|names| - 1];
      assert names == init + [last];
      OverwriteLookup(vv, init, x, k);
      LookupAssign(Overwrite(vv, init, x).rec, last.name, x, k);
      KeysSnoc(init, last);
    }
  }

  /** The id form and the positional form of `setValue` send the same command. */
  lemma SetValueByIdIsPositional(id: Rec, v: Json, ignored1: Json, ignored2: Json)
    requires !IsObjectType(Lookup(id, "node_id"))
    ensures SetValueCommand(Obj(id), v, ignored1, ignored2, Undef)
         == SetValueCommand(Lookup(id, "node_id"), Lookup(id, "class_id"), Lookup(id, "instance"), Lookup(id, "index"), v)
  {
  }

  /** Every command a setter sends is dispatched by the gateway as the driver call of the same name and arguments. */
  lemma SetValueReachesDriver(nodeId: Json, classId: Json, instance: Json, index: Json, value: Json)
    requires SetValueCommand(nodeId, classId, instance, index, value).Some?
    ensures var c := SetValueCommand(nodeId, classId, instance, index, value).value;
      Decode(c) == Call(SetValue(Get(c, "nodeId"), Get(c, "classId"), Get(c, "instance"), Get(c, "index"), Get(c, "value")))
      && (!IsObjectType(nodeId) ==> Decode(c) == Call(SetValue(nodeId, classId, instance, index, value)))
  {
    var c := SetValueCommand(nodeId, classId, instance, index, value).value;
    if IsObjectType(nodeId) {
      ValueCommandDecodes(Get(nodeId, "node_id"), Get(nodeId, "class_id"), Get(nodeId, "instance"), Get(nodeId, "index"), classId);
    } else {
      ValueCommandDecodes(nodeId, classId, instance, index, value);
    }
  }
}
