/**
 * The gateway beside the device-network driver (src/lib/proxy.ts): it runs
 * the commands that arrive on `<prefix>/set`, mirrors the driver's node and
 * value events in two maps, and publishes every merged record under
 * `<prefix>/node<n>` and `<prefix>/node<n>/value<c>-<i>-<x>`; a removal is
 * published as the empty payload.
 */
module Gateway {
  import opened Wrappers
  import opened JsonValues
  import opened Topics
  import opened Decimal
  import opened Commands

  /** The prefix used when none (or an empty one) is configured. */
  const DefaultPrefix: string := "zwave/"

  /** A value record's `value_id`. */
  function IdOf(v: Rec): Json
  {
    Lookup(v, "value_id")
  }

  // ---------------------------------------------------------------------
  // The value list of one node
  // ---------------------------------------------------------------------

  /** A present entry whose `value_id` is `===` to `id`. */
  predicate IsMatch(e: Option<Rec>, id: Json)
  {
    e.Some? && StrictEq(IdOf(e.value), id)
  }

  /** The first entry from position `k` on that `onValueUpdate`'s search stops at (holes skipped). */
  function FirstMatchFrom(list: seq<Option<Rec>>, id: Json, k: nat): (r: Option<nat>)
    requires k <= |list|
    ensures r.Some? ==> (k <= r.value < |list| && IsMatch(list[r.value], id)
      && forall j :: k <= j < r.value ==> !IsMatch(list[j], id))
    ensures r.None? ==> forall j :: k <= j < |list| ==> !IsMatch(list[j], id)
    decreases |list| - k
  {
    if k == |list| then None
    else if IsMatch(list[k], id) then Some(k)
    else FirstMatchFrom(list, id, k + 1)
  }

  function FirstMatch(list: seq<Option<Rec>>, id: Json): Option<nat>
  {
    FirstMatchFrom(list, id, 0)
  }

  /** A node's value list after an event and the record that was published. */
  datatype Upserted = Upserted(list: seq<Option<Rec>>, rec: Rec)

  /**
   * `onValueUpdate`'s merge: an event for an unknown `value_id` is appended,
   * one for a known `value_id` has its own fields copied into the first entry
   * carrying that id.
   */
  function Upsert(list: seq<Option<Rec>>, value: Rec): (r: Upserted)
    ensures |r.list| == if FirstMatch(list, IdOf(value)).None? then |list| + 1 else |list|
  {
    match FirstMatch(list, IdOf(value))
    case None => Upserted(list + [Some(value)], value)
    case Some(i) =>
      var vv := AssignAll(list[i].value, value);
      Upserted(list[i := Some(vv)], vv)
  }

  /** No two present entries carry `===` value ids. */
  predicate IdsUnique(list: seq<Option<Rec>>)
  {
    forall i, j :: 0 <= i < j < |list| && list[i].Some? && list[j].Some? ==>
      !StrictEq(IdOf(list[i].value), IdOf(list[j].value))
  }

  /** `destroyValue`'s test: the entry belongs to the node and, when an id is given, has its class, instance and index. */
  predicate Selected(v: Rec, node: int, filter: Option<Rec>)
  {
    && StrictEq(Lookup(v, "node_id"), Num(node))
    && (filter.Some? ==>
          && StrictEq(Lookup(v, "class_id"), Lookup(filter.value, "class_id"))
          && StrictEq(Lookup(v, "instance"), Lookup(filter.value, "instance"))
          && StrictEq(Lookup(v, "index"), Lookup(filter.value, "index")))
  }

  /** The positions `destroyValue` collects, in list order. */
  function MatchedAt(list: seq<Option<Rec>>, node: int, filter: Option<Rec>): (r: seq<nat>)
    ensures forall j :: 0 <= j < |r| ==> r[j] < |list|
  {
    if list == [] then []
    else
      var n := |list| - 1;
      MatchedAt(list[..n], node, filter) + (if list[n].Some? && Selected(list[n].value, node, filter) then [n] else [])
  }

  /** The topic a value record is published under. */
  function ValueTopicOf(node: int, v: Rec): string
  {
    ValueSub(node, Lookup(v, "class_id"), Lookup(v, "instance"), Lookup(v, "index"))
  }

  /** The empty payloads `destroyValue` publishes, one per selected entry, in list order. */
  function RemovalMessages(prefix: string, list: seq<Option<Rec>>, node: int, filter: Option<Rec>): (r: seq<Message>)
    ensures forall m :: m in r ==> m.payload == Empty && m.retain
  {
    if list == [] then []
    else
      var n := |list| - 1;
      RemovalMessages(prefix, list[..n], node, filter)
        + (if list[n].Some? && Selected(list[n].value, node, filter)
           then [Message(FullTopic(prefix, ValueTopicOf(node, list[n].value)), Empty, true)] else [])
  }

  /** The list with every selected entry deleted: a hole where it was, the length kept. */
  function Removed(list: seq<Option<Rec>>, node: int, filter: Option<Rec>): (r: seq<Option<Rec>>)
    ensures |r| == |list|
    ensures forall i :: 0 <= i < |list| ==>
      r[i] == if list[i].Some? && Selected(list[i].value, node, filter) then None else list[i]
  {
    seq(|list|, i requires 0 <= i < |list| =>
      if list[i].Some? && Selected(list[i].value, node, filter) then None else list[i])
  }

  /** The deletion loop at the end of `destroyValue`, as written: it deletes the positions of `del` itself. */
  function RemovedAsWritten(list: seq<Option<Rec>>, del: seq<nat>): (r: seq<Option<Rec>>)
    ensures |r| == |list|
    ensures forall i :: 0 <= i < |list| ==> r[i] == if i < |del| then None else list[i]
  {
    seq(|list|, i requires 0 <= i < |list| => if i < |del| then None else list[i])
  }

  // ---------------------------------------------------------------------
  // The gateway
  // ---------------------------------------------------------------------

  class ZVagProxy {
    const prefix: string
    /** The node records, by driver node id. */
    var nodes: map<int, Rec>
    /** The value records of each node; a deleted entry leaves a hole. */
    var values: map<int, seq<Option<Rec>>>
    /** Every publish, in order. */
    var outbox: seq<Message>
    /** Every call made on the driver, in order. */
    var driverLog: seq<DriverCall>

    ghost predicate Valid()
      reads this
    {
      forall id :: id in nodes ==> Distinct(nodes[id])
    }

    /** The prefix is the configured one when it is non-empty, else the default. */
    constructor (configured: Option<string>)
      ensures Valid()
      ensures prefix == if configured.Some? && configured.value != "" then configured.value else DefaultPrefix
      ensures nodes == map[] && values == map[] && outbox == [] && driverLog == []
    {
      prefix := if configured.Some? && configured.value != "" then configured.value else DefaultPrefix;
      nodes := map[];
      values := map[];
      outbox := [];
      driverLog := [];
    }

    /** `push(topic, payload, retain)`: one publish under the prefix, retained unless told otherwise. */
    method Push(sub: string, payload: Payload, retain: Option<bool>)
      modifies this
      ensures outbox == old(outbox) + [Message(FullTopic(prefix, sub), payload, if retain.Some? then retain.value else true)]
      ensures nodes == old(nodes) && values == old(values) && driverLog == old(driverLog)
    {
      outbox := outbox + [Message(FullTopic(prefix, sub), payload, if retain.Some? then retain.value else true)];
    }

    /** `execute(c)`: at most one driver call, the one the command's tag names. */
    method Execute(c: Json)
      modifies this
      ensures driverLog == old(driverLog) + Emitted(c)
      ensures nodes == old(nodes) && values == old(values) && outbox == old(outbox)
    {
      var d := Decode(c);
      if d.Call? {
        driverLog := driverLog + [d.call];
      }
    }

    /** `onMqttMessage`: a parsed command payload runs element by element. */
    method OnMqttMessage(cmd: Json)
      modifies this
      ensures driverLog == old(driverLog) + PayloadCalls(cmd)
      ensures nodes == old(nodes) && values == old(values) && outbox == old(outbox)
    {
      if !IsObjectType(cmd) {
        return;
      }
      if cmd.Arr? {
        var cs := cmd.items;
        var i := 0;
        while i < |cs|
          invariant 0 <= i <= |cs|
          invariant driverLog == old(driverLog) + CallsOf(cs[..i])
          invariant nodes == old(nodes) && values == old(values) && outbox == old(outbox)
        {
          assert cs[..i + 1][..i] == cs[..i];
          Execute(cs[i]);
          i := i + 1;
        }
        assert cs[..i] == cs;
      } else {
        Execute(cmd);
        assert [cmd][..0] == [];
      }
    }

    /** `createNode(id)`: the node's record starts over empty. */
    method CreateNode(id: int)
      requires Valid()
      modifies this
      ensures Valid()
      ensures nodes == old(nodes)[id := []]
      ensures values == old(values) && outbox == old(outbox) && driverLog == old(driverLog)
    {
      nodes := nodes[id := []];
    }

    /**
     * `onNodeUpdate(id, info)`: the node's record exists afterwards and has
     * every own field of `info` copied in; it is published only when its
     * `ready` field is truthy.
     */
    method OnNodeUpdate(id: int, info: Option<Rec>)
      requires Valid()
      modifies this
      ensures Valid()
      ensures var before := if id in old(nodes) then old(nodes)[id] else [];
        nodes == old(nodes)[id := if info.Some? then AssignAll(before, info.value) else before]
      ensures outbox == old(outbox) +
        (if Truthy(Lookup(nodes[id], "ready")) then [Message(FullTopic(prefix, NodeSub(id)), Body(Obj(nodes[id])), true)] else [])
      ensures values == old(values) && driverLog == old(driverLog)
    {
      if id !in nodes {
        nodes := nodes[id := []];
      }
      if info.Some? {
        var src := info.value;
        var rec := nodes[id];
        var i := 0;
        while i < |src|
          invariant 0 <= i <= |src|
          invariant rec == AssignAll(nodes[id], src[..i])
        {
          assert src[..i + 1][..i] == src[..i];
          rec := Assign(rec, src[i].name, src[i].val);
          i := i + 1;
        }
        assert src[..i] == src;
        DistinctAssignAll(nodes[id], src);
        nodes := nodes[id := rec];
      }
      if Truthy(Lookup(nodes[id], "ready")) {
        Push(NodeSub(id), Body(Obj(nodes[id])), None);
      }
    }

    /**
     * `onNodeReady(id)`: sets `_ready`, then lists the node's value ids in
     * `_values` (a hole reads as undefined), which throws when the gateway has
     * never seen a value of the node; then copies the record onto itself,
     * which changes nothing, and publishes it only if `ready` is truthy.
     */
    method OnNodeReady(id: int) returns (o: Outcome)
      requires Valid()
      modifies this
      ensures Valid()
      ensures var before := if id in old(nodes) then old(nodes)[id] else [];
        var marked := Assign(before, "_ready", Bool(true));
        && (o == TypeError <==> id !in values)
        && (id !in values ==> nodes == old(nodes)[id := marked] && outbox == old(outbox))
        && (id in values ==>
              && nodes == old(nodes)[id := Assign(marked, "_values", Arr(ValueIds(values[id])))]
              && outbox == old(outbox) +
                   (if Truthy(Lookup(nodes[id], "ready"))
                    then [Message(FullTopic(prefix, NodeSub(id)), Body(Obj(nodes[id])), true)] else []))
      ensures values == old(values) && driverLog == old(driverLog)
    {
      if id !in nodes {
        nodes := nodes[id := []];
      }
      DistinctAssign(nodes[id], "_ready", Bool(true));
      nodes := nodes[id := Assign(nodes[id], "_ready", Bool(true))];
      if id !in values {
        return TypeError;
      }
      DistinctAssign(nodes[id], "_values", Arr(ValueIds(values[id])));
      nodes := nodes[id := Assign(nodes[id], "_values", Arr(ValueIds(values[id])))];
      AssignAllSelf(nodes[id]);
      OnNodeUpdate(id, Some(nodes[id]));
      o := Done;
    }

    /**
     * `onValueUpdate(node, value)`: the node's list takes the event as
     * `Upsert` says, and the merged record is published, retained, under its
     * own class, instance and index.
     */
    method OnValueUpdate(node: int, value: Rec)
      modifies this
      ensures var list := if node in old(values) then old(values)[node] else [];
        var u := Upsert(list, value);
        && values == old(values)[node := u.list]
        && outbox == old(outbox) + [Message(FullTopic(prefix, ValueTopicOf(node, u.rec)), Body(Obj(u.rec)), true)]
      ensures nodes == old(nodes) && driverLog == old(driverLog)
    {
      if node !in values {
        values := values[node := []];
      }
      var list := values[node];
      var id := IdOf(value);
      var found: Option<nat> := None;
      var k := 0;
      while k < |list| && found.None?
        invariant 0 <= k <= |list|
        invariant found.None? ==> FirstMatch(list, id) == FirstMatchFrom(list, id, k)
        invariant found.Some? ==> found == FirstMatch(list, id)
      {
        if IsMatch(list[k], id) {
          found := Some(k);
        }
        k := k + 1;
      }
      var vv: Rec;
      if found.None? {
        vv := value;
        values := values[node := list + [Some(vv)]];
      } else {
        var at := found.value;
        vv := list[at].value;
        var i := 0;
        while i < |value|
          invariant 0 <= i <= |value|
          invariant vv == AssignAll(list[at].value, value[..i])
        {
          assert value[..i + 1][..i] == value[..i];
          vv := Assign(vv, value[i].name, value[i].val);
          i := i + 1;
        }
        assert value[..i] == value;
        values := values[node := list[at := Some(vv)]];
      }
      Push(ValueTopicOf(node, vv), Body(Obj(vv)), None);
    }

    /**
     * `destroyValue(node, id)`: every entry of the node's list that belongs
     * to the node (and matches the id, when one is given) has its removal
     * published in list order. The deletion loop that follows runs over the
     * positions of the collected list rather than its elements, so it leaves
     * holes at the first as many positions as there were matches and keeps
     * every other entry, matched or not.
     */
    method DestroyValue(node: int, filter: Option<Rec>)
      modifies this
      ensures node !in old(values) ==> values == old(values) && outbox == old(outbox)
      ensures node in old(values) ==>
        && values == old(values)[node := RemovedAsWritten(old(values)[node], MatchedAt(old(values)[node], node, filter))]
        && outbox == old(outbox) + RemovalMessages(prefix, old(values)[node], node, filter)
      ensures nodes == old(nodes) && driverLog == old(driverLog)
    {
      if node !in values {
        return;
      }
      var list := values[node];
      var del := PublishRemovals(node, list, filter);
      var cur := DeleteAll(list, del);
      assert cur == RemovedAsWritten(list, del);
      values := values[node := cur];
    }

    /** The collecting loop of `destroyValue`: publishes each selected entry's removal and returns its position. */
    method PublishRemovals(node: int, list: seq<Option<Rec>>, filter: Option<Rec>) returns (del: seq<nat>)
      modifies this
      ensures del == MatchedAt(list, node, filter)
      ensures outbox == old(outbox) + RemovalMessages(prefix, list, node, filter)
      ensures values == old(values) && nodes == old(nodes) && driverLog == old(driverLog)
    {
      del := [];
      var k := 0;
      while k < |list|
        invariant 0 <= k <= |list|
        invariant del == MatchedAt(list[..k], node, filter)
        invariant outbox == old(outbox) + RemovalMessages(prefix, list[..k], node, filter)
        invariant values == old(values) && nodes == old(nodes) && driverLog == old(driverLog)
      {
        RemovalStep(prefix, list, k, node, filter);
        var hit := PublishIfSelected(node, list[k], filter);
        if hit {
          del := del + [k];
        }
        k := k + 1;
      }
      assert list[..k] == list;
    }

    /** One step of that loop: publishes the entry's removal exactly when it is selected. */
    method PublishIfSelected(node: int, entry: Option<Rec>, filter: Option<Rec>) returns (hit: bool)
      modifies this
      ensures hit <==> entry.Some? && Selected(entry.value, node, filter)
      ensures outbox == old(outbox) + (if hit then [Message(FullTopic(prefix, ValueTopicOf(node, entry.value)), Empty, true)] else [])
      ensures values == old(values) && nodes == old(nodes) && driverLog == old(driverLog)
    {
      hit := entry.Some? && Selected(entry.value, node, filter);
      if hit {
        Push(ValueTopicOf(node, entry.value), Empty, None);
      }
    }

    /**
     * `destroyNode(id)`: nothing for an unknown node; otherwise its removal is
     * published first, the record is deleted, and then its values go through
     * `destroyValue` without an id, with that method's deletion loop.
     */
    method DestroyNode(id: int)
      requires Valid()
      modifies this
      ensures Valid()
      ensures id !in old(nodes) ==> nodes == old(nodes) && values == old(values) && outbox == old(outbox)
      ensures id in old(nodes) ==>
        && nodes == old(nodes) - {id}
        && values == (if id in old(values) then old(values)[id := RemovedAsWritten(old(values)[id], MatchedAt(old(values)[id], id, None))] else old(values))
        && outbox == old(outbox) + [Message(FullTopic(prefix, NodeSub(id)), Empty, true)]
             + (if id in old(values) then RemovalMessages(prefix, old(values)[id], id, None) else [])
      ensures driverLog == old(driverLog)
    {
      if id !in nodes {
        return;
      }
      Push(NodeSub(id), Empty, None);
      nodes := nodes - {id};
      DestroyValue(id, None);
    }

    /** A `scene event` or `node event` is passed on, not retained. */
    method PushEvent(node: int, scene: bool, data: Json)
      modifies this
      ensures outbox == old(outbox) + [Message(FullTopic(prefix, EventSub(node, scene)), Body(data), false)]
      ensures nodes == old(nodes) && values == old(values) && driverLog == old(driverLog)
    {
      Push(EventSub(node, scene), Body(data), Some(false));
    }
  }

  /** One more entry extends the positions and the messages by that entry's own contribution. */
  lemma RemovalStep(prefix: string, list: seq<Option<Rec>>, k: nat, node: int, filter: Option<Rec>)
    requires k < |list|
    ensures var hit := list[k].Some? && Selected(list[k].value, node, filter);
      && MatchedAt(list[..k + 1], node, filter) == MatchedAt(list[..k], node, filter) + (if hit then [k] else [])
      && RemovalMessages(prefix, list[..k + 1], node, filter) == RemovalMessages(prefix, list[..k], node, filter)
           + (if hit then [Message(FullTopic(prefix, ValueTopicOf(node, list[k].value)), Empty, true)] else [])
  {
    assert list[..k + 1][..k] == list[..k];
  }

  /** The `delete` loop of `destroyValue`: `for (k in del)` walks the positions of `del`, and each is deleted from the list. */
  method DeleteAll(list: seq<Option<Rec>>, del: seq<nat>) returns (cur: seq<Option<Rec>>)
    ensures |cur| == |list|
    ensures forall i :: 0 <= i < |list| ==> cur[i] == if i < |del| then None else list[i]
  {
    cur := list;
    var k := 0;
    while k < |del|
      invariant 0 <= k <= |del|
      invariant |cur| == |list|
      invariant forall i :: 0 <= i < |list| ==> cur[i] == if i < k then None else list[i]
    {
      if k < |cur| {
        cur := cur[k := None];
      }
      k := k + 1;
    }
  }

  /** `node<n>/scene` or `node<n>/event`. */
  function EventSub(node: int, scene: bool): string
  {
    NodeSub(node) + "/" + (if scene then "scene" else "event")
  }

  /** `values[id].map(v => v.value_id)`: a hole stays a hole, read as undefined. */
  function ValueIds(list: seq<Option<Rec>>): (r: seq<Json>)
    ensures |r| == |list|
    ensures forall i :: 0 <= i < |list| ==> r[i] == if list[i].Some? then IdOf(list[i].value) else Undef
  {
    seq(|list|, i requires 0 <= i < |list| => if list[i].Some? then IdOf(list[i].value) else Undef)
  }

  // ---------------------------------------------------------------------
  // Properties
  // ---------------------------------------------------------------------

  /** The collected positions are exactly the selected entries, each once, ascending. */
  lemma {:induction false} MatchedAtIff(list: seq<Option<Rec>>, node: int, filter: Option<Rec>)
    ensures forall i :: i in MatchedAt(list, node, filter) <==>
      0 <= i < |list| && list[i].Some? && Selected(list[i].value, node, filter)
    ensures forall a, b :: 0 <= a < b < |MatchedAt(list, node, filter)| ==>
      MatchedAt(list, node, filter)[a] < MatchedAt(list, node, filter)[b]
  {
    if list != [] {
      var n := |list| - 1;
      MatchedAtIff(list[..n], node, filter);
      assert forall i :: 0 <= i < n ==> list[..n][i] == list[i];
    }
  }

  /** Merging a copy of an entry's own id never changes the entry's id. */
  lemma UpsertKeepsId(list: seq<Option<Rec>>, value: Rec, i: nat)
    requires Distinct(value)
    requires FirstMatch(list, IdOf(value)) == Some(i)
    ensures IdOf(Upsert(list, value).rec) == IdOf(list[i].value)
  {
    LookupAssignAll(list[i].value, value, "value_id");
    if "value_id" !in Keys(value) {
    }
  }

  /** The list keeps at most one record per value id. */
  lemma UpsertIdsUnique(list: seq<Option<Rec>>, value: Rec)
    requires IdsUnique(list) && Distinct(value)
    ensures IdsUnique(Upsert(list, value).list)
  {
    var id := IdOf(value);
    var u := Upsert(list, value);
    match FirstMatch(list, id)
    case None =>
      forall i, j | 0 <= i < j < |u.list| && u.list[i].Some? && u.list[j].Some?
        ensures !StrictEq(IdOf(u.list[i].value), IdOf(u.list[j].value))
      {
        if j == |list| {
          assert !IsMatch(list[i], id);
        } else {
          assert u.list[i] == list[i] && u.list[j] == list[j];
        }
      }
    case Some(m) =>
      UpsertKeepsId(list, value, m);
      forall i, j | 0 <= i < j < |u.list| && u.list[i].Some? && u.list[j].Some?
        ensures !StrictEq(IdOf(u.list[i].value), IdOf(u.list[j].value))
      {
        assert IdOf(u.list[i].value) == IdOf(list[i].value);
        assert IdOf(u.list[j].value) == IdOf(list[j].value);
      }
  }

  /**
   * After an event, the record for its id reads every field the event has as
   * the event's value and every other field as before (or undefined for a new
   * record).
   */
  lemma UpsertContent(list: seq<Option<Rec>>, value: Rec, k: string)
    requires Distinct(value)
    ensures var prior := match FirstMatch(list, IdOf(value)) case None => [] case Some(i) => list[i].value;
      Lookup(Upsert(list, value).rec, k) == if k in Keys(value) then Lookup(value, k) else Lookup(prior, k)
  {
    match FirstMatch(list, IdOf(value))
    case None =>
      if k !in Keys(value) {
        LookupAbsent(value, k);
      }
    case Some(i) =>
      LookupAssignAll(list[i].value, value, k);
  }

  /** A second event for an id already listed finds that same entry: it is never listed twice. */
  lemma UpsertThenFind(list: seq<Option<Rec>>, value: Rec)
    requires Distinct(value) && StrictEq(IdOf(value), IdOf(value))
    ensures var u := Upsert(list, value);
      FirstMatch(u.list, IdOf(value)).Some? && u.list[FirstMatch(u.list, IdOf(value)).value] == Some(u.rec)
  {
    var id := IdOf(value);
    var u := Upsert(list, value);
    match FirstMatch(list, id)
    case None =>
      assert IsMatch(u.list[|list|], id);
      assert forall j :: 0 <= j < |list| ==> u.list[j] == list[j];
    case Some(m) =>
      UpsertKeepsId(list, value, m);
      assert IsMatch(u.list[m], id);
      assert forall j :: 0 <= j < m ==> u.list[j] == list[j];
  }

  /** The corrected deletion clears exactly the positions `destroyValue` collected and keeps every other entry. */
  lemma RemovedDeletesMatched(list: seq<Option<Rec>>, node: int, filter: Option<Rec>)
    ensures forall i :: 0 <= i < |list| ==>
      Removed(list, node, filter)[i] == if i in MatchedAt(list, node, filter) then None else list[i]
  {
    MatchedAtIff(list, node, filter);
  }

  /**
   * The deletion loop as written, `for (let k in del) delete list[k]`, runs
   * over the positions of `del` itself. On node 3 holding a binary switch
   * value then a multilevel one, removing the multilevel value publishes its
   * removal but deletes the binary switch entry and keeps the other.
   */
  lemma RemovedAsWrittenDeletesWrongEntry()
    ensures var a := [Field("node_id", Num(3)), Field("class_id", Num(37)), Field("instance", Num(1)), Field("index", Num(0))];
      var b := [Field("node_id", Num(3)), Field("class_id", Num(38)), Field("instance", Num(1)), Field("index", Num(0))];
      var list := [Some(a), Some(b)];
      var filter := Some([Field("class_id", Num(38)), Field("instance", Num(1)), Field("index", Num(0))]);
      && MatchedAt(list, 3, filter) == [1]
      && RemovedAsWritten(list, MatchedAt(list, 3, filter)) == [None, Some(b)]
      && Removed(list, 3, filter) == [Some(a), None]
  {
    var a := [Field("node_id", Num(3)), Field("class_id", Num(37)), Field("instance", Num(1)), Field("index", Num(0))];
    var b := [Field("node_id", Num(3)), Field("class_id", Num(38)), Field("instance", Num(1)), Field("index", Num(0))];
    var list := [Some(a), Some(b)];
    var f := [Field("class_id", Num(38)), Field("instance", Num(1)), Field("index", Num(0))];
    assert Lookup(a, "class_id") == Num(37);
    assert Lookup(b, "node_id") == Num(3);
    assert Lookup(b, "class_id") == Num(38) == Lookup(f, "class_id");
    assert Lookup(b, "instance") == Num(1) == Lookup(f, "instance");
    assert Lookup(b, "index") == Num(0) == Lookup(f, "index");
    assert !Selected(a, 3, Some(f));
    assert Selected(b, 3, Some(f));
    assert list[..1] == [Some(a)];
    assert [Some(a)][..0] == [];
    assert MatchedAt([Some(a)], 3, Some(f)) == [];
    assert MatchedAt(list, 3, Some(f)) == MatchedAt([Some(a)], 3, Some(f)) + [1];
  }

  /**
   * After an earlier removal has left a hole at the front, `destroyNode` on
   * node 3 publishes the removal of its remaining value but clears the hole
   * again, so the value stays in the mirror.
   */
  lemma RemovedAsWrittenKeepsAfterHole()
    ensures var v := [Field("node_id", Num(3)), Field("class_id", Num(38)), Field("instance", Num(1)), Field("index", Num(0))];
      var list := [None, Some(v)];
      && MatchedAt(list, 3, None) == [1]
      && RemovedAsWritten(list, MatchedAt(list, 3, None)) == list
      && Removed(list, 3, None) == [None, None]
  {
    var v := [Field("node_id", Num(3)), Field("class_id", Num(38)), Field("instance", Num(1)), Field("index", Num(0))];
    var list: seq<Option<Rec>> := [None, Some(v)];
    assert Lookup(v, "node_id") == Num(3);
    assert Selected(v, 3, None);
    var hole: seq<Option<Rec>> := [None];
    assert list[..1] == hole;
    assert hole[..0] == [];
    assert MatchedAt(hole, 3, None) == [];
    assert MatchedAt(list, 3, None) == MatchedAt(hole, 3, None) + [1];
  }

  /**
   * The deletion as written agrees with the intended one exactly when every
   * present entry is selected if and only if its position is below the
   * number of selected entries, as on a hole-free list whose selected
   * entries come first.
   */
  lemma RemovedAsWrittenAgreesIff(list: seq<Option<Rec>>, node: int, filter: Option<Rec>)
    ensures RemovedAsWritten(list, MatchedAt(list, node, filter)) == Removed(list, node, filter) <==>
      forall i :: 0 <= i < |list| && list[i].Some? ==>
        (Selected(list[i].value, node, filter) <==> i < |MatchedAt(list, node, filter)|)
  {
    var m := MatchedAt(list, node, filter);
    var w := RemovedAsWritten(list, m);
    var r := Removed(list, node, filter);
    if w == r {
      forall i | 0 <= i < |list| && list[i].Some?
        ensures Selected(list[i].value, node, filter) <==> i < |m|
      {
        assert w[i] == r[i];
      }
    }
    if forall i :: 0 <= i < |list| && list[i].Some? ==> (Selected(list[i].value, node, filter) <==> i < |m|) {
      assert forall i :: 0 <= i < |list| ==> w[i] == r[i];
      assert w == r;
    }
  }

  /** Scene and node events are not among the adapter's topic patterns, so it ignores them. */
  lemma EventSubUnrecognised(node: int, scene: bool)
    ensures ParseTopic(EventSub(node, scene)) == Unrecognised
  {
    var tail := "/" + (if scene then "scene" else "event");
    assert tail[..6][1] != "/value"[1];
    assert EventSub(node, scene) == NodeSub(node) + tail;
    NodeTailUnrecognised(node, tail);
  }
}
