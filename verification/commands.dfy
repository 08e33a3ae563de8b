/**
 * The command channel (`<prefix>/set`): the tagged commands the remote
 * adapter builds (src/lib/mqttOzw.ts) and the driver calls the gateway makes
 * of them (src/lib/proxy.ts `ICmd`, `execute`, `onMqttMessage`).
 */
module Commands {
  import opened Wrappers
  import opened JsonValues

  /** One call into the device-network driver, with its arguments as passed. */
  datatype DriverCall =
    | SetValue(nodeId: Json, classId: Json, instance: Json, index: Json, value: Json)
    | SetValueById(id: Json, value: Json)
    | SetNodeOn(nodeId: Json)
    | SetNodeOff(nodeId: Json)
    | SetLevel(nodeId: Json, level: Json)
    | SetNodeLocation(nodeId: Json, location: Json)
    | SetNodeName(nodeId: Json, name: Json)

  /** How `execute` treats one command. */
  datatype Dispatch =
    | Call(call: DriverCall)   // a recognised tag: exactly this driver call
    | NotFound                 // unknown or missing tag: logged, no call
    | Thrown                   // reading `c.cmd` on null/undefined throws; caught

  // ---------------------------------------------------------------------
  // Commands as the adapter sends them
  // ---------------------------------------------------------------------

  function ValueCommand(nodeId: Json, classId: Json, instance: Json, index: Json, value: Json): Json
  {
    Obj([Field("cmd", Str("value")), Field("nodeId", nodeId), Field("classId", classId),
         Field("instance", instance), Field("index", index), Field("value", value)])
  }

  function OnCommand(nodeId: Json): Json
  {
    Obj([Field("cmd", Str("on")), Field("nodeId", nodeId)])
  }

  function OffCommand(nodeId: Json): Json
  {
    Obj([Field("cmd", Str("off")), Field("nodeId", nodeId)])
  }

  function LevelCommand(nodeId: Json, level: Json): Json
  {
    Obj([Field("cmd", Str("level")), Field("nodeId", nodeId), Field("value", level)])
  }

  function LocationCommand(nodeId: Json, location: Json): Json
  {
    Obj([Field("cmd", Str("location")), Field("nodeId", nodeId), Field("value", location)])
  }

  function NameCommand(nodeId: Json, name: Json): Json
  {
    Obj([Field("cmd", Str("name")), Field("nodeId", nodeId), Field("value", name)])
  }

  // ---------------------------------------------------------------------
  // Commands as the gateway dispatches them
  // ---------------------------------------------------------------------

  /** The tags `execute` recognises, each mapped to one driver primitive. */
  predicate KnownTag(tag: Json)
  {
    tag in {Str("value"), Str("on"), Str("off"), Str("location"), Str("name"), Str("level")}
  }

  /**
   * The tag chain of `execute`: a recognised tag makes exactly one driver
   * call with the command's own fields, anything else makes none.
   */
  function Decode(c: Json): Dispatch
  {
    if c.Undef? || c.Null? then Thrown
    else
      var tag := Get(c, "cmd");
      if tag == Str("value") then
        Call(SetValue(Get(c, "nodeId"), Get(c, "classId"), Get(c, "instance"), Get(c, "index"), Get(c, "value")))
      else if tag == Str("on") then Call(SetNodeOn(Get(c, "nodeId")))
      else if tag == Str("off") then Call(SetNodeOff(Get(c, "nodeId")))
      else if tag == Str("location") then Call(SetNodeLocation(Get(c, "nodeId"), Get(c, "value")))
      else if tag == Str("name") then Call(SetNodeName(Get(c, "nodeId"), Get(c, "value")))
      else if tag == Str("level") then Call(SetLevel(Get(c, "nodeId"), Get(c, "value")))
      else NotFound
  }

  /**
   * `execute` throws (and catches) exactly on null or undefined, finds no
   * command exactly when the tag is unknown, and otherwise makes one call that
   * targets the command's `nodeId`.
   */
  lemma DecodeClassifies(c: Json)
    ensures Decode(c).Thrown? <==> c.Undef? || c.Null?
    ensures Decode(c).NotFound? <==> !c.Undef? && !c.Null? && !KnownTag(Get(c, "cmd"))
    ensures Decode(c).Call? ==> !Decode(c).call.SetValueById? && Decode(c).call.nodeId == Get(c, "nodeId")
  {
  }

  /** `typeof cmd === 'object'` (which holds for `null` too). */
  predicate IsObjectType(j: Json)
  {
    j.Null? || j.Arr? || j.Obj?
  }

  /** The driver calls a sequence of commands produces, in order. */
  function CallsOf(cs: seq<Json>): seq<DriverCall>
  {
    if cs == [] then [] else CallsOf(cs[..|cs| - 1]) + Emitted(cs[|cs| - 1])
  }

  /** The driver calls one command produces: one for a recognised tag, none otherwise. */
  function Emitted(c: Json): seq<DriverCall>
  {
    var d := Decode(c);
    if d.Call? then [d.call] else []
  }

  /** The driver calls one command payload produces (`onMqttMessage`). */
  function PayloadCalls(payload: Json): seq<DriverCall>
  {
    if !IsObjectType(payload) then []
    else if payload.Arr? then CallsOf(payload.items)
    else CallsOf([payload])
  }

  // ---------------------------------------------------------------------
  // Properties
  // ---------------------------------------------------------------------

  /** Batches compose: what one element does never depends on its neighbours. */
  lemma {:induction false} CallsOfAppend(a: seq<Json>, b: seq<Json>)
    ensures CallsOf(a + b) == CallsOf(a) + CallsOf(b)
  {
    if b == [] {
      assert a + b == a;
    } else {
      var b' := b[..|b| - 1];
      assert (a + b)[..|a + b| - 1] == a + b';
      assert (a + b)[|a + b| - 1] == b[|b| - 1];
      CallsOfAppend(a, b');
    }
  }

  /**
   * An unrecognised, null or throwing element anywhere in a batch is skipped
   * and the elements after it are still dispatched.
   */
  lemma SkippedElementIsTransparent(a: seq<Json>, bad: Json, b: seq<Json>)
    requires !Decode(bad).Call?
    ensures CallsOf(a + [bad] + b) == CallsOf(a) + CallsOf(b)
  {
    CallsOfAppend(a + [bad], b);
    CallsOfAppend(a, [bad]);
    CallsOfSingle(bad);
  }

  lemma CallsOfSingle(c: Json)
    ensures CallsOf([c]) == Emitted(c)
  {
    assert [c][..0] == [];
  }

  /** Every recognised element contributes one call, so the calls count the recognised elements. */
  lemma {:induction false} CallsOfLength(cs: seq<Json>)
    ensures |CallsOf(cs)| == |RecognisedAt(cs)|
  {
    if cs != [] {
      var init := cs[..|cs| - 1];
      CallsOfLength(init);
      var s := RecognisedAt(cs);
      var s' := RecognisedAt(init);
      var last: nat := |cs| - 1;
      assert CallsOf(cs) == CallsOf(init) + Emitted(cs[last]);
      forall i | i in s ensures i in s' || i == last {
        if i < last { assert init[i] == cs[i]; }
      }
      forall i | i in s' ensures i in s {
        assert init[i] == cs[i];
      }
      assert last !in s';
      if Decode(cs[last]).Call? {
        assert last in s;
        assert s == s' + {last};
      } else {
        assert s == s';
      }
    }
  }

  /** The positions of a batch whose tag `execute` recognises. */
  function RecognisedAt(cs: seq<Json>): set<nat>
  {
    set i | 0 <= i < |cs| && Decode(cs[i]).Call?
  }

  /** The example batch `[on 3, bogus, off 5]`: both real calls happen, the bogus one is skipped. */
  lemma ExampleBatch()
    ensures PayloadCalls(Arr([OnCommand(Num(3)), Obj([Field("cmd", Str("bogus"))]), OffCommand(Num(5))]))
         == [SetNodeOn(Num(3)), SetNodeOff(Num(5))]
  {
    var bad := Obj([Field("cmd", Str("bogus"))]);
    SkippedElementIsTransparent([OnCommand(Num(3))], bad, [OffCommand(Num(5))]);
    assert [OnCommand(Num(3))] + [bad] + [OffCommand(Num(5))]
        == [OnCommand(Num(3)), bad, OffCommand(Num(5))];
  }

  /** A payload that is not an object, array or null is rejected without any call. */
  lemma ScalarPayloadMakesNoCall(p: Json)
    requires p.Bool? || p.Num? || p.Str? || p.NaN?
    ensures PayloadCalls(p) == []
  {
  }

  /** A lone `null` payload passes the object test, but `execute` throws, catches, and calls nothing. */
  lemma NullPayloadMakesNoCall()
    ensures PayloadCalls(Null) == []
  {
    assert [Null][..0] == [];
  }

  // Each command the adapter can send reaches the driver as the intended call.

  lemma {:induction false} LookupSkip(r: Rec, n: nat, k: string)
    requires n <= |r|
    requires forall j :: 0 <= j < n ==> r[j].name != k
    ensures Lookup(r, k) == Lookup(r[n..], k)
  {
    if n > 0 {
      assert r[1..][n - 1..] == r[n..];
      LookupSkip(r[1..], n - 1, k);
    }
  }

  lemma ValueCommandDecodes(n: Json, c: Json, i: Json, x: Json, v: Json)
    ensures Decode(ValueCommand(n, c, i, x, v)) == Call(SetValue(n, c, i, x, v))
  {
    var fs := ValueCommand(n, c, i, x, v).fields;
    assert Lookup(fs, "cmd") == Str("value");
    assert Lookup(fs, "nodeId") == n;
    LookupSkip(fs, 2, "classId");
    assert Lookup(fs, "classId") == c;
    LookupSkip(fs, 3, "instance");
    assert Lookup(fs, "instance") == i;
    LookupSkip(fs, 4, "index");
    assert Lookup(fs, "index") == x;
    LookupSkip(fs, 5, "value");
    assert Lookup(fs, "value") == v;
  }

  lemma OnCommandDecodes(n: Json)
    ensures Decode(OnCommand(n)) == Call(SetNodeOn(n))
  {
    var fs := OnCommand(n).fields;
    assert Lookup(fs, "cmd") == Str("on");
    assert Lookup(fs, "nodeId") == n;
  }

  lemma OffCommandDecodes(n: Json)
    ensures Decode(OffCommand(n)) == Call(SetNodeOff(n))
  {
    var fs := OffCommand(n).fields;
    assert Lookup(fs, "cmd") == Str("off");
    assert Lookup(fs, "nodeId") == n;
  }

  lemma LevelCommandDecodes(n: Json, level: Json)
    ensures Decode(LevelCommand(n, level)) == Call(SetLevel(n, level))
  {
    var fs := LevelCommand(n, level).fields;
    assert Lookup(fs, "cmd") == Str("level");
    assert Lookup(fs, "nodeId") == n;
    LookupSkip(fs, 2, "value");
    assert Lookup(fs, "value") == level;
  }

  lemma LocationCommandDecodes(n: Json, loc: Json)
    ensures Decode(LocationCommand(n, loc)) == Call(SetNodeLocation(n, loc))
  {
    var fs := LocationCommand(n, loc).fields;
    assert Lookup(fs, "cmd") == Str("location");
    assert Lookup(fs, "nodeId") == n;
    LookupSkip(fs, 2, "value");
    assert Lookup(fs, "value") == loc;
  }

  lemma NameCommandDecodes(n: Json, name: Json)
    ensures Decode(NameCommand(n, name)) == Call(SetNodeName(n, name))
  {
    var fs := NameCommand(n, name).fields;
    assert Lookup(fs, "cmd") == Str("name");
    assert Lookup(fs, "nodeId") == n;
    LookupSkip(fs, 2, "value");
    assert Lookup(fs, "value") == name;
  }
}
