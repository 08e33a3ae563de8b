/**
 * One device value (src/lib/value.ts): a record of driver fields that an
 * observation is merged into field by field, the change list that merge
 * reports, the callbacks told about it, the class-based write mapping and the
 * feature a value stands for.
 */
module ZValue {
  import opened Wrappers
  import opened Decimal
  import opened JsonValues
  import opened Commands

  /** One `{name, old, cur}` entry of a change list. */
  datatype Change = Change(name: string, prior: Json, cur: Json)

  /** The record after a merge, and the changes the merge reported in order. */
  datatype Diff = Diff(changes: seq<Change>, rec: Rec)

  /** One call of an update callback (identified by its registration) with a change list. */
  datatype Firing = Firing(cb: nat, changes: seq<Change>)

  /**
   * `feature()` of a value whose record is `fields`: the feature name its
   * command class provides, `on` for class 37 and `brightness` for class 39.
   */
  function FeatureOf(fields: Rec): (r: Option<string>)
    ensures r == Some("on") <==> Lookup(fields, "class_id") == Num(37)
    ensures r == Some("brightness") <==> Lookup(fields, "class_id") == Num(39)
    ensures r.None? <==> Lookup(fields, "class_id") != Num(37) && Lookup(fields, "class_id") != Num(39)
  {
    var cls := Lookup(fields, "class_id");
    if cls == Num(37) then Some("on")
    else if cls == Num(39) then Some("brightness")
    else None
  }

  /**
   * `update` accepts an observation only when it is given and its
   * `value_id`, `instance` and `index` are all defined.
   */
  predicate Identified(obs: Option<Rec>)
  {
    obs.Some? && Defined(obs.value, "value_id") && Defined(obs.value, "instance") && Defined(obs.value, "index")
  }

  /**
   * The merge loop of `update`, one input field at a time in the input's
   * order: a defined field that is undefined in the record, or not equal to
   * it, is reported with the record's prior value and then written.
   */
  function Merge(rec: Rec, obs: Rec): Diff
  {
    if obs == [] then Diff([], rec)
    else
      var d := Merge(rec, obs[..|obs| - 1]);
      var f := obs[|obs| - 1];
      var cur := Lookup(d.rec, f.name);
      if !f.val.Undef? && (cur.Undef? || cur != f.val) then
        Diff(d.changes + [Change(f.name, cur, f.val)], Assign(d.rec, f.name, f.val))
      else d
  }

  /**
   * Every registered callback, in registration order, each called once with
   * the whole list. A value has only the `update` event, so a call is logged
   * as the callback and the change list, without the event name and argument
   * list of the adapter's `Calls`.
   */
  function Notify(cbs: seq<nat>, changes: seq<Change>): (r: seq<Firing>)
    ensures |r| == |cbs|
    ensures forall i :: 0 <= i < |cbs| ==> r[i] == Firing(cbs[i], changes)
  {
    if cbs == [] then [] else Notify(cbs[..|cbs| - 1], changes) + [Firing(cbs[|cbs| - 1], changes)]
  }

  /** `parseInt` on a string: the leading run of ASCII digits, `NaN` when there is none. */
  function ParseIntPrefix(s: string): (r: Json)
    ensures r.NaN? <==> s == [] || !IsDigit(s[0])
    ensures r.Num? ==> r.n >= 0
  {
    var d := DigitRun(s);
    if d == 0 then NaN else Num(ParseNat(s[..d]))
  }

  /** The value a write of `input` sends, by command class (`set`'s switch). */
  function WriteValue(cls: Json, input: string): (r: Json)
    ensures cls == Num(37) ==> (r == Num(1) <==> input == "1") && (r == Num(0) <==> input != "1")
    ensures cls == Num(39) ==> r == ParseIntPrefix(input)
    ensures cls != Num(37) && cls != Num(39) ==> r.Undef?
  {
    if cls == Num(37) then (if input == "1" then Num(1) else Num(0))
    else if cls == Num(39) then ParseIntPrefix(input)
    else Undef
  }

  class ZVagValue {
    /** The record's own fields, in the order they were first written. */
    var fields: Rec
    /** The registered update callbacks, in registration order. */
    var updateCb: seq<nat>
    /** Every callback call made so far. */
    var fired: seq<Firing>

    ghost predicate Valid()
      reads this
    {
      Distinct(fields)
    }

    constructor ()
      ensures Valid()
      ensures fields == [] && updateCb == [] && fired == []
    {
      fields := [];
      updateCb := [];
      fired := [];
    }

    /** `on('update', cb)`: appends the callback and changes nothing else. */
    method On(cb: nat)
      modifies this
      ensures updateCb == old(updateCb) + [cb]
      ensures fields == old(fields) && fired == old(fired)
    {
      updateCb := updateCb + [cb];
    }

    /**
     * `update(value)`: nothing happens and no list is returned unless the
     * observation is identified; otherwise the record becomes the merge, the
     * merge's changes are returned, and the callbacks hear about them only
     * when there are any.
     */
    method Update(obs: Option<Rec>) returns (r: Option<seq<Change>>)
      requires Valid()
      modifies this
      ensures Valid()
      ensures updateCb == old(updateCb)
      ensures r.None? <==> !Identified(obs)
      ensures !Identified(obs) ==> fields == old(fields) && fired == old(fired)
      ensures Identified(obs) ==>
        var d := Merge(old(fields), obs.value);
        && r == Some(d.changes)
        && fields == d.rec
        && fired == old(fired) + (if d.changes == [] then [] else Notify(updateCb, d.changes))
    {
      if !Identified(obs) {
        return None;
      }
      var src := obs.value;
      var changes: seq<Change> := [];
      var i := 0;
      while i < |src|
        invariant 0 <= i <= |src|
        invariant Merge(old(fields), src[..i]) == Diff(changes, fields)
        invariant Distinct(fields)
        invariant fired == old(fired) && updateCb == old(updateCb)
      {
        var f := src[i];
        assert src[..i + 1][..i] == src[..i];
        var cur := Lookup(fields, f.name);
        if !f.val.Undef? && (cur.Undef? || cur != f.val) {
          changes := changes + [Change(f.name, cur, f.val)];
          DistinctAssign(fields, f.name, f.val);
          fields := Assign(fields, f.name, f.val);
        }
        i := i + 1;
      }
      assert src[..i] == src;
      if |changes| > 0 {
        var j := 0;
        while j < |updateCb|
          invariant 0 <= j <= |updateCb|
          invariant fired == old(fired) + Notify(updateCb[..j], changes)
          invariant fields == Merge(old(fields), src).rec && Distinct(fields) && updateCb == old(updateCb)
        {
          assert updateCb[..j + 1][..j] == updateCb[..j];
          fired := fired + [Firing(updateCb[j], changes)];
          j := j + 1;
        }
        assert updateCb[..j] == updateCb;
      }
      r := Some(changes);
    }

    /** `getId()`: exactly the four fields that name the value on the driver. */
    function GetId(): (r: Json)
      reads this
      ensures r.Obj? && |r.fields| == 4 && Distinct(r.fields)
      ensures forall k :: k in ["node_id", "class_id", "instance", "index"] ==> Get(r, k) == Lookup(fields, k)
    {
      var id := [Field("node_id", Lookup(fields, "node_id")), Field("class_id", Lookup(fields, "class_id")),
                 Field("instance", Lookup(fields, "instance")), Field("index", Lookup(fields, "index"))];
      assert Lookup(id, "class_id") == Lookup(id[1..], "class_id");
      assert Lookup(id, "instance") == Lookup(id[1..], "instance") == Lookup(id[2..], "instance");
      assert Lookup(id, "index") == Lookup(id[1..], "index") == Lookup(id[2..], "index") == Lookup(id[3..], "index");
      Obj(id)
    }

    /**
     * `set(ozw, value)`: the call made on the driver. The guard tests the
     * input string, so any given string makes exactly one call, even for a
     * class whose mapped value is undefined.
     */
    function SetCall(input: Option<string>): (r: Option<DriverCall>)
      reads this
      ensures r.Some? <==> input.Some?
      ensures r.Some? ==> r.value == SetValueById(GetId(), WriteValue(Lookup(fields, "class_id"), input.value))
    {
      match input
      case None => None
      case Some(s) => Some(SetValueById(GetId(), WriteValue(Lookup(fields, "class_id"), s)))
    }

  }

  // ---------------------------------------------------------------------
  // Properties of the merge
  // ---------------------------------------------------------------------

  lemma {:induction false} LookupSnoc(r: Rec, f: Field, k: string)
    ensures Lookup(r + [f], k) == if k in Keys(r) then Lookup(r, k) else if k == f.name then f.val else Undef
  {
    if r == [] {
      assert [] + [f] == [f];
    } else {
      assert (r + [f])[1..] == r[1..] + [f];
      KeysCons(r);
      LookupSnoc(r[1..], f, k);
    }
  }

  /** In a well-formed object, the last field's name occurs nowhere before it. */
  lemma LastNameFresh(obs: Rec)
    requires Distinct(obs) && obs != []
    ensures obs[|obs| - 1].name !in Keys(obs[..|obs| - 1])
  {
    var init := obs[..|obs| - 1];
    forall i | 0 <= i < |init| ensures init[i].name != obs[|obs| - 1].name {
      assert init[i] == obs[i];
    }
  }

  /** After the merge, a field reads as the observation's defined value, else as before. */
  lemma {:induction false} MergeLookup(rec: Rec, obs: Rec, k: string)
    requires Distinct(obs)
    ensures Lookup(Merge(rec, obs).rec, k) == if Defined(obs, k) then Lookup(obs, k) else Lookup(rec, k)
  {
    if obs != [] {
      var init := obs[..|obs| - 1];
      var f := obs[|obs| - 1];
      assert obs == init + [f];
      assert Distinct(init);
      MergeLookup(rec, init, k);
      LookupSnoc(init, f, k);
      var d := Merge(rec, init);
      LookupAssign(d.rec, f.name, f.val, k);
      LastNameFresh(obs);
      if k !in Keys(init) {
        LookupAbsent(init, k);
      }
    }
  }

  lemma {:induction false} MergeChangeNames(rec: Rec, obs: Rec)
    ensures forall c :: c in Merge(rec, obs).changes ==> c.name in Keys(obs)
  {
    if obs != [] {
      var init := obs[..|obs| - 1];
      var f := obs[|obs| - 1];
      assert obs == init + [f];
      MergeChangeNames(rec, init);
      KeysSnoc(init, f);
    }
  }

  /**
   * A change is reported exactly for each field the observation defines with a
   * value different from the original record's, carrying the original value (the source's `old`)
   * and the new one.
   */
  lemma {:induction false} MergeChangeIff(rec: Rec, obs: Rec, c: Change)
    requires Distinct(obs)
    ensures c in Merge(rec, obs).changes <==>
      Defined(obs, c.name) && c.cur == Lookup(obs, c.name) && c.prior == Lookup(rec, c.name) && c.prior != c.cur
  {
    if obs != [] {
      var init := obs[..|obs| - 1];
      var f := obs[|obs| - 1];
      assert obs == init + [f];
      assert Distinct(init);
      var d := Merge(rec, init);
      MergeChangeIff(rec, init, c);
      MergeChangeNames(rec, init);
      LookupSnoc(init, f, c.name);
      LastNameFresh(obs);
      LookupAbsent(init, f.name);
      MergeLookup(rec, init, f.name);
    }
  }

  predicate NamesDistinct(ch: seq<Change>)
  {
    forall i, j :: 0 <= i < j < |ch| ==> ch[i].name != ch[j].name
  }

  /** Each field is reported at most once. */
  lemma {:induction false} MergeNamesDistinct(rec: Rec, obs: Rec)
    requires Distinct(obs)
    ensures NamesDistinct(Merge(rec, obs).changes)
  {
    if obs != [] {
      var init := obs[..|obs| - 1];
      var f := obs[|obs| - 1];
      assert obs == init + [f];
      assert Distinct(init);
      MergeNamesDistinct(rec, init);
      MergeChangeNames(rec, init);
      LastNameFresh(obs);
      var d := Merge(rec, init);
      var ch := Merge(rec, obs).changes;
      var added := Change(f.name, Lookup(d.rec, f.name), f.val);
      assert ch == d.changes || ch == d.changes + [added];
      forall i, j | 0 <= i < j < |ch| ensures ch[i].name != ch[j].name {
        if j >= |d.changes| {
          assert ch[i] == d.changes[i];
          assert ch[i] in d.changes;
          assert ch[i].name in Keys(init);
          assert ch[j].name == f.name;
        } else {
          assert ch[i] == d.changes[i] && ch[j] == d.changes[j];
          assert d.changes[i].name != d.changes[j].name;
        }
      }
    }
  }

  /** A merge that reports nothing leaves the record as it was. */
  lemma {:induction false} MergeQuiet(rec: Rec, obs: Rec)
    ensures Merge(rec, obs).changes == [] ==> Merge(rec, obs).rec == rec
  {
    if obs != [] {
      MergeQuiet(rec, obs[..|obs| - 1]);
    }
  }

  /** The merge reports nothing exactly when every defined field already holds its value. */
  lemma MergeEmptyIff(rec: Rec, obs: Rec)
    requires Distinct(obs)
    ensures Merge(rec, obs).changes == [] <==> forall k :: Defined(obs, k) ==> Lookup(rec, k) == Lookup(obs, k)
  {
    var ch := Merge(rec, obs).changes;
    if ch != [] {
      MergeChangeIff(rec, obs, ch[0]);
    }
    if exists k :: Defined(obs, k) && Lookup(rec, k) != Lookup(obs, k) {
      var k :| Defined(obs, k) && Lookup(rec, k) != Lookup(obs, k);
      MergeChangeIff(rec, obs, Change(k, Lookup(rec, k), Lookup(obs, k)));
    }
  }

  /** Applying the same observation twice: the second merge reports nothing and changes nothing. */
  lemma MergeIdempotent(rec: Rec, obs: Rec)
    requires Distinct(obs)
    ensures var once := Merge(rec, obs).rec;
      Merge(once, obs) == Diff([], once)
  {
    var once := Merge(rec, obs).rec;
    forall k | Defined(obs, k) ensures Lookup(once, k) == Lookup(obs, k) {
      MergeLookup(rec, obs, k);
    }
    MergeEmptyIff(once, obs);
    MergeQuiet(once, obs);
  }

  /** A first observation reports every defined field, from undefined to its value. */
  lemma FreshRecordReportsAll(obs: Rec, k: string)
    requires Distinct(obs) && Defined(obs, k)
    ensures Change(k, Undef, Lookup(obs, k)) in Merge([], obs).changes
  {
    MergeChangeIff([], obs, Change(k, Undef, Lookup(obs, k)));
  }

  /** A dimmer level written as its decimal string reaches the driver as that number. */
  lemma DimmerLevelRoundTrip(n: nat)
    ensures WriteValue(Num(39), NatToString(n)) == Num(n)
  {
    var s := NatToString(n);
    DigitRunOfNumber(n, []);
    assert s + [] == s;
    assert s[..|s|] == s;
    ParseNatToString(n);
  }
}
