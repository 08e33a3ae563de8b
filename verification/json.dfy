/**
 * JSON-shaped values as the bridge handles them: scalars, arrays and objects.
 * An object is an ordered list of own fields (JavaScript keeps insertion order,
 * and `JSON.stringify` writes fields in that order). Reading a field that is
 * absent gives `Undef`, exactly as reading a field that holds `undefined`.
 */
module JsonValues {
  import opened Decimal

  datatype Json =
    | Undef
    | Null
    | NaN
    | Bool(b: bool)
    | Num(n: int)
    | Str(s: string)
    | Arr(items: seq<Json>)
    | Obj(fields: Rec)

  datatype Field = Field(name: string, val: Json)

  /** How a call ended: normally, or with a `TypeError` thrown at its caller. */
  datatype Outcome = Done | TypeError

  type Rec = seq<Field>

  /** `r[k]` on a plain object. */
  function Lookup(r: Rec, k: string): Json
  {
    if r == [] then Undef
    else if r[0].name == k then r[0].val
    else Lookup(r[1..], k)
  }

  /** The own property names of `r` (`hasOwnProperty`). */
  function Keys(r: Rec): set<string>
  {
    set i | 0 <= i < |r| :: r[i].name
  }

  /** A JavaScript object never has two own fields with the same name. */
  predicate Distinct(r: Rec)
  {
    forall i, j :: 0 <= i < j < |r| ==> r[i].name != r[j].name
  }

  /** `typeof r[k] !== "undefined"`. */
  predicate Defined(r: Rec, k: string)
  {
    !Lookup(r, k).Undef?
  }

  /** `r[k] = v`: overwrites the field in place, or appends a new one. */
  function Assign(r: Rec, k: string, v: Json): Rec
  {
    if r == [] then [Field(k, v)]
    else if r[0].name == k then [Field(k, v)] + r[1..]
    else [r[0]] + Assign(r[1..], k, v)
  }

  /** `for (k in src) if (src.hasOwnProperty(k)) r[k] = src[k];` */
  function AssignAll(r: Rec, src: Rec): Rec
  {
    if src == [] then r
    else
      var last := src[|src| - 1];
      Assign(AssignAll(r, src[..|src| - 1]), last.name, last.val)
  }

  /** JavaScript truthiness. */
  predicate Truthy(j: Json)
  {
    match j
    case Undef => false
    case Null => false
    case NaN => false
    case Bool(b) => b
    case Num(n) => n != 0
    case Str(s) => s != ""
    case Arr(_) => true
    case Obj(_) => true
  }

  /**
   * `a === b`. Arrays and objects compare by reference in JavaScript; every
   * array or object the bridge compares comes from a separate `JSON.parse` or
   * driver event, so two of them are never the same reference.
   */
  predicate StrictEq(a: Json, b: Json)
  {
    a == b && !a.NaN? && !a.Arr? && !a.Obj?
  }

  /** `a == b`, restricted to what the bridge relies on: `null == undefined`. */
  predicate LooseEq(a: Json, b: Json)
  {
    StrictEq(a, b) || ((a.Undef? || a.Null?) && (b.Undef? || b.Null?))
  }

  /** Property read `j.k` on a value that is not `null` or `undefined`. */
  function Get(j: Json, k: string): Json
  {
    if j.Obj? then Lookup(j.fields, k) else Undef
  }

  /** `${j}`: the string a template literal (or a property key) makes of `j`. */
  function Show(j: Json): string
  {
    match j
    case Undef => "undefined"
    case Null => "null"
    case NaN => "NaN"
    case Bool(b) => if b then "true" else "false"
    case Num(n) => IntToString(n)
    case Str(s) => s
    case Arr(items) =>
      Join(seq(|items|, i requires 0 <= i < |items| =>
        if items[i].Undef? || items[i].Null? then "" else Show(items[i])))
    case Obj(_) => "[object Object]"
  }

  /** `Array.prototype.join(",")` on strings. */
  function Join(parts: seq<string>): string
  {
    if parts == [] then ""
    else if |parts| == 1 then parts[0]
    else Join(parts[..|parts| - 1]) + "," + parts[|parts| - 1]
  }

  // ---------------------------------------------------------------------
  // Facts about field lists
  // ---------------------------------------------------------------------

  lemma {:induction false} LookupAbsent(r: Rec, k: string)
    requires k !in Keys(r)
    ensures Lookup(r, k) == Undef
  {
    if r != [] {
      assert r[0].name in Keys(r);
      assert Keys(r[1..]) <= Keys(r) by {
        forall x | x in Keys(r[1..]) ensures x in Keys(r) {
          var i :| 0 <= i < |r[1..]| && r[1..][i].name == x;
          assert r[i + 1].name == x;
        }
      }
      LookupAbsent(r[1..], k);
    }
  }

  /** In a well-formed object, the field at position `i` is what a read of its name gives. */
  lemma {:induction false} LookupAt(r: Rec, i: nat)
    requires Distinct(r) && i < |r|
    ensures Lookup(r, r[i].name) == r[i].val
  {
    if i > 0 {
      assert r[0].name != r[i].name;
      assert r[1..][i - 1] == r[i];
      LookupAt(r[1..], i - 1);
    }
  }

  lemma {:induction false} KeysCons(r: Rec)
    requires r != []
    ensures Keys(r) == {r[0].name} + Keys(r[1..])
  {
    forall x | x in Keys(r) ensures x in {r[0].name} + Keys(r[1..]) {
      var i :| 0 <= i < |r| && r[i].name == x;
      if i > 0 { assert r[1..][i - 1].name == x; }
    }
    forall x | x in Keys(r[1..]) ensures x in Keys(r) {
      var i :| 0 <= i < |r[1..]| && r[1..][i].name == x;
      assert r[i + 1].name == x;
    }
  }

  lemma KeysSnoc(r: Rec, f: Field)
    ensures Keys(r + [f]) == Keys(r) + {f.name}
  {
    var s := r + [f];
    forall x | x in Keys(s) ensures x in Keys(r) + {f.name} {
      var i :| 0 <= i < |s| && s[i].name == x;
      if i < |r| { assert r[i].name == x; }
    }
    forall x | x in Keys(r) ensures x in Keys(s) {
      var i :| 0 <= i < |r| && r[i].name == x;
      assert s[i].name == x;
    }
    assert s[|r|].name == f.name;
  }

  /** Reading a field after `r[k] = v`. */
  lemma {:induction false} LookupAssign(r: Rec, k: string, v: Json, k': string)
    ensures Lookup(Assign(r, k, v), k') == if k' == k then v else Lookup(r, k')
  {
    if r != [] && r[0].name != k {
      LookupAssign(r[1..], k, v, k');
    }
  }

  /** `r[k] = v` adds `k` to the own names and no other name. */
  lemma {:induction false} KeysAssign(r: Rec, k: string, v: Json)
    ensures Keys(Assign(r, k, v)) == Keys(r) + {k}
    ensures |Assign(r, k, v)| == if k in Keys(r) then |r| else |r| + 1
  {
    if r == [] {
      assert Keys([Field(k, v)]) == {k} by { KeysCons([Field(k, v)]); }
    } else if r[0].name == k {
      KeysCons(r);
      KeysCons([Field(k, v)] + r[1..]);
      assert ([Field(k, v)] + r[1..])[1..] == r[1..];
    } else {
      KeysCons(r);
      KeysAssign(r[1..], k, v);
      var a := [r[0]] + Assign(r[1..], k, v);
      KeysCons(a);
      assert a[1..] == Assign(r[1..], k, v);
    }
  }

  /** `r[k] = v` keeps the object well formed. */
  lemma {:induction false} DistinctAssign(r: Rec, k: string, v: Json)
    requires Distinct(r)
    ensures Distinct(Assign(r, k, v))
  {
    if r == [] {
    } else if r[0].name == k {
      var a := [Field(k, v)] + r[1..];
      assert forall i :: 0 <= i < |a| ==> a[i].name == r[i].name;
    } else {
      assert Distinct(r[1..]);
      DistinctAssign(r[1..], k, v);
      KeysAssign(r[1..], k, v);
      KeysCons(r);
      var tail := Assign(r[1..], k, v);
      var a := [r[0]] + tail;
      forall i, j | 0 <= i < j < |a| ensures a[i].name != a[j].name {
        if i == 0 {
          assert a[j].name == tail[j - 1].name;
          assert tail[j - 1].name in Keys(tail);
          assert r[0].name !in Keys(r[1..]);
        }
      }
    }
  }

  /** Copying every own field of `src` into `r` (`src` a well-formed object). */
  lemma {:induction false} LookupAssignAll(r: Rec, src: Rec, k: string)
    requires Distinct(src)
    ensures Lookup(AssignAll(r, src), k) == if k in Keys(src) then Lookup(src, k) else Lookup(r, k)
  {
    if src != [] {
      var n := |src| - 1;
      var init, last := src[..n], src[n];
      assert src == init + [last];
      assert Distinct(init) by {
        forall i, j | 0 <= i < j < |init| ensures init[i].name != init[j].name {
          assert init[i] == src[i] && init[j] == src[j];
        }
      }
      LookupAssignAll(r, init, k);
      LookupAssign(AssignAll(r, init), last.name, last.val, k);
      KeysSnoc(init, last);
      if k == last.name {
        LookupAt(src, n);
      } else if k in Keys(init) {
        var i :| 0 <= i < |init| && init[i].name == k;
        LookupAt(init, i);
        LookupAt(src, i);
      }
    }
  }

  lemma {:induction false} KeysAssignAll(r: Rec, src: Rec)
    ensures Keys(AssignAll(r, src)) == Keys(r) + Keys(src)
  {
    if src == [] {
      assert Keys(src) == {};
    } else {
      var init := src[..|src| - 1];
      var last := src[|src| - 1];
      assert src == init + [last];
      KeysAssignAll(r, init);
      KeysAssign(AssignAll(r, init), last.name, last.val);
      KeysSnoc(init, last);
    }
  }

  lemma {:induction false} DistinctAssignAll(r: Rec, src: Rec)
    requires Distinct(r)
    ensures Distinct(AssignAll(r, src))
  {
    if src != [] {
      DistinctAssignAll(r, src[..|src| - 1]);
      DistinctAssign(AssignAll(r, src[..|src| - 1]), src[|src| - 1].name, src[|src| - 1].val);
    }
  }

  /** Copying an object's own fields onto itself changes nothing. */
  lemma {:induction false} AssignAllSelf(r: Rec)
    requires Distinct(r)
    ensures AssignAll(r, r) == r
  {
    AssignAllPrefixOfSelf(r, |r|);
    assert r[..|r|] == r;
  }

  lemma {:induction false} AssignAllPrefixOfSelf(r: Rec, n: nat)
    requires Distinct(r) && n <= |r|
    ensures AssignAll(r, r[..n]) == r
  {
    if n > 0 {
      var src := r[..n];
      assert src[..n - 1] == r[..n - 1];
      AssignAllPrefixOfSelf(r, n - 1);
      AssignSame(r, n - 1);
    }
  }

  /** Writing a field's own value back into it leaves the object as it was. */
  lemma {:induction false} AssignSame(r: Rec, i: nat)
    requires i < |r|
    requires Distinct(r)
    ensures Assign(r, r[i].name, r[i].val) == r
  {
    if i > 0 {
      assert r[0].name != r[i].name;
      assert r[1..][i - 1] == r[i];
      assert Distinct(r[1..]);
      AssignSame(r[1..], i - 1);
      assert [r[0]] + r[1..] == r;
    } else {
      assert [Field(r[0].name, r[0].val)] + r[1..] == r;
    }
  }
}
