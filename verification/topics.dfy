/**
 * Topic names and messages shared by the gateway and the remote adapter.
 *
 * The gateway publishes under `<prefix>/node<n>` and
 * `<prefix>/node<n>/value<class>-<instance>-<index>`; the adapter strips its
 * own name and a slash and recognises exactly the patterns `^node(\d+)$` and
 * `^node(\d+)\/value(\d+)-(\d+)-(\d+)$`.
 */
module Topics {
  import opened Wrappers
  import opened Decimal
  import opened JsonValues

  /** A message body: the empty payload (the removal sentinel) or a JSON document. */
  datatype Payload = Empty | Body(doc: Json)

  /** One publish: topic, payload and the retain flag. */
  datatype Message = Message(topic: string, payload: Payload, retain: bool)

  /** What the adapter's two patterns make of a subtopic. */
  datatype TopicKind =
    | NodeTopic(node: nat)
    | ValueTopic(node: nat, cls: nat, instance: nat, index: nat)
    | Unrecognised

  /** The full topic of a publish: `${prefix}/${topic}`. */
  function FullTopic(prefix: string, sub: string): string
  {
    prefix + "/" + sub
  }

  /**
   * The adapter's filter: the topic must be strictly longer than the name and
   * begin with the name and a slash; the subtopic is the rest.
   */
  function Strip(name: string, topic: string): (r: Option<string>)
    ensures r.Some? <==> |topic| > |name| && topic[..|name| + 1] == name + "/"
    ensures r.Some? ==> topic == FullTopic(name, r.value)
  {
    if |topic| <= |name| then None
    else if topic[..|name| + 1] != name + "/" then None
    else
      var rest := topic[|name| + 1..];
      assert topic == topic[..|name| + 1] + rest;
      Some(rest)
  }

  /** `node${n}` for a driver node id. */
  function NodeSub(n: int): string
  {
    "node" + IntToString(n)
  }

  /** `node${node}/value${cls}-${instance}-${index}` with the fields as the record holds them. */
  function ValueSub(node: int, cls: Json, instance: Json, index: Json): string
  {
    NodeSub(node) + "/value" + Show(cls) + "-" + Show(instance) + "-" + Show(index)
  }

  /** `(\d+)-(\d+)-(\d+)$` after `/value`. */
  function ParseTriple(s: string): Option<(nat, nat, nat)>
  {
    var a := DigitRun(s);
    if a == 0 || a == |s| || s[a] != '-' then None
    else
      var s2 := s[a + 1..];
      var b := DigitRun(s2);
      if b == 0 || b == |s2| || s2[b] != '-' then None
      else
        var s3 := s2[b + 1..];
        var c := DigitRun(s3);
        if c == 0 || c != |s3| then None
        else
          assert s3[..c] == s3;
          Some((ParseNat(s[..a]), ParseNat(s2[..b]), ParseNat(s3)))
  }

  /**
   * The two anchored patterns. Every `\d+` group is followed by a non-digit or
   * by the end, so the longest digit run is the only way a group can match.
   */
  function ParseTopic(t: string): TopicKind
  {
    if |t| < 4 || t[..4] != "node" then Unrecognised
    else
      var rest := t[4..];
      var d := DigitRun(rest);
      if d == 0 then Unrecognised
      else if d == |rest| then
        assert rest[..d] == rest;
        NodeTopic(ParseNat(rest))
      else
        var tail := rest[d..];
        if |tail| < 6 || tail[..6] != "/value" then Unrecognised
        else match ParseTriple(tail[6..])
          case None => Unrecognised
          case Some((c, i, x)) => ValueTopic(ParseNat(rest[..d]), c, i, x)
  }

  // ---------------------------------------------------------------------
  // Round trips
  // ---------------------------------------------------------------------

  /** The adapter gets back exactly the subtopic the gateway published under the same name. */
  lemma StripFullTopic(name: string, sub: string)
    ensures Strip(name, FullTopic(name, sub)) == Some(sub)
  {
    var t := FullTopic(name, sub);
    assert t[..|name| + 1] == name + "/";
    assert t[|name| + 1..] == sub;
  }

  /** A node topic the gateway publishes parses back to its node. */
  lemma NodeSubParses(n: nat)
    ensures ParseTopic(NodeSub(n)) == NodeTopic(n)
  {
    var t := NodeSub(n);
    var s := NatToString(n);
    assert t == "node" + s;
    assert t[..4] == "node";
    assert t[4..] == s;
    DigitRunOfNumber(n, []);
    assert s + [] == s;
    ParseNatToString(n);
  }

  lemma {:induction false} ParseTripleOfNumbers(c: nat, i: nat, x: nat)
    ensures ParseTriple(NatToString(c) + "-" + NatToString(i) + "-" + NatToString(x)) == Some((c, i, x))
  {
    var sc, si, sx := NatToString(c), NatToString(i), NatToString(x);
    var s := sc + "-" + si + "-" + sx;
    assert s == sc + ("-" + si + "-" + sx);
    DigitRunOfNumber(c, "-" + si + "-" + sx);
    var a := |sc|;
    assert s[a] == '-';
    assert s[..a] == sc;
    var s2 := s[a + 1..];
    assert s2 == si + ("-" + sx);
    DigitRunOfNumber(i, "-" + sx);
    var b := |si|;
    assert s2[b] == '-';
    assert s2[..b] == si;
    var s3 := s2[b + 1..];
    assert s3 == sx + [];
    DigitRunOfNumber(x, []);
    ParseNatToString(c);
    ParseNatToString(i);
    ParseNatToString(x);
  }

  /** Splitting `node<digits><tail>` the way ParseTopic does. */
  lemma {:induction false} SplitNodePrefix(n: nat, tail: string)
    requires tail == [] || !IsDigit(tail[0])
    ensures var t := "node" + NatToString(n) + tail;
      && |t| >= 4 && t[..4] == "node"
      && DigitRun(t[4..]) == |NatToString(n)|
      && t[4..][..|NatToString(n)|] == NatToString(n)
      && t[4..][|NatToString(n)|..] == tail
  {
    var sn := NatToString(n);
    var t := "node" + sn + tail;
    assert t[4..] == sn + tail;
    DigitRunOfNumber(n, tail);
  }

  /**
   * For non-negative ids, the value topic built by the gateway parses back to
   * the same four integers.
   */
  lemma ValueSubParses(n: nat, c: nat, i: nat, x: nat)
    ensures ParseTopic(ValueSub(n, Num(c), Num(i), Num(x))) == ValueTopic(n, c, i, x)
  {
    var triple := NatToString(c) + "-" + NatToString(i) + "-" + NatToString(x);
    var tail := "/value" + triple;
    var t := ValueSub(n, Num(c), Num(i), Num(x));
    assert Show(Num(c)) == NatToString(c) && Show(Num(i)) == NatToString(i) && Show(Num(x)) == NatToString(x);
    assert t == "node" + NatToString(n) + tail;
    SplitNodePrefix(n, tail);
    assert tail[..6] == "/value" && tail[6..] == triple;
    ParseTripleOfNumbers(c, i, x);
    ParseNatToString(n);
  }

  /** Different nodes are published under different node topics. */
  lemma NodeSubInjective(m: nat, n: nat)
    requires NodeSub(m) == NodeSub(n)
    ensures m == n
  {
    NodeSubParses(m);
    NodeSubParses(n);
  }

  /**
   * A negative driver id is published as `node-<n>`, which neither pattern
   * accepts: nothing published under such a node reaches the adapter's handlers.
   */
  lemma NegativeNodeUnrecognised(n: int, tail: string)
    requires n < 0
    ensures ParseTopic(NodeSub(n) + tail) == Unrecognised
  {
    var t := NodeSub(n) + tail;
    assert t == "node" + (IntToString(n) + tail);
    assert t[..4] == "node";
    assert t[4..][0] == '-';
  }

  /** A subtopic of a node that does not start with `/value` is not a value topic, whatever the id. */
  lemma NodeTailUnrecognised(n: int, tail: string)
    requires |tail| >= 6 && tail[0] == '/' && tail[..6] != "/value"
    ensures ParseTopic(NodeSub(n) + tail) == Unrecognised
  {
    if n < 0 {
      NegativeNodeUnrecognised(n, tail);
    } else {
      assert NodeSub(n) + tail == "node" + NatToString(n) + tail;
      SplitNodePrefix(n, tail);
    }
  }
}
