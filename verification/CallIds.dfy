/** Call identifiers "call-<node>-<n>" and why two of them never coincide. */
module CallIds {
  import opened Decimals

  /** A node identifier, free text. */
  datatype NodeId = NodeId(text: string)

  datatype CallId = CallId(text: string)

  function MakeCallId(node: NodeId, n: int): CallId {
    CallId("call-" + (node.text + ("-" + Decimal(n))))
  }

  /** If one split point lies after the other, the longer remainder contains its dash. */
  lemma LaterDash(a: string, x: string, b: string, y: string)
    requires a + ("-" + x) == b + ("-" + y) && |a| < |b|
    ensures '-' in x
  {
    assert (b + ("-" + y))[|b|] == '-';
    assert x[|b| - |a| - 1] == '-';
  }

  /** Splitting at the last dash is unique when what follows has no dash. */
  lemma LastDash(a: string, x: string, b: string, y: string)
    requires a + ("-" + x) == b + ("-" + y)
    requires '-' !in x && '-' !in y
    ensures a == b && x == y
  {
    if |a| < |b| { LaterDash(a, x, b, y); }
    if |b| < |a| { LaterDash(b, y, a, x); }
    var s, t := a + ("-" + x), b + ("-" + y);
    assert s[..|a|] == a && t[..|b|] == b && s[|a| + 1..] == x && t[|b| + 1..] == y;
  }

  function Magnitude(n: int): nat {
    if n < 0 then -n else n
  }

  /** The node with the minus sign of a negative counter. */
  function Stem(node: NodeId, n: int): string {
    if n < 0 then node.text + "-" else node.text
  }

  lemma IdParts(node: NodeId, n: int)
    ensures MakeCallId(node, n).text[5..] == Stem(node, n) + ("-" + Digits(Magnitude(n)))
  {
    var digits := Digits(Magnitude(n));
    assert MakeCallId(node, n).text[5..] == node.text + ("-" + Decimal(n));
    assert node.text + ("-" + ("-" + digits)) == (node.text + "-") + ("-" + digits);
  }

  /** Two call ids coincide exactly for the same node and counter, or for opposite counters where the node of the
      non-negative one has one more trailing dash. */
  lemma CallIdsCoincide(a: NodeId, n: int, b: NodeId, m: int)
    ensures MakeCallId(a, n) == MakeCallId(b, m) <==>
      || (a == b && n == m)
      || (n < 0 && m == -n && b.text == a.text + "-")
      || (m < 0 && n == -m && a.text == b.text + "-")
  {
    IdParts(a, n);
    IdParts(b, m);
    if MakeCallId(a, n) == MakeCallId(b, m) {
      LastDash(Stem(a, n), Digits(Magnitude(n)), Stem(b, m), Digits(Magnitude(m)));
      DigitsInjective(Magnitude(n), Magnitude(m));
      if n < 0 && m < 0 { assert a.text == Stem(a, n)[..|a.text|] == b.text; }
    }
    if Stem(a, n) == Stem(b, m) && Magnitude(n) == Magnitude(m) { SameParts(a, n, b, m); }
  }

  lemma SameParts(a: NodeId, n: int, b: NodeId, m: int)
    requires Stem(a, n) == Stem(b, m) && Magnitude(n) == Magnitude(m)
    ensures MakeCallId(a, n) == MakeCallId(b, m)
  {
    IdParts(a, n);
    IdParts(b, m);
    var s, t := MakeCallId(a, n).text, MakeCallId(b, m).text;
    assert s == "call-" + s[5..] && t == "call-" + t[5..];
  }

  /** Until a counter overflows, distinct (node, counter) pairs have distinct call ids, whatever the node names. */
  lemma CallIdInjective(a: NodeId, n: nat, b: NodeId, m: nat)
    requires MakeCallId(a, n) == MakeCallId(b, m)
    ensures a == b && n == m
  {
    CallIdsCoincide(a, n, b, m);
  }
}
