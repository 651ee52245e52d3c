/** Names of service nodes. Every node appends `_<counter>` to the name it is given
    (lock-management.py:27-28), and a clone is given its parent's name up to the first
    underscore followed by `_clone` (lock-management.py:110). */
module Naming {

  predicate IsDigit(c: char)
  {
    '0' <= c <= '9'
  }

  function DigitChar(d: nat): (c: char)
    requires d < 10
  {
    ('0' as int + d) as char
  }

  /** Python's `str(n)` for a non-negative integer: decimal digits, no leading zero. */
  function Decimal(n: nat): (s: string)
    ensures |s| > 0
    ensures forall i :: 0 <= i < |s| ==> IsDigit(s[i])
  {
    if n < 10 then [DigitChar(n)] else Decimal(n / 10) + [DigitChar(n % 10)]
  }

  /** A counter value of two or more digits does not start with `0`. */
  lemma {:induction false} DecimalNoLeadingZero(n: nat)
    ensures n >= 10 ==> Decimal(n)[0] != '0'
  {
    if n >= 10 {
      DecimalNoLeadingZero(n / 10);
      assert Decimal(n)[0] == Decimal(n / 10)[0];
    }
  }

  /** The number a string of decimal digits denotes. */
  function DecimalValue(s: string): nat
    requires forall i :: 0 <= i < |s| ==> IsDigit(s[i])
  {
    if s == [] then 0
    else
      assert IsDigit(s[|s| - 1]);
      DecimalValue(s[..|s| - 1]) * 10 + (s[|s| - 1] as int - '0' as int)
  }

  /** Reading back the decimal rendering of `n` gives `n`. */
  lemma {:induction false} DecimalRoundTrip(n: nat)
    ensures DecimalValue(Decimal(n)) == n
  {
    var s := Decimal(n);
    if n >= 10 {
      DecimalRoundTrip(n / 10);
      assert s[..|s| - 1] == Decimal(n / 10);
    }
  }

  /** Different counters render differently. */
  lemma DecimalInjective(m: nat, n: nat)
    requires Decimal(m) == Decimal(n)
    ensures m == n
  {
    DecimalRoundTrip(m);
    DecimalRoundTrip(n);
  }

  /** Python's `s.split("_")[0]`: the text before the first underscore, or all of `s`
      when it has none. */
  function FirstSegment(s: string): (r: string)
    ensures '_' !in r
    ensures r <= s
    ensures |r| < |s| ==> s[|r|] == '_'
  {
    if s == [] || s[0] == '_' then [] else [s[0]] + FirstSegment(s[1..])
  }

  /** The name a service node takes, `f"{base}_{id}"`, where `id` is the value of the
      global node counter after it was incremented for this node. */
  function NodeName(base: string, id: nat): string
  {
    base + "_" + Decimal(id)
  }

  /** A node name is its base, an underscore, and the decimal counter, in that order. */
  lemma NodeNameParts(base: string, id: nat)
    ensures var s := NodeName(base, id);
      |s| > |base| + 1 && s[..|base|] == base && s[|base|] == '_' &&
      s[|base| + 1..] == Decimal(id)
  {
    var s := NodeName(base, id);
    assert s[..|base|] == base;
    assert s[|base| + 1..] == Decimal(id);
  }

  /** The base name a clone of the node named `parentName` is created with. */
  function CloneBase(parentName: string): string
  {
    FirstSegment(parentName) + "_clone"
  }

  /** The first segment of an underscore-joined name is its first part. */
  lemma FirstSegmentOfJoin(p: string, t: string)
    requires '_' !in p
    ensures FirstSegment(p + "_" + t) == p
  {
    var s := p + "_" + t;
    var r := FirstSegment(s);
    assert forall i :: 0 <= i < |p| ==> s[i] != '_';
    assert forall i :: 0 <= i < |r| ==> r[i] == s[i];
    assert s[|p|] == '_';
    assert |r| == |p|;
    assert r == s[..|r|] == p;
  }

  /** A clone, and every clone of a clone, keeps the first segment of the original
      node's name: `svc0_3` is cloned as `svc0_clone_7`, which is cloned as
      `svc0_clone_9`. */
  lemma CloneKeepsRoot(parentName: string, id: nat)
    ensures FirstSegment(NodeName(CloneBase(parentName), id)) == FirstSegment(parentName)
  {
    var root := FirstSegment(parentName);
    assert NodeName(CloneBase(parentName), id) == root + "_" + ("clone_" + Decimal(id));
    FirstSegmentOfJoin(root, "clone_" + Decimal(id));
  }

  /** A node name determines both the base name and the counter it was built from, so
      nodes built with different counter values never share a name. */
  lemma NodeNameInjective(b1: string, i1: nat, b2: string, i2: nat)
    requires NodeName(b1, i1) == NodeName(b2, i2)
    ensures b1 == b2 && i1 == i2
  {
    var s := NodeName(b1, i1);
    var d1, d2 := Decimal(i1), Decimal(i2);
    assert forall i :: |s| - |d1| <= i < |s| ==> IsDigit(s[i]);
    assert forall i :: |s| - |d2| <= i < |s| ==> IsDigit(s[i]);
    assert s[|s| - |d1| - 1] == '_' && s[|s| - |d2| - 1] == '_';
    assert |d1| == |d2|;
    assert d1 == s[|s| - |d1|..] == d2;
    assert b1 == s[..|b1|] == b2;
    DecimalInjective(i1, i2);
  }
}
