/** Order lines (variant, quantity) and the demand they add up to. */
module Lines {
  type VariantId = nat

  datatype Line = Line(variant: VariantId, quantity: int)

  /** What one line asks of variant `v`. */
  function Asked(line: Line, v: VariantId): int {
    if line.variant == v then line.quantity else 0
  }

  /** What all lines together ask of variant `v`; a variant may be named by several lines. */
  function Demand(lines: seq<Line>, v: VariantId): int {
    if |lines| == 0 then 0
    else Demand(lines[..|lines| - 1], v) + Asked(lines[|lines| - 1], v)
  }

  ghost predicate Positive(lines: seq<Line>) {
    forall i :: 0 <= i < |lines| ==> lines[i].quantity >= 1
  }

  ghost predicate Names(lines: seq<Line>, v: VariantId) {
    exists i :: 0 <= i < |lines| && lines[i].variant == v
  }

  lemma DemandOfAppend(lines: seq<Line>, line: Line, v: VariantId)
    ensures Demand(lines + [line], v) == Demand(lines, v) + Asked(line, v)
  {
    assert (lines + [line])[..|lines|] == lines;
  }

  lemma {:induction false} DemandOfConcat(a: seq<Line>, b: seq<Line>, v: VariantId)
    ensures Demand(a + b, v) == Demand(a, v) + Demand(b, v)
  {
    if b == [] {
      assert a + b == a;
    } else {
      var front, last := b[..|b| - 1], b[|b| - 1];
      assert b == front + [last];
      assert a + b == (a + front) + [last];
      DemandOfConcat(a, front, v);
      DemandOfAppend(a + front, last, v);
    }
  }

  lemma {:induction false} DemandSign(lines: seq<Line>, v: VariantId)
    requires Positive(lines)
    ensures Demand(lines, v) >= 0
    ensures Demand(lines, v) > 0 <==> Names(lines, v)
  {
    if lines != [] {
      var front, last := lines[..|lines| - 1], lines[|lines| - 1];
      DemandSign(front, v);
      if last.variant == v {
        assert lines[|lines| - 1].variant == v;
      } else if Names(lines, v) {
        var i :| 0 <= i < |lines| && lines[i].variant == v;
        assert front[i].variant == v;
      }
      if Names(front, v) {
        var i :| 0 <= i < |front| && front[i].variant == v;
        assert lines[i].variant == v;
      }
    }
  }

  /** Demand never shrinks along a prefix. */
  lemma {:induction false} DemandOfPrefix(lines: seq<Line>, k: nat, v: VariantId)
    requires Positive(lines) && k <= |lines|
    ensures Demand(lines[..k], v) <= Demand(lines, v)
  {
    assert lines == lines[..k] + lines[k..];
    DemandOfConcat(lines[..k], lines[k..], v);
    DemandSign(lines[k..], v);
  }

  function Without<T>(s: seq<T>, i: nat): seq<T>
    requires i < |s|
  {
    s[..i] + s[i + 1..]
  }

  lemma DemandWithout(b: seq<Line>, i: nat, v: VariantId)
    requires i < |b|
    ensures Demand(b, v) == Demand(Without(b, i), v) + Asked(b[i], v)
  {
    assert b == b[..i] + [b[i]] + b[i + 1..];
    DemandOfConcat(b[..i] + [b[i]], b[i + 1..], v);
    DemandOfAppend(b[..i], b[i], v);
    DemandOfConcat(b[..i], b[i + 1..], v);
  }

  lemma MultisetWithout<T>(b: seq<T>, i: nat)
    requires i < |b|
    ensures multiset(Without(b, i)) == multiset(b) - multiset{b[i]}
  {
    assert b == b[..i] + [b[i]] + b[i + 1..];
  }

  /** Demand does not depend on the order of the lines. */
  lemma {:induction false} DemandOfPermutation(a: seq<Line>, b: seq<Line>, v: VariantId)
    requires multiset(a) == multiset(b)
    ensures Demand(a, v) == Demand(b, v)
    decreases |a|
  {
    if a == [] {
      assert |b| == |multiset(b)| == 0;
    } else {
      assert a[0] in multiset(b);
      var i :| 0 <= i < |b| && b[i] == a[0];
      MultisetWithout(a, 0);
      MultisetWithout(b, i);
      DemandOfPermutation(Without(a, 0), Without(b, i), v);
      DemandWithout(a, 0, v);
      DemandWithout(b, i, v);
    }
  }
}
