/** `Ability.TargetSquare`: a weighted offset of an ability's target or
    damage area, and the convolution that combines two areas.  The
    `double` weights are exact reals; offsets and orders are Java `int`s
    and add with wrap-around. */
module Abilities {
  import opened JavaLang
  import opened Errors

  datatype Square = Square(x: int, y: int, order: int, value: real)

  type Pos = (int, int)

  function PosOf(t: Square): Pos
  {
    (t.x, t.y)
  }

  /** The combining constructor `TargetSquare(a, b)`: offsets and orders
      add, values multiply. */
  function Combine(a: Square, b: Square): Square
  {
    Square(Int32(a.x + b.x), Int32(a.y + b.y), Int32(a.order + b.order), a.value * b.value)
  }

  /** `compareTo`, as coded: by y descending, then x ascending, then order
      descending (the comment above it states the reverse), each by an
      `int` subtraction. */
  function CompareTo(a: Square, b: Square): int
  {
    if a.y != b.y then Int32(b.y - a.y)
    else if a.x != b.x then Int32(a.x - b.x)
    else Int32(b.order - a.order)
  }

  /** `a` comes strictly before `b` by position in the sort order. */
  predicate PosBefore(a: Square, b: Square)
  {
    a.y > b.y || (a.y == b.y && a.x < b.x)
  }

  /** `a` may come before `b` in the sort order. */
  predicate Before(a: Square, b: Square)
  {
    PosBefore(a, b) || (a.y == b.y && a.x == b.x && a.order >= b.order)
  }

  /** While no difference it takes overflows, `compareTo` is the order
      `Before`: negative or zero exactly when `a` may come first, zero
      exactly when the two agree on all three keys. */
  lemma CompareOrder(a: Square, b: Square)
    requires INT_MIN <= b.y - a.y <= INT_MAX && INT_MIN <= a.x - b.x <= INT_MAX
    requires INT_MIN <= b.order - a.order <= INT_MAX
    ensures CompareTo(a, b) <= 0 <==> Before(a, b)
    ensures CompareTo(a, b) == 0 <==> (a.x, a.y, a.order) == (b.x, b.y, b.order)
  {
    Int32Id(b.y - a.y);
    Int32Id(a.x - b.x);
    Int32Id(b.order - a.order);
  }

  ghost predicate Sorted(s: seq<Square>)
  {
    forall i, j :: 0 <= i < j < |s| ==> Before(s[i], s[j])
  }

  /** Strictly increasing positions: sorted, and no position twice. */
  ghost predicate StrictlySorted(s: seq<Square>)
  {
    forall i, j :: 0 <= i < j < |s| ==> PosBefore(s[i], s[j])
  }

  /** The positions of `s`. */
  function PosSet(s: seq<Square>): set<Pos>
    decreases |s|
  {
    if s == [] then {} else PosSet(s[..|s| - 1]) + {PosOf(s[|s| - 1])}
  }

  lemma PosSetSnoc(s: seq<Square>, b: Square)
    ensures PosSet(s + [b]) == PosSet(s) + {PosOf(b)}
  {
    assert (s + [b])[..|s|] == s;
  }

  /** A position is in `PosSet(s)` exactly when some square of `s` has it. */
  lemma {:induction false} PosSetHas(s: seq<Square>, p: Pos)
    ensures p in PosSet(s) <==> exists i :: 0 <= i < |s| && PosOf(s[i]) == p
    decreases |s|
  {
    if s != [] {
      var s' := s[..|s| - 1];
      PosSetHas(s', p);
      if p in PosSet(s') {
        var i :| 0 <= i < |s'| && PosOf(s'[i]) == p;
        assert s[i] == s'[i];
      }
      if exists i :: 0 <= i < |s| && PosOf(s[i]) == p {
        var i :| 0 <= i < |s| && PosOf(s[i]) == p;
        if i < |s'| {
          assert s'[i] == s[i];
        }
      }
    }
  }

  /** The row `a` × `b` of the pairs, in the order of `b`. */
  function Row(a: Square, b: seq<Square>): (r: seq<Square>)
    ensures |r| == |b| && forall k :: 0 <= k < |b| ==> r[k] == Combine(a, b[k])
  {
    seq(|b|, k requires 0 <= k < |b| => Combine(a, b[k]))
  }

  /** The pairs the nested loops of `convolution` create, in order. */
  function Pairs(a: seq<Square>, b: seq<Square>): seq<Square>
    decreases |a|
  {
    if a == [] then [] else Pairs(a[..|a| - 1], b) + Row(a[|a| - 1], b)
  }

  // ---------------------------------------------------------------------
  // Weights

  /** The value of `e` as `sel` weighs it: all of it for `None`, only at
      the position `p` for `Some(p)`. */
  function Weight(e: Square, sel: Option<Pos>): real
  {
    if sel.None? || PosOf(e) == sel.value then e.value else 0.0
  }

  /** The total weight of `s`. */
  function Mass(s: seq<Square>, sel: Option<Pos>): real
    decreases |s|
  {
    if s == [] then 0.0 else Mass(s[..|s| - 1], sel) + Weight(s[|s| - 1], sel)
  }

  /** The total value of `s`. */
  function Sum(s: seq<Square>): real
  {
    Mass(s, None)
  }

  /** The value `s` puts on position `p`. */
  function ValueAt(s: seq<Square>, p: Pos): real
  {
    Mass(s, Some(p))
  }

  lemma MassSnoc(s: seq<Square>, b: Square, sel: Option<Pos>)
    ensures Mass(s + [b], sel) == Mass(s, sel) + Weight(b, sel)
  {
    assert (s + [b])[..|s|] == s;
  }

  lemma {:induction false} MassAppend(a: seq<Square>, b: seq<Square>, sel: Option<Pos>)
    ensures Mass(a + b, sel) == Mass(a, sel) + Mass(b, sel)
    decreases |b|
  {
    if b == [] {
      assert a + b == a;
    } else {
      var b' := b[..|b| - 1];
      assert a + b == (a + b') + [b[|b| - 1]];
      MassSnoc(a + b', b[|b| - 1], sel);
      MassAppend(a, b', sel);
    }
  }

  /** Taking one square out of `t` takes its weight out of the total. */
  lemma MassRemove(t: seq<Square>, k: nat, sel: Option<Pos>)
    requires k < |t|
    ensures Mass(t, sel) == Mass(t[..k] + t[k + 1..], sel) + Weight(t[k], sel)
  {
    assert t == (t[..k] + [t[k]]) + t[k + 1..];
    MassAppend(t[..k] + [t[k]], t[k + 1..], sel);
    MassSnoc(t[..k], t[k], sel);
    MassAppend(t[..k], t[k + 1..], sel);
  }

  /** Any weight totals the same over a permutation. */
  lemma {:induction false} MassPerm(s: seq<Square>, t: seq<Square>, sel: Option<Pos>)
    requires multiset(s) == multiset(t)
    ensures Mass(s, sel) == Mass(t, sel)
    decreases |s|
  {
    if s == [] {
      assert |t| == |multiset(t)| == 0;
    } else {
      var s', x := s[..|s| - 1], s[|s| - 1];
      var k := Pick(s, t);
      var t' := t[..k] + t[k + 1..];
      MassPerm(s', t', sel);
      MassSnoc(s', x, sel);
      assert s' + [x] == s;
      MassRemove(t, k, sel);
    }
  }

  /** Where the last element of `s` sits in its permutation `t`, and what
      is left of both once it is taken out. */
  lemma Pick(s: seq<Square>, t: seq<Square>) returns (k: nat)
    requires s != [] && multiset(s) == multiset(t)
    ensures k < |t| && t[k] == s[|s| - 1]
    ensures multiset(s[..|s| - 1]) == multiset(t[..k] + t[k + 1..])
  {
    var s', x := s[..|s| - 1], s[|s| - 1];
    assert s == s' + [x];
    assert x in multiset(t);
    k :| 0 <= k < |t| && t[k] == x;
    assert t == t[..k] + [x] + t[k + 1..];
    assert multiset(t) == multiset(t[..k] + t[k + 1..]) + multiset{x};
    assert multiset(s) == multiset(s') + multiset{x};
    calc {
      multiset(s');
      multiset(s) - multiset{x};
      multiset(t) - multiset{x};
      multiset(t[..k] + t[k + 1..]);
    }
  }

  lemma {:induction false} RowSum(a: Square, b: seq<Square>)
    ensures Sum(Row(a, b)) == a.value * Sum(b)
    decreases |b|
  {
    if b != [] {
      var b' := b[..|b| - 1];
      assert Row(a, b)[..|b| - 1] == Row(a, b');
      RowSum(a, b');
    }
  }

  /** The pairs carry the product of the two areas' total values. */
  lemma {:induction false} PairsSum(a: seq<Square>, b: seq<Square>)
    ensures Sum(Pairs(a, b)) == Sum(a) * Sum(b)
    decreases |a|
  {
    if a != [] {
      var a', z := a[..|a| - 1], a[|a| - 1];
      PairsSum(a', b);
      RowSum(z, b);
      SumJoin(Pairs(a', b), Row(z, b), a, b);
    }
  }

  /** One step of `PairsSum`: the new row adds the last value of `a` times
      the total of `b`. */
  lemma SumJoin(p: seq<Square>, r: seq<Square>, a: seq<Square>, b: seq<Square>)
    requires a != []
    requires Sum(p) == Sum(a[..|a| - 1]) * Sum(b) && Sum(r) == a[|a| - 1].value * Sum(b)
    ensures Sum(p + r) == Sum(a) * Sum(b)
  {
    assert Sum(p) + Sum(r) == Sum(a) * Sum(b) by {
      assert Sum(a) == Sum(a[..|a| - 1]) + a[|a| - 1].value;
      Distribute(Sum(p), Sum(r), Sum(a[..|a| - 1]), a[|a| - 1].value, Sum(a), Sum(b));
    }
    MassAppend(p, r, None);
  }

  lemma Distribute(p: real, r: real, x: real, z: real, w: real, y: real)
    requires p == x * y && r == z * y && w == x + z
    ensures p + r == w * y
  {
  }

  lemma {:induction false} PairsLength(a: seq<Square>, b: seq<Square>)
    ensures |Pairs(a, b)| == |a| * |b|
    decreases |a|
  {
    if a != [] {
      PairsLength(a[..|a| - 1], b);
      assert |a| * |b| == (|a| - 1) * |b| + |b|;
    }
  }

  /** The positions of the pairs are the sums of a position of `a` and one
      of `b`. */
  lemma {:induction false} PairsPositions(a: seq<Square>, b: seq<Square>)
    ensures PosSet(Pairs(a, b)) == set x, y | x in a && y in b :: PosOf(Combine(x, y))
    decreases |a|
  {
    if a != [] {
      var a', z := a[..|a| - 1], a[|a| - 1];
      PairsPositions(a', b);
      assert a == a' + [z];
      PosSetAppend(Pairs(a', b), Row(z, b));
      RowPositions(z, b);
    }
  }

  lemma {:induction false} PosSetAppend(s: seq<Square>, t: seq<Square>)
    ensures PosSet(s + t) == PosSet(s) + PosSet(t)
    decreases |t|
  {
    if t == [] {
      assert s + t == s;
    } else {
      var t' := t[..|t| - 1];
      assert s + t == (s + t') + [t[|t| - 1]];
      assert t == t' + [t[|t| - 1]];
      PosSetSnoc(s + t', t[|t| - 1]);
      PosSetSnoc(t', t[|t| - 1]);
      PosSetAppend(s, t');
    }
  }

  lemma {:induction false} RowPositions(z: Square, b: seq<Square>)
    ensures PosSet(Row(z, b)) == set y | y in b :: PosOf(Combine(z, y))
    decreases |b|
  {
    if b != [] {
      var b' := b[..|b| - 1];
      assert b == b' + [b[|b| - 1]];
      assert Row(z, b) == Row(z, b') + [Combine(z, b[|b| - 1])];
      PosSetSnoc(Row(z, b'), Combine(z, b[|b| - 1]));
      RowPositions(z, b');
    }
  }

  // ---------------------------------------------------------------------
  // Merging runs

  /** The merge loop of `convolution` on the sorted pairs `s`: each square
      whose position is that of the last kept one adds its value to it;
      any other is kept. */
  function Merged(s: seq<Square>): (m: seq<Square>)
    requires |s| >= 1
    ensures 1 <= |m| <= |s| && PosOf(m[|m| - 1]) == PosOf(s[|s| - 1])
    decreases |s|
  {
    if |s| == 1 then [s[0]]
    else
      var m := Merged(s[..|s| - 1]);
      var b, last := s[|s| - 1], m[|m| - 1];
      if last.x == b.x && last.y == b.y then m[..|m| - 1] + [last.(value := last.value + b.value)]
      else m + [b]
  }

  /** The last step of the merge: the last square joins the last kept one
      or is kept itself. */
  lemma MergedStep(t: seq<Square>) returns (m: seq<Square>, b: Square, n: nat)
    requires |t| >= 2
    ensures m == Merged(t[..|t| - 1]) && b == t[|t| - 1] && n == |m| - 1
    ensures PosOf(m[n]) == PosOf(t[|t| - 2])
    ensures m[n].x == b.x && m[n].y == b.y ==> Merged(t) == m[..n] + [m[n].(value := m[n].value + b.value)]
    ensures !(m[n].x == b.x && m[n].y == b.y) ==> Merged(t) == m + [b]
  {
    m, b := Merged(t[..|t| - 1]), t[|t| - 1];
    n := |m| - 1;
    assert t[..|t| - 1][|t| - 2] == t[|t| - 2];
  }

  /** Of sorted squares, the prefix is sorted and the last square comes
      after the one before it. */
  lemma SortedLast(t: seq<Square>)
    requires |t| >= 2 && Sorted(t)
    ensures Sorted(t[..|t| - 1]) && Before(t[|t| - 2], t[|t| - 1])
  {
  }

  /** In sorted squares, a last square whose position differs from that of
      the square before it has a position none of the earlier ones has. */
  lemma Sandwich(t: seq<Square>)
    requires |t| >= 2 && Sorted(t) && PosOf(t[|t| - 2]) != PosOf(t[|t| - 1])
    ensures PosOf(t[|t| - 1]) !in PosSet(t[..|t| - 1])
  {
    var s, b, n := t[..|t| - 1], t[|t| - 1], |t| - 2;
    forall i | 0 <= i < |s|
      ensures PosOf(s[i]) != PosOf(b)
    {
      assert s[i] == t[i];
      assert i == n || Before(t[i], t[n]);
    }
    PosSetHas(s, PosOf(b));
  }

  lemma {:induction false} AbsentValue(s: seq<Square>, p: Pos)
    requires p !in PosSet(s)
    ensures ValueAt(s, p) == 0.0
    decreases |s|
  {
    if s != [] {
      AbsentValue(s[..|s| - 1], p);
    }
  }

  /** The merge keeps the positions. */
  lemma {:induction false} MergedPositions(s: seq<Square>)
    requires |s| >= 1
    ensures PosSet(Merged(s)) == PosSet(s)
    decreases |s|
  {
    if |s| == 1 {
      assert Merged(s) == [] + [s[0]] == s;
    } else {
      var s', b := s[..|s| - 1], s[|s| - 1];
      assert s == s' + [b];
      MergedPositions(s');
      var m := Merged(s');
      var n := |m| - 1;
      var last := m[n];
      assert m == m[..n] + [last];
      PosSetSnoc(s', b);
      PosSetSnoc(m[..n], last);
      PosSetSnoc(m[..n], last.(value := last.value + b.value));
      PosSetSnoc(m, b);
    }
  }

  /** The merge keeps the total value. */
  lemma {:induction false} MergedSum(s: seq<Square>)
    requires |s| >= 1
    ensures Sum(Merged(s)) == Sum(s)
    decreases |s|
  {
    if |s| == 1 {
      assert Merged(s) == s;
    } else {
      var s', b := s[..|s| - 1], s[|s| - 1];
      MergedSum(s');
      var m := Merged(s');
      var n := |m| - 1;
      assert Sum(s) == Sum(s') + b.value;
      if m[n].x == b.x && m[n].y == b.y {
        var m' := m[..n] + [m[n].(value := m[n].value + b.value)];
        assert Sum(m') == Sum(m[..n]) + m[n].value + b.value by {
          MassSnoc(m[..n], m[n].(value := m[n].value + b.value), None);
        }
        assert Sum(m) == Sum(m[..n]) + m[n].value;
      } else {
        MassSnoc(m, b, None);
      }
    }
  }

  /** Of sorted squares the merge keeps strictly increasing positions. */
  lemma {:induction false} MergedSorted(s: seq<Square>)
    requires |s| >= 1 && Sorted(s)
    ensures StrictlySorted(Merged(s))
    decreases |s|
  {
    if |s| > 1 {
      var s', b := s[..|s| - 1], s[|s| - 1];
      SortedLast(s);
      MergedSorted(s');
      var m := Merged(s');
      var n := |m| - 1;
      if !(m[n].x == b.x && m[n].y == b.y) {
        assert PosBefore(m[n], b);
        assert forall i :: 0 <= i < n ==> PosBefore(m[i], m[n]);
      }
    }
  }

  /** What the merge puts on each kept square: the value of its whole
      run. */
  ghost predicate RunValues(s: seq<Square>, m: seq<Square>)
  {
    forall k :: 0 <= k < |m| ==> m[k].value == ValueAt(s, PosOf(m[k]))
  }

  /** Of sorted squares the merge puts on each kept square the value of its
      whole run. */
  lemma {:induction false} MergedValues(s: seq<Square>)
    requires |s| >= 1 && Sorted(s)
    ensures RunValues(s, Merged(s))
    decreases |s|
  {
    if |s| == 1 {
      assert Merged(s) == s && s[..0] == [];
      assert ValueAt(s, PosOf(s[0])) == ValueAt([], PosOf(s[0])) + s[0].value;
    } else {
      var s' := s[..|s| - 1];
      SortedLast(s);
      MergedValues(s');
      MergedSorted(s');
      MergedPositions(s');
      if PosOf(s[|s| - 2]) != PosOf(s[|s| - 1]) {
        Sandwich(s);
      }
      var m, _, _ := MergedStep(s);
      ValuesStep(s, m, Merged(s));
    }
  }

  /** The last step of the merge keeps the run values: `m` is the merge of
      all squares but the last, `m'` the merge of all. */
  lemma ValuesStep(s: seq<Square>, m: seq<Square>, m': seq<Square>)
    requires |s| >= 2 && |m| >= 1
    requires StrictlySorted(m) && RunValues(s[..|s| - 1], m) && PosSet(m) == PosSet(s[..|s| - 1])
    requires PosOf(m[|m| - 1]) == PosOf(s[|s| - 2])
    requires PosOf(s[|s| - 2]) != PosOf(s[|s| - 1]) ==> PosOf(s[|s| - 1]) !in PosSet(s[..|s| - 1])
    requires m[|m| - 1].x == s[|s| - 1].x && m[|m| - 1].y == s[|s| - 1].y ==>
      m' == m[..|m| - 1] + [m[|m| - 1].(value := m[|m| - 1].value + s[|s| - 1].value)]
    requires !(m[|m| - 1].x == s[|s| - 1].x && m[|m| - 1].y == s[|s| - 1].y) ==> m' == m + [s[|s| - 1]]
    ensures RunValues(s, m')
  {
    if m[|m| - 1].x == s[|s| - 1].x && m[|m| - 1].y == s[|s| - 1].y {
      ValuesJoin(s, m);
    } else {
      ValuesApart(s, m);
    }
  }

  /** The last square joins the run of the last kept square. */
  lemma ValuesJoin(t: seq<Square>, m: seq<Square>)
    requires |t| >= 2 && |m| >= 1
    requires m[|m| - 1].x == t[|t| - 1].x && m[|m| - 1].y == t[|t| - 1].y
    requires StrictlySorted(m) && RunValues(t[..|t| - 1], m)
    ensures RunValues(t, m[..|m| - 1] + [m[|m| - 1].(value := m[|m| - 1].value + t[|t| - 1].value)])
  {
    var s := t[..|t| - 1];
    var b := t[|t| - 1];
    var n := |m| - 1;
    var m' := m[..n] + [m[n].(value := m[n].value + b.value)];
    forall k | 0 <= k < |m'|
      ensures m'[k].value == ValueAt(t, PosOf(m'[k]))
    {
      assert ValueAt(t, PosOf(m'[k])) == ValueAt(s, PosOf(m'[k])) + Weight(b, Some(PosOf(m'[k])));
      if k < n {
        assert m'[k] == m[k] && PosBefore(m[k], m[n]);
      }
    }
  }

  /** The last square starts a run of its own. */
  lemma ValuesApart(t: seq<Square>, m: seq<Square>)
    requires |t| >= 2
    requires PosSet(m) == PosSet(t[..|t| - 1]) && PosOf(t[|t| - 1]) !in PosSet(t[..|t| - 1])
    requires RunValues(t[..|t| - 1], m)
    ensures RunValues(t, m + [t[|t| - 1]])
  {
    var s := t[..|t| - 1];
    var b := t[|t| - 1];
    var m' := m + [b];
    forall k | 0 <= k < |m'|
      ensures m'[k].value == ValueAt(t, PosOf(m'[k]))
    {
      if k == |m| {
        AbsentValue(s, PosOf(b));
      } else {
        assert m'[k] == m[k];
        PosSetHas(m, PosOf(m[k]));
      }
    }
  }

  /** The largest order of a square of `s` at position `p`, if there is
      one. */
  function TopOrder(s: seq<Square>, p: Pos): Option<int>
    decreases |s|
  {
    if s == [] then None
    else
      var r, e := TopOrder(s[..|s| - 1], p), s[|s| - 1];
      if PosOf(e) != p then r
      else if r.Some? && r.value >= e.order then r
      else Some(e.order)
  }

  /** `TopOrder` is the maximum of the orders at `p`, and there is one
      exactly when some square is at `p`. */
  lemma {:induction false} TopOrderIsMax(s: seq<Square>, p: Pos)
    ensures TopOrder(s, p).Some? <==> p in PosSet(s)
    ensures TopOrder(s, p).Some? ==>
      && (forall i :: 0 <= i < |s| && PosOf(s[i]) == p ==> s[i].order <= TopOrder(s, p).value)
      && (exists i :: 0 <= i < |s| && PosOf(s[i]) == p && s[i].order == TopOrder(s, p).value)
    decreases |s|
  {
    if s != [] {
      var s' := s[..|s| - 1];
      TopOrderIsMax(s', p);
      PosSetHas(s', p);
      forall i | 0 <= i < |s'|
        ensures s[i] == s'[i]
      {
      }
      if TopOrder(s, p) == TopOrder(s', p) && TopOrder(s', p).Some? {
        var i :| 0 <= i < |s'| && PosOf(s'[i]) == p && s'[i].order == TopOrder(s', p).value;
        assert s[i] == s'[i];
      }
    }
  }

  /** What the merge keeps of each run: the largest order of its
      position. */
  ghost predicate RunOrders(s: seq<Square>, m: seq<Square>)
  {
    forall k :: 0 <= k < |m| ==> TopOrder(s, PosOf(m[k])) == Some(m[k].order)
  }

  lemma {:induction false} AbsentTop(s: seq<Square>, p: Pos)
    requires p !in PosSet(s)
    ensures TopOrder(s, p) == None
    decreases |s|
  {
    if s != [] {
      AbsentTop(s[..|s| - 1], p);
    }
  }

  /** Of sorted squares the merge keeps the first of each run, which has the
      largest order of its position. */
  lemma {:induction false} MergedOrders(s: seq<Square>)
    requires |s| >= 1 && Sorted(s)
    ensures RunOrders(s, Merged(s))
    decreases |s|
  {
    if |s| == 1 {
      assert Merged(s) == s && s[..0] == [];
    } else {
      var s' := s[..|s| - 1];
      SortedLast(s);
      MergedOrders(s');
      MergedSorted(s');
      MergedPositions(s');
      if PosOf(s[|s| - 2]) != PosOf(s[|s| - 1]) {
        Sandwich(s);
      }
      var m, _, _ := MergedStep(s);
      OrdersStep(s, m, Merged(s));
    }
  }

  /** The last step of the merge keeps the largest orders: `m` is the
      merge of all squares but the last, `m'` the merge of all. */
  lemma OrdersStep(s: seq<Square>, m: seq<Square>, m': seq<Square>)
    requires |s| >= 2 && |m| >= 1 && Before(s[|s| - 2], s[|s| - 1])
    requires StrictlySorted(m) && RunOrders(s[..|s| - 1], m) && PosSet(m) == PosSet(s[..|s| - 1])
    requires PosOf(m[|m| - 1]) == PosOf(s[|s| - 2])
    requires PosOf(s[|s| - 2]) != PosOf(s[|s| - 1]) ==> PosOf(s[|s| - 1]) !in PosSet(s[..|s| - 1])
    requires m[|m| - 1].x == s[|s| - 1].x && m[|m| - 1].y == s[|s| - 1].y ==>
      m' == m[..|m| - 1] + [m[|m| - 1].(value := m[|m| - 1].value + s[|s| - 1].value)]
    requires !(m[|m| - 1].x == s[|s| - 1].x && m[|m| - 1].y == s[|s| - 1].y) ==> m' == m + [s[|s| - 1]]
    ensures RunOrders(s, m')
  {
    if m[|m| - 1].x == s[|s| - 1].x && m[|m| - 1].y == s[|s| - 1].y {
      OrdersJoin(s, m);
    } else {
      OrdersApart(s, m);
    }
  }

  lemma OrdersJoin(t: seq<Square>, m: seq<Square>)
    requires |t| >= 2 && |m| >= 1 && PosOf(m[|m| - 1]) == PosOf(t[|t| - 2])
    requires m[|m| - 1].x == t[|t| - 1].x && m[|m| - 1].y == t[|t| - 1].y
    requires Before(t[|t| - 2], t[|t| - 1]) && StrictlySorted(m) && RunOrders(t[..|t| - 1], m)
    ensures RunOrders(t, m[..|m| - 1] + [m[|m| - 1].(value := m[|m| - 1].value + t[|t| - 1].value)])
  {
    var n := |m| - 1;
    var m' := m[..n] + [m[n].(value := m[n].value + t[|t| - 1].value)];
    assert TopOrder(t[..|t| - 1], PosOf(m[n])) == Some(m[n].order);
    JoinTop(t, m[n].order);
    forall k | 0 <= k < |m'|
      ensures TopOrder(t, PosOf(m'[k])) == Some(m'[k].order)
    {
      if k < n {
        assert m'[k] == m[k];
        JoinEarlier(t, m, k);
      }
    }
  }

  /** A last square at the position of the one before it, and sorted after
      it, does not raise the largest order of that position. */
  lemma JoinTop(t: seq<Square>, top: int)
    requires |t| >= 2 && PosOf(t[|t| - 2]) == PosOf(t[|t| - 1]) && Before(t[|t| - 2], t[|t| - 1])
    requires TopOrder(t[..|t| - 1], PosOf(t[|t| - 1])) == Some(top)
    ensures TopOrder(t, PosOf(t[|t| - 1])) == Some(top)
  {
    var s := t[..|t| - 1];
    var p := PosOf(t[|t| - 1]);
    assert s[|s| - 1] == t[|t| - 2];
    TopOrderIsMax(s, p);
    assert s[|s| - 1].order <= top;
    TopKept(t, p);
  }

  /** The squares kept before the last one are at other positions, so the
      joined square leaves their orders alone. */
  lemma JoinEarlier(t: seq<Square>, m: seq<Square>, k: nat)
    requires |t| >= 2 && k < |m| - 1 && StrictlySorted(m) && RunOrders(t[..|t| - 1], m)
    requires m[|m| - 1].x == t[|t| - 1].x && m[|m| - 1].y == t[|t| - 1].y
    ensures TopOrder(t, PosOf(m[k])) == Some(m[k].order)
  {
    assert PosBefore(m[k], m[|m| - 1]);
    assert TopOrder(t[..|t| - 1], PosOf(m[k])) == Some(m[k].order);
    TopKept(t, PosOf(m[k]));
  }

  /** A last square that is elsewhere, or whose order is no larger, leaves
      the largest order of `p` as it was. */
  lemma TopKept(t: seq<Square>, p: Pos)
    requires |t| >= 1
    requires var r := TopOrder(t[..|t| - 1], p);
      PosOf(t[|t| - 1]) != p || (r.Some? && r.value >= t[|t| - 1].order)
    ensures TopOrder(t, p) == TopOrder(t[..|t| - 1], p)
  {
  }

  lemma OrdersApart(t: seq<Square>, m: seq<Square>)
    requires |t| >= 2
    requires PosSet(m) == PosSet(t[..|t| - 1]) && PosOf(t[|t| - 1]) !in PosSet(t[..|t| - 1])
    requires RunOrders(t[..|t| - 1], m)
    ensures RunOrders(t, m + [t[|t| - 1]])
  {
    var s := t[..|t| - 1];
    var b := t[|t| - 1];
    var m' := m + [b];
    forall k | 0 <= k < |m'|
      ensures TopOrder(t, PosOf(m'[k])) == Some(m'[k].order)
    {
      if k == |m| {
        AbsentTop(s, PosOf(b));
      } else {
        assert m'[k] == m[k];
        PosSetHas(m, PosOf(m[k]));
      }
    }
  }


  // ---------------------------------------------------------------------
  // Sorting

  /** `x` put into `s` before the first square it may precede. */
  function Insert(x: Square, s: seq<Square>): (r: seq<Square>)
    ensures multiset(r) == multiset(s) + multiset{x}
    ensures |r| == |s| + 1 && (r[0] == x || (s != [] && r[0] == s[0]))
    decreases |s|
  {
    if s == [] then [x]
    else if Before(x, s[0]) then [x] + s
    else
      assert s == [s[0]] + s[1..];
      [s[0]] + Insert(x, s[1..])
  }

  /** `Arrays.sort` by `compareTo`, as an insertion sort on `Before`. */
  function SortSquares(s: seq<Square>): (r: seq<Square>)
    ensures multiset(r) == multiset(s) && |r| == |s|
    decreases |s|
  {
    if s == [] then []
    else
      assert s == [s[0]] + s[1..];
      Insert(s[0], SortSquares(s[1..]))
  }

  /** A square that may precede the head of sorted squares may precede
      them all. */
  lemma ConsSorted(a: Square, r: seq<Square>)
    requires Sorted(r) && (r == [] || Before(a, r[0]))
    ensures Sorted([a] + r)
  {
    var t := [a] + r;
    forall i, j | 0 <= i < j < |t|
      ensures Before(t[i], t[j])
    {
      if i == 0 && j > 1 {
        assert Before(r[0], r[j - 1]);
      }
    }
  }

  lemma {:induction false} InsertSorted(x: Square, s: seq<Square>)
    requires Sorted(s)
    ensures Sorted(Insert(x, s))
    decreases |s|
  {
    if s != [] {
      if Before(x, s[0]) {
        ConsSorted(x, s);
      } else {
        InsertSorted(x, s[1..]);
        ConsSorted(s[0], Insert(x, s[1..]));
      }
    }
  }

  /** The sort sorts. */
  lemma {:induction false} SortSquaresSorted(s: seq<Square>)
    ensures Sorted(SortSquares(s))
    decreases |s|
  {
    if s != [] {
      SortSquaresSorted(s[1..]);
      InsertSorted(s[0], SortSquares(s[1..]));
    }
  }

  // ---------------------------------------------------------------------
  // Permutations

  lemma PosSetSub(s: seq<Square>, t: seq<Square>, p: Pos)
    requires multiset(s) == multiset(t) && p in PosSet(s)
    ensures p in PosSet(t)
  {
    PosSetHas(s, p);
    PosSetHas(t, p);
    var i :| 0 <= i < |s| && PosOf(s[i]) == p;
    assert s[i] in multiset(t);
    var j :| 0 <= j < |t| && t[j] == s[i];
  }

  /** A permutation has the same positions. */
  lemma PosSetPerm(s: seq<Square>, t: seq<Square>)
    requires multiset(s) == multiset(t)
    ensures PosSet(s) == PosSet(t)
  {
    forall p | p in PosSet(s)
      ensures p in PosSet(t)
    {
      PosSetSub(s, t, p);
    }
    forall p | p in PosSet(t)
      ensures p in PosSet(s)
    {
      PosSetSub(t, s, p);
    }
  }

  /** A permutation has the same largest order at each position. */
  lemma TopPerm(s: seq<Square>, t: seq<Square>, p: Pos)
    requires multiset(s) == multiset(t)
    ensures TopOrder(s, p) == TopOrder(t, p)
  {
    PosSetPerm(s, t);
    TopOrderIsMax(s, p);
    TopOrderIsMax(t, p);
    if TopOrder(s, p).Some? {
      var i :| 0 <= i < |s| && PosOf(s[i]) == p && s[i].order == TopOrder(s, p).value;
      assert s[i] in multiset(t);
      var j :| 0 <= j < |t| && t[j] == s[i];
      var i' :| 0 <= i' < |t| && PosOf(t[i']) == p && t[i'].order == TopOrder(t, p).value;
      assert t[i'] in multiset(s);
      var j' :| 0 <= j' < |s| && s[j'] == t[i'];
    }
  }

  lemma RunsPerm(s: seq<Square>, t: seq<Square>, m: seq<Square>)
    requires multiset(s) == multiset(t) && RunValues(s, m) && RunOrders(s, m)
    ensures RunValues(t, m) && RunOrders(t, m)
  {
    forall k | 0 <= k < |m|
      ensures m[k].value == ValueAt(t, PosOf(m[k])) && TopOrder(t, PosOf(m[k])) == Some(m[k].order)
    {
      MassPerm(s, t, Some(PosOf(m[k])));
      TopPerm(s, t, PosOf(m[k]));
    }
  }

  // ---------------------------------------------------------------------
  // The convolution

  /** What `convolution` promises of its result `o` for the areas `a` and
      `b`: positions strictly in the sort order, exactly the positions of
      the pairs, on each the total value of the pairs there and their
      largest order, and the product of the two total values overall. */
  ghost predicate Convolved(a: seq<Square>, b: seq<Square>, o: seq<Square>)
  {
    var p := Pairs(a, b);
    && StrictlySorted(o) && PosSet(o) == PosSet(p)
    && RunValues(p, o) && RunOrders(p, o)
    && Sum(o) == Sum(a) * Sum(b)
  }

  lemma PairsNonEmpty(a: seq<Square>, b: seq<Square>)
    requires a != [] && b != []
    ensures |Pairs(a, b)| >= 1
  {
    PairsLength(a, b);
    assert |a| * |b| >= |b| by {
      assert |a| * |b| == (|a| - 1) * |b| + |b|;
    }
  }

  /** `convolution` on sequences: the pairs, sorted and merged, or the
      `ArrayIndexOutOfBoundsException` of reading the first pair when
      there is none. */
  function Convolve(a: seq<Square>, b: seq<Square>): Result<seq<Square>>
  {
    if a == [] || b == [] then Err(ArrayIndex)
    else
      PairsNonEmpty(a, b);
      Ok(Merged(SortSquares(Pairs(a, b))))
  }

  /** `convolution` fails exactly on an empty area, and otherwise keeps
      its promise. */
  lemma ConvolveMeets(a: seq<Square>, b: seq<Square>)
    ensures Convolve(a, b).Err? <==> a == [] || b == []
    ensures Convolve(a, b).Err? ==> Convolve(a, b).error == ArrayIndex
    ensures Convolve(a, b).Ok? ==> Convolved(a, b, Convolve(a, b).value)
  {
    if a != [] && b != [] {
      var p := Pairs(a, b);
      PairsNonEmpty(a, b);
      var t := SortSquares(p);
      var o := Merged(t);
      SortSquaresSorted(p);
      MergedSorted(t);
      MergedPositions(t);
      PosSetPerm(t, p);
      MergedValues(t);
      MergedOrders(t);
      RunsPerm(t, p, o);
      MergedSum(t);
      MassPerm(t, p, None);
      PairsSum(a, b);
    }
  }

  /** Every position of a strictly sorted sequence is a different one, so
      there are as many squares as positions. */
  lemma {:induction false} DistinctCount(o: seq<Square>)
    requires StrictlySorted(o)
    ensures |PosSet(o)| == |o|
    decreases |o|
  {
    if o != [] {
      var o', z := o[..|o| - 1], o[|o| - 1];
      DistinctCount(o');
      forall i | 0 <= i < |o'|
        ensures PosOf(o'[i]) != PosOf(z)
      {
        assert o'[i] == o[i] && PosBefore(o[i], z);
      }
      PosSetHas(o', PosOf(z));
    }
  }

  /** The nested loops of `convolution`: the pairs in a new array. */
  method FillPairs(in1: array<Square>, in2: array<Square>) returns (out: array<Square>)
    ensures fresh(out) && out[..] == Pairs(in1[..], in2[..])
  {
    out := new Square[in1.Length * in2.Length](_ => Square(0, 0, 0, 0.0));
    for j := 0 to in1.Length
      invariant out[..j * in2.Length] == Pairs(in1[..j], in2[..])
    {
      RowFits(j, in1.Length, in2.Length);
      FillRow(out, j * in2.Length, in1[j], in2);
      assert in1[..j + 1][..j] == in1[..j];
      assert (j + 1) * in2.Length == j * in2.Length + in2.Length;
    }
    assert in1[..in1.Length] == in1[..];
  }

  /** The inner loop: the row of `a` written into `out` from `i` on. */
  method FillRow(out: array<Square>, i: nat, a: Square, in2: array<Square>)
    requires i + in2.Length <= out.Length && out != in2
    modifies out
    ensures out[..i + in2.Length] == old(out[..i]) + Row(a, in2[..])
  {
    ghost var done := out[..i];
    for k := 0 to in2.Length
      invariant out[..i + k] == done + Row(a, in2[..k])
    {
      out[i + k] := Combine(a, in2[k]);
      assert Row(a, in2[..k + 1]) == Row(a, in2[..k]) + [Combine(a, in2[k])];
      assert out[..i + k + 1] == out[..i + k] + [Combine(a, in2[k])];
    }
    assert in2[..in2.Length] == in2[..];
  }

  lemma RowFits(j: int, m: int, n: int)
    requires 0 <= j < m && 0 <= n
    ensures 0 <= j * n && j * n + n <= m * n
  {
    assert j * n + n == (j + 1) * n <= m * n;
  }

  /** `Arrays.sort(out)`. */
  method SortInPlace(out: array<Square>)
    modifies out
    ensures out[..] == SortSquares(old(out[..]))
  {
    var s := SortSquares(out[..]);
    forall k | 0 <= k < out.Length {
      out[k] := s[k];
    }
  }

  /** The merge loop of `convolution`: the first `i` squares of `out` end
      as the merge of its sorted squares.  The variable `a` of the source
      is always `out[i - 1]`. */
  method MergeRuns(out: array<Square>) returns (i: nat)
    requires out.Length >= 1
    modifies out
    ensures i <= out.Length && out[..i] == Merged(old(out[..]))
  {
    ghost var s := out[..];
    i := 1;
    for j := 1 to out.Length
      invariant 1 <= i <= j
      invariant out[..i] == Merged(s[..j])
      invariant forall q :: j <= q < out.Length ==> out[q] == s[q]
    {
      ghost var o, i0 := out[..], i;
      i := MergeOne(out, i, j);
      MergeLoopStep(s, j, o, out[..], i0, i);
    }
    assert s[..out.Length] == s;
  }

  /** What one step of the merge loop does to the squares `o` of `out`:
      `o[j]` joins `o[i - 1]` when they share a position and is kept at
      `o[i]` otherwise; the squares after `j` stay. */
  ghost predicate MergedOne(o: seq<Square>, o': seq<Square>, i: nat, j: nat, i': nat)
    requires 1 <= i <= j < |o| == |o'|
  {
    var a, b := o[i - 1], o[j];
    && (if a.x == b.x && a.y == b.y then i' == i && o'[..i - 1] == o[..i - 1] && o'[i - 1] == a.(value := a.value + b.value)
        else i' == i + 1 && o'[..i] == o[..i] && o'[i] == b)
    && forall q :: j < q < |o| ==> o'[q] == o[q]
  }

  /** One step of the merge loop extends the merge `m` of the squares
      before `j` by square `j`, as the last step of `Merged` does. */
  lemma MergeAdvance(o: seq<Square>, o': seq<Square>, i: nat, j: nat, i': nat, m: seq<Square>, m': seq<Square>, b: Square)
    requires 1 <= i <= j < |o| == |o'| && |m| == i && o[..i] == m && o[j] == b
    requires MergedOne(o, o', i, j, i')
    requires m[|m| - 1].x == b.x && m[|m| - 1].y == b.y ==>
      m' == m[..|m| - 1] + [m[|m| - 1].(value := m[|m| - 1].value + b.value)]
    requires !(m[|m| - 1].x == b.x && m[|m| - 1].y == b.y) ==> m' == m + [b]
    ensures 1 <= i' <= j + 1 && o'[..i'] == m'
  {
    if o[i - 1].x == o[j].x && o[i - 1].y == o[j].y {
      assert o'[..i] == o'[..i - 1] + [o'[i - 1]];
      assert m[..i - 1] == o[..i - 1];
    } else {
      assert o'[..i + 1] == o'[..i] + [o'[i]];
    }
  }

  /** One step of the merge loop keeps `o[..i]` equal to the merge of the
      squares read so far, and leaves the squares not yet read alone. */
  lemma MergeLoopStep(s: seq<Square>, j: nat, o: seq<Square>, o': seq<Square>, i: nat, i': nat)
    requires 1 <= i <= j < |s| == |o| == |o'|
    requires o[..i] == Merged(s[..j]) && forall q :: j <= q < |o| ==> o[q] == s[q]
    requires MergedOne(o, o', i, j, i')
    ensures 1 <= i' <= j + 1 && o'[..i'] == Merged(s[..j + 1])
    ensures forall q :: j + 1 <= q < |o'| ==> o'[q] == s[q]
  {
    var m, m' := MergedGrow(s, j);
    assert |m| == i && o[j] == s[j];
    assert o[..i] == m;
    assert MergedOne(o, o', i, j, i');
    assert m[|m| - 1].x == s[j].x && m[|m| - 1].y == s[j].y ==>
      m' == m[..|m| - 1] + [m[|m| - 1].(value := m[|m| - 1].value + s[j].value)];
    assert !(m[|m| - 1].x == s[j].x && m[|m| - 1].y == s[j].y) ==> m' == m + [s[j]];
    MergeAdvance(o, o', i, j, i', m, m', s[j]);
  }

  /** `MergedStep` for the prefixes `s[..j]` and `s[..j + 1]`. */
  lemma MergedGrow(s: seq<Square>, j: nat) returns (m: seq<Square>, m': seq<Square>)
    requires 1 <= j < |s|
    ensures m == Merged(s[..j]) && m' == Merged(s[..j + 1]) && |m| >= 1
    ensures m[|m| - 1].x == s[j].x && m[|m| - 1].y == s[j].y ==>
      m' == m[..|m| - 1] + [m[|m| - 1].(value := m[|m| - 1].value + s[j].value)]
    ensures !(m[|m| - 1].x == s[j].x && m[|m| - 1].y == s[j].y) ==> m' == m + [s[j]]
  {
    var t := s[..j + 1];
    assert t[..|t| - 1] == s[..j];
    var b, n;
    m, b, n := MergedStep(t);
    m' := Merged(t);
  }

  /** One step of the merge loop: `out[j]` joins `out[i - 1]` when they
      share a position and is kept at `out[i]` otherwise. */
  method MergeOne(out: array<Square>, i: nat, j: nat) returns (i': nat)
    requires 1 <= i <= j < out.Length
    modifies out
    ensures MergedOne(old(out[..]), out[..], i, j, i')
  {
    var b := out[j];
    if out[i - 1].x == b.x && out[i - 1].y == b.y {
      out[i - 1] := out[i - 1].(value := out[i - 1].value + b.value);
      i' := i;
    } else {
      out[i] := b;
      i' := i + 1;
    }
  }

  /** The copy into `out2`. */
  method CopyPrefix(out: array<Square>, n: nat) returns (out2: array<Square>)
    requires n <= out.Length
    ensures fresh(out2) && out2[..] == out[..n]
  {
    out2 := new Square[n](_ => Square(0, 0, 0, 0.0));
    for j := 0 to n
      invariant out2[..j] == out[..j]
    {
      out2[j] := out[j];
    }
  }

  /** `TargetSquare.convolution(in1, in2)`. */
  method Convolution(in1: array<Square>, in2: array<Square>) returns (r: Result<array<Square>>)
    ensures r.Ok? <==> Convolve(in1[..], in2[..]).Ok?
    ensures r.Err? ==> Convolve(in1[..], in2[..]) == Err(r.error)
    ensures r.Ok? ==> fresh(r.value) && Convolve(in1[..], in2[..]) == Ok(r.value[..])
  {
    var out := FillPairs(in1, in2);
    SortInPlace(out);
    if out.Length == 0 {
      Empty(in1[..], in2[..]);
      return Err(ArrayIndex);
    }
    NonEmptyInputs(in1[..], in2[..]);
    ghost var sorted := out[..];
    var i := MergeRuns(out);
    assert Convolve(in1[..], in2[..]) == Ok(Merged(sorted)) == Ok(out[..i]);
    if i == out.Length {
      assert out[..] == out[..i];
      return Ok(out);
    }
    var out2 := CopyPrefix(out, i);
    return Ok(out2);
  }

  lemma NonEmptyInputs(a: seq<Square>, b: seq<Square>)
    requires |Pairs(a, b)| >= 1
    ensures a != [] && b != []
  {
    PairsLength(a, b);
  }

  lemma Empty(a: seq<Square>, b: seq<Square>)
    requires |Pairs(a, b)| == 0
    ensures a == [] || b == []
  {
    PairsLength(a, b);
  }
}
