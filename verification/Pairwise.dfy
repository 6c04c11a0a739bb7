/**
 `hand_pairwise`: a binary counter of completed blocks.  Addition is any binary
 operation, with no law assumed, so what is proved is the shape of the tree.
 */
module Pairwise {
  import opened Wrappers

  // ----- the specification: combine adjacent pairs until one value is left -----

  function PairUp<T>(f: (T, T) -> T, v: seq<T>): (r: seq<T>)
    ensures |r| == (|v| + 1) / 2
  {
    if |v| < 2 then v else [f(v[0], v[1])] + PairUp(f, v[2..])
  }

  function Tree<T>(f: (T, T) -> T, v: seq<T>): T
    requires |v| > 0
    decreases |v|
  {
    if |v| == 1 then v[0] else Tree(f, PairUp(f, v))
  }

  // ----- the counter -----

  /** One entry a level: the sum of a completed block of `2^level` leaves, if there is one. */
  type Counter<T> = seq<Option<T>>

  /** Adds a leaf, carrying through the full levels. */
  function Push<T>(f: (T, T) -> T, c: Counter<T>, leaf: T): (r: Counter<T>)
    ensures |r| == |c|
  {
    if |c| == 0 then []
    else match c[0]
      case None => [Some(leaf)] + c[1..]
      case Some(sum) => [None] + Push(f, c[1..], f(sum, leaf))
  }

  function Join<T>(f: (T, T) -> T, sum: Option<T>, total: Option<T>): Option<T>
  {
    if sum.None? then total
    else if total.None? then sum
    else Some(f(sum.value, total.value))
  }

  /** Folds the partial blocks from the smallest up. */
  function Total<T>(f: (T, T) -> T, c: Counter<T>, total: Option<T>): Option<T>
  {
    if |c| == 0 then total else Total(f, c[1..], Join(f, c[0], total))
  }

  function Empty<T>(levels: nat): (c: Counter<T>)
    ensures |c| == levels
  {
    seq(levels, _ => None)
  }

  /** The counter of `levels` levels after every leaf of `v`. */
  function Count<T>(f: (T, T) -> T, v: seq<T>, levels: nat): (c: Counter<T>)
    ensures |c| == levels
  {
    if |v| == 0 then Empty(levels) else Push(f, Count(f, v[..|v| - 1], levels), v[|v| - 1])
  }

  function Pow2(n: nat): (p: nat)
    ensures p > 0
  {
    if n == 0 then 1 else 2 * Pow2(n - 1)
  }

  // ----- why the counter builds the tree -----

  /** The complete pairs of `v`, and the leaf left over when its length is odd. */
  function Pairs<T>(f: (T, T) -> T, v: seq<T>): (r: seq<T>)
    ensures |r| == |v| / 2
  {
    if |v| < 2 then [] else [f(v[0], v[1])] + Pairs(f, v[2..])
  }

  function Odd<T>(v: seq<T>): Option<T>
  {
    if |v| % 2 == 1 then Some(v[|v| - 1]) else None
  }

  function AsSeq<T>(o: Option<T>): seq<T> { if o.Some? then [o.value] else [] }

  lemma {:induction false} PairsSnoc<T>(f: (T, T) -> T, v: seq<T>, x: T)
    ensures Pairs(f, v + [x]) == if |v| % 2 == 0 then Pairs(f, v) else Pairs(f, v) + [f(v[|v| - 1], x)]
  {
    if |v| >= 2 {
      PairsSnoc(f, v[2..], x);
      assert (v + [x])[2..] == v[2..] + [x];
    }
  }

  lemma {:induction false} PairUpSplits<T>(f: (T, T) -> T, v: seq<T>)
    ensures PairUp(f, v) == Pairs(f, v) + AsSeq(Odd(v))
  {
    if |v| >= 2 {
      PairUpSplits(f, v[2..]);
    }
  }

  lemma PushCons<T>(f: (T, T) -> T, low: Option<T>, rest: Counter<T>, leaf: T)
    ensures Push(f, [low] + rest, leaf) ==
              if low.None? then [Some(leaf)] + rest else [None] + Push(f, rest, f(low.value, leaf))
  {
    assert ([low] + rest)[1..] == rest;
  }

  /** The lowest level holds the odd leaf; the levels above count the pairs. */
  lemma {:induction false} CountSplits<T>(f: (T, T) -> T, v: seq<T>, levels: nat)
    requires levels > 0
    ensures Count(f, v, levels) == [Odd(v)] + Count(f, Pairs(f, v), levels - 1)
  {
    if |v| == 0 {
      assert Empty<T>(levels) == [None] + Empty<T>(levels - 1);
    } else {
      var u, x := v[..|v| - 1], v[|v| - 1];
      CountSplits(f, u, levels);
      assert v == u + [x];
      CountSplitsSnoc(f, u, x, levels);
    }
  }

  lemma {:induction false} CountSplitsSnoc<T>(f: (T, T) -> T, u: seq<T>, x: T, levels: nat)
    requires levels > 0 && Count(f, u, levels) == [Odd(u)] + Count(f, Pairs(f, u), levels - 1)
    ensures Count(f, u + [x], levels) == [Odd(u + [x])] + Count(f, Pairs(f, u + [x]), levels - 1)
  {
    var pairs := Pairs(f, u);
    var rest := Count(f, pairs, levels - 1);
    var counted := Count(f, u + [x], levels);
    assert counted == Push(f, [Odd(u)] + rest, x) by {
      CountSnoc(f, u, x, levels);
    }
    PushCons(f, Odd(u), rest, x);
    OddSnoc(u, x);
    PairsSnoc(f, u, x);
    if |u| % 2 == 0 {
      assert counted == [Some(x)] + rest;
    } else {
      var pair := f(u[|u| - 1], x);
      assert counted == [None] + Push(f, rest, pair);
      CountSnoc(f, pairs, pair, levels - 1);
    }
  }

  lemma OddSnoc<T>(u: seq<T>, x: T)
    ensures Odd(u + [x]) == if |u| % 2 == 0 then Some(x) else None
    ensures Odd(u) == if |u| % 2 == 0 then None else Some(u[|u| - 1])
  {
  }

  lemma {:induction false} CountSnoc<T>(f: (T, T) -> T, v: seq<T>, x: T, levels: nat)
    ensures Count(f, v + [x], levels) == Push(f, Count(f, v, levels), x)
  {
    assert (v + [x])[..|v|] == v;
  }

  lemma {:induction false} EmptyTotal<T>(f: (T, T) -> T, levels: nat, total: Option<T>)
    ensures Total(f, Empty(levels), total) == total
  {
    if levels > 0 {
      assert Empty<T>(levels)[1..] == Empty<T>(levels - 1);
      EmptyTotal(f, levels - 1, total);
    }
  }

  /** Folding the counter gives the tree over the leaves and what was folded below. */
  lemma {:induction false} TotalIsTree<T>(f: (T, T) -> T, v: seq<T>, levels: nat, total: Option<T>)
    requires |v| < Pow2(levels) && (|v| > 0 || total.Some?)
    ensures Total(f, Count(f, v, levels), total) == Some(Tree(f, v + AsSeq(total)))
    decreases levels
  {
    var w := v + AsSeq(total);
    if |v| == 0 {
      EmptyTotal(f, levels, total);
    } else {
      CountSplits(f, v, levels);
      var above := Join(f, Odd(v), total);
      assert PairUp(f, w) == Pairs(f, v) + AsSeq(above) by {
        PairUpSplits(f, w);
        if total.Some? {
          PairsSnoc(f, v, total.value);
          assert Odd(w) == if |v| % 2 == 0 then total else None;
        } else {
          assert w == v;
        }
      }
      TotalIsTree(f, Pairs(f, v), levels - 1, above);
    }
  }

  /** Fewer than `2^levels - 1` leaves leave a level free, so a push never runs past the top. */
  lemma {:induction false} CountHasRoom<T>(f: (T, T) -> T, v: seq<T>, levels: nat)
    requires |v| + 1 < Pow2(levels)
    ensures exists i :: 0 <= i < levels && Count(f, v, levels)[i].None?
    decreases levels
  {
    CountSplits(f, v, levels);
    var c := Count(f, v, levels);
    if |v| % 2 == 0 {
      assert c[0].None?;
    } else {
      CountHasRoom(f, Pairs(f, v), levels - 1);
      var i :| 0 <= i < levels - 1 && Count(f, Pairs(f, v), levels - 1)[i].None?;
      assert c[i + 1].None?;
    }
  }

  // ----- the arrays -----

  /** The counter the two arrays hold. */
  function View<T>(sum: seq<T>, full: seq<bool>): (c: Counter<T>)
    requires |sum| == |full|
    ensures |c| == |sum|
  {
    seq(|sum|, i requires 0 <= i < |sum| => if full[i] then Some(sum[i]) else None)
  }

  /** A push towards `goal` that has carried through `level` full levels and holds `leaf`. */
  ghost predicate Carrying<T>(f: (T, T) -> T, goal: Counter<T>, c: Counter<T>, level: nat, leaf: T)
    requires level <= |c| == |goal|
  {
    (forall i :: 0 <= i < level ==> goal[i].None?) && goal[level..] == Push(f, c[level..], leaf)
  }

  lemma CarryOn<T>(f: (T, T) -> T, goal: Counter<T>, c: Counter<T>, level: nat, leaf: T)
    requires level < |c| == |goal| && c[level].Some? && Carrying(f, goal, c, level, leaf)
    ensures Carrying(f, goal, c, level + 1, f(c[level].value, leaf))
  {
    var rest := Push(f, c[level + 1..], f(c[level].value, leaf));
    assert c[level..] == [c[level]] + c[level + 1..];
    PushCons(f, c[level], c[level + 1..], leaf);
    assert goal[level..] == [None] + rest;
    assert goal[level] == goal[level..][0];
    assert goal[level + 1..] == goal[level..][1..] == rest;
  }

  lemma CarryEnds<T>(f: (T, T) -> T, goal: Counter<T>, c: Counter<T>, level: nat, leaf: T)
    requires level < |c| == |goal| && c[level].None? && Carrying(f, goal, c, level, leaf)
    ensures goal[level] == Some(leaf) && (forall i :: 0 <= i < level ==> goal[i].None?)
    ensures forall i :: level < i < |c| ==> goal[i] == c[i]
  {
    assert c[level..] == [c[level]] + c[level + 1..];
    PushCons(f, c[level], c[level + 1..], leaf);
    assert goal[level..] == [Some(leaf)] + c[level + 1..];
    SuffixTells(goal, c, level, Some(leaf));
  }

  lemma SuffixTells<T>(a: seq<T>, b: seq<T>, level: nat, x: T)
    requires level < |a| == |b| && a[level..] == [x] + b[level + 1..]
    ensures a[level] == x && forall i :: level < i < |a| ==> a[i] == b[i]
  {
    assert a[level] == a[level..][0];
    forall i | level < i < |a| ensures a[i] == b[i] {
      assert a[i] == a[level..][i - level];
      assert b[i] == b[level + 1..][i - level - 1];
    }
  }

  method HandPairwisePush<T>(f: (T, T) -> T, sum: array<T>, full: array<bool>, start: T)
    requires sum.Length == full.Length && sum as object != full
    requires exists i :: 0 <= i < full.Length && !full[i]
    modifies sum, full
    ensures View(sum[..], full[..]) == Push(f, old(View(sum[..], full[..])), start)
  {
    ghost var c := View(sum[..], full[..]);
    ghost var goal := Push(f, c, start);
    ghost var free :| 0 <= free < full.Length && !full[free];
    var level, leaf := 0, start;
    assert Carrying(f, goal, c, 0, start) by { assert c[0..] == c && goal[0..] == goal; }
    while full[level]
      invariant level <= free && !full[free]
      invariant sum[..] == old(sum[..])
      invariant forall i :: 0 <= i < level ==> !full[i]
      invariant forall i :: level <= i < full.Length ==> full[i] == old(full[i])
      invariant Carrying(f, goal, c, level, leaf)
      decreases full.Length - level
    {
      assert c[level] == Some(sum[level]);
      CarryOn(f, goal, c, level, leaf);
      leaf := f(sum[level], leaf);
      full[level] := false;
      level := level + 1;
    }
    assert c[level] == None;
    CarryEnds(f, goal, c, level, leaf);
    sum[level] := leaf;
    full[level] := true;
    ghost var after := View(sum[..], full[..]);
    forall i | 0 <= i < |c| ensures after[i] == goal[i] {
    }
  }

  // ----- the tree, said without its rounds -----

  lemma {:induction false} PairUpAppends<T>(f: (T, T) -> T, u: seq<T>, v: seq<T>)
    requires |u| % 2 == 0
    ensures PairUp(f, u + v) == PairUp(f, u) + PairUp(f, v)
  {
    if |u| == 0 {
      assert u + v == v;
    } else {
      assert (u + v)[2..] == u[2..] + v;
      PairUpAppends(f, u[2..], v);
    }
  }

  lemma {:induction false} PairUpShrinks<T>(f: (T, T) -> T, v: seq<T>)
    requires |v| > 0
    ensures Tree(f, PairUp(f, v)) == Tree(f, v)
  {
  }

  /** The leaves stay in order, and the first `2^k` of them, with `2^k` as large as can be,
      make the left operand of the root. */
  lemma {:induction false} TreeSplits<T>(f: (T, T) -> T, v: seq<T>, k: nat)
    requires Pow2(k) < |v| <= 2 * Pow2(k)
    ensures Tree(f, v) == f(Tree(f, v[..Pow2(k)]), Tree(f, v[Pow2(k)..]))
    decreases k
  {
    var n := Pow2(k);
    if k == 0 {
      assert v[2..] == [];
      assert PairUp(f, v) == [f(v[0], v[1])];
    } else {
      var left, right := v[..n], v[n..];
      assert v == left + right;
      PairUpAppends(f, left, right);
      var half := Pow2(k - 1);
      var pairs := PairUp(f, v);
      TreeSplits(f, pairs, k - 1);
      assert pairs[..half] == PairUp(f, left) && pairs[half..] == PairUp(f, right);
      PairUpShrinks(f, left);
      PairUpShrinks(f, right);
    }
  }

  const LEVELS := 65

  function Products<A, T>(mul: (A, A) -> T, left: seq<A>, right: seq<A>): (r: seq<T>)
    requires |left| == |right|
    ensures |r| == |left|
  {
    seq(|left|, i requires 0 <= i < |left| => mul(left[i], right[i]))
  }

  lemma Pow2Of32()
    ensures Pow2(32) == 0x1_0000_0000
  {
    assert Pow2(4) == 16;
    Pow2Adds(4, 4);
    Pow2Adds(8, 8);
    Pow2Adds(16, 16);
  }

  lemma Pow2Of65()
    ensures Pow2(LEVELS) == 0x2_0000_0000_0000_0000
  {
    Pow2Of32();
    Pow2Adds(32, 32);
  }

  lemma {:induction false} Pow2Adds(m: nat, n: nat)
    ensures Pow2(m + n) == Pow2(m) * Pow2(n)
  {
    if n > 0 {
      Pow2Adds(m, n - 1);
    }
  }

  /** The adjacent-pair tree whose first leaf is the seed, for every 64-bit count. */
  method HandPairwise<A, T>(f: (T, T) -> T, mul: (A, A) -> T, zero: T, left: seq<A>, right: seq<A>)
    returns (total: T)
    requires |left| == |right| < 0x1_0000_0000_0000_0000
    ensures total == Tree(f, [zero] + Products(mul, left, right))
  {
    var count := |left|;
    ghost var leaves := [zero] + Products(mul, left, right);
    var sum, full := new T[LEVELS](_ => zero), new bool[LEVELS](_ => false);
    Pow2Of65();
    assert View(sum[..], full[..]) == Count(f, leaves[..0], LEVELS);
    PushLeaf(f, sum, full, leaves, 0, zero);
    var i := 0;
    while i + 4 <= count
      invariant i <= count && View(sum[..], full[..]) == Count(f, leaves[..i + 1], LEVELS)
    {
      PushFour(f, sum, full, leaves, i + 1, mul(left[i], right[i]), mul(left[i + 1], right[i + 1]),
               mul(left[i + 2], right[i + 2]), mul(left[i + 3], right[i + 3]));
      i := i + 4;
    }
    while i < count
      invariant i <= count && View(sum[..], full[..]) == Count(f, leaves[..i + 1], LEVELS)
    {
      PushLeaf(f, sum, full, leaves, i + 1, mul(left[i], right[i]));
      i := i + 1;
    }
    assert leaves[..i + 1] == leaves;
    total := FoldTree(f, sum, full, zero, leaves);
  }

  /** The fold of a counter that has taken every leaf is their tree. */
  method FoldTree<T>(f: (T, T) -> T, sum: array<T>, full: array<bool>, zero: T, ghost leaves: seq<T>) returns (total: T)
    requires sum.Length == full.Length == LEVELS && 0 < |leaves| <= 0x1_0000_0000_0000_0000
    requires View(sum[..], full[..]) == Count(f, leaves, LEVELS)
    ensures total == Tree(f, leaves)
  {
    Pow2Of65();
    total := Fold(f, sum, full, zero);
    TotalIsTree(f, leaves, LEVELS, None);
    assert leaves + AsSeq<T>(None) == leaves;
  }

  /** The four products of one vector, in lane order. */
  method PushFour<T>(f: (T, T) -> T, sum: array<T>, full: array<bool>, ghost leaves: seq<T>, ghost n: nat, a: T, b: T, c: T, d: T)
    requires sum.Length == full.Length == LEVELS && sum as object != full
    requires n + 4 <= |leaves| <= 0x1_0000_0000_0000_0000
    requires a == leaves[n] && b == leaves[n + 1] && c == leaves[n + 2] && d == leaves[n + 3]
    requires View(sum[..], full[..]) == Count(f, leaves[..n], LEVELS)
    modifies sum, full
    ensures View(sum[..], full[..]) == Count(f, leaves[..n + 4], LEVELS)
  {
    PushLeaf(f, sum, full, leaves, n, a);
    PushLeaf(f, sum, full, leaves, n + 1, b);
    PushLeaf(f, sum, full, leaves, n + 2, c);
    PushLeaf(f, sum, full, leaves, n + 3, d);
  }

  /** The partial blocks, from the smallest up; `zero` when there are none. */
  method Fold<T>(f: (T, T) -> T, sum: array<T>, full: array<bool>, zero: T) returns (total: T)
    requires sum.Length == full.Length
    ensures var t := Total(f, View(sum[..], full[..]), None); total == if t.Some? then t.value else zero
  {
    ghost var c := View(sum[..], full[..]);
    total := zero;
    var started := false;
    for level := 0 to full.Length
      invariant Total(f, c, None) == Total(f, c[level..], if started then Some(total) else None)
      invariant !started ==> total == zero
    {
      assert c[level..][1..] == c[level + 1..];
      if full[level] {
        total := if started then f(sum[level], total) else sum[level];
        started := true;
      }
    }
  }

  /** One push of the next leaf, which always finds a free level. */
  method PushLeaf<T>(f: (T, T) -> T, sum: array<T>, full: array<bool>, ghost leaves: seq<T>, ghost n: nat, leaf: T)
    requires sum.Length == full.Length == LEVELS && sum as object != full
    requires n < |leaves| <= 0x1_0000_0000_0000_0000 && leaf == leaves[n]
    requires View(sum[..], full[..]) == Count(f, leaves[..n], LEVELS)
    modifies sum, full
    ensures View(sum[..], full[..]) == Count(f, leaves[..n + 1], LEVELS)
  {
    Pow2Of65();
    CountHasRoom(f, leaves[..n], LEVELS);
    ghost var k :| 0 <= k < LEVELS && View(sum[..], full[..])[k].None?;
    assert !full[k];
    HandPairwisePush(f, sum, full, leaf);
    assert leaves[..n + 1][..n] == leaves[..n];
  }
}
