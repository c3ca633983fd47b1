/**
 * The reductions over standard arrays: coll/tst_coll_allreduce_max.c, _min.c and _sum.c,
 * one-sided/tst_accumulate_with_fence_sum.c and coll/tst_coll_scan_sum.c.
 *
 * MPI may combine the contributions in any order and grouping; a reduction is therefore an
 * arbitrary tree over the ranks.  Sums are those of the machine: each partial sum is stored in the
 * type, where an integer wraps around and a floating number is rounded.
 */
module Reductions {
  import opened Buffers
  import opened Oracle
  import opened Products

  /** Element i of the standard array of a rank, as a number. */
  function StandardValue(f: Field, i: nat, rank: nat): real { FieldValue(f, SettingAt(i, rank)) }

  /** The numbers of a standard array: the least, the greatest, and the rank plus the index as far as the type holds it. */
  lemma StandardNumbers(f: Field, i: nat, rank: nat)
    requires IsType(f)
    ensures i == 0 ==> StandardValue(f, i, rank) == if f.number.Integer? then f.number.lo as real else f.number.min
    ensures i == 1 ==> StandardValue(f, i, rank) == if f.number.Integer? then f.number.hi as real else f.number.max
    ensures i >= 2 && rank + i <= Exact(f) ==> StandardValue(f, i, rank) == (rank + i) as real
    ensures i >= 2 && f.number.Integer? && rank + i > f.number.hi ==> StandardValue(f, i, rank) == f.number.hi as real
  {
    if f.number.Floating? { FloatingSettings(f, rank + i); } else { IntegerSettings(f, 0.0, rank + i); }
  }

  function StandardValues(f: Field, n: nat, rank: nat): (v: seq<real>)
    ensures |v| == n
  {
    seq(n, i requires 0 <= i < n => StandardValue(f, i, rank))
  }

  /** How a collective or the accumulates at a target combine the contributions. */
  datatype Tree = Leaf(rank: nat) | Node(left: Tree, right: Tree)
  {
    function Leaves(): (ranks: seq<nat>)
      ensures |ranks| > 0
    {
      match this
      case Leaf(r) => [r]
      case Node(l, r) => l.Leaves() + r.Leaves()
    }
  }

  datatype Op = MaxOp | MinOp | SumOp

  function Combine(f: Field, op: Op, a: real, b: real): real {
    match op
    case MaxOp => if a < b then b else a
    case MinOp => if a < b then a else b
    case SumOp => Stored(f, a + b)
  }

  /** The reduction of what `send` says each rank contributes. */
  function Reduce(f: Field, op: Op, t: Tree, send: nat -> real): real {
    match t
    case Leaf(r) => send(r)
    case Node(l, r) => Combine(f, op, Reduce(f, op, l, send), Reduce(f, op, r, send))
  }

  function Contribution(f: Field, i: nat): nat -> real { (r: nat) => StandardValue(f, i, r) }

  /** 0, 1, ..., n-1 */
  function Ranks(n: nat): (r: seq<nat>)
    ensures |r| == n && forall i :: 0 <= i < n ==> r[i] == i
  {
    seq(n, (i: int) requires 0 <= i < n => i as nat)
  }

  /** Every rank below n contributes, exactly once. */
  predicate CoversRanks(t: Tree, n: nat) { multiset(t.Leaves()) == multiset(Ranks(n)) }

  lemma CoversAll(t: Tree, n: nat)
    requires CoversRanks(t, n)
    ensures forall r: nat :: r in t.Leaves() <==> r < n
    ensures n > 0
  {
    forall r: nat ensures r in t.Leaves() <==> r < n {
      assert r in t.Leaves() <==> r in multiset(t.Leaves());
      assert r in Ranks(n) <==> r in multiset(Ranks(n));
      if r < n { assert Ranks(n)[r] == r; }
    }
    assert t.Leaves()[0] in t.Leaves();
  }

  // ---------------------------------------------------------------------------------------
  // MAX and MIN
  // ---------------------------------------------------------------------------------------

  /** Standard arrays grow with the rank, element by element. */
  lemma Monotone(f: Field, i: nat, a: nat, b: nat)
    requires IsType(f) && a <= b
    ensures StandardValue(f, i, a) <= StandardValue(f, i, b)
  {
    if f.number.Floating? {
      assert Round(f.number, RealAsked(f, SettingAt(i, a))) <= Round(f.number, RealAsked(f, SettingAt(i, b)));
    }
  }

  ghost predicate Grows(f: Field) {
    forall i: nat, a: nat, b: nat :: a <= b ==> StandardValue(f, i, a) <= StandardValue(f, i, b)
  }

  lemma TypesGrow(f: Field)
    requires IsType(f)
    ensures Grows(f)
  {
    forall i: nat, a: nat, b: nat | a <= b ensures StandardValue(f, i, a) <= StandardValue(f, i, b) {
      Monotone(f, i, a, b);
    }
  }

  /** m is the largest (for MAX) or smallest (for MIN) rank in the tree. */
  ghost predicate IsExtreme(op: Op, t: Tree, m: nat) {
    m in t.Leaves() && forall r :: r in t.Leaves() ==> if op.MaxOp? then r <= m else m <= r
  }

  lemma {:induction false} Extreme(op: Op, t: Tree) returns (m: nat)
    requires op != SumOp
    ensures IsExtreme(op, t, m)
  {
    match t
    case Leaf(r) => m := r;
    case Node(l, r) =>
      var a := Extreme(op, l);
      var b := Extreme(op, r);
      m := if op.MaxOp? == (a < b) then b else a;
  }

  /** The extreme rank of a tree decides its reduction. */
  lemma {:induction false} ExtremeRank(op: Op, t: Tree, f: Field, i: nat, m: nat)
    requires Grows(f) && op != SumOp
    requires IsExtreme(op, t, m)
    ensures Reduce(f, op, t, Contribution(f, i)) == StandardValue(f, i, m)
  {
    match t
    case Leaf(_) =>
    case Node(l, r) =>
      var ml := Extreme(op, l);
      var mr := Extreme(op, r);
      ExtremeRank(op, l, f, i, ml);
      ExtremeRank(op, r, f, i, mr);
      assert ml in t.Leaves() && mr in t.Leaves();
      assert m == if op.MaxOp? == (ml < mr) then mr else ml by {
        if m in l.Leaves() { assert m == ml; } else { assert m in r.Leaves() && m == mr; }
      }
      assert StandardValue(f, i, if ml < mr then ml else mr) <= StandardValue(f, i, if ml < mr then mr else ml);
  }

  lemma AllExtremes(t: Tree, n: nat)
    requires n > 0 && forall r: nat :: r in t.Leaves() <==> r < n
    ensures IsExtreme(MaxOp, t, n - 1) && IsExtreme(MinOp, t, 0)
  {
  }

  /** MAX over all ranks is the standard array of the last rank, MIN that of rank 0. */
  lemma MaxMinOfAll(t: Tree, n: nat, f: Field, i: nat)
    requires IsType(f) && CoversRanks(t, n)
    ensures n > 0
    ensures Reduce(f, MaxOp, t, Contribution(f, i)) == StandardValue(f, i, n - 1)
    ensures Reduce(f, MinOp, t, Contribution(f, i)) == StandardValue(f, i, 0)
  {
    CoversAll(t, n);
    TypesGrow(f);
    AllExtremes(t, n);
    ExtremeRank(MaxOp, t, f, i, n - 1);
    ExtremeRank(MinOp, t, f, i, 0);
  }

  // ---------------------------------------------------------------------------------------
  // From numbers to buffers
  // ---------------------------------------------------------------------------------------

  /** An element of a one-field type that holds v, its gaps filled. */
  function EncodedElement(l: Layout, v: real): (e: seq<Byte>)
    requires |l.fields| == 1
    ensures |e| == l.size
  {
    var f := l.fields[0];
    seq(l.size, k requires 0 <= k < l.size => if Covers(f, k) then NumberBytes(f, v)[k - f.offset] else DEFAULT_INIT_BYTE)
  }

  /** Element i of b holds the number v; of long double, with anything in its gaps. */
  predicate Has(l: Layout, b: seq<Byte>, i: nat, v: real)
    requires |l.fields| == 1
  {
    var f, x := l.fields[0], Part(b, i, l.size);
    if l.byValue then
      |x| == l.size && f.offset + f.width <= l.size && x[f.offset..f.offset + f.width] == NumberBytes(f, v)
    else x == EncodedElement(l, v)
  }

  /** The buffer of the numbers vs. */
  function Encoded(l: Layout, vs: seq<real>): (b: seq<Byte>)
    requires |l.fields| == 1
    ensures |b| == |vs| * l.size
  {
    if vs == [] then [] else
      var n := |vs| - 1;
      Distributes(n, 1, l.size);
      Encoded(l, vs[..n]) + EncodedElement(l, vs[n])
  }

  /** A set element holds the number the setting asks for. */
  lemma ElementHas(l: Layout, s: Setting)
    requires IsScalar(l)
    ensures Element(l, s) == EncodedElement(l, FieldValue(l.fields[0], s))
  {
    var f := l.fields[0];
    SettingFits(f, s);
    forall k | 0 <= k < l.size ensures Element(l, s)[k] == EncodedElement(l, FieldValue(f, s))[k] {
      if Covers(f, k) {
        FieldByte(l.fields, s, 0, k);
      } else {
        assert IsGap(l.fields, k);
        GapByte(l.fields, s, k);
      }
    }
  }

  lemma EncodedSlice(l: Layout, v: real)
    requires IsScalar(l)
    ensures var f := l.fields[0];
      f.offset + f.width <= l.size && EncodedElement(l, v)[f.offset..f.offset + f.width] == NumberBytes(f, v)
  {
    var f := l.fields[0];
    assert FieldFits(l, f);
    forall k | 0 <= k < f.width ensures EncodedElement(l, v)[f.offset + k] == NumberBytes(f, v)[k] {
      assert Covers(f, f.offset + k);
    }
  }

  /** Elements that hold numbers of the type are the same exactly when the numbers are, byte for byte and by value. */
  lemma EncodedSame(l: Layout, u: real, v: real)
    requires IsScalar(l) && Fits(l.fields[0], u) && Fits(l.fields[0], v)
    ensures EncodedElement(l, u) == EncodedElement(l, v) <==> u == v
    ensures Same(l, EncodedElement(l, u), EncodedElement(l, v)) <==> u == v
  {
    EncodedSlice(l, u);
    EncodedSlice(l, v);
    NumberBytesInjective(l.fields[0], u, v);
  }

  /** The comparison with what a setting leaves tells exactly whether the number is right. */
  lemma ElementMatches(l: Layout, b: seq<Byte>, i: nat, v: real, s: Setting)
    requires IsScalar(l) && Fits(l.fields[0], v) && Has(l, b, i, v)
    ensures EncodedElement(l, v) == Element(l, s) <==> v == FieldValue(l.fields[0], s)
    ensures HoldsAt(l, b, i, s) <==> v == FieldValue(l.fields[0], s)
  {
    var f := l.fields[0];
    ElementHas(l, s);
    SettingFits(f, s);
    EncodedSame(l, v, FieldValue(f, s));
    if l.byValue {
      EncodedSlice(l, v);
      EncodedSlice(l, FieldValue(f, s));
    }
  }

  lemma LastPieces<T>(a: seq<T>, x: seq<T>, b: seq<T>, y: seq<T>)
    requires |a| == |b| && |x| == |y|
    ensures a + x == b + y <==> a == b && x == y
  {
    if a + x == b + y {
      assert a == (a + x)[..|a|] && b == (b + y)[..|b|];
      assert x == (a + x)[|a|..] && y == (b + y)[|b|..];
    }
  }

  lemma LastMatches(l: Layout, v: real, s: Setting)
    requires IsScalar(l) && Fits(l.fields[0], v)
    ensures EncodedElement(l, v) == Element(l, s) <==> v == FieldValue(l.fields[0], s)
  {
    ElementHas(l, s);
    SettingFits(l.fields[0], s);
    EncodedSame(l, v, FieldValue(l.fields[0], s));
  }

  lemma LastValue(f: Field, vs: seq<real>, rank: nat)
    requires vs != []
    ensures var n := |vs| - 1;
      vs == StandardValues(f, n + 1, rank) <==> vs[..n] == StandardValues(f, n, rank) && vs[n] == StandardValue(f, n, rank)
  {
    var n := |vs| - 1;
    LastPieces(vs[..n], [vs[n]], StandardValues(f, n, rank), [StandardValue(f, n, rank)]);
    assert StandardValues(f, n + 1, rank) == StandardValues(f, n, rank) + [StandardValue(f, n, rank)];
    assert vs == vs[..n] + [vs[n]];
  }

  /** A buffer of numbers of the type is a standard array exactly when the numbers are. */
  lemma {:induction false} EncodedMatches(l: Layout, vs: seq<real>, rank: nat)
    requires IsScalar(l) && forall i :: 0 <= i < |vs| ==> Fits(l.fields[0], vs[i])
    ensures Encoded(l, vs) == StandardArray(l, |vs|, rank) <==> vs == StandardValues(l.fields[0], |vs|, rank)
  {
    if vs != [] {
      var n := |vs| - 1;
      EncodedMatches(l, vs[..n], rank);
      LastMatches(l, vs[n], SettingAt(n, rank));
      LastPieces(Encoded(l, vs[..n]), EncodedElement(l, vs[n]), StandardArray(l, n, rank), Element(l, SettingAt(n, rank)));
      LastValue(l.fields[0], vs, rank);
    }
  }

  /** The check of a buffer that holds numbers of the type counts no error exactly for the standard numbers. */
  lemma {:induction false} ValuesPass(l: Layout, b: seq<Byte>, vs: seq<real>, n: nat, rank: nat)
    requires IsScalar(l) && n <= |vs|
    requires forall i :: 0 <= i < n ==> Fits(l.fields[0], vs[i]) && Has(l, b, i, vs[i])
    ensures Errors(l, b, n, rank) == 0 <==> forall i :: 0 <= i < n ==> vs[i] == StandardValue(l.fields[0], i, rank)
  {
    if n > 0 {
      ValuesPass(l, b, vs, n - 1, rank);
      ElementMatches(l, b, n - 1, vs[n - 1], SettingAt(n - 1, rank));
    }
  }

  /** The check of the MAX test expects rank comm_size - 1, that of the MIN test rank 0: correct reductions pass. */
  lemma AllreducePasses(l: Layout, b: seq<Byte>, n: nat, op: Op, t: Tree, ranks: nat)
    requires IsScalar(l) && CoversRanks(t, ranks) && op != SumOp
    requires forall i :: 0 <= i < n ==> Has(l, b, i, Reduce(l.fields[0], op, t, Contribution(l.fields[0], i)))
    ensures ranks > 0 && Errors(l, b, n, if op.MaxOp? then ranks - 1 else 0) == 0
  {
    CoversAll(t, ranks);
    var f, rank := l.fields[0], if op.MaxOp? then ranks - 1 else 0;
    var vs := StandardValues(f, n, rank);
    forall i | 0 <= i < n ensures Fits(f, vs[i]) && Has(l, b, i, vs[i]) {
      MaxMinOfAll(t, ranks, f, i);
      SettingFits(f, SettingAt(i, rank));
    }
    ValuesPass(l, b, vs, n, rank);
  }

  // ---------------------------------------------------------------------------------------
  // SUM
  // ---------------------------------------------------------------------------------------

  /** The sum of the contributions at index i, each clamped to cap. */
  function Total(xs: seq<nat>, i: nat, cap: int): int
  {
    if xs == [] then 0 else (if xs[0] + i > cap then cap else xs[0] + i) + Total(xs[1..], i, cap)
  }

  lemma {:induction false} TotalConcat(xs: seq<nat>, ys: seq<nat>, i: nat, cap: int)
    ensures Total(xs + ys, i, cap) == Total(xs, i, cap) + Total(ys, i, cap)
  {
    if xs == [] {
      assert xs + ys == ys;
    } else {
      assert (xs + ys)[1..] == xs[1..] + ys;
      TotalConcat(xs[1..], ys, i, cap);
    }
  }

  /** One contribution and the others. */
  lemma TotalWithout(ys: seq<nat>, k: nat, i: nat, cap: int)
    requires k < |ys|
    ensures Total(ys, i, cap) == (if ys[k] + i > cap then cap else ys[k] + i) + Total(ys[..k] + ys[k + 1..], i, cap)
  {
    assert ys == ys[..k] + ([ys[k]] + ys[k + 1..]);
    TotalConcat(ys[..k], ys[k + 1..], i, cap);
    TotalConcat(ys[..k], [ys[k]] + ys[k + 1..], i, cap);
    assert ([ys[k]] + ys[k + 1..])[1..] == ys[k + 1..];
  }

  lemma Without<T>(xs: seq<T>, ys: seq<T>) returns (k: nat)
    requires xs != [] && multiset(xs) == multiset(ys)
    ensures k < |ys| && ys[k] == xs[0] && multiset(xs[1..]) == multiset(ys[..k] + ys[k + 1..])
  {
    assert xs[0] in multiset(ys);
    k :| 0 <= k < |ys| && ys[k] == xs[0];
    assert xs == [xs[0]] + xs[1..];
    assert ys == ys[..k] + ([ys[k]] + ys[k + 1..]);
    assert multiset(ys[..k] + ys[k + 1..]) == multiset(ys) - multiset{xs[0]} == multiset(xs[1..]);
  }

  /** The total does not depend on the order. */
  lemma {:induction false} TotalOrder(xs: seq<nat>, ys: seq<nat>, i: nat, cap: int)
    requires multiset(xs) == multiset(ys)
    ensures Total(xs, i, cap) == Total(ys, i, cap)
  {
    if xs == [] {
      assert |ys| == |multiset(ys)| == 0;
    } else {
      var k := Without(xs, ys);
      TotalOrder(xs[1..], ys[..k] + ys[k + 1..], i, cap);
      TotalWithout(ys, k, i, cap);
    }
  }

  lemma TotalSnoc(n: nat, i: nat, cap: int)
    ensures Total(Ranks(n + 1), i, cap) == Total(Ranks(n), i, cap) + if n + i > cap then cap else n + i
  {
    assert Ranks(n + 1) == Ranks(n) + [n];
    TotalConcat(Ranks(n), [n], i, cap);
    assert Total([n], i, cap) == (if n + i > cap then cap else n + i) + Total([], i, cap);
  }

  /** The expected sum at index i: sum + (i - 2) * comm_size with sum = (comm_size + 3) * comm_size / 2. */
  function ClosedForm(n: nat, i: nat): int { (n + 3) * n / 2 + (i - 2) * n }

  lemma ClosedFormStep(n: nat, i: nat)
    ensures ClosedForm(n + 1, i) == ClosedForm(n, i) + n + i
  {
    assert (n + 1 + 3) * (n + 1) == (n + 3) * n + 2 * (n + 2);
    assert (i - 2) * (n + 1) == (i - 2) * n + (i - 2);
  }

  lemma ClosedFormZero(i: nat)
    ensures ClosedForm(0, i) == 0
  {
  }

  /** No contribution is larger than the expected sum. */
  lemma {:induction false} ClosedFormBound(n: nat, i: nat)
    requires n > 0 && i >= 2
    ensures ClosedForm(n, i) >= n - 1 + i
  {
    ClosedFormStep(n - 1, i);
    ClosedFormZero(i);
    if n > 1 { ClosedFormBound(n - 1, i); }
  }

  lemma ClosedFormGrows(n: nat, i: nat)
    requires i > 0
    ensures ClosedForm(n, i - 1) <= ClosedForm(n, i)
  {
    assert (i - 1 - 2) * n + n == (i - 2) * n;
  }

  /** Over ranks 0 .. n-1 the total is the closed form exactly as long as no contribution is clamped. */
  lemma {:induction false} TotalOfRanks(n: nat, i: nat, cap: int)
    requires i >= 2
    ensures Total(Ranks(n), i, cap) <= ClosedForm(n, i)
    ensures Total(Ranks(n), i, cap) == ClosedForm(n, i) <==> n == 0 || n - 1 + i <= cap
  {
    if n > 0 {
      TotalOfRanks(n - 1, i, cap);
      ClosedFormStep(n - 1, i);
      TotalSnoc(n - 1, i, cap);
    } else {
      ClosedFormZero(i);
    }
  }

  /** Every partial sum is a natural that the type holds exactly. */
  predicate InRange(f: Field, t: Tree, send: nat -> real) {
    && 0.0 <= Reduce(f, SumOp, t, send) <= Exact(f) as real
    && (t.Node? ==> InRange(f, t.left, send) && InRange(f, t.right, send))
  }

  lemma ExactValue(f: Field, v: nat)
    requires IsType(f) && v <= Exact(f)
    ensures Stored(f, v as real) == v as real && FieldValue(f, SetValue(v)) == v as real
  {
    if f.number.Floating? { assert RoundNat(f.number, v) == v as real; }
  }

  predicate HoldsExactly(f: Field, v: nat) { Stored(f, v as real) == v as real && FieldValue(f, SetValue(v)) == v as real }

  ghost predicate AddsExactly(f: Field) { Exact(f) > 0 && forall v: nat :: v <= Exact(f) ==> HoldsExactly(f, v) }

  lemma TypesAddExactly(f: Field)
    requires IsType(f)
    ensures AddsExactly(f)
  {
    forall v: nat | v <= Exact(f) ensures HoldsExactly(f, v) { ExactValue(f, v); }
  }

  lemma {:induction false} TotalNat(xs: seq<nat>, i: nat, cap: int)
    requires cap >= 0
    ensures Total(xs, i, cap) >= 0
  {
    if xs != [] { TotalNat(xs[1..], i, cap); }
  }

  /** Two subtrees whose sums are x and y. */
  lemma AddNode(t: Tree, f: Field, send: nat -> real, x: nat, y: nat)
    requires t.Node? && AddsExactly(f) && x + y <= Exact(f)
    requires Reduce(f, SumOp, t.left, send) == x as real && InRange(f, t.left, send)
    requires Reduce(f, SumOp, t.right, send) == y as real && InRange(f, t.right, send)
    ensures Reduce(f, SumOp, t, send) == (x + y) as real && InRange(f, t, send)
  {
    assert HoldsExactly(f, x + y);
  }

  /** A tree whose total the type holds computes it, without rounding or wrapping anywhere. */
  lemma {:induction false} ReduceTotal(t: Tree, f: Field, i: nat)
    requires AddsExactly(f) && i >= 2 && Total(t.Leaves(), i, Exact(f)) <= Exact(f)
    requires forall r :: r in t.Leaves() ==> r + i <= Exact(f)
    ensures Reduce(f, SumOp, t, Contribution(f, i)) == Total(t.Leaves(), i, Exact(f)) as real
    ensures InRange(f, t, Contribution(f, i))
  {
    match t
    case Leaf(r) =>
      assert r in t.Leaves();
      assert Total([r], i, Exact(f)) == r + i + Total([], i, Exact(f));
      assert HoldsExactly(f, r + i);
    case Node(l, r) =>
      forall q | q in l.Leaves() || q in r.Leaves() ensures q + i <= Exact(f) { assert q in t.Leaves(); }
      TotalConcat(l.Leaves(), r.Leaves(), i, Exact(f));
      TotalNat(l.Leaves(), i, Exact(f));
      TotalNat(r.Leaves(), i, Exact(f));
      ReduceTotal(l, f, i);
      ReduceTotal(r, f, i);
      AddNode(t, f, Contribution(f, i), Total(l.Leaves(), i, Exact(f)), Total(r.Leaves(), i, Exact(f)));
  }

  /**
   * In whatever order the contributions are added: as long as the type holds the closed form it is
   * the sum, and no partial sum is rounded or wraps.
   */
  lemma SumOfAll(t: Tree, n: nat, f: Field, i: nat)
    requires IsType(f) && i >= 2 && CoversRanks(t, n) && ClosedForm(n, i) <= Exact(f)
    ensures Reduce(f, SumOp, t, Contribution(f, i)) == ClosedForm(n, i) as real
    ensures InRange(f, t, Contribution(f, i))
  {
    CoversAll(t, n);
    ClosedFormBound(n, i);
    TotalOrder(t.Leaves(), Ranks(n), i, Exact(f));
    TotalOfRanks(n, i, Exact(f));
    TypesAddExactly(f);
    ReduceTotal(t, f, i);
  }

  /** Accumulating the others' arrays, one after the other, into the window that holds the own array. */
  function Accumulate(own: nat, order: seq<nat>): Tree {
    if order == [] then Leaf(own) else Node(Accumulate(own, order[..|order| - 1]), Leaf(order[|order| - 1]))
  }

  lemma {:induction false} AccumulateLeaves(own: nat, order: seq<nat>)
    ensures Accumulate(own, order).Leaves() == [own] + order
  {
    if order != [] {
      AccumulateLeaves(own, order[..|order| - 1]);
      assert order == order[..|order| - 1] + [order[|order| - 1]];
    }
  }

  /** The fence epoch: whatever the order in which the n - 1 accumulates reach a window. */
  lemma FenceCovers(own: nat, order: seq<nat>, n: nat)
    requires own < n && multiset(order) == multiset(Ranks(n)) - multiset{own}
    ensures CoversRanks(Accumulate(own, order), n)
  {
    AccumulateLeaves(own, order);
    assert Ranks(n)[own] == own;
    assert own in multiset(Ranks(n));
    assert multiset([own] + order) == multiset(Ranks(n));
  }

  lemma FenceSum(own: nat, order: seq<nat>, n: nat, f: Field, i: nat)
    requires IsType(f) && i >= 2 && own < n && ClosedForm(n, i) <= Exact(f)
    requires multiset(order) == multiset(Ranks(n)) - multiset{own}
    ensures Reduce(f, SumOp, Accumulate(own, order), Contribution(f, i)) == ClosedForm(n, i) as real
    ensures InRange(f, Accumulate(own, order), Contribution(f, i))
  {
    FenceCovers(own, order, n);
    SumOfAll(Accumulate(own, order), n, f, i);
  }

  /** What the comparison sets cmp_value to at index i. */
  function SumSetting(ranks: nat, i: nat): Setting {
    var e := ClosedForm(ranks, i);
    SetValue(if e >= 0 then e else 0)
  }

  lemma ClosedFormNat(n: nat, i: nat)
    requires i >= 2
    ensures ClosedForm(n, i) >= 0
  {
    if n == 0 { ClosedFormZero(i); } else { ClosedFormBound(n, i); }
  }

  /** How many of the elements 2 .. n-1 differ from the expected sum. */
  function SumErrors(l: Layout, b: seq<Byte>, n: nat, ranks: nat): nat
  {
    if n <= 2 then 0
    else SumErrors(l, b, n - 1, ranks) + (if HoldsAt(l, b, n - 1, SumSetting(ranks, n - 1)) then 0 else 1)
  }

  /** The comparison loop of allreduce_sum and of the fence test. */
  method CheckSums(l: Layout, n: nat, buffer: array<Byte>, total: nat, ranks: nat) returns (errors: nat)
    requires Valid(l) && n <= total && buffer.Length == total * l.size
    ensures errors == SumErrors(l, buffer[..], n, ranks)
  {
    var sum := (ranks + 3) * ranks / 2;
    var cmp := AllocValues(l, 1);
    OneElementFits(l.size);
    errors := 0;
    var i := 2;
    while i < n
      invariant 2 <= i && (i <= n || n < 2)
      invariant errors == SumErrors(l, buffer[..], if i < n then i else n, ranks)
    {
      ClosedFormNat(ranks, i);
      var expected := sum + (i - 2) * ranks;
      errors := CheckElement(l, buffer, total, i, cmp, SetValue(expected), errors);
      i := i + 1;
    }
  }

  lemma {:induction false} NoSumErrors(l: Layout, b: seq<Byte>, n: nat, ranks: nat)
    ensures SumErrors(l, b, n, ranks) == 0 <==> forall i :: 2 <= i < n ==> HoldsAt(l, b, i, SumSetting(ranks, i))
  {
    if n > 2 { NoSumErrors(l, b, n - 1, ranks); }
  }

  /**
   * _run of both SUM tests: the errors stay in a local variable, no failure is recorded.  So the
   * verdict agrees with the comparison exactly when every element from 2 on is the expected sum.
   */
  method RunSum(l: Layout, n: nat, buffer: array<Byte>, total: nat, ranks: nat) returns (errors: nat, recorded: bool)
    requires Valid(l) && n <= total && buffer.Length == total * l.size
    ensures errors == SumErrors(l, buffer[..], n, ranks) && !recorded
    ensures recorded == (errors > 0) <==> forall i :: 2 <= i < n ==> HoldsAt(l, buffer[..], i, SumSetting(ranks, i))
  {
    errors := CheckSums(l, n, buffer, total, ranks);
    NoSumErrors(l, buffer[..], n, ranks);
    recorded := false;
  }

  /** No single contribution is the sum. */
  lemma SumExceeds(ranks: nat, i: nat, rank: nat)
    requires ranks >= 2 && rank < ranks && i >= 2
    ensures ClosedForm(ranks, i) > rank + i
  {
    ClosedFormStep(ranks - 1, i);
    ClosedFormBound(ranks - 1, i);
  }

  lemma UnreducedElement(l: Layout, b: seq<Byte>, i: nat, ranks: nat, rank: nat)
    requires IsScalar(l) && ranks >= 2 && rank < ranks && i >= 2 && ClosedForm(ranks, i) <= Exact(l.fields[0])
    requires Has(l, b, i, StandardValue(l.fields[0], i, rank))
    ensures !HoldsAt(l, b, i, SumSetting(ranks, i))
  {
    var f := l.fields[0];
    SumExceeds(ranks, i, rank);
    ExactValue(f, rank + i);
    ExactValue(f, ClosedForm(ranks, i));
    SettingFits(f, SettingAt(i, rank));
    ElementMatches(l, b, i, StandardValue(f, i, rank), SumSetting(ranks, i));
  }

  /** What goes unnoticed: on two or more ranks an own array that was never reduced differs in every element from 2 on. */
  lemma {:induction false} UnreducedDiffers(l: Layout, b: seq<Byte>, n: nat, ranks: nat, rank: nat)
    requires IsScalar(l) && ranks >= 2 && rank < ranks && n >= 2
    requires forall i :: 2 <= i < n ==> Has(l, b, i, StandardValue(l.fields[0], i, rank))
    requires n > 2 ==> ClosedForm(ranks, n - 1) <= Exact(l.fields[0])
    ensures SumErrors(l, b, n, ranks) == n - 2
  {
    if n > 2 {
      UnreducedElement(l, b, n - 1, ranks, rank);
      ClosedFormGrows(ranks, n - 1);
      UnreducedDiffers(l, b, n - 1, ranks, rank);
    }
  }

  /** A correct reduction differs nowhere as long as the type holds the sums: for double up to 2^53. */
  lemma {:induction false} CorrectSumsPass(l: Layout, b: seq<Byte>, n: nat, t: Tree, ranks: nat)
    requires IsScalar(l) && CoversRanks(t, ranks)
    requires forall i :: 2 <= i < n ==> Has(l, b, i, Reduce(l.fields[0], SumOp, t, Contribution(l.fields[0], i)))
    requires n > 2 ==> ClosedForm(ranks, n - 1) <= Exact(l.fields[0])
    ensures SumErrors(l, b, n, ranks) == 0
  {
    if n > 2 {
      var f := l.fields[0];
      SumOfAll(t, ranks, f, n - 1);
      ClosedFormNat(ranks, n - 1);
      ExactValue(f, ClosedForm(ranks, n - 1));
      SettingFits(f, SumSetting(ranks, n - 1));
      ElementMatches(l, b, n - 1, ClosedForm(ranks, n - 1) as real, SumSetting(ranks, n - 1));
      ClosedFormGrows(ranks, n - 1);
      CorrectSumsPass(l, b, n - 1, t, ranks);
    }
  }

  // ---------------------------------------------------------------------------------------
  // SUM beyond the range of an integer type
  // ---------------------------------------------------------------------------------------

  lemma WrapCongruent(lo: int, m: nat, x: int)
    requires m > 0
    ensures Divides(m, x - Wrap(lo, m, x))
  {
    if !(lo <= x < lo + m) {
      var q := (x - lo) / m;
      assert x - lo == m * q + (x - lo) % m;
      Multiple(m, q);
    }
  }

  lemma NoSmallDivisible(d: nat, x: int)
    requires d > 0 && Divides(d, x) && 0 - d < x < d
    ensures x == 0
  {
    var p := x / d;
    assert x == d * p;
    if p != 0 { MultiplesFarFromZero(d, p); }
  }

  lemma DividesDifference(d: nat, x: int, y: int)
    requires d > 0 && Divides(d, x) && Divides(d, y)
    ensures Divides(d, x - y)
  {
    var p, q := x / d, y / d;
    assert x == d * p && y == d * q;
    assert x - y == d * (p - q);
    Multiple(d, p - q);
  }

  /** Numbers that differ by a multiple of m wrap to the same, and no others do. */
  lemma WrapsAlike(lo: int, m: nat, x: int, y: int)
    requires m > 0
    ensures Wrap(lo, m, x) == Wrap(lo, m, y) <==> Divides(m, x - y)
  {
    WrapCongruent(lo, m, x);
    WrapCongruent(lo, m, y);
    var u, v := Wrap(lo, m, x), Wrap(lo, m, y);
    DividesDifference(m, x - u, y - v);
    if u == v {
      assert x - y == (x - u) - (y - v);
    } else if Divides(m, x - y) {
      DividesDifference(m, x - y, (x - u) - (y - v));
      NoSmallDivisible(m, u - v);
    }
  }

  lemma WrapSum(lo: int, m: nat, x: int, y: int)
    requires m > 0
    ensures Wrap(lo, m, Wrap(lo, m, x) + Wrap(lo, m, y)) == Wrap(lo, m, x + y)
  {
    WrapCongruent(lo, m, x);
    WrapCongruent(lo, m, y);
    var u, v := Wrap(lo, m, x), Wrap(lo, m, y);
    DividesDifference(m, 0, y - v);
    DividesDifference(m, x - u, 0 - (y - v));
    assert x + y - (u + v) == (x - u) - (0 - (y - v));
    WrapsAlike(lo, m, x + y, u + v);
  }

  lemma StoredSum(f: Field, a: int, b: int)
    requires f.number.Integer?
    ensures Stored(f, a as real + b as real) == Wrap(f.number.lo, Pow256(f.width), a + b) as real
  {
    assert (a as real + b as real).Floor == a + b;
  }

  lemma WrapNode(t: Tree, f: Field, send: nat -> real, x: int, y: int)
    requires t.Node? && f.number.Integer?
    requires Reduce(f, SumOp, t.left, send) == Wrap(f.number.lo, Pow256(f.width), x) as real
    requires Reduce(f, SumOp, t.right, send) == Wrap(f.number.lo, Pow256(f.width), y) as real
    ensures Reduce(f, SumOp, t, send) == Wrap(f.number.lo, Pow256(f.width), x + y) as real
  {
    var lo, m := f.number.lo, Pow256(f.width);
    StoredSum(f, Wrap(lo, m, x), Wrap(lo, m, y));
    WrapSum(lo, m, x, y);
  }

  lemma WrappedLeaf(r: nat, f: Field, i: nat)
    requires IsType(f) && f.number.Integer? && i >= 2
    ensures StandardValue(f, i, r) == Wrap(f.number.lo, Pow256(f.width), Total([r], i, Exact(f))) as real
  {
    var hi := f.number.hi;
    assert Total([r], i, hi) == (if r + i > hi then hi else r + i) + Total([], i, hi);
  }

  /** In any order, the wrapped sum is the wrapped total of the clamped contributions. */
  lemma {:induction false} WrappedTotal(t: Tree, f: Field, i: nat)
    requires IsType(f) && f.number.Integer? && i >= 2
    ensures Reduce(f, SumOp, t, Contribution(f, i)) == Wrap(f.number.lo, Pow256(f.width), Total(t.Leaves(), i, Exact(f))) as real
  {
    var hi := f.number.hi;
    match t
    case Leaf(r) => WrappedLeaf(r, f, i);
    case Node(l, r) =>
      WrappedTotal(l, f, i);
      WrappedTotal(r, f, i);
      TotalConcat(l.Leaves(), r.Leaves(), i, hi);
      WrapNode(t, f, Contribution(f, i), Total(l.Leaves(), i, hi), Total(r.Leaves(), i, hi));
  }

  /** Beyond saturation the total is that of the ranks below it and hi for each of the k others. */
  lemma {:induction false} SaturatedTotal(m: nat, k: nat, i: nat, hi: int)
    requires i >= 2 && m - 1 + i <= hi && hi < m + i
    ensures Total(Ranks(m + k), i, hi) == ClosedForm(m, i) + k * hi
  {
    if k == 0 {
      TotalOfRanks(m, i, hi);
      if m == 0 { ClosedFormZero(i); }
    } else {
      SaturatedTotal(m, k - 1, i, hi);
      TotalSnoc(m + k - 1, i, hi);
      Distributes(k - 1, 1, hi);
    }
  }

  /**
   * For an integer type the comparison of index i finds no difference in a wrapped sum exactly when the
   * closed form does not saturate, or the wrapped sum happens to be the clamp value.
   */
  predicate SumComesOut(f: Field, ranks: nat, i: nat)
    requires f.number.Integer?
  {
    ClosedForm(ranks, i) <= Exact(f) || Divides(Pow256(f.width), Total(Ranks(ranks), i, Exact(f)) - Exact(f))
  }

  /** The wrapped total comes to the clamped closed form exactly then. */
  lemma WrappedIsClamped(f: Field, ranks: nat, i: nat)
    requires IsType(f) && f.number.Integer? && ranks > 0 && i >= 2
    ensures ClosedForm(ranks, i) >= 0
    ensures Wrap(f.number.lo, Pow256(f.width), Total(Ranks(ranks), i, Exact(f))) as real == FieldValue(f, SumSetting(ranks, i))
      <==> SumComesOut(f, ranks, i)
  {
    var hi := f.number.hi;
    ClosedFormBound(ranks, i);
    TotalOfRanks(ranks, i, hi);
    WrapsAlike(f.number.lo, Pow256(f.width), Total(Ranks(ranks), i, hi), hi);
  }

  lemma SumElement(l: Layout, b: seq<Byte>, t: Tree, ranks: nat, i: nat)
    requires IsIntScalar(l) && CoversRanks(t, ranks) && i >= 2
    requires Has(l, b, i, Reduce(l.fields[0], SumOp, t, Contribution(l.fields[0], i)))
    ensures HoldsAt(l, b, i, SumSetting(ranks, i)) <==> SumComesOut(l.fields[0], ranks, i)
  {
    var f := l.fields[0];
    CoversAll(t, ranks);
    WrappedTotal(t, f, i);
    TotalOrder(t.Leaves(), Ranks(ranks), i, Exact(f));
    WrappedIsClamped(f, ranks, i);
    var v := Wrap(f.number.lo, Pow256(f.width), Total(Ranks(ranks), i, Exact(f))) as real;
    assert Fits(f, v);
    ElementMatches(l, b, i, v, SumSetting(ranks, i));
  }

  /** 382 ranks of unsigned char: the sum at index 2 saturates, wraps, and comes out as the clamp value. */
  lemma SaturatedSumComesOut(f: Field)
    requires f.number == Integer(0, 255) && f.width == 1
    ensures ClosedForm(382, 2) > Exact(f) && SumComesOut(f, 382, 2)
  {
    SaturatedTotal(254, 128, 2, 255);
    assert Pow256(1) == 256 * Pow256(0);
  }

  // ---------------------------------------------------------------------------------------
  // SCAN with SUM
  // ---------------------------------------------------------------------------------------

  /** All ranks send 0, 1, 2, ... clamped. */
  function Counting(f: Field, i: nat): nat -> real { (r: nat) => FieldValue(f, SetValue(i)) }

  lemma ProductSplits(i: nat, a: nat, b: nat)
    ensures i * (a + b) == i * a + i * b && 0 <= i * a && 0 <= i * b
  {
    Distributes(a, b, i);
    Ordered(0, a, i);
    Ordered(0, b, i);
  }

  lemma {:induction false} ScanTree(t: Tree, f: Field, i: nat)
    requires AddsExactly(f) && i * |t.Leaves()| <= Exact(f)
    ensures Reduce(f, SumOp, t, Counting(f, i)) == (i * |t.Leaves()|) as real && InRange(f, t, Counting(f, i))
  {
    match t
    case Leaf(_) => assert HoldsExactly(f, i);
    case Node(l, r) =>
      ProductSplits(i, |l.Leaves()|, |r.Leaves()|);
      ScanTree(l, f, i);
      ScanTree(r, f, i);
      AddNode(t, f, Counting(f, i), i * |l.Leaves()|, i * |r.Leaves()|);
  }

  /** As long as the type holds it, the scan is i * (rank + 1), with nothing rounded or wrapped on the way. */
  lemma ScanBeforeCutOff(t: Tree, f: Field, i: nat)
    requires IsType(f) && i * |t.Leaves()| <= Exact(f)
    ensures Reduce(f, SumOp, t, Counting(f, i)) == (i * |t.Leaves()|) as real && InRange(f, t, Counting(f, i))
  {
    TypesAddExactly(f);
    ScanTree(t, f, i);
  }

  /** What check_buffer[i] of a rank is set to. */
  function ScanSetting(i: nat, rank: nat): Setting { SetValue(i * (rank + 1)) }

  predicate Saturated(l: Layout, i: nat, rank: nat) { Same(l, Element(l, ScanSetting(i, rank)), Element(l, SetMax)) }

  /** Where the comparison stops: the first saturated element of the check buffer. */
  function CutOff(l: Layout, n: nat, rank: nat): (k: nat)
    ensures k <= n
    ensures forall i :: 0 <= i < k ==> !Saturated(l, i, rank)
    ensures k < n ==> Saturated(l, k, rank)
  {
    if n == 0 then 0
    else
      var k := CutOff(l, n - 1, rank);
      if k < n - 1 || Saturated(l, n - 1, rank) then k else n
  }

  /** Of an integer type, an element of the check buffer is saturated exactly when its number reaches the limit. */
  lemma SaturatedAt(l: Layout, i: nat, rank: nat)
    requires IsIntScalar(l)
    ensures Saturated(l, i, rank) <==> i * (rank + 1) >= Exact(l.fields[0])
  {
    ScalarSettings(l, ScanSetting(i, rank), SetMax);
  }

  /** Every element from the cut-off on is saturated, every element before it is i * (rank + 1). */
  lemma CutOffSeparates(l: Layout, n: nat, rank: nat, i: nat)
    requires IsIntScalar(l) && i < n
    ensures i < CutOff(l, n, rank) <==> i * (rank + 1) < Exact(l.fields[0])
    ensures i < CutOff(l, n, rank) ==> FieldValue(l.fields[0], ScanSetting(i, rank)) == (i * (rank + 1)) as real
    ensures i >= CutOff(l, n, rank) ==> FieldValue(l.fields[0], ScanSetting(i, rank)) == FieldValue(l.fields[0], SetMax)
  {
    var k := CutOff(l, n, rank);
    SaturatedAt(l, i, rank);
    if k <= i {
      SaturatedAt(l, k, rank);
      Ordered(k, i, rank + 1);
    }
  }

  function ScanErrors(l: Layout, b: seq<Byte>, n: nat, rank: nat): nat
  {
    if n == 0 then 0
    else ScanErrors(l, b, n - 1, rank) + (if HoldsAt(l, b, n - 1, ScanSetting(n - 1, rank)) then 0 else 1)
  }

  /** The elements of a buffer set so far. */
  ghost predicate CheckFilled(l: Layout, b: seq<Byte>, n: nat, total: nat, rank: nat) {
    |b| == total * l.size && n <= total && forall k :: 0 <= k < n ==> Part(b, k, l.size) == Element(l, ScanSetting(k, rank))
  }

  lemma FilledNext(l: Layout, b: seq<Byte>, c: seq<Byte>, i: nat, total: nat, rank: nat)
    requires i < total && CheckFilled(l, b, i, total, rank)
    requires i * l.size + l.size <= |b|
    requires c == b[..i * l.size] + Element(l, ScanSetting(i, rank)) + b[i * l.size + l.size..]
    ensures CheckFilled(l, c, i + 1, total, rank)
  {
    forall k | 0 <= k <= i ensures Part(c, k, l.size) == Element(l, ScanSetting(k, rank)) {
      PutPart(b, Element(l, ScanSetting(i, rank)), total, i, k, l.size);
    }
  }

  /** tst_type_setvalue of check_buffer[i]. */
  method FillNext(l: Layout, check: array<Byte>, i: nat, total: nat, rank: nat)
    requires Valid(l) && i < total && CheckFilled(l, check[..], i, total, rank)
    modifies check
    ensures CheckFilled(l, check[..], i + 1, total, rank)
  {
    ghost var before := check[..];
    var pos := i * l.size;
    PartOfArray(check, total, i, l.size);
    SetElement(l, check, pos, ScanSetting(i, rank));
    FilledNext(l, before, check[..], i, total, rank);
  }

  /** tst_coll_scan_sum_init fills the check buffer of rank. */
  method FillCheck(l: Layout, n: nat, rank: nat) returns (check: array<Byte>)
    requires Valid(l)
    ensures fresh(check) && CheckFilled(l, check[..], n, n + OVERHEAD, rank)
  {
    check := AllocValues(l, n);
    var i := 0;
    while i < n
      invariant 0 <= i <= n
      invariant CheckFilled(l, check[..], i, n + OVERHEAD, rank)
    {
      FillNext(l, check, i, n + OVERHEAD, rank);
      i := i + 1;
    }
  }

  /** One pass of the comparison: stop at a saturated element, or count a difference. */
  method ScanPass(l: Layout, recv: array<Byte>, check: array<Byte>, max: array<Byte>, i: nat, n: nat, total: nat, rank: nat)
    returns (stop: bool, differ: bool)
    requires Valid(l) && i < n <= total && recv.Length == total * l.size && CheckFilled(l, check[..], n, total, rank)
    requires l.size <= max.Length && max[..l.size] == Element(l, SetMax)
    ensures stop <==> Saturated(l, i, rank)
    ensures differ <==> !HoldsAt(l, recv[..], i, ScanSetting(i, rank))
  {
    PartOfArray(check, total, i, l.size);
    PartOfArray(recv, total, i, l.size);
    var pos := i * l.size;
    HoldsElement(l, recv[..], i, recv[pos..pos + l.size], ScanSetting(i, rank));
    assert max[0..l.size] == max[..l.size];
    var below := CmpValue(l, check, pos, max, 0);
    stop := !below;
    differ := CmpValue(l, recv, pos, check, pos);
  }

  /** The comparison goes on from i exactly while i is before the cut-off. */
  lemma CutOffStep(l: Layout, n: nat, rank: nat, i: nat)
    requires i < n && i <= CutOff(l, n, rank)
    ensures Saturated(l, i, rank) <==> i == CutOff(l, n, rank)
  {
  }

  lemma NextScanError(l: Layout, b: seq<Byte>, i: nat, rank: nat)
    ensures ScanErrors(l, b, i + 1, rank) ==
      ScanErrors(l, b, i, rank) + if HoldsAt(l, b, i, ScanSetting(i, rank)) then 0 else 1
  {
  }

  /** One pass of the loop of _run. */
  method ScanStep(l: Layout, n: nat, recv: array<Byte>, check: array<Byte>, max: array<Byte>, rank: nat, i: nat, errors: nat)
    returns (stop: bool, counted: nat)
    requires Valid(l) && recv.Length == (n + OVERHEAD) * l.size && CheckFilled(l, check[..], n, n + OVERHEAD, rank)
    requires l.size <= max.Length && max[..l.size] == Element(l, SetMax)
    requires i < n && i <= CutOff(l, n, rank) && errors == ScanErrors(l, recv[..], i, rank)
    ensures stop <==> i == CutOff(l, n, rank)
    ensures counted == ScanErrors(l, recv[..], if stop then i else i + 1, rank)
  {
    var differ: bool;
    stop, differ := ScanPass(l, recv, check, max, i, n, n + OVERHEAD, rank);
    CutOffStep(l, n, rank, i);
    NextScanError(l, recv[..], i, rank);
    counted := if !stop && differ then errors + 1 else errors;
  }

  /** The loop of _run. */
  method ScanLoop(l: Layout, n: nat, recv: array<Byte>, check: array<Byte>, max: array<Byte>, rank: nat) returns (errors: nat)
    requires Valid(l) && recv.Length == (n + OVERHEAD) * l.size && CheckFilled(l, check[..], n, n + OVERHEAD, rank)
    requires l.size <= max.Length && max[..l.size] == Element(l, SetMax)
    ensures errors == ScanErrors(l, recv[..], CutOff(l, n, rank), rank)
  {
    errors := 0;
    var i := 0;
    while i < n
      invariant 0 <= i <= CutOff(l, n, rank)
      invariant errors == ScanErrors(l, recv[..], i, rank)
    {
      var stop: bool;
      stop, errors := ScanStep(l, n, recv, check, max, rank, i, errors);
      if stop {
        break;
      }
      i := i + 1;
    }
  }

  /** _init and _run: the test counts the differences up to the cut-off. */
  method CheckScan(l: Layout, n: nat, recv: array<Byte>, rank: nat) returns (errors: nat)
    requires Valid(l) && recv.Length == (n + OVERHEAD) * l.size
    ensures errors == ScanErrors(l, recv[..], CutOff(l, n, rank), rank)
  {
    var check := FillCheck(l, n, rank);
    var max := new Byte[l.size];
    SetElement(l, max, 0, SetMax);
    assert max[..l.size] == Element(l, SetMax);
    errors := ScanLoop(l, n, recv, check, max, rank);
  }

  lemma {:induction false} NoScanErrors(l: Layout, b: seq<Byte>, n: nat, rank: nat)
    ensures ScanErrors(l, b, n, rank) == 0 <==> forall i :: 0 <= i < n ==> HoldsAt(l, b, i, ScanSetting(i, rank))
  {
    if n > 0 { NoScanErrors(l, b, n - 1, rank); }
  }

  /** The whole test: a failure is recorded exactly when an element before the cut-off is not i * (rank + 1). */
  method RunScan(l: Layout, n: nat, recv: array<Byte>, rank: nat) returns (recorded: bool)
    requires Valid(l) && recv.Length == (n + OVERHEAD) * l.size
    ensures recorded <==> exists i :: 0 <= i < CutOff(l, n, rank) && !HoldsAt(l, recv[..], i, ScanSetting(i, rank))
  {
    var errors := CheckScan(l, n, recv, rank);
    NoScanErrors(l, recv[..], CutOff(l, n, rank), rank);
    recorded := errors > 0;
  }

  lemma ScanElement(l: Layout, b: seq<Byte>, i: nat, t: Tree, rank: nat)
    requires IsScalar(l) && |t.Leaves()| == rank + 1 && i * (rank + 1) <= Exact(l.fields[0])
    requires Has(l, b, i, Reduce(l.fields[0], SumOp, t, Counting(l.fields[0], i)))
    ensures HoldsAt(l, b, i, ScanSetting(i, rank))
  {
    var f := l.fields[0];
    ScanBeforeCutOff(t, f, i);
    Ordered(0, i, rank + 1);
    ExactValue(f, i * (rank + 1));
    SettingFits(f, ScanSetting(i, rank));
    ElementMatches(l, b, i, (i * (rank + 1)) as real, ScanSetting(i, rank));
  }

  /** The scan of rank `rank`, combined in any way, passes as far as the type holds it. */
  lemma {:induction false} CorrectScanPasses(l: Layout, b: seq<Byte>, n: nat, t: Tree, rank: nat)
    requires IsScalar(l) && |t.Leaves()| == rank + 1
    requires forall i :: 0 <= i < n ==> Has(l, b, i, Reduce(l.fields[0], SumOp, t, Counting(l.fields[0], i)))
    requires n > 0 ==> (n - 1) * (rank + 1) <= Exact(l.fields[0])
    ensures ScanErrors(l, b, n, rank) == 0
  {
    if n > 0 {
      ScanElement(l, b, n - 1, t, rank);
      if n > 1 { Ordered(n - 2, n - 1, rank + 1); }
      CorrectScanPasses(l, b, n - 1, t, rank);
    }
  }

  /** For an integer type that is everywhere before the cut-off, so the test passes. */
  lemma CorrectScanCounts(l: Layout, b: seq<Byte>, n: nat, t: Tree, rank: nat)
    requires IsIntScalar(l) && |t.Leaves()| == rank + 1
    requires forall i :: 0 <= i < n ==> Has(l, b, i, Reduce(l.fields[0], SumOp, t, Counting(l.fields[0], i)))
    ensures ScanErrors(l, b, CutOff(l, n, rank), rank) == 0
  {
    var k := CutOff(l, n, rank);
    if k > 0 { CutOffSeparates(l, n, rank, k - 1); }
    CorrectScanPasses(l, b, k, t, rank);
  }
}
