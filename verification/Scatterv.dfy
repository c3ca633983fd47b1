/**
 * coll/tst_coll_scatterv.c and coll/tst_coll_scatterv_stride.c: the root lays out, for every rank j,
 * the j-element standard array of rank j, one after the other, in the strided test with a hole of one
 * element after each.
 */
module Scatterv {
  import opened Oracle
  import Products

  function Step(strided: bool, j: nat): nat { if strided then j + 1 else j }

  /** Where the block of rank j starts, in elements: each block i before it takes i elements and, strided, a hole. */
  function Displ(strided: bool, j: nat): nat {
    if j <= 1 then 0 else Displ(strided, j - 1) + Step(strided, j - 1)
  }

  /** The closed forms. */
  lemma {:induction false} DisplClosed(strided: bool, j: nat)
    requires j >= 1
    ensures 2 * Displ(strided, j) == if strided then (j - 1) * (j + 2) else j * (j - 1)
  {
    if j > 1 { DisplClosed(strided, j - 1); }
  }

  /** The number of elements _init allocates, before the overhead. */
  function Allocated(strided: bool, n: nat): nat
    requires n > 0
  {
    if strided then n * (n + 1) / 2 + 1 else (n - 1) * n / 2 + 1
  }

  /** All blocks fit the allocation. */
  lemma Fits(strided: bool, n: nat)
    requires n > 0
    ensures Displ(strided, n) + (if strided then 2 else 1) == Allocated(strided, n)
  {
    DisplClosed(strided, n);
    if strided {
      assert (n - 1) * (n + 2) == n * (n + 1) - 2;
    } else {
      assert (n - 1) * n == n * (n - 1);
    }
  }

  /** Blocks do not overlap, and strided ones do not touch. */
  lemma {:induction false} BlocksApart(strided: bool, i: nat, j: nat)
    requires 1 <= i < j
    ensures Displ(strided, i) + i + (if strided then 1 else 0) <= Displ(strided, j)
  {
    if i < j - 1 { BlocksApart(strided, i, j - 1); }
  }

  /** The element after each block of the strided layout. */
  function Hole(strided: bool, l: Layout): (b: seq<Byte>)
    ensures |b| == if strided then l.size else 0
  {
    if strided then Element(l, SetMin) else []
  }

  /** The blocks of the ranks below n. */
  function Blocks(strided: bool, l: Layout, n: nat): seq<Byte> {
    if n <= 1 then [] else Blocks(strided, l, n - 1) + StandardArray(l, n - 1, n - 1) + Hole(strided, l)
  }

  /** They take as many elements as the displacements say: pos is displs times the size of the type. */
  lemma {:induction false} BlocksLength(strided: bool, l: Layout, n: nat)
    ensures |Blocks(strided, l, n)| == Displ(strided, n) * l.size
  {
    if n > 1 {
      BlocksLength(strided, l, n - 1);
      Products.Distributes(Displ(strided, n - 1), Step(strided, n - 1), l.size);
      Products.Distributes(n - 1, 1, l.size);
    }
  }

  /** The blocks of the ranks below j are a prefix of all blocks. */
  lemma {:induction false} BlocksPrefix(strided: bool, l: Layout, j: nat, n: nat)
    requires j <= n
    ensures Blocks(strided, l, j) <= Blocks(strided, l, n)
  {
    if j < n { BlocksPrefix(strided, l, j, n - 1); }
  }

  /** The middle of three pieces, in anything that starts with them. */
  lemma MiddleOf<T>(a: seq<T>, m: seq<T>, z: seq<T>, whole: seq<T>)
    requires a + m + z <= whole
    ensures |a| + |m| <= |whole| && whole[|a|..|a| + |m|] == m
  {
    assert whole[..|a + m + z|] == a + m + z;
    assert (a + m + z)[|a|..|a| + |m|] == m;
  }

  lemma BlocksUnfold(strided: bool, l: Layout, j: nat)
    requires j >= 1
    ensures Blocks(strided, l, j + 1) == Blocks(strided, l, j) + StandardArray(l, j, j) + Hole(strided, l)
  {
  }

  lemma PrefixOf<T>(a: seq<T>, b: seq<T>, c: seq<T>)
    requires a <= b && b <= c
    ensures a <= c
  {
  }

  lemma BlockPieces(strided: bool, l: Layout, n: nat, j: nat, b: seq<Byte>)
    requires 1 <= j < n && Blocks(strided, l, n) <= b
    ensures Blocks(strided, l, j) + StandardArray(l, j, j) + Hole(strided, l) <= b
  {
    BlocksPrefix(strided, l, j + 1, n);
    PrefixOf(Blocks(strided, l, j + 1), Blocks(strided, l, n), b);
    BlocksUnfold(strided, l, j);
  }

  /** Any buffer that starts with the blocks holds rank j's standard array at its displacement. */
  lemma BlockAt(strided: bool, l: Layout, n: nat, j: nat, b: seq<Byte>)
    requires 1 <= j < n && Blocks(strided, l, n) <= b
    ensures Displ(strided, j) * l.size + j * l.size <= |b|
    ensures b[Displ(strided, j) * l.size..Displ(strided, j) * l.size + j * l.size] == StandardArray(l, j, j)
  {
    BlockPieces(strided, l, n, j, b);
    BlocksLength(strided, l, j);
    MiddleOf(Blocks(strided, l, j), StandardArray(l, j, j), Hole(strided, l), b);
  }

  /** And, in the strided layout, the minimum in the hole after it. */
  lemma HoleAt(l: Layout, n: nat, j: nat, b: seq<Byte>)
    requires 1 <= j < n && Blocks(true, l, n) <= b
    ensures Displ(true, j) * l.size + j * l.size + l.size <= |b|
    ensures b[Displ(true, j) * l.size + j * l.size..Displ(true, j) * l.size + j * l.size + l.size] == Element(l, SetMin)
  {
    BlockPieces(true, l, n, j, b);
    BlocksLength(true, l, j);
    var a := Blocks(true, l, j) + StandardArray(l, j, j);
    assert a + Hole(true, l) + [] == a + Hole(true, l);
    MiddleOf(a, Hole(true, l), [], b);
  }

  // ---------------------------------------------------------------------------------------
  // The root's loop
  // ---------------------------------------------------------------------------------------

  /** b starts with the blocks of the ranks below j and is before from there on. */
  ghost predicate LaidOut(strided: bool, l: Layout, j: nat, b: seq<Byte>, before: seq<Byte>) {
    |Blocks(strided, l, j)| <= |before| && b == Blocks(strided, l, j) + before[|Blocks(strided, l, j)|..]
  }

  /** Writing x behind a. */
  lemma Extended<T>(a: seq<T>, x: seq<T>, before: seq<T>, b: seq<T>)
    requires |a| + |x| <= |before| && b == a + before[|a|..]
    ensures b[..|a|] + x + b[|a| + |x|..] == a + x + before[|a| + |x|..]
  {
    assert b[..|a|] == a;
    assert b[|a| + |x|..] == before[|a| + |x|..];
  }

  lemma DenseStep(l: Layout, j: nat, b: seq<Byte>, before: seq<Byte>)
    requires j >= 1 && LaidOut(false, l, j, b, before) && |Blocks(false, l, j + 1)| <= |before|
    ensures var pos := |Blocks(false, l, j)|;
      pos + j * l.size <= |b| && LaidOut(false, l, j + 1, WithStandard(b, pos, l, j, j), before)
  {
    BlocksUnfold(false, l, j);
    assert Blocks(false, l, j + 1) == Blocks(false, l, j) + StandardArray(l, j, j);
    Extended(Blocks(false, l, j), StandardArray(l, j, j), before, b);
  }

  lemma StridedStep(l: Layout, j: nat, b: seq<Byte>, before: seq<Byte>)
    requires j >= 1 && LaidOut(true, l, j, b, before) && |Blocks(true, l, j + 1)| <= |before|
    ensures var pos := |Blocks(true, l, j)|; var hole := pos + j * l.size;
      hole + l.size <= |b| &&
      var w := WithStandard(b, pos, l, j, j);
      LaidOut(true, l, j + 1, w[..hole] + Element(l, SetMin) + w[hole + l.size..], before)
  {
    BlocksUnfold(true, l, j);
    var pos := |Blocks(true, l, j)|;
    var hole := pos + j * l.size;
    var w := WithStandard(b, pos, l, j, j);
    assert b[..pos] == Blocks(true, l, j);
    assert w[..hole] == Blocks(true, l, j) + StandardArray(l, j, j);
    assert w[hole + l.size..] == before[hole + l.size..];
  }

  /** Entry j of send_counts and send_displs. */
  predicate CountsOk(strided: bool, counts: seq<nat>, displs: seq<nat>, n: nat)
    requires n <= |counts| && n <= |displs|
  {
    forall j :: 0 <= j < n ==> counts[j] == j && displs[j] == Displ(strided, j)
  }

  /** send_counts[j] = j; send_displs[j] = displs; */
  method PutCounts(strided: bool, j: nat, displ: nat, counts: array<nat>, displs: array<nat>)
    requires j < counts.Length == displs.Length && counts != displs && displ == Displ(strided, j)
    requires CountsOk(strided, counts[..], displs[..], j)
    modifies counts, displs
    ensures CountsOk(strided, counts[..], displs[..], j + 1)
  {
    counts[j], displs[j] := j, displ;
  }

  predicate IsAllocated(strided: bool, n: nat, size: nat, length: nat)
    requires n > 0
  {
    length == (Allocated(strided, n) + OVERHEAD) * size
  }

  lemma NothingLaidOut(strided: bool, l: Layout, b: seq<Byte>)
    ensures LaidOut(strided, l, 1, b, b)
  {
    assert [] + b[0..] == b;
  }

  /** The allocation has room for all blocks and one element more. */
  lemma Room(strided: bool, l: Layout, n: nat, length: nat)
    requires n > 0 && IsAllocated(strided, n, l.size, length)
    ensures |Blocks(strided, l, n)| + l.size <= length
  {
    Fits(strided, n);
    BlocksLength(strided, l, n);
    Products.Ordered(Displ(strided, n) + 1, Allocated(strided, n) + OVERHEAD, l.size);
    Products.Distributes(Displ(strided, n), 1, l.size);
  }

  /** Rank j's turn in the loop: all below it is done, and displs and pos are the same place in elements and in bytes. */
  ghost predicate TurnOf(strided: bool, l: Layout, j: nat, displ: nat, pos: nat,
                         buffer: array<Byte>, counts: array<nat>, displs: array<nat>, before: seq<Byte>)
    reads buffer, counts, displs
  {
    && displ == Displ(strided, j) && pos == |Blocks(strided, l, j)|
    && j <= counts.Length == displs.Length && CountsOk(strided, counts[..], displs[..], j)
    && LaidOut(strided, l, j, buffer[..], before)
  }

  /** One pass of the dense loop. */
  method DensePass(l: Layout, n: nat, j: nat, displ: nat, pos: nat,
                   buffer: array<Byte>, counts: array<nat>, displs: array<nat>, ghost before: seq<Byte>)
    returns (nextDispl: nat, nextPos: nat)
    requires Valid(l) && 1 <= j < n == counts.Length && counts != displs && |Blocks(false, l, n)| <= |before|
    requires TurnOf(false, l, j, displ, pos, buffer, counts, displs, before)
    modifies buffer, counts, displs
    ensures TurnOf(false, l, j + 1, nextDispl, nextPos, buffer, counts, displs, before)
  {
    BlocksPrefix(false, l, j + 1, n);
    DenseStep(l, j, buffer[..], before);
    SetStandardArray(l, j, buffer, pos, j);
    PutCounts(false, j, displ, counts, displs);
    BlocksUnfold(false, l, j);
    nextPos := pos + j * l.size;
    nextDispl := displ + j;
  }

  lemma NextStridedPos(l: Layout, j: nat)
    requires j >= 1
    ensures |Blocks(true, l, j + 1)| == |Blocks(true, l, j)| + (j + 1) * l.size
  {
    BlocksUnfold(true, l, j);
    Products.Distributes(j, 1, l.size);
  }

  /** The minimum goes into the hole after block j. */
  method PutHole(l: Layout, j: nat, hole: nat, buffer: array<Byte>, ghost b: seq<Byte>, ghost before: seq<Byte>)
    requires Valid(l) && j >= 1 && LaidOut(true, l, j, b, before) && |Blocks(true, l, j + 1)| <= |before|
    requires hole == |Blocks(true, l, j)| + j * l.size && hole + l.size <= |b|
    requires buffer[..] == WithStandard(b, |Blocks(true, l, j)|, l, j, j)
    modifies buffer
    ensures LaidOut(true, l, j + 1, buffer[..], before)
  {
    StridedStep(l, j, b, before);
    ghost var w := buffer[..];
    SetElement(l, buffer, hole, SetMin);
    assert buffer[..] == w[..hole] + Element(l, SetMin) + w[hole + l.size..];
  }

  /** A block of the strided layout and the hole after it. */
  method PutStridedBlock(l: Layout, n: nat, j: nat, pos: nat, buffer: array<Byte>, ghost before: seq<Byte>)
    requires Valid(l) && 1 <= j < n && |Blocks(true, l, n)| <= |before|
    requires pos == |Blocks(true, l, j)| && LaidOut(true, l, j, buffer[..], before)
    modifies buffer
    ensures LaidOut(true, l, j + 1, buffer[..], before)
  {
    BlocksPrefix(true, l, j + 1, n);
    ghost var b := buffer[..];
    StridedStep(l, j, b, before);
    SetStandardArray(l, j, buffer, pos, j);
    PutHole(l, j, pos + j * l.size, buffer, b, before);
  }

  /** One pass of the strided loop: after the block, the minimum goes into the hole. */
  method StridedPass(l: Layout, n: nat, j: nat, displ: nat, pos: nat,
                     buffer: array<Byte>, counts: array<nat>, displs: array<nat>, ghost before: seq<Byte>)
    returns (nextDispl: nat, nextPos: nat)
    requires Valid(l) && 1 <= j < n == counts.Length && counts != displs && |Blocks(true, l, n)| <= |before|
    requires TurnOf(true, l, j, displ, pos, buffer, counts, displs, before)
    modifies buffer, counts, displs
    ensures TurnOf(true, l, j + 1, nextDispl, nextPos, buffer, counts, displs, before)
  {
    PutStridedBlock(l, n, j, pos, buffer, before);
    PutCounts(true, j, displ, counts, displs);
    NextStridedPos(l, j);
    nextPos := pos + (j + 1) * l.size;
    nextDispl := displ + (j + 1);
  }

  /** The loop over the ranks. */
  method DenseLoop(l: Layout, n: nat, buffer: array<Byte>, counts: array<nat>, displs: array<nat>) returns (displ: nat, pos: nat)
    requires Valid(l) && n > 0 && |Blocks(false, l, n)| <= buffer.Length
    requires counts.Length == n && counts != displs && TurnOf(false, l, 1, 0, 0, buffer, counts, displs, buffer[..])
    modifies buffer, counts, displs
    ensures TurnOf(false, l, n, displ, pos, buffer, counts, displs, old(buffer[..]))
  {
    ghost var before := buffer[..];
    displ, pos := 0, 0;
    var j := 1;
    while j < n
      invariant 1 <= j <= n && TurnOf(false, l, j, displ, pos, buffer, counts, displs, before)
    {
      displ, pos := DensePass(l, n, j, displ, pos, buffer, counts, displs, before);
      j := j + 1;
    }
  }

  /** The loop over the ranks. */
  method StridedLoop(l: Layout, n: nat, buffer: array<Byte>, counts: array<nat>, displs: array<nat>) returns (displ: nat, pos: nat)
    requires Valid(l) && n > 0 && |Blocks(true, l, n)| <= buffer.Length
    requires counts.Length == n && counts != displs && TurnOf(true, l, 1, 0, 0, buffer, counts, displs, buffer[..])
    modifies buffer, counts, displs
    ensures TurnOf(true, l, n, displ, pos, buffer, counts, displs, old(buffer[..]))
  {
    ghost var before := buffer[..];
    displ, pos := 0, 0;
    var j := 1;
    while j < n
      invariant 1 <= j <= n && TurnOf(true, l, j, displ, pos, buffer, counts, displs, before)
    {
      displ, pos := StridedPass(l, n, j, displ, pos, buffer, counts, displs, before);
      j := j + 1;
    }
  }

  /** coll/tst_coll_scatterv.c: what the root does before it scatters. */
  method LayOutDense(l: Layout, n: nat, buffer: array<Byte>, counts: array<nat>, displs: array<nat>)
    requires Valid(l) && n > 0 && IsAllocated(false, n, l.size, buffer.Length)
    requires counts.Length == displs.Length == n && counts != displs
    modifies buffer, counts, displs
    ensures CountsOk(false, counts[..], displs[..], n)
    ensures LaidOut(false, l, n, buffer[..], old(buffer[..]))
  {
    Room(false, l, n, buffer.Length);
    counts[0], displs[0] := 0, 0;
    NothingLaidOut(false, l, buffer[..]);
    var displ, pos := DenseLoop(l, n, buffer, counts, displs);
  }

  /** coll/tst_coll_scatterv_stride.c: the same with a hole after each block. */
  method LayOutStrided(l: Layout, n: nat, buffer: array<Byte>, counts: array<nat>, displs: array<nat>)
    requires Valid(l) && n > 0 && IsAllocated(true, n, l.size, buffer.Length)
    requires counts.Length == displs.Length == n && counts != displs
    modifies buffer, counts, displs
    ensures CountsOk(true, counts[..], displs[..], n)
    ensures l.size <= buffer.Length && LaidOut(true, l, n, buffer[..], Element(l, SetMin) + old(buffer[l.size..]))
  {
    Room(true, l, n, buffer.Length);
    counts[0], displs[0] := 0, 0;
    SetElement(l, buffer, 0, SetMin);
    assert buffer[..] == Element(l, SetMin) + old(buffer[l.size..]);
    NothingLaidOut(true, l, buffer[..]);
    var displ, pos := StridedLoop(l, n, buffer, counts, displs);
  }

  // ---------------------------------------------------------------------------------------
  // What every rank receives
  // ---------------------------------------------------------------------------------------

  /** A root's send buffer, from what it was before the loop, and its two arrays. */
  datatype Root = Root(buffer: seq<Byte>, before: seq<Byte>, counts: seq<nat>, displs: seq<nat>)

  /** What LayOutDense or LayOutStrided leaves. */
  ghost predicate Prepared(strided: bool, l: Layout, n: nat, r: Root) {
    |r.counts| == |r.displs| == n && CountsOk(strided, r.counts, r.displs, n) && LaidOut(strided, l, n, r.buffer, r.before)
  }

  /** What MPI_Scatterv takes out of the root's send buffer for rank j. */
  function Scattered(l: Layout, r: Root, j: nat): seq<Byte> {
    if j < |r.counts| && j < |r.displs| && r.displs[j] * l.size + r.counts[j] * l.size <= |r.buffer|
    then r.buffer[r.displs[j] * l.size..r.displs[j] * l.size + r.counts[j] * l.size]
    else []
  }

  lemma PreparedEntry(strided: bool, l: Layout, n: nat, r: Root, j: nat)
    requires j < n && Prepared(strided, l, n, r)
    ensures r.counts[j] == j && r.displs[j] == Displ(strided, j) && Blocks(strided, l, n) <= r.buffer
  {
  }

  lemma ScatteredSlice(l: Layout, r: Root, j: nat, displ: nat)
    requires j < |r.counts| && j < |r.displs| && r.counts[j] == j && r.displs[j] == displ
    requires displ * l.size + j * l.size <= |r.buffer|
    ensures Scattered(l, r, j) == r.buffer[displ * l.size..displ * l.size + j * l.size]
  {
  }

  lemma NothingScattered(l: Layout, r: Root)
    requires 0 < |r.counts| && r.counts[0] == 0
    ensures Scattered(l, r, 0) == []
  {
  }

  /** A root's counts and displacements give rank j its j-element standard array. */
  lemma ScatteredIsStandard(strided: bool, l: Layout, n: nat, r: Root, j: nat)
    requires j < n && Prepared(strided, l, n, r)
    ensures Scattered(l, r, j) == StandardArray(l, j, j)
  {
    PreparedEntry(strided, l, n, r, j);
    if j >= 1 {
      BlockAt(strided, l, n, j, r.buffer);
      ScatteredSlice(l, r, j, Displ(strided, j));
    } else {
      NothingScattered(l, r);
    }
  }

  /** Rank j's receive buffer, up to its count, after the first k roots have had their turn. */
  function AfterRoots(l: Layout, roots: seq<Root>, j: nat, k: nat): (b: seq<Byte>)
    requires k <= |roots|
    ensures |b| == j * l.size
  {
    if k == 0 then Fresh(l, j)
    else
      var b := AfterRoots(l, roots, j, k - 1);
      var sent := Scattered(l, roots[k - 1], j);
      if |sent| == j * l.size then Receive(l, sent, b, j) else b
  }

  /** After every root's turn every rank j holds its j-element standard array, and its check counts no error. */
  lemma {:induction false} EveryRootPasses(strided: bool, l: Layout, n: nat, roots: seq<Root>, j: nat, k: nat)
    requires j < n && 1 <= k <= |roots| && forall i :: 0 <= i < |roots| ==> Prepared(strided, l, n, roots[i])
    ensures AfterRoots(l, roots, j, k) == StandardArray(l, j, j)
    ensures Errors(l, AfterRoots(l, roots, j, k), j, j) == 0
  {
    ScatteredIsStandard(strided, l, n, roots[k - 1], j);
    if k == 1 {
      ReceivedIsStandard(l, j, j);
    } else {
      EveryRootPasses(strided, l, n, roots, j, k - 1);
      ReceivedOverStandard(l, j, j, j);
    }
    StandardAccepted(l, StandardArray(l, j, j), j, j, j);
  }
}
