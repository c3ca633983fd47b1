/**
 * tst_hash_value of mpi_test_suite.c, the tag of the tests that run without a barrier, and the tags
 * the driver loop gives to the consecutive runs of one test on one communicator.
 */
module HashTag {
  import opened Products

  const COMM_FACTOR := 65521
  const TYPE_FACTOR := 32749

  /** The sum before the reduction modulo tst_tag_ub. */
  function Unreduced(comm: nat, typ: nat, test: nat): nat { comm * COMM_FACTOR + typ * TYPE_FACTOR + test }

  function Hash(comm: nat, typ: nat, test: nat, ub: nat): nat
    requires ub > 0
  {
    Unreduced(comm, typ, test) % ub
  }

  /** The tag is the remainder of the weighted sum: below tst_tag_ub, so MPI allows it, and a multiple of it away. */
  lemma HashInRange(comm: nat, typ: nat, test: nat, ub: nat)
    requires ub > 0
    ensures 0 <= Hash(comm, typ, test, ub) < ub
    ensures exists q: nat :: comm * 65521 + typ * 32749 + test == q * ub + Hash(comm, typ, test, ub)
    ensures Divides(ub, comm * 65521 + typ * 32749 + test - Hash(comm, typ, test, ub))
  {
    var x := comm * 65521 + typ * 32749 + test;
    var q: nat := x / ub;
    assert x == q * ub + Hash(comm, typ, test, ub);
    Multiple(ub, q);
  }

  /** Two runs share a tag exactly when tst_tag_ub divides the difference of their sums. */
  lemma HashEqual(c1: nat, t1: nat, s1: nat, c2: nat, t2: nat, s2: nat, ub: nat)
    requires ub > 0
    ensures Hash(c1, t1, s1, ub) == Hash(c2, t2, s2, ub) <==> Divides(ub, Unreduced(c1, t1, s1) - Unreduced(c2, t2, s2))
  {
    SameRemainder(Unreduced(c1, t1, s1), Unreduced(c2, t2, s2), ub);
  }

  /** On one communicator, test numbers below 32749 make the sum tell both the type and the test. */
  lemma SumsTell(comm: nat, t1: nat, s1: nat, t2: nat, s2: nat)
    requires s1 < TYPE_FACTOR && s2 < TYPE_FACTOR
    ensures Unreduced(comm, t1, s1) == Unreduced(comm, t2, s2) <==> t1 == t2 && s1 == s2
  {
  }

  /** So as long as their sums are less than tst_tag_ub apart, such tests and types never share a tag. */
  lemma CloseSumsDiffer(comm: nat, t1: nat, s1: nat, t2: nat, s2: nat, ub: nat)
    requires ub > 0 && s1 < TYPE_FACTOR && s2 < TYPE_FACTOR
    requires 0 - ub < Unreduced(comm, t1, s1) - Unreduced(comm, t2, s2) < ub
    ensures Hash(comm, t1, s1, ub) == Hash(comm, t2, s2, ub) <==> t1 == t2 && s1 == s2
  {
    var x := Unreduced(comm, t1, s1) - Unreduced(comm, t2, s2);
    SumsTell(comm, t1, s1, t2, s2);
    HashEqual(comm, t1, s1, comm, t2, s2, ub);
    if Divides(ub, x) && x != 0 {
      assert x == ub * (x / ub);
      MultiplesFarFromZero(ub, x / ub);
    }
  }

  /** Across communicators, which keep their messages apart anyway, even the sums can be the same. */
  lemma NextCommCollides(comm: nat, typ: nat, test: nat, ub: nat)
    requires ub > 0
    ensures Unreduced(comm + 1, typ, test) == Unreduced(comm, typ + 2, test + 23)
    ensures Hash(comm + 1, typ, test, ub) == Hash(comm, typ + 2, test + 23, ub)
  {
  }

  /** With the smallest tst_tag_ub that MPI allows, the next type and the eighteenth next test cancel out. */
  lemma NextTypeCollides(comm: nat, typ: nat, test: nat)
    ensures Hash(comm, typ + 1, test + 18, 32767) == Hash(comm, typ, test, 32767)
  {
    HashEqual(comm, typ + 1, test + 18, comm, typ, test, 32767);
  }

  /** For one test on one communicator only the type numbers decide. */
  lemma TypeTags(comm: nat, t1: nat, t2: nat, test: nat, ub: nat)
    requires ub > 0
    ensures Hash(comm, t1, test, ub) == Hash(comm, t2, test, ub) <==> Divides(ub, (t1 - t2) * TYPE_FACTOR)
  {
    HashEqual(comm, t1, test, comm, t2, test, ub);
    assert Unreduced(comm, t1, test) - Unreduced(comm, t2, test) == (t1 - t2) * TYPE_FACTOR;
  }

  /** With the smallest tst_tag_ub they are always told apart: 32749 and 32767 have no common factor. */
  lemma SmallestBoundTells(t1: nat, t2: nat)
    requires t1 < 32767 && t2 < 32767
    ensures Divides(32767, (t1 - t2) * TYPE_FACTOR) <==> t1 == t2
  {
    var d := t1 - t2;
    if Divides(32767, d * TYPE_FACTOR) {
      var m := d * TYPE_FACTOR / 32767;
      assert d * TYPE_FACTOR == 32767 * m;
      // 32749 * 23665 - 32767 * 23652 == 1
      assert d == 32767 * (23665 * m - 23652 * d);
      if d != 0 { MultiplesFarFromZero(32767, 23665 * m - 23652 * d); }
    }
  }

  // ---------------------------------------------------------------------------------------
  // The runs of one test on one communicator
  // ---------------------------------------------------------------------------------------

  /** One pass of the inner driver loops. */
  datatype Pass = Pass(typ: nat, values: nat)

  function Row(typ: nat, values: seq<nat>): (ps: seq<Pass>)
    ensures |ps| == |values| && forall l :: 0 <= l < |values| ==> ps[l] == Pass(typ, values[l])
  {
    seq(|values|, l requires 0 <= l < |values| => Pass(typ, values[l]))
  }

  function Passes(types: seq<nat>, values: seq<nat>): (ps: seq<Pass>)
    ensures |ps| == |types| * |values|
  {
    if types == [] then [] else Passes(types[..|types| - 1], values) + Row(types[|types| - 1], values)
  }

  /** The pass of type number k and values number l. */
  lemma {:induction false} PassAt(types: seq<nat>, values: seq<nat>, k: nat, l: nat)
    requires k < |types| && l < |values|
    ensures k * |values| + l < |Passes(types, values)|
    ensures Passes(types, values)[k * |values| + l] == Pass(types[k], values[l])
  {
    var n := |types| - 1;
    assert |types| * |values| == n * |values| + |values|;
    if k < n {
      PassAt(types[..n], values, k, l);
    }
  }

  /** The two inner loops of the driver: values_num changes fastest. */
  method DriverLoop(types: seq<nat>, values: seq<nat>) returns (ps: seq<Pass>)
    ensures ps == Passes(types, values)
  {
    ps := [];
    var k := 0;
    while k < |types|
      invariant 0 <= k <= |types|
      invariant ps == Passes(types[..k], values)
    {
      ghost var before := ps;
      var l := 0;
      while l < |values|
        invariant 0 <= l <= |values|
        invariant ps == before + Row(types[k], values)[..l]
      {
        ps := ps + [Pass(types[k], values[l])];
        l := l + 1;
      }
      assert types[..k + 1][..k] == types[..k];
      k := k + 1;
    }
    assert types[..|types|] == types;
  }

  /** Every pass has a type number and a values number. */
  lemma PassIndex(types: seq<nat>, values: seq<nat>, i: nat) returns (k: nat, l: nat)
    requires i < |Passes(types, values)|
    ensures k < |types| && l < |values| && i == k * |values| + l
  {
    var n := |values|;
    assert n > 0;
    k, l := i / n, i % n;
    assert i == k * n + l;
    if k >= |types| { Ordered(|types|, k, n); }
  }

  ghost predicate Distinct(xs: seq<nat>) { forall i, j :: 0 <= i < j < |xs| ==> xs[i] != xs[j] }

  function Tags(comm: nat, test: nat, ub: nat, ps: seq<Pass>): (ts: seq<nat>)
    requires ub > 0
    ensures |ts| == |ps| && forall i :: 0 <= i < |ps| ==> ts[i] == Hash(comm, ps[i].typ, test, ub)
  {
    seq(|ps|, i requires 0 <= i < |ps| => Hash(comm, ps[i].typ, test, ub))
  }

  /** The tag does not depend on the number of values: two adjacent passes of one type share it. */
  lemma AdjacentShare(comm: nat, test: nat, ub: nat, types: seq<nat>, values: seq<nat>)
    requires ub > 0 && types != [] && |values| >= 2
    ensures |Passes(types, values)| >= 2
    ensures Tags(comm, test, ub, Passes(types, values))[0] == Tags(comm, test, ub, Passes(types, values))[1]
  {
    PassAt(types, values, 0, 0);
    PassAt(types, values, 0, 1);
  }

  /** tst_tag_ub tells the types of the list apart. */
  ghost predicate Separates(ub: nat, types: seq<nat>)
    requires ub > 0
  {
    forall i, j :: 0 <= i < j < |types| ==> !Divides(ub, (types[i] - types[j]) * TYPE_FACTOR)
  }

  lemma PassesApart(comm: nat, test: nat, ub: nat, types: seq<nat>, values: seq<nat>, i: nat, j: nat)
    requires ub > 0 && Separates(ub, types) && |values| <= 1 && i < j < |Passes(types, values)|
    ensures Hash(comm, Passes(types, values)[i].typ, test, ub) != Hash(comm, Passes(types, values)[j].typ, test, ub)
  {
    var k1, l1 := PassIndex(types, values, i);
    var k2, l2 := PassIndex(types, values, j);
    PassAt(types, values, k1, l1);
    PassAt(types, values, k2, l2);
    TypeTags(comm, types[k1], types[k2], test, ub);
  }

  lemma TypesMustSeparate(comm: nat, test: nat, ub: nat, types: seq<nat>, values: seq<nat>, i: nat, j: nat)
    requires ub > 0 && values != [] && i < j < |types| && Divides(ub, (types[i] - types[j]) * TYPE_FACTOR)
    ensures !Distinct(Tags(comm, test, ub, Passes(types, values)))
  {
    PassAt(types, values, i, 0);
    PassAt(types, values, j, 0);
    TypeTags(comm, types[i], types[j], test, ub);
    Ordered(i + 1, j, |values|);
    assert (i + 1) * |values| == i * |values| + |values|;
    var ts := Tags(comm, test, ub, Passes(types, values));
    assert ts[i * |values|] == ts[j * |values|];
  }

  /**
   * The passes of one test on one communicator have pairwise distinct tags if and only if there is
   * one values_num and tst_tag_ub separates the types.
   */
  lemma DriverTagsDistinct(comm: nat, test: nat, ub: nat, types: seq<nat>, values: seq<nat>)
    requires ub > 0 && types != [] && values != []
    ensures Distinct(Tags(comm, test, ub, Passes(types, values))) <==> |values| == 1 && Separates(ub, types)
  {
    if |values| >= 2 {
      AdjacentShare(comm, test, ub, types, values);
    } else if Separates(ub, types) {
      var ts := Tags(comm, test, ub, Passes(types, values));
      forall i, j | 0 <= i < j < |ts| ensures ts[i] != ts[j] {
        PassesApart(comm, test, ub, types, values, i, j);
      }
    } else {
      var i, j :| 0 <= i < j < |types| && Divides(ub, (types[i] - types[j]) * TYPE_FACTOR);
      TypesMustSeparate(comm, test, ub, types, values, i, j);
    }
  }
}
