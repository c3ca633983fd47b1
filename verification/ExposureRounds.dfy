/**
 * one-sided/tst_get_with_post.c and one-sided/tst_accumulate_with_post_min.c: in round i, rank i
 * posts its window to all others and waits, while every other rank starts an access epoch on rank i,
 * gets from its window or accumulates into it with MPI_MIN, and completes.  Nothing else keeps the
 * ranks in step.
 */
module ExposureRounds {
  import opened Lists
  import opened Options
  import opened Oracle
  import opened Reductions
  import opened Runs

  /**
   * startWaits(r, i): the start of rank r in round i waits for the post.  Only the accumulate test
   * uses field, as the numbers of its window; what holds of the windows holds if it is a type.
   */
  datatype Config = Config(ranks: nat, startWaits: (nat, nat) -> bool, layout: Layout, field: Field, values: nat)

  /**
   * pos is twice the loop variable, plus one between the two epoch calls of a round; slots are the
   * receive buffers of the get test, window the exposed buffer of the accumulate test.
   */
  datatype Rank = Rank(pos: nat, slots: seq<Option<seq<Byte>>>, window: seq<real>)
  type State = seq<Rank>

  /** Both inits fill the rank's own buffer with its standard array. */
  function InitialRank(c: Config, r: nat): Rank {
    Rank(0, seq(c.ranks, i => if i == r then Some(StandardArray(c.layout, c.values, r)) else None),
         StandardValues(c.field, c.values, r))
  }

  function Initial(c: Config): State { seq(c.ranks, r requires 0 <= r < c.ranks => InitialRank(c, r)) }

  function Round(k: Rank): nat { k.pos / 2 }

  /** i has posted its window; r has completed its access in round i. */
  predicate Posted(s: State, i: nat) { i < |s| && s[i].pos > 2 * i }
  predicate Completed(s: State, r: nat, i: nat) { r < |s| && s[r].pos > 2 * i + 1 }

  /** The exposure epoch of i is open. */
  predicate Exposes(s: State, i: nat) { i < |s| && s[i].pos == 2 * i + 1 }

  /** Rank r's next call returns: post or wait in its own round, start or complete in another's. */
  predicate Enabled(c: Config, s: State, r: nat) {
    r < |s| && Round(s[r]) < |s| &&
    var i := Round(s[r]);
    if i == r then
      s[r].pos % 2 == 1 ==> forall k :: 0 <= k < |s| && k != r ==> Completed(s, k, i)
    else if s[r].pos % 2 == 0 then c.startWaits(r, i) ==> Posted(s, i)
    else Posted(s, i)
  }

  function MinValues(f: Field, a: seq<real>, b: seq<real>): seq<real> {
    seq(if |a| < |b| then |a| else |b|, i requires 0 <= i < |a| && 0 <= i < |b| => Combine(f, MinOp, a[i], b[i]))
  }

  /** The access takes effect when MPI_Win_complete returns. */
  function Apply(c: Config, s: State, r: nat): State
    requires Enabled(c, s, r)
  {
    var i := Round(s[r]);
    var k := s[r].(pos := s[r].pos + 1);
    if i != r && s[r].pos % 2 == 1 then
      var slots := if i < |k.slots| then k.slots[i := Some(Delivered(c.layout, c.values, i))] else k.slots;
      s[r := k.(slots := slots)][i := s[i].(window := MinValues(c.field, s[i].window, StandardValues(c.field, c.values, r)))]
    else s[r := k]
  }

  ghost function Moves(c: Config): (State, nat, State) -> bool {
    (s: State, r: nat, t: State) => Enabled(c, s, r) && t == Apply(c, s, r)
  }

  ghost predicate IsRun(c: Config, r: Run<State, nat>) { Follows(r, Initial(c), Moves(c)) }

  // ---------------------------------------------------------------------------------------
  // The invariant
  // ---------------------------------------------------------------------------------------

  /** r's array is in the window of i. */
  predicate Contributes(s: State, i: nat, r: nat) { r == i || Completed(s, r, i) }

  /** The window is the standard array of the least contributor. */
  ghost predicate WindowOk(c: Config, s: State, i: nat)
    requires i < |s|
  {
    exists m :: 0 <= m < |s| && Contributes(s, i, m) && s[i].window == StandardValues(c.field, c.values, m)
      && forall r :: 0 <= r < |s| && Contributes(s, i, r) ==> m <= r
  }

  predicate PairOk(c: Config, s: State, r: nat, i: nat)
    requires r < |s| && i < |s| && i < |s[r].slots|
  {
    && (Completed(s, r, i) && r != i ==> Posted(s, i) && s[r].slots[i] == Some(Delivered(c.layout, c.values, i)))
    && (s[i].pos > 2 * i + 1 && r != i ==> Completed(s, r, i))
    && (r == i ==> s[r].slots[i] == Some(StandardArray(c.layout, c.values, r)))
  }

  ghost predicate Inv(c: Config, s: State) {
    && |s| == c.ranks
    && (forall r :: 0 <= r < c.ranks ==> |s[r].slots| == c.ranks && s[r].pos <= 2 * c.ranks)
    && (forall r, i :: 0 <= r < c.ranks && 0 <= i < c.ranks ==> PairOk(c, s, r, i))
    && (IsType(c.field) ==> forall i :: 0 <= i < c.ranks ==> WindowOk(c, s, i))
  }

  lemma InitialOk(c: Config)
    ensures Inv(c, Initial(c))
  {
    var s := Initial(c);
    forall i | 0 <= i < c.ranks ensures WindowOk(c, s, i) {
      assert Contributes(s, i, i);
    }
  }

  /** The elementwise minimum of two standard arrays is that of the lesser rank. */
  lemma MinOfTwo(f: Field, n: nat, a: nat, b: nat)
    requires IsType(f)
    ensures MinValues(f, StandardValues(f, n, a), StandardValues(f, n, b)) == StandardValues(f, n, if a < b then a else b)
  {
    forall i | 0 <= i < n
      ensures Combine(f, MinOp, StandardValue(f, i, a), StandardValue(f, i, b)) == StandardValue(f, i, if a < b then a else b)
    {
      if a < b { Monotone(f, i, a, b); } else { Monotone(f, i, b, a); }
    }
  }

  lemma SlotsKeep(c: Config, s: State, r: nat)
    requires Inv(c, s) && Enabled(c, s, r)
    ensures var t := Apply(c, s, r);
      && |t| == c.ranks
      && (forall k :: 0 <= k < c.ranks ==> |t[k].slots| == c.ranks && t[k].pos <= 2 * c.ranks)
      && (forall k :: 0 <= k < c.ranks ==> t[k].pos == s[k].pos + (if k == r then 1 else 0))
      && (forall k, i :: 0 <= k < c.ranks && 0 <= i < c.ranks ==> PairOk(c, t, k, i))
  {
    var t := Apply(c, s, r);
    forall k, i | 0 <= k < c.ranks && 0 <= i < c.ranks ensures PairOk(c, t, k, i) {
      assert PairOk(c, s, k, i);
    }
  }

  /** A new contributor to window i takes the minimum with its own array. */
  lemma WindowGains(c: Config, s: State, t: State, i: nat, r: nat)
    requires IsType(c.field) && i < |s| == |t| && r < |s| && r != i && WindowOk(c, s, i)
    requires t[i].window == MinValues(c.field, s[i].window, StandardValues(c.field, c.values, r))
    requires forall k :: 0 <= k < |s| ==> (Contributes(t, i, k) <==> Contributes(s, i, k) || k == r)
    ensures WindowOk(c, t, i)
  {
    var m :| 0 <= m < |s| && Contributes(s, i, m) && s[i].window == StandardValues(c.field, c.values, m)
      && forall k :: 0 <= k < |s| && Contributes(s, i, k) ==> m <= k;
    MinOfTwo(c.field, c.values, m, r);
    var m' := if m < r then m else r;
    assert Contributes(t, i, m') && t[i].window == StandardValues(c.field, c.values, m');
  }

  lemma WindowStays(c: Config, s: State, t: State, i: nat)
    requires i < |s| == |t| && WindowOk(c, s, i) && t[i].window == s[i].window
    requires forall k :: 0 <= k < |s| ==> (Contributes(t, i, k) <==> Contributes(s, i, k))
    ensures WindowOk(c, t, i)
  {
    var m :| 0 <= m < |s| && Contributes(s, i, m) && s[i].window == StandardValues(c.field, c.values, m)
      && forall k :: 0 <= k < |s| && Contributes(s, i, k) ==> m <= k;
    assert Contributes(t, i, m);
  }

  lemma StepKeeps(c: Config, s: State, r: nat)
    requires Inv(c, s) && Enabled(c, s, r)
    ensures Inv(c, Apply(c, s, r))
  {
    SlotsKeep(c, s, r);
    var t := Apply(c, s, r);
    var j := Round(s[r]);
    forall i | IsType(c.field) && 0 <= i < c.ranks ensures WindowOk(c, t, i) {
      assert WindowOk(c, s, i);
      if i == j && j != r && s[r].pos % 2 == 1 {
        WindowGains(c, s, t, i, r);
      } else {
        WindowStays(c, s, t, i);
      }
    }
  }

  /** Ranks may drift apart, but every access falls in its target's own round, while its epoch is open. */
  lemma AccessIsExposed(c: Config, s: State, r: nat)
    requires Inv(c, s) && Enabled(c, s, r) && Round(s[r]) != r && s[r].pos % 2 == 1
    ensures Exposes(s, Round(s[r])) && Round(s[Round(s[r])]) == Round(s[r])
  {
    assert PairOk(c, s, r, Round(s[r]));
  }

  // ---------------------------------------------------------------------------------------
  // Progress, termination, and theorems about runs
  // ---------------------------------------------------------------------------------------

  ghost predicate Stuck(c: Config, s: State) { forall r :: !Enabled(c, s, r) }

  lemma {:induction false} Slowest(s: State) returns (r: nat)
    requires s != []
    ensures r < |s| && forall k :: 0 <= k < |s| ==> s[r].pos <= s[k].pos
  {
    r := 0;
    if |s| > 1 {
      var q := Slowest(s[1..]);
      r := if s[q + 1].pos < s[0].pos then q + 1 else 0;
      forall k | 0 <= k < |s| ensures s[r].pos <= s[k].pos {
        if k > 0 { assert s[k] == s[1..][k - 1]; }
      }
    }
  }

  /** The owner of the slowest rank's round, or that rank itself, can move. */
  lemma Progress(c: Config, s: State) returns (a: nat)
    requires Inv(c, s) && exists r :: 0 <= r < c.ranks && s[r].pos < 2 * c.ranks
    ensures Enabled(c, s, a)
  {
    var r := Slowest(s);
    var i := Round(s[r]);
    assert i < c.ranks && PairOk(c, s, r, i);
    if r != i {
      a := if Posted(s, i) then r else i;
    } else if s[r].pos % 2 == 0 || forall k :: 0 <= k < |s| && k != r ==> Completed(s, k, i) {
      a := r;
    } else {
      a :| 0 <= a < |s| && a != r && !Completed(s, a, i);
    }
  }

  function RankWeight(c: Config): Rank -> nat {
    (k: Rank) => if k.pos < 2 * c.ranks then 2 * c.ranks - k.pos else 0
  }

  function Measure(c: Config): State -> nat { (s: State) => Sum(RankWeight(c), s) }

  lemma MeasureDrops(c: Config, s: State, r: nat)
    requires Inv(c, s) && Enabled(c, s, r)
    ensures Measure(c)(Apply(c, s, r)) < Measure(c)(s)
  {
    var t := Apply(c, s, r);
    var i := Round(s[r]);
    var mid := s[r := s[r].(pos := s[r].pos + 1, slots := t[r].slots)];
    SumUpdate(RankWeight(c), s, r, mid[r]);
    SumUpdate(RankWeight(c), mid, i, t[i]);
    assert t == mid[i := t[i]];
  }

  /** The protocol with its invariant and its measure. */
  ghost function Protocol(c: Config): System<State, nat> {
    System(Initial(c), Moves(c), (s: State) => Inv(c, s), Measure(c), (a: nat) => false)
  }

  lemma ProtocolSound(c: Config)
    ensures Sound(Protocol(c))
  {
    InitialOk(c);
    forall s, a, t | Inv(c, s) && Moves(c)(s, a, t) ensures Inv(c, t) && Measure(c)(t) < Measure(c)(s) {
      StepKeeps(c, s, a);
      MeasureDrops(c, s, a);
    }
  }

  lemma RunInv(c: Config, r: Run<State, nat>)
    requires IsRun(c, r)
    ensures forall k :: 0 <= k < |r.states| ==> Inv(c, r.states[k])
  {
    ProtocolSound(c);
    SystemInvariant(Protocol(c), r);
  }

  lemma RunsAreBounded(c: Config, r: Run<State, nat>)
    requires IsRun(c, r)
    ensures |r.actions| <= Measure(c)(Initial(c))
  {
    ProtocolSound(c);
    SystemBounded(Protocol(c), r);
    CountNone(Protocol(c).spurious, r.actions);
  }

  lemma RunsAccessExposed(c: Config, r: Run<State, nat>, k: nat)
    requires IsRun(c, r) && k < |r.actions| && r.actions[k] < |r.states[k]|
    requires var x := r.states[k][r.actions[k]]; Round(x) != r.actions[k] && x.pos % 2 == 1
    ensures Exposes(r.states[k], Round(r.states[k][r.actions[k]]))
  {
    RunInv(c, r);
    assert Moves(c)(r.states[k], r.actions[k], r.states[k + 1]);
    AccessIsExposed(c, r.states[k], r.actions[k]);
  }

  /** Every rank has been through all rounds; every slot passes the check for its owner. */
  ghost predicate AllGot(c: Config, s: State) {
    |s| == c.ranks &&
    forall r, i :: 0 <= r < c.ranks && 0 <= i < c.ranks ==>
      && s[r].pos == 2 * c.ranks && i < |s[r].slots| && s[r].slots[i].Some?
      && Errors(c.layout, s[r].slots[i].value, c.values, i) == 0
  }

  /** Every window is the standard array of rank 0. */
  ghost predicate AllMinimal(c: Config, s: State) {
    forall i :: 0 <= i < |s| ==> s[i].window == StandardValues(c.field, c.values, 0)
  }

  lemma SlotPasses(c: Config, s: State, r: nat, i: nat)
    requires Inv(c, s) && r < c.ranks && i < c.ranks && s[r].pos == 2 * c.ranks
    ensures s[r].slots[i].Some? && Errors(c.layout, s[r].slots[i].value, c.values, i) == 0
  {
    assert PairOk(c, s, r, i);
    if r == i {
      StandardAccepted(c.layout, StandardArray(c.layout, c.values, r), c.values, c.values, r);
    } else {
      DeliveredPasses(c.layout, c.values, i);
    }
  }

  /** No interleaving deadlocks, for any number of ranks; gets leave every owner's array, minima rank 0's. */
  lemma StuckRunsAreComplete(c: Config, r: Run<State, nat>)
    requires IsRun(c, r) && Stuck(c, r.Last())
    ensures AllGot(c, r.Last()) && (IsType(c.field) ==> AllMinimal(c, r.Last()))
  {
    RunInv(c, r);
    var s := r.Last();
    if exists k :: 0 <= k < c.ranks && s[k].pos < 2 * c.ranks {
      var a := Progress(c, s);
    }
    forall q, i | 0 <= q < c.ranks && 0 <= i < c.ranks
      ensures s[q].slots[i].Some? && Errors(c.layout, s[q].slots[i].value, c.values, i) == 0
    {
      SlotPasses(c, s, q, i);
    }
    forall i | IsType(c.field) && 0 <= i < |s| ensures s[i].window == StandardValues(c.field, c.values, 0) {
      assert WindowOk(c, s, i);
      assert Contributes(s, i, 0);
    }
  }

  /** Every run can go on until all rounds are done. */
  lemma EveryRunEnds(c: Config, r: Run<State, nat>) returns (q: Run<State, nat>)
    requires IsRun(c, r)
    ensures IsRun(c, q) && Extends(q, r) && Stuck(c, q.Last())
    ensures AllGot(c, q.Last()) && (IsType(c.field) ==> AllMinimal(c, q.Last()))
  {
    ProtocolSound(c);
    q := RunOn(Protocol(c), r);
    forall a ensures !Enabled(c, q.Last(), a) {
      if Enabled(c, q.Last(), a) { HaltedStep(Protocol(c), q.Last(), a, Apply(c, q.Last(), a)); }
    }
    StuckRunsAreComplete(c, q);
  }

  /** The accumulate test compares every window with rank 0's standard array. */
  lemma WindowsPass(c: Config, s: State, i: nat, b: seq<Byte>)
    requires IsScalar(c.layout) && c.field == c.layout.fields[0]
    requires AllMinimal(c, s) && i < |s| && forall k :: 0 <= k < c.values ==> Has(c.layout, b, k, s[i].window[k])
    ensures Errors(c.layout, b, c.values, 0) == 0
  {
    forall k | 0 <= k < c.values ensures Fits(c.field, s[i].window[k]) { SettingFits(c.field, SettingAt(k, 0)); }
    ValuesPass(c.layout, b, s[i].window, c.values, 0);
  }
}
