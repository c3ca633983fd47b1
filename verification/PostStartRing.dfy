/**
 * one-sided/tst_one_sided_simple_ring_get_post.c: every rank gets its predecessor's window between
 * MPI_Win_start and MPI_Win_complete, and exposes its own to its successor between MPI_Win_post and
 * MPI_Win_wait.  Rank 0 accesses first, all others expose first.
 *
 * MPI_Win_start may wait for the matching post or not (an arbitrary function of the rank says which);
 * MPI_Win_complete returns once the get has been done, which needs the exposure.
 */
module PostStartRing {
  import opened Lists
  import opened Options
  import opened Oracle
  import Rings
  import opened Runs

  datatype Config = Config(ranks: nat, startWaits: nat -> bool, layout: Layout, values: nat)
  {
    /** The rank in group_from, whose window is read, and the one in group_to. */
    function From(r: nat): nat { if ranks == 0 then 0 else (r + ranks - 1) % ranks }
    function To(r: nat): nat { if ranks == 0 then 0 else (r + 1) % ranks }
  }

  datatype Call = WinStart | Get | WinComplete | WinPost | WinWait | Return

  /** issued: the MPI_Get of the open access epoch has been called. */
  datatype Rank = Rank(pc: nat, issued: bool, data: Option<seq<Byte>>)
  type State = seq<Rank>

  /** The next MPI call of a rank. */
  function NextCall(r: nat, pc: nat): Call {
    var k := if r == 0 then pc else if pc < 2 then pc + 3 else if pc < 5 then pc - 2 else pc;
    if k == 0 then WinStart else if k == 1 then Get else if k == 2 then WinComplete
    else if k == 3 then WinPost else if k == 4 then WinWait else Return
  }

  function Initial(c: Config): State { seq(c.ranks, _ => Rank(0, false, None)) }

  /** Rank 0 gets first and then posts, the others post first and then get. */
  lemma CallOrder(r: nat)
    ensures [NextCall(r, 0), NextCall(r, 1), NextCall(r, 2), NextCall(r, 3), NextCall(r, 4)] ==
      if r == 0 then [WinStart, Get, WinComplete, WinPost, WinWait] else [WinPost, WinWait, WinStart, Get, WinComplete]
    ensures forall pc: nat :: NextCall(r, pc) == Return <==> pc >= 5
  {
  }

  /** r has posted its window to group_to; r's exposure is open; r has completed its access. */
  predicate HasPosted(s: State, r: nat) { r < |s| && (if r == 0 then s[r].pc >= 4 else s[r].pc >= 1) }
  predicate Exposes(s: State, r: nat) { HasPosted(s, r) && NextCall(r, s[r].pc).WinWait? }
  predicate HasCompleted(s: State, r: nat) { r < |s| && (if r == 0 then s[r].pc >= 3 else s[r].pc >= 5) }

  /** The post that r's access epoch matches: by its target, with r in the group. */
  predicate MatchingPost(c: Config, s: State, r: nat) { HasPosted(s, c.From(r)) && c.To(c.From(r)) == r }

  /** One rank's next call returns. */
  predicate Enabled(c: Config, s: State, r: nat) {
    r < |s| &&
    match NextCall(r, s[r].pc)
    case WinStart => c.startWaits(r) ==> MatchingPost(c, s, r)
    case Get => true
    case WinComplete => MatchingPost(c, s, r)
    case WinPost => true
    case WinWait => HasCompleted(s, c.To(r)) && c.From(c.To(r)) == r
    case Return => false
  }

  function Apply(c: Config, s: State, r: nat): State
    requires Enabled(c, s, r)
  {
    var k := s[r].(pc := s[r].pc + 1);
    match NextCall(r, s[r].pc)
    case Get => s[r := k.(issued := true)]
    case WinComplete =>
      s[r := k.(issued := false, data := if k.issued then Some(Delivered(c.layout, c.values, c.From(r))) else k.data)]
    case _ => s[r := k]
  }

  ghost function Moves(c: Config): (State, nat, State) -> bool {
    (s: State, r: nat, t: State) => Enabled(c, s, r) && t == Apply(c, s, r)
  }

  ghost predicate IsRun(c: Config, r: Run<State, nat>) { Follows(r, Initial(c), Moves(c)) }

  function Prev(c: Config, r: nat): nat { Rings.Prev(c.ranks, r) }
  function Next(c: Config, r: nat): nat { Rings.Next(c.ranks, r) }

  lemma Neighbours(c: Config, r: nat)
    requires r < c.ranks
    ensures c.From(r) == Prev(c, r) && c.To(r) == Next(c, r)
    ensures Prev(c, r) == (r + c.ranks - 1) % c.ranks && Next(c, r) == (r + 1) % c.ranks
    ensures c.To(c.From(r)) == r && c.From(c.To(r)) == r
  {
    Rings.Wrap(c.ranks, r);
    Rings.Wrap(c.ranks, Prev(c, r));
    Rings.Wrap(c.ranks, Next(c, r));
  }

  // ---------------------------------------------------------------------------------------
  // The invariant
  // ---------------------------------------------------------------------------------------

  predicate RankOk(c: Config, s: State, r: nat)
    requires |s| == c.ranks && r < c.ranks
  {
    && s[r].pc <= 5
    && (s[r].issued <==> NextCall(r, s[r].pc).WinComplete?)
    && (HasPosted(s, r) && !Exposes(s, r) ==> HasCompleted(s, Next(c, r)))
    && (HasCompleted(s, r) ==> HasPosted(s, Prev(c, r)) && s[r].data == Some(Delivered(c.layout, c.values, Prev(c, r))))
    && (c.ranks == 1 ==> s[r].pc <= 2)
  }

  ghost predicate Inv(c: Config, s: State) {
    |s| == c.ranks && forall r :: 0 <= r < c.ranks ==> RankOk(c, s, r)
  }

  lemma InitialOk(c: Config)
    ensures Inv(c, Initial(c))
  {
  }

  /** The rank that moves. */
  lemma MoverKeeps(c: Config, s: State, r: nat)
    requires Inv(c, s) && Enabled(c, s, r)
    ensures r < c.ranks && RankOk(c, Apply(c, s, r), r)
  {
    Neighbours(c, r);
    assert RankOk(c, s, r);
  }

  /** The others, of which only the neighbours look at its control point. */
  lemma OtherKeeps(c: Config, s: State, r: nat, k: nat)
    requires Inv(c, s) && Enabled(c, s, r) && k < c.ranks && k != r
    ensures RankOk(c, Apply(c, s, r), k)
  {
    assert RankOk(c, s, r) && RankOk(c, s, k);
  }

  lemma StepKeeps(c: Config, s: State, r: nat)
    requires Inv(c, s) && Enabled(c, s, r)
    ensures Inv(c, Apply(c, s, r))
  {
    var t := Apply(c, s, r);
    forall k | 0 <= k < c.ranks ensures RankOk(c, t, k) {
      if k == r { MoverKeeps(c, s, r); } else { OtherKeeps(c, s, r, k); }
    }
  }

  /** Whenever an access completes, its target's exposure epoch is open, for this very origin. */
  lemma AccessIsExposed(c: Config, s: State, r: nat)
    requires Inv(c, s) && Enabled(c, s, r) && NextCall(r, s[r].pc).WinComplete?
    ensures c.From(r) < |s| && Exposes(s, c.From(r)) && c.To(c.From(r)) == r
  {
    Neighbours(c, r);
    assert RankOk(c, s, r) && RankOk(c, s, c.From(r));
    assert Next(c, Prev(c, r)) == r;
  }

  // ---------------------------------------------------------------------------------------
  // Progress, termination, and theorems about runs
  // ---------------------------------------------------------------------------------------

  ghost predicate Stuck(c: Config, s: State) { forall r :: !Enabled(c, s, r) }

  predicate AllReturned(s: State) { forall r :: 0 <= r < |s| ==> NextCall(r, s[r].pc).Return? }

  /** With two or more ranks everybody but rank 0 posts at once, so rank 0 completes and posts. */
  lemma StuckRootPosted(c: Config, s: State)
    requires Inv(c, s) && Stuck(c, s) && c.ranks >= 2
    ensures s[0].pc >= 4
    ensures forall r :: 1 <= r < c.ranks ==> s[r].pc >= 1
  {
    forall r | 1 <= r < c.ranks ensures s[r].pc >= 1 {
      assert !Enabled(c, s, r);
    }
    Neighbours(c, 0);
    assert RankOk(c, s, 0) && !Enabled(c, s, 0);
    assert HasPosted(s, c.ranks - 1);
  }

  /** From the last rank down, each rank's wait and access return. */
  lemma StuckReturned(c: Config, s: State, r: nat)
    requires Inv(c, s) && Stuck(c, s) && 1 <= r < c.ranks
    ensures s[r].pc == 5
    decreases c.ranks - r
  {
    StuckRootPosted(c, s);
    if r + 1 < c.ranks { StuckReturned(c, s, r + 1); }
    Neighbours(c, r);
    assert RankOk(c, s, r) && !Enabled(c, s, r);
    assert HasPosted(s, r - 1);
  }

  lemma StuckIsOver(c: Config, s: State)
    requires Inv(c, s) && Stuck(c, s) && c.ranks >= 2
    ensures AllReturned(s)
  {
    forall r | 0 <= r < |s| ensures NextCall(r, s[r].pc).Return? {
      if r == 0 {
        StuckRootPosted(c, s);
        StuckReturned(c, s, 1);
        Neighbours(c, 0);
        assert RankOk(c, s, 0) && !Enabled(c, s, 0);
      } else {
        StuckReturned(c, s, r);
      }
    }
  }

  function RankWeight(): Rank -> nat { (k: Rank) => if k.pc < 5 then 5 - k.pc else 0 }
  function Measure(): State -> nat { (s: State) => Sum(RankWeight(), s) }

  lemma MeasureDrops(c: Config, s: State, r: nat)
    requires Inv(c, s) && Enabled(c, s, r)
    ensures Measure()(Apply(c, s, r)) < Measure()(s)
  {
    assert RankOk(c, s, r);
    SumUpdate(RankWeight(), s, r, Apply(c, s, r)[r]);
  }

  /** The protocol with its invariant and its measure. */
  ghost function Protocol(c: Config): System<State, nat> {
    System(Initial(c), Moves(c), (s: State) => Inv(c, s), Measure(), (a: nat) => false)
  }

  lemma ProtocolSound(c: Config)
    ensures Sound(Protocol(c))
  {
    InitialOk(c);
    forall s, a, t | Inv(c, s) && Moves(c)(s, a, t) ensures Inv(c, t) && Measure()(t) < Measure()(s) {
      StepKeeps(c, s, a);
      MeasureDrops(c, s, a);
    }
  }

  lemma RunInv(c: Config, r: Run<State, nat>)
    requires IsRun(c, r)
    ensures forall k :: 0 <= k < |r.states| ==> Inv(c, r.states[k])
  {
    ProtocolSound(c);
    SystemInvariant(Protocol(c), r);
  }

  lemma RunsAreBounded(c: Config, r: Run<State, nat>)
    requires IsRun(c, r)
    ensures |r.actions| <= Measure()(Initial(c))
  {
    ProtocolSound(c);
    SystemBounded(Protocol(c), r);
    CountNone(Protocol(c).spurious, r.actions);
  }

  /** Every get of every run reads its predecessor's window inside the matching exposure epoch. */
  lemma RunsAccessExposed(c: Config, r: Run<State, nat>, k: nat)
    requires IsRun(c, r) && k < |r.actions| && r.actions[k] < |r.states[k]|
    requires NextCall(r.actions[k], r.states[k][r.actions[k]].pc).WinComplete?
    ensures c.From(r.actions[k]) < |r.states[k]| && Exposes(r.states[k], c.From(r.actions[k]))
  {
    RunInv(c, r);
    assert Moves(c)(r.states[k], r.actions[k], r.states[k + 1]);
    AccessIsExposed(c, r.states[k], r.actions[k]);
  }

  /** Every rank holds rank - 1's array and passes the check. */
  ghost predicate AllChecked(c: Config, s: State) {
    forall r :: 0 <= r < |s| ==>
      c.ranks > 0 && s[r].data.Some? && Errors(c.layout, s[r].data.value, c.values, (r + c.ranks - 1) % c.ranks) == 0
  }

  lemma CheckedAt(c: Config, s: State, r: nat)
    requires Inv(c, s) && r < c.ranks && NextCall(r, s[r].pc).Return?
    ensures s[r].data.Some? && Errors(c.layout, s[r].data.value, c.values, (r + c.ranks - 1) % c.ranks) == 0
  {
    Neighbours(c, r);
    assert RankOk(c, s, r);
    DeliveredPasses(c.layout, c.values, Prev(c, r));
  }

  /**
   * Whether or not starts wait: a run that cannot go on has returned on every rank, with the right
   * data, if and only if there are at least two ranks, which is the test's min_comm_size.
   */
  lemma StuckRunsAreComplete(c: Config, r: Run<State, nat>)
    requires IsRun(c, r) && Stuck(c, r.Last()) && c.ranks > 0
    ensures AllReturned(r.Last()) && AllChecked(c, r.Last()) <==> c.ranks >= 2
  {
    RunInv(c, r);
    var s := r.Last();
    if c.ranks >= 2 {
      StuckIsOver(c, s);
      forall k | 0 <= k < |s|
        ensures s[k].data.Some? && Errors(c.layout, s[k].data.value, c.values, (k + c.ranks - 1) % c.ranks) == 0
      {
        CheckedAt(c, s, k);
      }
    } else {
      assert RankOk(c, s, 0);
    }
  }

  /** Every run goes on to a state where nothing more happens, and with two ranks that is the end of the test. */
  lemma EveryRunEnds(c: Config, r: Run<State, nat>) returns (q: Run<State, nat>)
    requires IsRun(c, r) && c.ranks > 0
    ensures IsRun(c, q) && Extends(q, r) && Stuck(c, q.Last())
    ensures AllReturned(q.Last()) && AllChecked(c, q.Last()) <==> c.ranks >= 2
  {
    ProtocolSound(c);
    q := RunOn(Protocol(c), r);
    forall a ensures !Enabled(c, q.Last(), a) {
      if Enabled(c, q.Last(), a) { HaltedStep(Protocol(c), q.Last(), a, Apply(c, q.Last(), a)); }
    }
    StuckRunsAreComplete(c, q);
  }
}
