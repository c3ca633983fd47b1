/**
 * p2p/tst_p2p_alltoall_irsend.c: every rank posts its receives top-down, passes a barrier, and sends
 * bottom-up in ready mode, which is erroneous unless the matching receive is already posted
 * (section 3.4 of MPI-3.1).
 */
module ReadyMode {
  import opened Lists
  import opened Oracle
  import opened Runs

  /** eager(r, d): the request of r's send to d completes without waiting for its arrival. */
  datatype Config = Config(ranks: nat, eager: (nat, nat) -> bool, layout: Layout, values: nat)
  {
    /** The source named by the receive into recv_buffer_array[slot]. */
    function Source(slot: nat): nat { if slot < ranks then ranks - slot - 1 else 0 }
  }

  /** A receive: not posted, posted, matched by a ready send, or done with its status and data. */
  datatype Slot = Unposted | Posted | Matched(source: nat) | Received(source: nat, data: seq<Byte>)

  datatype Pc = Posting(k: nat) | AtBarrier | Sending(k: nat) | WaitAll | Done | Erroneous

  datatype Rank = Rank(pc: Pc, slots: seq<Slot>)
  type State = seq<Rank>

  datatype Action = Call(r: nat) | Arrive(d: nat, slot: nat)

  function Initial(c: Config): State { seq(c.ranks, _ => Rank(Posting(0), seq(c.ranks, _ => Unposted))) }

  /** The first posted receive that matches a message from source, or |slots|. */
  function Find(c: Config, slots: seq<Slot>, source: nat, from: nat): (j: nat)
    requires from <= |slots|
    ensures from <= j <= |slots|
    ensures j < |slots| ==> slots[j].Posted? && c.Source(j) == source
    ensures forall i :: from <= i < j ==> !(slots[i].Posted? && c.Source(i) == source)
    decreases |slots| - from
  {
    if from == |slots| || (slots[from].Posted? && c.Source(from) == source) then from
    else Find(c, slots, source, from + 1)
  }

  predicate PastBarrier(pc: Pc) { pc.Sending? || pc.WaitAll? || pc.Done? || pc.Erroneous? }

  predicate Entered(pc: Pc) { pc.AtBarrier? || PastBarrier(pc) }

  /** Rank r's send to d is complete for MPI_Waitall. */
  predicate SendDone(c: Config, s: State, r: nat, d: nat)
    requires d < |s|
  {
    c.eager(r, d) || exists j :: 0 <= j < |s[d].slots| && s[d].slots[j].Received? && s[d].slots[j].source == r
  }

  ghost predicate Enabled(c: Config, s: State, a: Action) {
    |s| == c.ranks &&
    match a
    case Arrive(d, slot) => d < |s| && slot < |s[d].slots| && s[d].slots[slot].Matched?
    case Call(r) =>
      r < |s| &&
      match s[r].pc
      case Posting(k) => k <= |s[r].slots|
      case AtBarrier => forall q :: 0 <= q < |s| ==> Entered(s[q].pc)
      case Sending(k) => k <= c.ranks
      case WaitAll =>
        && (forall j :: 0 <= j < |s[r].slots| ==> s[r].slots[j].Received?)
        && (forall d :: 0 <= d < c.ranks ==> SendDone(c, s, r, d))
      case _ => false
  }

  function SetSlot(s: State, d: nat, j: nat, x: Slot): State
    requires d < |s| && j < |s[d].slots|
  {
    s[d := s[d].(slots := s[d].slots[j := x])]
  }

  function SetPc(s: State, r: nat, pc: Pc): State
    requires r < |s|
  {
    s[r := s[r].(pc := pc)]
  }

  /** MPI_Irsend from r to d: without a posted receive the program is erroneous. */
  function ReadySend(c: Config, s: State, r: nat, d: nat): State
    requires r < |s| && d < |s|
  {
    var j := Find(c, s[d].slots, r, 0);
    if j < |s[d].slots| then SetPc(SetSlot(s, d, j, Matched(r)), r, Sending(d + 1)) else SetPc(s, r, Erroneous)
  }

  function Called(c: Config, s: State, r: nat): State
    requires |s| == c.ranks && r < |s|
  {
    match s[r].pc
    case Posting(k) => if k < |s[r].slots| then SetPc(SetSlot(s, r, k, Posted), r, Posting(k + 1)) else SetPc(s, r, AtBarrier)
    case AtBarrier => SetPc(s, r, Sending(0))
    case Sending(k) => if k < c.ranks then ReadySend(c, s, r, k) else SetPc(s, r, WaitAll)
    case _ => SetPc(s, r, Done)
  }

  function Arrived(c: Config, s: State, d: nat, j: nat): State
    requires d < |s| && j < |s[d].slots| && s[d].slots[j].Matched?
  {
    var source := s[d].slots[j].source;
    SetSlot(s, d, j, Received(source, Delivered(c.layout, c.values, source)))
  }

  ghost function Apply(c: Config, s: State, a: Action): State
    requires Enabled(c, s, a)
  {
    match a
    case Arrive(d, slot) => Arrived(c, s, d, slot)
    case Call(r) => Called(c, s, r)
  }

  ghost function Moves(c: Config): (State, Action, State) -> bool {
    (s: State, a: Action, t: State) => Enabled(c, s, a) && t == Apply(c, s, a)
  }

  ghost predicate IsRun(c: Config, r: Run<State, Action>) { Follows(r, Initial(c), Moves(c)) }

  // ---------------------------------------------------------------------------------------
  // The reversed order
  // ---------------------------------------------------------------------------------------

  /** Every source is named by exactly one receive. */
  lemma SourceBijection(c: Config, source: nat, slot: nat)
    requires source < c.ranks && slot < c.ranks
    ensures c.Source(slot) < c.ranks && c.Source(c.Source(slot)) == slot
    ensures c.Source(slot) == source <==> slot == c.Source(source)
  {
  }

  // ---------------------------------------------------------------------------------------
  // The invariant
  // ---------------------------------------------------------------------------------------

  predicate PcOk(c: Config, pc: Pc) {
    !pc.Erroneous? && (pc.Posting? ==> pc.k <= c.ranks) && (pc.Sending? ==> pc.k <= c.ranks)
  }

  /** How many receives a rank has posted, and how many messages it has sent. */
  function PostedUpTo(c: Config, pc: Pc): nat { if pc.Posting? then pc.k else c.ranks }
  function SentUpTo(c: Config, pc: Pc): nat {
    if pc.Sending? then pc.k else if pc.WaitAll? || pc.Done? then c.ranks else 0
  }

  /** Receive j of rank d is matched exactly when the rank it names has sent to d. */
  predicate SlotOk(c: Config, s: State, d: nat, j: nat)
    requires |s| == c.ranks && d < c.ranks && j < c.ranks
  {
    j < |s[d].slots| &&
    var x := s[d].slots[j];
    && (x.Unposted? <==> j >= PostedUpTo(c, s[d].pc))
    && (x.Matched? || x.Received? <==> SentUpTo(c, s[c.Source(j)].pc) > d)
    && (x.Matched? || x.Received? ==> x.source == c.Source(j))
    && (x.Received? ==> x.data == Delivered(c.layout, c.values, c.Source(j)))
    && (s[d].pc.Done? ==> x.Received?)
  }

  predicate RankOk(c: Config, s: State, r: nat)
    requires r < |s|
  {
    && |s[r].slots| == c.ranks && PcOk(c, s[r].pc)
    && (PastBarrier(s[r].pc) ==> forall q :: 0 <= q < |s| ==> Entered(s[q].pc))
  }

  ghost predicate Inv(c: Config, s: State) {
    && |s| == c.ranks && (forall r :: 0 <= r < c.ranks ==> RankOk(c, s, r))
    && (forall d, j :: 0 <= d < c.ranks && 0 <= j < c.ranks ==> SlotOk(c, s, d, j))
  }

  lemma InitialOk(c: Config)
    ensures Inv(c, Initial(c))
  {
  }

  /** Every ready send finds the one receive that names its sender, posted and unmatched. */
  lemma SendFinds(c: Config, s: State, r: nat)
    requires Inv(c, s) && r < c.ranks && s[r].pc.Sending? && s[r].pc.k < c.ranks
    ensures var d := s[r].pc.k; Find(c, s[d].slots, r, 0) == c.Source(r) < |s[d].slots| && s[d].slots[c.Source(r)].Posted?
  {
    var d := s[r].pc.k;
    assert RankOk(c, s, r) && RankOk(c, s, d) && Entered(s[d].pc);
    SourceBijection(c, r, c.Source(r));
    assert SlotOk(c, s, d, c.Source(r));
  }

  predicate IsSend(c: Config, s: State, a: Action) {
    a.Call? && a.r < |s| && s[a.r].pc.Sending? && s[a.r].pc.k < c.ranks
  }

  /** r has sent its k-th message to the receive that names it. */
  function Sent(c: Config, s: State, r: nat, k: nat): State
    requires |s| == c.ranks && r < c.ranks && k < c.ranks && c.Source(r) < |s[k].slots|
  {
    SetPc(SetSlot(s, k, c.Source(r), Matched(r)), r, Sending(k + 1))
  }

  lemma SendEffect(c: Config, s: State, a: Action)
    requires Inv(c, s) && Enabled(c, s, a) && IsSend(c, s, a)
    ensures var k := s[a.r].pc.k; c.Source(a.r) < |s[k].slots| && Apply(c, s, a) == Sent(c, s, a.r, k)
  {
    SendFinds(c, s, a.r);
  }

  lemma SentSlot(c: Config, s: State, r: nat, d: nat, j: nat)
    requires Inv(c, s) && r < c.ranks && s[r].pc.Sending? && s[r].pc.k < c.ranks && d < c.ranks && j < c.ranks
    requires c.Source(r) < |s[s[r].pc.k].slots|
    ensures SlotOk(c, Sent(c, s, r, s[r].pc.k), d, j)
  {
    assert RankOk(c, s, d) && SlotOk(c, s, d, j);
    SourceBijection(c, r, j);
    if d == s[r].pc.k { SendFinds(c, s, r); }
  }

  lemma SendKeepsSlot(c: Config, s: State, a: Action, d: nat, j: nat)
    requires Inv(c, s) && Enabled(c, s, a) && IsSend(c, s, a) && d < c.ranks && j < c.ranks
    ensures var t := Apply(c, s, a); |t| == c.ranks && SlotOk(c, t, d, j)
  {
    SendEffect(c, s, a);
    SentSlot(c, s, a.r, d, j);
  }

  lemma CallKeepsSlot(c: Config, s: State, a: Action, d: nat, j: nat)
    requires Inv(c, s) && Enabled(c, s, a) && a.Call? && !IsSend(c, s, a) && d < c.ranks && j < c.ranks
    ensures var t := Apply(c, s, a); |t| == c.ranks && SlotOk(c, t, d, j)
  {
    assert RankOk(c, s, d) && SlotOk(c, s, d, j) && RankOk(c, s, a.r);
  }

  lemma ArriveKeepsSlot(c: Config, s: State, a: Action, d: nat, j: nat)
    requires Inv(c, s) && Enabled(c, s, a) && a.Arrive? && d < c.ranks && j < c.ranks
    ensures var t := Apply(c, s, a); |t| == c.ranks && SlotOk(c, t, d, j)
  {
    assert RankOk(c, s, d) && SlotOk(c, s, d, j);
  }

  /** Who has entered the barrier stays past its entry. */
  lemma EnteredStays(c: Config, s: State, a: Action, q: nat)
    requires Inv(c, s) && Enabled(c, s, a) && q < c.ranks && Entered(s[q].pc)
    ensures |Apply(c, s, a)| == c.ranks && Entered(Apply(c, s, a)[q].pc)
  {
    if a.Call? {
      assert RankOk(c, s, a.r);
      if IsSend(c, s, a) { SendFinds(c, s, a.r); }
    }
  }

  lemma RankKeeps(c: Config, s: State, a: Action, r: nat)
    requires Inv(c, s) && Enabled(c, s, a) && r < c.ranks
    ensures |Apply(c, s, a)| == c.ranks && RankOk(c, Apply(c, s, a), r)
  {
    var t := Apply(c, s, a);
    assert RankOk(c, s, r);
    if a.Call? {
      assert RankOk(c, s, a.r);
      if IsSend(c, s, a) { SendFinds(c, s, a.r); }
    } else {
      assert RankOk(c, s, a.d);
    }
    forall q | 0 <= q < c.ranks && Entered(s[q].pc) ensures Entered(t[q].pc) { EnteredStays(c, s, a, q); }
  }

  lemma StepKeeps(c: Config, s: State, a: Action)
    requires Inv(c, s) && Enabled(c, s, a)
    ensures Inv(c, Apply(c, s, a))
  {
    var t := Apply(c, s, a);
    forall r | 0 <= r < c.ranks ensures RankOk(c, t, r) { RankKeeps(c, s, a, r); }
    forall d, j | 0 <= d < c.ranks && 0 <= j < c.ranks ensures SlotOk(c, t, d, j) {
      if IsSend(c, s, a) {
        SendKeepsSlot(c, s, a, d, j);
      } else if a.Call? {
        CallKeepsSlot(c, s, a, d, j);
      } else {
        ArriveKeepsSlot(c, s, a, d, j);
      }
    }
  }

  // ---------------------------------------------------------------------------------------
  // Progress and termination
  // ---------------------------------------------------------------------------------------

  ghost predicate Stuck(c: Config, s: State) { forall a :: !Enabled(c, s, a) }

  lemma StuckEntered(c: Config, s: State, r: nat)
    requires Inv(c, s) && Stuck(c, s) && r < c.ranks
    ensures Entered(s[r].pc)
  {
    assert RankOk(c, s, r) && !Enabled(c, s, Call(r));
  }

  lemma StuckHasSent(c: Config, s: State, r: nat)
    requires Inv(c, s) && Stuck(c, s) && r < c.ranks
    ensures s[r].pc.WaitAll? || s[r].pc.Done?
  {
    assert RankOk(c, s, r) && !Enabled(c, s, Call(r));
    forall q | 0 <= q < |s| ensures Entered(s[q].pc) { StuckEntered(c, s, q); }
  }

  lemma StuckReceived(c: Config, s: State, d: nat, j: nat)
    requires Inv(c, s) && Stuck(c, s) && d < c.ranks && j < c.ranks
    ensures |s[d].slots| == c.ranks && s[d].slots[j].Received?
  {
    assert RankOk(c, s, d) && SlotOk(c, s, d, j);
    SourceBijection(c, 0, j);
    StuckHasSent(c, s, c.Source(j));
    assert !Enabled(c, s, Arrive(d, j));
  }

  lemma StuckIsDone(c: Config, s: State, r: nat)
    requires Inv(c, s) && Stuck(c, s) && r < c.ranks
    ensures s[r].pc.Done?
  {
    StuckHasSent(c, s, r);
    assert RankOk(c, s, r);
    forall j | 0 <= j < c.ranks ensures s[r].slots[j].Received? { StuckReceived(c, s, r, j); }
    forall d | 0 <= d < c.ranks ensures SendDone(c, s, r, d) {
      StuckReceived(c, s, d, c.Source(r));
      assert SlotOk(c, s, d, c.Source(r));
    }
    assert !Enabled(c, s, Call(r));
  }

  function PcWeight(c: Config, pc: Pc): nat {
    match pc
    case Posting(k) => if k < c.ranks then 2 * c.ranks + 4 - k else c.ranks + 4
    case AtBarrier => c.ranks + 3
    case Sending(k) => if k < c.ranks then c.ranks + 2 - k else 2
    case WaitAll => 1
    case _ => 0
  }

  function SlotWeight(): Slot -> nat {
    (x: Slot) => if x.Unposted? then 3 else if x.Posted? then 2 else if x.Matched? then 1 else 0
  }

  function Weight(c: Config): Rank -> nat { (k: Rank) => PcWeight(c, k.pc) + Sum(SlotWeight(), k.slots) }

  function Measure(c: Config): State -> nat { (s: State) => Sum(Weight(c), s) }

  lemma PcMeasure(c: Config, s: State, r: nat, pc: Pc)
    requires r < |s|
    ensures Measure(c)(SetPc(s, r, pc)) == Measure(c)(s) - PcWeight(c, s[r].pc) + PcWeight(c, pc)
  {
    SumUpdate(Weight(c), s, r, s[r].(pc := pc));
  }

  lemma SlotMeasure(c: Config, s: State, d: nat, j: nat, x: Slot)
    requires d < |s| && j < |s[d].slots|
    ensures Measure(c)(SetSlot(s, d, j, x)) == Measure(c)(s) - SlotWeight()(s[d].slots[j]) + SlotWeight()(x)
  {
    SumUpdate(SlotWeight(), s[d].slots, j, x);
    SumUpdate(Weight(c), s, d, s[d].(slots := s[d].slots[j := x]));
  }

  lemma SendDrops(c: Config, s: State, r: nat)
    requires Inv(c, s) && r < c.ranks && s[r].pc.Sending? && s[r].pc.k < c.ranks
    ensures Measure(c)(ReadySend(c, s, r, s[r].pc.k)) < Measure(c)(s)
  {
    var d := s[r].pc.k;
    SendFinds(c, s, r);
    var j := c.Source(r);
    SlotMeasure(c, s, d, j, Matched(r));
    PcMeasure(c, SetSlot(s, d, j, Matched(r)), r, Sending(d + 1));
  }

  lemma PostDrops(c: Config, s: State, r: nat)
    requires Inv(c, s) && r < c.ranks && s[r].pc.Posting? && s[r].pc.k < c.ranks
    ensures Measure(c)(Called(c, s, r)) < Measure(c)(s)
  {
    var k := s[r].pc.k;
    assert RankOk(c, s, r) && SlotOk(c, s, r, k);
    SlotMeasure(c, s, r, k, Posted);
    PcMeasure(c, SetSlot(s, r, k, Posted), r, Posting(k + 1));
  }

  lemma MeasureDrops(c: Config, s: State, a: Action)
    requires Inv(c, s) && Enabled(c, s, a)
    ensures Measure(c)(Apply(c, s, a)) < Measure(c)(s)
  {
    match a
    case Arrive(d, j) => SlotMeasure(c, s, d, j, Arrived(c, s, d, j)[d].slots[j]);
    case Call(r) =>
      assert RankOk(c, s, r);
      match s[r].pc {
        case Posting(k) => if k < c.ranks { PostDrops(c, s, r); } else { PcMeasure(c, s, r, AtBarrier); }
        case AtBarrier => PcMeasure(c, s, r, Sending(0));
        case Sending(k) => if k < c.ranks { SendDrops(c, s, r); } else { PcMeasure(c, s, r, WaitAll); }
        case WaitAll => PcMeasure(c, s, r, Done);
      }
  }

  // ---------------------------------------------------------------------------------------
  // Theorems about runs
  // ---------------------------------------------------------------------------------------

  /** The protocol with its invariant and its measure. */
  ghost function Protocol(c: Config): System<State, Action> {
    System(Initial(c), Moves(c), (s: State) => Inv(c, s), Measure(c), (a: Action) => false)
  }

  lemma ProtocolSound(c: Config)
    ensures Sound(Protocol(c))
  {
    InitialOk(c);
    forall s, a, t | Inv(c, s) && Moves(c)(s, a, t) ensures Inv(c, t) && Measure(c)(t) < Measure(c)(s) {
      StepKeeps(c, s, a);
      MeasureDrops(c, s, a);
    }
  }

  lemma RunInv(c: Config, r: Run<State, Action>)
    requires IsRun(c, r)
    ensures forall k :: 0 <= k < |r.states| ==> Inv(c, r.states[k])
  {
    ProtocolSound(c);
    SystemInvariant(Protocol(c), r);
  }

  lemma RunsAreBounded(c: Config, r: Run<State, Action>)
    requires IsRun(c, r)
    ensures |r.actions| <= Measure(c)(Initial(c))
  {
    ProtocolSound(c);
    SystemBounded(Protocol(c), r);
    CountNone(Protocol(c).spurious, r.actions);
  }

  /** In every interleaving each MPI_Irsend finds its receive posted and unmatched: the one that names its sender. */
  lemma RunsAreReady(c: Config, run: Run<State, Action>, k: nat, r: nat)
    requires IsRun(c, run) && k < |run.states| && r < c.ranks
    ensures r < |run.states[k]| && !run.states[k][r].pc.Erroneous?
    ensures var s := run.states[k]; s[r].pc.Sending? && s[r].pc.k < c.ranks ==>
      s[r].pc.k < |s| && Find(c, s[s[r].pc.k].slots, r, 0) == c.Source(r) < |s[s[r].pc.k].slots|
  {
    RunInv(c, run);
    var s := run.states[k];
    assert RankOk(c, s, r);
    if s[r].pc.Sending? && s[r].pc.k < c.ranks { SendFinds(c, s, r); }
  }

  /** Rank d is through, and its slot j holds the array of rank comm_size - j - 1, with that source in the status. */
  predicate SlotComplete(c: Config, s: State, d: nat, j: nat)
    requires d < |s| && j < c.ranks
  {
    && s[d].pc.Done? && |s[d].slots| == c.ranks && s[d].slots[j].Received? && s[d].slots[j].source == c.ranks - j - 1
    && Errors(c.layout, s[d].slots[j].data, c.values, c.ranks - j - 1) == 0
  }

  ghost predicate Complete(c: Config, s: State) {
    |s| == c.ranks && forall d, j :: 0 <= d < c.ranks && 0 <= j < c.ranks ==> SlotComplete(c, s, d, j)
  }

  lemma StuckSlot(c: Config, s: State, d: nat, j: nat)
    requires Inv(c, s) && Stuck(c, s) && d < c.ranks && j < c.ranks
    ensures SlotComplete(c, s, d, j)
  {
    StuckIsDone(c, s, d);
    StuckReceived(c, s, d, j);
    assert SlotOk(c, s, d, j);
    DeliveredPasses(c.layout, c.values, c.ranks - j - 1);
  }

  /** Whichever sends are eager: a run that cannot go on is complete. */
  lemma StuckRunsAreComplete(c: Config, r: Run<State, Action>)
    requires IsRun(c, r) && Stuck(c, r.Last())
    ensures Complete(c, r.Last())
  {
    RunInv(c, r);
    var s := r.Last();
    forall d, j | 0 <= d < c.ranks && 0 <= j < c.ranks ensures SlotComplete(c, s, d, j) { StuckSlot(c, s, d, j); }
  }

  /** Every run can go on until it is complete. */
  lemma EveryRunEnds(c: Config, r: Run<State, Action>) returns (q: Run<State, Action>)
    requires IsRun(c, r)
    ensures IsRun(c, q) && Extends(q, r) && Stuck(c, q.Last())
    ensures Complete(c, q.Last())
  {
    ProtocolSound(c);
    q := RunOn(Protocol(c), r);
    forall a ensures !Enabled(c, q.Last(), a) {
      if Enabled(c, q.Last(), a) { HaltedStep(Protocol(c), q.Last(), a, Apply(c, q.Last(), a)); }
    }
    StuckRunsAreComplete(c, q);
  }

  // ---------------------------------------------------------------------------------------
  // The request array
  // ---------------------------------------------------------------------------------------

  datatype Request = Null | RecvFrom(slot: nat, source: nat) | SendTo(dest: nat)

  /** The receive into slot at its odd index, from the rank that the reversed order gives, and the send to d at its even one. */
  predicate ReceiveAt(ranks: nat, rs: seq<Request>, slot: nat) {
    slot < ranks && 2 * slot + 1 < |rs| && rs[2 * slot + 1] == RecvFrom(slot, ranks - slot - 1)
  }

  predicate SendAt(rs: seq<Request>, d: nat) { 2 * d < |rs| && rs[2 * d] == SendTo(d) }

  /** All 2 * comm_size entries of req_buffer. */
  predicate Filled(ranks: nat, rs: seq<Request>) {
    |rs| == 2 * ranks && forall k :: 0 <= k < ranks ==> ReceiveAt(ranks, rs, k) && SendAt(rs, k)
  }

  /** The two loops fill req_buffer completely, each entry once. */
  method FillRequests(c: Config, requests: array<Request>)
    requires requests.Length == 2 * c.ranks
    modifies requests
    ensures Filled(c.ranks, requests[..])
  {
    var rank := 0;
    while rank < c.ranks
      invariant 0 <= rank <= c.ranks
      invariant forall k :: 0 <= k < rank ==> ReceiveAt(c.ranks, requests[..], k)
    {
      ghost var before := requests[..];
      requests[2 * rank + 1] := Null;
      requests[2 * rank + 1] := RecvFrom(rank, c.ranks - rank - 1);
      forall k | 0 <= k < rank ensures ReceiveAt(c.ranks, requests[..], k) { assert ReceiveAt(c.ranks, before, k); }
      rank := rank + 1;
    }
    rank := 0;
    while rank < c.ranks
      invariant 0 <= rank <= c.ranks
      invariant forall k :: 0 <= k < c.ranks ==> ReceiveAt(c.ranks, requests[..], k)
      invariant forall k :: 0 <= k < rank ==> SendAt(requests[..], k)
    {
      ghost var before := requests[..];
      requests[2 * rank] := Null;
      requests[2 * rank] := SendTo(rank);
      forall k | 0 <= k < c.ranks ensures ReceiveAt(c.ranks, requests[..], k) { assert ReceiveAt(c.ranks, before, k); }
      forall k | 0 <= k < rank ensures SendAt(requests[..], k) { assert SendAt(before, k); }
      rank := rank + 1;
    }
  }

  /** What a receive of a run is matched with is what its entry of req_buffer asks for. */
  lemma ReceivesAsRequested(c: Config, r: Run<State, Action>, k: nat, rs: seq<Request>, d: nat, j: nat)
    requires IsRun(c, r) && k < |r.states| && Filled(c.ranks, rs) && d < c.ranks && j < c.ranks
    ensures d < |r.states[k]| && j < |r.states[k][d].slots|
    ensures var x := r.states[k][d].slots[j]; x.Matched? || x.Received? ==> rs[2 * j + 1] == RecvFrom(j, x.source)
  {
    RunInv(c, r);
    assert SlotOk(c, r.states[k], d, j);
    assert ReceiveAt(c.ranks, rs, j);
  }

  /** Every ready send of a run, the entry of req_buffer for its destination, finds an entry there that asks for it. */
  lemma SendsAsRequested(c: Config, r: Run<State, Action>, k: nat, rs: seq<Request>, a: Action) returns (j: nat)
    requires IsRun(c, r) && k < |r.states| && Filled(c.ranks, rs) && Enabled(c, r.states[k], a) && IsSend(c, r.states[k], a)
    ensures var s := r.states[k]; var d := s[a.r].pc.k;
      && rs[2 * d] == SendTo(d) && j < c.ranks && j < |s[d].slots| && s[d].slots[j].Posted? && rs[2 * j + 1] == RecvFrom(j, a.r)
      && var t := Apply(c, s, a); d < |t| && j < |t[d].slots| && t[d].slots[j] == Matched(a.r)
  {
    RunInv(c, r);
    var s := r.states[k];
    SendFinds(c, s, a.r);
    SendEffect(c, s, a);
    j := c.Source(a.r);
    assert SendAt(rs, s[a.r].pc.k) && ReceiveAt(c.ranks, rs, j);
  }
}
