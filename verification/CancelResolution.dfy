/**
 * p2p/tst_p2p_many_to_one_isend_cancel.c: every rank, the root included, sends to the root and tries
 * to cancel the send.  The outcomes are gathered, and the root cancels the receives whose sends were
 * cancelled, so that its MPI_Waitall can return.
 *
 * The race is left to the environment: at any time a message may leave its sender for good or reach
 * its posted receive, and once MPI_Cancel has been called a message that has done neither may be
 * withdrawn.  MPI_Wait returns as soon as one of them has happened (section 3.8.4 of MPI-3.1).
 */
module CancelResolution {
  import opened Lists
  import opened Oracle
  import opened Runs

  datatype Config = Config(ranks: nat, layout: Layout, values: nat)

  datatype Pc =
    | Posting(k: nat)      // the root's MPI_Irecv loop
    | Isend
    | Cancel
    | Wait
    | Gather
    | Deciding(k: nat)     // the root's MPI_Cancel loop
    | WaitAll
    | Done

  /** The message of a rank to the root. */
  datatype Message = NoMessage | Pending | Gone | Arrived | Withdrawn

  /** The root's receive request for the message of a rank. */
  datatype Request = Unposted | Posted | Marked | Received(data: seq<Byte>) | Cancelled

  /** flag is send_cancelled. */
  datatype Rank = Rank(pc: Pc, message: Message, request: Request, flag: bool)

  /** flags is env->cancelled of the root, once gathered. */
  datatype State = State(ranks: seq<Rank>, flags: seq<bool>)

  datatype Action =
    | Call(r: nat)           // rank r's next call returns
    | Depart(r: nat)         // rank r's message can no longer be cancelled
    | Arrive(r: nat)         // rank r's message reaches its receive
    | Withdraw(r: nat)       // the cancellation of rank r's send succeeds
    | CancelRecv(r: nat)     // the cancellation of the receive for rank r's message succeeds

  function Initial(c: Config): State {
    State(seq(c.ranks, r requires 0 <= r < c.ranks => Rank(if r == 0 then Posting(0) else Isend, NoMessage, Unposted, false)), [])
  }

  predicate Resolved(m: Message) { m.Gone? || m.Arrived? || m.Withdrawn? }

  predicate Over(q: Request) { q.Received? || q.Cancelled? }

  predicate Enabled(c: Config, s: State, a: Action) {
    a.r < |s.ranks| && |s.ranks| == c.ranks &&
    var x := s.ranks[a.r];
    match a
    case Depart(r) => x.message.Pending?
    case Arrive(r) => (x.message.Pending? || x.message.Gone?) && (x.request.Posted? || x.request.Marked?)
    case Withdraw(r) => x.message.Pending? && x.pc.Wait?
    case CancelRecv(r) => x.request.Marked?
    case Call(r) =>
      match x.pc
      case Wait => Resolved(x.message)
      case Gather => r == 0 ==> forall k :: 1 <= k < |s.ranks| ==> s.ranks[k].pc.Done?
      case Deciding(k) => k <= |s.flags|
      case WaitAll => forall k :: 0 <= k < |s.ranks| ==> Over(s.ranks[k].request)
      case Done => false
      case _ => true
  }

  function Advance(s: State, r: nat, pc: Pc): State
    requires r < |s.ranks|
  {
    s.(ranks := s.ranks[r := s.ranks[r].(pc := pc)])
  }

  function SetRequest(s: State, k: nat, q: Request): State
    requires k < |s.ranks|
  {
    s.(ranks := s.ranks[k := s.ranks[k].(request := q)])
  }

  function Flags(s: State): (fs: seq<bool>)
    ensures |fs| == |s.ranks| && forall k :: 0 <= k < |fs| ==> fs[k] == s.ranks[k].flag
  {
    seq(|s.ranks|, k requires 0 <= k < |s.ranks| => s.ranks[k].flag)
  }

  function Marking(q: Request): Request { if q.Posted? then Marked else q }

  function Called(c: Config, s: State, r: nat): State
    requires Enabled(c, s, Call(r))
  {
    var x := s.ranks[r];
    match x.pc
    case Posting(k) =>
      if k < c.ranks then Advance(SetRequest(s, k, Posted), r, Posting(k + 1)) else Advance(s, r, Isend)
    case Isend => s.(ranks := s.ranks[r := x.(pc := Cancel, message := Pending)])
    case Cancel => Advance(s, r, Wait)
    case Wait => s.(ranks := s.ranks[r := x.(pc := Gather, flag := x.message.Withdrawn?)])
    case Gather => if r == 0 then Advance(s, r, Deciding(0)).(flags := Flags(s)) else Advance(s, r, Done)
    case Deciding(k) =>
      if k < |s.flags| && k < c.ranks then
        Advance(if s.flags[k] then SetRequest(s, k, Marking(s.ranks[k].request)) else s, r, Deciding(k + 1))
      else Advance(s, r, WaitAll)
    case _ => Advance(s, r, Done)
  }

  function Apply(c: Config, s: State, a: Action): State
    requires Enabled(c, s, a)
  {
    var x := s.ranks[a.r];
    match a
    case Depart(r) => s.(ranks := s.ranks[r := x.(message := Gone)])
    case Arrive(r) => s.(ranks := s.ranks[r := x.(message := Arrived, request := Received(Delivered(c.layout, c.values, r)))])
    case Withdraw(r) => s.(ranks := s.ranks[r := x.(message := Withdrawn)])
    case CancelRecv(r) => s.(ranks := s.ranks[r := x.(request := Cancelled)])
    case Call(r) => Called(c, s, r)
  }

  ghost function Moves(c: Config): (State, Action, State) -> bool {
    (s: State, a: Action, t: State) => Enabled(c, s, a) && t == Apply(c, s, a)
  }

  ghost predicate IsRun(c: Config, r: Run<State, Action>) { Follows(r, Initial(c), Moves(c)) }

  // ---------------------------------------------------------------------------------------
  // The invariant
  // ---------------------------------------------------------------------------------------

  predicate PastWait(pc: Pc) { pc.Gather? || pc.Deciding? || pc.WaitAll? || pc.Done? }
  predicate PastGather(pc: Pc) { pc.Deciding? || pc.WaitAll? || pc.Done? }

  /** How many receives the root has posted, and for how many it has decided, at a control point. */
  function PostedUpTo(c: Config, pc: Pc): nat { if pc.Posting? then pc.k else c.ranks }
  function DecidedUpTo(c: Config, pc: Pc): nat {
    if pc.Deciding? then pc.k else if pc.WaitAll? || pc.Done? then c.ranks else 0
  }

  predicate PcOk(c: Config, r: nat, pc: Pc) {
    if r == 0 then (pc.Posting? ==> pc.k <= c.ranks) && (pc.Deciding? ==> pc.k <= c.ranks)
    else !pc.Posting? && !pc.Deciding? && !pc.WaitAll?
  }

  /** The sender's half. */
  predicate SendOk(c: Config, r: nat, x: Rank) {
    && PcOk(c, r, x.pc)
    && (x.message.NoMessage? <==> x.pc.Posting? || x.pc.Isend?)
    && (PastWait(x.pc) ==> Resolved(x.message) && (x.flag <==> x.message.Withdrawn?))
    && (x.message.Withdrawn? ==> x.pc.Wait? || PastWait(x.pc))
  }

  /** The root's half, for the message of rank r. */
  predicate RecvOk(c: Config, s: State, r: nat)
    requires r < |s.ranks|
  {
    var x, root := s.ranks[r], s.ranks[0].pc;
    && (x.message.Arrived? <==> x.request.Received?)
    && (x.request.Received? ==> x.request.data == Delivered(c.layout, c.values, r))
    && (x.request.Unposted? <==> r >= PostedUpTo(c, root))
    && (x.request.Marked? || x.request.Cancelled? ==> r < DecidedUpTo(c, root) && x.flag)
    && (r < DecidedUpTo(c, root) && x.flag ==> x.request.Marked? || x.request.Cancelled?)
    && (PastGather(root) ==> PastWait(x.pc) && s.flags == Flags(s))
    && (root.Done? ==> Over(x.request))
  }

  ghost predicate Inv(c: Config, s: State) {
    |s.ranks| == c.ranks && forall r :: 0 <= r < c.ranks ==> SendOk(c, r, s.ranks[r]) && RecvOk(c, s, r)
  }

  lemma InitialOk(c: Config)
    ensures Inv(c, Initial(c))
  {
  }

  /** What the environment does to the message and the request of one rank. */
  lemma EnvironmentKeeps(c: Config, s: State, a: Action)
    requires Inv(c, s) && Enabled(c, s, a) && !a.Call?
    ensures Inv(c, Apply(c, s, a))
  {
    var t := Apply(c, s, a);
    assert SendOk(c, a.r, s.ranks[a.r]) && RecvOk(c, s, a.r);
    assert t.ranks[0].pc == s.ranks[0].pc && Flags(t) == Flags(s);
    forall k | 0 <= k < c.ranks ensures SendOk(c, k, t.ranks[k]) && RecvOk(c, t, k) {
      assert SendOk(c, k, s.ranks[k]) && RecvOk(c, s, k);
    }
  }

  /** The calls that concern only the caller's own send. */
  lemma SendCallKeeps(c: Config, s: State, r: nat)
    requires Inv(c, s) && Enabled(c, s, Call(r))
    requires var pc := s.ranks[r].pc; pc.Isend? || pc.Cancel? || pc.Wait? || (pc.Gather? && r != 0)
    ensures Inv(c, Called(c, s, r))
  {
    var t := Called(c, s, r);
    assert SendOk(c, r, s.ranks[r]) && RecvOk(c, s, r) && RecvOk(c, s, 0);
    assert PastGather(s.ranks[0].pc) ==> Flags(t) == Flags(s);
    forall k | 0 <= k < c.ranks ensures SendOk(c, k, t.ranks[k]) && RecvOk(c, t, k) {
      assert SendOk(c, k, s.ranks[k]) && RecvOk(c, s, k);
    }
  }

  predicate IsRootCall(pc: Pc) { pc.Posting? || pc.Gather? || pc.Deciding? || pc.WaitAll? }

  lemma RootCallRank(c: Config, s: State, k: nat)
    requires Inv(c, s) && Enabled(c, s, Call(0)) && IsRootCall(s.ranks[0].pc) && k < c.ranks
    ensures SendOk(c, k, Called(c, s, 0).ranks[k])
    ensures Called(c, s, 0).ranks[k].flag == s.ranks[k].flag
  {
    assert SendOk(c, 0, s.ranks[0]) && RecvOk(c, s, 0);
    assert SendOk(c, k, s.ranks[k]);
  }

  /** The receive decided on is marked if its flag is set. */
  lemma DecidedRequest(c: Config, s: State)
    requires Inv(c, s) && Enabled(c, s, Call(0)) && s.ranks[0].pc.Deciding? && s.ranks[0].pc.k < c.ranks
    requires Flags(Called(c, s, 0)) == Flags(s)
    ensures RecvOk(c, Called(c, s, 0), s.ranks[0].pc.k)
  {
    assert RecvOk(c, s, 0) && RecvOk(c, s, s.ranks[0].pc.k);
  }

  /** The others stay as they are. */
  lemma UndecidedRequest(c: Config, s: State, k: nat)
    requires Inv(c, s) && Enabled(c, s, Call(0)) && s.ranks[0].pc.Deciding? && k < c.ranks && k != s.ranks[0].pc.k
    requires Flags(Called(c, s, 0)) == Flags(s)
    ensures RecvOk(c, Called(c, s, 0), k)
  {
    assert SendOk(c, 0, s.ranks[0]) && RecvOk(c, s, 0) && RecvOk(c, s, k);
  }

  lemma RootCallRequest(c: Config, s: State, k: nat)
    requires Inv(c, s) && Enabled(c, s, Call(0)) && IsRootCall(s.ranks[0].pc) && k < c.ranks
    requires Flags(Called(c, s, 0)) == Flags(s)
    ensures RecvOk(c, Called(c, s, 0), k)
  {
    if s.ranks[0].pc.Deciding? {
      if k == s.ranks[0].pc.k { DecidedRequest(c, s); } else { UndecidedRequest(c, s, k); }
    } else {
      assert SendOk(c, 0, s.ranks[0]) && RecvOk(c, s, 0);
      assert SendOk(c, k, s.ranks[k]) && RecvOk(c, s, k);
    }
  }

  lemma RootCallKeeps(c: Config, s: State)
    requires Inv(c, s) && Enabled(c, s, Call(0)) && IsRootCall(s.ranks[0].pc)
    ensures Inv(c, Called(c, s, 0))
  {
    var t := Called(c, s, 0);
    forall k | 0 <= k < c.ranks ensures SendOk(c, k, t.ranks[k]) && t.ranks[k].flag == s.ranks[k].flag {
      RootCallRank(c, s, k);
    }
    assert Flags(t) == Flags(s);
    forall k | 0 <= k < c.ranks ensures RecvOk(c, t, k) {
      RootCallRequest(c, s, k);
    }
  }

  lemma StepKeeps(c: Config, s: State, a: Action)
    requires Inv(c, s) && Enabled(c, s, a)
    ensures Inv(c, Apply(c, s, a))
  {
    if a.Call? {
      assert SendOk(c, a.r, s.ranks[a.r]);
      var pc := s.ranks[a.r].pc;
      if pc.Isend? || pc.Cancel? || pc.Wait? || (pc.Gather? && a.r != 0) {
        SendCallKeeps(c, s, a.r);
      } else {
        RootCallKeeps(c, s);
      }
    } else {
      EnvironmentKeeps(c, s, a);
    }
  }

  // ---------------------------------------------------------------------------------------
  // Progress and termination
  // ---------------------------------------------------------------------------------------

  ghost predicate Stuck(c: Config, s: State) { forall a :: !Enabled(c, s, a) }

  /** A rank on its way to the gather can go on: its message can always leave. */
  lemma SenderProgress(c: Config, s: State, r: nat) returns (a: Action)
    requires Inv(c, s) && r < c.ranks && !s.ranks[r].pc.Done?
    requires r == 0 ==> !PastWait(s.ranks[r].pc)
    ensures Enabled(c, s, a)
  {
    assert SendOk(c, r, s.ranks[r]);
    a := if s.ranks[r].pc.Wait? && s.ranks[r].message.Pending? then Depart(r) else Call(r);
  }

  /** Before MPI_Waitall returns, each receive's message arrives or its cancellation succeeds. */
  lemma WaitAllProgress(c: Config, s: State, k: nat) returns (a: Action)
    requires Inv(c, s) && k < c.ranks && s.ranks[0].pc.WaitAll? && !Over(s.ranks[k].request)
    ensures Enabled(c, s, a)
  {
    assert SendOk(c, k, s.ranks[k]) && RecvOk(c, s, k);
    a := if s.ranks[k].request.Marked? then CancelRecv(k) else Arrive(k);
  }

  lemma RootProgress(c: Config, s: State) returns (a: Action)
    requires Inv(c, s) && c.ranks > 0 && PastWait(s.ranks[0].pc) && !s.ranks[0].pc.Done?
    requires forall k :: 1 <= k < c.ranks ==> s.ranks[k].pc.Done?
    ensures Enabled(c, s, a)
  {
    assert SendOk(c, 0, s.ranks[0]) && RecvOk(c, s, 0);
    if s.ranks[0].pc.WaitAll? && exists k :: 0 <= k < c.ranks && !Over(s.ranks[k].request) {
      var k :| 0 <= k < c.ranks && !Over(s.ranks[k].request);
      a := WaitAllProgress(c, s, k);
    } else {
      a := Call(0);
    }
  }

  lemma StuckIsDone(c: Config, s: State)
    requires Inv(c, s) && Stuck(c, s)
    ensures forall r :: 0 <= r < c.ranks ==> s.ranks[r].pc.Done?
  {
    forall r | 1 <= r < c.ranks ensures s.ranks[r].pc.Done? {
      if !s.ranks[r].pc.Done? { var a := SenderProgress(c, s, r); }
    }
    if c.ranks > 0 && !s.ranks[0].pc.Done? {
      if PastWait(s.ranks[0].pc) {
        var a := RootProgress(c, s);
      } else {
        var a := SenderProgress(c, s, 0);
      }
    }
  }

  function PcWeight(c: Config, pc: Pc): nat {
    match pc
    case Posting(k) => if k < c.ranks then 2 * c.ranks + 9 - k else c.ranks + 8
    case Isend => c.ranks + 7
    case Cancel => c.ranks + 6
    case Wait => c.ranks + 5
    case Gather => c.ranks + 4
    case Deciding(k) => if k < c.ranks then c.ranks + 3 - k else 2
    case WaitAll => 1
    case Done => 0
  }

  function MessageWeight(m: Message): nat {
    match m
    case NoMessage => 3
    case Pending => 2
    case Gone => 1
    case _ => 0
  }

  function RequestWeight(q: Request): nat {
    match q
    case Unposted => 3
    case Posted => 2
    case Marked => 1
    case _ => 0
  }

  function Weight(c: Config): Rank -> nat {
    (x: Rank) => PcWeight(c, x.pc) + MessageWeight(x.message) + RequestWeight(x.request)
  }

  function Measure(c: Config): State -> nat { (s: State) => Sum(Weight(c), s.ranks) }

  lemma AdvanceMeasure(c: Config, s: State, r: nat, pc: Pc)
    requires r < |s.ranks|
    ensures Measure(c)(Advance(s, r, pc)) == Measure(c)(s) - PcWeight(c, s.ranks[r].pc) + PcWeight(c, pc)
  {
    SumUpdate(Weight(c), s.ranks, r, s.ranks[r].(pc := pc));
  }

  lemma RequestMeasure(c: Config, s: State, k: nat, q: Request)
    requires k < |s.ranks|
    ensures Measure(c)(SetRequest(s, k, q)) == Measure(c)(s) - RequestWeight(s.ranks[k].request) + RequestWeight(q)
  {
    SumUpdate(Weight(c), s.ranks, k, s.ranks[k].(request := q));
  }

  lemma PostingDrops(c: Config, s: State, r: nat, k: nat)
    requires Inv(c, s) && Enabled(c, s, Call(r)) && s.ranks[r].pc == Posting(k) && k < c.ranks
    ensures Measure(c)(Called(c, s, r)) < Measure(c)(s)
  {
    assert SendOk(c, r, s.ranks[r]) && RecvOk(c, s, k);
    RequestMeasure(c, s, k, Posted);
    AdvanceMeasure(c, SetRequest(s, k, Posted), r, Posting(k + 1));
  }

  lemma DecidingDrops(c: Config, s: State, r: nat, k: nat)
    requires Enabled(c, s, Call(r)) && s.ranks[r].pc == Deciding(k) && k < |s.flags| && k < c.ranks
    ensures Measure(c)(Called(c, s, r)) < Measure(c)(s)
  {
    if s.flags[k] {
      var q := Marking(s.ranks[k].request);
      RequestMeasure(c, s, k, q);
      AdvanceMeasure(c, SetRequest(s, k, q), r, Deciding(k + 1));
    } else {
      AdvanceMeasure(c, s, r, Deciding(k + 1));
    }
  }

  /** The calls of a rank's own send, up to the gather. */
  lemma SendCallDrops(c: Config, s: State, r: nat)
    requires Inv(c, s) && Enabled(c, s, Call(r))
    requires var pc := s.ranks[r].pc; pc.Isend? || pc.Cancel? || pc.Wait? || pc.Gather?
    ensures Measure(c)(Called(c, s, r)) < Measure(c)(s)
  {
    var x := s.ranks[r];
    assert SendOk(c, r, x);
    match x.pc
    case Isend => SumUpdate(Weight(c), s.ranks, r, x.(pc := Cancel, message := Pending));
    case Cancel => AdvanceMeasure(c, s, r, Wait);
    case Wait => SumUpdate(Weight(c), s.ranks, r, x.(pc := Gather, flag := x.message.Withdrawn?));
    case Gather => AdvanceMeasure(c, s, r, if r == 0 then Deciding(0) else Done);
  }

  /** The calls of the root's loops. */
  lemma LoopCallDrops(c: Config, s: State, r: nat)
    requires Inv(c, s) && Enabled(c, s, Call(r))
    requires var pc := s.ranks[r].pc; pc.Posting? || pc.Deciding? || pc.WaitAll?
    ensures Measure(c)(Called(c, s, r)) < Measure(c)(s)
  {
    assert SendOk(c, r, s.ranks[r]);
    match s.ranks[r].pc
    case Posting(k) => if k < c.ranks { PostingDrops(c, s, r, k); } else { AdvanceMeasure(c, s, r, Isend); }
    case Deciding(k) =>
      if k < |s.flags| && k < c.ranks { DecidingDrops(c, s, r, k); } else { AdvanceMeasure(c, s, r, WaitAll); }
    case WaitAll => AdvanceMeasure(c, s, r, Done);
  }

  lemma CallDrops(c: Config, s: State, r: nat)
    requires Inv(c, s) && Enabled(c, s, Call(r))
    ensures Measure(c)(Called(c, s, r)) < Measure(c)(s)
  {
    var pc := s.ranks[r].pc;
    if pc.Posting? || pc.Deciding? || pc.WaitAll? {
      LoopCallDrops(c, s, r);
    } else {
      SendCallDrops(c, s, r);
    }
  }

  lemma EnvironmentDrops(c: Config, s: State, a: Action)
    requires Enabled(c, s, a) && !a.Call?
    ensures Measure(c)(Apply(c, s, a)) < Measure(c)(s)
  {
    SumUpdate(Weight(c), s.ranks, a.r, Apply(c, s, a).ranks[a.r]);
  }

  lemma MeasureDrops(c: Config, s: State, a: Action)
    requires Inv(c, s) && Enabled(c, s, a)
    ensures Measure(c)(Apply(c, s, a)) < Measure(c)(s)
  {
    if a.Call? { CallDrops(c, s, a.r); } else { EnvironmentDrops(c, s, a); }
  }

  // ---------------------------------------------------------------------------------------
  // Theorems about runs
  // ---------------------------------------------------------------------------------------

  /** The protocol with its invariant and its measure. */
  ghost function Protocol(c: Config): System<State, Action> {
    System(Initial(c), Moves(c), (s: State) => Inv(c, s), Measure(c), (a: Action) => false)
  }

  lemma ProtocolSound(c: Config)
    ensures Sound(Protocol(c))
  {
    InitialOk(c);
    forall s, a, t | Inv(c, s) && Moves(c)(s, a, t) ensures Inv(c, t) && Measure(c)(t) < Measure(c)(s) {
      StepKeeps(c, s, a);
      MeasureDrops(c, s, a);
    }
  }

  lemma RunInv(c: Config, r: Run<State, Action>)
    requires IsRun(c, r)
    ensures forall k :: 0 <= k < |r.states| ==> Inv(c, r.states[k])
  {
    ProtocolSound(c);
    SystemInvariant(Protocol(c), r);
  }

  lemma RunsAreBounded(c: Config, r: Run<State, Action>)
    requires IsRun(c, r)
    ensures |r.actions| <= Measure(c)(Initial(c))
  {
    ProtocolSound(c);
    SystemBounded(Protocol(c), r);
    CountNone(Protocol(c).spurious, r.actions);
  }

  /** No message is lost or duplicated by the race: a request the root cancels is one whose send was withdrawn. */
  ghost predicate CancelsMatch(c: Config, s: State) {
    forall r :: 0 <= r < |s.ranks| ==>
      && (s.ranks[r].request.Marked? || s.ranks[r].request.Cancelled? ==> s.ranks[r].message.Withdrawn?)
      && (s.ranks[r].request.Received? <==> s.ranks[r].message.Arrived?)
  }

  lemma RunsAreSafe(c: Config, r: Run<State, Action>, k: nat)
    requires IsRun(c, r) && k < |r.states|
    ensures CancelsMatch(c, r.states[k])
  {
    RunInv(c, r);
    var s := r.states[k];
    forall q | 0 <= q < |s.ranks|
      ensures s.ranks[q].request.Marked? || s.ranks[q].request.Cancelled? ==> s.ranks[q].message.Withdrawn?
      ensures s.ranks[q].request.Received? <==> s.ranks[q].message.Arrived?
    {
      assert SendOk(c, q, s.ranks[q]) && RecvOk(c, s, q) && RecvOk(c, s, 0);
    }
  }

  /**
   * All ranks are through; each receive was cancelled exactly when the gathered flag says so, which is
   * exactly when the send was withdrawn; every other receive holds its sender's array.
   */
  ghost predicate Complete(c: Config, s: State) {
    && |s.ranks| == |s.flags| == c.ranks
    && forall r :: 0 <= r < c.ranks ==>
      && s.ranks[r].pc.Done?
      && (s.flags[r] <==> s.ranks[r].message.Withdrawn?)
      && (s.flags[r] <==> s.ranks[r].request.Cancelled?)
      && (!s.flags[r] ==> s.ranks[r].request.Received? && Errors(c.layout, s.ranks[r].request.data, c.values, r) == 0)
  }

  lemma DoneIsComplete(c: Config, s: State, r: nat)
    requires Inv(c, s) && r < c.ranks && s.ranks[r].pc.Done? && s.ranks[0].pc.Done?
    ensures s.flags == Flags(s)
    ensures s.flags[r] <==> s.ranks[r].message.Withdrawn?
    ensures s.flags[r] <==> s.ranks[r].request.Cancelled?
    ensures !s.flags[r] ==> s.ranks[r].request.Received? && Errors(c.layout, s.ranks[r].request.data, c.values, r) == 0
  {
    assert SendOk(c, r, s.ranks[r]) && RecvOk(c, s, r);
    DeliveredPasses(c.layout, c.values, r);
  }

  /** Whatever the outcome of each race: a run that cannot go on is complete. */
  lemma StuckRunsAreComplete(c: Config, r: Run<State, Action>)
    requires IsRun(c, r) && Stuck(c, r.Last()) && c.ranks > 0
    ensures Complete(c, r.Last())
  {
    RunInv(c, r);
    var s := r.Last();
    StuckIsDone(c, s);
    DoneIsComplete(c, s, 0);
    forall k | 0 <= k < c.ranks
      ensures && s.ranks[k].pc.Done?
        && (s.flags[k] <==> s.ranks[k].message.Withdrawn?)
        && (s.flags[k] <==> s.ranks[k].request.Cancelled?)
        && (!s.flags[k] ==> s.ranks[k].request.Received? && Errors(c.layout, s.ranks[k].request.data, c.values, k) == 0)
    {
      DoneIsComplete(c, s, k);
    }
  }

  /** Every run can go on until it is complete, however its races came out. */
  lemma EveryRunEnds(c: Config, r: Run<State, Action>) returns (q: Run<State, Action>)
    requires IsRun(c, r) && c.ranks > 0
    ensures IsRun(c, q) && Extends(q, r) && Stuck(c, q.Last())
    ensures Complete(c, q.Last())
  {
    ProtocolSound(c);
    q := RunOn(Protocol(c), r);
    forall a ensures !Enabled(c, q.Last(), a) {
      if Enabled(c, q.Last(), a) { HaltedStep(Protocol(c), q.Last(), a, Apply(c, q.Last(), a)); }
    }
    StuckRunsAreComplete(c, q);
  }

  // ---------------------------------------------------------------------------------------
  // The root's two loops after the gather
  // ---------------------------------------------------------------------------------------

  /** MPI_Cancel on the flagged receives and no others. */
  method CancelFlagged(flags: array<bool>, requests: array<Request>)
    requires flags.Length <= requests.Length
    modifies requests
    ensures forall k :: 0 <= k < flags.Length ==>
      requests[k] == if flags[k] && old(requests[k]).Posted? then Marked else old(requests[k])
    ensures forall k :: flags.Length <= k < requests.Length ==> requests[k] == old(requests[k])
  {
    var rank := 0;
    while rank < flags.Length
      invariant 0 <= rank <= flags.Length
      invariant forall k :: 0 <= k < rank ==> requests[k] == if flags[k] then Marking(old(requests[k])) else old(requests[k])
      invariant forall k :: rank <= k < requests.Length ==> requests[k] == old(requests[k])
    {
      if flags[rank] {
        requests[rank] := Marking(requests[rank]);
      }
      rank := rank + 1;
    }
  }

  /** The receives the check looks at, and the errors it counts in them. */
  function ErrorsIn(c: Config, requests: seq<Request>): nat {
    if requests == [] then 0
    else
      var k := |requests| - 1;
      ErrorsIn(c, requests[..k]) + (if requests[k].Received? then Errors(c.layout, requests[k].data, c.values, k) else 0)
  }

  /** The check after MPI_Waitall: it fails when a flagged receive was not cancelled. */
  method CheckRequests(c: Config, flags: array<bool>, requests: array<Request>) returns (failed: bool, errors: nat)
    requires flags.Length == requests.Length && forall k :: 0 <= k < requests.Length ==> Over(requests[k])
    ensures failed <==> exists k :: 0 <= k < flags.Length && flags[k] && !requests[k].Cancelled?
    ensures !failed ==> errors == ErrorsIn(c, requests[..])
  {
    failed, errors := false, 0;
    var rank := 0;
    while rank < flags.Length
      invariant 0 <= rank <= flags.Length
      invariant forall k :: 0 <= k < rank ==> !(flags[k] && !requests[k].Cancelled?)
      invariant errors == ErrorsIn(c, requests[..rank])
    {
      var flag := requests[rank].Cancelled?;
      if flags[rank] && !flag {
        return true, errors;
      }
      if !flag {
        errors := errors + Errors(c.layout, requests[rank].data, c.values, rank);
      }
      assert requests[..rank + 1][..rank] == requests[..rank];
      rank := rank + 1;
    }
    assert requests[..rank] == requests[..];
  }

  function Requests(s: State): (qs: seq<Request>)
    ensures |qs| == |s.ranks| && forall k :: 0 <= k < |qs| ==> qs[k] == s.ranks[k].request
  {
    seq(|s.ranks|, k requires 0 <= k < |s.ranks| => s.ranks[k].request)
  }

  /** No error is counted exactly when every array that was received is right. */
  lemma {:induction false} NoErrorsIn(c: Config, qs: seq<Request>)
    ensures ErrorsIn(c, qs) == 0 <==>
      forall k :: 0 <= k < |qs| && qs[k].Received? ==> Errors(c.layout, qs[k].data, c.values, k) == 0
  {
    if qs != [] {
      var n := |qs| - 1;
      NoErrorsIn(c, qs[..n]);
      assert forall k :: 0 <= k < n ==> qs[..n][k] == qs[k];
    }
  }

  /** Each received array counts with its own errors: another one in its place changes the count by the difference. */
  lemma {:induction false} ErrorsCount(c: Config, qs: seq<Request>, k: nat, q: Request)
    requires k < |qs| && qs[k].Received?
    ensures ErrorsIn(c, qs[k := q]) ==
      ErrorsIn(c, qs) - Errors(c.layout, qs[k].data, c.values, k) + if q.Received? then Errors(c.layout, q.data, c.values, k) else 0
  {
    var n := |qs| - 1;
    if k < n {
      ErrorsCount(c, qs[..n], k, q);
      assert qs[k := q][..n] == qs[..n][k := q];
    } else {
      assert qs[k := q][..n] == qs[..n];
    }
  }

  /** The check of a complete run neither fails nor counts an error. */
  lemma CompleteChecks(c: Config, s: State)
    requires Complete(c, s)
    ensures forall k :: 0 <= k < c.ranks && s.flags[k] ==> Requests(s)[k].Cancelled?
    ensures ErrorsIn(c, Requests(s)) == 0
  {
    NoErrorsIn(c, Requests(s));
  }
}
