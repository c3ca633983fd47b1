/**
 * threaded/tst_threaded_ring.c: thread t of rank r sends to thread t + 1 of rank r + 1, all on one
 * communicator, so that only the tags tell the threads of a rank apart.
 *
 * A standard send is buffered or waits for its receive; which of the two is fixed per message by
 * an arbitrary function.  A receive may take any message whose envelope it matches.
 */
module ThreadedRing {
  import opened Lists
  import opened Options
  import opened Oracle
  import Rings
  import opened Runs

  /** threads is num_threads, the master included; tag is env->tag. */
  datatype Config = Config(ranks: nat, threads: nat, tag: nat, buffers: (nat, nat) -> bool, layout: Layout, values: nat)
  {
    /** send_to, recv_from */
    function SendTo(r: nat): nat { if ranks == 0 then 0 else (r + 1) % ranks }
    function RecvFrom(r: nat): nat { if ranks == 0 then 0 else (r + ranks - 1) % ranks }

    /** thread_tag_to, thread_tag_from */
    function TagTo(t: nat): nat requires threads > 0 { tag + (t + 1) % threads }
    function TagFrom(t: nat): nat { tag + t }

    /** The communicator has another rank to talk to; otherwise the peers are MPI_PROC_NULL. */
    predicate HasPeers() { ranks > 1 }
  }

  datatype Pc = AtSend | AtRecv | Finished | Rejected
  datatype Thread = Thread(pc: Pc, pending: bool, data: Option<seq<Byte>>)
  type State = seq<seq<Thread>>

  datatype Action =
    | Buffer(r: nat, t: nat)                          // the send completes into a buffer
    | Recv(r: nat, t: nat, from: nat, thread: nat)    // takes the message of thread `thread` of rank `from`
    | Null(r: nat, t: nat)                            // a send to or receive from MPI_PROC_NULL

  /** Line 96: with one thread the test only reports an error. */
  function FirstPc(c: Config, t: nat): Pc {
    if c.threads < 2 then Rejected else if t == 0 then AtSend else AtRecv
  }

  function Initial(c: Config): State {
    seq(c.ranks, _ => seq(c.threads, (t: int) requires 0 <= t < c.threads => Thread(FirstPc(c, t), false, None)))
  }

  /** Thread 0 sends first; the others receive first. */
  function AfterSend(t: nat): Pc { if t == 0 then AtRecv else Finished }
  function AfterRecv(t: nat): Pc { if t == 0 then Finished else AtSend }

  predicate In(s: State, r: nat, t: nat) { r < |s| && t < |s[r]| }

  function Put(s: State, r: nat, t: nat, x: Thread): State
    requires In(s, r, t)
  {
    s[r := s[r][t := x]]
  }

  /** A message of thread t2 of rank r2 matches the receive of thread t of rank r. */
  predicate Matches(c: Config, r: nat, t: nat, r2: nat, t2: nat)
    requires c.threads > 0
  {
    c.SendTo(r2) == r && c.RecvFrom(r) == r2 && c.TagTo(t2) == c.TagFrom(t)
  }

  /** The message can be received: it is buffered, or its sender waits in MPI_Send. */
  predicate Offered(c: Config, x: Thread, r: nat, t: nat) {
    x.pending || (x.pc.AtSend? && !c.buffers(r, t))
  }

  predicate Enabled(c: Config, s: State, a: Action) {
    In(s, a.r, a.t) && c.threads > 1 &&
    match a
    case Buffer(r, t) => c.HasPeers() && s[r][t].pc.AtSend? && c.buffers(r, t)
    case Recv(r, t, r2, t2) =>
      && c.HasPeers() && s[r][t].pc.AtRecv? && In(s, r2, t2)
      && Matches(c, r, t, r2, t2) && Offered(c, s[r2][t2], r2, t2)
    case Null(r, t) => !c.HasPeers() && (s[r][t].pc.AtSend? || s[r][t].pc.AtRecv?)
  }

  /** The sender once its message has been taken. */
  function Taken(x: Thread, t: nat): Thread {
    if x.pending then x.(pending := false) else x.(pc := AfterSend(t))
  }

  function Apply(c: Config, s: State, a: Action): State
    requires Enabled(c, s, a)
  {
    match a
    case Buffer(r, t) => Put(s, r, t, s[r][t].(pc := AfterSend(t), pending := true))
    case Recv(r, t, r2, t2) =>
      var s': State := Put(s, r2, t2, Taken(s[r2][t2], t2));
      Put(s', r, t, s'[r][t].(pc := AfterRecv(t), data := Some(Delivered(c.layout, c.values, r2))))
    case Null(r, t) => Put(s, r, t, s[r][t].(pc := if s[r][t].pc.AtSend? then AfterSend(t) else AfterRecv(t)))
  }

  ghost function Moves(c: Config): (State, Action, State) -> bool {
    (s: State, a: Action, t: State) => Enabled(c, s, a) && t == Apply(c, s, a)
  }

  ghost predicate IsRun(c: Config, r: Run<State, Action>) {
    Follows(r, Initial(c), Moves(c))
  }

  // ---------------------------------------------------------------------------------------
  // The ring over (rank, thread) pairs
  // ---------------------------------------------------------------------------------------

  function NextThread(c: Config, t: nat): nat { Rings.Next(c.threads, t) }
  function PrevThread(c: Config, t: nat): nat { Rings.Prev(c.threads, t) }
  function NextRank(c: Config, r: nat): nat { Rings.Next(c.ranks, r) }
  function PrevRank(c: Config, r: nat): nat { Rings.Prev(c.ranks, r) }

  /** Each receive has exactly one possible sender: its predecessor in the ring. */
  lemma UniqueMatch(c: Config, r: nat, t: nat, r2: nat, t2: nat)
    requires r < c.ranks && r2 < c.ranks && t < c.threads && t2 < c.threads
    ensures Matches(c, r, t, r2, t2) <==> r2 == PrevRank(c, r) && t2 == PrevThread(c, t)
    ensures Matches(c, r, t, r2, t2) <==> r2 == (r + c.ranks - 1) % c.ranks && t2 == (t + c.threads - 1) % c.threads
    ensures c.tag <= c.TagTo(t) < c.tag + c.threads && c.tag <= c.TagFrom(t) < c.tag + c.threads
  {
    Rings.Wrap(c.threads, t);
    Rings.Wrap(c.ranks, r2);
    Rings.Wrap(c.ranks, r);
    Rings.Wrap(c.threads, t2);
  }

  // ---------------------------------------------------------------------------------------
  // The invariant
  // ---------------------------------------------------------------------------------------

  predicate Sent(t: nat, x: Thread) { x.pc.Finished? || (t == 0 && x.pc.AtRecv?) }
  predicate Received(t: nat, x: Thread) { x.pc.Finished? || (t > 0 && x.pc.AtSend?) }

  predicate Sized(c: Config, s: State) {
    |s| == c.ranks && forall r :: 0 <= r < c.ranks ==> |s[r]| == c.threads
  }

  predicate CellOk(c: Config, s: State, r: nat, t: nat)
    requires Sized(c, s) && r < c.ranks && t < c.threads
  {
    var x, y := s[r][t], s[NextRank(c, r)][NextThread(c, t)];
    && (x.pc.Rejected? <==> c.threads < 2)
    && (c.HasPeers() ==>
      && (Received(NextThread(c, t), y) ==> Sent(t, x))
      && (x.pending <==> Sent(t, x) && !Received(NextThread(c, t), y))
      && (Received(t, x) ==> x.data == Some(Delivered(c.layout, c.values, PrevRank(c, r)))))
    && (!c.HasPeers() ==> x.data == None)
  }

  ghost predicate Inv(c: Config, s: State) {
    Sized(c, s) && forall r, t :: 0 <= r < c.ranks && 0 <= t < c.threads ==> CellOk(c, s, r, t)
  }

  lemma InitialOk(c: Config)
    ensures Inv(c, Initial(c))
  {
  }

  lemma BufferKeeps(c: Config, s: State, r: nat, t: nat)
    requires Inv(c, s) && Enabled(c, s, Buffer(r, t))
    ensures Inv(c, Apply(c, s, Buffer(r, t)))
  {
    var s': State := Apply(c, s, Buffer(r, t));
    forall r2, t2 | 0 <= r2 < c.ranks && 0 <= t2 < c.threads ensures CellOk(c, s', r2, t2) {
      assert CellOk(c, s, r2, t2) && CellOk(c, s, r, t);
    }
  }

  /** What a receive changes. */
  ghost predicate RecvEffect(c: Config, s: State, s': State, r: nat, t: nat, r1: nat, t1: nat)
    requires Sized(c, s) && Sized(c, s') && r < c.ranks && r1 < c.ranks && t < c.threads && t1 < c.threads
  {
    && s'[r][t] == s[r][t].(pc := AfterRecv(t), data := Some(Delivered(c.layout, c.values, r1)))
    && s'[r1][t1] == Taken(s[r1][t1], t1)
    && forall q, u :: 0 <= q < c.ranks && 0 <= u < c.threads && !(q == r && u == t) && !(q == r1 && u == t1) ==> s'[q][u] == s[q][u]
  }

  lemma RecvHasEffect(c: Config, s: State, r: nat, t: nat, r1: nat, t1: nat)
    requires Sized(c, s) && Enabled(c, s, Recv(r, t, r1, t1)) && r1 == PrevRank(c, r)
    ensures Sized(c, Apply(c, s, Recv(r, t, r1, t1))) && RecvEffect(c, s, Apply(c, s, Recv(r, t, r1, t1)), r, t, r1, t1)
  {
    assert r1 != r;
  }

  lemma RecvCell(c: Config, s: State, s': State, r: nat, t: nat, r1: nat, t1: nat, r2: nat, t2: nat)
    requires Inv(c, s) && Enabled(c, s, Recv(r, t, r1, t1)) && r2 < c.ranks && t2 < c.threads
    requires r1 == PrevRank(c, r) && t1 == PrevThread(c, t) && Sized(c, s') && RecvEffect(c, s, s', r, t, r1, t1)
    ensures CellOk(c, s', r2, t2)
  {
    assert CellOk(c, s, r2, t2) && CellOk(c, s, r1, t1) && CellOk(c, s, r, t);
  }

  lemma RecvKeeps(c: Config, s: State, r: nat, t: nat, r1: nat, t1: nat)
    requires Inv(c, s) && Enabled(c, s, Recv(r, t, r1, t1))
    ensures Inv(c, Apply(c, s, Recv(r, t, r1, t1)))
  {
    UniqueMatch(c, r, t, r1, t1);
    var s': State := Apply(c, s, Recv(r, t, r1, t1));
    RecvHasEffect(c, s, r, t, r1, t1);
    forall r2, t2 | 0 <= r2 < c.ranks && 0 <= t2 < c.threads ensures CellOk(c, s', r2, t2) {
      RecvCell(c, s, s', r, t, r1, t1, r2, t2);
    }
  }

  lemma NullKeeps(c: Config, s: State, r: nat, t: nat)
    requires Inv(c, s) && Enabled(c, s, Null(r, t))
    ensures Inv(c, Apply(c, s, Null(r, t)))
  {
    var s': State := Apply(c, s, Null(r, t));
    forall r2, t2 | 0 <= r2 < c.ranks && 0 <= t2 < c.threads ensures CellOk(c, s', r2, t2) {
      assert CellOk(c, s, r2, t2);
    }
  }

  lemma StepKeeps(c: Config, s: State, a: Action)
    requires Inv(c, s) && Enabled(c, s, a)
    ensures Inv(c, Apply(c, s, a))
  {
    match a
    case Buffer(r, t) => BufferKeeps(c, s, r, t);
    case Recv(r, t, r1, t1) => RecvKeeps(c, s, r, t, r1, t1);
    case Null(r, t) => NullKeeps(c, s, r, t);
  }

  // ---------------------------------------------------------------------------------------
  // Progress
  // ---------------------------------------------------------------------------------------

  ghost predicate Stuck(c: Config, s: State) { forall a :: !Enabled(c, s, a) }

  ghost predicate AllFinished(s: State) { forall r: nat, t: nat :: In(s, r, t) ==> s[r][t].pc.Finished? }

  /** A thread that waits to send is not blocked while its receiver waits to receive. */
  lemma StuckSender(c: Config, s: State, r: nat, t: nat)
    requires Inv(c, s) && Stuck(c, s) && c.HasPeers() && c.threads > 1 && r < c.ranks && t < c.threads
    requires s[NextRank(c, r)][NextThread(c, t)].pc.AtRecv?
    ensures !s[r][t].pc.AtSend?
  {
    var r2, t2 := NextRank(c, r), NextThread(c, t);
    UniqueMatch(c, r2, t2, r, t);
    assert !Enabled(c, s, Buffer(r, t));
    assert !Enabled(c, s, Recv(r2, t2, r, t));
  }

  /** A thread that waits to receive is not blocked once its predecessor has sent. */
  lemma StuckReceiver(c: Config, s: State, r: nat, t: nat)
    requires Inv(c, s) && Stuck(c, s) && c.HasPeers() && c.threads > 1 && r < c.ranks && t < c.threads
    requires Sent(PrevThread(c, t), s[PrevRank(c, r)][PrevThread(c, t)])
    ensures !s[r][t].pc.AtRecv?
  {
    var r2, t2 := PrevRank(c, r), PrevThread(c, t);
    UniqueMatch(c, r, t, r2, t2);
    assert NextRank(c, r2) == r && NextThread(c, t2) == t;
    assert CellOk(c, s, r2, t2) && CellOk(c, s, r, t);
    assert !Enabled(c, s, Recv(r, t, r2, t2));
  }

  /** Threads 0 have all sent; following the ring from there, so have all threads t. */
  lemma StuckAllSent(c: Config, s: State, r: nat, t: nat)
    requires Inv(c, s) && Stuck(c, s) && c.HasPeers() && c.threads > 1 && r < c.ranks && t < c.threads
    ensures Sent(t, s[r][t])
    decreases t
  {
    var r2, t2 := NextRank(c, r), NextThread(c, t);
    assert CellOk(c, s, r, t) && CellOk(c, s, r2, t2);
    if t > 0 {
      StuckAllSent(c, s, PrevRank(c, r), t - 1);
      StuckReceiver(c, s, r, t);
      if t2 == 0 { StuckAllSent(c, s, r2, 0); }
    }
    if !Sent(t, s[r][t]) {
      StuckSender(c, s, r, t);
    }
  }

  lemma StuckIsFinished(c: Config, s: State)
    requires Inv(c, s) && Stuck(c, s) && c.threads > 1
    ensures AllFinished(s)
  {
    forall r: nat, t: nat | In(s, r, t) ensures s[r][t].pc.Finished? {
      assert CellOk(c, s, r, t);
      if c.HasPeers() {
        StuckAllSent(c, s, r, t);
        StuckAllSent(c, s, PrevRank(c, r), PrevThread(c, t));
        StuckReceiver(c, s, r, t);
      } else {
        assert !Enabled(c, s, Null(r, t));
      }
    }
  }

  // ---------------------------------------------------------------------------------------
  // Termination
  // ---------------------------------------------------------------------------------------

  /** Operations a thread has left; two before its first, one before its second. */
  function Left(t: nat, x: Thread): nat {
    match x.pc
    case AtSend => if t == 0 then 2 else 1
    case AtRecv => if t == 0 then 1 else 2
    case _ => 0
  }

  function RowLeft(row: seq<Thread>): nat
  {
    if row == [] then 0 else Left(|row| - 1, row[|row| - 1]) + RowLeft(row[..|row| - 1])
  }

  lemma {:induction false} RowUpdate(row: seq<Thread>, t: nat, x: Thread)
    requires t < |row|
    ensures RowLeft(row[t := x]) == RowLeft(row) - Left(t, row[t]) + Left(t, x)
  {
    if t == |row| - 1 {
      assert row[t := x][..t] == row[..t];
    } else {
      assert row[t := x][..|row| - 1] == row[..|row| - 1][t := x];
      RowUpdate(row[..|row| - 1], t, x);
    }
  }

  function RowWeight(): seq<Thread> -> nat { (row: seq<Thread>) => RowLeft(row) }

  function Measure(): State -> nat { (s: State) => Sum(RowWeight(), s) }

  lemma PutMeasure(s: State, r: nat, t: nat, x: Thread)
    requires In(s, r, t)
    ensures Measure()(Put(s, r, t, x)) == Measure()(s) - Left(t, s[r][t]) + Left(t, x)
  {
    RowUpdate(s[r], t, x);
    SumUpdate(RowWeight(), s, r, s[r][t := x]);
  }

  lemma MeasureDrops(c: Config, s: State, a: Action)
    requires Inv(c, s) && Enabled(c, s, a)
    ensures Measure()(Apply(c, s, a)) < Measure()(s)
  {
    match a
    case Buffer(r, t) => PutMeasure(s, r, t, s[r][t].(pc := AfterSend(t), pending := true));
    case Recv(r, t, r2, t2) =>
      UniqueMatch(c, r, t, r2, t2);
      var s': State := Put(s, r2, t2, Taken(s[r2][t2], t2));
      PutMeasure(s, r2, t2, Taken(s[r2][t2], t2));
      PutMeasure(s', r, t, s'[r][t].(pc := AfterRecv(t), data := Some(Delivered(c.layout, c.values, r2))));
    case Null(r, t) => PutMeasure(s, r, t, s[r][t].(pc := if s[r][t].pc.AtSend? then AfterSend(t) else AfterRecv(t)));
  }

  // ---------------------------------------------------------------------------------------
  // Theorems about runs
  // ---------------------------------------------------------------------------------------

  /** The protocol with its invariant and its measure. */
  ghost function Protocol(c: Config): System<State, Action> {
    System(Initial(c), Moves(c), (s: State) => Inv(c, s), Measure(), (a: Action) => false)
  }

  lemma ProtocolSound(c: Config)
    ensures Sound(Protocol(c))
  {
    InitialOk(c);
    forall s, a, t | Inv(c, s) && Moves(c)(s, a, t) ensures Inv(c, t) && Measure()(t) < Measure()(s) {
      StepKeeps(c, s, a);
      MeasureDrops(c, s, a);
    }
  }

  lemma RunInv(c: Config, r: Run<State, Action>)
    requires IsRun(c, r)
    ensures forall k :: 0 <= k < |r.states| ==> Inv(c, r.states[k])
  {
    ProtocolSound(c);
    SystemInvariant(Protocol(c), r);
  }

  lemma RunsAreBounded(c: Config, r: Run<State, Action>)
    requires IsRun(c, r)
    ensures |r.actions| <= Measure()(Initial(c))
  {
    ProtocolSound(c);
    SystemBounded(Protocol(c), r);
    CountNone(Protocol(c).spurious, r.actions);
  }

  /** In every state of every run, at most one message is on offer to a receive, and it is the predecessor's. */
  lemma OnlyOneMatch(c: Config, r: Run<State, Action>, k: nat, a: Action, b: Action)
    requires IsRun(c, r) && k < |r.states| && a.Recv? && b.Recv? && a.r == b.r && a.t == b.t
    requires Enabled(c, r.states[k], a) && Enabled(c, r.states[k], b)
    ensures a == b && c.ranks > 0 && c.threads > 0
    ensures a.from == (a.r + c.ranks - 1) % c.ranks && a.thread == (a.t + c.threads - 1) % c.threads
  {
    RunInv(c, r);
    UniqueMatch(c, a.r, a.t, a.from, a.thread);
    UniqueMatch(c, b.r, b.t, b.from, b.thread);
  }

  /** Every thread holds its predecessor rank's array, and its check finds no error. */
  ghost predicate AllChecked(c: Config, s: State) {
    forall r: nat, t: nat :: In(s, r, t) ==>
      c.ranks > 0 && s[r][t].data.Some? && Errors(c.layout, s[r][t].data.value, c.values, (r + c.ranks - 1) % c.ranks) == 0
  }

  /** Thread 0 receives only after it has sent, the others send only after they have received. */
  ghost predicate TakesTurns(c: Config, s: State) {
    forall r: nat, t: nat :: In(s, r, t) ==>
      && (t > 0 && s[r][t].pc.AtSend? ==> s[r][t].data.Some?)
      && (t == 0 && s[r][t].pc.AtRecv? && !s[r][t].pending ==>
            c.ranks > 0 && In(s, (r + 1) % c.ranks, 1) && s[(r + 1) % c.ranks][1].data.Some?)
  }

  lemma RunsTakeTurns(c: Config, r: Run<State, Action>, k: nat)
    requires IsRun(c, r) && k < |r.states| && c.HasPeers() && c.threads >= 2
    ensures TakesTurns(c, r.states[k])
  {
    RunInv(c, r);
    var s := r.states[k];
    forall q: nat, t: nat | In(s, q, t)
      ensures t > 0 && s[q][t].pc.AtSend? ==> s[q][t].data.Some?
      ensures t == 0 && s[q][t].pc.AtRecv? && !s[q][t].pending ==>
        In(s, (q + 1) % c.ranks, 1) && s[(q + 1) % c.ranks][1].data.Some?
    {
      Rings.Wrap(c.ranks, q);
      assert CellOk(c, s, q, t);
      if t == 0 { assert CellOk(c, s, NextRank(c, q), 1); }
    }
  }

  lemma CheckedAt(c: Config, s: State, r: nat, t: nat)
    requires Inv(c, s) && c.HasPeers() && In(s, r, t) && s[r][t].pc.Finished?
    ensures s[r][t].data.Some? && Errors(c.layout, s[r][t].data.value, c.values, (r + c.ranks - 1) % c.ranks) == 0
  {
    Rings.Wrap(c.ranks, r);
    assert CellOk(c, s, r, t);
    DeliveredPasses(c.layout, c.values, PrevRank(c, r));
  }

  /**
   * Whatever messages are buffered and whatever the interleaving: a run that cannot go on has
   * finished on every thread, with the right data, if and only if there are at least two threads.
   */
  lemma StuckRunsAreComplete(c: Config, r: Run<State, Action>)
    requires IsRun(c, r) && Stuck(c, r.Last()) && c.ranks > 0 && c.threads > 0
    ensures AllFinished(r.Last()) <==> c.threads >= 2
    ensures c.threads >= 2 && c.HasPeers() ==> AllChecked(c, r.Last())
  {
    RunInv(c, r);
    var s := r.Last();
    if c.threads >= 2 {
      StuckIsFinished(c, s);
      if c.HasPeers() {
        forall q: nat, t: nat | In(s, q, t)
          ensures s[q][t].data.Some? && Errors(c.layout, s[q][t].data.value, c.values, (q + c.ranks - 1) % c.ranks) == 0
        {
          CheckedAt(c, s, q, t);
        }
      }
    } else {
      assert CellOk(c, s, 0, 0) && In(s, 0, 0);
    }
  }

  /** Every run goes on to a state where nothing more happens, and with two threads that is the end of the test. */
  lemma EveryRunEnds(c: Config, r: Run<State, Action>) returns (q: Run<State, Action>)
    requires IsRun(c, r) && c.ranks > 0 && c.threads > 0
    ensures IsRun(c, q) && Extends(q, r) && Stuck(c, q.Last())
    ensures AllFinished(q.Last()) <==> c.threads >= 2
  {
    ProtocolSound(c);
    q := RunOn(Protocol(c), r);
    forall a ensures !Enabled(c, q.Last(), a) {
      if Enabled(c, q.Last(), a) { HaltedStep(Protocol(c), q.Last(), a, Apply(c, q.Last(), a)); }
    }
    StuckRunsAreComplete(c, q);
  }
}
