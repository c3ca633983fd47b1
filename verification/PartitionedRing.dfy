/**
 * The two partitioned rings of threaded/: rank 0 sends its buffer around the ring, one send
 * partition per worker thread, while a receive partition covers `ratio` send partitions.
 * ratio 1 is tst_threaded_ring_partitioned.c, ratio 4 the many-to-one variant.
 *
 * MPI is the actions Start, MpiBarrier and Transfer and the conditions under which Parrived and
 * Waitall let a thread go on; the tagged signals of tst_threads.c are modelled with their waiters.
 */
module PartitionedRing {
  import opened Buffers
  import opened Lists
  import Oracle
  import Products
  import Rings
  import opened Runs

  type Byte = Oracle.Byte

  /**
   * size is the number of bytes of a send partition; the buffers start with arbitrary contents, as
   * malloc leaves them.  A message does not carry the bytes in the gaps of the type, which gap marks.
   * sendWaits(r): rank r's send request completes only with the arrival at the next rank, and not
   * already when everything is ready.
   */
  datatype Config = Config(ranks: nat, workers: nat, ratio: nat, size: nat, gap: nat -> bool, sendWaits: nat -> bool,
                           send: seq<seq<Byte>>, recv: seq<seq<Byte>>)
  {
    ghost predicate Valid() {
      && ranks > 0 && ratio > 0
      && |send| == |recv| == ranks
      && forall r :: 0 <= r < ranks ==> |send[r]| == workers * size && |recv[r]| == workers * size
    }

    /** Rank 0's send buffer, which everybody is to receive. */
    function Original(): seq<Byte> requires |send| > 0 { send[0] }

    /** Rank 0's data in the receive buffer of rank r: the gaps keep what they held. */
    function Merged(r: nat): (b: seq<Byte>)
      requires |send| > 0
      ensures |b| == |send[0]|
    {
      seq(|send[0]|, k requires 0 <= k < |send[0]| => if gap(k) && r < |recv| && k < |recv[r]| then recv[r][k] else send[0][k])
    }

    /** The receive buffer of rank r in the end: beyond the receive partitions it is never touched. */
    function Received(r: nat): seq<Byte>
      requires |send| > 0 && ratio > 0
    {
      if r < |recv| && Covered() * size <= |send[0]| && Covered() * size <= |recv[r]|
      then Merged(r)[..Covered() * size] + recv[r][Covered() * size..]
      else []
    }

    /** What rank r sends on. */
    function Outgoing(r: nat): seq<Byte> requires |send| > 0 { if r == 0 then send[0] else Merged(r) }

    /** num_recv_partitions */
    function RecvPartitions(): nat requires ratio > 0 { workers / ratio }

    /** The send partitions covered by some receive partition. */
    function Covered(): nat requires ratio > 0 { ratio * RecvPartitions() }

    /** The thread's recv_partition_num is a receive partition. */
    predicate Leads(t: nat) requires ratio > 0 { t % ratio == 0 && t / ratio < RecvPartitions() }

    function Next(r: nat): nat { Rings.Next(ranks, r) }
    function Prev(r: nat): nat { Rings.Prev(ranks, r) }
  }

  datatype MasterPc = MStart | MMpiBarrier | MGate1 | MWaitall | MGate2 | MDone

  datatype WorkerPc =
    | Start | Gate1
    | RootReady | RootArrive                 // rank 0: MPI_Pready, then wait_for_partition
    | Arrive | Signal(i: nat)                // a leader: wait_for_partition, then signal_send (t + i)
    | Check | Sleep                          // a follower in tst_thread_signal_wait
    | Copy | Pready                          // memcpy, MPI_Pready
    | Gate2 | Done

  datatype Rank = Rank(master: MasterPc, workers: seq<WorkerPc>, ready: seq<bool>, arrived: seq<bool>,
                       signals: seq<nat>, send: seq<Byte>, recv: seq<Byte>)

  type State = seq<Rank>

  datatype Action =
    | StartAll(r: nat)             // Psend_init, Precv_init, Startall
    | MpiBarrier(r: nat)
    | Master(r: nat)               // pthread_barrier_wait and Waitall of the master
    | Worker(r: nat, t: nat)
    | Transfer(r: nat, t: nat)     // send partition t of rank r reaches the next rank
    | Wake(r: nat, t: nat)         // spurious

  predicate Spurious(a: Action) { a.Wake? }

  /**
   * The copy of one worker inside the global buffer, whose first half is the send and whose second
   * half the receive buffer.
   */
  method CopyPartition(global: array<Byte>, n: nat, t: nat, size: nat)
    requires t < n && global.Length == 2 * (n * size)
    modifies global
    ensures global[..n * size] == CopyPart(old(global[..n * size]), old(global[n * size..]), t, size)
    ensures global[n * size..] == old(global[n * size..])
  {
    var half, begin := n * size, t * size;
    ghost var send, recv := global[..half], global[half..];
    PartBounds(send, n, t, size);
    assert begin + size == (t + 1) * size;
    var i := begin;
    while i < begin + size
      invariant begin <= i <= begin + size
      invariant forall j :: begin <= j < i ==> global[j] == recv[j]
      invariant forall j :: 0 <= j < half && !(begin <= j < i) ==> global[j] == send[j]
      invariant forall j :: half <= j < global.Length ==> global[j] == old(global[j])
    {
      assert recv[i] == old(global[half + i]);
      global[i] := global[half + i];
      i := i + 1;
    }
    assert CopyPart(send, recv, t, size) == send[..begin] + recv[begin..begin + size] + send[begin + size..];
  }

  // ---------------------------------------------------------------------------------------
  // The step relation
  // ---------------------------------------------------------------------------------------

  function InitialRank(c: Config, r: nat): Rank
    requires r < |c.send| && r < |c.recv|
  {
    Rank(MStart, seq(c.workers, _ => Start), seq(c.workers, _ => false), seq(c.workers, _ => false),
         seq(c.workers, _ => 0), c.send[r], c.recv[r])
  }

  function Initial(c: Config): State
    requires |c.send| == |c.recv| == c.ranks
  {
    seq(c.ranks, r requires 0 <= r < c.ranks => InitialRank(c, r))
  }

  /** pthread_barrier_wait lets go once all threads of the rank have arrived. */
  predicate Gate1Open(k: Rank) {
    && (k.master.MGate1? || k.master.MWaitall? || k.master.MGate2? || k.master.MDone?)
    && forall t :: 0 <= t < |k.workers| ==> !k.workers[t].Start?
  }

  predicate Gate2Open(k: Rank) {
    && (k.master.MGate2? || k.master.MDone?)
    && forall t :: 0 <= t < |k.workers| ==> k.workers[t].Gate2? || k.workers[t].Done?
  }

  /** MPI_Parrived: the send partitions of receive partition t / ratio have all arrived. */
  predicate PartitionArrived(c: Config, k: Rank, t: nat)
    requires c.ratio > 0
  {
    forall u :: t <= u < t + c.ratio && u < |k.arrived| ==> k.arrived[u]
  }

  /** Both requests of the master can complete. */
  predicate RequestsComplete(c: Config, r: nat, k: Rank, next: Rank)
    requires c.ratio > 0
  {
    && (forall t :: 0 <= t < |k.ready| ==> k.ready[t])
    && (forall t :: 0 <= t < c.Covered() && t < |k.arrived| ==> k.arrived[t])
    && (c.sendWaits(r) ==> forall t :: 0 <= t < c.Covered() && t < |next.arrived| ==> next.arrived[t])
  }

  predicate WorkerEnabled(c: Config, k: Rank, t: nat)
    requires c.ratio > 0 && t < |k.workers|
  {
    match k.workers[t]
    case Gate1 => Gate1Open(k)
    case RootArrive => PartitionArrived(c, k, t)
    case Arrive => PartitionArrived(c, k, t)
    case Sleep => false
    case Gate2 => Gate2Open(k)
    case Done => false
    case _ => true
  }

  predicate Enabled(c: Config, s: State, a: Action)
    requires c.ratio > 0
  {
    a.r < |s| &&
    match a
    case StartAll(r) => s[r].master.MStart?
    case MpiBarrier(r) => s[r].master.MMpiBarrier? && forall k :: 0 <= k < |s| ==> !s[k].master.MStart?
    case Master(r) =>
      (match s[r].master
       case MGate1 => Gate1Open(s[r])
       case MWaitall => c.Next(r) < |s| && RequestsComplete(c, r, s[r], s[c.Next(r)])
       case MGate2 => Gate2Open(s[r])
       case _ => false)
    case Worker(r, t) => t < |s[r].workers| && WorkerEnabled(c, s[r], t)
    case Transfer(r, t) =>
      && t < c.Covered() && c.Next(r) < |s| && t < |s[r].ready| && s[r].ready[t]
      && !s[c.Next(r)].master.MStart? && t < |s[c.Next(r)].arrived| && !s[c.Next(r)].arrived[t]
    case Wake(r, t) => t < |s[r].workers| && s[r].workers[t].Sleep?
  }

  /** The branch a worker takes after the first barrier. */
  function Branch(c: Config, r: nat, t: nat): WorkerPc
    requires c.ratio > 0
  {
    if r == 0 then RootReady else if c.Leads(t) then Arrive else Check
  }

  function AfterSignal(c: Config, i: nat): WorkerPc { if i < c.ratio then Signal(i) else Copy }

  function WokenAt(k: Rank, u: nat): seq<WorkerPc> {
    if u < |k.workers| && k.workers[u].Sleep? then k.workers[u := Check] else k.workers
  }

  /** tst_thread_signal_send (u) */
  function Signalled(k: Rank, u: nat): Rank {
    if u < |k.signals| then k.(signals := k.signals[u := k.signals[u] + 1], workers := WokenAt(k, u)) else k
  }

  function MoveTo(k: Rank, t: nat, pc: WorkerPc): Rank {
    if t < |k.workers| then k.(workers := k.workers[t := pc]) else k
  }

  function MarkReady(k: Rank, t: nat): Rank {
    if t < |k.ready| then k.(ready := k.ready[t := true]) else k
  }

  function WorkerStep(c: Config, r: nat, k: Rank, t: nat): Rank
    requires c.ratio > 0 && t < |k.workers|
  {
    match k.workers[t]
    case Start => MoveTo(k, t, Gate1)
    case Gate1 => MoveTo(k, t, Branch(c, r, t))
    case RootReady => MoveTo(MarkReady(k, t), t, if c.Leads(t) then RootArrive else Gate2)
    case RootArrive => MoveTo(k, t, Gate2)
    case Arrive => MoveTo(k, t, AfterSignal(c, 1))
    case Signal(i) => MoveTo(Signalled(k, t + i), t, AfterSignal(c, i + 1))
    case Check => MoveTo(k, t, if t < |k.signals| && k.signals[t] > 0 then Copy else Sleep)
    case Copy => MoveTo(k.(send := CopyPart(k.send, k.recv, t, c.size)), t, Pready)
    case Pready => MoveTo(MarkReady(k, t), t, Gate2)
    case Gate2 => MoveTo(k, t, Done)
    case _ => k
  }

  function MasterStep(k: Rank): Rank {
    match k.master
    case MGate1 => k.(master := MWaitall)
    case MWaitall => k.(master := MGate2)
    case MGate2 => k.(master := MDone)
    case _ => k
  }

  function Deliver(c: Config, from: Rank, to: Rank, t: nat): Rank {
    if t < |to.arrived| then to.(arrived := to.arrived[t := true], recv := OverlayPart(to.recv, from.send, t, c.size, c.gap)) else to
  }

  function Apply(c: Config, s: State, a: Action): State
    requires c.ratio > 0 && Enabled(c, s, a)
  {
    match a
    case StartAll(r) => s[r := s[r].(master := MMpiBarrier)]
    case MpiBarrier(r) => s[r := s[r].(master := MGate1)]
    case Master(r) => s[r := MasterStep(s[r])]
    case Worker(r, t) => s[r := WorkerStep(c, r, s[r], t)]
    case Transfer(r, t) => s[c.Next(r) := Deliver(c, s[r], s[c.Next(r)], t)]
    case Wake(r, t) => s[r := MoveTo(s[r], t, Check)]
  }

  ghost function Moves(c: Config): (State, Action, State) -> bool
    requires c.ratio > 0
  {
    (s: State, a: Action, t: State) => Enabled(c, s, a) && t == Apply(c, s, a)
  }

  ghost predicate IsRun(c: Config, r: Run<State, Action>)
    requires c.Valid()
  {
    Follows(r, Initial(c), Moves(c))
  }

  // ---------------------------------------------------------------------------------------
  // The invariant
  // ---------------------------------------------------------------------------------------

  predicate Started(pc: WorkerPc) { pc.Start? || pc.Gate1? }

  /** The worker has marked its send partition ready. */
  predicate HasReadied(pc: WorkerPc) { pc.RootArrive? || pc.Gate2? || pc.Done? }

  predicate HasCopied(pc: WorkerPc) { pc.Pready? || pc.Gate2? || pc.Done? }

  /** The leader has sent the i-th of its signals. */
  predicate HasSignalled(pc: WorkerPc, i: nat) { pc.Copy? || HasCopied(pc) || (pc.Signal? && pc.i > i) }

  /** The control points of worker t of rank r. */
  predicate PcOk(c: Config, r: nat, t: nat, pc: WorkerPc)
    requires c.ratio > 0
  {
    if r == 0 then Started(pc) || pc.RootReady? || (pc.RootArrive? && c.Leads(t)) || pc.Gate2? || pc.Done?
    else if t >= c.Covered() then Started(pc) || pc.Check? || pc.Sleep?
    else if c.Leads(t) then Started(pc) || pc.Arrive? || (pc.Signal? && 1 <= pc.i < c.ratio) || pc.Copy? || HasCopied(pc)
    else Started(pc) || pc.Check? || pc.Sleep? || pc.Copy? || HasCopied(pc)
  }

  /** The leader of the receive partition that covers send partition t. */
  function LeaderOf(c: Config, t: nat): nat
    requires c.ratio > 0
  {
    t - t % c.ratio
  }

  predicate SignalOk(c: Config, r: nat, k: Rank, t: nat)
    requires c.ratio > 0 && t < |k.workers| && t < |k.signals|
  {
    k.signals[t] ==
      if r > 0 && t < c.Covered() && !c.Leads(t) && HasSignalled(k.workers[LeaderOf(c, t)], t % c.ratio) then 1 else 0
  }

  predicate Shape(c: Config, k: Rank) {
    && |k.workers| == |k.ready| == |k.arrived| == |k.signals| == c.workers
    && |k.send| == |k.recv| == c.workers * c.size
  }

  /** A send partition reaches the next rank around the ring, without its gaps, and nothing else changes. */
  lemma TransferReaches(c: Config, s: State, r: nat, t: nat)
    requires c.Valid() && |s| == c.ranks && Enabled(c, s, Transfer(r, t))
    ensures var q, n := (r + 1) % c.ranks, Apply(c, s, Transfer(r, t));
      && |n| == |s| && (forall k :: 0 <= k < |s| && k != q ==> n[k] == s[k])
      && t < |n[q].arrived| && n[q].arrived[t] && |n[q].recv| == |s[q].recv|
      && forall k :: 0 <= k < |s[q].recv| ==>
           if t * c.size <= k < (t + 1) * c.size && k < |s[r].send| && !c.gap(k) then n[q].recv[k] == s[r].send[k]
           else n[q].recv[k] == s[q].recv[k]
  {
    Rings.Wrap(c.ranks, r);
  }

  /** What one worker's control point says about its rank. */
  predicate WorkerOk(c: Config, r: nat, k: Rank, t: nat)
    requires c.Valid() && Shape(c, k) && t < c.workers
  {
    var pc := k.workers[t];
    && PcOk(c, r, t, pc)
    && SignalOk(c, r, k, t)
    && (k.ready[t] <==> HasReadied(pc))
    && (!Started(pc) ==> Gate1Open(k))
    && (pc.Sleep? ==> k.signals[t] == 0)
    && (r > 0 && !c.Leads(t) && (pc.Copy? || HasCopied(pc)) ==> k.signals[t] > 0)
    && (r > 0 && c.Leads(t) && (pc.Signal? || pc.Copy? || HasCopied(pc)) ==> PartitionArrived(c, k, t))
    && (r > 0 && HasCopied(pc) ==> Part(k.send, t, c.size) == Part(c.Merged(r), t, c.size))
    && (k.arrived[t] ==> t < c.Covered() && Part(k.recv, t, c.size) == Part(c.Merged(r), t, c.size))
    && (!k.arrived[t] && r < c.ranks ==> Part(k.recv, t, c.size) == Part(c.recv[r], t, c.size))
    && (pc.Done? ==> Gate2Open(k))
  }

  predicate RankOk(c: Config, r: nat, k: Rank)
    requires c.Valid()
  {
    && Shape(c, k)
    && (r == 0 ==> k.send == c.Original())
    && (forall t :: 0 <= t < c.workers ==> WorkerOk(c, r, k, t))
    && (k.master.MGate2? || k.master.MDone? ==> (forall t :: 0 <= t < c.Covered() ==> k.arrived[t]))
    && (k.master.MGate2? || k.master.MDone? ==> (forall t :: 0 <= t < c.workers ==> k.ready[t]))
    && (k.master.MWaitall? || k.master.MGate2? || k.master.MDone? ==> Gate1Open(k))
    && (k.master.MDone? ==> Gate2Open(k))
  }

  predicate AllStarted(s: State) { forall k :: 0 <= k < |s| ==> !s[k].master.MStart? }

  ghost predicate Inv(c: Config, s: State)
    requires c.Valid()
  {
    && |s| == c.ranks
    && (forall r :: 0 <= r < c.ranks ==> RankOk(c, r, s[r]))
    && (forall r :: 0 <= r < c.ranks && !s[r].master.MStart? && !s[r].master.MMpiBarrier? ==> AllStarted(s))
  }

  // ---------------------------------------------------------------------------------------
  // Leaders and followers
  // ---------------------------------------------------------------------------------------

  lemma Multiples(p: nat, q: nat, d: nat)
    requires p < q
    ensures (p + 1) * d <= q * d && (p + 1) * d == p * d + d
  {
    Products.Ordered(p + 1, q, d);
    Products.Distributes(p, 1, d);
  }

  /** Signal tags t + i of a leader are in range, and name a follower of that leader. */
  lemma LeaderSignals(c: Config, t: nat, i: nat)
    requires c.ratio > 0 && c.Leads(t) && 1 <= i < c.ratio
    ensures t + i < c.Covered() <= c.workers
    ensures !c.Leads(t + i) && LeaderOf(c, t + i) == t && (t + i) % c.ratio == i
  {
    var q := t / c.ratio;
    assert t == c.ratio * q;
    Products.Remainder(t + i, q, i, c.ratio);
    Multiples(q, c.RecvPartitions(), c.ratio);
  }

  /** The receive partitions cover the workers up to the last multiple of the ratio; the multiples below it lead. */
  lemma CoveredExactly(c: Config, t: nat)
    requires c.ratio > 0
    ensures c.Covered() == c.workers - c.workers % c.ratio
    ensures c.Leads(t) <==> t % c.ratio == 0 && t < c.workers - c.workers % c.ratio
  {
    assert c.workers == c.ratio * (c.workers / c.ratio) + c.workers % c.ratio;
    assert t == c.ratio * (t / c.ratio) + t % c.ratio;
    if t / c.ratio < c.RecvPartitions() {
      Multiples(t / c.ratio, c.RecvPartitions(), c.ratio);
    } else {
      Products.Ordered(c.RecvPartitions(), t / c.ratio, c.ratio);
    }
  }

  /** Every covered partition has a leader on its rank. */
  lemma LeaderExists(c: Config, t: nat)
    requires c.ratio > 0 && t < c.Covered()
    ensures var l := LeaderOf(c, t);
      0 <= l <= t < l + c.ratio <= c.Covered() <= c.workers && c.Leads(l) && t == l + t % c.ratio && (t % c.ratio == 0 <==> c.Leads(t))
  {
    var q := t / c.ratio;
    var l := LeaderOf(c, t);
    assert t == c.ratio * q + t % c.ratio;
    Products.Remainder(l, q, 0, c.ratio);
    assert q < c.RecvPartitions() by {
      if q > c.RecvPartitions() { Multiples(c.RecvPartitions(), q, c.ratio); }
    }
    Multiples(q, c.RecvPartitions(), c.ratio);
  }

  // ---------------------------------------------------------------------------------------
  // Every step keeps the invariant: first the steps of one worker, within its rank
  // ---------------------------------------------------------------------------------------

  /** What a step of worker t leaves alone at worker u. */
  ghost predicate Untouched(c: Config, k: Rank, n: Rank, u: nat)
    requires Shape(c, k) && Shape(c, n) && u < c.workers
  {
    && n.workers[u] == k.workers[u] && n.signals[u] == k.signals[u] && n.ready[u] == k.ready[u]
    && n.arrived == k.arrived && n.recv == k.recv
    && Part(n.send, u, c.size) == Part(k.send, u, c.size)
    && (Gate1Open(k) ==> Gate1Open(n)) && (Gate2Open(k) ==> Gate2Open(n))
  }

  lemma OtherWorker(c: Config, r: nat, k: Rank, n: Rank, t: nat, u: nat)
    requires c.Valid() && Shape(c, k) && Shape(c, n) && t < c.workers && u < c.workers
    requires WorkerOk(c, r, k, u) && Untouched(c, k, n, u)
    requires r > 0 && u < c.Covered() && !c.Leads(u) && LeaderOf(c, u) < c.workers ==>
      (HasSignalled(n.workers[LeaderOf(c, u)], u % c.ratio) <==> HasSignalled(k.workers[LeaderOf(c, u)], u % c.ratio))
    ensures WorkerOk(c, r, n, u)
  {
  }

  /** A worker's move that sends no signal, finishes the rank's obligations when its own hold. */
  lemma QuietStep(c: Config, r: nat, k: Rank, n: Rank, t: nat)
    requires c.Valid() && RankOk(c, r, k) && t < c.workers && Shape(c, n)
    requires n.master == k.master && n.signals == k.signals && n.arrived == k.arrived && n.recv == k.recv
    requires n.workers == k.workers[t := n.workers[t]]
    requires n.ready == k.ready || (n.ready == k.ready[t := true] && HasReadied(n.workers[t]))
    requires forall u :: 0 <= u < c.workers && u != t ==> Part(n.send, u, c.size) == Part(k.send, u, c.size)
    requires r == 0 ==> n.send == k.send
    requires !n.workers[t].Start?
    requires k.workers[t].Gate2? || k.workers[t].Done? ==> n.workers[t].Gate2? || n.workers[t].Done?
    requires r > 0 && c.Leads(t) ==>
      forall i :: 1 <= i < c.ratio ==> (HasSignalled(n.workers[t], i) <==> HasSignalled(k.workers[t], i))
    requires WorkerOk(c, r, n, t)
    ensures RankOk(c, r, n)
  {
    forall u | 0 <= u < c.workers ensures WorkerOk(c, r, n, u) {
      if u != t {
        assert WorkerOk(c, r, k, u);
        if u < c.Covered() { LeaderExists(c, u); }
        OtherWorker(c, r, k, n, t, u);
      }
    }
  }

  /** PartitionArrived of the leader covers the partition of each of its followers. */
  lemma FollowerArrived(c: Config, r: nat, k: Rank, t: nat)
    requires c.Valid() && RankOk(c, r, k) && r > 0 && t < c.Covered() && t < c.workers && !c.Leads(t)
    requires k.signals[t] > 0
    ensures k.arrived[t]
  {
    LeaderExists(c, t);
    var l := LeaderOf(c, t);
    assert WorkerOk(c, r, k, t) && WorkerOk(c, r, k, l);
    assert PartitionArrived(c, k, l);
  }

  lemma CopyKeeps(c: Config, r: nat, k: Rank, t: nat)
    requires c.Valid() && RankOk(c, r, k) && t < c.workers && k.workers[t].Copy?
    ensures RankOk(c, r, WorkerStep(c, r, k, t))
  {
    var n := WorkerStep(c, r, k, t);
    assert WorkerOk(c, r, k, t);
    assert k.arrived[t] by {
      LeaderExists(c, t);
      if !c.Leads(t) { FollowerArrived(c, r, k, t); }
    }
    CopyOnlyPart(k.send, k.recv, c.workers, t, t, c.size);
    forall u | 0 <= u < c.workers && u != t ensures Part(n.send, u, c.size) == Part(k.send, u, c.size) {
      CopyOnlyPart(k.send, k.recv, c.workers, t, u, c.size);
    }
    assert WorkerOk(c, r, n, t);
    QuietStep(c, r, k, n, t);
  }

  lemma LeadersAreCovered(c: Config, t: nat)
    requires c.ratio > 0 && c.Leads(t)
    ensures t < c.Covered()
  {
    assert t == c.ratio * (t / c.ratio);
    Multiples(t / c.ratio, c.RecvPartitions(), c.ratio);
  }

  lemma FirstGateKeeps(c: Config, r: nat, k: Rank, t: nat)
    requires c.Valid() && RankOk(c, r, k) && t < c.workers && WorkerEnabled(c, k, t) && k.workers[t].Gate1?
    ensures RankOk(c, r, WorkerStep(c, r, k, t))
  {
    var n := WorkerStep(c, r, k, t);
    assert WorkerOk(c, r, k, t);
    if c.Leads(t) { LeadersAreCovered(c, t); }
    assert Gate1Open(n) && !Gate2Open(k);
    assert WorkerOk(c, r, n, t);
    QuietStep(c, r, k, n, t);
  }

  lemma OuterStepKeeps(c: Config, r: nat, k: Rank, t: nat)
    requires c.Valid() && RankOk(c, r, k) && t < c.workers && WorkerEnabled(c, k, t)
    requires k.workers[t].Start? || k.workers[t].Gate2?
    ensures RankOk(c, r, WorkerStep(c, r, k, t))
  {
    var n := WorkerStep(c, r, k, t);
    assert WorkerOk(c, r, k, t);
    if k.workers[t].Gate2? { assert Gate2Open(n) && Gate1Open(n); }
    assert WorkerOk(c, r, n, t);
    QuietStep(c, r, k, n, t);
  }

  lemma ReadyKeeps(c: Config, r: nat, k: Rank, t: nat)
    requires c.Valid() && RankOk(c, r, k) && t < c.workers && WorkerEnabled(c, k, t)
    requires k.workers[t].RootReady? || k.workers[t].RootArrive? || k.workers[t].Pready?
    ensures RankOk(c, r, WorkerStep(c, r, k, t))
  {
    var n := WorkerStep(c, r, k, t);
    assert WorkerOk(c, r, k, t);
    assert Gate1Open(n);
    assert WorkerOk(c, r, n, t);
    QuietStep(c, r, k, n, t);
  }

  lemma WaitKeeps(c: Config, r: nat, k: Rank, t: nat)
    requires c.Valid() && RankOk(c, r, k) && t < c.workers && WorkerEnabled(c, k, t)
    requires k.workers[t].Arrive? || k.workers[t].Check?
    ensures RankOk(c, r, WorkerStep(c, r, k, t))
  {
    var n := WorkerStep(c, r, k, t);
    assert WorkerOk(c, r, k, t);
    assert Gate1Open(n);
    if k.workers[t].Arrive? {
      assert PartitionArrived(c, n, t);
      assert c.Leads(t) && t < c.Covered();
    } else if k.signals[t] > 0 {
      assert t < c.Covered();
    }
    assert WorkerOk(c, r, n, t);
    QuietStep(c, r, k, n, t);
  }

  /** The leader that signals, the follower it signals, and everybody else. */
  lemma SignallerKeeps(c: Config, r: nat, k: Rank, t: nat)
    requires c.Valid() && RankOk(c, r, k) && t < c.workers && k.workers[t].Signal?
    ensures var n := WorkerStep(c, r, k, t); Shape(c, n) && WorkerOk(c, r, n, t)
  {
    var n := WorkerStep(c, r, k, t);
    assert WorkerOk(c, r, k, t);
    LeaderSignals(c, t, k.workers[t].i);
    assert Gate1Open(n) && PartitionArrived(c, n, t);
  }

  lemma SignalledKeeps(c: Config, r: nat, k: Rank, t: nat)
    requires c.Valid() && RankOk(c, r, k) && t < c.workers && k.workers[t].Signal?
    ensures var n, f := WorkerStep(c, r, k, t), t + k.workers[t].i; f < c.workers && Shape(c, n) && WorkerOk(c, r, n, f)
  {
    var n, f := WorkerStep(c, r, k, t), t + k.workers[t].i;
    assert WorkerOk(c, r, k, t);
    LeaderSignals(c, t, k.workers[t].i);
    assert WorkerOk(c, r, k, f);
    assert k.signals[f] == 0 && Gate1Open(n) && SignalOk(c, r, n, f);
  }

  lemma NotSignalledKeeps(c: Config, r: nat, k: Rank, t: nat, u: nat)
    requires c.Valid() && RankOk(c, r, k) && t < c.workers && k.workers[t].Signal?
    requires u < c.workers && u != t && u != t + k.workers[t].i
    ensures var n := WorkerStep(c, r, k, t); Shape(c, n) && WorkerOk(c, r, n, u)
  {
    var n := WorkerStep(c, r, k, t);
    assert WorkerOk(c, r, k, t) && WorkerOk(c, r, k, u);
    LeaderSignals(c, t, k.workers[t].i);
    assert Gate1Open(n) && !Gate2Open(k);
    if u < c.Covered() { LeaderExists(c, u); }
    OtherWorker(c, r, k, n, t, u);
  }

  /** tst_thread_signal_send (t + i): the follower's state is set, and the follower woken if it sleeps. */
  lemma SignalKeeps(c: Config, r: nat, k: Rank, t: nat)
    requires c.Valid() && RankOk(c, r, k) && t < c.workers && k.workers[t].Signal?
    ensures RankOk(c, r, WorkerStep(c, r, k, t))
  {
    var n := WorkerStep(c, r, k, t);
    assert WorkerOk(c, r, k, t);
    LeaderSignals(c, t, k.workers[t].i);
    SignalledKeeps(c, r, k, t);
    forall u | 0 <= u < c.workers ensures WorkerOk(c, r, n, u) {
      if u == t {
        SignallerKeeps(c, r, k, t);
      } else if u != t + k.workers[t].i {
        NotSignalledKeeps(c, r, k, t, u);
      }
    }
    assert Gate1Open(n) && !Gate2Open(k);
  }

  lemma WorkerKeeps(c: Config, r: nat, k: Rank, t: nat)
    requires c.Valid() && RankOk(c, r, k) && t < c.workers && WorkerEnabled(c, k, t)
    ensures RankOk(c, r, WorkerStep(c, r, k, t))
  {
    match k.workers[t]
    case Start => OuterStepKeeps(c, r, k, t);
    case Gate1 => FirstGateKeeps(c, r, k, t);
    case Gate2 => OuterStepKeeps(c, r, k, t);
    case RootReady => ReadyKeeps(c, r, k, t);
    case RootArrive => ReadyKeeps(c, r, k, t);
    case Pready => ReadyKeeps(c, r, k, t);
    case Arrive => WaitKeeps(c, r, k, t);
    case Check => WaitKeeps(c, r, k, t);
    case Copy => CopyKeeps(c, r, k, t);
    case Signal(_) => SignalKeeps(c, r, k, t);
  }

  // ---------------------------------------------------------------------------------------
  // The steps of the masters and of MPI
  // ---------------------------------------------------------------------------------------

  lemma InitialOk(c: Config)
    requires c.Valid()
    ensures Inv(c, Initial(c))
  {
    var s := Initial(c);
    forall r | 0 <= r < c.ranks ensures RankOk(c, r, s[r]) {
      forall t | 0 <= t < c.workers ensures WorkerOk(c, r, s[r], t) {
        if t < c.Covered() { LeaderExists(c, t); }
      }
      assert s[r] == InitialRank(c, r);
    }
  }

  lemma CoveredBound(c: Config)
    requires c.ratio > 0
    ensures c.Covered() <= c.workers
  {
    assert c.workers == c.ratio * (c.workers / c.ratio) + c.workers % c.ratio;
  }

  lemma MasterKeeps(c: Config, r: nat, k: Rank, m: MasterPc)
    requires c.Valid() && RankOk(c, r, k)
    requires (k.master.MStart? && m.MMpiBarrier?) || (k.master.MMpiBarrier? && m.MGate1?)
      || (k.master.MGate1? && m.MWaitall? && Gate1Open(k))
      || (k.master.MWaitall? && m.MGate2? && (forall t :: 0 <= t < |k.ready| ==> k.ready[t])
            && forall t :: 0 <= t < c.Covered() && t < |k.arrived| ==> k.arrived[t])
      || (k.master.MGate2? && m.MDone? && Gate2Open(k))
    ensures RankOk(c, r, k.(master := m))
  {
    var n := k.(master := m);
    assert Gate1Open(k) ==> Gate1Open(n);
    assert Gate2Open(k) ==> Gate2Open(n);
    assert c.Covered() <= c.workers by { CoveredBound(c); }
    forall u | 0 <= u < c.workers ensures WorkerOk(c, r, n, u) {
      assert WorkerOk(c, r, k, u);
    }
  }

  /** A partition that arrives brings the original data, because its sender only marked such data ready. */
  lemma ArrivedData(c: Config, p: nat, from: Rank, r: nat, to: Rank, t: nat)
    requires c.Valid() && p < c.ranks && r < c.ranks && t < c.workers && Shape(c, from) && Shape(c, to)
    requires Part(from.send, t, c.size) == Part(c.Outgoing(p), t, c.size)
    requires Part(to.recv, t, c.size) == Part(c.recv[r], t, c.size)
    ensures Part(OverlayPart(to.recv, from.send, t, c.size, c.gap), t, c.size) == Part(c.Merged(r), t, c.size)
  {
    var n := OverlayPart(to.recv, from.send, t, c.size, c.gap);
    PartBounds(n, c.workers, t, c.size);
    PartBounds(c.Merged(r), c.workers, t, c.size);
    forall k | t * c.size <= k < (t + 1) * c.size ensures k < |n| && n[k] == c.Merged(r)[k] {
      SamePart(from.send, c.Outgoing(p), c.workers, t, c.size, k);
      SamePart(to.recv, c.recv[r], c.workers, t, c.size, k);
    }
  }

  lemma DeliverKeeps(c: Config, p: nat, from: Rank, r: nat, to: Rank, t: nat)
    requires c.Valid() && p < c.ranks && r < c.ranks && RankOk(c, p, from) && RankOk(c, r, to)
    requires t < c.Covered() && t < c.workers && from.ready[t] && !to.arrived[t]
    requires !(to.master.MGate2? || to.master.MDone?)
    ensures RankOk(c, r, Deliver(c, from, to, t))
  {
    var n := Deliver(c, from, to, t);
    assert WorkerOk(c, p, from, t) && WorkerOk(c, r, to, t);
    ArrivedData(c, p, from, r, to, t);
    assert Gate1Open(to) ==> Gate1Open(n);
    assert Gate2Open(to) ==> Gate2Open(n);
    forall u | 0 <= u < c.workers ensures WorkerOk(c, r, n, u) {
      assert WorkerOk(c, r, to, u);
      if u != t { OverlayElsewhere(to.recv, from.send, c.workers, t, u, c.size, c.gap); }
      assert PartitionArrived(c, to, u) ==> PartitionArrived(c, n, u);
    }
  }

  lemma SleeperKeeps(c: Config, r: nat, k: Rank, t: nat)
    requires c.Valid() && RankOk(c, r, k) && t < c.workers && k.workers[t].Sleep?
    ensures RankOk(c, r, MoveTo(k, t, Check))
  {
    var n := MoveTo(k, t, Check);
    assert WorkerOk(c, r, k, t);
    assert Gate1Open(n);
    assert WorkerOk(c, r, n, t);
    QuietStep(c, r, k, n, t);
  }

  /** What a step makes of the one rank it changes. */
  lemma ChangedRank(c: Config, s: State, a: Action)
    requires c.Valid() && Inv(c, s) && Enabled(c, s, a) && !a.Transfer?
    ensures Apply(c, s, a) == s[a.r := Apply(c, s, a)[a.r]] && RankOk(c, a.r, Apply(c, s, a)[a.r])
  {
    var k := s[a.r];
    assert RankOk(c, a.r, k);
    match a
    case StartAll(r) => MasterKeeps(c, r, k, MMpiBarrier);
    case MpiBarrier(r) => MasterKeeps(c, r, k, MGate1);
    case Master(r) => MasterKeeps(c, r, k, MasterStep(k).master);
    case Worker(r, t) => WorkerKeeps(c, r, k, t);
    case Wake(r, t) => SleeperKeeps(c, r, k, t);
  }

  lemma TransferKeeps(c: Config, s: State, r: nat, t: nat)
    requires c.Valid() && Inv(c, s) && Enabled(c, s, Transfer(r, t))
    ensures Inv(c, Apply(c, s, Transfer(r, t)))
  {
    assert RankOk(c, r, s[r]) && RankOk(c, c.Next(r), s[c.Next(r)]);
    DeliverKeeps(c, r, s[r], c.Next(r), s[c.Next(r)], t);
  }

  /** Masters only pass the MPI barrier once all have started. */
  lemma MasterOrder(c: Config, s: State, a: Action)
    requires c.Valid() && Inv(c, s) && Enabled(c, s, a) && !a.Transfer?
    requires Apply(c, s, a) == s[a.r := Apply(c, s, a)[a.r]]
    ensures var t := Apply(c, s, a);
      forall r :: 0 <= r < c.ranks && !t[r].master.MStart? && !t[r].master.MMpiBarrier? ==> AllStarted(t)
  {
  }

  lemma StepKeeps(c: Config, s: State, a: Action)
    requires c.Valid() && Inv(c, s) && Enabled(c, s, a)
    ensures Inv(c, Apply(c, s, a))
  {
    if a.Transfer? {
      TransferKeeps(c, s, a.r, a.t);
    } else {
      ChangedRank(c, s, a);
      MasterOrder(c, s, a);
    }
  }

  // ---------------------------------------------------------------------------------------
  // Progress
  // ---------------------------------------------------------------------------------------

  /** Nothing but a spurious wake-up can happen. */
  ghost predicate Stuck(c: Config, s: State)
    requires c.ratio > 0
  {
    forall a :: Enabled(c, s, a) ==> Spurious(a)
  }

  predicate Over(k: Rank) {
    k.master.MDone? && forall t :: 0 <= t < |k.workers| ==> k.workers[t].Done?
  }

  /** Every thread of every rank has left the second barrier. */
  predicate AllOver(s: State) { forall r :: 0 <= r < |s| ==> Over(s[r]) }

  /** The worker waits for data, for a signal, or for the second barrier. */
  predicate Blocked(pc: WorkerPc) { pc.RootArrive? || pc.Arrive? || pc.Sleep? || pc.Gate2? || pc.Done? }

  /** Up to the first barrier nobody waits for long. */
  lemma StuckPastGate1(c: Config, s: State, r: nat)
    requires c.Valid() && Inv(c, s) && Stuck(c, s) && r < c.ranks
    ensures AllStarted(s) && Gate1Open(s[r])
    ensures s[r].master.MWaitall? || s[r].master.MGate2? || s[r].master.MDone?
    ensures forall t :: 0 <= t < c.workers ==> Blocked(s[r].workers[t])
  {
    forall k | 0 <= k < |s| ensures !s[k].master.MStart? {
      assert !Enabled(c, s, StartAll(k));
    }
    assert RankOk(c, r, s[r]);
    forall t | 0 <= t < c.workers ensures !s[r].workers[t].Start? {
      assert !Enabled(c, s, Worker(r, t));
    }
    assert !Enabled(c, s, MpiBarrier(r));
    assert Gate1Open(s[r]);
    assert !Enabled(c, s, Master(r));
    forall t | 0 <= t < c.workers ensures Blocked(s[r].workers[t]) {
      assert !Enabled(c, s, Worker(r, t));
    }
  }

  /** On a rank where everything has arrived: the leader has passed, so it has signalled its followers. */
  lemma StuckWorkerReady(c: Config, s: State, r: nat, t: nat)
    requires c.Valid() && Inv(c, s) && Stuck(c, s) && 0 < r < c.ranks && t < c.Covered() && t < c.workers
    requires forall u :: 0 <= u < c.workers ==> s[r].arrived[u]
    ensures s[r].workers[t].Gate2? || s[r].workers[t].Done?
  {
    StuckPastGate1(c, s, r);
    var k := s[r];
    assert RankOk(c, r, k);
    LeaderExists(c, t);
    var l := LeaderOf(c, t);
    assert WorkerOk(c, r, k, t) && WorkerOk(c, r, k, l);
    assert PartitionArrived(c, k, l);
    assert !Enabled(c, s, Worker(r, l));
    assert k.workers[l].Gate2? || k.workers[l].Done?;
    if !c.Leads(t) {
      assert HasSignalled(k.workers[l], t % c.ratio);
    }
  }

  lemma AllCovered(c: Config)
    requires c.ratio > 0 && c.workers % c.ratio == 0
    ensures c.Covered() == c.workers
  {
    assert c.workers == c.ratio * (c.workers / c.ratio) + c.workers % c.ratio;
  }

  /** All partitions this rank's predecessor marked ready have arrived, so no leader and no follower is left waiting. */
  lemma StuckReady(c: Config, s: State, r: nat)
    requires c.Valid() && Inv(c, s) && Stuck(c, s) && r < c.ranks && c.workers % c.ratio == 0
    ensures forall t :: 0 <= t < c.workers ==> s[r].ready[t] && s[c.Next(r)].arrived[t]
    ensures r > 0 ==> forall t :: 0 <= t < c.workers ==> s[r].workers[t].Gate2? || s[r].workers[t].Done?
  {
    AllCovered(c);
    StuckPastGate1(c, s, r);
    assert RankOk(c, r, s[r]) && RankOk(c, c.Next(r), s[c.Next(r)]);
    if r > 0 {
      StuckReady(c, s, r - 1);
      assert c.Next(r - 1) == r;
      forall t | 0 <= t < c.workers ensures s[r].workers[t].Gate2? || s[r].workers[t].Done? {
        StuckWorkerReady(c, s, r, t);
      }
    }
    forall t | 0 <= t < c.workers ensures s[r].ready[t] && s[c.Next(r)].arrived[t] {
      assert WorkerOk(c, r, s[r], t);
      assert !Enabled(c, s, Transfer(r, t));
    }
  }

  /** Everything has arrived everywhere, and every worker is at the second barrier. */
  lemma StuckWorkers(c: Config, s: State, r: nat)
    requires c.Valid() && Inv(c, s) && Stuck(c, s) && r < c.ranks && c.workers % c.ratio == 0
    ensures forall t :: 0 <= t < c.workers ==> s[r].ready[t] && s[r].arrived[t] && s[c.Next(r)].arrived[t]
    ensures forall t :: 0 <= t < c.workers ==> s[r].workers[t].Gate2? || s[r].workers[t].Done?
  {
    StuckPastGate1(c, s, r);
    StuckReady(c, s, r);
    var p := c.Prev(r);
    assert c.Next(p) == r;
    StuckReady(c, s, p);
    assert RankOk(c, r, s[r]);
    forall t | 0 <= t < c.workers ensures s[r].workers[t].Gate2? || s[r].workers[t].Done? {
      assert WorkerOk(c, r, s[r], t);
      assert PartitionArrived(c, s[r], t);
      assert !Enabled(c, s, Worker(r, t));
    }
  }

  /** A rank all of whose workers have come to the second barrier, with everything arrived that can arrive. */
  lemma StuckRankOver(c: Config, s: State, r: nat)
    requires c.Valid() && Inv(c, s) && Stuck(c, s) && r < c.ranks
    requires forall t :: 0 <= t < c.workers ==> s[r].ready[t] && (s[r].workers[t].Gate2? || s[r].workers[t].Done?)
    requires forall t :: 0 <= t < c.Covered() ==> s[r].arrived[t] && s[c.Next(r)].arrived[t]
    ensures Over(s[r])
  {
    StuckPastGate1(c, s, r);
    assert RankOk(c, r, s[r]) && RankOk(c, c.Next(r), s[c.Next(r)]);
    assert !Enabled(c, s, Master(r));
    assert RequestsComplete(c, r, s[r], s[c.Next(r)]);
    assert Gate2Open(s[r]);
    forall t | 0 <= t < c.workers ensures s[r].workers[t].Done? {
      assert !Enabled(c, s, Worker(r, t));
    }
  }

  lemma StuckIsOver(c: Config, s: State)
    requires c.Valid() && Inv(c, s) && Stuck(c, s) && c.workers % c.ratio == 0
    ensures AllOver(s)
  {
    AllCovered(c);
    forall r | 0 <= r < |s| ensures Over(s[r]) {
      assert RankOk(c, r, s[r]) && RankOk(c, c.Next(r), s[c.Next(r)]);
      StuckWorkers(c, s, r);
      StuckRankOver(c, s, r);
    }
  }

  /** A single rank sends to itself: nobody waits for a signal, and what is covered arrives. */
  lemma StuckAlone(c: Config, s: State)
    requires c.Valid() && Inv(c, s) && Stuck(c, s) && c.ranks == 1
    ensures AllOver(s)
  {
    StuckPastGate1(c, s, 0);
    CoveredBound(c);
    var k := s[0];
    assert RankOk(c, 0, k);
    forall t | 0 <= t < c.workers ensures k.ready[t] { assert WorkerOk(c, 0, k, t); }
    forall t | 0 <= t < c.Covered() ensures k.arrived[t] { assert !Enabled(c, s, Transfer(0, t)); }
    forall t | 0 <= t < c.workers ensures k.workers[t].Gate2? || k.workers[t].Done? {
      assert WorkerOk(c, 0, k, t);
      if c.Leads(t) {
        LeadersAreCovered(c, t);
        LeaderExists(c, t);
        assert PartitionArrived(c, k, t);
      }
      assert !Enabled(c, s, Worker(0, t));
    }
    StuckRankOver(c, s, 0);
  }

  // ---------------------------------------------------------------------------------------
  // Termination
  // ---------------------------------------------------------------------------------------

  function PcWeight(c: Config): WorkerPc -> nat {
    (pc: WorkerPc) =>
      match pc
      case Done => 0 case Gate2 => 1 case RootArrive => 2 case RootReady => 3
      case Pready => 2 case Copy => 3 case Sleep => 4 case Check => 5
      case Signal(i) => 3 + (if i < c.ratio then 2 * (c.ratio - i) else 0)
      case Arrive => 4 + 2 * c.ratio
      case Gate1 => 6 + 2 * c.ratio
      case Start => 7 + 2 * c.ratio
  }

  function MasterWeight(pc: MasterPc): nat {
    match pc case MStart => 5 case MMpiBarrier => 4 case MGate1 => 3 case MWaitall => 2 case MGate2 => 1 case MDone => 0
  }

  function NotYet(): bool -> bool { (b: bool) => !b }

  function RankWeight(c: Config): Rank -> nat {
    (k: Rank) => MasterWeight(k.master) + Sum(PcWeight(c), k.workers) + Count(NotYet(), k.arrived)
  }

  function Measure(c: Config): State -> nat { (s: State) => Sum(RankWeight(c), s) }

  lemma PcWeightDrops(c: Config, r: nat, k: Rank, t: nat)
    requires c.Valid() && RankOk(c, r, k) && t < c.workers && WorkerEnabled(c, k, t)
    ensures PcWeight(c)(WorkerStep(c, r, k, t).workers[t]) <= PcWeight(c)(k.workers[t]) - (if k.workers[t].Signal? then 2 else 1)
  {
    assert WorkerOk(c, r, k, t);
  }

  lemma WokenWeight(c: Config, k: Rank, u: nat)
    ensures Sum(PcWeight(c), WokenAt(k, u)) <= Sum(PcWeight(c), k.workers) + 1
  {
    if u < |k.workers| && k.workers[u].Sleep? { SumUpdate(PcWeight(c), k.workers, u, Check); }
  }

  lemma SignalWeightDrops(c: Config, r: nat, k: Rank, t: nat)
    requires c.Valid() && RankOk(c, r, k) && t < c.workers && k.workers[t].Signal?
    requires PcWeight(c)(WorkerStep(c, r, k, t).workers[t]) <= PcWeight(c)(k.workers[t]) - 2
    ensures RankWeight(c)(WorkerStep(c, r, k, t)) < RankWeight(c)(k)
  {
    var n := WorkerStep(c, r, k, t);
    var f := t + k.workers[t].i;
    assert WorkerOk(c, r, k, t);
    LeaderSignals(c, t, k.workers[t].i);
    var woken := WokenAt(k, f);
    WokenWeight(c, k, f);
    assert n.workers == woken[t := n.workers[t]] && woken[t] == k.workers[t];
    SumUpdate(PcWeight(c), woken, t, n.workers[t]);
  }

  lemma WorkerWeightDrops(c: Config, r: nat, k: Rank, t: nat)
    requires c.Valid() && RankOk(c, r, k) && t < c.workers && WorkerEnabled(c, k, t)
    ensures RankWeight(c)(WorkerStep(c, r, k, t)) < RankWeight(c)(k)
  {
    var n := WorkerStep(c, r, k, t);
    PcWeightDrops(c, r, k, t);
    if k.workers[t].Signal? {
      SignalWeightDrops(c, r, k, t);
    } else {
      assert n.workers == k.workers[t := n.workers[t]];
      SumUpdate(PcWeight(c), k.workers, t, n.workers[t]);
    }
  }

  lemma TransferDrops(c: Config, s: State, r: nat, t: nat)
    requires c.Valid() && Inv(c, s) && Enabled(c, s, Transfer(r, t))
    ensures Measure(c)(Apply(c, s, Transfer(r, t))) < Measure(c)(s)
  {
    var to := s[c.Next(r)];
    var n := Deliver(c, s[r], to, t);
    CountUpdate(NotYet(), to.arrived, t, true);
    SumUpdate(RankWeight(c), s, c.Next(r), n);
  }

  /** All other steps concern the rank that takes them. */
  lemma OwnRankDrops(c: Config, s: State, a: Action)
    requires c.Valid() && Inv(c, s) && Enabled(c, s, a) && !a.Transfer?
    ensures Apply(c, s, a) == s[a.r := Apply(c, s, a)[a.r]]
    ensures RankWeight(c)(Apply(c, s, a)[a.r]) <= RankWeight(c)(s[a.r]) + (if Spurious(a) then 1 else -1)
  {
    assert RankOk(c, a.r, s[a.r]);
    match a
    case Worker(r, t) => WorkerWeightDrops(c, r, s[r], t);
    case Wake(r, t) => SumUpdate(PcWeight(c), s[r].workers, t, Check);
    case _ =>
  }

  lemma MeasureDrops(c: Config, s: State, a: Action)
    requires c.Valid() && Inv(c, s) && Enabled(c, s, a)
    ensures Measure(c)(Apply(c, s, a)) <= Measure(c)(s) + (if Spurious(a) then 1 else -1)
  {
    if a.Transfer? {
      TransferDrops(c, s, a.r, a.t);
    } else {
      OwnRankDrops(c, s, a);
      SumUpdate(RankWeight(c), s, a.r, Apply(c, s, a)[a.r]);
    }
  }

  // ---------------------------------------------------------------------------------------
  // Theorems about runs
  // ---------------------------------------------------------------------------------------

  /** Every partition marked ready, and every partition that has arrived, holds rank 0's original data, gaps apart. */
  ghost predicate DataOk(c: Config, s: State)
    requires c.Valid()
  {
    forall r, t :: 0 <= r < |s| && 0 <= t < c.workers ==>
      && t < |s[r].ready| && t < |s[r].arrived|
      && (s[r].ready[t] ==> Part(s[r].send, t, c.size) == Part(c.Outgoing(r), t, c.size))
      && (s[r].arrived[t] ==> Part(s[r].recv, t, c.size) == Part(c.Merged(r), t, c.size))
  }

  /** A worker copies only what has arrived, and only its own partition is written. */
  ghost predicate CopiesAreSafe(c: Config, s: State) {
    forall r, t :: 0 <= r < |s| && 0 <= t < |s[r].workers| && s[r].workers[t].Copy? ==> t < |s[r].arrived| && s[r].arrived[t]
  }

  /**
   * Nobody is past the first barrier of a rank before all its workers and its master have reached it,
   * and nobody past the second before all have reached that one; MPI_Waitall does not return before
   * all partitions are ready.
   */
  ghost predicate GatesHold(s: State) {
    forall r, t, u :: 0 <= r < |s| && 0 <= t < |s[r].workers| && 0 <= u < |s[r].workers| ==>
      && (!s[r].workers[t].Start? && !s[r].workers[t].Gate1? ==>
            !s[r].workers[u].Start? && !s[r].master.MStart? && !s[r].master.MMpiBarrier?)
      && (s[r].workers[t].Done? ==>
            (s[r].workers[u].Gate2? || s[r].workers[u].Done?) && (s[r].master.MGate2? || s[r].master.MDone?))
      && (s[r].master.MWaitall? ==> !s[r].workers[u].Start?)
      && (s[r].master.MDone? ==> s[r].workers[u].Gate2? || s[r].workers[u].Done?)
      && (s[r].master.MGate2? || s[r].master.MDone? ==> u < |s[r].ready| && s[r].ready[u])
  }

  lemma InvGates(c: Config, s: State)
    requires c.Valid() && Inv(c, s)
    ensures GatesHold(s)
  {
    forall r, t, u | 0 <= r < |s| && 0 <= t < |s[r].workers| && 0 <= u < |s[r].workers|
      ensures !s[r].workers[t].Start? && !s[r].workers[t].Gate1? ==>
        !s[r].workers[u].Start? && !s[r].master.MStart? && !s[r].master.MMpiBarrier?
      ensures s[r].workers[t].Done? ==>
        (s[r].workers[u].Gate2? || s[r].workers[u].Done?) && (s[r].master.MGate2? || s[r].master.MDone?)
      ensures s[r].master.MWaitall? ==> !s[r].workers[u].Start?
      ensures s[r].master.MDone? ==> s[r].workers[u].Gate2? || s[r].workers[u].Done?
      ensures s[r].master.MGate2? || s[r].master.MDone? ==> u < |s[r].ready| && s[r].ready[u]
    {
      assert RankOk(c, r, s[r]) && WorkerOk(c, r, s[r], t);
    }
  }

  /** Signal tags are in range, no follower is signalled twice, and nobody sleeps through a signal. */
  ghost predicate SignalsOk(s: State) {
    forall r, t :: 0 <= r < |s| && 0 <= t < |s[r].workers| ==>
      && t < |s[r].signals| && s[r].signals[t] <= 1 && (s[r].workers[t].Sleep? ==> s[r].signals[t] == 0)
      && (s[r].workers[t].Signal? ==> t + s[r].workers[t].i < |s[r].signals|)
  }

  /** Once a rank's Waitall has returned, its receive buffer is rank 0's send buffer as far as partitions reach. */
  ghost predicate ReceivedOk(c: Config, r: nat, k: Rank)
    requires c.Valid()
  {
    k.master.MGate2? || k.master.MDone? ==>
      && c.Covered() * c.size <= |k.recv| && c.Covered() * c.size <= |c.Merged(r)|
      && k.recv[..c.Covered() * c.size] == c.Merged(r)[..c.Covered() * c.size]
  }

  lemma ReceivedParts(c: Config, r: nat, k: Rank)
    requires c.Valid() && RankOk(c, r, k)
    ensures ReceivedOk(c, r, k)
  {
    CoveredBound(c);
    if k.master.MGate2? || k.master.MDone? {
      forall t | 0 <= t < c.Covered() ensures Part(k.recv, t, c.size) == Part(c.Merged(r), t, c.size) {
        assert WorkerOk(c, r, k, t);
      }
      PartsDetermine(k.recv, c.Merged(r), c.workers, c.Covered(), c.size);
    }
  }

  lemma WorkerMeaning(c: Config, r: nat, k: Rank, t: nat)
    requires c.Valid() && RankOk(c, r, k) && t < c.workers
    ensures k.ready[t] ==> Part(k.send, t, c.size) == Part(c.Outgoing(r), t, c.size)
    ensures k.arrived[t] ==> Part(k.recv, t, c.size) == Part(c.Merged(r), t, c.size)
    ensures k.workers[t].Copy? ==> k.arrived[t]
    ensures k.signals[t] <= 1 && (k.workers[t].Sleep? ==> k.signals[t] == 0)
    ensures k.workers[t].Signal? ==> t + k.workers[t].i < c.workers
    ensures r > 0 && k.workers[t].Done? && !c.Leads(t) ==> k.signals[t] == 1
  {
    assert WorkerOk(c, r, k, t);
    if k.workers[t].Signal? { LeaderSignals(c, t, k.workers[t].i); }
    if k.workers[t].Copy? {
      LeaderExists(c, t);
      if !c.Leads(t) { FollowerArrived(c, r, k, t); }
    }
  }

  lemma InvMeaning(c: Config, s: State)
    requires c.Valid() && Inv(c, s)
    ensures DataOk(c, s) && CopiesAreSafe(c, s) && SignalsOk(s)
    ensures forall r :: 0 <= r < |s| ==> ReceivedOk(c, r, s[r])
  {
    assert forall r :: 0 <= r < |s| ==> RankOk(c, r, s[r]);
    forall r, t | 0 <= r < |s| && 0 <= t < c.workers
      ensures s[r].ready[t] ==> Part(s[r].send, t, c.size) == Part(c.Outgoing(r), t, c.size)
      ensures s[r].arrived[t] ==> Part(s[r].recv, t, c.size) == Part(c.Merged(r), t, c.size)
    {
      WorkerMeaning(c, r, s[r], t);
    }
    forall r, t | 0 <= r < |s| && 0 <= t < |s[r].workers|
      ensures s[r].workers[t].Copy? ==> t < |s[r].arrived| && s[r].arrived[t]
      ensures t < |s[r].signals| && s[r].signals[t] <= 1 && (s[r].workers[t].Sleep? ==> s[r].signals[t] == 0)
      ensures s[r].workers[t].Signal? ==> t + s[r].workers[t].i < |s[r].signals|
    {
      WorkerMeaning(c, r, s[r], t);
    }
    forall r | 0 <= r < |s| ensures ReceivedOk(c, r, s[r]) {
      ReceivedParts(c, r, s[r]);
    }
  }

  /** The protocol with its invariant and its measure. */
  ghost function Protocol(c: Config): System<State, Action>
    requires c.Valid()
  {
    System(Initial(c), Moves(c), (s: State) => Inv(c, s), Measure(c), (a: Action) => Spurious(a))
  }

  lemma ProtocolSound(c: Config)
    requires c.Valid()
    ensures Sound(Protocol(c))
  {
    InitialOk(c);
    forall s, a, t | Inv(c, s) && Moves(c)(s, a, t) ensures Inv(c, t) && Measure(c)(t) <= Measure(c)(s) + (if Spurious(a) then 1 else -1) {
      StepKeeps(c, s, a);
      MeasureDrops(c, s, a);
    }
  }

  lemma RunInv(c: Config, r: Run<State, Action>)
    requires c.Valid() && IsRun(c, r)
    ensures forall k :: 0 <= k < |r.states| ==> Inv(c, r.states[k])
  {
    ProtocolSound(c);
    SystemInvariant(Protocol(c), r);
  }

  /** Safety in every state of every run. */
  lemma RunsAreSafe(c: Config, r: Run<State, Action>, k: nat)
    requires c.Valid() && IsRun(c, r) && k < |r.states|
    ensures DataOk(c, r.states[k]) && CopiesAreSafe(c, r.states[k]) && SignalsOk(r.states[k]) && GatesHold(r.states[k])
    ensures forall i :: 0 <= i < |r.states[k]| ==> ReceivedOk(c, i, r.states[k][i])
  {
    RunInv(c, r);
    InvGates(c, r.states[k]);
    InvMeaning(c, r.states[k]);
  }

  lemma RunsAreBounded(c: Config, r: Run<State, Action>)
    requires c.Valid() && IsRun(c, r)
    ensures |r.actions| <= Measure(c)(Initial(c)) + 2 * Count((a: Action) => Spurious(a), r.actions)
  {
    ProtocolSound(c);
    SystemBounded(Protocol(c), r);
  }

  /** Without divisibility the first uncovered thread of a rank other than 0 waits for a signal nobody sends. */
  lemma UncoveredNeverOver(c: Config, s: State)
    requires c.Valid() && Inv(c, s) && c.ranks > 1 && c.workers % c.ratio != 0
    ensures !AllOver(s)
  {
    assert c.workers == c.ratio * (c.workers / c.ratio) + c.workers % c.ratio;
    var t := c.Covered();
    assert RankOk(c, 1, s[1]) && WorkerOk(c, 1, s[1], t);
    assert !Over(s[1]);
  }

  lemma ReceivedPart(c: Config, r: nat, t: nat)
    requires c.Valid() && r < c.ranks && t < c.workers
    ensures |c.Received(r)| == c.workers * c.size
    ensures Part(c.Received(r), t, c.size) == if t < c.Covered() then Part(c.Merged(r), t, c.size) else Part(c.recv[r], t, c.size)
  {
    CoveredBound(c);
    Products.Ordered(c.Covered(), c.workers, c.size);
    PartBounds(c.Received(r), c.workers, t, c.size);
    if t < c.Covered() {
      Products.Ordered(t + 1, c.Covered(), c.size);
    } else {
      Products.Ordered(c.Covered(), t, c.size);
    }
  }

  /** What a rank holds in the end. */
  lemma EndBuffer(c: Config, r: nat, k: Rank)
    requires c.Valid() && r < c.ranks && RankOk(c, r, k) && k.master.MDone?
    ensures k.recv == c.Received(r)
  {
    forall t | 0 <= t < c.workers ensures Part(k.recv, t, c.size) == Part(c.Received(r), t, c.size) {
      assert WorkerOk(c, r, k, t);
      ReceivedPart(c, r, t);
    }
    if c.workers > 0 { ReceivedPart(c, r, 0); }
    CoveredBound(c);
    PartsDetermine(k.recv, c.Received(r), c.workers, c.workers, c.size);
    assert k.recv == k.recv[..c.workers * c.size];
    assert c.Received(r) == c.Received(r)[..c.workers * c.size];
  }

  /** One rank, or a ratio that divides: the cases in which the test gets to its check. */
  predicate Ends(c: Config)
    requires c.ratio > 0
  {
    c.ranks == 1 || c.workers % c.ratio == 0
  }

  /** The whole receive buffer of every rank is rank 0's send buffer, gaps apart. */
  ghost predicate AllReceived(c: Config, s: State)
    requires c.Valid()
  {
    forall r :: 0 <= r < |s| ==> s[r].recv == c.Merged(r)
  }

  /** Off rank 0, every follower has been signalled exactly once. */
  ghost predicate SignalledOnce(c: Config, s: State)
    requires c.ratio > 0
  {
    forall r, t :: 0 < r < |s| && 0 <= t < c.workers && !c.Leads(t) ==> t < |s[r].signals| && s[r].signals[t] == 1
  }

  /** A ratio that divides the worker count: on any number of ranks a run that cannot go on is over, all data in place. */
  lemma DivisibleRunsComplete(c: Config, r: Run<State, Action>)
    requires c.Valid() && IsRun(c, r) && Stuck(c, r.Last()) && c.workers % c.ratio == 0
    ensures AllOver(r.Last()) && AllReceived(c, r.Last()) && SignalledOnce(c, r.Last())
  {
    RunInv(c, r);
    var s := r.Last();
    StuckIsOver(c, s);
    AllCovered(c);
    forall i | 0 <= i < |s| ensures s[i].recv == c.Merged(i) {
      assert RankOk(c, i, s[i]) && Over(s[i]);
      ReceivedParts(c, i, s[i]);
      assert s[i].recv == s[i].recv[..c.workers * c.size];
      assert c.Merged(i) == c.Merged(i)[..c.workers * c.size];
    }
    forall i, t | 0 < i < |s| && 0 <= t < c.workers && !c.Leads(t) ensures t < |s[i].signals| && s[i].signals[t] == 1 {
      assert RankOk(c, i, s[i]) && Over(s[i]);
      WorkerMeaning(c, i, s[i], t);
    }
  }

  /**
   * A run that cannot go on has brought every thread through the second barrier exactly when there is
   * one rank or the ratio divides the worker count; each rank then holds rank 0's buffer as far as
   * receive partitions reach, which is all of it if and, on several ranks, only if the ratio divides.
   */
  lemma StuckRunsAreComplete(c: Config, r: Run<State, Action>)
    requires c.Valid() && IsRun(c, r) && Stuck(c, r.Last())
    ensures AllOver(r.Last()) <==> Ends(c)
    ensures Ends(c) ==> forall i :: 0 <= i < |r.Last()| ==> r.Last()[i].recv == c.Received(i)
    ensures c.workers % c.ratio == 0 ==> AllReceived(c, r.Last())
    ensures c.ranks > 1 ==> (AllOver(r.Last()) && AllReceived(c, r.Last()) <==> c.workers % c.ratio == 0)
  {
    RunInv(c, r);
    var s := r.Last();
    if Ends(c) {
      if c.ranks == 1 { StuckAlone(c, s); } else { StuckIsOver(c, s); }
      forall i | 0 <= i < |s| ensures s[i].recv == c.Received(i) {
        assert RankOk(c, i, s[i]) && Over(s[i]);
        EndBuffer(c, i, s[i]);
      }
    } else {
      UncoveredNeverOver(c, s);
    }
    if c.workers % c.ratio == 0 { DivisibleRunsComplete(c, r); }
  }

  /** Every run goes on to a state where only spurious wake-ups are left. */
  lemma EveryRunEnds(c: Config, r: Run<State, Action>) returns (q: Run<State, Action>)
    requires c.Valid() && IsRun(c, r)
    ensures IsRun(c, q) && Extends(q, r) && Stuck(c, q.Last())
    ensures AllOver(q.Last()) <==> Ends(c)
  {
    ProtocolSound(c);
    q := RunOn(Protocol(c), r);
    forall a | Enabled(c, q.Last(), a) ensures Spurious(a) {
      HaltedStep(Protocol(c), q.Last(), a, Apply(c, q.Last(), a));
    }
    StuckRunsAreComplete(c, q);
  }

  /** So on several ranks and without divisibility a deadlock is reached, whatever has happened before. */
  lemma DeadlockReachable(c: Config, r: Run<State, Action>) returns (q: Run<State, Action>)
    requires c.Valid() && IsRun(c, r) && c.ranks > 1 && c.workers % c.ratio != 0
    ensures IsRun(c, q) && Extends(q, r) && Stuck(c, q.Last()) && !AllOver(q.Last())
  {
    q := EveryRunEnds(c, r);
  }

  // ---------------------------------------------------------------------------------------
  // The check at the end
  // ---------------------------------------------------------------------------------------

  /** Rank 0 has set a standard array of total elements of the type, whose gaps messages leave out. */
  ghost predicate SendsStandard(c: Config, l: Oracle.Layout, total: nat)
    requires c.Valid()
  {
    && c.Original() == Oracle.StandardArray(l, total, 0)
    && forall k: nat :: k < total * l.size ==> (c.gap(k) <==> Oracle.IsGapAt(l, k))
  }

  /** Up to element m the gaps of rank r's receive buffer happened to hold the fill byte from the start. */
  ghost predicate GapsFilled(c: Config, l: Oracle.Layout, r: nat, m: nat)
    requires c.Valid() && r < c.ranks
  {
    forall k: nat :: k < m * l.size && k < |c.recv[r]| && c.gap(k) ==> c.recv[r][k] == Oracle.DEFAULT_INIT_BYTE
  }

  lemma MergedByte(c: Config, l: Oracle.Layout, total: nat, r: nat, m: nat, k: nat)
    requires c.Valid() && r < c.ranks && SendsStandard(c, l, total) && m <= total && k < m * l.size <= total * l.size
    ensures k < |Oracle.StandardArray(l, m, 0)| && k < |c.Merged(r)| && k < |c.recv[r]|
    ensures c.Merged(r)[k] == Oracle.StandardArray(l, m, 0)[k] <==>
      (c.gap(k) ==> c.recv[r][k] == Oracle.DEFAULT_INIT_BYTE)
  {
    Oracle.StandardPrefix(l, m, total, 0);
    assert Oracle.StandardArray(l, total, 0)[k] == Oracle.StandardArray(l, m, 0)[k];
    if c.gap(k) { Oracle.StandardGap(l, m, 0, k); }
  }

  /** Sequences that agree byte by byte exactly where a gap was filled. */
  lemma GapsDecide(c: Config, r: nat, n: nat, b: seq<Byte>, e: seq<Byte>)
    requires c.Valid() && r < c.ranks && n == |e| <= |b| && n <= |c.recv[r]|
    requires forall k: nat :: k < n ==> (b[k] == e[k] <==> (c.gap(k) ==> c.recv[r][k] == Oracle.DEFAULT_INIT_BYTE))
    ensures b[..n] == e <==> forall k: nat :: k < n && k < |c.recv[r]| && c.gap(k) ==> c.recv[r][k] == Oracle.DEFAULT_INIT_BYTE
  {
    if b[..n] == e {
      forall k: nat | k < n ensures b[k] == e[k] { assert b[..n][k] == b[k]; }
    }
  }

  lemma MergedMatches(c: Config, l: Oracle.Layout, total: nat, r: nat, m: nat, b: seq<Byte>)
    requires c.Valid() && r < c.ranks && SendsStandard(c, l, total) && m <= total
    requires |b| == total * l.size && m * l.size <= |b| && b[..m * l.size] == c.Merged(r)[..m * l.size]
    ensures Oracle.FieldsMatch(l, b, m, 0)
    ensures b[..m * l.size] == Oracle.StandardArray(l, m, 0) <==> GapsFilled(c, l, r, m)
  {
    Products.Ordered(m, total, l.size);
    var e := Oracle.StandardArray(l, m, 0);
    forall k: nat | k < m * l.size
      ensures b[k] == e[k] <==> (c.gap(k) ==> c.recv[r][k] == Oracle.DEFAULT_INIT_BYTE)
    {
      assert b[k] == b[..m * l.size][k] == c.Merged(r)[..m * l.size][k];
      MergedByte(c, l, total, r, m, k);
    }
    GapsDecide(c, r, m * l.size, b, e);
  }

  /** The check of m elements accepts what arrived exactly when the gaps were filled already, or do not count. */
  lemma MergedPasses(c: Config, l: Oracle.Layout, total: nat, r: nat, m: nat, b: seq<Byte>)
    requires c.Valid() && r < c.ranks && Oracle.Valid(l) && SendsStandard(c, l, total) && m <= total
    requires |b| == total * l.size && m * l.size <= |b| && b[..m * l.size] == c.Merged(r)[..m * l.size]
    ensures Oracle.Errors(l, b, m, 0) == 0 <==> l.byValue || GapsFilled(c, l, r, m)
  {
    MergedMatches(c, l, total, r, m, b);
    if l.byValue {
      Oracle.FieldsAccepted(l, b, m, total, 0);
    } else {
      Oracle.AcceptsExactly(l, b, m, total, 0);
    }
  }

  lemma FirstPartition(c: Config, l: Oracle.Layout, values: nat, r: nat)
    requires c.Valid() && r < c.ranks && c.workers > 0 && c.Covered() > 0 && c.size == values * l.size
    ensures |c.Received(r)| == |c.Merged(r)| == c.workers * c.size && (c.workers * values) * l.size == c.workers * c.size
    ensures values * l.size <= |c.Merged(r)| && c.Received(r)[..values * l.size] == c.Merged(r)[..values * l.size]
  {
    ReceivedPart(c, r, 0);
    PartBounds(c.Received(r), c.workers, 0, c.size);
    PartBounds(c.Merged(r), c.workers, 0, c.size);
    assert Part(c.Received(r), 0, c.size) == c.Received(r)[..c.size];
    assert Part(c.Merged(r), 0, c.size) == c.Merged(r)[..c.size];
  }

  /**
   * The test's verdict.  The buffers come from malloc and are not filled, and the check compares
   * values_num elements, one partition: it passes on a rank exactly when the gaps of those elements,
   * if the type has any, held the fill byte before, or the type is compared by value.  A single rank
   * with fewer workers than the ratio receives nothing and checks what malloc left.
   */
  lemma FinalCheck(c: Config, l: Oracle.Layout, values: nat, run: Run<State, Action>, r: nat)
    requires c.Valid() && IsRun(c, run) && Stuck(c, run.Last()) && Ends(c)
    requires Oracle.Valid(l) && c.size == values * l.size && SendsStandard(c, l, c.workers * values) && r < c.ranks && c.workers > 0
    ensures r < |run.Last()| && run.Last()[r].recv == c.Received(r)
    ensures c.Covered() > 0 ==> (Oracle.Errors(l, run.Last()[r].recv, values, 0) == 0 <==> l.byValue || GapsFilled(c, l, r, values))
    ensures c.Covered() == 0 ==> run.Last()[r].recv == c.recv[r]
  {
    RunInv(c, run);
    var s := run.Last();
    if c.ranks == 1 { StuckAlone(c, s); } else { StuckIsOver(c, s); }
    assert RankOk(c, r, s[r]) && Over(s[r]);
    EndBuffer(c, r, s[r]);
    if c.Covered() > 0 {
      Products.Ordered(1, c.workers, values);
      FirstPartition(c, l, values, r);
      MergedPasses(c, l, c.workers * values, r, values, s[r].recv);
    }
  }

  /** Types without gaps always pass. */
  lemma NoGapsPass(c: Config, l: Oracle.Layout, values: nat, run: Run<State, Action>, r: nat)
    requires c.Valid() && IsRun(c, run) && Stuck(c, run.Last()) && Ends(c) && c.Covered() > 0
    requires Oracle.Valid(l) && c.size == values * l.size && SendsStandard(c, l, c.workers * values) && r < c.ranks && c.workers > 0
    requires forall k: nat :: !c.gap(k)
    ensures r < |run.Last()| && Oracle.Errors(l, run.Last()[r].recv, values, 0) == 0
  {
    FinalCheck(c, l, values, run, r);
  }

  lemma ShortIntValid()
    ensures Oracle.Valid(Oracle.SHORT_INT)
  {
    assert Oracle.Pow256(2) == 256 * Oracle.Pow256(1) && Oracle.Pow256(1) == 256 * Oracle.Pow256(0);
    assert Oracle.Pow256(4) == 256 * Oracle.Pow256(3) && Oracle.Pow256(3) == 256 * Oracle.Pow256(2);
  }

  /** A short-int pair fails as soon as malloc has left anything but the fill byte in its first padding byte. */
  lemma ShortIntFails(c: Config, values: nat, run: Run<State, Action>, r: nat)
    requires c.Valid() && IsRun(c, run) && Stuck(c, run.Last()) && Ends(c) && c.Covered() > 0
    requires c.size == values * 8 && values > 0 && r < c.ranks && c.workers > 0
    requires SendsStandard(c, Oracle.SHORT_INT, c.workers * values)
    requires 2 < |c.recv[r]| && c.recv[r][2] != Oracle.DEFAULT_INIT_BYTE
    ensures r < |run.Last()| && Oracle.Errors(Oracle.SHORT_INT, run.Last()[r].recv, values, 0) > 0
  {
    ShortIntValid();
    FinalCheck(c, Oracle.SHORT_INT, values, run, r);
    assert Oracle.IsGapAt(Oracle.SHORT_INT, 2);
    Products.Ordered(1, c.workers, values);
    assert c.gap(2);
  }
}
