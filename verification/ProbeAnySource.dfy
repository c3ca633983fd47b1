/**
 * p2p/tst_p2p_alltoall_probe_anysource.c: every rank sends to all others in cyclic order with
 * buffered non-blocking sends, receives whatever MPI_Iprobe happens to find in between, and drains
 * the rest with MPI_Probe.  All probes and receives are from any source.
 */
module ProbeAnySource {
  import opened Lists
  import opened Options
  import opened Oracle
  import Products
  import opened Runs

  /** threads is num_threads; overhead is MPI_BSEND_OVERHEAD. */
  datatype Config = Config(ranks: nat, threads: nat, overhead: nat, layout: Layout, values: nat)

  /** content is the rank whose standard array the message holds. */
  datatype Message = Message(source: nat, dest: nat, tag: nat, content: nat)

  datatype Pc =
    | Sending(dest: nat)                   // the loop condition, then MPI_Ibsend
    | Probing(dest: nat)                   // MPI_Iprobe
    | Found(dest: nat, source: nat, tag: nat)   // flag was set: MPI_Recv
    | WaitAll
    | Draining                             // the loop condition, then MPI_Probe
    | DrainFound(source: nat, tag: nat)    // MPI_Recv
    | Finished
    | Failed                               // ERROR (EINVAL, "Error in status ...")

  /** left is received_num; slots is recv_buffer_array. */
  datatype Rank = Rank(pc: Pc, left: nat, slots: seq<Option<seq<Byte>>>)
  datatype State = State(ranks: seq<Rank>, net: set<Message>)

  datatype Action =
    | Step(r: nat)                     // a step whose outcome the state decides
    | NotFound(r: nat)                 // MPI_Iprobe returns flag == 0
    | Probe(r: nat, m: Message)        // MPI_Iprobe or MPI_Probe finds m

  function Initial(c: Config): State {
    State(seq(c.ranks, r requires 0 <= r < c.ranks =>
      Rank(Sending((r + 1) % c.ranks), c.ranks - 1, seq(c.ranks, _ => None))), {})
  }

  /** The message r sends to dest: send_buffer_array[dest] holds the array of r + dest, the tag is r. */
  function Msg(r: nat, dest: nat): Message { Message(r, dest, r, r + dest) }

  /** The status checks after the probes (lines 133-136 and 165-168). */
  predicate StatusOk(c: Config, r: nat, m: Message) {
    m.source < c.ranks && m.source != r && m.tag == m.source
  }

  /** A named receive (source, tag) of rank r matches m. */
  predicate Matches(r: nat, source: nat, tag: nat, m: Message) { m.dest == r && m.source == source && m.tag == tag }

  predicate Enabled(c: Config, s: State, a: Action) {
    a.r < |s.ranks| && a.r < c.ranks &&
    var k := s.ranks[a.r];
    match a
    case NotFound(r) => k.pc.Probing?
    case Probe(r, m) => (k.pc.Probing? || (k.pc.Draining? && k.left > 0)) && m in s.net && m.dest == r
    case Step(r) =>
      (match k.pc
       case Sending(dest) => dest < c.ranks
       case Found(_, source, tag) => exists m :: m in s.net && Matches(r, source, tag, m)
       case WaitAll => true                     // MPI_Waitall on buffered sends
       case Draining => k.left == 0
       case DrainFound(source, tag) => exists m :: m in s.net && Matches(r, source, tag, m)
       case _ => false)
  }

  function Receive(c: Config, k: Rank, m: Message, pc: Pc): Rank {
    Rank(pc, if k.left > 0 then k.left - 1 else 0,
         if m.source < |k.slots| then k.slots[m.source := Some(Delivered(c.layout, c.values, m.content))] else k.slots)
  }

  ghost function Apply(c: Config, s: State, a: Action): State
    requires Enabled(c, s, a)
  {
    var k := s.ranks[a.r];
    match a
    case NotFound(r) => s.(ranks := s.ranks[r := k.(pc := Sending((k.pc.dest + 1) % c.ranks))])
    case Probe(r, m) =>
      var pc := if !StatusOk(c, r, m) then Failed
                else if k.pc.Probing? then Found(k.pc.dest, m.source, m.tag)
                else DrainFound(m.source, m.tag);
      s.(ranks := s.ranks[r := k.(pc := pc)])
    case Step(r) =>
      match k.pc
      case Sending(dest) =>
        if dest == r then s.(ranks := s.ranks[r := k.(pc := WaitAll)])
        else State(s.ranks[r := k.(pc := Probing(dest))], s.net + {Msg(r, dest)})
      case Found(dest, source, tag) =>
        var m :| m in s.net && Matches(r, source, tag, m);
        State(s.ranks[r := Receive(c, k, m, Sending((dest + 1) % c.ranks))], s.net - {m})
      case DrainFound(source, tag) =>
        var m :| m in s.net && Matches(r, source, tag, m);
        State(s.ranks[r := Receive(c, k, m, Draining)], s.net - {m})
      case WaitAll => s.(ranks := s.ranks[r := k.(pc := Draining)])
      case _ => s.(ranks := s.ranks[r := k.(pc := Finished)])
  }

  ghost function Moves(c: Config): (State, Action, State) -> bool {
    (s: State, a: Action, t: State) => Enabled(c, s, a) && t == Apply(c, s, a)
  }

  ghost predicate IsRun(c: Config, r: Run<State, Action>) { Follows(r, Initial(c), Moves(c)) }

  // ---------------------------------------------------------------------------------------
  // The cyclic order of the send loop
  // ---------------------------------------------------------------------------------------

  /** How far d lies behind r around the ring, r itself being n away. */
  function Dist(n: nat, r: nat, d: nat): (k: int)
    ensures r < n && d < n ==> 1 <= k <= n && (k == n <==> d == r)
  {
    if d > r then d - r else d + n - r
  }

  lemma DistStep(n: nat, r: nat, d: nat)
    requires r < n && d < n
    ensures (d + 1) % n < n
    ensures d != r ==> Dist(n, r, (d + 1) % n) == Dist(n, r, d) + 1
    ensures d == r ==> Dist(n, r, (d + 1) % n) == 1
  {
    if d + 1 == n { assert (d + 1) % n == 0; } else { assert (d + 1) % n == d + 1; }
  }

  /** The send loop visits every other rank exactly once, nearest first. */
  method SendOrder(n: nat, r: nat) returns (order: seq<nat>)
    requires r < n
    ensures |order| == n - 1
    ensures forall k :: 0 <= k < n - 1 ==> order[k] < n && order[k] != r && Dist(n, r, order[k]) == k + 1
    ensures forall d :: 0 <= d < n && d != r ==> order[Dist(n, r, d) - 1] == d
    ensures forall k :: 0 <= k < n - 1 ==> order[k] == if r + 1 + k < n then r + 1 + k else r + 1 + k - n
  {
    order := [];
    DistStep(n, r, r);
    var dest: nat := (r + 1) % n;
    while dest != r
      invariant dest < n && |order| == Dist(n, r, dest) - 1
      invariant forall k :: 0 <= k < |order| ==> order[k] < n && order[k] != r && Dist(n, r, order[k]) == k + 1
      decreases n - Dist(n, r, dest)
    {
      DistStep(n, r, dest);
      order := order + [dest];
      dest := (dest + 1) % n;
    }
  }

  // ---------------------------------------------------------------------------------------
  // The invariant
  // ---------------------------------------------------------------------------------------

  predicate HasSent(c: Config, s: State, r: nat, d: nat)
    requires r < |s.ranks|
  {
    match s.ranks[r].pc
    case Sending(dest) => Dist(c.ranks, r, d) < Dist(c.ranks, r, dest)
    case Probing(dest) => Dist(c.ranks, r, d) <= Dist(c.ranks, r, dest)
    case Found(dest, _, _) => Dist(c.ranks, r, d) <= Dist(c.ranks, r, dest)
    case _ => true
  }

  predicate Got(s: State, d: nat, r: nat)
    requires d < |s.ranks|
  {
    r < |s.ranks[d].slots| && s.ranks[d].slots[r].Some?
  }

  /** The message from r to d is under way exactly between its send and its receive. */
  predicate PairOk(c: Config, s: State, r: nat, d: nat)
    requires r < |s.ranks| && d < |s.ranks|
  {
    && (Msg(r, d) in s.net <==> HasSent(c, s, r, d) && !Got(s, d, r))
    && (Got(s, d, r) ==> HasSent(c, s, r, d) && s.ranks[d].slots[r] == Some(Delivered(c.layout, c.values, r + d)))
  }

  function IsSome(): Option<seq<Byte>> -> bool { (x: Option<seq<Byte>>) => x.Some? }

  predicate PcOk(c: Config, s: State, r: nat)
    requires r < |s.ranks|
  {
    match s.ranks[r].pc
    case Sending(dest) => dest < c.ranks
    case Probing(dest) => dest < c.ranks && dest != r
    case Found(dest, source, tag) =>
      dest < c.ranks && dest != r && source < c.ranks && source != r && tag == source && Msg(source, r) in s.net
    case DrainFound(source, tag) => source < c.ranks && source != r && tag == source && Msg(source, r) in s.net
    case Finished => s.ranks[r].left == 0
    case Failed => false
    case _ => true
  }

  /** received_num and the messages received add up to comm_size - 1. */
  predicate RankOk(c: Config, s: State, r: nat)
    requires r < |s.ranks|
  {
    var k := s.ranks[r];
    && |k.slots| == c.ranks && r < c.ranks && k.slots[r] == None
    && k.left + Count(IsSome(), k.slots) == c.ranks - 1
    && PcOk(c, s, r)
  }

  ghost predicate Inv(c: Config, s: State) {
    && |s.ranks| == c.ranks
    && (forall m :: m in s.net ==> m.source < c.ranks && m.dest < c.ranks && m.source != m.dest && m == Msg(m.source, m.dest))
    && (forall r :: 0 <= r < c.ranks ==> RankOk(c, s, r))
    && (forall r, d :: 0 <= r < c.ranks && 0 <= d < c.ranks && r != d ==> PairOk(c, s, r, d))
  }

  lemma InitialOk(c: Config)
    ensures Inv(c, Initial(c))
  {
    var s := Initial(c);
    forall r | 0 <= r < c.ranks ensures RankOk(c, s, r) {
      CountNone(IsSome(), s.ranks[r].slots);
      DistStep(c.ranks, r, r);
    }
    forall r, d | 0 <= r < c.ranks && 0 <= d < c.ranks && r != d ensures PairOk(c, s, r, d) {
      DistStep(c.ranks, r, r);
    }
  }

  /** A step that only moves rank r's control point, sending nothing and receiving nothing. */
  lemma QuietKeeps(c: Config, s: State, r: nat, pc: Pc)
    requires Inv(c, s) && r < c.ranks
    requires var t := s.(ranks := s.ranks[r := s.ranks[r].(pc := pc)]);
      PcOk(c, t, r) && forall d :: 0 <= d < c.ranks && d != r ==> HasSent(c, t, r, d) == HasSent(c, s, r, d)
    ensures Inv(c, s.(ranks := s.ranks[r := s.ranks[r].(pc := pc)]))
  {
    var t := s.(ranks := s.ranks[r := s.ranks[r].(pc := pc)]);
    forall k | 0 <= k < c.ranks ensures RankOk(c, t, k) {
      assert RankOk(c, s, k);
    }
    forall k, d | 0 <= k < c.ranks && 0 <= d < c.ranks && k != d ensures PairOk(c, t, k, d) {
      assert PairOk(c, s, k, d);
    }
  }

  lemma SameDist(n: nat, r: nat, d: nat, e: nat)
    requires r < n && d < n && e < n
    ensures Dist(n, r, d) == Dist(n, r, e) <==> d == e
  {
  }

  lemma SendKeeps(c: Config, s: State, r: nat)
    requires Inv(c, s) && Enabled(c, s, Step(r)) && s.ranks[r].pc.Sending? && s.ranks[r].pc.dest != r
    ensures Inv(c, Apply(c, s, Step(r)))
  {
    var t := Apply(c, s, Step(r));
    var dest := s.ranks[r].pc.dest;
    forall k | 0 <= k < c.ranks ensures RankOk(c, t, k) {
      assert RankOk(c, s, k);
    }
    forall k, d | 0 <= k < c.ranks && 0 <= d < c.ranks && k != d ensures PairOk(c, t, k, d) {
      assert PairOk(c, s, k, d);
      if k == r { SameDist(c.ranks, r, d, dest); }
    }
  }

  /** The control point after the receive of a message found by a probe. */
  function AfterReceive(c: Config, pc: Pc): Pc
    requires c.ranks > 0
  {
    if pc.Found? then Sending((pc.dest + 1) % c.ranks) else Draining
  }

  /** The state after rank r has received q's message. */
  function Received(c: Config, s: State, r: nat, q: nat): State
    requires r < |s.ranks| && c.ranks > 0
  {
    var k := s.ranks[r];
    State(s.ranks[r := Receive(c, k, Msg(q, r), AfterReceive(c, k.pc))], s.net - {Msg(q, r)})
  }

  /** A named receive can match only the message of its source. */
  lemma NamedMatch(c: Config, s: State, r: nat, q: nat, m: Message)
    requires Inv(c, s) && m in s.net && Matches(r, q, q, m)
    ensures m == Msg(q, r)
  {
  }

  /** The receive takes the very message the probe found. */
  lemma ReceiveTakes(c: Config, s: State, r: nat) returns (q: nat)
    requires Inv(c, s) && Enabled(c, s, Step(r)) && (s.ranks[r].pc.Found? || s.ranks[r].pc.DrainFound?)
    ensures q == s.ranks[r].pc.source && q < c.ranks && q != r && Msg(q, r) in s.net
    ensures Apply(c, s, Step(r)) == Received(c, s, r, q)
  {
    assert RankOk(c, s, r);
    q := s.ranks[r].pc.source;
    forall m | m in s.net && Matches(r, q, q, m) ensures m == Msg(q, r) { NamedMatch(c, s, r, q, m); }
  }

  /** While some other rank's message is missing, received_num is positive. */
  lemma RoomLeft(c: Config, s: State, r: nat, q: nat)
    requires Inv(c, s) && r < c.ranks && q < c.ranks && q != r && !Got(s, r, q)
    ensures s.ranks[r].left > 0
  {
    assert RankOk(c, s, r);
    var slots := s.ranks[r].slots;
    CountUpdate(IsSome(), slots, r, Some([]));
    CountUpdate(IsSome(), slots[r := Some([])], q, Some([]));
  }

  lemma ReceivedRank(c: Config, s: State, r: nat, q: nat)
    requires Inv(c, s) && r < c.ranks && q < c.ranks && q != r && Msg(q, r) in s.net
    requires s.ranks[r].pc.Found? || s.ranks[r].pc.DrainFound?
    ensures RankOk(c, Received(c, s, r, q), r)
  {
    assert RankOk(c, s, r) && PairOk(c, s, q, r);
    if s.ranks[r].pc.Found? { DistStep(c.ranks, r, s.ranks[r].pc.dest); }
    CountUpdate(IsSome(), s.ranks[r].slots, q, Some(Delivered(c.layout, c.values, q + r)));
    RoomLeft(c, s, r, q);
  }

  /** Nothing else has been sent or received. */
  lemma ReceivedKnows(c: Config, s: State, r: nat, q: nat, k: nat, d: nat)
    requires Inv(c, s) && r < c.ranks && q < c.ranks && q != r && Msg(q, r) in s.net
    requires s.ranks[r].pc.Found? || s.ranks[r].pc.DrainFound?
    requires k < c.ranks && d < c.ranks && k != d
    ensures var t := Received(c, s, r, q);
      HasSent(c, t, k, d) == HasSent(c, s, k, d) && Got(t, d, k) == (Got(s, d, k) || (d == r && k == q))
  {
    assert RankOk(c, s, r);
    if s.ranks[r].pc.Found? { DistStep(c.ranks, r, s.ranks[r].pc.dest); }
  }

  lemma ReceivedPair(c: Config, s: State, r: nat, q: nat, k: nat, d: nat)
    requires Inv(c, s) && r < c.ranks && q < c.ranks && q != r && Msg(q, r) in s.net
    requires s.ranks[r].pc.Found? || s.ranks[r].pc.DrainFound?
    requires k < c.ranks && d < c.ranks && k != d
    ensures PairOk(c, Received(c, s, r, q), k, d)
  {
    ReceivedKnows(c, s, r, q, k, d);
    assert RankOk(c, s, r) && PairOk(c, s, k, d) && PairOk(c, s, q, r);
  }

  lemma ReceiveKeeps(c: Config, s: State, r: nat)
    requires Inv(c, s) && Enabled(c, s, Step(r)) && (s.ranks[r].pc.Found? || s.ranks[r].pc.DrainFound?)
    ensures Inv(c, Apply(c, s, Step(r)))
  {
    var q := ReceiveTakes(c, s, r);
    var t := Received(c, s, r, q);
    forall k | 0 <= k < c.ranks ensures RankOk(c, t, k) {
      assert RankOk(c, s, k);
      if k == r { ReceivedRank(c, s, r, q); }
    }
    forall k, d | 0 <= k < c.ranks && 0 <= d < c.ranks && k != d ensures PairOk(c, t, k, d) {
      ReceivedPair(c, s, r, q, k, d);
    }
  }

  lemma StepKeeps(c: Config, s: State, a: Action)
    requires Inv(c, s) && Enabled(c, s, a)
    ensures Inv(c, Apply(c, s, a))
  {
    var r := a.r;
    var k := s.ranks[r];
    assert RankOk(c, s, r);
    match a
    case NotFound(_) =>
      DistStep(c.ranks, r, k.pc.dest);
      QuietKeeps(c, s, r, Sending((k.pc.dest + 1) % c.ranks));
    case Probe(_, m) =>
      QuietKeeps(c, s, r, Apply(c, s, a).ranks[r].pc);
    case Step(_) =>
      match k.pc {
        case Sending(dest) => if dest == r { QuietKeeps(c, s, r, WaitAll); } else { SendKeeps(c, s, r); }
        case Found(_, _, _) => ReceiveKeeps(c, s, r);
        case DrainFound(_, _) => ReceiveKeeps(c, s, r);
        case WaitAll => QuietKeeps(c, s, r, Draining);
        case Draining => QuietKeeps(c, s, r, Finished);
      }
  }

  // ---------------------------------------------------------------------------------------
  // Progress and termination
  // ---------------------------------------------------------------------------------------

  ghost predicate Stuck(c: Config, s: State) { forall a :: !Enabled(c, s, a) }

  /** As long as received_num is positive, some other rank's message has not been received. */
  lemma Missing(c: Config, s: State, r: nat) returns (q: nat)
    requires Inv(c, s) && r < c.ranks && s.ranks[r].left > 0
    ensures q < c.ranks && q != r && !Got(s, r, q)
  {
    assert RankOk(c, s, r);
    var full := s.ranks[r].slots[r := Some([])];
    CountUpdate(IsSome(), s.ranks[r].slots, r, Some([]));
    CountAll(IsSome(), full);
    q :| 0 <= q < |full| && !IsSome()(full[q]);
    assert full[q] == s.ranks[r].slots[q];
  }

  /** The drain loop never waits for a message nobody sends: a missing one is buffered or still to be sent. */
  lemma ProbeWillMatch(c: Config, s: State, r: nat) returns (q: nat)
    requires Inv(c, s) && r < c.ranks && s.ranks[r].pc.Draining? && s.ranks[r].left > 0
    ensures q < c.ranks && q != r
    ensures Enabled(c, s, Probe(r, Msg(q, r))) || !HasSent(c, s, q, r)
  {
    q := Missing(c, s, r);
    assert PairOk(c, s, q, r);
  }

  lemma Unfinished(c: Config, s: State, r: nat) returns (a: Action)
    requires Inv(c, s) && r < c.ranks && !s.ranks[r].pc.Finished? && !(s.ranks[r].pc.Draining? && s.ranks[r].left > 0)
    ensures Enabled(c, s, a)
  {
    assert RankOk(c, s, r);
    if s.ranks[r].pc.Found? || s.ranks[r].pc.DrainFound? {
      assert Matches(r, s.ranks[r].pc.source, s.ranks[r].pc.tag, Msg(s.ranks[r].pc.source, r));
    }
    a := if s.ranks[r].pc.Probing? then NotFound(r) else Step(r);
  }

  /** A rank that has not finished can move, or waits for a rank that still sends, which can. */
  lemma Progress(c: Config, s: State, r: nat) returns (a: Action)
    requires Inv(c, s) && r < c.ranks && !s.ranks[r].pc.Finished?
    ensures Enabled(c, s, a)
  {
    assert RankOk(c, s, r);
    if s.ranks[r].pc.Draining? && s.ranks[r].left > 0 {
      var q := ProbeWillMatch(c, s, r);
      if HasSent(c, s, q, r) {
        a := Probe(r, Msg(q, r));
      } else {
        a := Unfinished(c, s, q);
      }
    } else {
      a := Unfinished(c, s, r);
    }
  }

  function PcWeight(c: Config, r: nat, pc: Pc): nat
  {
    if r >= c.ranks then 0 else
    match pc
    case Sending(dest) => if dest < c.ranks then 3 * (c.ranks - Dist(c.ranks, r, dest)) + 3 else 0
    case Probing(dest) => if dest < c.ranks then 3 * (c.ranks - Dist(c.ranks, r, dest)) + 2 else 0
    case Found(dest, _, _) => if dest < c.ranks then 3 * (c.ranks - Dist(c.ranks, r, dest)) + 1 else 0
    case WaitAll => 2
    case Draining => 1
    case DrainFound(_, _) => 0
    case Finished => 0
    case Failed => 0
  }

  /** Steps rank r still has to take. */
  function Left(c: Config, r: nat, k: Rank): nat { PcWeight(c, r, k.pc) + 2 * k.left }

  function Total(c: Config, ranks: seq<Rank>): nat
  {
    if ranks == [] then 0 else Left(c, |ranks| - 1, ranks[|ranks| - 1]) + Total(c, ranks[..|ranks| - 1])
  }

  lemma {:induction false} TotalUpdate(c: Config, ranks: seq<Rank>, r: nat, k: Rank)
    requires r < |ranks|
    ensures Total(c, ranks[r := k]) == Total(c, ranks) - Left(c, r, ranks[r]) + Left(c, r, k)
  {
    if r == |ranks| - 1 {
      assert ranks[r := k][..r] == ranks[..r];
    } else {
      assert ranks[r := k][..|ranks| - 1] == ranks[..|ranks| - 1][r := k];
      TotalUpdate(c, ranks[..|ranks| - 1], r, k);
    }
  }

  ghost function Measure(c: Config): State -> nat { (s: State) => Total(c, s.ranks) }

  lemma ReceiveDrops(c: Config, s: State, r: nat)
    requires Inv(c, s) && Enabled(c, s, Step(r)) && (s.ranks[r].pc.Found? || s.ranks[r].pc.DrainFound?)
    ensures Left(c, r, Apply(c, s, Step(r)).ranks[r]) < Left(c, r, s.ranks[r])
  {
    var q := ReceiveTakes(c, s, r);
    assert RankOk(c, s, r) && PairOk(c, s, q, r);
    RoomLeft(c, s, r, q);
    if s.ranks[r].pc.Found? { DistStep(c.ranks, r, s.ranks[r].pc.dest); }
  }

  lemma OtherDrops(c: Config, s: State, a: Action)
    requires Inv(c, s) && Enabled(c, s, a) && !(s.ranks[a.r].pc.Found? || s.ranks[a.r].pc.DrainFound?)
    ensures Left(c, a.r, Apply(c, s, a).ranks[a.r]) < Left(c, a.r, s.ranks[a.r])
  {
    assert RankOk(c, s, a.r);
    if s.ranks[a.r].pc.Probing? { DistStep(c.ranks, a.r, s.ranks[a.r].pc.dest); }
  }

  /** Only the moving rank's entry changes. */
  lemma OneMoves(c: Config, s: State, a: Action)
    requires Inv(c, s) && Enabled(c, s, a)
    ensures Apply(c, s, a).ranks == s.ranks[a.r := Apply(c, s, a).ranks[a.r]]
  {
  }

  lemma MeasureDrops(c: Config, s: State, a: Action)
    requires Inv(c, s) && Enabled(c, s, a)
    ensures Measure(c)(Apply(c, s, a)) < Measure(c)(s)
  {
    if s.ranks[a.r].pc.Found? || s.ranks[a.r].pc.DrainFound? {
      ReceiveDrops(c, s, a.r);
    } else {
      OtherDrops(c, s, a);
    }
    OneMoves(c, s, a);
    TotalUpdate(c, s.ranks, a.r, Apply(c, s, a).ranks[a.r]);
  }

  // ---------------------------------------------------------------------------------------
  // The attached buffer
  // ---------------------------------------------------------------------------------------

  /** A rank's share of the buffer for one thread. */
  function Share(c: Config): nat {
    c.layout.size * c.values * (if c.ranks > 0 then c.ranks - 1 else 0) + c.ranks * c.overhead
  }

  /** env->mpi_buffer_size */
  function BufferSize(c: Config): nat {
    (1 + c.threads) * Share(c)
  }

  function InFlight(s: State, r: nat): nat -> bool { (d: nat) => Msg(r, d) in s.net }

  function Upto(n: nat): (ds: seq<nat>)
    ensures |ds| == n && forall i :: 0 <= i < n ==> ds[i] == i
  {
    if n == 0 then [] else Upto(n - 1) + [n - 1]
  }

  /** The destinations of rank r's messages that are still buffered. */
  function Outstanding(s: State, r: nat, n: nat): nat { Count(InFlight(s, r), Upto(n)) }

  /** Buffer space the run of one thread takes on rank r. */
  function SpaceUsed(c: Config, s: State, r: nat): nat {
    Outstanding(s, r, c.ranks) * (c.layout.size * c.values + c.overhead)
  }

  lemma OutstandingBound(c: Config, s: State, r: nat)
    requires Inv(c, s) && r < c.ranks
    ensures Outstanding(s, r, c.ranks) <= c.ranks - 1
  {
    CountAll(InFlight(s, r), Upto(c.ranks));
    assert !InFlight(s, r)(Upto(c.ranks)[r]);
  }

  function SpaceOfAll(c: Config, runs: seq<State>, r: nat): nat {
    if runs == [] then 0 else SpaceUsed(c, runs[0], r) + SpaceOfAll(c, runs[1..], r)
  }

  lemma OneSpace(k: nat, n: nat, bytes: nat, overhead: nat)
    requires k <= n - 1
    ensures k * (bytes + overhead) <= bytes * (n - 1) + n * overhead
  {
    Products.Ordered(k, n - 1, bytes + overhead);
    Products.Distributes(bytes, overhead, n - 1);
    Products.Ordered(n - 1, n, overhead);
  }

  lemma OneRun(c: Config, s: State, r: nat)
    requires Inv(c, s) && r < c.ranks
    ensures SpaceUsed(c, s, r) <= Share(c)
  {
    OutstandingBound(c, s, r);
    OneSpace(Outstanding(s, r, c.ranks), c.ranks, c.layout.size * c.values, c.overhead);
  }

  lemma {:induction false} SpaceBound(c: Config, runs: seq<State>, r: nat)
    requires r < c.ranks && forall i :: 0 <= i < |runs| ==> Inv(c, runs[i])
    ensures SpaceOfAll(c, runs, r) <= |runs| * Share(c)
  {
    if runs != [] {
      forall i | 0 <= i < |runs[1..]| ensures Inv(c, runs[1..][i]) { assert runs[1..][i] == runs[i + 1]; }
      SpaceBound(c, runs[1..], r);
      OneRun(c, runs[0], r);
      Products.Distributes(|runs| - 1, 1, Share(c));
    }
  }

  // ---------------------------------------------------------------------------------------
  // Theorems about runs
  // ---------------------------------------------------------------------------------------

  /** The protocol with its invariant and its measure. */
  ghost function Protocol(c: Config): System<State, Action> {
    System(Initial(c), Moves(c), (s: State) => Inv(c, s), Measure(c), (a: Action) => false)
  }

  lemma ProtocolSound(c: Config)
    ensures Sound(Protocol(c))
  {
    InitialOk(c);
    forall s, a, t | Inv(c, s) && Moves(c)(s, a, t) ensures Inv(c, t) && Measure(c)(t) < Measure(c)(s) {
      StepKeeps(c, s, a);
      MeasureDrops(c, s, a);
    }
  }

  lemma RunInv(c: Config, r: Run<State, Action>)
    requires IsRun(c, r)
    ensures forall k :: 0 <= k < |r.states| ==> Inv(c, r.states[k])
  {
    ProtocolSound(c);
    SystemInvariant(Protocol(c), r);
  }

  lemma RunsAreBounded(c: Config, r: Run<State, Action>)
    requires IsRun(c, r)
    ensures |r.actions| <= Measure(c)(Initial(c))
  {
    ProtocolSound(c);
    SystemBounded(Protocol(c), r);
    CountNone(Protocol(c).spurious, r.actions);
  }

  /** received_num plus the messages received is comm_size - 1, and no status check ever fails. */
  ghost predicate Conserves(c: Config, s: State) {
    forall r :: 0 <= r < |s.ranks| ==>
      && s.ranks[r].left + Count(IsSome(), s.ranks[r].slots) == c.ranks - 1
      && !s.ranks[r].pc.Failed?
  }

  /** A received slot holds the array of source + rank. */
  ghost predicate SlotsPass(c: Config, s: State) {
    forall r, q :: 0 <= r < |s.ranks| && 0 <= q < |s.ranks[r].slots| && s.ranks[r].slots[q].Some? ==>
      Errors(c.layout, s.ranks[r].slots[q].value, c.values, q + r) == 0
  }

  lemma InvSlot(c: Config, s: State, r: nat, q: nat)
    requires Inv(c, s) && r < c.ranks && q < c.ranks && Got(s, r, q)
    ensures Errors(c.layout, s.ranks[r].slots[q].value, c.values, q + r) == 0
  {
    assert s.ranks[r].slots[q] == Some(Delivered(c.layout, c.values, q + r)) by {
      assert RankOk(c, s, r) && PairOk(c, s, q, r);
    }
    DeliveredPasses(c.layout, c.values, q + r);
  }

  lemma InvMeaning(c: Config, s: State)
    requires Inv(c, s)
    ensures Conserves(c, s) && SlotsPass(c, s)
  {
    forall i | 0 <= i < |s.ranks|
      ensures s.ranks[i].left + Count(IsSome(), s.ranks[i].slots) == c.ranks - 1 && !s.ranks[i].pc.Failed?
    {
      assert RankOk(c, s, i);
    }
    forall i, q | 0 <= i < |s.ranks| && 0 <= q < |s.ranks[i].slots| && s.ranks[i].slots[q].Some?
      ensures Errors(c.layout, s.ranks[i].slots[q].value, c.values, q + i) == 0
    {
      assert RankOk(c, s, i) && Got(s, i, q);
      InvSlot(c, s, i, q);
    }
  }

  lemma RunsAreSafe(c: Config, r: Run<State, Action>, k: nat)
    requires IsRun(c, r) && k < |r.states|
    ensures Conserves(c, r.states[k]) && SlotsPass(c, r.states[k])
    ensures forall m :: m in r.states[k].net ==> m.tag == m.source && m.content == m.source + m.dest && m.source != m.dest
  {
    RunInv(c, r);
    InvMeaning(c, r.states[k]);
  }

  function States(rs: seq<Run<State, Action>>): (ss: seq<State>)
    requires forall i :: 0 <= i < |rs| ==> rs[i].WellFormed()
    ensures |ss| == |rs| && forall i :: 0 <= i < |rs| ==> ss[i] == rs[i].Last()
  {
    seq(|rs|, i requires 0 <= i < |rs| => rs[i].Last())
  }

  /** However far the runs of the 1 + num_threads threads of rank r have come, together they fit its attached buffer. */
  lemma BufferSuffices(c: Config, rs: seq<Run<State, Action>>, r: nat)
    requires r < c.ranks && |rs| == 1 + c.threads && forall i :: 0 <= i < |rs| ==> rs[i].WellFormed() && IsRun(c, rs[i])
    ensures SpaceOfAll(c, States(rs), r) <= BufferSize(c)
  {
    forall i | 0 <= i < |rs| ensures Inv(c, States(rs)[i]) { RunInv(c, rs[i]); }
    SpaceBound(c, States(rs), r);
  }

  lemma TightShare(c: Config)
    requires c.ranks > 0
    ensures Share(c) == (c.ranks - 1) * (c.layout.size * c.values + c.overhead) + c.overhead
  {
    Products.Distributes(c.layout.size * c.values, c.overhead, c.ranks - 1);
    Products.Distributes(c.ranks - 1, 1, c.overhead);
  }

  lemma {:induction false} TightSpace(c: Config, runs: seq<State>, r: nat)
    requires r < c.ranks && forall i :: 0 <= i < |runs| ==> Outstanding(runs[i], r, c.ranks) == c.ranks - 1
    ensures |runs| * Share(c) == SpaceOfAll(c, runs, r) + |runs| * c.overhead
  {
    if runs != [] {
      assert forall i :: 0 <= i < |runs[1..]| ==> runs[1..][i] == runs[i + 1];
      TightSpace(c, runs[1..], r);
      Products.Distributes(|runs| - 1, 1, Share(c));
      Products.Distributes(|runs| - 1, 1, c.overhead);
      TightShare(c);
    }
  }

  /** With a message to every other rank outstanding in each thread, the buffer is full up to one overhead a thread. */
  lemma BufferTight(c: Config, runs: seq<State>, r: nat)
    requires r < c.ranks && |runs| == 1 + c.threads && forall i :: 0 <= i < |runs| ==> Outstanding(runs[i], r, c.ranks) == c.ranks - 1
    ensures BufferSize(c) == SpaceOfAll(c, runs, r) + (1 + c.threads) * c.overhead
  {
    TightSpace(c, runs, r);
  }

  /** Every rank has received from every other rank, and nothing is left in the network. */
  ghost predicate Complete(c: Config, s: State) {
    && |s.ranks| == c.ranks && s.net == {}
    && forall r, q :: 0 <= r < c.ranks && 0 <= q < c.ranks && q != r ==> s.ranks[r].pc.Finished? && Got(s, r, q)
  }

  /** Whatever the probes find: a run that cannot go on is complete. */
  lemma StuckRunsAreComplete(c: Config, r: Run<State, Action>)
    requires IsRun(c, r) && Stuck(c, r.Last())
    ensures Complete(c, r.Last())
  {
    RunInv(c, r);
    var s := r.Last();
    forall k | 0 <= k < c.ranks ensures s.ranks[k].pc.Finished? {
      if !s.ranks[k].pc.Finished? {
        var a := Progress(c, s, k);
      }
    }
    forall k, q | 0 <= k < c.ranks && 0 <= q < c.ranks && q != k ensures Got(s, k, q) && Msg(q, k) !in s.net {
      assert RankOk(c, s, k) && PairOk(c, s, q, k);
      if !Got(s, k, q) {
        RoomLeft(c, s, k, q);
      }
    }
    assert forall m :: m in s.net ==> m == Msg(m.source, m.dest);
  }

  /** Every run can go on until it is complete. */
  lemma EveryRunEnds(c: Config, r: Run<State, Action>) returns (q: Run<State, Action>)
    requires IsRun(c, r)
    ensures IsRun(c, q) && Extends(q, r) && Stuck(c, q.Last())
    ensures Complete(c, q.Last())
  {
    ProtocolSound(c);
    q := RunOn(Protocol(c), r);
    forall a ensures !Enabled(c, q.Last(), a) {
      if Enabled(c, q.Last(), a) { HaltedStep(Protocol(c), q.Last(), a, Apply(c, q.Last(), a)); }
    }
    StuckRunsAreComplete(c, q);
  }
}
