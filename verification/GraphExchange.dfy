/**
 * The fully connected topology of tst_comm.c and the exchange of p2p/tst_p2p_alltoall_graph.c:
 * every rank runs MPI_Sendrecv with its neighbours in the order the topology lists them.
 *
 * Each message is buffered or handed over directly, as an arbitrary function of its two ranks says.
 */
module GraphExchange {
  import opened Buffers
  import opened Lists
  import opened Options
  import opened Oracle
  import opened Runs

  // ---------------------------------------------------------------------------------------
  // The topology
  // ---------------------------------------------------------------------------------------

  /** The k-th neighbour of rank i, and the position of neighbour j. */
  function Neighbour(i: nat, k: nat): nat { if k < i then k else k + 1 }
  function SlotOf(i: nat, j: nat): nat { if j < i then j else if j > 0 then j - 1 else 0 }

  /** All ranks but i, in ascending order. */
  function Neighbours(n: nat, i: nat): (r: seq<nat>)
    requires n > 0
    ensures |r| == n - 1
  {
    seq(n - 1, k requires 0 <= k < n - 1 => Neighbour(i, k))
  }

  /** Every other rank is a neighbour, in ascending order; SlotOf says where. */
  lemma AllOthers(n: nat, i: nat)
    requires i < n
    ensures forall a, b :: 0 <= a < b < n - 1 ==> Neighbours(n, i)[a] < Neighbours(n, i)[b]
    ensures forall j: nat :: j in Neighbours(n, i) <==> j < n && j != i
    ensures forall j: nat :: j < n && j != i ==> Neighbours(n, i)[SlotOf(i, j)] == j
  {
    forall j: nat | j < n && j != i ensures Neighbours(n, i)[SlotOf(i, j)] == j && j in Neighbours(n, i) {
      assert Neighbours(n, i)[SlotOf(i, j)] == Neighbour(i, SlotOf(i, j));
    }
    forall j: nat | j in Neighbours(n, i) ensures j < n && j != i {
      var k :| 0 <= k < n - 1 && Neighbours(n, i)[k] == j;
    }
  }

  /** MPI_Graph_neighbors */
  function GraphNeighbours(index: seq<nat>, edges: seq<nat>, i: nat): seq<nat>
    requires i < |index|
  {
    var lo := if i == 0 then 0 else index[i - 1];
    if lo <= index[i] <= |edges| then edges[lo..index[i]] else []
  }

  /** The inner loop of tst_comm_register_fully_connected_topology. */
  method FillRow(edges: array<nat>, n: nat, i: nat, first: nat) returns (num: nat)
    requires i < n && first + (n - 1) <= edges.Length
    modifies edges
    ensures num == first + (n - 1)
    ensures edges[first..num] == Neighbours(n, i)
    ensures edges[..first] == old(edges[..first])
  {
    num := first;
    var j := 0;
    while j < n
      invariant 0 <= j <= n
      invariant num == first + (if j <= i then j else j - 1)
      invariant forall k :: first <= k < num ==> edges[k] == Neighbour(i, k - first)
      invariant edges[..first] == old(edges[..first])
    {
      if j != i {
        edges[num] := j;
        num := num + 1;
      }
      j := j + 1;
    }
  }

  lemma RowKept(before: seq<nat>, after: seq<nat>, n: nat, i: nat, k: nat)
    requires n > 0 && k <= i < n && |before| == |after| == n * (n - 1)
    requires InBounds(after, i, n - 1)
    requires after[i * (n - 1)..(i + 1) * (n - 1)] == Neighbours(n, i)
    requires after[..i * (n - 1)] == before[..i * (n - 1)]
    requires k < i ==> Part(before, k, n - 1) == Neighbours(n, k)
    ensures Part(after, k, n - 1) == Neighbours(n, k)
  {
    if k < i {
      PartsApart(k, i, n - 1);
      PartBounds(before, n, k, n - 1);
      var lo, hi := k * (n - 1), (k + 1) * (n - 1);
      assert after[lo..hi] == after[..i * (n - 1)][lo..hi];
      assert before[lo..hi] == before[..i * (n - 1)][lo..hi];
    }
  }

  /** The index and edges arrays handed to MPI_Graph_create. */
  method BuildTopology(n: nat) returns (index: array<nat>, edges: array<nat>)
    requires n > 0
    ensures index.Length == n && edges.Length == n * (n - 1)
    ensures forall i :: 0 <= i < n ==> index[i] == (i + 1) * (n - 1) && Part(edges[..], i, n - 1) == Neighbours(n, i)
    ensures forall i :: 0 <= i < n ==> GraphNeighbours(index[..], edges[..], i) == Neighbours(n, i)
  {
    index := new nat[n];
    var i := 0;
    while i < n
      invariant 0 <= i <= n
      invariant forall k :: 0 <= k < i ==> index[k] == (k + 1) * (n - 1)
    {
      index[i] := (i + 1) * (n - 1);
      i := i + 1;
    }
    edges := new nat[n * (n - 1)];
    var num := 0;
    i := 0;
    while i < n
      invariant 0 <= i <= n && num == i * (n - 1) <= edges.Length
      invariant forall k :: 0 <= k < n ==> index[k] == (k + 1) * (n - 1)
      invariant forall k :: 0 <= k < i ==> Part(edges[..], k, n - 1) == Neighbours(n, k)
    {
      ghost var before := edges[..];
      PartBounds(before, n, i, n - 1);
      num := FillRow(edges, n, i, num);
      forall k | 0 <= k <= i ensures Part(edges[..], k, n - 1) == Neighbours(n, k) {
        RowKept(before, edges[..], n, i, k);
      }
      i := i + 1;
    }
    forall k | 0 <= k < n ensures GraphNeighbours(index[..], edges[..], k) == Neighbours(n, k) {
      PartBounds(edges[..], n, k, n - 1);
      assert Part(edges[..], k, n - 1) == Neighbours(n, k);
    }
  }

  // ---------------------------------------------------------------------------------------
  // The exchange
  // ---------------------------------------------------------------------------------------

  datatype Config = Config(ranks: nat, buffers: (nat, nat) -> bool, layout: Layout, values: nat)

  /** pos is the loop variable; sent and got are the two halves of the MPI_Sendrecv under way. */
  datatype Rank = Rank(pos: nat, sent: bool, got: bool, data: seq<Option<seq<Byte>>>)

  /** net holds the (source, destination) of the messages in buffers. */
  datatype State = State(ranks: seq<Rank>, net: set<(nat, nat)>)

  datatype Action =
    | Buffer(i: nat)     // the send half completes into a buffer
    | Deliver(i: nat)    // the receive half of rank i completes
    | Next(i: nat)       // MPI_Sendrecv returns

  function Initial(c: Config): State {
    State(seq(c.ranks, _ => Rank(0, false, false, seq(if c.ranks > 0 then c.ranks - 1 else 0, _ => None))), {})
  }

  /** The rank is inside an MPI_Sendrecv. */
  predicate Talking(c: Config, s: State, i: nat) { i < |s.ranks| && s.ranks[i].pos + 1 < c.ranks }

  function Partner(s: State, i: nat): nat
    requires i < |s.ranks|
  {
    Neighbour(i, s.ranks[i].pos)
  }

  /** j waits in an MPI_Sendrecv with i, its message not yet taken and not bufferable. */
  predicate Offers(c: Config, s: State, j: nat, i: nat) {
    Talking(c, s, j) && Partner(s, j) == i && !s.ranks[j].sent && !c.buffers(j, i)
  }

  predicate Enabled(c: Config, s: State, a: Action) {
    Talking(c, s, a.i) &&
    match a
    case Buffer(i) => !s.ranks[i].sent && c.buffers(i, Partner(s, i))
    case Deliver(i) => !s.ranks[i].got && ((Partner(s, i), i) in s.net || Offers(c, s, Partner(s, i), i))
    case Next(i) => s.ranks[i].sent && s.ranks[i].got
  }

  function Store(k: Rank, x: seq<Byte>): Rank {
    if k.pos < |k.data| then k.(got := true, data := k.data[k.pos := Some(x)]) else k.(got := true)
  }

  function Apply(c: Config, s: State, a: Action): State
    requires Enabled(c, s, a)
  {
    match a
    case Buffer(i) => s.(ranks := s.ranks[i := s.ranks[i].(sent := true)], net := s.net + {(i, Partner(s, i))})
    case Deliver(i) =>
      var j := Partner(s, i);
      var ranks := if (j, i) in s.net then s.ranks else s.ranks[j := s.ranks[j].(sent := true)];
      State(ranks[i := Store(ranks[i], Delivered(c.layout, c.values, j))], s.net - {(j, i)})
    case Next(i) => s.(ranks := s.ranks[i := s.ranks[i].(pos := s.ranks[i].pos + 1, sent := false, got := false)])
  }

  ghost function Moves(c: Config): (State, Action, State) -> bool {
    (s: State, a: Action, t: State) => Enabled(c, s, a) && t == Apply(c, s, a)
  }

  ghost predicate IsRun(c: Config, r: Run<State, Action>) { Follows(r, Initial(c), Moves(c)) }

  // ---------------------------------------------------------------------------------------
  // The invariant
  // ---------------------------------------------------------------------------------------

  /** i's message to j has left i, and j has received i's message. */
  predicate HasSent(s: State, i: nat, j: nat)
    requires i < |s.ranks|
  {
    SlotOf(i, j) < s.ranks[i].pos || (SlotOf(i, j) == s.ranks[i].pos && s.ranks[i].sent)
  }

  predicate HasGot(s: State, j: nat, i: nat)
    requires j < |s.ranks|
  {
    SlotOf(j, i) < s.ranks[j].pos || (SlotOf(j, i) == s.ranks[j].pos && s.ranks[j].got)
  }

  predicate PairOk(c: Config, s: State, i: nat, j: nat)
    requires i < |s.ranks| && j < |s.ranks|
  {
    && (HasGot(s, j, i) ==> HasSent(s, i, j))
    && ((i, j) in s.net <==> HasSent(s, i, j) && !HasGot(s, j, i))
    && (HasGot(s, j, i) ==>
          SlotOf(j, i) < |s.ranks[j].data| && s.ranks[j].data[SlotOf(j, i)] == Some(Delivered(c.layout, c.values, i)))
  }

  predicate RankOk(c: Config, k: Rank) {
    k.pos < c.ranks && |k.data| == c.ranks - 1 && (k.pos == c.ranks - 1 ==> !k.sent && !k.got)
  }

  ghost predicate Inv(c: Config, s: State) {
    && |s.ranks| == c.ranks
    && (forall i :: 0 <= i < c.ranks ==> RankOk(c, s.ranks[i]))
    && (forall m :: m in s.net ==> m.0 < c.ranks && m.1 < c.ranks && m.0 != m.1)
    && (forall i, j :: 0 <= i < c.ranks && 0 <= j < c.ranks && i != j ==> PairOk(c, s, i, j))
  }

  lemma InitialOk(c: Config)
    ensures Inv(c, Initial(c))
  {
  }

  lemma BufferKeeps(c: Config, s: State, i: nat)
    requires Inv(c, s) && Enabled(c, s, Buffer(i))
    ensures Inv(c, Apply(c, s, Buffer(i)))
  {
    var t := Apply(c, s, Buffer(i));
    assert RankOk(c, s.ranks[i]);
    forall a, b | 0 <= a < c.ranks && 0 <= b < c.ranks && a != b ensures PairOk(c, t, a, b) {
      assert PairOk(c, s, a, b);
    }
  }

  lemma NextKeeps(c: Config, s: State, i: nat)
    requires Inv(c, s) && Enabled(c, s, Next(i))
    ensures Inv(c, Apply(c, s, Next(i)))
  {
    var t := Apply(c, s, Next(i));
    assert RankOk(c, s.ranks[i]);
    forall a, b | 0 <= a < c.ranks && 0 <= b < c.ranks && a != b ensures PairOk(c, t, a, b) {
      assert PairOk(c, s, a, b);
    }
  }

  /** What the delivery to i does: i stores the array of its partner j, whose message has then left. */
  predicate IsDelivery(c: Config, s: State, i: nat, t: State)
    requires i < |s.ranks|
  {
    var j := Partner(s, i);
    && |t.ranks| == |s.ranks| == c.ranks && t.net == s.net - {(j, i)}
    && j < c.ranks && j != i && RankOk(c, t.ranks[i]) && RankOk(c, t.ranks[j])
    && t.ranks[i] == Store(s.ranks[i], Delivered(c.layout, c.values, j))
    && t.ranks[j].pos == s.ranks[j].pos && t.ranks[j].got == s.ranks[j].got && t.ranks[j].data == s.ranks[j].data
    && HasSent(s, j, i) == ((j, i) in s.net) && !HasGot(s, i, j)
    && (t.ranks[j].sent <==> s.ranks[j].sent || (j, i) !in s.net)
    && ((j, i) !in s.net ==> s.ranks[j].pos == SlotOf(j, i))
    && (forall k :: 0 <= k < c.ranks && k != i && k != j ==> t.ranks[k] == s.ranks[k])
  }

  lemma DeliverEffect(c: Config, s: State, i: nat)
    requires Inv(c, s) && Enabled(c, s, Deliver(i))
    ensures IsDelivery(c, s, i, Apply(c, s, Deliver(i)))
  {
    var j := Partner(s, i);
    assert RankOk(c, s.ranks[i]) && j < c.ranks && j != i;
    assert RankOk(c, s.ranks[j]) && PairOk(c, s, j, i);
  }

  lemma DeliverPair(c: Config, s: State, i: nat, t: State, a: nat, b: nat)
    requires Inv(c, s) && Enabled(c, s, Deliver(i)) && IsDelivery(c, s, i, t) && a < c.ranks && b < c.ranks && a != b
    ensures PairOk(c, t, a, b)
  {
    assert PairOk(c, s, a, b);
  }

  lemma DeliverKeeps(c: Config, s: State, i: nat)
    requires Inv(c, s) && Enabled(c, s, Deliver(i))
    ensures Inv(c, Apply(c, s, Deliver(i)))
  {
    var t := Apply(c, s, Deliver(i));
    DeliverEffect(c, s, i);
    forall a, b | 0 <= a < c.ranks && 0 <= b < c.ranks && a != b ensures PairOk(c, t, a, b) {
      DeliverPair(c, s, i, t, a, b);
    }
  }

  lemma StepKeeps(c: Config, s: State, a: Action)
    requires Inv(c, s) && Enabled(c, s, a)
    ensures Inv(c, Apply(c, s, a))
  {
    match a
    case Buffer(i) => BufferKeeps(c, s, i);
    case Deliver(i) => DeliverKeeps(c, s, i);
    case Next(i) => NextKeeps(c, s, i);
  }

  // ---------------------------------------------------------------------------------------
  // Progress: the lexicographically least unfinished pair can always move
  // ---------------------------------------------------------------------------------------

  ghost predicate Stuck(c: Config, s: State) { forall a :: !Enabled(c, s, a) }

  function Lower(i: nat, j: nat): nat { if i < j then i else j }
  function Upper(i: nat, j: nat): nat { if i < j then j else i }

  /** Of two ranks that talk to each other one can move. */
  lemma FacingPairMoves(c: Config, s: State, i: nat, j: nat) returns (a: Action)
    requires Inv(c, s)
    requires Talking(c, s, i) && Talking(c, s, j) && Partner(s, i) == j && Partner(s, j) == i
    ensures Enabled(c, s, a)
  {
    assert PairOk(c, s, i, j) && PairOk(c, s, j, i);
    a := if !s.ranks[j].got then (if !s.ranks[i].sent && c.buffers(i, j) then Buffer(i) else Deliver(j))
         else if !s.ranks[i].got then (if !s.ranks[j].sent && c.buffers(j, i) then Buffer(j) else Deliver(i))
         else Next(i);
  }

  /** A rank whose partner has finished with it can go on with its MPI_Sendrecv. */
  lemma LeftBehindMoves(c: Config, s: State, i: nat) returns (a: Action)
    requires Inv(c, s) && Talking(c, s, i)
    requires Partner(s, i) < c.ranks && SlotOf(Partner(s, i), i) < s.ranks[Partner(s, i)].pos
    ensures Enabled(c, s, a)
  {
    var j := Partner(s, i);
    assert PairOk(c, s, i, j) && PairOk(c, s, j, i);
    a := if s.ranks[i].got then Next(i) else Deliver(i);
  }

  /** From any unfinished pair, going to the partner's pair goes down in the lexicographic order. */
  lemma Progress(c: Config, s: State, i: nat) returns (a: Action)
    requires Inv(c, s) && Talking(c, s, i)
    ensures Enabled(c, s, a)
    decreases Lower(i, Partner(s, i)), Upper(i, Partner(s, i))
  {
    var j := Partner(s, i);
    assert j < c.ranks && j != i && RankOk(c, s.ranks[j]);
    if s.ranks[j].pos == SlotOf(j, i) {
      a := FacingPairMoves(c, s, i, j);
    } else if s.ranks[j].pos > SlotOf(j, i) {
      a := LeftBehindMoves(c, s, i);
    } else {
      assert Partner(s, j) < i;
      a := Progress(c, s, j);
    }
  }

  // ---------------------------------------------------------------------------------------
  // Termination, and theorems about runs
  // ---------------------------------------------------------------------------------------

  function RankWeight(c: Config): Rank -> nat {
    (k: Rank) =>
      if k.pos + 1 < c.ranks
      then 3 * (c.ranks - 1 - k.pos) - (if k.sent then 1 else 0) - (if k.got then 1 else 0)
      else 0
  }

  function Measure(c: Config): State -> nat { (s: State) => Sum(RankWeight(c), s.ranks) }

  lemma MeasureDrops(c: Config, s: State, a: Action)
    requires Inv(c, s) && Enabled(c, s, a)
    ensures Measure(c)(Apply(c, s, a)) < Measure(c)(s)
  {
    var t := Apply(c, s, a);
    var i := a.i;
    if a.Deliver? {
      var j := Partner(s, i);
      var ranks := if (j, i) in s.net then s.ranks else s.ranks[j := s.ranks[j].(sent := true)];
      if (j, i) !in s.net { SumUpdate(RankWeight(c), s.ranks, j, s.ranks[j].(sent := true)); }
      SumUpdate(RankWeight(c), ranks, i, t.ranks[i]);
    } else {
      SumUpdate(RankWeight(c), s.ranks, i, t.ranks[i]);
    }
  }

  /** The protocol with its invariant and its measure. */
  ghost function Protocol(c: Config): System<State, Action> {
    System(Initial(c), Moves(c), (s: State) => Inv(c, s), Measure(c), (a: Action) => false)
  }

  lemma ProtocolSound(c: Config)
    ensures Sound(Protocol(c))
  {
    InitialOk(c);
    forall s, a, t | Inv(c, s) && Moves(c)(s, a, t) ensures Inv(c, t) && Measure(c)(t) < Measure(c)(s) {
      StepKeeps(c, s, a);
      MeasureDrops(c, s, a);
    }
  }

  lemma RunInv(c: Config, r: Run<State, Action>)
    requires IsRun(c, r)
    ensures forall k :: 0 <= k < |r.states| ==> Inv(c, r.states[k])
  {
    ProtocolSound(c);
    SystemInvariant(Protocol(c), r);
  }

  lemma RunsAreBounded(c: Config, r: Run<State, Action>)
    requires IsRun(c, r)
    ensures |r.actions| <= Measure(c)(Initial(c))
  {
    ProtocolSound(c);
    SystemBounded(Protocol(c), r);
    CountNone(Protocol(c).spurious, r.actions);
  }

  /** Every rank has been through its list of neighbours, and slot k passes the check for neighbour k. */
  ghost predicate Exchanged(c: Config, s: State) {
    && |s.ranks| == c.ranks && s.net == {}
    && forall i, k :: 0 <= i < c.ranks && 0 <= k < c.ranks - 1 ==>
         && s.ranks[i].pos == c.ranks - 1 && k < |s.ranks[i].data| && s.ranks[i].data[k].Some?
         && Errors(c.layout, s.ranks[i].data[k].value, c.values, Neighbours(c.ranks, i)[k]) == 0
  }

  /** Whatever is buffered and whatever the interleaving: a run that cannot go on has exchanged everything. */
  lemma StuckRunsAreComplete(c: Config, r: Run<State, Action>)
    requires IsRun(c, r) && Stuck(c, r.Last())
    ensures Exchanged(c, r.Last())
  {
    RunInv(c, r);
    var s := r.Last();
    forall i | 0 <= i < c.ranks ensures s.ranks[i].pos == c.ranks - 1 {
      assert RankOk(c, s.ranks[i]);
      if Talking(c, s, i) {
        var a := Progress(c, s, i);
      }
    }
    forall i, k | 0 <= i < c.ranks && 0 <= k < c.ranks - 1
      ensures k < |s.ranks[i].data| && s.ranks[i].data[k].Some?
        && Errors(c.layout, s.ranks[i].data[k].value, c.values, Neighbours(c.ranks, i)[k]) == 0
    {
      var j := Neighbour(i, k);
      assert PairOk(c, s, j, i) && SlotOf(i, j) == k;
      DeliveredPasses(c.layout, c.values, j);
    }
    forall i, j | 0 <= i < c.ranks && 0 <= j < c.ranks && i != j ensures (i, j) !in s.net {
      assert PairOk(c, s, i, j);
    }
  }

  /** Every run can go on until everything is exchanged. */
  lemma EveryRunEnds(c: Config, r: Run<State, Action>) returns (q: Run<State, Action>)
    requires IsRun(c, r)
    ensures IsRun(c, q) && Extends(q, r) && Stuck(c, q.Last())
    ensures Exchanged(c, q.Last())
  {
    ProtocolSound(c);
    q := RunOn(Protocol(c), r);
    forall a ensures !Enabled(c, q.Last(), a) {
      if Enabled(c, q.Last(), a) { HaltedStep(Protocol(c), q.Last(), a, Apply(c, q.Last(), a)); }
    }
    StuckRunsAreComplete(c, q);
  }
}
