/**
 * p2p/tst_p2p_many_to_one.c: in each run every other rank sends its array to rank 0, which receives
 * them from MPI_ANY_SOURCE.  The runs of a communicator follow each other without a barrier, so only
 * the tag keeps a message from being taken in an earlier run.
 *
 * A standard send is buffered or waits for its receive; which of the two is fixed per message by an
 * arbitrary function.  Messages of one sender that match the same receive are taken in order.
 */
module ManyToOne {
  import opened HashTag
  import opened Lists
  import opened Oracle
  import opened Runs

  /** One run: the tag is its hash value. */
  datatype Spec = Spec(tag: nat, layout: Layout, values: nat)

  /** specs are the successive runs; buffers(k, r) says whether rank r's send of run k is buffered. */
  datatype Config = Config(ranks: nat, specs: seq<Spec>, buffers: (nat, nat) -> bool)

  /** In run `run` the root took, from source, the message of run `sent`, and counted so many errors. */
  datatype Receipt = Receipt(run: nat, source: nat, sent: nat, errors: nat)

  /** sent counts the sends that have returned; pending are the runs of the messages still buffered. */
  datatype Sender = Sender(sent: nat, pending: seq<nat>)

  /** The root is in run number run, has received count messages in it, from the sources in got. */
  datatype State = State(run: nat, count: nat, got: set<nat>, buffer: seq<Byte>, log: seq<Receipt>, senders: seq<Sender>)

  datatype Action = Buffer(r: nat) | Recv(r: nat) | NextRun

  /** The root's send_buffer as _init leaves it. */
  function RootBuffer(c: Config, k: nat): seq<Byte> {
    if k < |c.specs| then StandardArray(c.specs[k].layout, c.specs[k].values, 0) else []
  }

  function Initial(c: Config): State {
    State(0, 0, {}, RootBuffer(c, 0), [], seq(c.ranks, _ => Sender(0, [])))
  }

  function TagOf(c: Config, k: nat): nat { if k < |c.specs| then c.specs[k].tag else 0 }

  /** Rank r waits in MPI_Send for the receive of its next message. */
  predicate Offers(c: Config, r: nat, x: Sender) { x.sent < |c.specs| && !c.buffers(x.sent, r) }

  /** The runs of the messages of rank r that a receive can see, in the order they were sent. */
  function Visible(c: Config, r: nat, x: Sender): seq<nat> {
    x.pending + (if Offers(c, r, x) then [x.sent] else [])
  }

  /** The first message with the tag, or |ks|. */
  function First(c: Config, ks: seq<nat>, tag: nat): (j: nat)
    ensures j <= |ks|
    ensures j < |ks| ==> TagOf(c, ks[j]) == tag
    ensures forall i :: 0 <= i < j ==> TagOf(c, ks[i]) != tag
  {
    if ks == [] || TagOf(c, ks[0]) == tag then 0
    else
      var j := First(c, ks[1..], tag);
      assert forall i :: 1 <= i < |ks| ==> ks[1..][i - 1] == ks[i];
      j + 1
  }

  function Candidate(c: Config, s: State, r: nat): nat
    requires r < |s.senders|
  {
    First(c, Visible(c, r, s.senders[r]), TagOf(c, s.run))
  }

  predicate Enabled(c: Config, s: State, a: Action) {
    |s.senders| == c.ranks &&
    match a
    case Buffer(r) => 1 <= r < c.ranks && s.senders[r].sent < |c.specs| && c.buffers(s.senders[r].sent, r)
    case Recv(r) =>
      && 1 <= r < c.ranks && s.run < |c.specs| && s.count + 1 < c.ranks
      && Candidate(c, s, r) < |Visible(c, r, s.senders[r])|
    case NextRun => s.run < |c.specs| && s.count + 1 >= c.ranks
  }

  /** The sender after its j-th visible message has been taken. */
  function Take(x: Sender, j: nat): Sender {
    if j < |x.pending| then x.(pending := x.pending[..j] + x.pending[j + 1..]) else x.(sent := x.sent + 1)
  }

  /** The receive buffer of run k after rank r's message of run m; another type or length leaves it as it was. */
  ghost function Arrived(c: Config, k: nat, m: nat, r: nat, buffer: seq<Byte>): seq<Byte> {
    if && k < |c.specs| && m < |c.specs| && c.specs[k].layout == c.specs[m].layout && c.specs[k].values == c.specs[m].values
       && |buffer| == c.specs[k].values * c.specs[k].layout.size
    then Receive(c.specs[k].layout, StandardArray(c.specs[m].layout, c.specs[m].values, r), buffer, c.specs[k].values)
    else buffer
  }

  ghost function Apply(c: Config, s: State, a: Action): State
    requires Enabled(c, s, a)
  {
    match a
    case Buffer(r) =>
      var x := s.senders[r];
      s.(senders := s.senders[r := Sender(x.sent + 1, x.pending + [x.sent])])
    case Recv(r) =>
      var j := Candidate(c, s, r);
      var m := Visible(c, r, s.senders[r])[j];
      var buffer := Arrived(c, s.run, m, r, s.buffer);
      var spec := c.specs[s.run];
      State(s.run, s.count + 1, s.got + {r}, buffer,
            s.log + [Receipt(s.run, r, m, Errors(spec.layout, buffer, spec.values, r))],
            s.senders[r := Take(s.senders[r], j)])
    case NextRun => State(s.run + 1, 0, {}, RootBuffer(c, s.run + 1), s.log, s.senders)
  }

  /** A receive logs the run, the status and the errors of what the buffer then holds, tags clashing or not. */
  lemma ReceiptTells(c: Config, s: State, r: nat)
    requires Enabled(c, s, Recv(r))
    ensures var t := Apply(c, s, Recv(r));
      && |t.log| == |s.log| + 1 && t.log[..|s.log|] == s.log
      && var e := t.log[|s.log|];
      && e.run == s.run && e.source == r
      && e.errors == Errors(c.specs[s.run].layout, t.buffer, c.specs[s.run].values, r)
  {
  }

  ghost function Moves(c: Config): (State, Action, State) -> bool {
    (s: State, a: Action, t: State) => Enabled(c, s, a) && t == Apply(c, s, a)
  }

  ghost predicate IsRun(c: Config, r: Run<State, Action>) { Follows(r, Initial(c), Moves(c)) }

  // ---------------------------------------------------------------------------------------
  // Clashing tags
  // ---------------------------------------------------------------------------------------

  /** Rank r can get as far as its send of run b while the root is still in run a, and both have one tag. */
  ghost predicate ClashAt(c: Config, r: nat, a: nat, b: nat) {
    && 1 <= r < c.ranks && a < b < |c.specs| && TagOf(c, a) == TagOf(c, b)
    && forall k: nat :: a < k < b ==> c.buffers(k, r)
  }

  ghost predicate Clash(c: Config) { c.ranks >= 3 && exists r: nat, a: nat, b: nat :: ClashAt(c, r, a, b) }

  // ---------------------------------------------------------------------------------------
  // The invariant
  // ---------------------------------------------------------------------------------------

  function Interval(lo: nat, hi: nat): (ks: seq<nat>)
    ensures |ks| == (if lo < hi then hi - lo else 0) && forall i :: 0 <= i < |ks| ==> ks[i] == lo + i
  {
    if lo < hi then Interval(lo, hi - 1) + [hi - 1] else []
  }

  /** The first run whose message from rank r the root has not received. */
  function Lo(s: State, r: nat): nat { if r in s.got then s.run + 1 else s.run }

  ghost predicate SenderOk(c: Config, s: State, r: nat)
    requires r < |s.senders|
  {
    var x := s.senders[r];
    && Lo(s, r) <= x.sent <= |c.specs|
    && x.pending == Interval(Lo(s, r), x.sent)
    && forall k: nat :: Lo(s, r) <= k < x.sent ==> c.buffers(k, r)
  }

  /** The root's buffer holds its own array, as _init has left it, or that of a rank it has received from. */
  ghost predicate BufferHolds(c: Config, s: State, q: nat)
    requires s.run < |c.specs|
  {
    (if s.got == {} then q == 0 else q in s.got) && s.buffer == StandardArray(c.specs[s.run].layout, c.specs[s.run].values, q)
  }

  ghost predicate RootOk(c: Config, s: State) {
    && s.run <= |c.specs| && s.count == |s.got| && (s.run == |c.specs| ==> s.got == {})
    && (forall r :: r in s.got ==> 1 <= r < c.ranks)
    && (s.run < |c.specs| ==> exists q: nat :: BufferHolds(c, s, q))
  }

  function At(k: nat, r: nat): Receipt -> bool { (e: Receipt) => e.run == k && e.source == r }

  /** Rank r's message of run k has been received. */
  predicate Had(s: State, k: nat, r: nat) { k < s.run || (k == s.run && r in s.got) }

  ghost predicate LogOk(c: Config, s: State) {
    && (forall i :: 0 <= i < |s.log| ==> s.log[i].sent == s.log[i].run && s.log[i].errors == 0)
    && (forall k: nat, r: nat :: k < |c.specs| && 1 <= r < c.ranks ==> Count(At(k, r), s.log) == if Had(s, k, r) then 1 else 0)
  }

  ghost predicate Inv(c: Config, s: State) {
    && |s.senders| == c.ranks && RootOk(c, s) && LogOk(c, s)
    && (forall r :: 1 <= r < c.ranks ==> SenderOk(c, s, r))
  }

  lemma InitialOk(c: Config)
    ensures Inv(c, Initial(c))
  {
    if |c.specs| > 0 { assert BufferHolds(c, Initial(c), 0); }
  }

  lemma SameLog(c: Config, s: State, t: State)
    requires LogOk(c, s) && t.log == s.log && t.run == s.run && t.got == s.got
    ensures LogOk(c, t)
  {
    forall k: nat, r: nat | k < |c.specs| && 1 <= r < c.ranks
      ensures Count(At(k, r), t.log) == if Had(t, k, r) then 1 else 0
    {
      assert Had(t, k, r) == Had(s, k, r);
    }
  }

  lemma BufferKeeps(c: Config, s: State, r: nat)
    requires Inv(c, s) && Enabled(c, s, Buffer(r))
    ensures Inv(c, Apply(c, s, Buffer(r)))
  {
    var t := Apply(c, s, Buffer(r));
    assert LogOk(c, t) by { SameLog(c, s, t); }
    if s.run < |c.specs| {
      var q: nat :| BufferHolds(c, s, q);
      assert BufferHolds(c, t, q);
    }
    forall q | 1 <= q < c.ranks ensures SenderOk(c, t, q) {
      assert SenderOk(c, s, q);
    }
  }

  lemma SomeElement<T>(xs: set<T>, x: T)
    requires x in xs
    ensures |xs| >= 1
  {
  }

  /** Without a clash a receive can only take the message of its own run, and no source twice. */
  lemma TakesOwn(c: Config, s: State, r: nat)
    requires !Clash(c) && Inv(c, s) && Enabled(c, s, Recv(r))
    ensures r !in s.got && Candidate(c, s, r) == 0
    ensures Visible(c, r, s.senders[r])[0] == s.run
  {
    assert SenderOk(c, s, r);
    var ks := Visible(c, r, s.senders[r]);
    assert forall i :: 0 <= i < |ks| ==> ks[i] == Lo(s, r) + i;
    if r in s.got {
      var b := ks[Candidate(c, s, r)];
      assert ClashAt(c, r, s.run, b);
      SomeElement(s.got, r);
      assert false;
    }
  }

  /** The state after the root has received rank r's message of its own run. */
  function OwnReceived(c: Config, s: State, r: nat): State
    requires s.run < |c.specs| && r < |s.senders|
  {
    var spec := c.specs[s.run];
    State(s.run, s.count + 1, s.got + {r}, StandardArray(spec.layout, spec.values, r),
          s.log + [Receipt(s.run, r, s.run, 0)], s.senders[r := Take(s.senders[r], 0)])
  }

  lemma RecvIsOwn(c: Config, s: State, r: nat)
    requires !Clash(c) && Inv(c, s) && Enabled(c, s, Recv(r))
    ensures Apply(c, s, Recv(r)) == OwnReceived(c, s, r)
  {
    TakesOwn(c, s, r);
    var spec := c.specs[s.run];
    var q: nat :| BufferHolds(c, s, q);
    ReceivedOverStandard(spec.layout, spec.values, r, q);
    StandardAccepted(spec.layout, StandardArray(spec.layout, spec.values, r), spec.values, spec.values, r);
  }

  /** The sender whose message has been taken. */
  lemma TakenSender(c: Config, s: State, r: nat)
    requires !Clash(c) && Inv(c, s) && Enabled(c, s, Recv(r))
    ensures SenderOk(c, OwnReceived(c, s, r), r)
  {
    TakesOwn(c, s, r);
    assert SenderOk(c, s, r);
    var x := s.senders[r];
    if |x.pending| > 0 {
      assert x.pending[..0] + x.pending[1..] == Interval(s.run + 1, x.sent);
    }
  }

  lemma OwnSender(c: Config, s: State, r: nat, q: nat)
    requires !Clash(c) && Inv(c, s) && Enabled(c, s, Recv(r)) && 1 <= q < c.ranks
    ensures SenderOk(c, OwnReceived(c, s, r), q)
  {
    if q == r {
      TakenSender(c, s, r);
    } else {
      assert SenderOk(c, s, q);
    }
  }

  lemma OwnLog(c: Config, s: State, r: nat)
    requires Inv(c, s) && s.run < |c.specs| && 1 <= r < c.ranks && r !in s.got
    ensures LogOk(c, OwnReceived(c, s, r))
  {
    var e := Receipt(s.run, r, s.run, 0);
    var t := OwnReceived(c, s, r);
    forall k: nat, q: nat | k < |c.specs| && 1 <= q < c.ranks
      ensures Count(At(k, q), t.log) == if Had(t, k, q) then 1 else 0
    {
      CountSnoc(At(k, q), s.log, e);
      assert Had(t, k, q) == (Had(s, k, q) || (k == s.run && q == r));
    }
  }

  lemma RecvKeeps(c: Config, s: State, r: nat)
    requires !Clash(c) && Inv(c, s) && Enabled(c, s, Recv(r))
    ensures Inv(c, Apply(c, s, Recv(r)))
  {
    RecvIsOwn(c, s, r);
    TakesOwn(c, s, r);
    OwnLog(c, s, r);
    var t := OwnReceived(c, s, r);
    assert BufferHolds(c, t, r);
    forall q | 1 <= q < c.ranks ensures SenderOk(c, t, q) {
      OwnSender(c, s, r, q);
    }
  }

  function Others(n: nat): (rs: set<nat>)
    ensures forall r :: r in rs <==> 1 <= r < n
    ensures |rs| == if n > 0 then n - 1 else 0
  {
    if n <= 1 then {} else Others(n - 1) + {n - 1}
  }

  lemma SubsetSize<T>(xs: set<T>, ys: set<T>)
    requires xs <= ys
    ensures |xs| <= |ys| && (|xs| == |ys| ==> xs == ys)
  {
    assert ys == xs + (ys - xs);
  }

  /** When the root has received comm_size - 1 messages it has one from every other rank. */
  lemma GotAll(c: Config, s: State)
    requires Inv(c, s)
    ensures s.count + 1 >= c.ranks ==> forall r :: 1 <= r < c.ranks ==> r in s.got
    ensures s.count + 1 < c.ranks ==> exists r :: 1 <= r < c.ranks && r !in s.got
  {
    assert s.got <= Others(c.ranks);
    SubsetSize(s.got, Others(c.ranks));
    if s.count + 1 < c.ranks {
      if Others(c.ranks) <= s.got { SubsetSize(Others(c.ranks), s.got); }
      var r :| r in Others(c.ranks) && r !in s.got;
    }
  }

  lemma NextKeeps(c: Config, s: State)
    requires Inv(c, s) && Enabled(c, s, NextRun)
    ensures Inv(c, Apply(c, s, NextRun))
  {
    GotAll(c, s);
    var t := Apply(c, s, NextRun);
    if t.run < |c.specs| { assert BufferHolds(c, t, 0); }
    forall r | 1 <= r < c.ranks ensures SenderOk(c, t, r) {
      assert SenderOk(c, s, r);
    }
    forall k: nat, r: nat | k < |c.specs| && 1 <= r < c.ranks
      ensures Count(At(k, r), t.log) == if Had(t, k, r) then 1 else 0
    {
      assert Had(t, k, r) == Had(s, k, r);
    }
  }

  lemma StepKeeps(c: Config, s: State, a: Action)
    requires !Clash(c) && Inv(c, s) && Enabled(c, s, a)
    ensures Inv(c, Apply(c, s, a))
  {
    match a
    case Buffer(r) => BufferKeeps(c, s, r);
    case Recv(r) => RecvKeeps(c, s, r);
    case NextRun => NextKeeps(c, s);
  }

  // ---------------------------------------------------------------------------------------
  // Progress and termination
  // ---------------------------------------------------------------------------------------

  ghost predicate Stuck(c: Config, s: State) { forall a :: !Enabled(c, s, a) }

  /** A missing sender can buffer its next message, or its message of this run is there to be received. */
  lemma SenderProgress(c: Config, s: State, r: nat) returns (a: Action)
    requires Inv(c, s) && s.run < |c.specs| && s.count + 1 < c.ranks && 1 <= r < c.ranks && r !in s.got
    ensures Enabled(c, s, a)
  {
    assert SenderOk(c, s, r);
    var x := s.senders[r];
    if x.sent < |c.specs| && c.buffers(x.sent, r) {
      a := Buffer(r);
    } else {
      assert Visible(c, r, x)[0] == s.run;
      a := Recv(r);
    }
  }

  lemma Progress(c: Config, s: State) returns (a: Action)
    requires Inv(c, s) && s.run < |c.specs|
    ensures Enabled(c, s, a)
  {
    GotAll(c, s);
    if s.count + 1 >= c.ranks {
      a := NextRun;
    } else {
      var r: nat :| 1 <= r < c.ranks && r !in s.got;
      a := SenderProgress(c, s, r);
    }
  }

  function Weight(c: Config): Sender -> nat {
    (x: Sender) => (if x.sent < |c.specs| then 2 * (|c.specs| - x.sent) else 0) + |x.pending|
  }

  function Measure(c: Config): State -> nat {
    (s: State) => (if s.run < |c.specs| then |c.specs| - s.run else 0) + Sum(Weight(c), s.senders)
  }

  lemma MeasureDrops(c: Config, s: State, a: Action)
    requires Enabled(c, s, a)
    ensures Measure(c)(Apply(c, s, a)) < Measure(c)(s)
  {
    match a
    case Buffer(r) => SumUpdate(Weight(c), s.senders, r, Apply(c, s, a).senders[r]);
    case Recv(r) => SumUpdate(Weight(c), s.senders, r, Apply(c, s, a).senders[r]);
    case NextRun =>
  }

  // ---------------------------------------------------------------------------------------
  // Theorems about runs
  // ---------------------------------------------------------------------------------------

  /** The protocol with its invariant, which needs tags that do not clash, and its measure, which does not. */
  ghost function Protocol(c: Config): System<State, Action> {
    System(Initial(c), Moves(c), (s: State) => !Clash(c) ==> Inv(c, s), Measure(c), (a: Action) => false)
  }

  lemma ProtocolSound(c: Config)
    ensures Sound(Protocol(c))
  {
    InitialOk(c);
    forall s, a, t | Moves(c)(s, a, t)
      ensures (!Clash(c) && Inv(c, s) ==> Inv(c, t)) && Measure(c)(t) < Measure(c)(s)
    {
      MeasureDrops(c, s, a);
      if !Clash(c) && Inv(c, s) { StepKeeps(c, s, a); }
    }
  }

  lemma RunInv(c: Config, r: Run<State, Action>)
    requires !Clash(c) && IsRun(c, r)
    ensures forall k :: 0 <= k < |r.states| ==> Inv(c, r.states[k])
  {
    ProtocolSound(c);
    SystemInvariant(Protocol(c), r);
  }

  /** Whatever the tags are, no run goes on forever. */
  lemma RunsAreBounded(c: Config, r: Run<State, Action>)
    requires IsRun(c, r)
    ensures |r.actions| <= Measure(c)(Initial(c))
  {
    ProtocolSound(c);
    SystemBounded(Protocol(c), r);
    CountNone(Protocol(c).spurious, r.actions);
  }

  /** Every message has been received in its own run. */
  predicate MatchesOwn(s: State) { forall i :: 0 <= i < |s.log| ==> s.log[i].sent == s.log[i].run }

  predicate NoErrors(s: State) { forall i :: 0 <= i < |s.log| ==> s.log[i].errors == 0 }

  lemma RunsAreSafe(c: Config, r: Run<State, Action>, k: nat)
    requires !Clash(c) && IsRun(c, r) && k < |r.states|
    ensures MatchesOwn(r.states[k]) && NoErrors(r.states[k])
    ensures r.states[k].run < |c.specs| ==> exists q: nat :: BufferHolds(c, r.states[k], q)
  {
    RunInv(c, r);
    assert LogOk(c, r.states[k]);
  }

  /** The root is through, nothing is left over, and each run has received each other rank's message exactly once. */
  ghost predicate Complete(c: Config, s: State) {
    && s.run == |c.specs| && |s.senders| == c.ranks
    && (forall r :: 1 <= r < c.ranks ==> s.senders[r] == Sender(|c.specs|, []))
    && (forall k: nat, r: nat :: k < |c.specs| && 1 <= r < c.ranks ==> Count(At(k, r), s.log) == 1)
    && MatchesOwn(s) && NoErrors(s)
  }

  lemma StuckRunsAreComplete(c: Config, r: Run<State, Action>)
    requires !Clash(c) && IsRun(c, r) && Stuck(c, r.Last())
    ensures Complete(c, r.Last())
  {
    RunInv(c, r);
    var s := r.Last();
    if s.run < |c.specs| {
      var a := Progress(c, s);
    }
    forall q | 1 <= q < c.ranks ensures s.senders[q] == Sender(|c.specs|, []) {
      assert SenderOk(c, s, q);
    }
  }

  /** Without a clash every run can go on until it is complete. */
  lemma EveryRunEnds(c: Config, r: Run<State, Action>) returns (q: Run<State, Action>)
    requires !Clash(c) && IsRun(c, r)
    ensures IsRun(c, q) && Extends(q, r) && Stuck(c, q.Last())
    ensures Complete(c, q.Last())
  {
    ProtocolSound(c);
    q := RunOn(Protocol(c), r);
    forall a ensures !Enabled(c, q.Last(), a) {
      if Enabled(c, q.Last(), a) { HaltedStep(Protocol(c), q.Last(), a, Apply(c, q.Last(), a)); }
    }
    StuckRunsAreComplete(c, q);
  }

  // ---------------------------------------------------------------------------------------
  // The root's loop over one run
  // ---------------------------------------------------------------------------------------

  /** MPI_Recv of a message into the start of the buffer. */
  method RecvInto(l: Layout, n: nat, total: nat, message: seq<Byte>, buffer: array<Byte>)
    requires n <= total && buffer.Length == total * l.size && |message| == n * l.size <= buffer.Length
    modifies buffer
    ensures buffer[..n * l.size] == Receive(l, message, old(buffer[..n * l.size]), n)
  {
    var received := Receive(l, message, buffer[..n * l.size], n);
    var k := 0;
    while k < |received|
      invariant 0 <= k <= |received|
      invariant buffer[..k] == received[..k]
    {
      buffer[k] := received[k];
      k := k + 1;
    }
  }

  /**
   * The loop of _run on the root, for the sources the messages of its run come from: the status check
   * fails on a source that is not another rank; otherwise every array passes, and the buffer, reused
   * from message to message, ends as the last sender's array.
   */
  method RootLoop(l: Layout, n: nat, ranks: nat, sources: seq<nat>, buffer: array<Byte>) returns (failed: bool, errors: nat)
    requires Oracle.Valid(l) && buffer.Length == (n + OVERHEAD) * l.size && n * l.size <= buffer.Length
    requires buffer[..n * l.size] == StandardArray(l, n, 0)
    modifies buffer
    ensures failed <==> exists i :: 0 <= i < |sources| && !(0 < sources[i] < ranks)
    ensures !failed ==> errors == 0
    ensures !failed ==> buffer[..n * l.size] == StandardArray(l, n, if sources == [] then 0 else sources[|sources| - 1])
  {
    failed, errors := false, 0;
    var rank := 0;
    ghost var last := 0;
    while rank < |sources|
      invariant 0 <= rank <= |sources| && errors == 0 && last == if rank == 0 then 0 else sources[rank - 1]
      invariant forall i :: 0 <= i < rank ==> 0 < sources[i] < ranks
      invariant buffer[..n * l.size] == StandardArray(l, n, last)
    {
      ReceivedOverStandard(l, n, sources[rank], last);
      RecvInto(l, n, n + OVERHEAD, StandardArray(l, n, sources[rank]), buffer);
      if sources[rank] <= 0 || sources[rank] > ranks - 1 {
        return true, errors;
      }
      StandardAccepted(l, buffer[..], n, n + OVERHEAD, sources[rank]);
      assert buffer[..][..n * l.size] == buffer[..n * l.size];
      var found := CheckStandardArray(l, n, buffer, n + OVERHEAD, sources[rank]);
      errors := errors + found;
      last := sources[rank];
      rank := rank + 1;
    }
  }

  // ---------------------------------------------------------------------------------------
  // What a clash does
  // ---------------------------------------------------------------------------------------

  lemma Extend(c: Config, r: Run<State, Action>, a: Action) returns (q: Run<State, Action>)
    requires IsRun(c, r) && Enabled(c, r.Last(), a)
    ensures IsRun(c, q) && q.Last() == Apply(c, r.Last(), a)
  {
    var t := Apply(c, r.Last(), a);
    LongerFollows(r, Initial(c), Moves(c), a, t);
    q := Longer(r, a, t);
  }

  /** Rank r's message of the root's run is sent and received. */
  lemma ServeOne(c: Config, q: Run<State, Action>, r: nat) returns (q': Run<State, Action>)
    requires IsRun(c, q) && q.Last().run < |c.specs| && q.Last().count + 1 < c.ranks && |q.Last().senders| == c.ranks
    requires 1 <= r < c.ranks && q.Last().senders[r] == Sender(q.Last().run, [])
    ensures IsRun(c, q') && q'.Last().run == q.Last().run && q'.Last().count == q.Last().count + 1
    ensures q'.Last().senders == q.Last().senders[r := Sender(q.Last().run + 1, [])]
  {
    q' := q;
    if c.buffers(q.Last().run, r) {
      q' := Extend(c, q', Buffer(r));
    }
    var x := q'.Last().senders[r];
    assert Visible(c, r, x)[0] == q.Last().run;
    assert Take(x, 0) == Sender(q.Last().run + 1, []);
    q' := Extend(c, q', Recv(r));
  }

  /** In run k the messages of the ranks below q have been received, and nobody is ahead. */
  predicate Lockstep(c: Config, s: State, k: nat, q: nat) {
    && s.run == k && s.count + 1 == q && |s.senders| == c.ranks
    && forall r :: 1 <= r < c.ranks ==> s.senders[r] == Sender(if r < q then k + 1 else k, [])
  }

  /** Whatever the tags are, the runs can go rank by rank. */
  lemma Reach(c: Config, k: nat, q: nat) returns (r: Run<State, Action>)
    requires k < |c.specs| && 1 <= q <= c.ranks
    ensures IsRun(c, r) && Lockstep(c, r.Last(), k, q)
    decreases k, q
  {
    if q > 1 {
      r := Reach(c, k, q - 1);
      r := ServeOne(c, r, q - 1);
    } else if k > 0 {
      r := Reach(c, k - 1, c.ranks);
      r := Extend(c, r, NextRun);
    } else {
      r := Run([Initial(c)], []);
    }
  }

  /** Rank r has gone beyond run a. */
  predicate Beyond(c: Config, s: State, r: nat, a: nat) {
    && r < c.ranks == |s.senders| && s.senders[r].sent > a
    && forall i :: 0 <= i < |s.senders[r].pending| ==> s.senders[r].pending[i] > a
  }

  /** Rank r buffers its messages up to that of run b. */
  lemma BufferUpTo(c: Config, q: Run<State, Action>, r: nat, a: nat, b: nat) returns (q': Run<State, Action>)
    requires IsRun(c, q) && 1 <= r && Beyond(c, q.Last(), r, a) && q.Last().senders[r].sent <= b < |c.specs|
    requires forall k: nat :: q.Last().senders[r].sent <= k < b ==> c.buffers(k, r)
    ensures IsRun(c, q') && q'.Last().run == q.Last().run && q'.Last().count == q.Last().count
    ensures Beyond(c, q'.Last(), r, a) && q'.Last().senders[r].sent == b
    decreases b - q.Last().senders[r].sent
  {
    q' := q;
    if q.Last().senders[r].sent < b {
      q' := Extend(c, q, Buffer(r));
      q' := BufferUpTo(c, q', r, a, b);
    }
  }

  /** The root, still in run a, can now take a later message of rank r. */
  lemma TakesLater(c: Config, q: Run<State, Action>, r: nat, b: nat) returns (q': Run<State, Action>)
    requires IsRun(c, q) && q.Last().run < b < |c.specs| && q.Last().count + 1 < c.ranks
    requires 1 <= r && Beyond(c, q.Last(), r, q.Last().run) && q.Last().senders[r].sent == b
    requires TagOf(c, b) == TagOf(c, q.Last().run)
    ensures IsRun(c, q') && !MatchesOwn(q'.Last())
  {
    q' := q;
    if c.buffers(b, r) { q' := Extend(c, q, Buffer(r)); }
    var x := q'.Last().senders[r];
    var ks := Visible(c, r, x);
    assert ks[|q.Last().senders[r].pending|] == b;
    assert forall i :: 0 <= i < |ks| ==> ks[i] > q.Last().run;
    var n := |q'.Last().log|;
    q' := Extend(c, q', Recv(r));
    assert q'.Last().log[n].sent > q'.Last().log[n].run;
  }

  lemma ClashShows(c: Config) returns (q: Run<State, Action>)
    requires Clash(c)
    ensures IsRun(c, q) && !MatchesOwn(q.Last())
  {
    var r: nat, a: nat, b: nat :| ClashAt(c, r, a, b);
    q := Reach(c, a, 1);
    q := ServeOne(c, q, r);
    q := BufferUpTo(c, q, r, a, b);
    q := TakesLater(c, q, r, b);
  }

  ghost predicate EveryRunMatches(c: Config) {
    forall r :: IsRun(c, r) ==> r.WellFormed() && MatchesOwn(r.Last())
  }

  /** Exactly when no tags clash is every message received in its own run, whatever the interleaving. */
  lemma RunsMatchIff(c: Config)
    ensures EveryRunMatches(c) <==> !Clash(c)
  {
    if Clash(c) {
      var q := ClashShows(c);
    } else {
      forall r | IsRun(c, r) ensures r.WellFormed() && MatchesOwn(r.Last()) {
        RunsAreSafe(c, r, |r.actions|);
      }
    }
  }

  // ---------------------------------------------------------------------------------------
  // The tags of the driver
  // ---------------------------------------------------------------------------------------

  function SpecTags(specs: seq<Spec>): (ts: seq<nat>)
    ensures |ts| == |specs| && forall i :: 0 <= i < |specs| ==> ts[i] == specs[i].tag
  {
    seq(|specs|, i requires 0 <= i < |specs| => specs[i].tag)
  }

  lemma DistinctNeverClash(c: Config)
    requires Distinct(SpecTags(c.specs))
    ensures !Clash(c)
  {
    forall r: nat, a: nat, b: nat ensures !ClashAt(c, r, a, b) {
      if a < b < |c.specs| { assert SpecTags(c.specs)[a] != SpecTags(c.specs)[b]; }
    }
  }

  /** Two adjacent runs with one tag clash whether or not sends are buffered. */
  lemma AdjacentClash(c: Config, a: nat)
    requires c.ranks >= 3 && a + 1 < |c.specs| && TagOf(c, a) == TagOf(c, a + 1)
    ensures Clash(c)
  {
    assert ClashAt(c, 1, a, a + 1);
  }

  /** The runs the driver makes of this test on one communicator. */
  function DriverSpecs(comm: nat, test: nat, ub: nat, types: seq<nat>, values: seq<nat>, layouts: nat -> Layout): (ss: seq<Spec>)
    requires ub > 0
    ensures SpecTags(ss) == Tags(comm, test, ub, Passes(types, values))
  {
    var ps := Passes(types, values);
    seq(|ps|, i requires 0 <= i < |ps| => Spec(Hash(comm, ps[i].typ, test, ub), layouts(ps[i].typ), ps[i].values))
  }

  /** The run of type number i and values number j. */
  lemma DriverSpecAt(comm: nat, test: nat, ub: nat, types: seq<nat>, values: seq<nat>, layouts: nat -> Layout, i: nat, j: nat)
    requires ub > 0 && i < |types| && j < |values|
    ensures var ss := DriverSpecs(comm, test, ub, types, values, layouts);
      && |ss| == |types| * |values| && i * |values| + j < |ss|
      && ss[i * |values| + j] == Spec(Hash(comm, types[i], test, ub), layouts(types[i]), values[j])
  {
    PassAt(types, values, i, j);
  }

  /** Whichever sends are buffered, every run matches. */
  ghost predicate AlwaysMatches(ranks: nat, specs: seq<Spec>) {
    forall buffers: (nat, nat) -> bool :: EveryRunMatches(Config(ranks, specs, buffers))
  }

  lemma NeverMismatches(c: Config)
    requires c.ranks <= 2 || Distinct(SpecTags(c.specs))
    ensures EveryRunMatches(c)
  {
    RunsMatchIff(c);
    if c.ranks >= 3 { DistinctNeverClash(c); }
  }

  /** A library is only safe from mismatches when there are at most two ranks or no two runs share a tag. */
  lemma AlwaysMatchesIff(ranks: nat, specs: seq<Spec>)
    ensures AlwaysMatches(ranks, specs) <==> ranks <= 2 || Distinct(SpecTags(specs))
  {
    if ranks <= 2 || Distinct(SpecTags(specs)) {
      forall buffers: (nat, nat) -> bool ensures EveryRunMatches(Config(ranks, specs, buffers)) {
        NeverMismatches(Config(ranks, specs, buffers));
      }
    } else {
      var c := Config(ranks, specs, (k: nat, r: nat) => true);
      var a, b :| 0 <= a < b < |SpecTags(specs)| && SpecTags(specs)[a] == SpecTags(specs)[b];
      assert ClashAt(c, 1, a, b);
      RunsMatchIff(c);
    }
  }

  /**
   * The hash does what the test table says of it (no synchronization needed) exactly when there are
   * at most two ranks, or a single values_num and types that tst_tag_ub separates.
   */
  lemma DriverRunsMatch(ranks: nat, comm: nat, test: nat, ub: nat, types: seq<nat>, values: seq<nat>, layouts: nat -> Layout)
    requires ub > 0 && types != [] && values != []
    ensures AlwaysMatches(ranks, DriverSpecs(comm, test, ub, types, values, layouts)) <==>
      ranks <= 2 || (|values| == 1 && Separates(ub, types))
  {
    AlwaysMatchesIff(ranks, DriverSpecs(comm, test, ub, types, values, layouts));
    DriverTagsDistinct(comm, test, ub, types, values);
  }

  /**
   * The hash does not depend on values_num: with three ranks and several of them the root may take a
   * message of the next run even if no send is buffered.
   */
  lemma SeveralValuesMismatch(c: Config, comm: nat, test: nat, ub: nat, types: seq<nat>, values: seq<nat>, layouts: nat -> Layout)
    requires ub > 0 && types != [] && |values| >= 2 && c.ranks >= 3
    requires c.specs == DriverSpecs(comm, test, ub, types, values, layouts)
    ensures !EveryRunMatches(c)
  {
    AdjacentShare(comm, test, ub, types, values);
    assert SpecTags(c.specs)[0] == SpecTags(c.specs)[1];
    AdjacentClash(c, 0);
    RunsMatchIff(c);
  }
}
