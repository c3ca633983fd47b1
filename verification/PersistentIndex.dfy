/**
 * p2p/tst_p2p_alltoall_persistent.c: _init and _run walk over the ranks in the same order with a
 * cursor into the request array; where the rank is the caller's own, the walk passes over all sends.
 * Nothing but that order says which request, and so which status, belongs to which rank.
 */
module PersistentIndex {
  import opened Oracle

  /** slot is the entry of recv_buffer_array a receive goes to. */
  datatype Request = Null | SendInit(dest: nat) | RecvInit(slot: nat, source: nat)
  datatype Status = Status(cancelled: bool, source: nat, tag: nat)

  /** How many of the ranks below k are not me. */
  function OthersBelow(me: nat, k: nat): nat { if k <= me then k else k - 1 }

  /** Where the request of the send to dest and of the receive from source lie, for rank me of n. */
  function SendIndex(me: nat, dest: nat): nat { me + OthersBelow(me, dest) }
  function RecvIndex(n: nat, me: nat, source: nat): nat
    requires me < n
  {
    if source < me then source else OthersBelow(me, source) + n - 1
  }

  /** The cursor before rank k is treated. */
  function Cursor(n: nat, me: nat, k: nat): nat
    requires me < n
  {
    if k <= me then k else OthersBelow(me, k) + n - 1
  }

  /** The requests _init makes are 2 * (n - 1), one for each send and each receive, with none in common. */
  predicate Filled(n: nat, me: nat, rs: seq<Request>)
    requires me < n
  {
    && |rs| >= 2 * (n - 1)
    && (forall d :: 0 <= d < n && d != me ==> SendIndex(me, d) < |rs| && rs[SendIndex(me, d)] == SendInit(d))
    && (forall q :: 0 <= q < n && q != me ==> RecvIndex(n, me, q) < |rs| && rs[RecvIndex(n, me, q)] == RecvInit(q, q))
  }

  /**
   * The receives from the ranks below me come first, then all sends, then the receives from the ranks
   * above me, each in ascending order and with the source's own buffer.
   */
  predicate PlacedFor(n: nat, me: nat, rs: seq<Request>, k: nat)
    requires me < n && |rs| >= 2 * (n - 1) && k < n
  {
    if k < me then rs[k] == RecvInit(k, k) && rs[me + k] == SendInit(k)
    else if k > me then rs[me + k - 1] == SendInit(k) && rs[n - 2 + k] == RecvInit(k, k)
    else true
  }

  predicate AllPlaced(n: nat, me: nat, rs: seq<Request>)
    requires me < n && |rs| >= 2 * (n - 1)
  {
    forall k :: 0 <= k < n ==> PlacedFor(n, me, rs, k)
  }

  lemma FilledMeans(n: nat, me: nat, rs: seq<Request>)
    requires me < n && |rs| >= 2 * (n - 1)
    ensures Filled(n, me, rs) <==> AllPlaced(n, me, rs)
  {
    forall k | 0 <= k < n && k != me
      ensures PlacedFor(n, me, rs, k) <==> rs[SendIndex(me, k)] == SendInit(k) && rs[RecvIndex(n, me, k)] == RecvInit(k, k)
    {
    }
  }

  lemma IndexInjective(n: nat, me: nat, p: nat, q: nat)
    requires p < n && q < n && me < n && p != me && q != me
    ensures SendIndex(me, p) == SendIndex(me, q) <==> p == q
    ensures RecvIndex(n, me, p) == RecvIndex(n, me, q) <==> p == q
    ensures SendIndex(me, p) != RecvIndex(n, me, q)
  {
  }

  /** Entry i is the request of the send to d, or of the receive from d. */
  predicate IsSendTo(n: nat, me: nat, d: nat, i: nat) { d < n && d != me && SendIndex(me, d) == i }
  predicate IsRecvFrom(n: nat, me: nat, d: nat, i: nat)
    requires me < n
  {
    d < n && d != me && RecvIndex(n, me, d) == i
  }

  /** Every one of the first 2 * (n - 1) entries is the request of one send or of one receive, and of no other. */
  lemma EveryIndexUsed(n: nat, me: nat, i: nat) returns (d: nat)
    requires me < n && i < 2 * (n - 1)
    ensures if me <= i < me + n - 1 then IsSendTo(n, me, d, i) else IsRecvFrom(n, me, d, i)
    ensures forall e: nat :: IsSendTo(n, me, e, i) ==> me <= i < me + n - 1 && e == d
    ensures forall e: nat :: IsRecvFrom(n, me, e, i) ==> !(me <= i < me + n - 1) && e == d
  {
    d := if i < me then i
         else if i < me + n - 1 then (if i - me < me then i - me else i - me + 1)
         else i - n + 2;
    forall e: nat | IsSendTo(n, me, e, i) || IsRecvFrom(n, me, e, i) ensures e == d {
      IndexInjective(n, me, e, d);
      IndexInjective(n, me, d, e);
    }
  }

  /** The inner loop of _init over the destinations. */
  method InitSends(n: nat, me: nat, requests: array<Request>, start: nat) returns (current: nat)
    requires me < n && requests.Length == 2 * n && start == me
    modifies requests
    ensures current == start + n - 1
    ensures forall d :: 0 <= d < n && d != me ==> requests[SendIndex(me, d)] == SendInit(d)
    ensures forall i :: 0 <= i < requests.Length && !(start <= i < current) ==> requests[i] == old(requests[i])
  {
    current := start;
    var i := 0;
    while i < n
      invariant 0 <= i <= n && current == start + OthersBelow(me, i)
      invariant forall d :: 0 <= d < i && d != me ==> requests[SendIndex(me, d)] == SendInit(d)
      invariant forall k :: 0 <= k < requests.Length && !(start <= k < current) ==> requests[k] == old(requests[k])
    {
      if i != me {
        requests[current] := SendInit(i);
        current := current + 1;
      }
      i := i + 1;
    }
  }

  /** The loops of _init stay within req_buffer and leave every request in its place. */
  method Init(n: nat, me: nat, requests: array<Request>)
    requires me < n && requests.Length == 2 * n
    modifies requests
    ensures Filled(n, me, requests[..2 * (n - 1)])
    ensures AllPlaced(n, me, requests[..2 * (n - 1)])
  {
    var current, rank := 0, 0;
    while rank < n
      invariant 0 <= rank <= n && current == Cursor(n, me, rank)
      invariant rank > me ==> forall d :: 0 <= d < n && d != me ==> requests[SendIndex(me, d)] == SendInit(d)
      invariant forall q :: 0 <= q < rank && q != me ==> requests[RecvIndex(n, me, q)] == RecvInit(q, q)
    {
      requests[current] := Null;
      if rank == me {
        current := InitSends(n, me, requests, current);
      } else {
        requests[current] := RecvInit(rank, rank);
        current := current + 1;
      }
      rank := rank + 1;
    }
    FilledMeans(n, me, requests[..2 * (n - 1)]);
  }

  /** What MPI_Waitall leaves in the status of a request: for a receive the source and the tag of the message. */
  predicate Reports(st: Status, r: Request, tag: nat) {
    !st.cancelled && (r.RecvInit? ==> st.source == r.source && st.tag == tag)
  }

  /** No request was cancelled, and the status at each receive's index names the source of that receive. */
  predicate StatusesOk(n: nat, me: nat, ss: seq<Status>, tag: nat)
    requires me < n && |ss| == 2 * (n - 1)
  {
    && (forall i :: 0 <= i < |ss| ==> !ss[i].cancelled)
    && (forall q :: 0 <= q < n && q != me ==> ss[RecvIndex(n, me, q)].source == q && ss[RecvIndex(n, me, q)].tag == tag)
  }

  /** The status of the receive from q names q. */
  predicate StatusNames(n: nat, me: nat, ss: seq<Status>, tag: nat, q: nat)
    requires me < n && |ss| == 2 * (n - 1) && q < n && q != me
  {
    var st := ss[if q < me then q else n - 2 + q];
    st.source == q && st.tag == tag
  }

  lemma StatusesMean(n: nat, me: nat, ss: seq<Status>, tag: nat)
    requires me < n && |ss| == 2 * (n - 1)
    ensures StatusesOk(n, me, ss, tag) <==>
      (forall i :: 0 <= i < |ss| ==> !ss[i].cancelled) && forall q :: 0 <= q < n && q != me ==> StatusNames(n, me, ss, tag, q)
  {
    forall q | 0 <= q < n && q != me
      ensures StatusNames(n, me, ss, tag, q) <==>
        ss[RecvIndex(n, me, q)].source == q && ss[RecvIndex(n, me, q)].tag == tag
    {
    }
  }

  function ErrorsBelow(l: Layout, values: nat, me: nat, buffers: seq<seq<Byte>>, k: nat): nat
    requires k <= |buffers|
  {
    if k == 0 then 0
    else ErrorsBelow(l, values, me, buffers, k - 1) + (if k - 1 == me then 0 else Errors(l, buffers[k - 1], values, k - 1))
  }

  /** The inner loop of _run. */
  method CheckSends(n: nat, me: nat, statuses: array<Status>, start: nat) returns (good: bool)
    requires me < n && statuses.Length == 2 * (n - 1) && start == me
    ensures good <==> forall i :: start <= i < start + n - 1 ==> !statuses[i].cancelled
  {
    var current, i := start, 0;
    while i < n
      invariant 0 <= i <= n && current == start + OthersBelow(me, i)
      invariant forall k :: start <= k < current ==> !statuses[k].cancelled
    {
      if i != me {
        if statuses[current].cancelled { return false; }
        current := current + 1;
      }
      i := i + 1;
    }
    return true;
  }

  /** The traversal of _run fails (None) unless every status is the one of the rank it is checked for. */
  method Check(l: Layout, values: nat, n: nat, me: nat, statuses: array<Status>, buffers: seq<seq<Byte>>, tag: nat)
    returns (ok: bool, errors: nat)
    requires me < n && statuses.Length == 2 * (n - 1) && |buffers| == n
    ensures ok <==> StatusesOk(n, me, statuses[..], tag)
    ensures ok ==> errors == ErrorsBelow(l, values, me, buffers, n)
  {
    errors := 0;
    var current, rank := 0, 0;
    while rank < n
      invariant 0 <= rank <= n && current == Cursor(n, me, rank)
      invariant forall i :: 0 <= i < current ==> !statuses[i].cancelled
      invariant forall q :: 0 <= q < rank && q != me ==>
        statuses[RecvIndex(n, me, q)].source == q && statuses[RecvIndex(n, me, q)].tag == tag
      invariant errors == ErrorsBelow(l, values, me, buffers, rank)
    {
      if rank == me {
        var good := CheckSends(n, me, statuses, current);
        if !good { return false, errors; }
        current := current + n - 1;
      } else {
        assert current == RecvIndex(n, me, rank);
        if statuses[current].cancelled { return false, errors; }
        if statuses[current].source != rank || statuses[current].tag != tag { return false, errors; }
        current := current + 1;
        errors := errors + Errors(l, buffers[rank], values, rank);
      }
      rank := rank + 1;
    }
    return true, errors;
  }

  /**
   * _init and _run agree on the index of every rank's receive: statuses that report on the requests
   * of _init, one by one, pass the traversal of _run.
   */
  lemma RunReadsWhatInitWrote(n: nat, me: nat, rs: seq<Request>, ss: seq<Status>, tag: nat)
    requires me < n && |ss| == 2 * (n - 1) && Filled(n, me, rs)
    requires forall i :: 0 <= i < |ss| ==> Reports(ss[i], rs[i], tag)
    ensures StatusesOk(n, me, ss, tag)
  {
    forall q | 0 <= q < n && q != me ensures ss[RecvIndex(n, me, q)].source == q && ss[RecvIndex(n, me, q)].tag == tag {
      assert Reports(ss[RecvIndex(n, me, q)], rs[RecvIndex(n, me, q)], tag);
    }
  }

  /** And a status of the wrong receive never does. */
  lemma SwappedStatusFails(n: nat, me: nat, ss: seq<Status>, tag: nat, p: nat, q: nat)
    requires me < n && |ss| == 2 * (n - 1) && p < n && q < n && p != me && q != me && p != q
    requires StatusesOk(n, me, ss, tag)
    ensures !StatusesOk(n, me, ss[RecvIndex(n, me, p) := ss[RecvIndex(n, me, q)]], tag)
  {
    var t := ss[RecvIndex(n, me, p) := ss[RecvIndex(n, me, q)]];
    assert t[RecvIndex(n, me, p)].source == q;
  }

  /** No error is counted exactly when every other rank's array is right. */
  lemma {:induction false} NoErrorsBelow(l: Layout, values: nat, me: nat, buffers: seq<seq<Byte>>, k: nat)
    requires k <= |buffers|
    ensures ErrorsBelow(l, values, me, buffers, k) == 0 <==>
      forall q :: 0 <= q < k && q != me ==> Errors(l, buffers[q], values, q) == 0
  {
    if k > 0 { NoErrorsBelow(l, values, me, buffers, k - 1); }
  }

  /** Only the arrays below k count, and not the own one. */
  lemma {:induction false} ErrorsElsewhere(l: Layout, values: nat, me: nat, buffers: seq<seq<Byte>>, k: nat, q: nat, b: seq<Byte>)
    requires q < |buffers| && k <= |buffers| && (k <= q || q == me)
    ensures ErrorsBelow(l, values, me, buffers[q := b], k) == ErrorsBelow(l, values, me, buffers, k)
  {
    if k > 0 { ErrorsElsewhere(l, values, me, buffers, k - 1, q, b); }
  }

  /** Each array counts with its own errors: another one in its place changes the count by the difference. */
  lemma {:induction false} ErrorsCount(l: Layout, values: nat, me: nat, buffers: seq<seq<Byte>>, k: nat, q: nat, b: seq<Byte>)
    requires q < k <= |buffers| && q != me
    ensures ErrorsBelow(l, values, me, buffers[q := b], k) ==
      ErrorsBelow(l, values, me, buffers, k) - Errors(l, buffers[q], values, q) + Errors(l, b, values, q)
  {
    if q < k - 1 {
      ErrorsCount(l, values, me, buffers, k - 1, q, b);
    } else {
      ErrorsElsewhere(l, values, me, buffers, q, q, b);
    }
  }

  /** Once every receive has delivered its source's array, the check counts no error. */
  lemma DeliveredChecks(l: Layout, values: nat, me: nat, buffers: seq<seq<Byte>>, k: nat)
    requires k <= |buffers|
    requires forall q :: 0 <= q < k && q != me ==> buffers[q] == Delivered(l, values, q)
    ensures ErrorsBelow(l, values, me, buffers, k) == 0
  {
    forall q | 0 <= q < k && q != me ensures Errors(l, buffers[q], values, q) == 0 {
      DeliveredPasses(l, values, q);
    }
    NoErrorsBelow(l, values, me, buffers, k);
  }
}
