/** Buffers made of equal parts: the partitions of a message, the elements of an array. */
module Buffers {
  import Products

  /** Partition t of a buffer of n partitions of size bytes. */
  predicate InBounds<T>(b: seq<T>, t: nat, size: nat) { (t + 1) * size <= |b| && 0 <= t * size <= (t + 1) * size }

  function Part<T>(b: seq<T>, t: nat, size: nat): seq<T>
  {
    if InBounds(b, t, size) then b[t * size..(t + 1) * size] else []
  }

  /** memcpy of partition t from src to dst. */
  function CopyPart<T>(dst: seq<T>, src: seq<T>, t: nat, size: nat): (r: seq<T>)
    ensures |r| == |dst|
  {
    if InBounds(dst, t, size) && InBounds(src, t, size)
    then dst[..t * size] + src[t * size..(t + 1) * size] + dst[(t + 1) * size..]
    else dst
  }

  lemma PartBounds<T>(b: seq<T>, n: nat, t: nat, size: nat)
    requires |b| == n * size && t < n
    ensures InBounds(b, t, size)
  {
    Products.Ordered(t + 1, n, size);
    Products.Ordered(t, t + 1, size);
  }

  /** Partitions lie one after the other. */
  lemma PartsApart(t: nat, u: nat, size: nat)
    requires t < u
    ensures (t + 1) * size <= u * size
  {
    Products.Ordered(t + 1, u, size);
  }

  /** Replacing the bytes [lo, hi) leaves a slice on either side alone. */
  lemma ReplacedRange<T>(dst: seq<T>, mid: seq<T>, lo: nat, hi: nat, a: nat, b: nat)
    requires lo <= hi <= |dst| && |mid| == hi - lo && a <= b <= |dst|
    requires b <= lo || hi <= a
    ensures (dst[..lo] + mid + dst[hi..])[a..b] == dst[a..b]
  {
  }

  /** Replacing part t by mid leaves the other parts alone. */
  lemma PutPart<T>(dst: seq<T>, mid: seq<T>, n: nat, t: nat, u: nat, size: nat)
    requires |dst| == n * size && t < n && u < n && |mid| == size
    ensures t * size + size <= |dst|
    ensures Part(dst[..t * size] + mid + dst[t * size + size..], u, size) == if u == t then mid else Part(dst, u, size)
  {
    PartBounds(dst, n, t, size);
    PartBounds(dst, n, u, size);
    Products.Distributes(t, 1, size);
    var lo, hi := t * size, (t + 1) * size;
    if u == t {
      assert (dst[..lo] + mid + dst[hi..])[lo..hi] == mid;
    } else {
      if u < t { PartsApart(u, t, size); } else { PartsApart(t, u, size); }
      ReplacedRange(dst, mid, lo, hi, u * size, (u + 1) * size);
    }
  }

  /** Copies of different partitions do not overlap. */
  lemma CopyOnlyPart<T>(dst: seq<T>, src: seq<T>, n: nat, t: nat, u: nat, size: nat)
    requires |dst| == |src| == n * size && t < n && u < n
    ensures Part(CopyPart(dst, src, t, size), u, size) == if u == t then Part(src, t, size) else Part(dst, u, size)
  {
    PartBounds(dst, n, t, size);
    PartBounds(dst, n, u, size);
    var lo, hi := t * size, (t + 1) * size;
    if u == t {
      assert (dst[..lo] + src[lo..hi] + dst[hi..])[lo..hi] == src[lo..hi];
    } else {
      if u < t { PartsApart(u, t, size); } else { PartsApart(t, u, size); }
      ReplacedRange(dst, src[lo..hi], lo, hi, u * size, (u + 1) * size);
    }
  }

  /** The transfer of partition t from src to dst, of which the bytes in gaps are no part. */
  function OverlayPart<T>(dst: seq<T>, src: seq<T>, t: nat, size: nat, gap: nat -> bool): (r: seq<T>)
    ensures |r| == |dst|
  {
    seq(|dst|, k requires 0 <= k < |dst| => if t * size <= k < (t + 1) * size && k < |src| && !gap(k) then src[k] else dst[k])
  }

  lemma OverlayElsewhere<T>(dst: seq<T>, src: seq<T>, n: nat, t: nat, u: nat, size: nat, gap: nat -> bool)
    requires |dst| == n * size && t < n && u < n && u != t
    ensures Part(OverlayPart(dst, src, t, size, gap), u, size) == Part(dst, u, size)
  {
    PartBounds(dst, n, u, size);
    if u < t { PartsApart(u, t, size); } else { PartsApart(t, u, size); }
  }

  /** Buffers whose partition t is the same agree on each byte of it. */
  lemma SamePart<T>(a: seq<T>, b: seq<T>, n: nat, t: nat, size: nat, k: nat)
    requires |a| == |b| == n * size && t < n && Part(a, t, size) == Part(b, t, size) && t * size <= k < (t + 1) * size
    ensures k < |a| && a[k] == b[k]
  {
    PartBounds(a, n, t, size);
    PartBounds(b, n, t, size);
    assert a[k] == Part(a, t, size)[k - t * size];
    assert b[k] == Part(b, t, size)[k - t * size];
  }

  /** Two buffers agree up to partition n when they agree partition by partition. */
  lemma {:induction false} PartsDetermine<T>(a: seq<T>, b: seq<T>, total: nat, n: nat, size: nat)
    requires |a| == |b| == total * size && n <= total
    requires forall t :: 0 <= t < n ==> Part(a, t, size) == Part(b, t, size)
    ensures n * size <= |a| && a[..n * size] == b[..n * size]
  {
    if n > 0 {
      PartsDetermine(a, b, total, n - 1, size);
      PartBounds(a, total, n - 1, size);
      assert Part(a, n - 1, size) == Part(b, n - 1, size);
      assert a[..n * size] == a[..(n - 1) * size] + Part(a, n - 1, size);
      assert b[..n * size] == b[..(n - 1) * size] + Part(b, n - 1, size);
    }
  }
}
