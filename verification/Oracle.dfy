/**
 * The oracle of tst_types.c: standard arrays, written into byte buffers pre-filled with 0xa5, and
 * the check that counts the elements that differ.
 */
module Oracle {
  import opened Buffers
  import Products

  type Byte = x: int | 0 <= x < 256

  const DEFAULT_INIT_BYTE: Byte := 0xa5
  const OVERHEAD := 8

  /**
   * How a C type holds numbers.  Integer types hold lo .. hi in two's complement.  Floating types
   * hold what rounding leaves: code rounds to a number of the type and gives its bytes, decode reads
   * them back; min is the least positive normal number (FLT_MIN, DBL_MIN), max the greatest, and the
   * naturals up to exact are held exactly.
   */
  datatype Number =
    | Integer(lo: int, hi: int)
    | Floating(min: real, max: real, exact: nat, code: real -> seq<Byte>, decode: seq<Byte> -> real)

  /**
   * One field of a C type: width bytes at offset.  The scalar and two-field types clamp a value to
   * the limits of the field (clamps); the repeated and mixed types store it with the C conversion.
   * The floating scalar types have 0 stored as such (zeroes) although it is below min.
   */
  datatype Field = Field(offset: nat, width: nat, number: Number, clamps: bool, zeroes: bool)

  /**
   * A type: its extent and its fields.  Bytes no field covers are gaps.  byValue marks long double,
   * whose elements are compared as numbers.
   */
  datatype Layout = Layout(size: nat, fields: seq<Field>, byValue: bool)

  /** TST_TYPE_SET_MIN, TST_TYPE_SET_MAX and TST_TYPE_SET_VALUE with its direct_value. */
  datatype Setting = SetMin | SetMax | SetValue(v: nat)

  function Pow256(w: nat): (p: nat)
    ensures p > 0
  {
    if w == 0 then 1 else 256 * Pow256(w - 1)
  }

  /** Rounding to the numbers of a floating type. */
  function Round(n: Number, x: real): real
    requires n.Floating?
  {
    n.decode(n.code(x))
  }

  function RoundNat(n: Number, v: nat): real
    requires n.Floating?
  {
    Round(n, v as real)
  }

  /** What the standard for floating-point arithmetic guarantees of a floating type. */
  ghost predicate IsFloating(n: Number, width: nat)
    requires n.Floating?
  {
    && 0.0 < n.min <= 1.0 && 1 <= n.exact && n.exact as real <= n.max
    && (forall x: real :: |n.code(x)| == width)
    && (forall x: real :: n.code(Round(n, x)) == n.code(x))
    && (forall x: real, y: real :: x <= y ==> Round(n, x) <= Round(n, y))
    && (forall v: nat :: v <= n.exact ==> RoundNat(n, v) == v as real)
    && Round(n, n.min) == n.min && Round(n, n.max) == n.max
  }

  /** An example: a one-byte type that truncates. */
  function Truncated(x: real): Byte { if x <= 0.0 then 0 else if x >= 255.0 then 255 else x.Floor }

  function OneByte(): Number {
    Floating(1.0, 255.0, 255, (x: real) => [Truncated(x)], (b: seq<Byte>) => if |b| == 1 then b[0] as real else 0.0)
  }

  lemma TruncatedOnce(x: real)
    ensures Truncated(Truncated(x) as real) == Truncated(x)
  {
  }

  lemma TruncatedMonotone(x: real, y: real)
    requires x <= y
    ensures Truncated(x) <= Truncated(y)
  {
  }

  lemma OneByteRounds(x: real)
    ensures Round(OneByte(), x) == Truncated(x) as real
  {
  }

  lemma OneByteIsFloating()
    ensures IsFloating(OneByte(), 1)
  {
    var n := OneByte();
    forall x: real ensures |n.code(x)| == 1 && n.code(Round(n, x)) == n.code(x) {
      OneByteRounds(x);
      TruncatedOnce(x);
    }
    forall x: real, y: real | x <= y ensures Round(n, x) <= Round(n, y) {
      OneByteRounds(x);
      OneByteRounds(y);
      TruncatedMonotone(x, y);
    }
    forall v: nat | v <= n.exact ensures RoundNat(n, v) == v as real { OneByteRounds(v as real); }
    OneByteRounds(1.0);
    OneByteRounds(255.0);
  }

  ghost predicate NumberOk(f: Field) {
    match f.number
    case Integer(lo, hi) => lo <= 0 <= hi && hi - lo + 1 == Pow256(f.width)
    case Floating(_, _, _, _, _) => IsFloating(f.number, f.width)
  }

  ghost predicate FieldFits(l: Layout, f: Field) { f.offset + f.width <= l.size && NumberOk(f) }

  predicate Apart(f: Field, g: Field) {
    f.offset + f.width <= g.offset || g.offset + g.width <= f.offset
  }

  predicate AllApart(fs: seq<Field>) { forall i, j :: 0 <= i < j < |fs| ==> Apart(fs[i], fs[j]) }

  ghost predicate Valid(l: Layout) {
    && (forall i :: 0 <= i < |l.fields| ==> FieldFits(l, l.fields[i]))
    && AllApart(l.fields)
    && (l.byValue ==> |l.fields| == 1 && l.fields[0].number.Floating?)
  }

  /** The number a setting asks for in an integer field, and in a floating one. */
  function IntAsked(lo: int, hi: int, clamps: bool, s: Setting): int {
    match s
    case SetMin => lo
    case SetMax => hi
    case SetValue(v) => if clamps && v > hi then hi else v
  }

  function RealAsked(f: Field, s: Setting): real
    requires f.number.Floating?
  {
    match s
    case SetMin => f.number.min
    case SetMax => f.number.max
    case SetValue(v) =>
      if v == 0 && f.zeroes then 0.0
      else if f.clamps && v as real > f.number.max then f.number.max
      else if f.clamps && v as real < f.number.min then f.number.min
      else v as real
  }

  /** Little-endian two's complement bytes; a value out of range wraps. */
  function Bytes(v: int, w: nat): (b: seq<Byte>)
    ensures |b| == w
    decreases w
  {
    if w == 0 then [] else [v % 256] + Bytes(v / 256, w - 1)
  }

  function Padded(b: seq<Byte>, w: nat): (p: seq<Byte>)
    ensures |p| == w
    ensures |b| == w ==> p == b
  {
    if |b| == w then b else seq(w, _ => 0)
  }

  /** The bytes of a field that has been set. */
  function FieldBytes(f: Field, s: Setting): (b: seq<Byte>)
    ensures |b| == f.width
  {
    match f.number
    case Integer(lo, hi) => Bytes(IntAsked(lo, hi, f.clamps, s), f.width)
    case Floating(_, _, _, code, _) => Padded(code(RealAsked(f, s)), f.width)
  }

  /** The unsigned number that bytes stand for, the least significant one first. */
  function Unsigned(b: seq<Byte>): nat { if b == [] then 0 else b[0] + 256 * Unsigned(b[1..]) }

  /** The bytes of v stand for the one number of 0 .. 256^w - 1 that differs from v by a multiple of 256^w. */
  lemma {:induction false} BytesValue(v: int, w: nat) returns (k: int)
    ensures 0 <= Unsigned(Bytes(v, w)) < Pow256(w) && v == Unsigned(Bytes(v, w)) + k * Pow256(w)
    decreases w
  {
    if w == 0 {
      k := v;
    } else {
      k := BytesValue(v / 256, w - 1);
      assert Bytes(v, w)[1..] == Bytes(v / 256, w - 1);
      assert v == 256 * (v / 256) + v % 256;
      assert 256 * (k * Pow256(w - 1)) == k * Pow256(w);
    }
  }

  /** The sizes that occur. */
  lemma Widths()
    ensures Pow256(1) == 0x100 && Pow256(2) == 0x1_0000 && Pow256(4) == 0x1_0000_0000
    ensures Pow256(8) == 0x1_0000_0000_0000_0000
  {
    assert Pow256(1) == 256 * Pow256(0) && Pow256(2) == 256 * Pow256(1) && Pow256(3) == 256 * Pow256(2);
    assert Pow256(4) == 256 * Pow256(3) && Pow256(5) == 256 * Pow256(4) && Pow256(6) == 256 * Pow256(5);
    assert Pow256(7) == 256 * Pow256(6) && Pow256(8) == 256 * Pow256(7);
  }

  /** Within one range of values the bytes determine the value. */
  lemma {:induction false} BytesInjective(u: int, v: int, w: nat)
    requires Bytes(u, w) == Bytes(v, w) && u - v < Pow256(w) && v - u < Pow256(w)
    ensures u == v
    decreases w
  {
    if w > 0 {
      assert Bytes(u, w)[0] == u % 256 && Bytes(v, w)[0] == v % 256;
      assert Bytes(u, w)[1..] == Bytes(u / 256, w - 1) && Bytes(v, w)[1..] == Bytes(v / 256, w - 1);
      assert u - v == 256 * (u / 256 - v / 256);
      BytesInjective(u / 256, v / 256, w - 1);
    }
  }

  /** struct tst_mpi_short_int: a short, two bytes of padding, an int. */
  const SHORT_INT: Layout := Layout(8, [
    Field(0, 2, Integer(-32768, 32767), true, false),
    Field(4, 4, Integer(-2147483648, 2147483647), true, false)], false)

  // ---------------------------------------------------------------------------------------
  // One element
  // ---------------------------------------------------------------------------------------

  /** The element's bytes: k-th byte of the last field that covers it, or the fill byte. */
  function ByteAt(fs: seq<Field>, s: Setting, k: nat): Byte
  {
    if fs == [] then DEFAULT_INIT_BYTE
    else
      var f := fs[|fs| - 1];
      if f.offset <= k < f.offset + f.width then FieldBytes(f, s)[k - f.offset]
      else ByteAt(fs[..|fs| - 1], s, k)
  }

  /** What tst_type_setvalue leaves in an element. */
  function Element(l: Layout, s: Setting): (e: seq<Byte>)
    ensures |e| == l.size
  {
    seq(l.size, k requires 0 <= k < l.size => ByteAt(l.fields, s, k))
  }

  predicate Covers(f: Field, k: nat) { f.offset <= k < f.offset + f.width }

  predicate IsGap(fs: seq<Field>, k: nat) { forall i :: 0 <= i < |fs| ==> !Covers(fs[i], k) }

  lemma {:induction false} GapByte(fs: seq<Field>, s: Setting, k: nat)
    requires IsGap(fs, k)
    ensures ByteAt(fs, s, k) == 0xa5
  {
    if fs != [] {
      assert !Covers(fs[|fs| - 1], k);
      GapByte(fs[..|fs| - 1], s, k);
    }
  }

  /** Fields do not overwrite each other. */
  lemma {:induction false} FieldByte(fs: seq<Field>, s: Setting, i: nat, k: nat)
    requires i < |fs| && Covers(fs[i], k)
    requires forall j :: i < j < |fs| ==> Apart(fs[i], fs[j])
    ensures ByteAt(fs, s, k) == FieldBytes(fs[i], s)[k - fs[i].offset]
  {
    if i < |fs| - 1 {
      assert Apart(fs[i], fs[|fs| - 1]);
      assert !Covers(fs[|fs| - 1], k);
      FieldByte(fs[..|fs| - 1], s, i, k);
    }
  }

  lemma FieldSlice(l: Layout, s: Setting, i: nat)
    requires Valid(l) && i < |l.fields|
    ensures var f := l.fields[i];
      f.offset + f.width <= l.size && Element(l, s)[f.offset..f.offset + f.width] == FieldBytes(f, s)
  {
    var f := l.fields[i];
    assert FieldFits(l, f);
    forall k | f.offset <= k < f.offset + f.width ensures Element(l, s)[k] == FieldBytes(f, s)[k - f.offset] {
      FieldByte(l.fields, s, i, k);
    }
  }

  predicate SameFields(fs: seq<Field>, s: Setting, t: Setting) {
    forall i :: 0 <= i < |fs| ==> FieldBytes(fs[i], s) == FieldBytes(fs[i], t)
  }

  lemma {:induction false} SameByte(fs: seq<Field>, s: Setting, t: Setting, k: nat)
    requires SameFields(fs, s, t)
    ensures ByteAt(fs, s, k) == ByteAt(fs, t, k)
  {
    if fs != [] {
      var n := |fs| - 1;
      assert FieldBytes(fs[n], s) == FieldBytes(fs[n], t);
      SameByte(fs[..n], s, t, k);
    }
  }

  /** Two settings give the same element exactly when they give every field the same bytes. */
  lemma SameElement(l: Layout, s: Setting, t: Setting)
    requires Valid(l)
    ensures Element(l, s) == Element(l, t) <==> SameFields(l.fields, s, t)
  {
    if Element(l, s) == Element(l, t) {
      forall i | 0 <= i < |l.fields| ensures FieldBytes(l.fields[i], s) == FieldBytes(l.fields[i], t) {
        FieldSlice(l, s, i);
        FieldSlice(l, t, i);
      }
    }
    if SameFields(l.fields, s, t) {
      forall k | 0 <= k < l.size ensures Element(l, s)[k] == Element(l, t)[k] {
        SameByte(l.fields, s, t, k);
      }
    }
  }

  // ---------------------------------------------------------------------------------------
  // Standard arrays
  // ---------------------------------------------------------------------------------------

  /** Element i of the standard array of a rank: the minimum, the maximum, then rank + i. */
  function SettingAt(i: nat, rank: nat): Setting {
    if i == 0 then SetMin else if i == 1 then SetMax else SetValue(rank + i)
  }

  function StandardArray(l: Layout, n: nat, rank: nat): (b: seq<Byte>)
    ensures |b| == n * l.size
  {
    if n == 0 then []
    else StandardArray(l, n - 1, rank) + Element(l, SettingAt(n - 1, rank))
  }

  lemma {:induction false} StandardPart(l: Layout, n: nat, rank: nat, i: nat)
    requires i < n
    ensures Part(StandardArray(l, n, rank), i, l.size) == Element(l, SettingAt(i, rank))
  {
    var b := StandardArray(l, n, rank);
    PartBounds(b, n, i, l.size);
    if i == n - 1 {
      assert (n - 1) * l.size + l.size == n * l.size;
    } else {
      StandardPart(l, n - 1, rank, i);
      PartBounds(StandardArray(l, n - 1, rank), n - 1, i, l.size);
    }
  }

  /** Element 0 is the minimum, element 1 the maximum, element i the rank plus i. */
  lemma StandardElements(l: Layout, n: nat, rank: nat, i: nat)
    requires i < n
    ensures Part(StandardArray(l, n, rank), i, l.size) ==
      Element(l, if i == 0 then SetMin else if i == 1 then SetMax else SetValue(rank + i))
  {
    StandardPart(l, n, rank, i);
  }

  lemma {:induction false} StandardPrefix(l: Layout, m: nat, n: nat, rank: nat)
    requires m <= n
    ensures StandardArray(l, m, rank) <= StandardArray(l, n, rank)
  {
    if m < n { StandardPrefix(l, m, n - 1, rank); }
  }

  /** Byte k of an array of elements lies in a gap of its element. */
  predicate IsGapAt(l: Layout, k: nat) { l.size > 0 && IsGap(l.fields, k % l.size) }

  /** The gaps of a standard array hold the fill byte. */
  lemma {:induction false} StandardGap(l: Layout, n: nat, rank: nat, k: nat)
    requires k < n * l.size && IsGapAt(l, k)
    ensures StandardArray(l, n, rank)[k] == 0xa5
  {
    Products.Distributes(n - 1, 1, l.size);
    var m := (n - 1) * l.size;
    if k < m {
      StandardGap(l, n - 1, rank, k);
    } else {
      assert k % l.size == k - m by { Products.Remainder(k, n - 1, k - m, l.size); }
      GapByte(l.fields, SettingAt(n - 1, rank), k - m);
    }
  }

  /** What tst_type_cmpvalue takes for the same element. */
  predicate Same(l: Layout, a: seq<Byte>, b: seq<Byte>)
    requires |a| == |b|
  {
    if l.byValue && |l.fields| == 1 && l.fields[0].number.Floating? && l.fields[0].offset + l.fields[0].width <= |a| then
      var f := l.fields[0];
      f.number.decode(a[f.offset..f.offset + f.width]) == f.number.decode(b[f.offset..f.offset + f.width])
    else
      a == b
  }

  /** Element i of b is the same as what s leaves in an element. */
  predicate HoldsAt(l: Layout, b: seq<Byte>, i: nat, s: Setting) {
    |Part(b, i, l.size)| == l.size && Same(l, Part(b, i, l.size), Element(l, s))
  }

  /** How many of the first n elements differ from the standard array of rank. */
  function Errors(l: Layout, b: seq<Byte>, n: nat, rank: nat): (e: nat)
    ensures e <= n
  {
    if n == 0 then 0
    else Errors(l, b, n - 1, rank) + (if HoldsAt(l, b, n - 1, SettingAt(n - 1, rank)) then 0 else 1)
  }

  /** Element n - 1 of a buffer and what comes before it. */
  lemma LastElement(l: Layout, b: seq<Byte>, n: nat, total: nat, rank: nat)
    requires |b| == total * l.size && 0 < n <= total
    ensures (n - 1) * l.size <= n * l.size <= |b| && |Part(b, n - 1, l.size)| == l.size
    ensures b[..n * l.size] == StandardArray(l, n, rank) <==>
      b[..(n - 1) * l.size] == StandardArray(l, n - 1, rank) && Part(b, n - 1, l.size) == Element(l, SettingAt(n - 1, rank))
  {
    PartBounds(b, total, n - 1, l.size);
    Products.Distributes(n - 1, 1, l.size);
    var m := (n - 1) * l.size;
    assert b[..n * l.size] == b[..m] + Part(b, n - 1, l.size);
    assert b[..n * l.size][..m] == b[..m] && b[..n * l.size][m..] == Part(b, n - 1, l.size);
    assert StandardArray(l, n, rank)[..m] == StandardArray(l, n - 1, rank);
    assert StandardArray(l, n, rank)[m..] == Element(l, SettingAt(n - 1, rank));
  }

  /** The check accepts every buffer that starts with the standard array. */
  lemma {:induction false} StandardAccepted(l: Layout, b: seq<Byte>, n: nat, total: nat, rank: nat)
    requires |b| == total * l.size && n <= total
    requires n * l.size <= |b| && b[..n * l.size] == StandardArray(l, n, rank)
    ensures Errors(l, b, n, rank) == 0
  {
    if n > 0 {
      LastElement(l, b, n, total, rank);
      StandardAccepted(l, b, n - 1, total, rank);
    }
  }

  /** And no others, unless the type is compared by value. */
  lemma {:induction false} AcceptsExactly(l: Layout, b: seq<Byte>, n: nat, total: nat, rank: nat)
    requires |b| == total * l.size && n <= total && !l.byValue
    ensures n * l.size <= |b|
    ensures Errors(l, b, n, rank) == 0 <==> b[..n * l.size] == StandardArray(l, n, rank)
  {
    if n > 0 {
      LastElement(l, b, n, total, rank);
      AcceptsExactly(l, b, n - 1, total, rank);
    }
  }

  /** b agrees with the standard array on the bytes of the fields. */
  ghost predicate FieldsMatch(l: Layout, b: seq<Byte>, n: nat, rank: nat) {
    n * l.size <= |b| && forall k: nat :: k < n * l.size && !IsGapAt(l, k) ==> b[k] == StandardArray(l, n, rank)[k]
  }

  lemma FieldNotGap(l: Layout, i: nat, k: nat)
    requires |l.fields| == 1 && Covers(l.fields[0], k) && k < l.size
    ensures !IsGapAt(l, i * l.size + k)
  {
    Products.Remainder(i * l.size + k, i, k, l.size);
  }

  /** The last element of such a buffer holds the bytes of the field. */
  lemma FieldSliceMatches(l: Layout, b: seq<Byte>, n: nat, total: nat, rank: nat)
    requires Valid(l) && |l.fields| == 1 && |b| == total * l.size && 0 < n <= total && FieldsMatch(l, b, n, rank)
    ensures var f, e, x := l.fields[0], Element(l, SettingAt(n - 1, rank)), Part(b, n - 1, l.size);
      f.offset + f.width <= l.size == |x| && x[f.offset..f.offset + f.width] == e[f.offset..f.offset + f.width]
  {
    var f, m := l.fields[0], (n - 1) * l.size;
    assert FieldFits(l, f);
    Products.Distributes(n - 1, 1, l.size);
    PartBounds(b, total, n - 1, l.size);
    var e, x := Element(l, SettingAt(n - 1, rank)), Part(b, n - 1, l.size);
    forall k | f.offset <= k < f.offset + f.width ensures x[k] == e[k] {
      FieldNotGap(l, n - 1, k);
      assert b[m + k] == StandardArray(l, n, rank)[m + k] == e[k];
    }
  }

  lemma FieldsMatchShorter(l: Layout, b: seq<Byte>, n: nat, rank: nat)
    requires n > 0 && FieldsMatch(l, b, n, rank)
    ensures FieldsMatch(l, b, n - 1, rank)
  {
    Products.Distributes(n - 1, 1, l.size);
  }

  /** A type that is compared by value is accepted whatever its gaps hold. */
  lemma {:induction false} FieldsAccepted(l: Layout, b: seq<Byte>, n: nat, total: nat, rank: nat)
    requires Valid(l) && l.byValue && |b| == total * l.size && n <= total && FieldsMatch(l, b, n, rank)
    ensures Errors(l, b, n, rank) == 0
  {
    if n > 0 {
      FieldSliceMatches(l, b, n, total, rank);
      FieldsMatchShorter(l, b, n, rank);
      FieldsAccepted(l, b, n - 1, total, rank);
    }
  }

  // ---------------------------------------------------------------------------------------
  // Communication and the check
  // ---------------------------------------------------------------------------------------

  /** The buffer of tst_type_allocvalues for n elements. */
  function Fresh(l: Layout, n: nat): (b: seq<Byte>)
    ensures |b| == n * l.size
  {
    seq(n * l.size, _ => DEFAULT_INIT_BYTE)
  }

  /** A message carries the fields of an element; the gaps of the receive buffer stay as they were. */
  function ReceiveElement(l: Layout, src: seq<Byte>, dst: seq<Byte>): (e: seq<Byte>)
    requires |src| == |dst| == l.size
    ensures |e| == l.size
  {
    seq(l.size, k requires 0 <= k < l.size => if IsGap(l.fields, k) then dst[k] else src[k])
  }

  function Receive(l: Layout, src: seq<Byte>, dst: seq<Byte>, n: nat): (b: seq<Byte>)
    requires |src| == |dst| == n * l.size
    ensures |b| == n * l.size
  {
    if n == 0 then []
    else
      var m := (n - 1) * l.size;
      assert n * l.size == m + l.size;
      Receive(l, src[..m], dst[..m], n - 1) + ReceiveElement(l, src[m..], dst[m..])
  }

  /** Byte for byte: what is no gap comes with the message, a gap stays as it was. */
  lemma {:induction false} ReceivedByte(l: Layout, src: seq<Byte>, dst: seq<Byte>, n: nat, k: nat)
    requires |src| == |dst| == n * l.size && k < n * l.size
    ensures Receive(l, src, dst, n)[k] == if IsGapAt(l, k) then dst[k] else src[k]
  {
    Products.Distributes(n - 1, 1, l.size);
    var m := (n - 1) * l.size;
    if k < m {
      ReceivedByte(l, src[..m], dst[..m], n - 1, k);
    } else {
      assert k % l.size == k - m by { Products.Remainder(k, n - 1, k - m, l.size); }
    }
  }

  /** Whatever the gaps of the type: a standard array received into a fresh buffer is the standard array. */
  lemma {:induction false} ReceivedIsStandard(l: Layout, n: nat, rank: nat)
    ensures Receive(l, StandardArray(l, n, rank), Fresh(l, n), n) == StandardArray(l, n, rank)
  {
    if n > 0 {
      ReceivedIsStandard(l, n - 1, rank);
      var m := (n - 1) * l.size;
      assert n * l.size == m + l.size;
      var src, dst := StandardArray(l, n, rank), Fresh(l, n);
      assert src[..m] == StandardArray(l, n - 1, rank) && src[m..] == Element(l, SettingAt(n - 1, rank));
      assert dst[..m] == Fresh(l, n - 1);
      forall k | 0 <= k < l.size ensures ReceiveElement(l, src[m..], dst[m..])[k] == src[m..][k] {
        if IsGap(l.fields, k) { GapByte(l.fields, SettingAt(n - 1, rank), k); }
      }
    }
  }

  /** The same when the buffer held another rank's standard array. */
  lemma {:induction false} ReceivedOverStandard(l: Layout, n: nat, rank: nat, previous: nat)
    ensures Receive(l, StandardArray(l, n, rank), StandardArray(l, n, previous), n) == StandardArray(l, n, rank)
  {
    if n > 0 {
      ReceivedOverStandard(l, n - 1, rank, previous);
      var m := (n - 1) * l.size;
      assert n * l.size == m + l.size;
      var src, dst := StandardArray(l, n, rank), StandardArray(l, n, previous);
      assert src[..m] == StandardArray(l, n - 1, rank) && src[m..] == Element(l, SettingAt(n - 1, rank));
      assert dst[..m] == StandardArray(l, n - 1, previous) && dst[m..] == Element(l, SettingAt(n - 1, previous));
      forall k | 0 <= k < l.size ensures ReceiveElement(l, src[m..], dst[m..])[k] == src[m..][k] {
        if IsGap(l.fields, k) {
          GapByte(l.fields, SettingAt(n - 1, rank), k);
          GapByte(l.fields, SettingAt(n - 1, previous), k);
        }
      }
    }
  }

  /** What a rank's standard array is after a message has brought it into a fresh buffer. */
  function Delivered(l: Layout, n: nat, rank: nat): seq<Byte> {
    Receive(l, StandardArray(l, n, rank), Fresh(l, n), n)
  }

  /** A delivered standard array passes the check for its rank with no error. */
  lemma DeliveredPasses(l: Layout, n: nat, rank: nat)
    ensures Errors(l, Delivered(l, n, rank), n, rank) == 0
  {
    ReceivedIsStandard(l, n, rank);
    StandardAccepted(l, StandardArray(l, n, rank), n, n, rank);
  }

  // ---------------------------------------------------------------------------------------
  // Numbers
  // ---------------------------------------------------------------------------------------

  /** Wrap-around into the m numbers from lo, as two's complement has it. */
  function Wrap(lo: int, m: nat, x: int): (y: int)
    requires m > 0
    ensures lo <= y < lo + m
    ensures lo <= x < lo + m ==> y == x
  {
    if lo <= x < lo + m then x else lo + (x - lo) % m
  }

  /** What a field holds once x, the result of an operation or a conversion, has been stored in it. */
  function Stored(f: Field, x: real): real {
    match f.number
    case Integer(lo, _) => Wrap(lo, Pow256(f.width), x.Floor) as real
    case Floating(_, _, _, _, _) => Round(f.number, x)
  }

  /** The number a setting leaves in a field. */
  function FieldValue(f: Field, s: Setting): real {
    match f.number
    case Integer(lo, hi) => Wrap(lo, Pow256(f.width), IntAsked(lo, hi, f.clamps, s)) as real
    case Floating(_, _, _, _, _) => Round(f.number, RealAsked(f, s))
  }

  /** Up to here a type holds every natural number exactly. */
  function Exact(f: Field): int {
    match f.number
    case Integer(_, hi) => hi
    case Floating(_, _, exact, _, _) => exact
  }

  /** A number of the type. */
  predicate Fits(f: Field, v: real) {
    match f.number
    case Integer(lo, hi) => lo as real <= v <= hi as real && v == v.Floor as real
    case Floating(_, _, _, _, _) => Round(f.number, v) == v
  }

  /** The bytes of a number of the type. */
  function NumberBytes(f: Field, v: real): (b: seq<Byte>)
    ensures |b| == f.width
  {
    match f.number
    case Integer(_, _) => Bytes(v.Floor, f.width)
    case Floating(_, _, _, code, _) => Padded(code(v), f.width)
  }

  /** A field of a scalar type. */
  ghost predicate IsType(f: Field) { NumberOk(f) && f.clamps && f.zeroes == f.number.Floating? && Exact(f) > 0 }

  ghost predicate IsScalar(l: Layout) { Valid(l) && |l.fields| == 1 && IsType(l.fields[0]) }
  ghost predicate IsIntScalar(l: Layout) { IsScalar(l) && l.fields[0].number.Integer? && !l.byValue }

  /** In a scalar type settings leave numbers of the type, whose bytes are the field's. */
  lemma SettingFits(f: Field, s: Setting)
    requires IsType(f)
    ensures Fits(f, FieldValue(f, s)) && NumberBytes(f, FieldValue(f, s)) == FieldBytes(f, s)
  {
  }

  /**
   * An integer field: the minimum and the maximum are the ends of the range of the type, and a value
   * is stored as it is, or the maximum for it if it is too large and the type clamps.
   */
  lemma IntegerSettings(f: Field, v: real, n: nat)
    requires NumberOk(f) && f.number.Integer? && Fits(f, v)
    ensures Fits(f, FieldValue(f, SetMin)) && Fits(f, FieldValue(f, SetMax))
    ensures FieldValue(f, SetMin) <= v <= FieldValue(f, SetMax)
    ensures n as real <= FieldValue(f, SetMax) ==> FieldValue(f, SetValue(n)) == n as real
    ensures n as real > FieldValue(f, SetMax) && f.clamps ==> FieldValue(f, SetValue(n)) == FieldValue(f, SetMax)
  {
  }

  /**
   * A floating field: the least normal and the greatest number; a natural that the type holds exactly
   * is stored as it is, 0 in the scalar types; what is set otherwise lies between the two.
   */
  lemma FloatingSettings(f: Field, n: nat)
    requires NumberOk(f) && f.number.Floating?
    ensures FieldValue(f, SetMin) == f.number.min && FieldValue(f, SetMax) == f.number.max
    ensures 1 <= n <= f.number.exact || (n == 0 && f.zeroes) ==> FieldValue(f, SetValue(n)) == n as real
    ensures f.clamps && !(n == 0 && f.zeroes) ==> f.number.min <= FieldValue(f, SetValue(n)) <= f.number.max
  {
    assert RoundNat(f.number, 0) == 0.0;
    if n <= f.number.exact { assert RoundNat(f.number, n) == n as real; }
    var x := RealAsked(f, SetValue(n));
    if f.clamps && !(n == 0 && f.zeroes) {
      assert Round(f.number, f.number.min) <= Round(f.number, x) <= Round(f.number, f.number.max);
    }
  }

  /** And the bytes determine the number. */
  lemma NumberBytesInjective(f: Field, u: real, v: real)
    requires NumberOk(f) && Fits(f, u) && Fits(f, v)
    ensures NumberBytes(f, u) == NumberBytes(f, v) <==> u == v
  {
    if f.number.Integer? && NumberBytes(f, u) == NumberBytes(f, v) {
      BytesInjective(u.Floor, v.Floor, f.width);
    }
  }

  /** Two settings give a scalar the same element exactly when they give it the same number. */
  lemma ScalarSettings(l: Layout, s: Setting, t: Setting)
    requires IsScalar(l)
    ensures Element(l, s) == Element(l, t) <==> FieldValue(l.fields[0], s) == FieldValue(l.fields[0], t)
  {
    var f := l.fields[0];
    SameElement(l, s, t);
    SettingFits(f, s);
    SettingFits(f, t);
    NumberBytesInjective(f, FieldValue(f, s), FieldValue(f, t));
  }

  // ---------------------------------------------------------------------------------------
  // How well the check separates ranks
  // ---------------------------------------------------------------------------------------

  function Min(a: int, b: int): int { if a < b then a else b }

  /** Elements of the standard arrays of two ranks agree where they agree on purpose or saturate. */
  lemma ScalarElement(l: Layout, a: nat, b: nat, i: nat)
    requires IsIntScalar(l)
    ensures Element(l, SettingAt(i, a)) == Element(l, SettingAt(i, b)) <==>
      a == b || i < 2 || Min(a, b) + i >= Exact(l.fields[0])
  {
    ScalarSettings(l, SettingAt(i, a), SettingAt(i, b));
  }

  /** How many elements tell rank a from rank b. */
  function Telling(l: Layout, n: nat, a: nat, b: nat): nat
    requires |l.fields| == 1
  {
    if a == b then 0
    else
      var last := Min(n, Exact(l.fields[0]) - Min(a, b));
      if last > 2 then last - 2 else 0
  }

  /** An array set with rank a and checked with rank b has exactly this many errors. */
  lemma {:induction false} WrongRankErrors(l: Layout, n: nat, m: nat, a: nat, b: nat)
    requires IsIntScalar(l) && m <= n
    ensures Errors(l, StandardArray(l, n, a), m, b) == Telling(l, m, a, b)
  {
    if m > 0 {
      WrongRankErrors(l, n, m - 1, a, b);
      StandardPart(l, n, a, m - 1);
      ScalarElement(l, a, b, m - 1);
    }
  }

  /** So the check mistakes rank a for rank b exactly when the array is too short or the type too narrow. */
  lemma WrongRankPasses(l: Layout, n: nat, a: nat, b: nat)
    requires IsIntScalar(l)
    ensures Errors(l, StandardArray(l, n, a), n, b) == 0 <==> a == b || n <= 2 || Min(a, b) + 2 >= Exact(l.fields[0])
  {
    WrongRankErrors(l, n, n, a, b);
  }

  // ---------------------------------------------------------------------------------------
  // The functions of tst_types.c, in place
  // ---------------------------------------------------------------------------------------

  /** tst_type_allocvalues */
  method AllocValues(l: Layout, n: nat) returns (buffer: array<Byte>)
    ensures fresh(buffer) && buffer.Length == (n + 8) * l.size
    ensures buffer[..] == Fresh(l, n + 8) && forall k :: 0 <= k < buffer.Length ==> buffer[k] == 0xa5
  {
    buffer := new Byte[(n + OVERHEAD) * l.size];
    var i := 0;
    while i < buffer.Length
      invariant 0 <= i <= buffer.Length
      invariant forall k :: 0 <= k < i ==> buffer[k] == DEFAULT_INIT_BYTE
    {
      buffer[i] := DEFAULT_INIT_BYTE;
      i := i + 1;
    }
  }

  /** memset with DEFAULT_INIT_BYTE over the element at pos. */
  method ClearElement(l: Layout, buffer: array<Byte>, pos: nat)
    requires pos + l.size <= buffer.Length
    modifies buffer
    ensures forall k :: pos <= k < pos + l.size ==> buffer[k] == DEFAULT_INIT_BYTE
    ensures forall k :: 0 <= k < buffer.Length && !(pos <= k < pos + l.size) ==> buffer[k] == old(buffer[k])
  {
    var i := pos;
    while i < pos + l.size
      invariant pos <= i <= pos + l.size
      invariant forall k :: pos <= k < i ==> buffer[k] == DEFAULT_INIT_BYTE
      invariant forall k :: 0 <= k < buffer.Length && !(pos <= k < i) ==> buffer[k] == old(buffer[k])
    {
      buffer[i] := DEFAULT_INIT_BYTE;
      i := i + 1;
    }
  }

  /** The store of field j, which may only overwrite its own bytes. */
  method StoreField(l: Layout, buffer: array<Byte>, pos: nat, j: nat, s: Setting)
    requires Valid(l) && pos + l.size <= buffer.Length && j < |l.fields| && FieldFits(l, l.fields[j])
    requires forall k :: pos <= k < pos + l.size ==> buffer[k] == ByteAt(l.fields[..j], s, k - pos)
    modifies buffer
    ensures forall k :: pos <= k < pos + l.size ==> buffer[k] == ByteAt(l.fields[..j + 1], s, k - pos)
    ensures forall k :: 0 <= k < buffer.Length && !(pos <= k < pos + l.size) ==> buffer[k] == old(buffer[k])
  {
    var f := l.fields[j];
    var bytes := FieldBytes(f, s);
    var start := pos + f.offset;
    var i := start;
    while i < start + f.width
      invariant start <= i <= start + f.width
      invariant forall k :: start <= k < i ==> buffer[k] == bytes[k - start]
      invariant forall k :: 0 <= k < buffer.Length && !(start <= k < i) ==> buffer[k] == old(buffer[k])
    {
      buffer[i] := bytes[i - start];
      i := i + 1;
    }
    assert l.fields[..j + 1][..j] == l.fields[..j];
  }

  /** The fields one by one. */
  method StoreFields(l: Layout, buffer: array<Byte>, pos: nat, s: Setting)
    requires Valid(l) && pos + l.size <= buffer.Length
    requires forall k :: pos <= k < pos + l.size ==> buffer[k] == DEFAULT_INIT_BYTE
    modifies buffer
    ensures forall k :: pos <= k < pos + l.size ==> buffer[k] == ByteAt(l.fields, s, k - pos)
    ensures forall k :: 0 <= k < buffer.Length && !(pos <= k < pos + l.size) ==> buffer[k] == old(buffer[k])
  {
    var j := 0;
    while j < |l.fields|
      invariant 0 <= j <= |l.fields|
      invariant forall k :: pos <= k < pos + l.size ==> buffer[k] == ByteAt(l.fields[..j], s, k - pos)
      invariant forall k :: 0 <= k < buffer.Length && !(pos <= k < pos + l.size) ==> buffer[k] == old(buffer[k])
    {
      assert FieldFits(l, l.fields[j]);
      StoreField(l, buffer, pos, j, s);
      j := j + 1;
    }
    assert l.fields[..|l.fields|] == l.fields;
  }

  /** tst_type_setvalue on the element at pos: memset, then the fields. */
  method SetElement(l: Layout, buffer: array<Byte>, pos: nat, s: Setting)
    requires Valid(l) && pos + l.size <= buffer.Length
    modifies buffer
    ensures buffer[..] == old(buffer[..pos]) + Element(l, s) + old(buffer[pos + l.size..])
  {
    ClearElement(l, buffer, pos);
    StoreFields(l, buffer, pos, s);
    assert forall k :: 0 <= k < l.size ==> buffer[pos + k] == Element(l, s)[k];
  }

  /** The buffer with the first n elements of a standard array written at base. */
  function WithStandard(b: seq<Byte>, base: nat, l: Layout, n: nat, rank: nat): seq<Byte>
    requires base + n * l.size <= |b|
  {
    b[..base] + StandardArray(l, n, rank) + b[base + n * l.size..]
  }

  /** The array lies at its place, every other byte is what it was. */
  lemma StandardWritten(b: seq<Byte>, base: nat, l: Layout, n: nat, rank: nat)
    requires base + n * l.size <= |b|
    ensures var w := WithStandard(b, base, l, n, rank);
      && |w| == |b| && w[base..base + n * l.size] == StandardArray(l, n, rank)
      && forall k :: 0 <= k < |b| && !(base <= k < base + n * l.size) ==> w[k] == b[k]
  {
  }

  /** Replacing the piece after std extends what replaced the start. */
  lemma Splice(b: seq<Byte>, base: nat, std: seq<Byte>, e: seq<Byte>)
    requires base + |std| + |e| <= |b|
    ensures var pos := base + |std|; var w := b[..base] + std + b[pos..];
      w[..pos] + e + w[pos + |e|..] == b[..base] + (std + e) + b[pos + |e|..]
  {
    var pos := base + |std|;
    var w := b[..base] + std + b[pos..];
    assert w[..pos] == b[..base] + std;
    assert w[pos + |e|..] == b[pos + |e|..];
  }

  lemma OneMoreElement(b: seq<Byte>, base: nat, l: Layout, n: nat, rank: nat)
    requires base + (n + 1) * l.size <= |b|
    ensures (n + 1) * l.size == n * l.size + l.size
    ensures var w := WithStandard(b, base, l, n, rank); var pos := base + n * l.size;
      w[..pos] + Element(l, SettingAt(n, rank)) + w[pos + l.size..] == WithStandard(b, base, l, n + 1, rank)
  {
    Products.Distributes(n, 1, l.size);
    Splice(b, base, StandardArray(l, n, rank), Element(l, SettingAt(n, rank)));
  }

  /** b is before with the first n elements of the standard array written at base. */
  ghost predicate Written(b: seq<Byte>, before: seq<Byte>, base: nat, l: Layout, n: nat, rank: nat) {
    base + n * l.size <= |before| && b == WithStandard(before, base, l, n, rank)
  }

  lemma NothingWritten(before: seq<Byte>, base: nat, l: Layout, rank: nat)
    requires base <= |before|
    ensures Written(before, before, base, l, 0, rank)
  {
    assert before[..base] + [] + before[base + 0 * l.size..] == before;
  }

  /** tst_type_setvalue of element i, once the elements before it are in place. */
  method SetNextElement(l: Layout, n: nat, i: nat, buffer: array<Byte>, base: nat, rank: nat, s: Setting, ghost before: seq<Byte>)
    requires Valid(l) && i < n && s == SettingAt(i, rank)
    requires |before| == buffer.Length && base + n * l.size <= |before|
    requires Written(buffer[..], before, base, l, i, rank)
    modifies buffer
    ensures Written(buffer[..], before, base, l, i + 1, rank)
  {
    PartBounds(StandardArray(l, n, rank), n, i, l.size);
    OneMoreElement(before, base, l, i, rank);
    SetElement(l, buffer, base + i * l.size, s);
  }

  /** The loop over the elements after the first two. */
  method SetFurtherElements(l: Layout, n: nat, buffer: array<Byte>, base: nat, rank: nat, ghost before: seq<Byte>)
    requires Valid(l) && n >= 2 && |before| == buffer.Length && base + n * l.size <= |before|
    requires Written(buffer[..], before, base, l, 2, rank)
    modifies buffer
    ensures Written(buffer[..], before, base, l, n, rank)
  {
    var i := 2;
    while i < n
      invariant 2 <= i <= n
      invariant Written(buffer[..], before, base, l, i, rank)
    {
      SetNextElement(l, n, i, buffer, base, rank, SetValue(rank + i), before);
      i := i + 1;
    }
  }

  /** The maximum and what follows it. */
  method SetFromSecond(l: Layout, n: nat, buffer: array<Byte>, base: nat, rank: nat, ghost before: seq<Byte>)
    requires Valid(l) && n >= 2 && |before| == buffer.Length && base + n * l.size <= |before|
    requires Written(buffer[..], before, base, l, 1, rank)
    modifies buffer
    ensures Written(buffer[..], before, base, l, n, rank)
  {
    SetNextElement(l, n, 1, buffer, base, rank, SetMax, before);
    SetFurtherElements(l, n, buffer, base, rank, before);
  }

  /** tst_type_setstandardarray on the array that starts at base. */
  method SetStandardArray(l: Layout, n: nat, buffer: array<Byte>, base: nat, rank: nat)
    requires Valid(l) && base + n * l.size <= buffer.Length
    modifies buffer
    ensures buffer[..] == WithStandard(old(buffer[..]), base, l, n, rank)
  {
    ghost var before := buffer[..];
    NothingWritten(before, base, l, rank);
    if n > 0 {
      SetNextElement(l, n, 0, buffer, base, rank, SetMin, before);
    }
    if n > 1 {
      SetFromSecond(l, n, buffer, base, rank, before);
    }
  }

  /** memcmp */
  method MemCmp(size: nat, buffer1: array<Byte>, pos1: nat, buffer2: array<Byte>, pos2: nat) returns (differ: bool)
    requires pos1 + size <= buffer1.Length && pos2 + size <= buffer2.Length
    ensures differ <==> buffer1[pos1..pos1 + size] != buffer2[pos2..pos2 + size]
  {
    var i := 0;
    while i < size
      invariant 0 <= i <= size
      invariant buffer1[pos1..pos1 + i] == buffer2[pos2..pos2 + i]
    {
      if buffer1[pos1 + i] != buffer2[pos2 + i] {
        assert buffer1[pos1..pos1 + size][i] != buffer2[pos2..pos2 + size][i];
        return true;
      }
      i := i + 1;
    }
    return false;
  }

  lemma SliceOfElement(a: array<Byte>, pos: nat, size: nat, offset: nat, width: nat)
    requires offset + width <= size && pos + size <= a.Length
    ensures a[pos..pos + size][offset..offset + width] == a[pos + offset..pos + offset + width]
  {
    var x, y := a[pos..pos + size][offset..offset + width], a[pos + offset..pos + offset + width];
    forall k | 0 <= k < width ensures x[k] == y[k] {
      assert a[pos..pos + size][offset + k] == a[pos + offset + k];
    }
  }

  /** tst_type_cmpvalue: memcmp over the extent of the type, or, for long double, a comparison of the numbers. */
  method CmpValue(l: Layout, buffer1: array<Byte>, pos1: nat, buffer2: array<Byte>, pos2: nat) returns (differ: bool)
    requires Valid(l) && pos1 + l.size <= buffer1.Length && pos2 + l.size <= buffer2.Length
    ensures differ <==> !Same(l, buffer1[pos1..pos1 + l.size], buffer2[pos2..pos2 + l.size])
  {
    if l.byValue {
      var f := l.fields[0];
      assert FieldFits(l, f);
      var x := f.number.decode(buffer1[pos1 + f.offset..pos1 + f.offset + f.width]);
      var y := f.number.decode(buffer2[pos2 + f.offset..pos2 + f.offset + f.width]);
      SliceOfElement(buffer1, pos1, l.size, f.offset, f.width);
      SliceOfElement(buffer2, pos2, l.size, f.offset, f.width);
      return x != y;
    }
    differ := MemCmp(l.size, buffer1, pos1, buffer2, pos2);
  }

  lemma PartOfArray(a: array<Byte>, total: nat, i: nat, size: nat)
    requires a.Length == total * size && i < total
    ensures i * size + size <= a.Length && Part(a[..], i, size) == a[i * size..i * size + size]
  {
    PartBounds(a[..], total, i, size);
    Products.Distributes(i, 1, size);
    assert a[..][i * size..(i + 1) * size] == a[i * size..(i + 1) * size];
  }

  lemma HoldsElement(l: Layout, b: seq<Byte>, i: nat, x: seq<Byte>, s: Setting)
    requires |x| == l.size && Part(b, i, l.size) == x
    ensures HoldsAt(l, b, i, s) <==> Same(l, x, Element(l, s))
  {
  }

  /** Element i of the buffer against an element that holds the setting s. */
  method CmpElement(l: Layout, buffer: array<Byte>, total: nat, i: nat, cmp: array<Byte>, s: Setting) returns (differ: bool)
    requires Valid(l) && i < total && buffer.Length == total * l.size
    requires l.size <= cmp.Length && cmp[..l.size] == Element(l, s)
    ensures differ <==> !HoldsAt(l, buffer[..], i, s)
  {
    PartOfArray(buffer, total, i, l.size);
    var pos := i * l.size;
    HoldsElement(l, buffer[..], i, buffer[pos..pos + l.size], s);
    assert cmp[0..l.size] == cmp[..l.size];
    differ := CmpValue(l, buffer, pos, cmp, 0);
  }

  /** One comparison of the check: cmp_value is set anew, and a difference is one more error. */
  method CheckElement(l: Layout, buffer: array<Byte>, total: nat, i: nat, cmp: array<Byte>, s: Setting, errors: nat)
    returns (e: nat)
    requires Valid(l) && i < total && buffer.Length == total * l.size
    requires cmp != buffer && l.size <= cmp.Length
    modifies cmp
    ensures e == errors + (if HoldsAt(l, buffer[..], i, s) then 0 else 1)
  {
    SetElement(l, cmp, 0, s);
    assert cmp[..l.size] == Element(l, s);
    var d := CmpElement(l, buffer, total, i, cmp, s);
    e := if d then errors + 1 else errors;
  }

  /** The loop over the elements after the first two. */
  method CheckFurtherElements(l: Layout, n: nat, buffer: array<Byte>, total: nat, rank: nat, cmp: array<Byte>, before: nat)
    returns (errors: nat)
    requires Valid(l) && 2 <= n <= total && buffer.Length == total * l.size && cmp != buffer && l.size <= cmp.Length
    requires before == Errors(l, buffer[..], 2, rank)
    modifies cmp
    ensures errors == Errors(l, buffer[..], n, rank)
  {
    errors := before;
    var i := 2;
    while i < n
      invariant 2 <= i <= n
      invariant errors == Errors(l, buffer[..], i, rank)
    {
      errors := CheckElement(l, buffer, total, i, cmp, SetValue(rank + i), errors);
      i := i + 1;
    }
  }

  lemma OneElementFits(size: nat)
    ensures size <= (1 + OVERHEAD) * size
  {
  }

  /** tst_type_checkstandardarray returns exactly the number of elements that differ. */
  method CheckStandardArray(l: Layout, n: nat, buffer: array<Byte>, total: nat, rank: nat) returns (errors: nat)
    requires Valid(l) && n <= total && buffer.Length == total * l.size
    ensures errors == Errors(l, buffer[..], n, rank)
  {
    errors := 0;
    var cmp := AllocValues(l, 1);
    OneElementFits(l.size);
    if n > 0 {
      errors := CheckElement(l, buffer, total, 0, cmp, SetMin, errors);
    }
    if n > 1 {
      errors := CheckElement(l, buffer, total, 1, cmp, SetMax, errors);
      errors := CheckFurtherElements(l, n, buffer, total, rank, cmp, errors);
    }
  }
}
