/** Byte strings, their lexicographic order (the order of the key-value store), and the fixed-width
    integer layouts that keys and frames are built from. */
module Bytes {

  type Byte = x: int | 0 <= x < 256

  type Bytes = seq<Byte>

  const TWO_32: int := 0x1_0000_0000
  const TWO_63: int := 0x8000_0000_0000_0000
  const TWO_64: int := 0x1_0000_0000_0000_0000

  type U32 = x: int | 0 <= x < 0x1_0000_0000

  type U64 = x: int | 0 <= x < 0x1_0000_0000_0000_0000

  datatype Ordering = Less | Equal | Greater

  datatype Result<+T> = Ok(value: T) | Err {
    predicate IsFailure() { Err? }
    function PropagateFailure<U>(): Result<U> requires Err? { Err }
    function Extract(): T requires Ok? { value }
  }

  datatype Option<+T> = None | Some(value: T)

  // ---- Lexicographic order ------------------------------------------------------------------

  /** Length of the longest common prefix. */
  function CommonPrefix(a: Bytes, b: Bytes): (k: nat)
    ensures k <= |a| && k <= |b|
    ensures forall i :: 0 <= i < k ==> a[i] == b[i]
    ensures k < |a| && k < |b| ==> a[k] != b[k]
  {
    if a == [] || b == [] || a[0] != b[0] then 0
    else
      var k := CommonPrefix(a[1..], b[1..]);
      assert forall i :: 1 <= i < k + 1 ==> a[i] == a[1..][i - 1] && b[i] == b[1..][i - 1];
      1 + k
  }

  function CompareInt(x: int, y: int): Ordering {
    if x < y then Less else if x == y then Equal else Greater
  }

  /** bytes.Compare: the first differing byte decides, a proper prefix comes first. */
  function Compare(a: Bytes, b: Bytes): Ordering {
    var k := CommonPrefix(a, b);
    if k < |a| && k < |b| then CompareInt(a[k], b[k]) else CompareInt(|a|, |b|)
  }

  /** `a` precedes `b` because of a byte in which they differ, not because it is a prefix. This is
      the relation that survives appending anything to either side. */
  predicate SplitsBelow(a: Bytes, b: Bytes) {
    var k := CommonPrefix(a, b);
    k < |a| && k < |b| && a[k] < b[k]
  }

  lemma SplitsAt(a: Bytes, b: Bytes, k: nat)
    requires k < |a| && k < |b| && a[k] < b[k]
    requires forall i :: 0 <= i < k ==> a[i] == b[i]
    ensures SplitsBelow(a, b)
  {
    assert CommonPrefix(a, b) == k;
  }

  /** Appending arbitrary suffixes and prepending a common prefix keep the strict order. */
  lemma SplitsExtends(p: Bytes, a: Bytes, b: Bytes, s: Bytes, t: Bytes)
    requires SplitsBelow(a, b)
    ensures SplitsBelow(p + a + s, p + b + t)
  {
    SplitsAt(p + a + s, p + b + t, |p| + CommonPrefix(a, b));
  }

  lemma CommonPrefixCommutes(a: Bytes, b: Bytes)
    ensures CommonPrefix(a, b) == CommonPrefix(b, a)
  {
    var k, c := CommonPrefix(a, b), CommonPrefix(b, a);
    assert !(c < k) && !(k < c);
  }

  /** What the strict order means for the store: it decides the comparison in both directions and
      neither string is a prefix of the other. */
  lemma SplitsDecides(a: Bytes, b: Bytes)
    requires SplitsBelow(a, b)
    ensures Compare(a, b) == Less && Compare(b, a) == Greater
    ensures !(a <= b) && !(b <= a)
  {
    CommonPrefixCommutes(a, b);
  }

  lemma CompareFlips(a: Bytes, b: Bytes)
    ensures Compare(a, b) == Less <==> Compare(b, a) == Greater
  {
    CommonPrefixCommutes(a, b);
  }

  lemma CompareEqual(a: Bytes, b: Bytes)
    ensures Compare(a, b) == Equal <==> a == b
  {
    var k := CommonPrefix(a, b);
    if Compare(a, b) == Equal {
      assert a == b;
    }
  }

  /** A string that sorts below another either splits from it or is a proper prefix of it. */
  lemma LessTransitive(a: Bytes, b: Bytes, c: Bytes)
    requires Compare(a, b) == Less && Compare(b, c) != Greater
    ensures Compare(a, c) == Less
  {
    CompareEqual(b, c);
    var ab, bc, ac := CommonPrefix(a, b), CommonPrefix(b, c), CommonPrefix(a, c);
    var k := if ab < bc then ab else bc;
    assert forall i :: 0 <= i < k ==> a[i] == c[i];
    assert k <= ac;
  }

  // ---- Fixed-width integers -------------------------------------------------------------------

  /** The `n` low-order bytes of `v`, most significant first. */
  function BigEndian(v: nat, n: nat): (b: Bytes)
    ensures |b| == n
  {
    if n == 0 then [] else BigEndian(v / 256, n - 1) + [v % 256]
  }

  function FromBigEndian(b: Bytes): (v: nat) {
    if b == [] then 0 else 256 * FromBigEndian(b[..|b| - 1]) + b[|b| - 1]
  }

  /** The `n` low-order bytes of `v`, least significant first. */
  function LittleEndian(v: nat, n: nat): (b: Bytes)
    ensures |b| == n
  {
    if n == 0 then [] else [v % 256] + LittleEndian(v / 256, n - 1)
  }

  function FromLittleEndian(b: Bytes): (v: nat) {
    if b == [] then 0 else b[0] + 256 * FromLittleEndian(b[1..])
  }

  function Pow256(n: nat): (p: nat)
    ensures p > 0
  {
    if n == 0 then 1 else 256 * Pow256(n - 1)
  }

  lemma PowWidths()
    ensures Pow256(4) == TWO_32 && Pow256(8) == TWO_64
  {
    assert Pow256(4) == 256 * 256 * 256 * 256 * Pow256(0);
    assert Pow256(8) == 256 * 256 * 256 * 256 * Pow256(4);
  }

  lemma {:induction false} BigEndianRoundTrip(v: nat, n: nat)
    requires v < Pow256(n)
    ensures FromBigEndian(BigEndian(v, n)) == v
  {
    if n > 0 {
      BigEndianRoundTrip(v / 256, n - 1);
      var b := BigEndian(v, n);
      assert b[..|b| - 1] == BigEndian(v / 256, n - 1);
    }
  }

  lemma {:induction false} LittleEndianRoundTrip(v: nat, n: nat)
    requires v < Pow256(n)
    ensures FromLittleEndian(LittleEndian(v, n)) == v
  {
    if n > 0 {
      LittleEndianRoundTrip(v / 256, n - 1);
      assert LittleEndian(v, n)[1..] == LittleEndian(v / 256, n - 1);
    }
  }

  lemma {:induction false} FromBigEndianRoundTrip(b: Bytes)
    ensures FromBigEndian(b) < Pow256(|b|)
    ensures BigEndian(FromBigEndian(b), |b|) == b
  {
    if b != [] {
      FromBigEndianRoundTrip(b[..|b| - 1]);
    }
  }

  /** Big-endian layout turns numeric order into byte order. */
  lemma {:induction false} BigEndianSplits(v: nat, w: nat, n: nat)
    requires v < w < Pow256(n)
    ensures SplitsBelow(BigEndian(v, n), BigEndian(w, n))
  {
    var a, b := BigEndian(v / 256, n - 1), BigEndian(w / 256, n - 1);
    if v / 256 == w / 256 {
      SplitsAt(a + [v % 256], b + [w % 256], n - 1);
    } else {
      BigEndianSplits(v / 256, w / 256, n - 1);
      SplitsAt(a + [v % 256], b + [w % 256], CommonPrefix(a, b));
    }
  }

  lemma NestedDivision(v: nat, p: nat)
    requires p > 0
    ensures v / 256 / p == v / (256 * p)
  {
    var q := v / (256 * p);
    var r := v - 256 * p * q;
    assert 0 <= r < 256 * p;
    assert v / 256 == p * q + r / 256 by {
      assert v == 256 * (p * q) + r;
    }
    assert (p * q + r / 256) / p == q by {
      var t := r / 256;
      assert 0 <= t < p;
      DivisionOfSum(q, t, p);
    }
  }

  lemma {:induction false} MulGap(p: nat, a: nat, b: nat)
    ensures a < b ==> p * a + p <= p * b
  {
    if a < b {
      assert p * b == p * (b - 1) + p;
      MulGap(p, a, b - 1);
    }
  }

  lemma DivisionOfSum(q: nat, t: nat, p: nat)
    requires t < p
    ensures (p * q + t) / p == q
  {
    var d := (p * q + t) / p;
    assert p * d <= p * q + t < p * d + p;
    MulGap(p, d, q);
    MulGap(p, q, d);
  }

  /** Byte `i` of the layout is the value shifted right to that byte and truncated, as the append
      functions write it. */
  lemma {:induction false} BigEndianAt(v: nat, n: nat, i: nat)
    requires i < n
    ensures BigEndian(v, n)[i] == v / Pow256(n - 1 - i) % 256
  {
    if i < n - 1 {
      BigEndianAt(v / 256, n - 1, i);
      NestedDivision(v, Pow256(n - 2 - i));
    }
  }

  lemma {:induction false} LittleEndianAt(v: nat, n: nat, i: nat)
    requires i < n
    ensures LittleEndian(v, n)[i] == v / Pow256(i) % 256
  {
    if i > 0 {
      LittleEndianAt(v / 256, n - 1, i - 1);
      NestedDivision(v, Pow256(i - 1));
    }
  }

  /** ReadUint64FromBufferBE; a short buffer makes the source panic, modelled as Err. */
  function ReadUint64BE(buffer: Bytes, offset: nat): (r: Result<(U64, nat)>) {
    if offset + 8 <= |buffer| then
      FromBigEndianRoundTrip(buffer[offset..offset + 8]);
      PowWidths();
      Ok((FromBigEndian(buffer[offset..offset + 8]), offset + 8))
    else Err
  }

  lemma ReadUint64BEInverse(pre: Bytes, v: U64, rest: Bytes)
    ensures ReadUint64BE(pre + BigEndian(v, 8) + rest, |pre|) == Ok((v, |pre| + 8))
  {
    var buffer := pre + BigEndian(v, 8) + rest;
    assert buffer[|pre|..|pre| + 8] == BigEndian(v, 8);
    PowWidths();
    BigEndianRoundTrip(v, 8);
  }
}
