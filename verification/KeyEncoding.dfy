/** Memcomparable encoding of single column values: signed integers, doubles, timestamps, decimals
    and strings. 64-bit words are integers below 2^64 and the bit operations of the source are
    written out as arithmetic on them. */
module KeyEncoding {
  import opened Bytes
  import StringKeys

  type I64 = x: int | -0x8000_0000_0000_0000 <= x < 0x8000_0000_0000_0000

  // ---- Signed integers ------------------------------------------------------------------------

  /** The two's complement word of a signed integer, and back. */
  function ToWord(v: I64): U64 { if v < 0 then v + TWO_64 else v }

  function FromWord(u: U64): I64 { if u >= TWO_63 then u - TWO_64 else u }

  /** Exclusive or with the sign bit. */
  function FlipSign(u: U64): U64 { if u >= TWO_63 then u - TWO_63 else u + TWO_63 }

  function IntKey(v: I64): U64 { FlipSign(ToWord(v)) }

  function IntOfKey(u: U64): I64 { FromWord(FlipSign(u)) }

  lemma IntKeyOrder(v: I64, w: I64)
    ensures CompareInt(IntKey(v), IntKey(w)) == CompareInt(v, w)
    ensures IntOfKey(IntKey(v)) == v
  {
  }

  /** The key of an integer is the integer counted from the smallest one. */
  lemma IntKeyCounts(v: I64)
    ensures IntKey(v) == v + 0x8000_0000_0000_0000
  {
  }

  // ---- Doubles --------------------------------------------------------------------------------

  const TWO_52: nat := 0x10_0000_0000_0000

  function Pow2(n: nat): (p: nat)
    ensures p > 0
  {
    if n == 0 then 1 else 2 * Pow2(n - 1)
  }

  lemma {:induction false} Pow2Grows(m: nat, n: nat)
    requires m <= n
    ensures Pow2(m) <= Pow2(n)
  {
    if m < n {
      Pow2Grows(m, n - 1);
    }
  }

  predicate Negative(u: U64) { u >= TWO_63 }

  /** Exponent and fraction bits together. */
  function Magnitude(u: U64): nat { if Negative(u) then u - TWO_63 else u }

  predicate IsNaN(u: U64) { Magnitude(u) > 2047 * TWO_52 }

  /** The magnitude a bit pattern stands for in binary64 (section 3.4 of IEEE 754-2019), in units of
      the smallest subnormal. The pattern of infinity gets a value above every finite one. */
  function MagnitudeValue(m: nat): nat {
    var exponent: nat, fraction: nat := m / TWO_52, m % TWO_52;
    if exponent == 0 then fraction else (TWO_52 + fraction) * Pow2(exponent - 1)
  }

  function FloatValue(u: U64): int {
    if Negative(u) then 0 - MagnitudeValue(Magnitude(u)) else MagnitudeValue(Magnitude(u))
  }

  lemma ScaleGrows(a: nat, b: nat, p: nat)
    requires p > 0 && a < b
    ensures a * p < b * p
  {
  }

  lemma MagnitudeValueGrows(m: nat, n: nat)
    requires m < n
    ensures MagnitudeValue(m) < MagnitudeValue(n)
  {
    var e, f, e', f' := m / TWO_52, m % TWO_52, n / TWO_52, n % TWO_52;
    if e == e' {
      if e > 0 {
        ScaleGrows(TWO_52 + f, TWO_52 + f', Pow2(e - 1));
      }
    } else {
      assert MagnitudeValue(m) < TWO_52 * Pow2(e) by {
        if e > 0 {
          ScaleGrows(TWO_52 + f, 2 * TWO_52, Pow2(e - 1));
        }
      }
      Pow2Grows(e, e' - 1);
      assert TWO_52 * Pow2(e) <= TWO_52 * Pow2(e' - 1);
      assert (TWO_52 + f') * Pow2(e' - 1) >= TWO_52 * Pow2(e' - 1);
    }
  }

  /** KeyEncodeFloat64: `val >= 0` is false for NaN and true for negative zero. */
  function FloatKey(u: U64): U64 {
    if !IsNaN(u) && FloatValue(u) >= 0 then (if Negative(u) then u else u + TWO_63)
    else TWO_64 - 1 - u
  }

  function FloatOfKey(k: U64): U64 {
    if k >= TWO_63 then k - TWO_63 else TWO_64 - 1 - k
  }

  lemma FloatValueSign(u: U64)
    ensures FloatValue(u) == 0 <==> Magnitude(u) == 0
    ensures FloatValue(u) < 0 <==> Negative(u) && Magnitude(u) > 0
  {
    if Magnitude(u) > 0 {
      MagnitudeValueGrows(0, Magnitude(u));
    }
  }

  /** Key order is numeric order for every pair of numbers; the two zeros share one key. */
  lemma FloatKeyOrder(u: U64, w: U64)
    requires !IsNaN(u) && !IsNaN(w)
    ensures CompareInt(FloatKey(u), FloatKey(w)) == CompareInt(FloatValue(u), FloatValue(w))
  {
    FloatValueSign(u);
    FloatValueSign(w);
    var m, n := Magnitude(u), Magnitude(w);
    if m < n {
      MagnitudeValueGrows(m, n);
    } else if n < m {
      MagnitudeValueGrows(n, m);
    }
  }

  const NEGATIVE_ZERO: U64 := 0x8000_0000_0000_0000

  /** Exactly which doubles survive the round trip: all but negative zero, which comes back as
      positive zero, and the NaNs whose sign bit is clear, which come back as numbers. */
  lemma FloatRoundTrip(u: U64)
    ensures FloatOfKey(FloatKey(u)) == u <==> u != NEGATIVE_ZERO && !(IsNaN(u) && !Negative(u))
    ensures FloatOfKey(FloatKey(NEGATIVE_ZERO)) == 0
    ensures IsNaN(u) && !Negative(u) ==> !IsNaN(FloatOfKey(FloatKey(u)))
  {
    FloatValueSign(u);
    FloatValueSign(NEGATIVE_ZERO);
  }

  // ---- Columns ----------------------------------------------------------------------------------

  datatype ColumnType = IntColumn | DoubleColumn | VarcharColumn | TimestampColumn
                      | DecimalColumn(width: nat) | UnknownColumn

  /** A timestamp is its packed word; a decimal is its fixed-width order-preserving bytes. */
  datatype Value = IntValue(i: I64) | DoubleValue(bits: U64) | StringValue(s: Bytes)
                 | TimestampValue(packed: U64) | DecimalValue(digits: Bytes)

  predicate HasType(v: Value, t: ColumnType) {
    match t
    case IntColumn => v.IntValue?
    case DoubleColumn => v.DoubleValue?
    case VarcharColumn => v.StringValue?
    case TimestampColumn => v.TimestampValue?
    case DecimalColumn(width) => v.DecimalValue? && |v.digits| == width
    case UnknownColumn => true
  }

  /** EncodeKeyCol. */
  function EncodeColumn(v: Value, t: ColumnType): (r: Result<Bytes>)
    requires HasType(v, t)
    ensures r.Ok? <==> t != UnknownColumn
  {
    match t
    case IntColumn => Ok(BigEndian(IntKey(v.i), 8))
    case DoubleColumn => Ok(BigEndian(FloatKey(v.bits), 8))
    case VarcharColumn => Ok(StringKeys.EncodeString(v.s))
    case TimestampColumn => Ok(BigEndian(v.packed, 8))
    case DecimalColumn(_) => Ok(v.digits)
    case UnknownColumn => Err
  }

  function DecodeColumn(buffer: Bytes, offset: nat, t: ColumnType): Result<(Value, nat)> {
    match t
    case IntColumn =>
      var (u, end) :- ReadUint64BE(buffer, offset);
      Ok((IntValue(IntOfKey(u)), end))
    case DoubleColumn =>
      var (u, end) :- ReadUint64BE(buffer, offset);
      Ok((DoubleValue(FloatOfKey(u)), end))
    case VarcharColumn =>
      var (s, end) :- StringKeys.DecodeString(buffer, offset);
      Ok((StringValue(s), end))
    case TimestampColumn =>
      var (u, end) :- ReadUint64BE(buffer, offset);
      Ok((TimestampValue(u), end))
    case DecimalColumn(width) =>
      if offset + width <= |buffer| then Ok((DecimalValue(buffer[offset..offset + width]), offset + width)) else Err
    case UnknownColumn => Err
  }

  /** Values that have a place in the column's order. */
  predicate Orderable(v: Value) { v.DoubleValue? ==> !IsNaN(v.bits) }

  function CompareValue(v: Value, w: Value, t: ColumnType): Ordering
    requires HasType(v, t) && HasType(w, t) && t != UnknownColumn
  {
    match t
    case IntColumn => CompareInt(v.i, w.i)
    case DoubleColumn => CompareInt(FloatValue(v.bits), FloatValue(w.bits))
    case VarcharColumn => Compare(v.s, w.s)
    case TimestampColumn => CompareInt(v.packed, w.packed)
    case DecimalColumn(_) => Compare(v.digits, w.digits)
  }

  function Canonical(v: Value): Value {
    if v == DoubleValue(NEGATIVE_ZERO) then DoubleValue(0) else v
  }

  /** The three outcomes of a comparison, as facts about two encodings that hold whatever is
      appended to them. */
  predicate Embeds(o: Ordering, a: Bytes, b: Bytes) {
    match o
    case Less => SplitsBelow(a, b)
    case Equal => a == b
    case Greater => SplitsBelow(b, a)
  }

  lemma WordEmbeds(u: U64, w: U64)
    ensures Embeds(CompareInt(u, w), BigEndian(u, 8), BigEndian(w, 8))
  {
    PowWidths();
    if u < w {
      BigEndianSplits(u, w, 8);
    } else if w < u {
      BigEndianSplits(w, u, 8);
    }
  }

  lemma StringEmbeds(a: Bytes, b: Bytes)
    ensures Embeds(Compare(a, b), StringKeys.EncodeString(a), StringKeys.EncodeString(b))
  {
    CompareEqual(a, b);
    CompareFlips(b, a);
    if Compare(a, b) == Less {
      StringKeys.EncodeStringSplits(a, b);
    } else if Compare(a, b) == Greater {
      StringKeys.EncodeStringSplits(b, a);
    }
  }

  lemma FixedWidthEmbeds(a: Bytes, b: Bytes)
    requires |a| == |b|
    ensures Embeds(Compare(a, b), a, b)
  {
    CompareEqual(a, b);
    CommonPrefixCommutes(a, b);
  }

  lemma ColumnEmbeds(v: Value, w: Value, t: ColumnType)
    requires HasType(v, t) && HasType(w, t) && t != UnknownColumn
    requires Orderable(v) && Orderable(w)
    ensures Embeds(CompareValue(v, w, t), EncodeColumn(v, t).value, EncodeColumn(w, t).value)
  {
    match t
    case IntColumn =>
      IntKeyOrder(v.i, w.i);
      WordEmbeds(IntKey(v.i), IntKey(w.i));
    case DoubleColumn =>
      FloatKeyOrder(v.bits, w.bits);
      WordEmbeds(FloatKey(v.bits), FloatKey(w.bits));
    case VarcharColumn => StringEmbeds(v.s, w.s);
    case TimestampColumn => WordEmbeds(v.packed, w.packed);
    case DecimalColumn(_) => FixedWidthEmbeds(v.digits, w.digits);
  }

  lemma ColumnRoundTrip(pre: Bytes, v: Value, t: ColumnType, rest: Bytes)
    requires HasType(v, t) && t != UnknownColumn && Orderable(v)
    ensures var e := EncodeColumn(v, t).value;
            DecodeColumn(pre + e + rest, |pre|, t) == Ok((Canonical(v), |pre| + |e|))
  {
    hide BigEndian, FromBigEndian, ReadUint64BE, FloatKey, FloatOfKey, StringKeys.EncodeString, StringKeys.DecodeString;
    match t
    case IntColumn =>
      ReadUint64BEInverse(pre, IntKey(v.i), rest);
      IntKeyOrder(v.i, v.i);
    case DoubleColumn =>
      ReadUint64BEInverse(pre, FloatKey(v.bits), rest);
      FloatRoundTrip(v.bits);
    case VarcharColumn => StringKeys.DecodeEncode(pre, v.s, rest);
    case TimestampColumn => ReadUint64BEInverse(pre, v.packed, rest);
    case DecimalColumn(_) =>
      assert (pre + v.digits + rest)[|pre|..|pre| + |v.digits|] == v.digits;
  }
}
