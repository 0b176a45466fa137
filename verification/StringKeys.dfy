/** Order-preserving encoding of strings inside keys: groups of eight bytes, each followed by a
    marker byte that is 255 minus the number of padding bytes in the group. */
module StringKeys {
  import opened Bytes

  const GROUP: nat := 8
  const MARKER: Byte := 255

  function Zeros(n: nat): (z: Bytes)
    ensures |z| == n
    ensures forall i :: 0 <= i < n ==> z[i] == 0
  {
    seq(n, _ => 0)
  }

  /** The encoding as a recursion over groups. */
  function EncodeString(d: Bytes): (e: Bytes)
    ensures |e| >= GROUP + 1
  {
    if |d| < GROUP then d + Zeros(GROUP - |d|) + [MARKER - (GROUP - |d|)]
    else d[..GROUP] + [MARKER] + EncodeString(d[GROUP..])
  }

  lemma {:induction false} EncodingLength(d: Bytes)
    ensures |EncodeString(d)| == 9 * (|d| / 8 + 1)
  {
    if |d| >= 8 {
      EncodingLength(d[8..]);
    }
  }

  lemma {:induction false} LaterGroup(first: Bytes, rest: Bytes, k: nat)
    requires |first| == 8 && k < |rest|
    ensures (first + [MARKER] + rest)[9 + k] == rest[k]
  {
  }

  /** The layout of an encoding: in nine bytes for every eight of the string, and nine more for what is left, byte j of
      group g is byte 8 * g + j of the string, or zero behind its end, and the ninth byte is 255 less the number
      of such zeros. */
  lemma {:induction false} EncodingAt(d: Bytes, g: nat, j: nat)
    requires 8 * g <= |d| && j <= 8
    ensures |EncodeString(d)| == 9 * (|d| / 8 + 1) && 9 * g + j < |EncodeString(d)|
    ensures var left := |d| - 8 * g;
            EncodeString(d)[9 * g + j]
            == if j == 8 then (if left >= 8 then 255 else 255 - (8 - left)) else if j < left then d[8 * g + j] else 0
    decreases g
  {
    EncodingLength(d);
    if g > 0 {
      EncodingAt(d[8..], g - 1, j);
      var k := 9 * (g - 1) + j;
      LaterGroup(d[..8], EncodeString(d[8..]), k);
      assert EncodeString(d)[9 * g + j] == EncodeString(d[8..])[k];
    } else {
      FirstGroupAt(d, j);
    }
  }

  lemma FirstGroupAt(d: Bytes, j: nat)
    requires j <= 8
    ensures EncodeString(d)[j]
         == if j == 8 then (if |d| >= 8 then 255 else 255 - (8 - |d|)) else if j < |d| then d[j] else 0
  {
  }

  /** KeyEncodeString: appends the groups one by one. */
  method KeyEncodeString(buff: Bytes, data: Bytes) returns (out: Bytes)
    ensures out == buff + EncodeString(data)
  {
    out := buff;
    var idx := 0;
    var done := false;
    while idx <= |data|
      invariant !done ==> 0 <= idx <= |data| && out + EncodeString(data[idx..]) == buff + EncodeString(data)
      invariant done ==> idx > |data| && out == buff + EncodeString(data)
      decreases |data| + GROUP - idx
    {
      var remain := |data| - idx;
      var padCount := 0;
      var rest := data[idx..];
      ghost var before := out;
      if remain >= GROUP {
        out := out + data[idx..idx + GROUP];
      } else {
        padCount := GROUP - remain;
        out := out + data[idx..];
        out := out + Zeros(padCount);
        done := true;
      }
      var marker := MARKER - padCount;
      out := out + [marker];
      if !done {
        assert rest[..GROUP] == data[idx..idx + GROUP] && rest[GROUP..] == data[idx + GROUP..];
        assert out + EncodeString(data[idx + GROUP..]) == before + EncodeString(rest);
      } else {
        assert out == before + EncodeString(rest);
      }
      idx := idx + GROUP;
    }
  }

  /** The string and the offset just after it, or an error, as a recursion over groups. */
  function DecodeString(buffer: Bytes, offset: nat): (r: Result<(Bytes, nat)>)
    decreases |buffer| - offset
  {
    if offset + GROUP + 1 > |buffer| then Err
    else
      var group := buffer[offset..offset + GROUP];
      var padCount := MARKER - buffer[offset + GROUP];
      if padCount > GROUP then Err
      else if padCount == 0 then
        var (tail, end) :- DecodeString(buffer, offset + GROUP + 1);
        Ok((group + tail, end))
      else if group[GROUP - padCount..] != Zeros(padCount) then Err
      else Ok((group[..GROUP - padCount], offset + GROUP + 1))
  }

  /** The decoder's check of the padding bytes, one by one. */
  method PaddingValid(group: Bytes, from: nat) returns (ok: bool)
    requires from <= |group|
    ensures ok <==> group[from..] == Zeros(|group| - from)
  {
    var i := from;
    while i < |group|
      invariant from <= i <= |group|
      invariant forall j :: from <= j < i ==> group[j] == 0
    {
      if group[i] != 0 {
        assert group[from..][i - from] != Zeros(|group| - from)[i - from];
        return false;
      }
      i := i + 1;
    }
    return true;
  }

  /** What remains to be decoded at `offset`, put behind the part already decoded. */
  function Continue(res: Bytes, rest: Result<(Bytes, nat)>): Result<(Bytes, nat)> {
    match rest case Err => Err case Ok(p) => Ok((res + p.0, p.1))
  }

  lemma ContinueAppends(a: Bytes, b: Bytes, rest: Result<(Bytes, nat)>)
    ensures Continue([], rest) == rest
    ensures Continue(a, Continue(b, rest)) == Continue(a + b, rest)
  {
    if rest.Ok? {
      assert [] + rest.value.0 == rest.value.0;
      assert a + (b + rest.value.0) == (a + b) + rest.value.0;
    }
  }

  /** KeyDecodeString: the loop that consumes one group per iteration. An offset beyond the buffer
      makes the source panic and is excluded. */
  method KeyDecodeString(buffer: Bytes, offset: nat) returns (r: Result<(Bytes, nat)>)
    requires offset <= |buffer|
    ensures r == DecodeString(buffer, offset)
  {
    var res: Bytes := [];
    var off := offset;
    ContinueAppends([], [], DecodeString(buffer, off));
    while true
      invariant offset <= off <= |buffer|
      invariant DecodeString(buffer, offset) == Continue(res, DecodeString(buffer, off))
      decreases |buffer| - off
    {
      if |buffer| - off < GROUP + 1 {
        return Err;
      }
      var group := buffer[off..off + GROUP];
      var padCount := MARKER - buffer[off + GROUP];
      if padCount > GROUP {
        return Err;
      }
      var realGroupSize := GROUP - padCount;
      if padCount != 0 {
        var ok := PaddingValid(group, realGroupSize);
        return if ok then Ok((res + group[..realGroupSize], off + GROUP + 1)) else Err;
      }
      ContinueAppends(res, group, DecodeString(buffer, off + GROUP + 1));
      assert DecodeString(buffer, off) == Continue(group, DecodeString(buffer, off + GROUP + 1));
      assert group[..realGroupSize] == group;
      res := res + group[..realGroupSize];
      off := off + GROUP + 1;
    }
  }

  // ---- Order ------------------------------------------------------------------------------------

  /** The first group of the encoding, including its marker. */
  function FirstGroup(d: Bytes): (g: Bytes)
    ensures |g| == GROUP + 1
    ensures g <= EncodeString(d)
    ensures forall i :: 0 <= i < GROUP ==> g[i] == if i < |d| then d[i] else 0
    ensures g[GROUP] == if |d| < GROUP then MARKER - (GROUP - |d|) else MARKER
  {
    if |d| < GROUP then d + Zeros(GROUP - |d|) + [MARKER - (GROUP - |d|)] else d[..GROUP] + [MARKER]
  }

  /** Byte order of strings becomes strict, prefix-free byte order of their encodings. */
  lemma {:induction false} EncodeStringSplits(a: Bytes, b: Bytes)
    requires Compare(a, b) == Less
    ensures SplitsBelow(EncodeString(a), EncodeString(b))
    decreases |a|
  {
    var k := CommonPrefix(a, b);
    if |a| >= GROUP && |b| >= GROUP && k >= GROUP {
      TailsCompare(a, b);
      EncodeStringSplits(a[GROUP..], b[GROUP..]);
      assert a[..GROUP] == b[..GROUP];
      SplitsExtends(a[..GROUP] + [MARKER], EncodeString(a[GROUP..]), EncodeString(b[GROUP..]), [], []);
      assert (a[..GROUP] + [MARKER]) + EncodeString(a[GROUP..]) + [] == EncodeString(a);
      assert (b[..GROUP] + [MARKER]) + EncodeString(b[GROUP..]) + [] == EncodeString(b);
    } else {
      FirstGroupsSplit(a, b);
      var ga, gb := FirstGroup(a), FirstGroup(b);
      var ea, eb := EncodeString(a), EncodeString(b);
      SplitsAt(ea, eb, CommonPrefix(ga, gb));
    }
  }

  lemma TailsShare(a: Bytes, b: Bytes)
    requires |a| >= GROUP && |b| >= GROUP && CommonPrefix(a, b) >= GROUP
    ensures CommonPrefix(a[GROUP..], b[GROUP..]) == CommonPrefix(a, b) - GROUP
  {
    hide CommonPrefix;
    var k := CommonPrefix(a, b);
    forall i | 0 <= i < k - GROUP ensures a[GROUP..][i] == b[GROUP..][i] {
      assert a[i + GROUP] == b[i + GROUP];
    }
    CommonPrefixIs(a[GROUP..], b[GROUP..], k - GROUP);
  }

  lemma CommonPrefixIs(a: Bytes, b: Bytes, k: nat)
    requires k <= |a| && k <= |b| && (forall i :: 0 <= i < k ==> a[i] == b[i])
    requires k < |a| && k < |b| ==> a[k] != b[k]
    ensures CommonPrefix(a, b) == k
  {
    hide CommonPrefix;
    var c := CommonPrefix(a, b);
    assert !(c < k) && !(k < c);
  }

  lemma TailsCompare(a: Bytes, b: Bytes)
    requires |a| >= GROUP && |b| >= GROUP && CommonPrefix(a, b) >= GROUP
    ensures Compare(a[GROUP..], b[GROUP..]) == Compare(a, b)
  {
    hide CommonPrefix;
    TailsShare(a, b);
  }

  /** When the strings part within the first group, or one ends there, the first groups decide:
      by a data byte, by padding against a non-zero byte, or by the marker. */
  lemma FirstGroupsSplit(a: Bytes, b: Bytes)
    requires Compare(a, b) == Less
    requires |a| < GROUP || CommonPrefix(a, b) < GROUP
    ensures SplitsBelow(FirstGroup(a), FirstGroup(b))
  {
    var ga, gb := FirstGroup(a), FirstGroup(b);
    var k := CommonPrefix(a, b);
    if k < |a| {
      SplitsAt(ga, gb, k);
    } else {
      var c := CommonPrefix(ga, gb);
      assert forall i :: 0 <= i < |a| ==> ga[i] == a[i] == b[i];
      if c < GROUP {
        assert c >= |a|;
      }
    }
  }

  // ---- Round trip -------------------------------------------------------------------------------

  /** Decoding undoes encoding wherever the encoding sits and whatever follows it. */
  lemma {:induction false} DecodeEncode(pre: Bytes, d: Bytes, rest: Bytes)
    ensures DecodeString(pre + EncodeString(d) + rest, |pre|) == Ok((d, |pre| + |EncodeString(d)|))
    decreases |d|
  {
    var buffer := pre + EncodeString(d) + rest;
    var group := buffer[|pre|..|pre| + GROUP];
    if |d| < GROUP {
      assert buffer[|pre| + GROUP] == MARKER - (GROUP - |d|);
      assert group == d + Zeros(GROUP - |d|);
      assert group[|d|..] == Zeros(GROUP - |d|) && group[..|d|] == d;
    } else {
      var pre' := pre + d[..GROUP] + [MARKER];
      DecodeEncode(pre', d[GROUP..], rest);
      assert buffer == pre' + EncodeString(d[GROUP..]) + rest;
      assert group == d[..GROUP];
      assert group + d[GROUP..] == d;
    }
  }

  /** Only encodings decode: whatever the decoder accepts is exactly the encoding of its result. */
  lemma {:induction false} EncodeDecode(buffer: Bytes, offset: nat)
    requires offset <= |buffer| && DecodeString(buffer, offset).Ok?
    ensures var (d, end) := DecodeString(buffer, offset).value;
            offset < end <= |buffer| && buffer[offset..end] == EncodeString(d)
    decreases |buffer| - offset
  {
    var (d, end) := DecodeString(buffer, offset).value;
    var group := buffer[offset..offset + GROUP];
    var padCount := MARKER - buffer[offset + GROUP];
    if padCount == 0 {
      var next := offset + GROUP + 1;
      EncodeDecode(buffer, next);
      assert d[..GROUP] == group && d[GROUP..] == DecodeString(buffer, next).value.0;
      assert buffer[offset..end] == group + [MARKER] + buffer[next..end];
    } else {
      assert group == group[..GROUP - padCount] + group[GROUP - padCount..];
      assert buffer[offset..end] == group + [buffer[offset + GROUP]];
    }
  }
}
