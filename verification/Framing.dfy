/** Message framing on a byte stream: a type byte, a 32-bit length and the body. The reader gets the
    stream in arbitrary chunks and calls a handler for every whole message. */
module Framing {
  import opened Bytes

  const HEADER: nat := 5

  datatype Message = Message(kind: Byte, body: Bytes)

  /** writeMessage: the length field holds the low 32 bits of the length. */
  function Frame(m: Message): (f: Bytes)
    ensures |f| == HEADER + |m.body|
  {
    [m.kind] + LittleEndian(|m.body| % TWO_32, 4) + m.body
  }

  function Stream(ms: seq<Message>): Bytes {
    if ms == [] then [] else Stream(ms[..|ms| - 1]) + Frame(ms[|ms| - 1])
  }

  function Concat(chunks: seq<Bytes>): Bytes {
    if chunks == [] then [] else Concat(chunks[..|chunks| - 1]) + chunks[|chunks| - 1]
  }

  // ---- Cutting a buffer into bodies ---------------------------------------------------------------

  /** The length of the first frame, once its header has arrived. */
  function FrameLength(buf: Bytes): nat
    requires |buf| >= HEADER
  {
    HEADER + FromLittleEndian(buf[1..HEADER])
  }

  predicate HasFrame(buf: Bytes) { |buf| >= HEADER && |buf| >= FrameLength(buf) }

  /** The bodies of the whole frames at the start of the buffer, and what is left. */
  function Bodies(buf: Bytes): (seq<Bytes>, Bytes)
    decreases |buf|
  {
    if !HasFrame(buf) then ([], buf)
    else
      var n := FrameLength(buf);
      var (bodies, rest) := Bodies(buf[n..]);
      ([buf[HEADER..n]] + bodies, rest)
  }

  /** Cutting what is left together with what comes next is the same as cutting everything at once. */
  lemma {:induction false} BodiesAppend(a: Bytes, b: Bytes)
    ensures var (bodies, rest) := Bodies(a);
            var (more, rest') := Bodies(rest + b);
            Bodies(a + b) == (bodies + more, rest')
    decreases |a|
  {
    if HasFrame(a) {
      var n := FrameLength(a);
      BodiesAppend(a[n..], b);
      assert (a + b)[1..HEADER] == a[1..HEADER] && (a + b)[HEADER..n] == a[HEADER..n] && (a + b)[n..] == a[n..] + b;
      var (bodies, rest) := Bodies(a[n..]);
      var (more, rest') := Bodies(rest + b);
      assert [a[HEADER..n]] + (bodies + more) == ([a[HEADER..n]] + bodies) + more;
    } else {
      assert [] + Bodies(a + b).0 == Bodies(a + b).0;
    }
  }

  predicate Sendable(m: Message) { |m.body| < TWO_32 }

  /** The header says how long the body is. */
  lemma HeaderLength(m: Message)
    requires Sendable(m)
    ensures FromLittleEndian(Frame(m)[1..HEADER]) == |m.body| && Frame(m)[HEADER..] == m.body
  {
    hide LittleEndian, FromLittleEndian;
    assert Frame(m)[1..HEADER] == LittleEndian(|m.body|, 4);
    PowWidths();
    LittleEndianRoundTrip(|m.body|, 4);
  }

  lemma FrameBodies(m: Message, rest: Bytes)
    requires Sendable(m)
    ensures Bodies(Frame(m) + rest) == ([m.body] + Bodies(rest).0, Bodies(rest).1)
  {
    hide FromLittleEndian, Frame;
    var buf := Frame(m) + rest;
    HeaderLength(m);
    assert buf[1..HEADER] == Frame(m)[1..HEADER];
    assert buf[HEADER..HEADER + |m.body|] == m.body && buf[HEADER + |m.body|..] == rest;
  }

  function BodiesOf(ms: seq<Message>): (bs: seq<Bytes>)
    ensures |bs| == |ms| && forall i :: 0 <= i < |ms| ==> bs[i] == ms[i].body
  {
    if ms == [] then [] else BodiesOf(ms[..|ms| - 1]) + [ms[|ms| - 1].body]
  }

  /** A stream followed by an unfinished frame is cut into exactly its messages. */
  lemma {:induction false} StreamBodies(ms: seq<Message>, tail: Bytes)
    requires forall i :: 0 <= i < |ms| ==> Sendable(ms[i])
    ensures Bodies(Stream(ms) + tail) == (BodiesOf(ms) + Bodies(tail).0, Bodies(tail).1)
  {
    if ms == [] {
      assert Stream(ms) + tail == tail;
      assert BodiesOf(ms) + Bodies(tail).0 == Bodies(tail).0;
    } else {
      var n := |ms| - 1;
      var last := Frame(ms[n]);
      assert Stream(ms) + tail == Stream(ms[..n]) + (last + tail);
      StreamBodies(ms[..n], last + tail);
      FrameBodies(ms[n], tail);
      assert BodiesOf(ms[..n]) + ([ms[n].body] + Bodies(tail).0) == BodiesOf(ms) + Bodies(tail).0;
    }
  }

  // ---- Reading in chunks --------------------------------------------------------------------------

  datatype Reader = Reader(delivered: seq<Message>, buf: Bytes)

  function Label(kind: Byte, bodies: seq<Bytes>): (ms: seq<Message>)
    ensures |ms| == |bodies| && forall i :: 0 <= i < |bodies| ==> ms[i] == Message(kind, bodies[i])
  {
    seq(|bodies|, i requires 0 <= i < |bodies| => Message(kind, bodies[i]))
  }

  /** One socket read: the type byte is taken from the front of the buffer once, for all messages the
      read completes. */
  function ReadChunk(r: Reader, chunk: Bytes): Reader
    requires chunk != []
  {
    var buf := r.buf + chunk;
    var (bodies, rest) := Bodies(buf);
    Reader(r.delivered + Label(buf[0], bodies), rest)
  }

  predicate NonEmpty(chunks: seq<Bytes>) {
    forall i :: 0 <= i < |chunks| ==> chunks[i] != []
  }

  function ReadAll(chunks: seq<Bytes>): Reader
    requires NonEmpty(chunks)
  {
    if chunks == [] then Reader([], []) else ReadChunk(ReadAll(chunks[..|chunks| - 1]), chunks[|chunks| - 1])
  }

  /** However the stream is cut, the bodies handed over are those of the whole stream. */
  lemma {:induction false} ReadBodies(chunks: seq<Bytes>)
    requires NonEmpty(chunks)
    ensures (BodiesOf(ReadAll(chunks).delivered), ReadAll(chunks).buf) == Bodies(Concat(chunks))
  {
    hide Bodies, BodiesOf;
    if chunks == [] {
      NoBodies();
    } else {
      var n := |chunks| - 1;
      var r := ReadAll(chunks[..n]);
      ReadBodies(chunks[..n]);
      BodiesAppend(Concat(chunks[..n]), chunks[n]);
      LabelBodies(r.delivered, (r.buf + chunks[n])[0], Bodies(r.buf + chunks[n]).0);
    }
  }

  lemma NoBodies()
    ensures Bodies([]) == ([], []) && BodiesOf([]) == []
  {
  }

  lemma LabelBodies(ms: seq<Message>, kind: Byte, bodies: seq<Bytes>)
    ensures BodiesOf(ms + Label(kind, bodies)) == BodiesOf(ms) + bodies
  {
  }

  lemma UnfinishedTail(m: Message, tail: Bytes)
    requires Sendable(m) && tail < Frame(m)
    ensures Bodies(tail) == ([], tail)
  {
    hide FromLittleEndian, Frame;
    HeaderLength(m);
    if |tail| >= HEADER {
      assert tail[1..HEADER] == Frame(m)[1..HEADER];
    }
  }

  /** A prefix of a stream is some whole messages and the start of the next one. */
  predicate CutAt(ms: seq<Message>, x: Bytes, k: nat, tail: Bytes) {
    k <= |ms| && x == Stream(ms[..k]) + tail && if k == |ms| then tail == [] else tail < Frame(ms[k])
  }

  lemma {:induction false} Cut(ms: seq<Message>, x: Bytes) returns (k: nat, tail: Bytes)
    requires x <= Stream(ms)
    ensures CutAt(ms, x, k, tail)
  {
    if |x| == |Stream(ms)| {
      assert ms[..|ms|] == ms;
      k, tail := |ms|, [];
      assert x == Stream(ms) == Stream(ms) + [];
    } else {
      var n := |ms| - 1;
      var front := Stream(ms[..n]);
      if |x| < |front| {
        assert x <= front;
        k, tail := Cut(ms[..n], x);
        assert ms[..n][..k] == ms[..k];
      } else {
        k, tail := n, x[|front|..];
        assert Stream(ms)[..|x|] == front + Frame(ms[n])[..|x| - |front|];
        assert x == front + tail;
      }
    }
  }

  lemma {:induction false} StreamContinues(ms: seq<Message>, k: nat)
    requires k < |ms|
    ensures Stream(ms[..k]) + Frame(ms[k]) <= Stream(ms)
    decreases |ms|
  {
    var n := |ms| - 1;
    if k < n {
      StreamContinues(ms[..n], k);
      assert ms[..n][..k] == ms[..k];
    }
  }

  /** The byte the reader takes for the type is the type byte of the first unfinished message. */
  lemma FirstByteIsKind(ms: seq<Message>, k: nat, buf: Bytes)
    requires k <= |ms| && buf != [] && Stream(ms[..k]) + buf <= Stream(ms)
    ensures k < |ms| && buf[0] == ms[k].kind
  {
    var p := |Stream(ms[..k])|;
    assert ms[..|ms|] == ms;
    assert k < |ms|;
    StreamContinues(ms, k);
    var a, b := Stream(ms[..k]) + buf, Stream(ms[..k]) + Frame(ms[k]);
    assert a[p] == buf[0] && b[p] == ms[k].kind;
    assert Stream(ms)[p] == a[p] && Stream(ms)[p] == b[p];
  }

  lemma {:induction false} ConcatPrefix(chunks: seq<Bytes>, x: Bytes)
    requires chunks != [] && Concat(chunks) <= x
    ensures Concat(chunks[..|chunks| - 1]) <= x
  {
  }

  /** With one type per connection: after any sequence of non-empty reads of the stream the handler has
      been called with exactly the messages that have arrived whole, in order, and the buffer holds
      only the start of the next one. */
  lemma {:induction false} FramesRecovered(kind: Byte, ms: seq<Message>, chunks: seq<Bytes>) returns (k: nat)
    requires NonEmpty(chunks) && Concat(chunks) <= Stream(ms)
    requires forall i :: 0 <= i < |ms| ==> Sendable(ms[i]) && ms[i].kind == kind
    ensures CutAt(ms, Concat(chunks), k, ReadAll(chunks).buf)
    ensures ReadAll(chunks).delivered == ms[..k]
  {
    var tail;
    k, tail := Cut(ms, Concat(chunks));
    ReadBodies(chunks);
    StreamBodies(ms[..k], tail);
    if k < |ms| {
      UnfinishedTail(ms[k], tail);
    }
    assert Bodies(tail) == ([], tail);
    assert BodiesOf(ReadAll(chunks).delivered) == BodiesOf(ms[..k]) + [];
    OneKind(kind, ms, chunks);
    var got := ReadAll(chunks).delivered;
    forall i | 0 <= i < |got| ensures got[i] == ms[..k][i] {
      assert BodiesOf(got)[i] == BodiesOf(ms[..k])[i];
    }
  }

  lemma {:induction false} OneKind(kind: Byte, ms: seq<Message>, chunks: seq<Bytes>)
    requires NonEmpty(chunks) && Concat(chunks) <= Stream(ms)
    requires forall i :: 0 <= i < |ms| ==> Sendable(ms[i]) && ms[i].kind == kind
    ensures forall i :: 0 <= i < |ReadAll(chunks).delivered| ==> ReadAll(chunks).delivered[i].kind == kind
  {
    hide Frame, Bodies;
    if chunks != [] {
      var n := |chunks| - 1;
      ConcatPrefix(chunks, Stream(ms));
      OneKind(kind, ms, chunks[..n]);
      var k, tail := Cut(ms, Concat(chunks[..n]));
      ReadBodies(chunks[..n]);
      StreamBodies(ms[..k], tail);
      if k < |ms| {
        UnfinishedTail(ms[k], tail);
      }
      assert Stream(ms[..k]) + (tail + chunks[n]) == Concat(chunks);
      FirstByteIsKind(ms, k, tail + chunks[n]);
    }
  }

  lemma StreamStarts(ms: seq<Message>)
    requires ms != []
    ensures Stream(ms) != [] && Stream(ms)[0] == ms[0].kind
  {
    StreamContinues(ms, 0);
    assert ms[..0] == [] && Stream([]) + Frame(ms[0]) == Frame(ms[0]);
  }

  /** Why one type per connection: a read that completes several messages reports the first one's type
      for all of them, so it is right for them exactly when they share it. */
  lemma ReadReportsOneKind(ms: seq<Message>, tail: Bytes)
    requires ms != [] && (forall i :: 0 <= i < |ms| ==> Sendable(ms[i])) && Bodies(tail) == ([], tail)
    ensures Stream(ms) != []
    ensures var got := ReadChunk(Reader([], []), Stream(ms) + tail).delivered;
            && |got| == |ms| && (forall i :: 0 <= i < |ms| ==> got[i] == Message(ms[0].kind, ms[i].body))
            && (got == ms <==> forall i :: 0 <= i < |ms| ==> ms[i].kind == ms[0].kind)
  {
    hide Stream, Bodies;
    StreamStarts(ms);
    StreamBodies(ms, tail);
    assert [] + (Stream(ms) + tail) == Stream(ms) + tail;
    assert BodiesOf(ms) + [] == BodiesOf(ms);
    var got := ReadChunk(Reader([], []), Stream(ms) + tail).delivered;
    assert got == Label(ms[0].kind, BodiesOf(ms));
    if forall i :: 0 <= i < |ms| ==> ms[i].kind == ms[0].kind {
      assert forall i :: 0 <= i < |ms| ==> got[i] == ms[i];
    }
  }

  // ---- The read loop ------------------------------------------------------------------------------

  /** readMessage over the chunks the socket yields, with the length of a half-arrived message kept
      between reads; `delivered` are the handler's calls. */
  method ReadMessages(chunks: seq<Bytes>) returns (delivered: seq<Message>, msgBuf: Bytes)
    requires NonEmpty(chunks)
    ensures Reader(delivered, msgBuf) == ReadAll(chunks)
  {
    hide FromLittleEndian;
    delivered, msgBuf := [], [];
    var msgLen: int := -1;
    for i := 0 to |chunks|
      invariant Reader(delivered, msgBuf) == ReadAll(chunks[..i])
      invariant msgLen == -1 || (|msgBuf| >= HEADER && msgLen == FrameLength(msgBuf) - HEADER)
    {
      assert chunks[..i + 1][..i] == chunks[..i];
      ghost var before := Reader(delivered, msgBuf);
      ghost var all := msgBuf + chunks[i];
      assert |msgBuf| >= HEADER ==> all[1..HEADER] == msgBuf[1..HEADER];
      msgBuf := msgBuf + chunks[i];
      var msgType := msgBuf[0];
      ghost var done: seq<Bytes> := [];
      assert [] + Bodies(all).0 == Bodies(all).0;
      while |msgBuf| >= HEADER
        invariant msgLen == -1 || (|msgBuf| >= HEADER && msgLen == FrameLength(msgBuf) - HEADER)
        invariant Bodies(all) == (done + Bodies(msgBuf).0, Bodies(msgBuf).1)
        invariant delivered == before.delivered + Label(msgType, done)
        decreases |msgBuf|
      {
        if msgLen == -1 {
          msgLen := FromLittleEndian(msgBuf[1..HEADER]);
        }
        if |msgBuf| >= HEADER + msgLen {
          var msg := msgBuf[HEADER..HEADER + msgLen];
          delivered := delivered + [Message(msgType, msg)];
          ghost var rest := Bodies(msgBuf[HEADER + msgLen..]);
          assert Bodies(msgBuf) == ([msg] + rest.0, rest.1);
          assert done + ([msg] + rest.0) == (done + [msg]) + rest.0;
          done := done + [msg];
          msgBuf := msgBuf[HEADER + msgLen..];
          msgLen := -1;
        } else {
          break;
        }
      }
      assert Bodies(msgBuf) == ([], msgBuf);
      assert done + [] == done;
    }
    assert chunks[..|chunks|] == chunks;
  }
}
