/** How one (header, body) pair travels as datagrams, and how the receiver puts it together again. */
module Framing {
  import opened Bytes

  type Datagram = Bytes

  const MAX_HEADER := 512
  const CHUNK := 1024   // TRANSMIT_SIZE and RECEIVE_SIZE

  /** The 8-byte ProtocolHeader: DE AD C0 DE and the body size as a 32-bit unsigned int. */
  const MAGIC: Bytes := [0xDE, 0xAD, 0xC0, 0xDE]

  function ProtocolHeader(size: nat): (d: Datagram)
    ensures |d| == 8 && d[..4] == MAGIC && d[4..] == EncodeInt(size)
  {
    MAGIC + EncodeInt(size)
  }

  /** Pieces that sendto may leave of a body: it may accept any positive part of a chunk. */
  predicate IsChunking(body: Bytes, chunks: seq<Datagram>) {
    Flatten(chunks) == body && forall i :: 0 <= i < |chunks| ==> 0 < |chunks[i]| <= CHUNK
  }

  predicate IsFrame(header: Bytes, body: Bytes, ds: seq<Datagram>) {
    |ds| >= 2 && ds[0] == ProtocolHeader(|body|) && ds[1] == header && IsChunking(body, ds[2..])
  }

  /** The pairs a sender and a receiver with size limit `limit` (0 for none) can exchange. */
  predicate Acceptable(limit: nat, header: Bytes, body: Bytes) {
    |header| <= MAX_HEADER && |body| < POW32 && (limit == 0 || |body| <= limit)
  }

  /** What Send refuses before it sends anything. */
  predicate SendRejects(limit: nat, header: Bytes, body: Bytes) {
    |header| > MAX_HEADER || 0 < limit < |body|
  }

  // ---------------------------------------------------------------- receiving, one datagram at a time

  /** Where a Receive call stands between two datagrams. */
  datatype Rx =
    | AwaitStart
    | AwaitHeader(size: nat)
    | AwaitBody(header: Bytes, size: nat, acc: Bytes)

  datatype Fed = More(rx: Rx) | Done(header: Bytes, body: Bytes) | Failed

  /** Reading a datagram into a shorter buffer loses its tail. */
  function Truncate(d: Datagram, size: nat): (r: Datagram)
    ensures |r| <= size && r <= d
  {
    if |d| <= size then d else d[..size]
  }

  /** The guard of the loop that reads the body. */
  function NextBody(header: Bytes, size: nat, acc: Bytes): Fed {
    if |acc| == size then Done(header, acc) else More(AwaitBody(header, size, acc))
  }

  function Feed(limit: nat, rx: Rx, d: Datagram): Fed {
    match rx
    case AwaitStart =>
      var m := Truncate(d, CHUNK);
      if |m| != 8 || m[..4] != MAGIC then Failed
      else
        var size := DecodeUnsigned(m[4..]);
        if 0 < limit < size then Failed else More(AwaitHeader(size))
    case AwaitHeader(size) =>
      var m := Truncate(d, CHUNK);
      if |m| > MAX_HEADER then Failed else NextBody(m, size, [])
    case AwaitBody(header, size, acc) =>
      var want := if size - |acc| > CHUNK then CHUNK else if size > |acc| then size - |acc| else 0;
      NextBody(header, size, acc + Truncate(d, want))
  }

  /** The outcome of one Receive call on a queue that gets no further datagrams. */
  datatype Outcome =
    | Delivered(header: Bytes, body: Bytes, rest: seq<Datagram>)
    | Error(rest: seq<Datagram>)
    | Waiting(rx: Rx)                 // all consumed, and the call is still blocked

  function Recv(limit: nat, rx: Rx, queue: seq<Datagram>): Outcome
    decreases |queue|
  {
    if queue == [] then Waiting(rx)
    else
      match Feed(limit, rx, queue[0])
      case Done(header, body) => Delivered(header, body, queue[1..])
      case Failed => Error(queue[1..])
      case More(rx') => Recv(limit, rx', queue[1..])
  }

  // ---------------------------------------------------------------- a frame is received whole

  /** The receiver's state after the first `i` datagrams of a frame. */
  function RxAt(body: Bytes, ds: seq<Datagram>, i: nat): Rx
    requires i < |ds| && |ds| >= 2
  {
    if i == 0 then AwaitStart
    else if i == 1 then AwaitHeader(|body|)
    else AwaitBody(ds[1], |body|, Flatten(ds[2..i]))
  }

  lemma {:induction false} ChunkRoom(chunks: seq<Datagram>, k: nat)
    requires k < |chunks| && forall i :: 0 <= i < |chunks| ==> 0 < |chunks[i]| <= CHUNK
    ensures Flatten(chunks[..k + 1]) == Flatten(chunks[..k]) + chunks[k]
    ensures |Flatten(chunks[..k])| + |chunks[k]| <= |Flatten(chunks)|
    ensures |Flatten(chunks[..k + 1])| == |Flatten(chunks)| <==> k + 1 == |chunks|
  {
    assert chunks[..k + 1] == chunks[..k] + [chunks[k]];
    FlattenAppend(chunks[..k], [chunks[k]]);
    assert Flatten([chunks[k]]) == chunks[k];
    assert chunks == chunks[..k + 1] + chunks[k + 1..];
    FlattenAppend(chunks[..k + 1], chunks[k + 1..]);
    if k + 1 < |chunks| { assert |Flatten(chunks[k + 1..])| >= |chunks[k + 1]|; }
  }

  /** The sender's and the receiver's offsets stay equal: no datagram of a frame is cut or refused, and
      the receiver is done exactly at its last datagram. */
  lemma FeedFrame(limit: nat, header: Bytes, body: Bytes, ds: seq<Datagram>, i: nat)
    requires IsFrame(header, body, ds) && Acceptable(limit, header, body) && i < |ds|
    ensures Feed(limit, RxAt(body, ds, i), ds[i])
            == if i + 1 == |ds| then Done(header, body) else More(RxAt(body, ds, i + 1))
  {
    var chunks := ds[2..];
    if i == 0 {
      DecodeEncodeInt(|body|);
    } else if i == 1 {
      if |ds| == 2 { assert chunks == []; } else { assert |Flatten(chunks)| >= |chunks[0]|; }
      assert ds[2..2] == [];
    } else {
      var k := i - 2;
      ChunkRoom(chunks, k);
      assert chunks[..k] == ds[2..i] && chunks[..k + 1] == ds[2..i + 1];
      if i + 1 == |ds| { assert chunks[..k + 1] == chunks; }
    }
  }

  lemma {:induction false} RecvFrame(limit: nat, header: Bytes, body: Bytes,
                                       ds: seq<Datagram>, i: nat, rest: seq<Datagram>)
    requires IsFrame(header, body, ds) && Acceptable(limit, header, body) && i < |ds|
    ensures Recv(limit, RxAt(body, ds, i), ds[i..] + rest) == Delivered(header, body, rest)
    decreases |ds| - i
  {
    hide Acceptable, Feed, RxAt;
    FeedFrame(limit, header, body, ds, i);
    var queue := ds[i..] + rest;
    assert queue[0] == ds[i] && queue[1..] == ds[i + 1..] + rest;
    if i + 1 < |ds| {
      RecvFrame(limit, header, body, ds, i + 1, rest);
    } else {
      assert queue[1..] == rest;
    }
  }

  /** A delivered body has the size that was awaited, and the delivered header fits its limit. */
  lemma {:induction false} RecvSize(limit: nat, rx: Rx, queue: seq<Datagram>)
    requires rx.AwaitBody? ==> |rx.header| <= MAX_HEADER
    ensures var r := Recv(limit, rx, queue);
            r.Delivered? ==>
              && |r.header| <= MAX_HEADER
              && (!rx.AwaitStart? ==> |r.body| == rx.size)
              && (rx.AwaitStart? ==>
                    && |Truncate(queue[0], CHUNK)| == 8
                    && |r.body| == DecodeUnsigned(Truncate(queue[0], CHUNK)[4..])
                    && (limit == 0 || |r.body| <= limit))
    decreases |queue|
  {
    hide DecodeUnsigned, Truncate;
    if queue != [] {
      match Feed(limit, rx, queue[0])
      case More(rx') => RecvSize(limit, rx', queue[1..]);
      case _ =>
    }
  }

  /** Receiving the datagrams of a frame gives back what was sent, and exactly those datagrams are
      consumed, if and only if the pair is within the limits and its size below 2^32. */
  lemma FrameRoundTrip(limit: nat, header: Bytes, body: Bytes, ds: seq<Datagram>, rest: seq<Datagram>)
    requires IsFrame(header, body, ds)
    ensures var r := Recv(limit, AwaitStart, ds + rest);
            && (r == Delivered(header, body, rest) <==> Acceptable(limit, header, body))
            && (r.Delivered? && r.header == header && r.body == body ==> Acceptable(limit, header, body))
  {
    hide Recv;
    if Acceptable(limit, header, body) {
      assert ds[0..] == ds;
      RecvFrame(limit, header, body, ds, 0, rest);
    }
    var r := Recv(limit, AwaitStart, ds + rest);
    if r.Delivered? && r.body == body {
      RecvSize(limit, AwaitStart, ds + rest);
      DecodeEncodeInt(|body|);
    }
  }

  // ---------------------------------------------------------------- streams

  datatype Msg = Msg(header: Bytes, body: Bytes)

  /** `n` Receive calls that all succeed: what they return and what they leave in the queue. */
  function RecvN(limit: nat, queue: seq<Datagram>, n: nat): Option<(seq<Msg>, seq<Datagram>)>
    decreases n
  {
    if n == 0 then Some(([], queue))
    else
      match Recv(limit, AwaitStart, queue)
      case Delivered(header, body, rest) =>
        (match RecvN(limit, rest, n - 1)
         case None => None
         case Some((msgs, left)) => Some(([Msg(header, body)] + msgs, left)))
      case _ => None
  }

  ghost predicate AreFrames(msgs: seq<Msg>, frames: seq<seq<Datagram>>) {
    |msgs| == |frames| && forall i :: 0 <= i < |msgs| ==> IsFrame(msgs[i].header, msgs[i].body, frames[i])
  }

  ghost predicate AllAcceptable(limit: nat, msgs: seq<Msg>) {
    forall i :: 0 <= i < |msgs| ==> Acceptable(limit, msgs[i].header, msgs[i].body)
  }

  /** N sends followed by N receives return the same pairs in order and leave nothing behind, however the
      bodies were cut, if and only if every pair is acceptable to the receiver. */
  lemma {:induction false} StreamRoundTrip(limit: nat, msgs: seq<Msg>, frames: seq<seq<Datagram>>, rest: seq<Datagram>)
    requires AreFrames(msgs, frames)
    ensures RecvN(limit, Flatten(frames) + rest, |msgs|) == Some((msgs, rest)) <==> AllAcceptable(limit, msgs)
  {
    hide Recv, IsFrame, Acceptable;
    if msgs == [] {
      assert Flatten(frames) + rest == rest;
    } else {
      var m, ds, later := msgs[0], frames[0], Flatten(frames[1..]) + rest;
      assert Flatten(frames) + rest == ds + later;
      FrameRoundTrip(limit, m.header, m.body, ds, later);
      StreamRoundTrip(limit, msgs[1..], frames[1..], rest);
      assert [m] + msgs[1..] == msgs;
      if Acceptable(limit, m.header, m.body) {
        if AllAcceptable(limit, msgs[1..]) {
          forall i | 0 <= i < |msgs| ensures Acceptable(limit, msgs[i].header, msgs[i].body) {
            if i > 0 { assert msgs[i] == msgs[1..][i - 1]; }
          }
        }
      }
    }
  }

  // ---------------------------------------------------------------- resynchronisation

  /** A datagram that a Receive call refuses as a protocol header, consuming only it. */
  predicate Refused(limit: nat, d: Datagram) {
    Feed(limit, AwaitStart, d).Failed?
  }

  /** What passes for a protocol header is exactly the eight bytes DE AD C0 DE and a size within the limit. */
  lemma RefusedIff(limit: nat, d: Datagram)
    ensures Refused(limit, d)
            <==> !(|d| == 8 && d[0] == 0xDE && d[1] == 0xAD && d[2] == 0xC0 && d[3] == 0xDE
                   && (limit == 0 || DecodeUnsigned(d[4..]) <= limit))
  {
    hide DecodeUnsigned;
    if |d| == 8 { assert d[..4] == [d[0], d[1], d[2], d[3]]; }
  }

  /** `n` Receive calls that all fail: what they leave in the queue. */
  function RecvErrors(limit: nat, queue: seq<Datagram>, n: nat): Option<seq<Datagram>>
    decreases n
  {
    if n == 0 then Some(queue)
    else
      match Recv(limit, AwaitStart, queue)
      case Error(rest) => RecvErrors(limit, rest, n - 1)
      case _ => None
  }

  lemma {:induction false} ErrorShrinks(limit: nat, rx: Rx, queue: seq<Datagram>)
    ensures var r := Recv(limit, rx, queue); r.Error? ==> |r.rest| < |queue|
    decreases |queue|
  {
    if queue != [] && Feed(limit, rx, queue[0]).More? {
      ErrorShrinks(limit, Feed(limit, rx, queue[0]).rx, queue[1..]);
    }
  }

  lemma {:induction false} ErrorsShrink(limit: nat, queue: seq<Datagram>, n: nat)
    ensures var r := RecvErrors(limit, queue, n); r.Some? ==> |r.value| + n <= |queue|
    decreases n
  {
    if n > 0 {
      ErrorShrinks(limit, AwaitStart, queue);
      match Recv(limit, AwaitStart, queue)
      case Error(rest) => ErrorsShrink(limit, rest, n - 1);
      case _ =>
    }
  }

  /** As many failing calls as there are stray datagrams clear exactly these if and only if none of them
      passes for a protocol header. */
  lemma {:induction false} Resync(limit: nat, stray: seq<Datagram>, rest: seq<Datagram>)
    ensures RecvErrors(limit, stray + rest, |stray|) == Some(rest)
            <==> forall i :: 0 <= i < |stray| ==> Refused(limit, stray[i])
  {
    hide Feed;
    var queue := stray + rest;
    if stray == [] {
      assert queue == rest;
    } else {
      assert queue[0] == stray[0] && queue[1..] == stray[1..] + rest;
      Resync(limit, stray[1..], rest);
      if Refused(limit, stray[0]) {
        assert Recv(limit, AwaitStart, queue) == Error(stray[1..] + rest);
        if forall i :: 0 <= i < |stray[1..]| ==> Refused(limit, stray[1..][i]) {
          forall i | 0 <= i < |stray| ensures Refused(limit, stray[i]) {
            if i > 0 { assert stray[i] == stray[1..][i - 1]; }
          }
        }
      } else {
        if Feed(limit, AwaitStart, queue[0]).More? {
          ErrorShrinks(limit, Feed(limit, AwaitStart, queue[0]).rx, queue[1..]);
        }
        match Recv(limit, AwaitStart, queue)
        case Error(left) => ErrorsShrink(limit, left, |stray| - 1);
        case _ =>
      }
    }
  }

  function ChunkCount(body: Bytes): (n: nat) {
    (|body| + CHUNK - 1) / CHUNK
  }

  /** The `i`-th chunk when every sendto accepts all it is given. */
  function Chunk(body: Bytes, i: nat): (c: Datagram)
    requires i < ChunkCount(body)
    ensures |c| == if i == ChunkCount(body) - 1 && |body| % CHUNK != 0 then |body| % CHUNK else CHUNK
  {
    if |body| - i * CHUNK > CHUNK then body[i * CHUNK..(i + 1) * CHUNK] else body[i * CHUNK..]
  }

  function Chunks(body: Bytes): seq<Datagram> {
    seq(ChunkCount(body), i requires 0 <= i < ChunkCount(body) => Chunk(body, i))
  }

  lemma {:induction false} ChunksFlatten(body: Bytes, k: nat)
    requires k <= ChunkCount(body)
    ensures Flatten(Chunks(body)[..k]) == body[..if k * CHUNK < |body| then k * CHUNK else |body|]
  {
    if k > 0 {
      var cs := Chunks(body);
      ChunksFlatten(body, k - 1);
      assert cs[..k] == cs[..k - 1] + [Chunk(body, k - 1)];
      FlattenAppend(cs[..k - 1], [Chunk(body, k - 1)]);
      assert Flatten([Chunk(body, k - 1)]) == Chunk(body, k - 1);
    }
  }

  function WholeFrame(header: Bytes, body: Bytes): (ds: seq<Datagram>)
    ensures |ds| == 2 + ChunkCount(body) && IsFrame(header, body, ds)
  {
    var ds := [ProtocolHeader(|body|), header] + Chunks(body);
    ChunksFlatten(body, ChunkCount(body));
    assert ds[2..] == Chunks(body)[..ChunkCount(body)];
    ds
  }

  /** The only datagrams of an oversized frame that could pass for a protocol header are the header and a
      last chunk of 8 bytes. */
  predicate NoLookalike(limit: nat, header: Bytes, body: Bytes) {
    && Refused(limit, header)
    && (|body| % CHUNK == 8 ==> Refused(limit, body[|body| - 8..]))
  }

  lemma NotEightBytes(limit: nat, d: Datagram)
    requires |d| != 8
    ensures Refused(limit, d)
  {
  }

  lemma OversizedHeader(limit: nat, size: nat)
    requires 0 < limit < size < POW32
    ensures Refused(limit, ProtocolHeader(size))
  {
    DecodeEncodeInt(size);
  }

  lemma OversizedRefused(limit: nat, header: Bytes, body: Bytes)
    requires 0 < limit < |body| < POW32
    ensures (forall i :: 0 <= i < |WholeFrame(header, body)| ==> Refused(limit, WholeFrame(header, body)[i]))
            <==> NoLookalike(limit, header, body)
  {
    hide Refused, ProtocolHeader, IsFrame;
    var ds, n := WholeFrame(header, body), ChunkCount(body);
    OversizedHeader(limit, |body|);
    assert ds[0] == ProtocolHeader(|body|) && ds[1] == header;
    assert |body| % CHUNK == 8 ==> ds[n + 1] == body[|body| - 8..];
    if NoLookalike(limit, header, body) {
      forall i | 0 <= i < |ds| ensures Refused(limit, ds[i]) {
        if i >= 2 {
          assert ds[i] == Chunk(body, i - 2);
          if |ds[i]| != 8 { NotEightBytes(limit, ds[i]); }
        }
      }
    }
  }

  /** After a frame that exceeds the receiver's limit, exactly 2 + ceil(size / 1024) Receive calls fail and
      the next one delivers the next frame, if and only if the oversized frame holds no lookalike. */
  lemma OversizedResync(limit: nat, header: Bytes, body: Bytes,
                        header': Bytes, body': Bytes, next: seq<Datagram>, rest: seq<Datagram>)
    requires 0 < limit < |body| < POW32
    requires IsFrame(header', body', next) && Acceptable(limit, header', body')
    ensures var n := 2 + (|body| + 1023) / 1024;
            && (RecvErrors(limit, WholeFrame(header, body) + (next + rest), n) == Some(next + rest)
                <==> NoLookalike(limit, header, body))
            && Recv(limit, AwaitStart, next + rest) == Delivered(header', body', rest)
  {
    Resync(limit, WholeFrame(header, body), next + rest);
    OversizedRefused(limit, header, body);
    FrameRoundTrip(limit, header', body', next, rest);
  }

  /** The library's own headers are 4 bytes, so only a body of 8 bytes modulo 1024 can break the rule. */
  lemma ShortHeaderNoLookalike(limit: nat, header: Bytes, body: Bytes)
    requires |header| == 4 && |body| % CHUNK != 8
    ensures NoLookalike(limit, header, body)
  {
  }
}
