/** The socket object: Send cuts a body into chunks, Receive fills an array from a queue of datagrams. */
module Sockets {
  import opened Bytes
  import opened Framing

  datatype Receipt = Got(d: Datagram) | Fails | Blocks

  /** A sendto(2) call: what it was given, and how much of it was accepted, or -1. */
  datatype Offer = Offer(d: Datagram, sent: int)

  /** A datagram socket address: the kernel keeps datagrams whole and in order. `offers` are the sendto(2) calls
      made and `failures` counts the failed recvfrom(2) calls. */
  class Channel {
    var queue: seq<Datagram>
    ghost var offers: seq<Offer>
    ghost var failures: nat

    constructor ()
      ensures queue == [] && offers == [] && failures == 0
    {
      queue, offers, failures := [], [], 0;
    }

    /** sendto(2). It may fail, and it may accept only part of what it is given. */
    method SendTo(d: Datagram) returns (sent: int)
      modifies this
      ensures offers == old(offers) + [Offer(d, sent)] && failures == old(failures)
      ensures sent == -1 ==> queue == old(queue)
      ensures sent != -1 ==> 0 <= sent <= |d| && (d != [] ==> 0 < sent) && queue == old(queue) + [d[..sent]]
    {
      var accepted: bool := *;
      if !accepted {
        offers := offers + [Offer(d, -1)];
        return -1;
      }
      sent := |d|;
      if d != [] {
        sent :| 0 < sent <= |d|;
      }
      queue := queue + [d[..sent]];
      offers := offers + [Offer(d, sent)];
    }

    /** recvfrom(2)/read(2) into a buffer of `size` bytes. It may fail, and it blocks on an empty queue. */
    method ReceiveFrom(size: nat) returns (r: Receipt)
      modifies this
      ensures r.Got? ==> old(queue) != [] && r.d == Truncate(old(queue)[0], size) && queue == old(queue)[1..]
      ensures !r.Got? ==> queue == old(queue) && (r.Blocks? ==> queue == [])
      ensures failures == old(failures) + (if r.Fails? then 1 else 0) && offers == old(offers)
    {
      var fails: bool := *;
      if fails {
        failures := failures + 1;
        return Fails;
      }
      if queue == [] {
        return Blocks;
      }
      r := Got(Truncate(queue[0], size));
      queue := queue[1..];
    }
  }

  datatype SendResult = Sent | Closed | HeaderTooBig | BodyTooBig | SendFailed

  datatype ReceiveResult = Received(header: Bytes, body: Bytes) | NotOpen | ReceiveError | Blocked

  /** What a Send that failed on the way has put into the channel: never a whole frame. */
  predicate IsCutFrame(header: Bytes, body: Bytes, ds: seq<Datagram>) {
    || ds == []
    || (|ds| == 1 && ds[0] <= ProtocolHeader(|body|))
    || (|ds| == 2 && ds[0] == ProtocolHeader(|body|) && ds[1] < header)
    || (|ds| >= 2 && ds[0] == ProtocolHeader(|body|) && ds[1] == header
        && Flatten(ds[2..]) < body && forall i :: 2 <= i < |ds| ==> 0 < |ds[i]| <= CHUNK)
  }

  lemma CutIsNoFrame(header: Bytes, body: Bytes, ds: seq<Datagram>)
    requires IsCutFrame(header, body, ds)
    ensures !IsFrame(header, body, ds)
  {
  }

  /** The k-th sendto(2) call makes Send give up: one that fails, or one that accepts only part of the protocol header
      or of the application header. */
  predicate GivesUp(offer: Offer, k: nat) {
    offer.sent == -1 || (k < 2 && offer.sent < |offer.d|)
  }

  /** Every sendto(2) call accepted all it was given. */
  predicate AllWhole(offers: seq<Offer>) {
    forall k :: 0 <= k < |offers| ==> offers[k].sent == |offers[k].d|
  }

  lemma AllWholeFront(offers: seq<Offer>, offer: Offer)
    requires AllWhole(offers + [offer])
    ensures AllWhole(offers) && offer.sent == |offer.d|
  {
    assert (offers + [offer])[|offers|] == offer;
    forall k | 0 <= k < |offers| ensures offers[k].sent == |offers[k].d| {
      assert (offers + [offer])[k] == offers[k];
    }
  }

  lemma AllWholeTail(first: Offer, second: Offer, offers: seq<Offer>)
    requires AllWhole([first, second] + offers)
    ensures AllWhole(offers)
  {
    forall k | 0 <= k < |offers| ensures offers[k].sent == |offers[k].d| {
      assert ([first, second] + offers)[k + 2] == offers[k];
    }
  }

  lemma WholeParts(header: Bytes, body: Bytes)
    ensures WholeFrame(header, body) == [ProtocolHeader(|body|), header] + Chunks(body)
  {
  }

  lemma EmptyChunks(body: Bytes)
    requires body == []
    ensures Chunks(body) == []
  {
  }

  lemma FlattenNothing<T>()
    ensures Flatten<T>([]) == []
  {
  }

  /** What has been sent of the body while every call accepted all. */
  ghost predicate OnTheWay(body: Bytes, chunks: seq<Datagram>, txSize: nat) {
    && |chunks| <= ChunkCount(body) && chunks == Chunks(body)[..|chunks|]
    && txSize == if |chunks| * CHUNK < |body| then |chunks| * CHUNK else |body|
  }

  lemma BodyBegun(body: Bytes)
    ensures OnTheWay(body, [], 0)
  {
  }

  lemma BodyGoesOn(body: Bytes, chunks: seq<Datagram>, txSize: nat, size: nat)
    requires OnTheWay(body, chunks, txSize) && txSize < |body|
    requires size == if |body| - txSize > CHUNK then CHUNK else |body| - txSize
    ensures OnTheWay(body, chunks + [body[txSize..txSize + size]], txSize + size)
  {
    var n := |chunks|;
    assert Chunk(body, n) == body[txSize..txSize + size];
    assert Chunks(body)[..n + 1] == Chunks(body)[..n] + [Chunk(body, n)];
  }

  lemma BodyComplete(body: Bytes, chunks: seq<Datagram>)
    requires OnTheWay(body, chunks, |body|)
    ensures chunks == Chunks(body)
  {
  }

  lemma SliceOn(body: Bytes, from: nat, size: nat, sent: nat)
    requires sent <= size && from + size <= |body|
    ensures body[..from] + body[from..from + size][..sent] == body[..from + sent]
  {
  }

  lemma SnocChunk(chunks: seq<Datagram>, c: Datagram)
    ensures Flatten(chunks + [c]) == Flatten(chunks) + c
  {
    FlattenAppend(chunks, [c]);
    assert Flatten([c]) == c;
  }

  /** The rest of a Receive call whose last datagram had the effect `fed`. */
  function Continue(limit: nat, fed: Fed, queue: seq<Datagram>): Outcome {
    match fed
    case Done(header, body) => Delivered(header, body, queue)
    case Failed => Error(queue)
    case More(rx) => Recv(limit, rx, queue)
  }

  lemma RecvNothing(limit: nat, rx: Rx)
    ensures Recv(limit, rx, []) == Waiting(rx)
  {
  }

  /** A call that waits after `a` goes on with what comes next. */
  lemma {:induction false} RecvOn(limit: nat, rx: Rx, a: seq<Datagram>, b: seq<Datagram>)
    requires Recv(limit, rx, a).Waiting?
    ensures Recv(limit, rx, a + b) == Recv(limit, Recv(limit, rx, a).rx, b)
    decreases |a|
  {
    if a == [] {
      assert a + b == b;
    } else {
      assert (a + b)[1..] == a[1..] + b;
      RecvOn(limit, Feed(limit, rx, a[0]).rx, a[1..], b);
    }
  }

  lemma RecvStep(limit: nat, rx: Rx, queue: seq<Datagram>)
    requires queue != []
    ensures Recv(limit, rx, queue) == Continue(limit, Feed(limit, rx, queue[0]), queue[1..])
  {
  }

  /** What one more datagram does to a call that waits. */
  lemma NextRead(limit: nat, start: Rx, queue: seq<Datagram>, n: nat, rx: Rx)
    requires n < |queue| && Recv(limit, start, queue[..n]) == Waiting(rx)
    ensures Recv(limit, start, queue) == Continue(limit, Feed(limit, rx, queue[n]), queue[n + 1..])
    ensures Recv(limit, start, queue[..n + 1]) == Continue(limit, Feed(limit, rx, queue[n]), [])
    ensures forall rx' :: Recv(limit, rx', []) == Waiting(rx')
  {
    hide Feed;
    assert queue == queue[..n] + queue[n..] && queue[..n + 1] == queue[..n] + [queue[n]];
    RecvOn(limit, start, queue[..n], queue[n..]);
    RecvOn(limit, start, queue[..n], [queue[n]]);
    RecvStep(limit, rx, queue[n..]);
    RecvStep(limit, rx, [queue[n]]);
  }

  /** What a datagram adds to a body that is not yet complete. */
  lemma FeedBody(limit: nat, header: Bytes, size: nat, acc: Bytes, d: Datagram)
    requires |acc| < size
    ensures var room := size - |acc|;
            var acc' := acc + Truncate(d, if room > CHUNK then CHUNK else room);
            |acc'| <= size && Feed(limit, AwaitBody(header, size, acc), d)
                              == if |acc'| == size then Done(header, acc') else More(AwaitBody(header, size, acc'))
  {
  }

  /** The header a Receive call has assigned once it has consumed `ds`: after two datagrams, whatever follows. */
  function Assigned(limit: nat, ds: seq<Datagram>): Option<Bytes> {
    if |ds| < 2 || !Feed(limit, AwaitStart, ds[0]).More? || |Truncate(ds[1], CHUNK)| > MAX_HEADER then None
    else Some(Truncate(ds[1], CHUNK))
  }

  lemma FrameOf(header: Bytes, body: Bytes, ds: seq<Datagram>, chunks: seq<Datagram>)
    requires ds == [ProtocolHeader(|body|), header] + chunks && Flatten(chunks) <= body
    requires forall i :: 0 <= i < |chunks| ==> 0 < |chunks[i]| <= CHUNK
    ensures if Flatten(chunks) == body then IsFrame(header, body, ds) else IsCutFrame(header, body, ds)
  {
    hide ProtocolHeader, Flatten;
    assert ds[2..] == chunks;
    forall i | 2 <= i < |ds| ensures 0 < |ds[i]| <= CHUNK {
      assert ds[i] == chunks[i - 2];
    }
  }

  /** What the calls made and the datagrams sent say about the result of a Send: it failed if and only if one of its
      calls made it give up, and a Send all of whose calls accepted everything has sent the frame in whole chunks. */
  ghost predicate Tells(result: SendResult, header: Bytes, body: Bytes, ds: seq<Datagram>, made: seq<Offer>) {
    && (result == SendFailed <==> exists k :: 0 <= k < |made| && GivesUp(made[k], k))
    && (made == [] <==> result in {Closed, HeaderTooBig, BodyTooBig})
    && (made == [] ==> ds == [])
    && (result == Sent && AllWhole(made) ==> ds == WholeFrame(header, body))
    && (result == Sent ==> IsFrame(header, body, ds))
    && (result == SendFailed ==> IsCutFrame(header, body, ds))
  }

  lemma NothingMade(result: SendResult, header: Bytes, body: Bytes)
    requires result in {Closed, HeaderTooBig, BodyTooBig}
    ensures Tells(result, header, body, [], [])
  {
  }

  lemma FirstCut(header: Bytes, body: Bytes, sent: int)
    requires sent == -1 || 0 <= sent < 8
    ensures var ph := ProtocolHeader(|body|);
            Tells(SendFailed, header, body, if sent == -1 then [] else [ph[..sent]], [Offer(ph, sent)])
  {
    hide ProtocolHeader;
    assert GivesUp([Offer(ProtocolHeader(|body|), sent)][0], 0);
  }

  lemma SecondCut(header: Bytes, body: Bytes, sent: int)
    requires sent == -1 || 0 <= sent < |header|
    ensures var ph := ProtocolHeader(|body|);
            Tells(SendFailed, header, body, if sent == -1 then [ph] else [ph, header[..sent]],
                  [Offer(ph, 8), Offer(header, sent)])
  {
    hide ProtocolHeader;
    assert GivesUp([Offer(ProtocolHeader(|body|), 8), Offer(header, sent)][1], 1);
  }

  lemma BodyTells(header: Bytes, body: Bytes, chunks: seq<Datagram>, made: seq<Offer>, ok: bool)
    requires Flatten(chunks) <= body && (ok <==> Flatten(chunks) == body)
    requires forall i :: 0 <= i < |chunks| ==> 0 < |chunks[i]| <= CHUNK
    requires ok <==> forall k :: 0 <= k < |made| ==> made[k].sent != -1
    requires ok && AllWhole(made) ==> chunks == Chunks(body)
    ensures var ph := ProtocolHeader(|body|);
            Tells(if ok then Sent else SendFailed, header, body, [ph, header] + chunks,
                  [Offer(ph, 8), Offer(header, |header|)] + made)
  {
    hide ProtocolHeader, Flatten, IsFrame, IsCutFrame, AllWhole, Chunks;
    var ph := ProtocolHeader(|body|);
    var all := [Offer(ph, 8), Offer(header, |header|)] + made;
    FrameOf(header, body, [ph, header] + chunks, chunks);
    if ok {
      forall k | 0 <= k < |all| ensures !GivesUp(all[k], k) {
        if k >= 2 { assert all[k] == made[k - 2]; }
      }
      if AllWhole(all) {
        AllWholeTail(Offer(ph, 8), Offer(header, |header|), made);
        WholeParts(header, body);
      }
    } else {
      var k :| 0 <= k < |made| && made[k].sent == -1;
      assert GivesUp(all[k + 2], k + 2);
    }
  }

  lemma NoBodyTells(header: Bytes, body: Bytes)
    requires body == []
    ensures var ph := ProtocolHeader(|body|);
            Tells(Sent, header, body, [ph, header], [Offer(ph, 8), Offer(header, |header|)])
  {
    hide ProtocolHeader, Tells;
    EmptyChunks(body);
    BodyTells(header, body, [], [], true);
    var ph := ProtocolHeader(|body|);
    assert [ph, header] + [] == [ph, header];
    assert [Offer(ph, 8), Offer(header, |header|)] + [] == [Offer(ph, 8), Offer(header, |header|)];
  }

  class UnixDomainSocket {
    var rxCreated: bool     // m_rxSocketFd != -1
    var isOpen: bool
    var limitSize: UInt     // 0 is unlimited
    const tx: Channel
    const rx: Channel

    ghost predicate Valid()
      reads this
    {
      isOpen ==> rxCreated
    }

    constructor (tx: Channel, rx: Channel)
      ensures Valid() && !isOpen && !rxCreated && limitSize == 0xffffff && this.tx == tx && this.rx == rx
    {
      rxCreated, isOpen, limitSize := false, false, 0xffffff;
      this.tx, this.rx := tx, rx;
    }

    /** OpenSocket, whose bind(2) succeeds or not. After a failure the descriptor remains, so a further attempt
        reports success while the socket stays closed, and Close does nothing about it. */
    method Open(binds: bool) returns (success: bool)
      requires Valid()
      modifies this`rxCreated, this`isOpen
      ensures Valid() && rxCreated
      ensures success <==> old(rxCreated) || binds
      ensures isOpen <==> old(isOpen) || (!old(rxCreated) && binds)
    {
      success := true;
      if isOpen {
        return;
      }
      if !rxCreated {
        rxCreated := true;
        success := binds;
        isOpen := binds;
      }
    }

    /** CloseSocket */
    method Close()
      requires Valid()
      modifies this`rxCreated, this`isOpen
      ensures Valid() && !isOpen
      ensures rxCreated <==> old(rxCreated) && !old(isOpen)
    {
      if !isOpen {
        return;
      }
      rxCreated, isOpen := false, false;
    }

    /** The second half of Send: the loop that cuts the body. `chunks` names the datagrams it put into the channel. */
    method SendBody(body: Bytes) returns (ok: bool, ghost chunks: seq<Datagram>, ghost made: seq<Offer>)
      modifies tx
      ensures tx.queue == old(tx.queue) + chunks && tx.offers == old(tx.offers) + made
      ensures Flatten(chunks) <= body && (ok <==> Flatten(chunks) == body)
      ensures forall i :: 0 <= i < |chunks| ==> 0 < |chunks[i]| <= CHUNK
      ensures ok <==> forall k :: 0 <= k < |made| ==> made[k].sent != -1
      ensures ok && AllWhole(made) ==> chunks == Chunks(body)
    {
      hide Flatten, OnTheWay, AllWhole;
      var size := |body|;
      chunks, made := [], [];
      BodyBegun(body);
      assert Flatten(chunks) == body[..0] by { FlattenNothing<byte>(); }
      var txSize := 0;
      while txSize != size
        invariant 0 <= txSize <= size
        invariant tx.queue == old(tx.queue) + chunks && tx.offers == old(tx.offers) + made
        invariant Flatten(chunks) == body[..txSize]
        invariant forall i :: 0 <= i < |chunks| ==> 0 < |chunks[i]| <= CHUNK
        invariant forall k :: 0 <= k < |made| ==> made[k].sent != -1
        invariant AllWhole(made) ==> OnTheWay(body, chunks, txSize)
        decreases size - txSize
      {
        var transmitSize := size - txSize;
        if transmitSize > CHUNK {
          transmitSize := CHUNK;
        }
        var chunk := body[txSize..txSize + transmitSize];
        var sent := tx.SendTo(chunk);
        ghost var before := made;
        made := made + [Offer(chunk, sent)];
        if sent == -1 {
          assert made[|before|].sent == -1;
          return false, chunks, made;
        }
        if AllWhole(made) {
          AllWholeFront(before, Offer(chunk, sent));
          assert chunk[..sent] == chunk;
          BodyGoesOn(body, chunks, txSize, transmitSize);
        }
        SnocChunk(chunks, chunk[..sent]);
        SliceOn(body, txSize, transmitSize, sent);
        chunks := chunks + [chunk[..sent]];
        txSize := txSize + sent;
      }
      if AllWhole(made) { BodyComplete(body, chunks); }
      ok := true;
    }

    /** `ds` names the datagrams this call put into the channel. */
    method Send(header: Bytes, body: Bytes) returns (result: SendResult, ghost ds: seq<Datagram>)
      modifies tx
      ensures tx.queue == old(tx.queue) + ds
      ensures result == Closed <==> !isOpen
      ensures result == HeaderTooBig <==> isOpen && |header| > MAX_HEADER
      ensures result == BodyTooBig <==> isOpen && |header| <= MAX_HEADER && 0 < limitSize < |body|
      ensures isOpen && SendRejects(limitSize, header, body) <==> result in {HeaderTooBig, BodyTooBig}
      ensures |old(tx.offers)| <= |tx.offers|
      ensures var made := tx.offers[|old(tx.offers)|..];
              tx.offers == old(tx.offers) + made && Tells(result, header, body, ds, made)
    {
      hide ProtocolHeader, Flatten, AllWhole, Chunks, Tells;
      ds := [];
      assert tx.offers[|old(tx.offers)|..] == [];
      if !isOpen {
        NothingMade(Closed, header, body);
        return Closed, ds;
      }
      if |header| > MAX_HEADER {
        NothingMade(HeaderTooBig, header, body);
        return HeaderTooBig, ds;
      }
      var size := |body|;
      if 0 < limitSize < size {
        NothingMade(BodyTooBig, header, body);
        return BodyTooBig, ds;
      }
      var ph := ProtocolHeader(size);
      var sent := tx.SendTo(ph);
      assert tx.offers[|old(tx.offers)|..] == [Offer(ph, sent)];
      if sent != |ph| {
        FirstCut(header, body, sent);
        ds := if sent == -1 then [] else [ph[..sent]];
        return SendFailed, ds;
      }
      assert ph[..sent] == ph;
      sent := tx.SendTo(header);
      assert tx.offers[|old(tx.offers)|..] == [Offer(ph, 8), Offer(header, sent)];
      if sent != |header| {
        SecondCut(header, body, sent);
        ds := if sent == -1 then [ph] else [ph, header[..sent]];
        return SendFailed, ds;
      }
      assert header[..sent] == header;
      ds := [ph, header];
      if size == 0 {
        NoBodyTells(header, body);
        return Sent, ds;
      }
      ghost var chunks, made;
      var ok;
      ok, chunks, made := SendBody(body);
      ds := ds + chunks;
      assert tx.offers[|old(tx.offers)|..] == [Offer(ph, 8), Offer(header, |header|)] + made;
      BodyTells(header, body, chunks, made, ok);
      result := if ok then Sent else SendFailed;
    }

    /** The second half of Receive: the loop that fills the body. */
    method ReceiveBody(header: Bytes, size: nat) returns (result: ReceiveResult, ghost broken: Option<nat>)
      modifies rx
      ensures broken == None ==>
                match Continue(limitSize, NextBody(header, size, []), old(rx.queue))
                case Delivered(h, b, rest) => result == Received(h, b) && rx.queue == rest
                case Error(rest) => result == ReceiveError && rx.queue == rest
                case Waiting(_) => result == Blocked && rx.queue == []
      ensures |rx.queue| <= |old(rx.queue)| && rx.failures == old(rx.failures) + (if broken == None then 0 else 1)
      ensures broken != None ==>
                && result == ReceiveError
                && broken.value <= |old(rx.queue)| && rx.queue == old(rx.queue)[broken.value..]
                && Continue(limitSize, NextBody(header, size, []), old(rx.queue)[..broken.value]).Waiting?
    {
      hide Recv, Feed;
      broken := None;
      ghost var queue, start, n := rx.queue, AwaitBody(header, size, []), 0;
      RecvNothing(limitSize, start);
      var req := new byte[if size > CHUNK then size else CHUNK];
      var rxSize := 0;
      while rxSize != size
        invariant 0 <= rxSize <= size && fresh(req) && req.Length >= size && rx.failures == old(rx.failures)
        invariant 0 <= n <= |queue| && rx.queue == queue[n..] && (size == 0 ==> n == 0)
        invariant rxSize < size ==>
                    Recv(limitSize, start, queue[..n]) == Waiting(AwaitBody(header, size, req[..rxSize]))
        invariant 0 < rxSize == size ==> Recv(limitSize, start, queue) == Delivered(header, req[..size], queue[n..])
        decreases |queue| - n + if rxSize == size then 0 else 1
      {
        var receiveSize := size - rxSize;
        if receiveSize > CHUNK {
          receiveSize := CHUNK;
        }
        ghost var acc := req[..rxSize];
        var len := rx.ReceiveFrom(receiveSize);
        if len == Fails {
          return ReceiveError, Some(n);
        }
        if len == Blocks {
          assert queue[..n] == queue;
          return Blocked, broken;
        }
        var d := len.d;
        forall k | 0 <= k < |d| {
          req[rxSize + k] := d[k];
        }
        assert req[..rxSize + |d|] == acc + d;
        NextRead(limitSize, start, queue, n, AwaitBody(header, size, acc));
        FeedBody(limitSize, header, size, acc, queue[n]);
        rxSize, n := rxSize + |d|, n + 1;
      }
      result := Received(header, req[..size]);
    }

    /** One Receive call on the datagrams that are there: what it returns, what it leaves, and what it has then
        assigned to the caller's header. `broken` is the number of datagrams it had consumed when a system call
        failed, if one did. */
    method Receive() returns (result: ReceiveResult, outHeader: Option<Bytes>, ghost broken: Option<nat>)
      modifies rx
      ensures |rx.queue| <= |old(rx.queue)| && rx.failures == old(rx.failures) + (if broken == None then 0 else 1)
      ensures outHeader == if isOpen then Assigned(limitSize, old(rx.queue)[..|old(rx.queue)| - |rx.queue|]) else None
      ensures !isOpen ==> result == NotOpen && rx.queue == old(rx.queue)
      ensures isOpen && broken == None ==>
                match Recv(limitSize, AwaitStart, old(rx.queue))
                case Delivered(header, body, rest) => result == Received(header, body) && rx.queue == rest
                case Error(rest) => result == ReceiveError && rx.queue == rest
                case Waiting(_) => result == Blocked && rx.queue == []
      ensures isOpen && broken != None ==>
                && result == ReceiveError
                && broken.value <= |old(rx.queue)| && rx.queue == old(rx.queue)[broken.value..]
                && Recv(limitSize, AwaitStart, old(rx.queue)[..broken.value]).Waiting?
    {
      broken, outHeader := None, None;
      if !isOpen {
        return NotOpen, outHeader, broken;
      }
      hide Recv, Flatten;
      ghost var queue := rx.queue;
      var msg := rx.ReceiveFrom(CHUNK);
      if msg == Fails {
        RecvNothing(limitSize, AwaitStart);
        return ReceiveError, outHeader, Some(0);
      }
      if msg == Blocks {
        RecvNothing(limitSize, AwaitStart);
        return Blocked, outHeader, broken;
      }
      RecvStep(limitSize, AwaitStart, queue);
      if |msg.d| != 8 {
        return ReceiveError, outHeader, broken;
      }
      var size := DecodeUnsigned(msg.d[4..]);
      if msg.d[..4] != MAGIC {
        return ReceiveError, outHeader, broken;
      }
      if 0 < limitSize < size {
        return ReceiveError, outHeader, broken;
      }
      ghost var queue1 := rx.queue;
      RecvStep(limitSize, AwaitStart, queue[..1]);
      RecvNothing(limitSize, AwaitHeader(size));
      msg := rx.ReceiveFrom(CHUNK);
      if msg == Fails {
        return ReceiveError, outHeader, Some(1);
      }
      if msg == Blocks {
        return Blocked, outHeader, broken;
      }
      RecvStep(limitSize, AwaitHeader(size), queue1);
      if |msg.d| > MAX_HEADER {
        return ReceiveError, outHeader, broken;
      }
      ghost var queue2 := rx.queue;
      outHeader := Some(msg.d);
      result, broken := ReceiveBody(msg.d, size);
      if broken.Some? {
        broken := Some(broken.value + 2);
        assert queue[..broken.value][1..][1..] == queue2[..broken.value - 2];
        RecvStep(limitSize, AwaitStart, queue[..broken.value]);
        RecvStep(limitSize, AwaitHeader(size), queue[..broken.value][1..]);
      }
    }
  }
}
