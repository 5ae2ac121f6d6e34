/** One direction of the connection: the kernel's datagram queue, the receiver's reassembly state, and the
    history that frame integrity is stated about. */
module Wires {
  import opened Bytes
  import opened Framing

  datatype Frame = Frame(header: Bytes, body: Bytes, ds: seq<Datagram>)

  /** `queue` and `rx` are real; `open` (the frames begun and not yet wholly received, oldest first) and
      `got` (the datagrams of the oldest one already received) are history that no step reads. */
  datatype Wire = Wire(queue: seq<Datagram>, rx: Rx, open: seq<Frame>, got: seq<Datagram>)

  const EMPTY: Wire := Wire([], AwaitStart, [], [])

  predicate FrameOk(limit: nat, f: Frame) {
    IsFrame(f.header, f.body, f.ds) && Acceptable(limit, f.header, f.body)
  }

  function Datagrams(open: seq<Frame>): seq<Datagram> {
    if open == [] then [] else open[0].ds + Datagrams(open[1..])
  }

  /** A sender takes its lock and starts a frame. */
  function Begin(w: Wire, f: Frame): Wire {
    w.(open := w.open + [f])
  }

  function Put(w: Wire, d: Datagram): Wire {
    w.(queue := w.queue + [d])
  }

  /** The receiver consumes one datagram. */
  function Take(limit: nat, w: Wire): Wire
    requires w.queue != []
  {
    var w' := w.(queue := w.queue[1..]);
    match Feed(limit, w.rx, w.queue[0])
    case More(rx) => w'.(rx := rx, got := w.got + [w.queue[0]])
    case Done(_, _) => w'.(rx := AwaitStart, open := if w.open == [] then [] else w.open[1..], got := [])
    case Failed => w'.(rx := AwaitStart)
  }

  /** Frame integrity. What has been received of the oldest frame, what is queued, and what the one active
      sender still has to send, in this order, are exactly the frames begun, one after the other: frames
      never interleave, and only the newest can be incomplete. */
  ghost predicate WireInv(limit: nat, w: Wire, todo: seq<Datagram>) {
    && (forall i :: 0 <= i < |w.open| ==> FrameOk(limit, w.open[i]))
    && Datagrams(w.open) == w.got + w.queue + todo
    && (todo != [] ==> w.open != [] && |todo| <= |w.open[|w.open| - 1].ds|)
    && if w.open == [] then w.got == [] && w.rx == AwaitStart
       else
         && |w.got| < |w.open[0].ds| && w.got == w.open[0].ds[..|w.got|]
         && w.rx == RxAt(w.open[0].body, w.open[0].ds, |w.got|)
  }

  lemma {:induction false} DatagramsSnoc(open: seq<Frame>, f: Frame)
    ensures Datagrams(open + [f]) == Datagrams(open) + f.ds
  {
    if open == [] {
      assert (open + [f])[1..] == [];
    } else {
      assert (open + [f])[1..] == open[1..] + [f];
      DatagramsSnoc(open[1..], f);
    }
  }

  lemma BeginKeeps(limit: nat, w: Wire, f: Frame)
    requires WireInv(limit, w, []) && FrameOk(limit, f)
    ensures WireInv(limit, Begin(w, f), f.ds)
  {
    hide IsChunking, Acceptable;
    DatagramsSnoc(w.open, f);
    if w.open == [] { assert w.queue == []; }
  }

  lemma PutKeeps(limit: nat, w: Wire, todo: seq<Datagram>)
    requires WireInv(limit, w, todo) && todo != []
    ensures WireInv(limit, Put(w, todo[0]), todo[1..])
  {
    hide FrameOk;
    assert w.got + (w.queue + [todo[0]]) + todo[1..] == w.got + w.queue + todo;
  }

  /** The next datagram in the queue is the one the receiver awaits. */
  lemma NextDatagram(limit: nat, w: Wire, todo: seq<Datagram>)
    requires WireInv(limit, w, todo) && w.queue != []
    ensures w.open != []
    ensures var f, n := w.open[0], |w.got|;
            && f.ds[n] == w.queue[0]
            && Feed(limit, w.rx, w.queue[0])
               == if n + 1 == |f.ds| then Done(f.header, f.body) else More(RxAt(f.body, f.ds, n + 1))
  {
    hide Feed, IsChunking, Acceptable;
    var all := w.got + w.queue + todo;
    var f, n := w.open[0], |w.got|;
    assert all[n] == w.queue[0];
    assert Datagrams(w.open)[n] == f.ds[n];
    FeedFrame(limit, f.header, f.body, f.ds, n);
  }

  /** No receive fails, and the frame a receive completes is the oldest one, with its own header and body. */
  lemma TakeKeeps(limit: nat, w: Wire, todo: seq<Datagram>)
    requires WireInv(limit, w, todo) && w.queue != []
    ensures var fed, w' := Feed(limit, w.rx, w.queue[0]), Take(limit, w);
            && !fed.Failed? && WireInv(limit, w', todo)
            && (fed.Done? ==> w.open != [] && fed == Done(w.open[0].header, w.open[0].body) && w'.open == w.open[1..])
            && (fed.More? ==> w'.open == w.open)
  {
    hide Feed, IsChunking, Acceptable;
    NextDatagram(limit, w, todo);
    var all := w.got + w.queue + todo;
    var f, n := w.open[0], |w.got|;
    if n + 1 == |f.ds| {
      assert Datagrams(w.open)[n + 1..] == Datagrams(w.open[1..]);
      assert all[n + 1..] == w.queue[1..] + todo;
    } else {
      assert f.ds[..n + 1] == w.got + [w.queue[0]];
      assert w.got + [w.queue[0]] + w.queue[1..] + todo == all;
    }
  }
}
