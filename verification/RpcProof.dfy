/** The invariants of the protocol and what they mean for every run. */
module RpcProofs {
  import opened Bytes
  import opened Framing
  import opened Wires
  import opened Rpc

  // ---------------------------------------------------------------- locks

  /** The holder of the client's outer mutex is the one thread inside a call. */
  ghost predicate OuterLock(s: State) {
    && (s.outer.Some? ==> s.outer.value < |s.clients|)
    && forall t :: 0 <= t < |s.clients| ==> (s.clients[t] != Idle <==> s.outer == Some(t))
  }

  /** The response mutex: held by the caller from before Send until it waits or returns, and by the receive
      thread while it fills the slot. */
  ghost predicate SlotLock(s: State) {
    && (s.resp.Some? && s.resp.value.ByCaller? ==> s.resp.value.t < |s.clients|)
    && (s.resp == Some(ByReceiver) <==> s.receiver.Holding? || s.receiver.Stored? || s.receiver.Signalled?)
    && forall t :: 0 <= t < |s.clients| ==>
         (s.clients[t].Sending? || s.clients[t].Testing? <==> s.resp == Some(ByCaller(t)))
  }

  /** The server's mutex: whoever is inside Send holds it. */
  ghost predicate SendLock(s: State) {
    && (s.txLock.Some? && s.txLock.value.ByNotifier? ==> s.txLock.value.i < |s.notifiers|)
    && (s.server.Replying? <==> s.txLock == Some(ByServer))
    && forall i :: 0 <= i < |s.notifiers| ==> (s.notifiers[i].Notifying? <==> s.txLock == Some(ByNotifier(i)))
  }

  /** The server's loop hands every request an empty response buffer. */
  ghost predicate CleanBuffer(s: State) {
    s.server.Serving? || s.server.GotRequest? ==> s.response == []
  }

  /** Send will either refuse the response the server's loop is about to send, or send it whole. */
  ghost predicate Sendable(cfg: Config, s: State) {
    s.server.Ready? ==> Representable(cfg, s.response)
  }

  ghost predicate Locks(s: State) {
    OuterLock(s) && SlotLock(s) && SendLock(s) && !s.receiver.ReceiverBroken? && !s.server.ServerBroken?
  }

  /** What the sender that is inside Send still has to put into the request channel. */
  ghost function RequestTodo(s: State): seq<Datagram> {
    if s.outer.Some? && s.outer.value < |s.clients| && s.clients[s.outer.value].Sending?
    then s.clients[s.outer.value].todo else []
  }

  /** The same for the reply channel, which the server's loop and the notifying threads share. */
  ghost function ReplyTodo(s: State): seq<Datagram> {
    match s.txLock
    case None => []
    case Some(ByServer) => if s.server.Replying? then s.server.todo else []
    case Some(ByNotifier(i)) =>
      if i < |s.notifiers| && s.notifiers[i].Notifying? then s.notifiers[i].todo else []
  }

  /** Frame integrity in both directions; every thread that has something left to send is the holder. */
  ghost predicate Integrity(cfg: Config, s: State) {
    && Locks(s)
    && CleanBuffer(s) && Sendable(cfg, s)
    && WireInv(cfg.limit, s.requests, RequestTodo(s))
    && WireInv(cfg.limit, s.replies, ReplyTodo(s))
  }

  // What a step leaves alone.

  lemma ClientsUntouched(s: State, s': State)
    requires s'.clients == s.clients && s'.outer == s.outer
    ensures OuterLock(s) ==> OuterLock(s')
    ensures RequestTodo(s') == RequestTodo(s)
  {
  }

  lemma SendersUntouched(s: State, s': State)
    requires s'.server == s.server && s'.notifiers == s.notifiers && s'.txLock == s.txLock
    ensures SendLock(s) ==> SendLock(s')
    ensures ReplyTodo(s') == ReplyTodo(s)
  {
  }

  lemma SlotUntouched(s: State, s': State)
    requires s'.clients == s.clients && s'.resp == s.resp
    requires s.receiver == s'.receiver
          || (s.receiver.Receiving? && (s'.receiver.Receiving? || s'.receiver.GotReply?))
    ensures SlotLock(s) ==> SlotLock(s')
  {
  }

  lemma ClientIntegrity(cfg: Config, s: State, t: nat, c: ClientStep)
    requires Integrity(cfg, s) && ClientEnabled(cfg, s, t, c)
    ensures Integrity(cfg, ClientApply(cfg, s, t, c))
  {
    hide WireInv, FrameOk, Acceptable, Begin, Put, EncodeInt, SendLock, ReplyTodo;
    var s' := ClientApply(cfg, s, t, c);
    var pc := s.clients[t];
    SendersUntouched(s, s');
    match c
    case StartSend(ds) =>
      BeginKeeps(cfg.limit, s.requests, Frame(TypeHeader(pc.call.kind), pc.call.request, ds));
    case PutRequest =>
      PutKeeps(cfg.limit, s.requests, pc.todo);
    case _ =>
  }

  lemma TakeRequestIntegrity(cfg: Config, s: State)
    requires Integrity(cfg, s) && ServerEnabled(cfg, s, TakeRequest)
    ensures Integrity(cfg, ServerApply(cfg, s, TakeRequest))
  {
    hide WireInv, Feed, Take, TypeOf, OuterLock, SlotLock, RequestTodo;
    var s' := ServerApply(cfg, s, TakeRequest);
    ClientsUntouched(s, s');
    SlotUntouched(s, s');
    TakeKeeps(cfg.limit, s.requests, RequestTodo(s));
  }

  lemma ReplyIntegrity(cfg: Config, s: State, v: ServerStep)
    requires Integrity(cfg, s) && ServerEnabled(cfg, s, v) && !v.TakeRequest?
    ensures Integrity(cfg, ServerApply(cfg, s, v))
  {
    hide WireInv, FrameOk, Acceptable, Feed, Take, Begin, Put, EncodeInt, TypeOf, OuterLock, SlotLock, RequestTodo;
    var s' := ServerApply(cfg, s, v);
    ClientsUntouched(s, s');
    SlotUntouched(s, s');
    match v
    case StartReply(ds) => BeginKeeps(cfg.limit, s.replies, Frame(s.server.header, s.response, ds));
    case PutReply => PutKeeps(cfg.limit, s.replies, s.server.todo);
    case _ =>
  }

  lemma ServerIntegrity(cfg: Config, s: State, v: ServerStep)
    requires Integrity(cfg, s) && ServerEnabled(cfg, s, v)
    ensures Integrity(cfg, ServerApply(cfg, s, v))
  {
    hide Integrity, ServerApply, ServerEnabled;
    if v.TakeRequest? { TakeRequestIntegrity(cfg, s); } else { ReplyIntegrity(cfg, s, v); }
  }

  lemma NotifierIntegrity(cfg: Config, s: State, i: nat, n: NotifierStep)
    requires Integrity(cfg, s) && NotifierEnabled(cfg, s, i, n)
    ensures Integrity(cfg, NotifierApply(cfg, s, i, n))
  {
    hide WireInv, FrameOk, Acceptable, Begin, Put, EncodeInt, OuterLock, SlotLock, RequestTodo;
    var s' := NotifierApply(cfg, s, i, n);
    ClientsUntouched(s, s');
    SlotUntouched(s, s');
    match n
    case StartNotify(ping, body, ds) => BeginKeeps(cfg.limit, s.replies, NotifyFrame(ping, body, ds));
    case PutNotify => PutKeeps(cfg.limit, s.replies, s.notifiers[i].todo);
    case EndNotify =>
  }

  lemma TakeReplyEffect(cfg: Config, s: State)
    requires ReceiverEnabled(cfg, s, TakeReply)
    ensures var s' := ReceiverApply(cfg, s, TakeReply);
            && s' == s.(replies := Take(cfg.limit, s.replies), receiver := s'.receiver, noticed := s'.noticed)
            && s.receiver == Receiving
            && (!Feed(cfg.limit, s.replies.rx, s.replies.queue[0]).Failed? ==>
                  s'.receiver == Receiving || s'.receiver.GotReply?)
  {
    hide Feed, Take, TypeOf;
  }

  lemma TakeReplyIntegrity(cfg: Config, s: State)
    requires Integrity(cfg, s) && ReceiverEnabled(cfg, s, TakeReply)
    ensures Integrity(cfg, ReceiverApply(cfg, s, TakeReply))
  {
    TakeReplyEffect(cfg, s);
    hide WireInv, Feed, Take, ReceiverApply, SendLock, ReplyTodo, OuterLock, SlotLock, RequestTodo;
    var s' := ReceiverApply(cfg, s, TakeReply);
    SendersUntouched(s, s');
    TakeKeeps(cfg.limit, s.replies, ReplyTodo(s));
    ClientsUntouched(s, s');
    SlotUntouched(s, s');
  }

  /** What the receive thread changes once it has its frame. */
  lemma SlotOnly(cfg: Config, s: State, r: ReceiverStep)
    requires ReceiverEnabled(cfg, s, r) && !r.TakeReply?
    ensures var s' := ReceiverApply(cfg, s, r);
            s' == s.(clients := s'.clients, resp := s'.resp, arrived := s'.arrived, stored := s'.stored,
                     slotHeader := s'.slotHeader, slotBody := s'.slotBody, receiver := s'.receiver)
  {
    hide Feed, Take, TypeOf;
  }

  /** Waking the blocked caller changes no lock. */
  lemma WokenLocks(cfg: Config, s: State, t: nat)
    requires OuterLock(s) && SlotLock(s) && ReceiverEnabled(cfg, s, Signal(Some(t)))
    ensures var s' := ReceiverApply(cfg, s, Signal(Some(t)));
            && s' == s.(receiver := Signalled, clients := s.clients[t := Woken(s.clients[t].call)])
            && OuterLock(s') && SlotLock(s') && RequestTodo(s') == RequestTodo(s)
  {
    hide Feed, Take, TypeOf;
  }

  lemma SlotLocks(cfg: Config, s: State, r: ReceiverStep)
    requires OuterLock(s) && SlotLock(s) && ReceiverEnabled(cfg, s, r) && !r.TakeReply?
    ensures var s' := ReceiverApply(cfg, s, r);
            OuterLock(s') && SlotLock(s') && RequestTodo(s') == RequestTodo(s) && !s'.receiver.ReceiverBroken?
  {
    hide Feed, Take, TypeOf, RequestTodo;
    if r.Signal? && r.woken.Some? {
      hide ReceiverApply;
      WokenLocks(cfg, s, r.woken.value);
    } else {
      hide OuterLock;
      ClientsUntouched(s, ReceiverApply(cfg, s, r));
    }
  }

  lemma ReceiverIntegrity(cfg: Config, s: State, r: ReceiverStep)
    requires Integrity(cfg, s) && ReceiverEnabled(cfg, s, r)
    ensures Integrity(cfg, ReceiverApply(cfg, s, r))
  {
    hide WireInv, ReceiverApply, ReceiverEnabled, SendLock, ReplyTodo, OuterLock, SlotLock, RequestTodo;
    if r.TakeReply? {
      TakeReplyIntegrity(cfg, s);
    } else {
      var s' := ReceiverApply(cfg, s, r);
      SlotOnly(cfg, s, r);
      SlotLocks(cfg, s, r);
      SendersUntouched(s, s');
    }
  }

  // ---------------------------------------------------------------- no lost wakeup

  /** Nothing is stored while a call is inside its Send; the flag is then up exactly if something has been stored
      since, until the caller takes it; and a caller that is blocked although something has been stored is about to
      be signalled. */
  ghost predicate NoLostWakeup(s: State) {
    && (s.receiver == Stored || s.receiver == Signalled ==> s.arrived)
    && forall t :: 0 <= t < |s.clients| ==>
         var pc := s.clients[t];
         && (pc.Sending? ==> !s.stored)
         && (pc.Testing? || pc.Blocked? || pc.Woken? ==> (s.stored <==> s.arrived))
         && (s.arrived && pc.Blocked? ==> s.receiver == Stored)
  }

  lemma ClientWakeup(cfg: Config, s: State, t: nat, c: ClientStep)
    requires Locks(s) && NoLostWakeup(s) && ClientEnabled(cfg, s, t, c)
    ensures NoLostWakeup(ClientApply(cfg, s, t, c))
  {
    hide FrameOk, Acceptable, Begin, Put, EncodeInt, TypeOf;
  }

  /** Before a frame is complete nobody blocked has anything to be signalled for. */
  lemma TakeReplyWakeup(cfg: Config, s: State)
    requires NoLostWakeup(s) && ReceiverEnabled(cfg, s, TakeReply)
    ensures NoLostWakeup(ReceiverApply(cfg, s, TakeReply))
  {
    hide Feed, Take, EncodeInt, TypeOf;
  }

  /** Storing happens under the response mutex, so no call is inside its Send. */
  lemma StoreWakeup(cfg: Config, s: State)
    requires SlotLock(s) && NoLostWakeup(s) && ReceiverEnabled(cfg, s, Store)
    ensures NoLostWakeup(ReceiverApply(cfg, s, Store))
  {
    hide Feed, Take, EncodeInt, TypeOf;
  }

  /** The signal reaches the blocked caller, and there is only one. */
  lemma SignalWakeup(cfg: Config, s: State, woken: Option<nat>)
    requires OuterLock(s) && NoLostWakeup(s) && ReceiverEnabled(cfg, s, Signal(woken))
    ensures NoLostWakeup(ReceiverApply(cfg, s, Signal(woken)))
  {
    hide Feed, Take, EncodeInt, TypeOf;
  }

  lemma ReceiverWakeup(cfg: Config, s: State, r: ReceiverStep)
    requires Locks(s) && NoLostWakeup(s) && ReceiverEnabled(cfg, s, r)
    ensures NoLostWakeup(ReceiverApply(cfg, s, r))
  {
    hide Feed, Take, EncodeInt, TypeOf, OuterLock, SlotLock, SendLock;
    match r
    case TakeReply => TakeReplyWakeup(cfg, s);
    case Store => StoreWakeup(cfg, s);
    case Signal(woken) => SignalWakeup(cfg, s, woken);
    case _ =>
  }

  // ---------------------------------------------------------------- one exchange at a time

  /** A request on its way to the handler, or a response on its way back. */
  datatype Token = Asked(header: Bytes, body: Bytes) | Answered(header: Bytes, body: Bytes)

  ghost function AskedIn(open: seq<Frame>): seq<Token> {
    if open == [] then [] else [Asked(open[0].header, open[0].body)] + AskedIn(open[1..])
  }

  ghost function AnsweredIn(open: seq<Frame>): seq<Token> {
    if open == [] then []
    else (if IsReply(open[0].header) then [Answered(open[0].header, open[0].body)] else []) + AnsweredIn(open[1..])
  }

  ghost function AtServer(pc: ServerPC, response: Bytes): seq<Token> {
    if pc.GotRequest? then [Asked(pc.header, pc.request)]
    else if pc.Ready? then [Answered(pc.header, response)]
    else []
  }

  ghost function AtReceiver(pc: ReceiverPC): seq<Token> {
    if pc.GotReply? || pc.Holding? then [Answered(pc.header, pc.body)] else []
  }

  ghost function InSlot(s: State): seq<Token> {
    if s.arrived then [Answered(s.slotHeader, s.slotBody)] else []
  }

  /** How many exchanges there are: in the request channel, at the server, in the reply channel, at the receive
      thread and in the slot. */
  ghost function Exchanges(s: State): nat {
    |AskedIn(s.requests.open)| + |AtServer(s.server, s.response)| + |AnsweredIn(s.replies.open)|
    + |AtReceiver(s.receiver)| + |InSlot(s)|
  }

  /** The exchange there is, wherever it is. */
  ghost function TheExchange(s: State): seq<Token> {
    if AskedIn(s.requests.open) != [] then AskedIn(s.requests.open)
    else if AtServer(s.server, s.response) != [] then AtServer(s.server, s.response)
    else if AnsweredIn(s.replies.open) != [] then AnsweredIn(s.replies.open)
    else if AtReceiver(s.receiver) != [] then AtReceiver(s.receiver)
    else InSlot(s)
  }

  /** The handler calls that completed calls account for, in order. */
  ghost function Requests(done: seq<Completed>): seq<Handled> {
    if done == [] then []
    else
      var last := done[|done| - 1];
      Requests(done[..|done| - 1])
      + if last.call.kind == REQUEST then [Handled(last.call.request, last.response)] else []
  }

  /** The call between the start of its Send and its return. */
  ghost function ActiveCall(s: State): Option<Call> {
    if s.outer.Some? && s.outer.value < |s.clients| && s.clients[s.outer.value] != Idle
       && !s.clients[s.outer.value].Entered?
    then Some(s.clients[s.outer.value].call) else None
  }

  ghost predicate IsCall(call: Call) { call.kind == REQUEST || (call.kind == PING && call.request == PING_BODY) }

  /** What `log` holds beyond `before` when `r` answers `call`: the handler's one call on this request with
      this response, and nothing for a ping. */
  ghost predicate Answers(call: Call, r: Bytes, log: seq<Handled>, before: seq<Handled>) {
    if call.kind == PING then r == OK_BODY && log == before
    else log == before + [Handled(call.request, r)]
  }

  /** How far the active call has got: asked, answered, or its answer refused by the server's Send. */
  ghost predicate Progress(call: Call, tokens: seq<Token>, refused: bool, log: seq<Handled>, before: seq<Handled>) {
    || (!refused && tokens == [Asked(TypeHeader(call.kind), call.request)] && log == before)
    || (!refused && |tokens| == 1 && tokens[0].Answered? && tokens[0].header == TypeHeader(call.kind)
        && Answers(call, tokens[0].body, log, before))
    || (tokens == [] && refused && exists r :: Answers(call, r, log, before))
  }

  /** Calls are requests or pings, and nothing has arrived while one is being sent. */
  ghost predicate Calls(s: State) {
    && (forall t :: 0 <= t < |s.clients| && s.clients[t] != Idle ==> IsCall(s.clients[t].call))
    && (forall t :: 0 <= t < |s.clients| && s.clients[t].Sending? ==> !s.arrived)
  }

  /** At most one exchange exists, it belongs to the active call, and there is none without an active call. */
  ghost predicate Exchange(s: State) {
    && Calls(s)
    && Exchanges(s) <= 1
    && (match ActiveCall(s)
        case None => Exchanges(s) == 0 && s.log == Requests(s.done)
        case Some(call) => Progress(call, TheExchange(s), s.refused, s.log, Requests(s.done)))
  }

  lemma SameCalls(s: State, s': State)
    requires s'.clients == s.clients && s'.outer == s.outer
    ensures ActiveCall(s') == ActiveCall(s)
    ensures Calls(s) && ActiveCall(s).Some? ==> IsCall(ActiveCall(s).value)
    ensures Calls(s) && s'.arrived == s.arrived ==> Calls(s')
  {
  }

  lemma {:induction false} OpenSnoc(open: seq<Frame>, f: Frame)
    ensures AskedIn(open + [f]) == AskedIn(open) + [Asked(f.header, f.body)]
    ensures AnsweredIn(open + [f])
            == AnsweredIn(open) + if IsReply(f.header) then [Answered(f.header, f.body)] else []
  {
    hide IsReply;
    if open == [] {
      assert (open + [f])[1..] == [];
    } else {
      assert (open + [f])[1..] == open[1..] + [f];
      OpenSnoc(open[1..], f);
    }
  }

  lemma HeaderType(kind: nat)
    requires kind < POW32
    ensures TypeOf(TypeHeader(kind)) == kind
  {
    DecodeEncodeInt(kind);
    assert TypeHeader(kind)[..4] == TypeHeader(kind);
  }

  lemma StartSendExchange(s: State, cfg: Config, t: nat, ds: seq<Datagram>)
    requires OuterLock(s) && Exchange(s) && ClientEnabled(cfg, s, t, StartSend(ds))
    ensures Exchange(ClientApply(cfg, s, t, StartSend(ds)))
  {
    hide FrameOk, Acceptable, EncodeInt, AskedIn, AnsweredIn, TypeOf;
    OpenSnoc(s.requests.open, Frame(TypeHeader(s.clients[t].call.kind), s.clients[t].call.request, ds));
  }

  /** The response taken is the answer to the caller's own call. */
  lemma TakeResponseExchange(s: State, cfg: Config, t: nat)
    requires !cfg.asWritten && OuterLock(s) && Exchange(s) && ClientEnabled(cfg, s, t, TakeResponse)
    ensures Exchange(ClientApply(cfg, s, t, TakeResponse))
  {
    hide EncodeInt, AskedIn, AnsweredIn, TypeOf;
    HeaderType(s.clients[t].call.kind);
    assert ClientApply(cfg, s, t, TakeResponse).done[..|s.done|] == s.done;
  }

  lemma ClientExchange(s: State, cfg: Config, t: nat, c: ClientStep)
    requires !cfg.asWritten && Integrity(cfg, s) && Exchange(s) && ClientEnabled(cfg, s, t, c)
    ensures Exchange(ClientApply(cfg, s, t, c))
  {
    hide WireInv, FrameOk, EncodeInt, SlotLock, SendLock, ReplyTodo, RequestTodo, AskedIn, AnsweredIn, TypeOf, Answers;
    match c
    case StartSend(ds) => StartSendExchange(s, cfg, t, ds);
    case TakeResponse => TakeResponseExchange(s, cfg, t);
    case _ =>
  }

  /** The invariant depends on nothing else. */
  lemma SameExchange(s: State, s': State)
    requires Exchange(s) && Exchanges(s') == Exchanges(s) && TheExchange(s') == TheExchange(s)
    requires s'.refused == s.refused && s'.log == s.log && s'.done == s.done
    requires ActiveCall(s') == ActiveCall(s) && Calls(s')
    ensures Exchange(s')
  {
  }

  /** What receiving one datagram of the request channel does. */
  lemma TakeRequestCases(cfg: Config, s: State)
    requires Integrity(cfg, s) && ServerEnabled(cfg, s, TakeRequest)
    ensures var s' := ServerApply(cfg, s, TakeRequest);
            && s' == s.(requests := s'.requests, server := s'.server)
            && (|| (s'.requests.open == s.requests.open && s'.server == Serving)
                || (&& s.requests.open != [] && s'.requests.open == s.requests.open[1..]
                    && s'.server == GotRequest(s.requests.open[0].header, s.requests.open[0].body)))
  {
    hide WireInv, Feed, Take, OuterLock, SlotLock, SendLock, ReplyTodo, RequestTodo;
    TakeKeeps(cfg.limit, s.requests, RequestTodo(s));
  }

  lemma TakeRequestExchange(s: State, cfg: Config)
    requires Integrity(cfg, s) && Exchange(s) && ServerEnabled(cfg, s, TakeRequest)
    ensures Exchange(ServerApply(cfg, s, TakeRequest))
  {
    TakeRequestCases(cfg, s);
    SameCalls(s, ServerApply(cfg, s, TakeRequest));
    hide Integrity, ServerApply, ServerEnabled, AnsweredIn, AtReceiver, ActiveCall, Calls, Progress, Requests;
    SameExchange(s, ServerApply(cfg, s, TakeRequest));
  }

  lemma HandleStep(s: State, cfg: Config, response: Bytes)
    requires CleanBuffer(s) && ServerEnabled(cfg, s, Handle(response))
    ensures var s' := ServerApply(cfg, s, Handle(response));
            && s' == s.(server := s'.server, response := s'.response, log := s'.log)
            && AtServer(s.server, s.response) == [Asked(s.server.header, s.server.request)]
            && (TypeOf(s.server.header) == PING ==>
                  AtServer(s'.server, s'.response) == [Answered(s.server.header, OK_BODY)] && s'.log == s.log)
            && (TypeOf(s.server.header) != PING ==>
                  && AtServer(s'.server, s'.response) == [Answered(s.server.header, response)]
                  && s'.log == s.log + [Handled(s.server.request, response)])
  {
    hide TypeOf, EncodeInt;
    assert [] + response == response && [] + OK_BODY == OK_BODY;
  }

  /** The server answers the one exchange there is. */
  lemma HandleExchange(s: State, cfg: Config, response: Bytes)
    requires CleanBuffer(s) && Exchange(s) && ServerEnabled(cfg, s, Handle(response))
    ensures Exchange(ServerApply(cfg, s, Handle(response)))
  {
    HandleStep(s, cfg, response);
    SameCalls(s, ServerApply(cfg, s, Handle(response)));
    HeaderType(REQUEST);
    HeaderType(PING);
    hide ServerApply, EncodeInt, AskedIn, AnsweredIn, AtServer, AtReceiver, TypeOf, ActiveCall, Calls, Requests;
  }

  lemma ReplySteps(s: State, cfg: Config, v: ServerStep)
    requires ServerEnabled(cfg, s, v) && (v.StartReply? || v.RefuseReply?)
    ensures var s' := ServerApply(cfg, s, v);
            && AtServer(s.server, s.response) == [Answered(s.server.header, s.response)]
            && AtServer(s'.server, s'.response) == []
            && s'.requests == s.requests && s'.receiver == s.receiver && InSlot(s') == InSlot(s)
            && s'.log == s.log && s'.done == s.done && s'.clients == s.clients && s'.outer == s.outer
            && s'.arrived == s.arrived && (s'.refused <==> s.refused || v.RefuseReply?)
            && (v.StartReply? && IsReply(s.server.header) ==>
                  AnsweredIn(s'.replies.open) == AnsweredIn(s.replies.open) + AtServer(s.server, s.response))
            && (v.RefuseReply? ==> s'.replies == s.replies)
  {
    hide TypeOf, AnsweredIn, FrameOk, Acceptable, IsReply;
    if v.StartReply? {
      OpenSnoc(s.replies.open, Frame(s.server.header, s.response, v.ds));
    }
  }

  /** The reply enters the reply channel, or Send refuses it and the exchange is over unanswered. */
  lemma ReplyExchange(s: State, cfg: Config, v: ServerStep)
    requires Exchange(s) && ServerEnabled(cfg, s, v) && (v.StartReply? || v.RefuseReply?)
    ensures Exchange(ServerApply(cfg, s, v))
  {
    ReplySteps(s, cfg, v);
    SameCalls(s, ServerApply(cfg, s, v));
    HeaderType(REQUEST);
    HeaderType(PING);
    hide ServerApply, EncodeInt, AskedIn, AnsweredIn, AtServer, AtReceiver, InSlot, TypeOf, ActiveCall, Calls, Requests,
      Answers;
  }

  lemma BufferOf(cfg: Config, s: State)
    requires Integrity(cfg, s)
    ensures CleanBuffer(s)
  {
  }

  lemma ServerExchange(s: State, cfg: Config, v: ServerStep)
    requires !cfg.asWritten && Integrity(cfg, s) && Exchange(s) && ServerEnabled(cfg, s, v)
    ensures Exchange(ServerApply(cfg, s, v))
  {
    hide Integrity, EncodeInt, TypeOf, AskedIn, AnsweredIn, Progress, Calls;
    if v.TakeRequest? {
      TakeRequestExchange(s, cfg);
    } else if v.PutReply? || v.EndReply? {
      SameCalls(s, ServerApply(cfg, s, v));
      SameExchange(s, ServerApply(cfg, s, v));
    } else if v.Handle? {
      BufferOf(cfg, s);
      HandleExchange(s, cfg, v.response);
    } else {
      ReplyExchange(s, cfg, v);
    }
  }

  lemma NotifierSteps(s: State, cfg: Config, i: nat, n: NotifierStep)
    requires NotifierEnabled(cfg, s, i, n)
    ensures var s' := NotifierApply(cfg, s, i, n);
            && s' == s.(notifiers := s'.notifiers, txLock := s'.txLock, replies := s'.replies, notices := s'.notices)
            && AnsweredIn(s'.replies.open) == AnsweredIn(s.replies.open)
  {
    HeaderType(NOTIFY);
    HeaderType(SERVER_PING);
    hide FrameOk, TypeOf, EncodeInt, AnsweredIn;
    if n.StartNotify? { OpenSnoc(s.replies.open, NotifyFrame(n.ping, n.body, n.ds)); }
  }

  lemma NotifierExchange(s: State, cfg: Config, i: nat, n: NotifierStep)
    requires Exchange(s) && NotifierEnabled(cfg, s, i, n)
    ensures Exchange(NotifierApply(cfg, s, i, n))
  {
    var s' := NotifierApply(cfg, s, i, n);
    NotifierSteps(s, cfg, i, n);
    SameCalls(s, s');
    hide NotifierApply, AskedIn, AnsweredIn, ActiveCall, Calls, Requests, Progress;
    SameExchange(s, s');
  }

  /** What receiving one datagram of the reply channel does, under the intended guard. */
  lemma TakeReplyCases(cfg: Config, s: State)
    requires !cfg.asWritten && Integrity(cfg, s) && ReceiverEnabled(cfg, s, TakeReply)
    ensures var s' := ReceiverApply(cfg, s, TakeReply);
            && s' == s.(replies := s'.replies, receiver := s'.receiver, noticed := s'.noticed)
            && (|| (s'.replies.open == s.replies.open && s'.receiver == Receiving && s'.noticed == s.noticed)
                || (&& s.replies.open != [] && s'.replies.open == s.replies.open[1..]
                    && var f := s.replies.open[0];
                       if IsReply(f.header) then s'.receiver == GotReply(f.header, f.body) && s'.noticed == s.noticed
                       else && s'.receiver == Receiving
                            && s'.noticed == s.noticed + if TypeOf(f.header) == NOTIFY then [f.body] else []))
  {
    hide WireInv, Feed, Take, EncodeInt, TypeOf, IsReply, OuterLock, SlotLock, SendLock;
    TakeKeeps(cfg.limit, s.replies, ReplyTodo(s));
  }

  /** Receiving a frame moves its exchange from the channel to the receive thread, or moves none. */
  lemma TakeReplyExchange(s: State, cfg: Config)
    requires !cfg.asWritten && Integrity(cfg, s) && Exchange(s) && ReceiverEnabled(cfg, s, TakeReply)
    ensures Exchange(ReceiverApply(cfg, s, TakeReply))
  {
    hide Integrity, IsReply, TypeOf, ReceiverApply, ReceiverEnabled, AskedIn, AtServer, ActiveCall, Calls, Progress,
      Requests;
    TakeReplyEffect(cfg, s);
    TakeReplyCases(cfg, s);
    SameCalls(s, ReceiverApply(cfg, s, TakeReply));
    SameExchange(s, ReceiverApply(cfg, s, TakeReply));
  }

  lemma ReceiverCalls(s: State, cfg: Config, r: ReceiverStep)
    requires Integrity(cfg, s) && Calls(s) && ReceiverEnabled(cfg, s, r) && !r.TakeReply?
    ensures var s' := ReceiverApply(cfg, s, r); ActiveCall(s') == ActiveCall(s) && Calls(s')
  {
    hide WireInv, SendLock, ReplyTodo, RequestTodo, Feed, Take, TypeOf;
    if r.Signal? && r.woken.Some? {
      hide ReceiverApply;
      WokenLocks(cfg, s, r.woken.value);
    } else {
      SameCalls(s, ReceiverApply(cfg, s, r));
    }
  }

  lemma SlotSteps(s: State, cfg: Config, r: ReceiverStep)
    requires !cfg.asWritten && ReceiverEnabled(cfg, s, r) && !r.TakeReply?
    ensures var s' := ReceiverApply(cfg, s, r);
            && s'.requests == s.requests && s'.replies == s.replies
            && s'.server == s.server && s'.response == s.response && s'.refused == s.refused
            && s'.log == s.log && s'.done == s.done
            && ((AtReceiver(s.receiver) == AtReceiver(s'.receiver) && InSlot(s') == InSlot(s))
                || (AtReceiver(s.receiver) == InSlot(s') && |InSlot(s')| == 1 && AtReceiver(s'.receiver) == []))
  {
    hide TypeOf;
  }

  /** Storing moves the exchange from the receive thread to the slot; the other steps move none. */
  lemma ReceiverExchange(s: State, cfg: Config, r: ReceiverStep)
    requires !cfg.asWritten && Integrity(cfg, s) && Exchange(s) && ReceiverEnabled(cfg, s, r)
    ensures Exchange(ReceiverApply(cfg, s, r))
  {
    if r.TakeReply? {
      TakeReplyExchange(s, cfg);
    } else {
      ReceiverCalls(s, cfg, r);
      SlotSteps(s, cfg, r);
      hide Integrity, ReceiverApply, ReceiverEnabled, AskedIn, AnsweredIn, AtServer, ActiveCall, Calls, Progress,
        Requests;
      SameExchange(s, ReceiverApply(cfg, s, r));
    }
  }
}
