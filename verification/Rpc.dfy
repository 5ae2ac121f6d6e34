/** The request/response/notify protocol as a small-step transition system: any number of client threads, the
    client's receive thread, the server's loop and any number of notifying threads, stepping one lock
    operation, one datagram or one condition-variable operation at a time. */
module Rpc {
  import opened Bytes
  import opened Framing
  import opened Wires

  // message types, the 4-byte application header
  const REQUEST: nat := 0
  const NOTIFY: nat := 1
  const PING: nat := 2
  const SERVER_PING: nat := 3

  /** ByteBuffer::Append of a string literal: length, then text. */
  const PING_BODY: Bytes := EncodeInt(4) + [0x50, 0x49, 0x4E, 0x47]
  const OK_BODY: Bytes := EncodeInt(2) + [0x4F, 0x4B]

  function TypeHeader(kind: nat): Bytes { EncodeInt(kind) }

  /** `header.Value(type)`; a shorter header has no type. */
  function TypeOf(header: Bytes): nat {
    if |header| >= 4 then DecodeUnsigned(header[..4]) else POW32
  }

  predicate IsReply(header: Bytes) { TypeOf(header) == REQUEST || TypeOf(header) == PING }

  /** One privateSendReceive call: its type, its request, and what the caller's response buffer holds. */
  datatype Call = Call(kind: nat, request: Bytes, out: Bytes)

  datatype ClientPC =
    | Idle
    | Entered(call: Call)                              // holds m_mutex
    | Sending(call: Call, todo: seq<Datagram>)         // holds m_mutex and m_responseMutex, inside Send
    | Testing(call: Call)                              // holds both, at the guard of the wait loop
    | Blocked(call: Call)                              // holds m_mutex, inside pthread_cond_wait
    | Woken(call: Call)                                // holds m_mutex, reacquiring m_responseMutex

  datatype ReceiverPC =
    | Receiving
    | GotReply(header: Bytes, body: Bytes)             // about to lock m_responseMutex
    | Holding(header: Bytes, body: Bytes)              // holds m_responseMutex
    | Stored                                           // holds it, about to signal
    | Signalled                                        // holds it, about to unlock
    | ReceiverBroken                                   // a Receive call failed

  datatype ServerPC =
    | Serving
    | GotRequest(header: Bytes, request: Bytes)
    | Ready(header: Bytes)                             // about to lock the server's m_mutex
    | Replying(todo: seq<Datagram>)                    // holds it, inside Send
    | ServerBroken                                     // a Receive call failed

  datatype NotifierPC = Quiet | Notifying(todo: seq<Datagram>)

  datatype ResponseHolder = ByCaller(t: nat) | ByReceiver
  datatype SendHolder = ByServer | ByNotifier(i: nat)

  /** One call of the application's request handler. */
  datatype Handled = Handled(request: Bytes, response: Bytes)

  /** A call that returned success, with what the caller's response buffer then held. */
  datatype Completed = Completed(call: Call, response: Bytes)

  datatype State = State(
    clients: seq<ClientPC>,
    outer: Option<nat>,                 // m_mutex of the client
    resp: Option<ResponseHolder>,       // m_responseMutex
    arrived: bool,                      // m_responseArrived
    slotHeader: Bytes,                  // m_responseHeader
    slotBody: Bytes,                    // m_response
    receiver: ReceiverPC,
    server: ServerPC,
    response: Bytes,                    // the response buffer of the server's loop
    notifiers: seq<NotifierPC>,
    txLock: Option<SendHolder>,         // m_mutex of the server
    requests: Wire,
    replies: Wire,
    // history, which no step reads
    stored: bool,                       // a frame was put into the slot since the latest Send began
    refused: bool,                      // a reply was refused by Send since then
    log: seq<Handled>,
    done: seq<Completed>,
    notices: seq<Bytes>,                // bodies whose Notify began sending
    noticed: seq<Bytes>                 // bodies given to ReceiveNotify
  )

  /** `limit` is the size limit both ends use; `asWritten` chooses the guard on the receive result: the one
      in the source, true on success, or the intended one, true on error. */
  datatype Config = Config(limit: UInt, asWritten: bool)

  /** Without a limit, callers and handlers keep what they send below 2^32 bytes. */
  predicate Representable(cfg: Config, body: Bytes) { cfg.limit > 0 || |body| < POW32 }

  datatype ClientStep =
    | Enter(call: Call)
    | StartSend(ds: seq<Datagram>)
    | RefuseSend
    | PutRequest
    | ClearSlot
    | Wait
    | TakeResponse
    | SpuriousWake
    | Relock

  datatype ServerStep =
    | TakeRequest
    | Handle(response: Bytes)
    | StartReply(ds: seq<Datagram>)
    | RefuseReply
    | PutReply
    | EndReply

  datatype NotifierStep = StartNotify(ping: bool, body: Bytes, ds: seq<Datagram>) | PutNotify | EndNotify
  datatype ReceiverStep = TakeReply | LockSlot | Store | Signal(woken: Option<nat>) | UnlockSlot

  datatype Step =
    | Client(t: nat, c: ClientStep)
    | Server(v: ServerStep)
    | Notifier(i: nat, n: NotifierStep)
    | Receiver(r: ReceiverStep)

  predicate InitState(s: State) {
    && (forall t :: 0 <= t < |s.clients| ==> s.clients[t] == Idle)
    && (forall i :: 0 <= i < |s.notifiers| ==> s.notifiers[i] == Quiet)
    && s.outer == None && s.resp == None && s.txLock == None && !s.arrived
    && s.receiver == Receiving && s.server == Serving && s.response == []
    && s.requests == EMPTY && s.replies == EMPTY
    && !s.stored && !s.refused && s.log == [] && s.done == [] && s.notices == [] && s.noticed == []
  }

  // ---------------------------------------------------------------- client threads

  predicate ClientEnabled(cfg: Config, s: State, t: nat, c: ClientStep) {
    t < |s.clients| &&
    var pc := s.clients[t];
    match c
    case Enter(call) =>
      && pc == Idle && s.outer == None && Representable(cfg, call.request)
      && (call.kind == REQUEST || (call.kind == PING && call.request == PING_BODY))
    case StartSend(ds) =>
      pc.Entered? && s.resp == None && FrameOk(cfg.limit, Frame(TypeHeader(pc.call.kind), pc.call.request, ds))
    case RefuseSend =>
      pc.Entered? && s.resp == None && SendRejects(cfg.limit, TypeHeader(pc.call.kind), pc.call.request)
    case PutRequest => pc.Sending? && pc.todo != []
    case ClearSlot => pc.Sending? && pc.todo == []
    case Wait => pc.Testing? && !s.arrived
    case TakeResponse => pc.Testing? && s.arrived
    case SpuriousWake => pc.Blocked?
    case Relock => pc.Woken? && s.resp == None
  }

  /** What a call that finds a response leaves in the caller's buffer. */
  function Response(cfg: Config, s: State, call: Call): Bytes {
    if cfg.asWritten then call.out          // `if (m_isResponseError) return` is taken on success
    else if IsReply(s.slotHeader) then s.slotBody
    else call.out
  }

  function ClientApply(cfg: Config, s: State, t: nat, c: ClientStep): State
    requires ClientEnabled(cfg, s, t, c)
  {
    var pc := s.clients[t];
    match c
    case Enter(call) => s.(clients := s.clients[t := Entered(call)], outer := Some(t))
    case StartSend(ds) =>
      s.(clients := s.clients[t := Sending(pc.call, ds)], resp := Some(ByCaller(t)), stored := false, refused := false,
         requests := Begin(s.requests, Frame(TypeHeader(pc.call.kind), pc.call.request, ds)))
    case RefuseSend => s.(clients := s.clients[t := Idle], outer := None)
    case PutRequest =>
      s.(clients := s.clients[t := Sending(pc.call, pc.todo[1..])], requests := Put(s.requests, pc.todo[0]))
    case ClearSlot =>
      s.(clients := s.clients[t := Testing(pc.call)], arrived := false, slotHeader := [], slotBody := [])
    case Wait => s.(clients := s.clients[t := Blocked(pc.call)], resp := None)
    case TakeResponse =>
      var s' := s.(clients := s.clients[t := Idle], resp := None, outer := None,
                   done := s.done + [Completed(pc.call, Response(cfg, s, pc.call))]);
      if cfg.asWritten then s' else s'.(arrived := false, slotHeader := [], slotBody := [])
    case SpuriousWake => s.(clients := s.clients[t := Woken(pc.call)])
    case Relock => s.(clients := s.clients[t := Testing(pc.call)], resp := Some(ByCaller(t)))
  }

  // ---------------------------------------------------------------- the server's loop

  predicate ServerEnabled(cfg: Config, s: State, v: ServerStep) {
    match v
    case TakeRequest => s.server == Serving && s.requests.queue != []
    case Handle(response) => s.server.GotRequest? && Representable(cfg, s.response + response)
    case StartReply(ds) =>
      s.server.Ready? && s.txLock == None && FrameOk(cfg.limit, Frame(s.server.header, s.response, ds))
    case RefuseReply => s.server.Ready? && s.txLock == None && SendRejects(cfg.limit, s.server.header, s.response)
    case PutReply => s.server.Replying? && s.server.todo != []
    case EndReply => s.server.Replying? && s.server.todo == []
  }

  function ServerApply(cfg: Config, s: State, v: ServerStep): State
    requires ServerEnabled(cfg, s, v)
  {
    match v
    case TakeRequest =>
      (match Feed(cfg.limit, s.requests.rx, s.requests.queue[0])
       case More(_) => s.(requests := Take(cfg.limit, s.requests))
       case Done(header, body) => s.(requests := Take(cfg.limit, s.requests), server := GotRequest(header, body))
       case Failed => s.(requests := Take(cfg.limit, s.requests), server := ServerBroken))
    case Handle(response) =>
      // the handler is given the buffer and adds its response
      if TypeOf(s.server.header) == PING then s.(server := Ready(s.server.header), response := s.response + OK_BODY)
      else s.(server := Ready(s.server.header), response := s.response + response,
              log := s.log + [Handled(s.server.request, response)])
    case StartReply(ds) =>
      s.(server := Replying(ds), txLock := Some(ByServer),
         replies := Begin(s.replies, Frame(s.server.header, s.response, ds)))
    case RefuseReply => s.(server := Serving, response := [], refused := true)
    case PutReply => s.(server := Replying(s.server.todo[1..]), replies := Put(s.replies, s.server.todo[0]))
    case EndReply => s.(server := Serving, response := [], txLock := None)
  }

  // ---------------------------------------------------------------- notifying threads

  function NotifyFrame(ping: bool, body: Bytes, ds: seq<Datagram>): Frame {
    if ping then Frame(TypeHeader(SERVER_PING), PING_BODY, ds) else Frame(TypeHeader(NOTIFY), body, ds)
  }

  predicate NotifierEnabled(cfg: Config, s: State, i: nat, n: NotifierStep) {
    i < |s.notifiers| &&
    match n
    case StartNotify(ping, body, ds) =>
      s.notifiers[i] == Quiet && s.txLock == None && FrameOk(cfg.limit, NotifyFrame(ping, body, ds))
    case PutNotify => s.notifiers[i].Notifying? && s.notifiers[i].todo != []
    case EndNotify => s.notifiers[i].Notifying? && s.notifiers[i].todo == []
  }

  function NotifierApply(cfg: Config, s: State, i: nat, n: NotifierStep): State
    requires NotifierEnabled(cfg, s, i, n)
  {
    match n
    case StartNotify(ping, body, ds) =>
      s.(notifiers := s.notifiers[i := Notifying(ds)], txLock := Some(ByNotifier(i)),
         replies := Begin(s.replies, NotifyFrame(ping, body, ds)),
         notices := if ping then s.notices else s.notices + [body])
    case PutNotify =>
      s.(notifiers := s.notifiers[i := Notifying(s.notifiers[i].todo[1..])],
         replies := Put(s.replies, s.notifiers[i].todo[0]))
    case EndNotify => s.(notifiers := s.notifiers[i := Quiet], txLock := None)
  }

  // ---------------------------------------------------------------- the client's receive thread

  predicate ReceiverEnabled(cfg: Config, s: State, r: ReceiverStep) {
    match r
    case TakeReply => s.receiver == Receiving && s.replies.queue != []
    case LockSlot => s.receiver.GotReply? && s.resp == None
    case Store => s.receiver.Holding?
    case Signal(Some(t)) => s.receiver == Stored && t < |s.clients| && s.clients[t].Blocked?
    case Signal(None) => s.receiver == Stored && forall t :: 0 <= t < |s.clients| ==> !s.clients[t].Blocked?
    case UnlockSlot => s.receiver == Signalled
  }

  function ReceiverApply(cfg: Config, s: State, r: ReceiverStep): State
    requires ReceiverEnabled(cfg, s, r)
  {
    match r
    case TakeReply =>
      var s' := s.(replies := Take(cfg.limit, s.replies));
      (match Feed(cfg.limit, s.replies.rx, s.replies.queue[0])
       case More(_) => s'
       case Failed => s'.(receiver := ReceiverBroken)
       case Done(header, body) =>
         if cfg.asWritten || IsReply(header) then s'.(receiver := GotReply(header, body))
         else if TypeOf(header) == NOTIFY then s'.(noticed := s.noticed + [body])
         else s')
    case LockSlot => s.(receiver := Holding(s.receiver.header, s.receiver.body), resp := Some(ByReceiver))
    case Store =>
      var s' := s.(receiver := Stored, arrived := true, stored := true);
      if cfg.asWritten then s' else s'.(slotHeader := s.receiver.header, slotBody := s.receiver.body)
    case Signal(Some(t)) => s.(receiver := Signalled, clients := s.clients[t := Woken(s.clients[t].call)])
    case Signal(None) => s.(receiver := Signalled)
    case UnlockSlot => s.(receiver := Receiving, resp := None)
  }

  // ---------------------------------------------------------------- runs

  predicate Enabled(cfg: Config, s: State, step: Step) {
    match step
    case Client(t, c) => ClientEnabled(cfg, s, t, c)
    case Server(v) => ServerEnabled(cfg, s, v)
    case Notifier(i, n) => NotifierEnabled(cfg, s, i, n)
    case Receiver(r) => ReceiverEnabled(cfg, s, r)
  }

  function Apply(cfg: Config, s: State, step: Step): State
    requires Enabled(cfg, s, step)
  {
    match step
    case Client(t, c) => ClientApply(cfg, s, t, c)
    case Server(v) => ServerApply(cfg, s, v)
    case Notifier(i, n) => NotifierApply(cfg, s, i, n)
    case Receiver(r) => ReceiverApply(cfg, s, r)
  }

  /** The state a sequence of steps leads to, if each of them is enabled when its turn comes. */
  function Run(cfg: Config, s: State, steps: seq<Step>): Option<State>
    decreases |steps|
  {
    if steps == [] then Some(s)
    else if Enabled(cfg, s, steps[0]) then Run(cfg, Apply(cfg, s, steps[0]), steps[1..])
    else None
  }

  ghost predicate Reachable(cfg: Config, s: State) {
    exists s0, steps :: InitState(s0) && Run(cfg, s0, steps) == Some(s)
  }
}
