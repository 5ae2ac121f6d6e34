/** What can be done: every call, reply and notification within the limits can be sent and arrives, and only one
    that exceeds them is refused. */
module RpcCalls {
  import opened Bytes
  import opened Framing
  import opened Wires
  import opened Rpc
  import opened RpcProofs
  import opened RpcTheorems
  import opened RpcProgress

  // ---------------------------------------------------------------- what Send accepts

  /** Between two exchanges nothing is left over: the receive thread and the response mutex are free. */
  lemma NothingLeft(cfg: Config, s: State)
    requires !cfg.asWritten && Inv(cfg, s) && ActiveCall(s).None?
    ensures s.receiver == Receiving && !s.arrived && s.log == Requests(s.done)
    ensures AnsweredIn(s.replies.open) == [] && AtServer(s.server, s.response) == [] && AskedIn(s.requests.open) == []
  {
    hide WireInv, Sized, Notified, PingsAnswered, OuterLock, SendLock, AskedIn, AnsweredIn, Requests;
  }

  lemma InsideIsActive(s: State, u: nat)
    requires OuterLock(s) && SlotLock(s) && s.resp == Some(ByCaller(u))
    ensures ActiveCall(s).Some?
  {
  }

  lemma EnteredFree(cfg: Config, s: State, t: nat)
    requires !cfg.asWritten && Inv(cfg, s) && t < |s.clients| && s.clients[t].Entered?
    ensures ActiveCall(s).None? && s.resp == None
  {
    hide WireInv, Sized, Notified, PingsAnswered, SendLock, Exchange, NoLostWakeup;
    assert s.outer == Some(t);
    NothingLeft(cfg, s);
    match s.resp
    case Some(ByCaller(u)) => InsideIsActive(s, u);
    case _ =>
  }

  /** A frame of the library's own 4-byte header can be sent if and only if its body is within the limits. */
  lemma ShortFrameOk(cfg: Config, kind: nat, body: Bytes, ds: seq<Datagram>)
    ensures FrameOk(cfg.limit, Frame(TypeHeader(kind), body, ds))
            <==> IsFrame(TypeHeader(kind), body, ds) && Within(cfg, body)
    ensures SendRejects(cfg.limit, TypeHeader(kind), body) <==> 0 < cfg.limit < |body|
  {
    hide IsFrame;
  }

  /** A call that has entered is refused if and only if its request exceeds the limit, without a trace; and it can be
      sent, cut in any way, if and only if it does not. */
  lemma RequestChoices(cfg: Config, s: State, t: nat)
    requires !cfg.asWritten && Reachable(cfg, s) && t < |s.clients| && s.clients[t].Entered?
    ensures var call := s.clients[t].call;
            && (ClientEnabled(cfg, s, t, RefuseSend) <==> 0 < cfg.limit < |call.request|)
            && (forall ds :: ClientEnabled(cfg, s, t, StartSend(ds)) <==>
                               IsFrame(TypeHeader(call.kind), call.request, ds) && Within(cfg, call.request))
    ensures ClientEnabled(cfg, s, t, RefuseSend) ==>
              ClientApply(cfg, s, t, RefuseSend) == s.(clients := s.clients[t := Idle], outer := None)
  {
    hide Reachable, Inv, FrameOk, SendRejects, IsFrame, Within, ActiveCall;
    ReachableInv(cfg, s);
    EnteredFree(cfg, s, t);
    var call := s.clients[t].call;
    forall ds {
      ShortFrameOk(cfg, call.kind, call.request, ds);
    }
    ShortFrameOk(cfg, call.kind, call.request, []);
  }

  /** The server answers under the header of the request. */
  lemma ReplyHeader(cfg: Config, s: State) returns (kind: nat)
    requires !cfg.asWritten && Inv(cfg, s) && s.server.Ready?
    ensures s.server.header == TypeHeader(kind)
  {
    hide AskedIn, AnsweredIn, Requests, EncodeInt, Integrity, Sized, Notified, PingsAnswered, NoLostWakeup, Refusals;
    kind := ActiveCall(s).value.kind;
  }

  /** A response is refused if and only if it exceeds the limit, and can be sent if and only if it does not. */
  lemma ReplyChoices(cfg: Config, s: State)
    requires !cfg.asWritten && Reachable(cfg, s) && s.server.Ready? && s.txLock == None
    ensures ServerEnabled(cfg, s, RefuseReply) <==> 0 < cfg.limit < |s.response|
    ensures forall ds :: ServerEnabled(cfg, s, StartReply(ds)) <==>
                           IsFrame(s.server.header, s.response, ds) && Within(cfg, s.response)
  {
    hide Reachable, Inv, FrameOk, SendRejects, IsFrame, Within, EncodeInt;
    ReachableInv(cfg, s);
    var kind := ReplyHeader(cfg, s);
    forall ds {
      ShortFrameOk(cfg, kind, s.response, ds);
    }
    ShortFrameOk(cfg, kind, s.response, []);
  }

  /** A notification or a server ping can be sent, cut in any way, if and only if it is within the limits. */
  lemma NoticeChoices(cfg: Config, s: State, i: nat, ping: bool, body: Bytes)
    requires i < |s.notifiers| && s.notifiers[i] == Quiet && s.txLock == None
    ensures var (header, b) := if ping then (TypeHeader(SERVER_PING), PING_BODY) else (TypeHeader(NOTIFY), body);
            forall ds :: NotifierEnabled(cfg, s, i, StartNotify(ping, body, ds)) <==>
                           IsFrame(header, b, ds) && Within(cfg, b)
  {
    hide FrameOk, IsFrame, Within;
    var kind, b := if ping then SERVER_PING else NOTIFY, if ping then PING_BODY else body;
    forall ds {
      ShortFrameOk(cfg, kind, b, ds);
    }
  }

  // ---------------------------------------------------------------- a whole call

  lemma RunNothing(cfg: Config, s: State)
    ensures Run(cfg, s, []) == Some(s)
  {
  }

  /** A call that is being sent can be sent to the end and wait. */
  lemma {:induction false} SendsAll(cfg: Config, s: State, t: nat) returns (steps: seq<Step>)
    requires t < |s.clients| && s.clients[t].Sending?
    ensures Run(cfg, s, steps).Some?
    ensures var f := Run(cfg, s, steps).value;
            && f.log == s.log && f.done == s.done
            && |f.clients| == |s.clients| && f.clients[t] == Blocked(s.clients[t].call)
    decreases |s.clients[t].todo|
  {
    hide Run;
    if s.clients[t].todo == [] {
      var s1 := Apply(cfg, s, Client(t, ClearSlot));
      var s2 := Apply(cfg, s1, Client(t, Wait));
      RunNothing(cfg, s2);
      RunCons(cfg, s1, Client(t, Wait), []);
      RunCons(cfg, s, Client(t, ClearSlot), [Client(t, Wait)] + []);
      steps := [Client(t, ClearSlot)] + ([Client(t, Wait)] + []);
    } else {
      var s1 := Apply(cfg, s, Client(t, PutRequest));
      var rest := SendsAll(cfg, s1, t);
      RunCons(cfg, s, Client(t, PutRequest), rest);
      steps := [Client(t, PutRequest)] + rest;
    }
  }

  lemma {:induction false} RunAppend(cfg: Config, s: State, first: seq<Step>, second: seq<Step>)
    requires Run(cfg, s, first).Some?
    ensures Run(cfg, s, first + second) == Run(cfg, Run(cfg, s, first).value, second)
    decreases |first|
  {
    hide Enabled, Apply;
    if first == [] {
      assert first + second == second;
    } else {
      assert (first + second)[1..] == first[1..] + second;
      RunAppend(cfg, Apply(cfg, s, first[0]), first[1..], second);
    }
  }

  /** What a call returns whose request the handler answers with `r`. */
  function Answer(call: Call, r: Bytes): Bytes {
    if call.kind == PING then OK_BODY else r
  }

  lemma FreshAnswer(cfg: Config, s: State, call: Call, r: Bytes)
    requires s.log == Requests(s.done)
    ensures !Doomed(cfg, s) && AnswerTo(s, call, r) == Answer(call, r)
  {
  }

  /** Every call that has entered and every response within the limits: the run can go on so that the call completes
      with exactly this response. */
  lemma EnteredCompletes(cfg: Config, s: State, t: nat, r: Bytes) returns (steps: seq<Step>)
    requires !cfg.asWritten && Reachable(cfg, s) && t < |s.clients| && s.clients[t].Entered?
    requires Within(cfg, s.clients[t].call.request) && Within(cfg, r)
    ensures Run(cfg, s, steps).Some?
    ensures Run(cfg, s, steps).value.done == s.done + [Completed(s.clients[t].call, Answer(s.clients[t].call, r))]
  {
    var call := s.clients[t].call;
    var ds := WholeFrame(TypeHeader(call.kind), call.request);
    RequestChoices(cfg, s, t);
    ReachableInv(cfg, s);
    EnteredFree(cfg, s, t);
    NothingLeft(cfg, s);
    var start := Client(t, StartSend(ds));
    var s1 := Apply(cfg, s, start);
    assert s1.clients[t] == Sending(call, ds) && s1.log == s.log && s1.done == s.done;
    hide Reachable, Inv, Within, ClientApply, ClientEnabled, Doomed, AnswerTo, Run, WholeFrame, Requests;
    Reach(cfg, s, start);
    var sending := SendsAll(cfg, s1, t);
    var s2 := Run(cfg, s1, sending).value;
    ReachRun(cfg, s1, sending);
    FreshAnswer(cfg, s2, call, r);
    var rest := Returns(cfg, s2, t, r);
    RunAppend(cfg, s1, sending, rest);
    RunCons(cfg, s, start, sending + rest);
    steps := [start] + (sending + rest);
  }

  lemma AllIdle(cfg: Config, s: State, t: nat)
    requires Inv(cfg, s) && s.outer == None && t < |s.clients|
    ensures s.clients[t] == Idle
  {
    hide WireInv, SlotLock, SendLock, Exchange, Sized, Notified, PingsAnswered, NoLostWakeup;
  }

  /** The same for a call that has not been made yet: while no other call is under way, any thread can make it. */
  lemma CallCompletes(cfg: Config, s: State, t: nat, call: Call, r: Bytes) returns (steps: seq<Step>)
    requires !cfg.asWritten && Reachable(cfg, s) && t < |s.clients| && s.outer == None
    requires IsCall(call) && Within(cfg, call.request) && Within(cfg, r)
    ensures Run(cfg, s, steps).Some? && Run(cfg, s, steps).value.done == s.done + [Completed(call, Answer(call, r))]
  {
    hide Reachable, Inv, Run;
    ReachableInv(cfg, s);
    AllIdle(cfg, s, t);
    var enter := Client(t, Enter(call));
    Reach(cfg, s, enter);
    var s1 := Apply(cfg, s, enter);
    var rest := EnteredCompletes(cfg, s1, t, r);
    RunCons(cfg, s, enter, rest);
    steps := [enter] + rest;
  }

  // ---------------------------------------------------------------- waiting

  /** A wake-up for which there is no reason leads back into the wait, and changes nothing. */
  lemma SpuriousWakeReturns(cfg: Config, s: State, t: nat)
    requires t < |s.clients| && s.clients[t].Blocked? && s.resp == None && !s.arrived
    ensures Run(cfg, s, [Client(t, SpuriousWake), Client(t, Relock), Client(t, Wait)]) == Some(s)
  {
    hide Run;
    var s1 := Apply(cfg, s, Client(t, SpuriousWake));
    var s2 := Apply(cfg, s1, Client(t, Relock));
    var s3 := Apply(cfg, s2, Client(t, Wait));
    assert s3.clients == s.clients;
    RunNothing(cfg, s3);
    RunCons(cfg, s2, Client(t, Wait), []);
    RunCons(cfg, s1, Client(t, Relock), [Client(t, Wait)] + []);
    RunCons(cfg, s, Client(t, SpuriousWake), [Client(t, Relock)] + ([Client(t, Wait)] + []));
    assert [Client(t, SpuriousWake)] + ([Client(t, Relock)] + ([Client(t, Wait)] + []))
           == [Client(t, SpuriousWake), Client(t, Relock), Client(t, Wait)];
  }

  // ---------------------------------------------------------------- a whole notification

  lemma ServerNotices(cfg: Config, s: State, v: ServerStep)
    requires ServerEnabled(cfg, s, v)
    ensures ServerApply(cfg, s, v).notices == s.notices
  {
    hide Feed, Take, FrameOk, SendRejects, TypeOf, EncodeInt;
  }

  lemma NotifierNotices(cfg: Config, s: State, i: nat, n: NotifierStep)
    requires NotifierEnabled(cfg, s, i, n) && !n.StartNotify?
    ensures NotifierApply(cfg, s, i, n).notices == s.notices
  {
    hide FrameOk, TypeOf, EncodeInt;
  }

  lemma ReceiverNotices(cfg: Config, s: State, r: ReceiverStep)
    requires ReceiverEnabled(cfg, s, r)
    ensures ReceiverApply(cfg, s, r).notices == s.notices
  {
    if r.TakeReply? { TakeReplyEffect(cfg, s); } else { SlotOnly(cfg, s, r); }
  }

  lemma DrivesKeep(cfg: Config, s: State, step: Step)
    requires Enabled(cfg, s, step) && Drives(step)
    ensures Apply(cfg, s, step).notices == s.notices && Apply(cfg, s, step).outer == s.outer
  {
    hide ServerApply, ServerEnabled, NotifierApply, NotifierEnabled, ReceiverApply, ReceiverEnabled;
    match step
    case Server(v) => ServerNotices(cfg, s, v); ServerTrail(cfg, s, v);
    case Notifier(i, n) => NotifierNotices(cfg, s, i, n); NotifierTrail(cfg, s, i, n);
    case Receiver(r) => ReceiverNotices(cfg, s, r); ReceiverTrail(cfg, s, r);
  }

  /** While no call is under way, frames in the reply channel can always be brought nearer to the receiver. */
  lemma NoticeStep(cfg: Config, s: State) returns (step: Step)
    requires !cfg.asWritten && Inv(cfg, s) && s.outer == None && s.replies.open != []
    ensures Enabled(cfg, s, step) && Drives(step)
  {
    hide WireInv, Exchange, Sized, Notified, PingsAnswered, NoLostWakeup, OuterLock, SlotLock;
    NothingLeft(cfg, s);
    if s.replies.queue != [] {
      step := Receiver(TakeReply);
    } else if s.txLock.Some? {
      step := SenderDrives(cfg, s, []);
    } else {
      Queued(cfg.limit, s.replies);
      assert false;
    }
  }

  lemma {:induction false} NoticesArrive(cfg: Config, s: State) returns (steps: seq<Step>)
    requires !cfg.asWritten && Reachable(cfg, s) && s.outer == None
    ensures Run(cfg, s, steps).Some? && Run(cfg, s, steps).value.noticed == s.notices
    decreases Unanswered(s), Pending(s)
  {
    ReachableInv(cfg, s);
    hide Reachable, Enabled, Apply, Unanswered, Pending, Drives, Integrity, Exchange, NoLostWakeup, Sized;
    if s.replies.open == [] {
      NotificationsInOrder(cfg, s);
      steps := [];
      RunNothing(cfg, s);
    } else {
      var step := NoticeStep(cfg, s);
      DriveFalls(cfg, s, step);
      DrivesKeep(cfg, s, step);
      Reach(cfg, s, step);
      var rest := NoticesArrive(cfg, Apply(cfg, s, step));
      RunCons(cfg, s, step, rest);
      steps := [step] + rest;
    }
  }

  /** Every notification within the limits that a thread begins while the send lock is free can arrive, after all
      earlier ones. */
  lemma NoticeIsDelivered(cfg: Config, s: State, i: nat, body: Bytes) returns (steps: seq<Step>)
    requires !cfg.asWritten && Reachable(cfg, s) && s.outer == None && s.txLock == None
    requires i < |s.notifiers| && s.notifiers[i] == Quiet && Within(cfg, body)
    ensures Run(cfg, s, steps).Some? && Run(cfg, s, steps).value.noticed == s.notices + [body]
  {
    var ds := WholeFrame(TypeHeader(NOTIFY), body);
    NoticeChoices(cfg, s, i, false, body);
    var start := Notifier(i, StartNotify(false, body, ds));
    var s1 := Apply(cfg, s, start);
    assert s1.notices == s.notices + [body] && s1.outer == None;
    hide Reachable, Within, NotifierApply, NotifierEnabled, Run, WholeFrame;
    Reach(cfg, s, start);
    var rest := NoticesArrive(cfg, s1);
    RunCons(cfg, s, start, rest);
    steps := [start] + rest;
  }
}
