/** What holds in every reachable state of the protocol. */
module RpcTheorems {
  import opened Bytes
  import opened Framing
  import opened Wires
  import opened Rpc
  import opened RpcProofs

  /** The bodies of the notifications in a stretch of frames. */
  ghost function NoticesIn(open: seq<Frame>): seq<Bytes> {
    if open == [] then []
    else (if TypeOf(open[0].header) == NOTIFY then [open[0].body] else []) + NoticesIn(open[1..])
  }

  /** Every notification is delivered once and in order, or is still in the reply channel. */
  ghost predicate Notified(s: State) {
    s.notices == s.noticed + NoticesIn(s.replies.open)
  }

  ghost predicate PingsAnswered(s: State) {
    forall i :: 0 <= i < |s.done| && s.done[i].call.kind == PING ==> s.done[i].response == OK_BODY
  }

  /** No completed call has changed its caller's response buffer. */
  ghost predicate Untouched(s: State) {
    forall i :: 0 <= i < |s.done| ==> s.done[i].response == s.done[i].call.out
  }

  /** A body that Send lets through. */
  ghost predicate Within(cfg: Config, body: Bytes) {
    |body| < POW32 && (cfg.limit == 0 || |body| <= cfg.limit)
  }

  /** Requests under way, responses received and completed calls are within the limits of Send. */
  ghost predicate Sized(cfg: Config, s: State) {
    && (forall t :: 0 <= t < |s.clients| && !s.clients[t].Idle? && !s.clients[t].Entered? ==>
          Within(cfg, s.clients[t].call.request))
    && (s.receiver.GotReply? || s.receiver.Holding? ==> Within(cfg, s.receiver.body))
    && (s.arrived ==> Within(cfg, s.slotBody))
    && (forall i :: 0 <= i < |s.done| ==> Within(cfg, s.done[i].call.request) && Within(cfg, s.done[i].response))
  }

  /** The handler has answered the request under way with more than Send's limit allows. */
  ghost predicate Doomed(cfg: Config, s: State) {
    |s.log| > |Requests(s.done)| && 0 < cfg.limit < |s.log[|s.log| - 1].response|
  }

  /** Send refuses a reply for this reason and no other. */
  ghost predicate Refusals(cfg: Config, s: State) {
    s.refused && ActiveCall(s).Some? ==> Doomed(cfg, s)
  }

  ghost predicate Inv(cfg: Config, s: State) {
    && Integrity(cfg, s)
    && NoLostWakeup(s)
    && if cfg.asWritten then Untouched(s)
       else Exchange(s) && PingsAnswered(s) && Notified(s) && Sized(cfg, s) && Refusals(cfg, s)
  }

  lemma {:induction false} NoticesSnoc(open: seq<Frame>, f: Frame)
    ensures NoticesIn(open + [f]) == NoticesIn(open) + if TypeOf(f.header) == NOTIFY then [f.body] else []
  {
    hide TypeOf;
    if open == [] {
      assert (open + [f])[1..] == [];
    } else {
      assert (open + [f])[1..] == open[1..] + [f];
      NoticesSnoc(open[1..], f);
    }
  }

  lemma InitInv(cfg: Config, s: State)
    requires InitState(s)
    ensures Inv(cfg, s)
  {
  }

  lemma ClientDone(cfg: Config, s: State, t: nat, c: ClientStep)
    requires Inv(cfg, s) && ClientEnabled(cfg, s, t, c)
    ensures var s' := ClientApply(cfg, s, t, c);
            if cfg.asWritten then Untouched(s') else PingsAnswered(s') && Notified(s')
  {
    hide FrameOk, Acceptable, NoLostWakeup, WireInv, EncodeInt, TypeOf, Requests;
    if c.TakeResponse? && !cfg.asWritten { HeaderType(s.clients[t].call.kind); }
  }

  lemma ClientSized(cfg: Config, s: State, t: nat, c: ClientStep)
    requires !cfg.asWritten && Inv(cfg, s) && ClientEnabled(cfg, s, t, c)
    ensures Sized(cfg, ClientApply(cfg, s, t, c))
  {
    hide NoLostWakeup, WireInv, EncodeInt, TypeOf, Requests, Notified, PingsAnswered, SendLock, AskedIn, AnsweredIn,
      IsChunking;
    if c.TakeResponse? { HeaderType(s.clients[t].call.kind); }
  }

  lemma OldestSized(cfg: Config, s: State)
    requires Integrity(cfg, s)
    ensures s.replies.open != [] ==> Within(cfg, s.replies.open[0].body)
  {
  }

  lemma TakeReplySized(cfg: Config, s: State)
    requires !cfg.asWritten && Integrity(cfg, s) && Sized(cfg, s) && ReceiverEnabled(cfg, s, TakeReply)
    ensures Sized(cfg, ReceiverApply(cfg, s, TakeReply))
  {
    OldestSized(cfg, s);
    hide Integrity, ReceiverApply, ReceiverEnabled, TypeOf, IsReply;
    TakeReplyCases(cfg, s);
  }

  lemma SlotSized(cfg: Config, s: State, r: ReceiverStep)
    requires !cfg.asWritten && Sized(cfg, s) && ReceiverEnabled(cfg, s, r) && !r.TakeReply?
    ensures Sized(cfg, ReceiverApply(cfg, s, r))
  {
    hide Feed, Take, TypeOf;
  }

  lemma ServerDone(cfg: Config, s: State, v: ServerStep)
    requires !cfg.asWritten && Inv(cfg, s) && ServerEnabled(cfg, s, v)
    ensures Notified(ServerApply(cfg, s, v))
  {
    hide FrameOk, Acceptable, NoLostWakeup, WireInv, EncodeInt, TypeOf, Requests, Take, Feed, NoticesIn, Locks, AskedIn,
      AnsweredIn, AtReceiver, InSlot, Sized, PingsAnswered;
    if v.StartReply? {
      SameCalls(s, s);
      HeaderType(REQUEST);
      HeaderType(PING);
      NoticesSnoc(s.replies.open, Frame(s.server.header, s.response, v.ds));
    }
  }

  lemma NotifierDone(cfg: Config, s: State, i: nat, n: NotifierStep)
    requires Notified(s) && NotifierEnabled(cfg, s, i, n)
    ensures Notified(NotifierApply(cfg, s, i, n))
  {
    hide FrameOk, EncodeInt, TypeOf, NoticesIn;
    HeaderType(NOTIFY);
    HeaderType(SERVER_PING);
    if n.StartNotify? { NoticesSnoc(s.replies.open, NotifyFrame(n.ping, n.body, n.ds)); }
  }

  lemma TakeReplyDone(cfg: Config, s: State)
    requires !cfg.asWritten && Integrity(cfg, s) && Notified(s) && ReceiverEnabled(cfg, s, TakeReply)
    ensures Notified(ReceiverApply(cfg, s, TakeReply))
  {
    hide Integrity, ReceiverApply, ReceiverEnabled, TypeOf;
    TakeReplyCases(cfg, s);
    var s' := ReceiverApply(cfg, s, TakeReply);
    if s'.replies.open != s.replies.open {
      var f := s.replies.open[0];
      assert IsReply(f.header) ==> TypeOf(f.header) != NOTIFY;
    }
  }

  /** What the invariants of callers, slot and completed calls depend on. */
  ghost predicate SameNearSide(s: State, s': State) {
    && s'.clients == s.clients && s'.arrived == s.arrived && s'.stored == s.stored && s'.receiver == s.receiver
    && s'.slotBody == s.slotBody && s'.done == s.done
  }

  lemma ServerFar(cfg: Config, s: State, v: ServerStep)
    requires ServerEnabled(cfg, s, v)
    ensures SameNearSide(s, ServerApply(cfg, s, v))
  {
    hide Feed, Take, FrameOk, Acceptable, TypeOf, EncodeInt;
  }

  lemma NotifierFar(cfg: Config, s: State, i: nat, n: NotifierStep)
    requires NotifierEnabled(cfg, s, i, n)
    ensures SameNearSide(s, NotifierApply(cfg, s, i, n))
  {
    hide FrameOk, TypeOf, EncodeInt;
  }

  lemma FarSideKeeps(cfg: Config, s: State, s': State)
    requires SameNearSide(s, s')
    ensures NoLostWakeup(s) ==> NoLostWakeup(s')
    ensures Untouched(s) ==> Untouched(s')
    ensures PingsAnswered(s) ==> PingsAnswered(s')
    ensures Sized(cfg, s) ==> Sized(cfg, s')
  {
  }

  lemma SameNotified(s: State, s': State)
    requires Notified(s) && s'.replies == s.replies && s'.notices == s.notices && s'.noticed == s.noticed
    ensures Notified(s')
  {
  }

  lemma LocksOf(cfg: Config, s: State)
    requires Integrity(cfg, s)
    ensures Locks(s)
  {
  }

  lemma SameDone(s: State, s': State)
    requires s'.done == s.done
    ensures Untouched(s) ==> Untouched(s')
    ensures PingsAnswered(s) ==> PingsAnswered(s')
  {
  }

  // What each thread's steps do to the history.

  lemma ClientTrail(cfg: Config, s: State, t: nat, c: ClientStep)
    requires ClientEnabled(cfg, s, t, c)
    ensures var s' := ClientApply(cfg, s, t, c);
            && s'.log == s.log && (!c.TakeResponse? ==> s'.done == s.done)
            && s'.refused == (s.refused && !c.StartSend?)
  {
    hide FrameOk, SendRejects, TypeOf, EncodeInt, Begin, Put;
  }

  lemma ServerTrail(cfg: Config, s: State, v: ServerStep)
    requires ServerEnabled(cfg, s, v)
    ensures var s' := ServerApply(cfg, s, v);
            && (!v.Handle? ==> s'.log == s.log) && s'.done == s.done
            && s'.refused == (s.refused || v.RefuseReply?)
            && s'.clients == s.clients && s'.outer == s.outer
  {
    hide Feed, Take, FrameOk, SendRejects, TypeOf, EncodeInt, Begin, Put;
  }

  lemma NotifierTrail(cfg: Config, s: State, i: nat, n: NotifierStep)
    requires NotifierEnabled(cfg, s, i, n)
    ensures var s' := NotifierApply(cfg, s, i, n);
            && s'.log == s.log && s'.done == s.done && s'.refused == s.refused
            && s'.clients == s.clients && s'.outer == s.outer
  {
    hide FrameOk, TypeOf, EncodeInt, Begin, Put;
  }

  lemma ReceiverTrail(cfg: Config, s: State, r: ReceiverStep)
    requires ReceiverEnabled(cfg, s, r)
    ensures var s' := ReceiverApply(cfg, s, r);
            && s'.log == s.log && s'.done == s.done && s'.refused == s.refused && s'.outer == s.outer
            && |s'.clients| == |s.clients|
            && forall t :: 0 <= t < |s.clients| ==>
                 if r == Signal(Some(t)) then s.clients[t].Blocked? && s'.clients[t] == Woken(s.clients[t].call)
                 else s'.clients[t] == s.clients[t]
  {
    hide Feed, Take, TypeOf;
  }

  lemma LogAndDone(cfg: Config, s: State, step: Step)
    requires Enabled(cfg, s, step)
    ensures var s' := Apply(cfg, s, step);
            && (!(step.Client? && step.c.TakeResponse?) ==> s'.done == s.done)
            && (!(step.Server? && step.v.Handle?) ==> s'.log == s.log)
            && (s'.refused ==> s.refused || step == Server(RefuseReply))
  {
    hide ClientApply, ClientEnabled, ServerApply, ServerEnabled, NotifierApply, NotifierEnabled, ReceiverApply,
      ReceiverEnabled;
    match step
    case Client(t, c) => ClientTrail(cfg, s, t, c);
    case Server(v) => ServerTrail(cfg, s, v);
    case Notifier(i, n) => NotifierTrail(cfg, s, i, n);
    case Receiver(r) => ReceiverTrail(cfg, s, r);
  }

  /** A response in the slot has passed the limit, so it is not the one that is too big. */
  lemma TakenNotDoomed(cfg: Config, s: State, t: nat)
    requires !cfg.asWritten && OuterLock(s) && Exchange(s) && Sized(cfg, s)
    requires ClientEnabled(cfg, s, t, TakeResponse)
    ensures !Doomed(cfg, s)
  {
    hide AskedIn, AnsweredIn, Requests;
  }

  /** The handler is called once for a request. */
  lemma HandledNotDoomed(cfg: Config, s: State, response: Bytes)
    requires Exchange(s) && ServerEnabled(cfg, s, Handle(response))
    ensures !Doomed(cfg, s)
  {
    hide AskedIn, AnsweredIn, Requests;
  }

  /** Once the handler has answered with too much, nothing changes that, and no call completes. */
  lemma DoomedStays(cfg: Config, s: State, step: Step)
    requires !cfg.asWritten && Integrity(cfg, s) && Exchange(s) && Sized(cfg, s)
    requires Enabled(cfg, s, step) && Doomed(cfg, s)
    ensures Apply(cfg, s, step).done == s.done && Doomed(cfg, Apply(cfg, s, step))
  {
    hide Exchange, Sized, WireInv, Apply, Requests, FrameOk, SendRejects;
    LogAndDone(cfg, s, step);
    if step.Client? && step.c.TakeResponse? {
      TakenNotDoomed(cfg, s, step.t);
    } else if step.Server? && step.v.Handle? {
      HandledNotDoomed(cfg, s, step.v.response);
    }
  }

  /** The server's Send refuses only what the handler made too big; a ping's answer is never refused, because its
      request is longer. */
  lemma RefuseDoomed(cfg: Config, s: State)
    requires OuterLock(s) && Exchange(s) && Sized(cfg, s) && ServerEnabled(cfg, s, RefuseReply)
    ensures Doomed(cfg, s)
  {
    hide AskedIn, AnsweredIn, Requests, EncodeInt;
  }

  /** Only the start of a Send makes a call active, and it resets the flag. */
  lemma ClientActive(cfg: Config, s: State, t: nat, c: ClientStep)
    requires OuterLock(s) && ClientEnabled(cfg, s, t, c)
    ensures var s' := ClientApply(cfg, s, t, c); s'.refused && ActiveCall(s').Some? ==> ActiveCall(s).Some?
  {
    hide FrameOk, SendRejects, TypeOf, EncodeInt, Begin, Put;
  }

  lemma RefusedEffect(cfg: Config, s: State, step: Step)
    requires Integrity(cfg, s) && Enabled(cfg, s, step)
    ensures var s' := Apply(cfg, s, step); s'.refused && ActiveCall(s').Some? ==> ActiveCall(s).Some?
  {
    hide WireInv, SlotLock, SendLock, RequestTodo, ReplyTodo, ClientApply, ClientEnabled, ServerApply, ServerEnabled,
      NotifierApply, NotifierEnabled, ReceiverApply, ReceiverEnabled;
    match step
    case Client(t, c) => ClientActive(cfg, s, t, c);
    case Server(v) => ServerTrail(cfg, s, v);
    case Notifier(i, n) => NotifierTrail(cfg, s, i, n);
    case Receiver(r) => ReceiverTrail(cfg, s, r);
  }

  lemma EnabledRefusal(cfg: Config, s: State)
    requires Enabled(cfg, s, Server(RefuseReply))
    ensures ServerEnabled(cfg, s, RefuseReply)
  {
  }

  lemma RefusalsStep(cfg: Config, s: State, step: Step)
    requires !cfg.asWritten && Inv(cfg, s) && Enabled(cfg, s, step)
    ensures Refusals(cfg, Apply(cfg, s, step))
  {
    hide Exchange, Sized, WireInv, Apply, Enabled, Doomed, ActiveCall, OuterLock, SlotLock, SendLock, NoLostWakeup;
    RefusedEffect(cfg, s, step);
    LogAndDone(cfg, s, step);
    if step == Server(RefuseReply) {
      assert ServerEnabled(cfg, s, RefuseReply) by { EnabledRefusal(cfg, s); }
      RefuseDoomed(cfg, s);
    }
    if Doomed(cfg, s) { DoomedStays(cfg, s, step); }
  }

  lemma StepInv(cfg: Config, s: State, step: Step)
    requires Inv(cfg, s) && Enabled(cfg, s, step)
    ensures Inv(cfg, Apply(cfg, s, step))
  {
    hide Integrity, Locks, Exchange, Notified, NoLostWakeup, Untouched, PingsAnswered, Sized, ClientApply,
      ClientEnabled, ServerApply, ServerEnabled, NotifierApply, NotifierEnabled, ReceiverApply, ReceiverEnabled;
    hide Refusals;
    assert Locks(s) by { LocksOf(cfg, s); }
    if !cfg.asWritten { RefusalsStep(cfg, s, step); }
    match step
    case Client(t, c) =>
      ClientDone(cfg, s, t, c);
      ClientIntegrity(cfg, s, t, c);
      ClientWakeup(cfg, s, t, c);
      if !cfg.asWritten { ClientExchange(s, cfg, t, c); ClientSized(cfg, s, t, c); }
    case Server(v) =>
      ServerFar(cfg, s, v);
      FarSideKeeps(cfg, s, Apply(cfg, s, step));
      ServerIntegrity(cfg, s, v);
      if !cfg.asWritten { ServerExchange(s, cfg, v); ServerDone(cfg, s, v); }
    case Notifier(i, n) =>
      NotifierFar(cfg, s, i, n);
      FarSideKeeps(cfg, s, Apply(cfg, s, step));
      NotifierIntegrity(cfg, s, i, n);
      if !cfg.asWritten { NotifierExchange(s, cfg, i, n); NotifierDone(cfg, s, i, n); }
    case Receiver(r) =>
      ReceiverTrail(cfg, s, r);
      SameDone(s, Apply(cfg, s, step));
      ReceiverIntegrity(cfg, s, r);
      ReceiverWakeup(cfg, s, r);
      if !cfg.asWritten {
        ReceiverExchange(s, cfg, r);
        if r.TakeReply? {
          TakeReplyDone(cfg, s);
          TakeReplySized(cfg, s);
        } else {
          SlotOnly(cfg, s, r);
          SlotSized(cfg, s, r);
          assert Notified(Apply(cfg, s, step)) by { SameNotified(s, Apply(cfg, s, step)); }
        }
      }
  }

  lemma {:induction false} RunInv(cfg: Config, s: State, steps: seq<Step>)
    requires Inv(cfg, s)
    ensures var r := Run(cfg, s, steps); r.Some? ==> Inv(cfg, r.value)
    decreases |steps|
  {
    hide Inv, Enabled, Apply;
    if steps != [] && Enabled(cfg, s, steps[0]) {
      StepInv(cfg, s, steps[0]);
      RunInv(cfg, Apply(cfg, s, steps[0]), steps[1..]);
    }
  }

  lemma ReachableInv(cfg: Config, s: State)
    requires Reachable(cfg, s)
    ensures Inv(cfg, s)
  {
    var s0, steps :| InitState(s0) && Run(cfg, s0, steps) == Some(s);
    InitInv(cfg, s0);
    RunInv(cfg, s0, steps);
  }

  // ---------------------------------------------------------------- the theorems

  /** In both directions the frames begun never interleave: what the receiver already has of the oldest one,
      what is queued and what the lock's holder has still to send are exactly those frames, in order, and no
      Receive call ever fails. */
  lemma FrameIntegrity(cfg: Config, s: State)
    requires Reachable(cfg, s)
    ensures WireInv(cfg.limit, s.requests, RequestTodo(s)) && WireInv(cfg.limit, s.replies, ReplyTodo(s))
    ensures forall i, j :: 0 <= i < j < |s.notifiers| ==> !(s.notifiers[i].Notifying? && s.notifiers[j].Notifying?)
    ensures forall i :: 0 <= i < |s.notifiers| ==> !(s.notifiers[i].Notifying? && s.server.Replying?)
    ensures forall t, u :: 0 <= t < u < |s.clients| ==> !(s.clients[t].Sending? && s.clients[u].Sending?)
    ensures !s.server.ServerBroken? && !s.receiver.ReceiverBroken?
  {
    ReachableInv(cfg, s);
  }

  lemma StillUnderWay(cfg: Config, s: State, t: nat)
    requires Integrity(cfg, s) && Exchange(s) && t < |s.clients| && s.clients[t].Blocked?
    ensures Exchanges(s) == 1 <==> !s.refused
  {
    hide AskedIn, AnsweredIn, Requests;
  }

  /** A blocked caller is about to be signalled as soon as anything has arrived, or has been stored at any time
      since its Send began; and its exchange is still under way if and only if Send has not refused its reply. */
  lemma NoWakeupIsLost(cfg: Config, s: State, t: nat)
    requires Reachable(cfg, s) && t < |s.clients| && s.clients[t].Blocked?
    ensures s.arrived <==> s.stored
    ensures s.arrived ==> s.receiver == Stored
    ensures !cfg.asWritten ==> (Exchanges(s) == 1 <==> !s.refused)
  {
    hide Reachable, Integrity, Exchange, Exchanges, PingsAnswered, Notified, Sized, Untouched;
    ReachableInv(cfg, s);
    if !cfg.asWritten { StillUnderWay(cfg, s, t); }
  }

  /** A call takes a response only if one has been stored since its Send began: what an earlier call left behind is
      never taken for it, whatever the guard. */
  lemma NothingStaleIsTaken(cfg: Config, s: State, t: nat)
    requires Reachable(cfg, s) && ClientEnabled(cfg, s, t, TakeResponse)
    ensures s.stored
  {
    ReachableInv(cfg, s);
  }

  /** The handler calls of the first `i` completed calls are the first ones of all completed calls. */
  lemma {:induction false} RequestsAt(done: seq<Completed>, i: nat)
    requires i < |done| && done[i].call.kind == REQUEST
    ensures |Requests(done[..i])| < |Requests(done)|
    ensures Requests(done)[|Requests(done[..i])|] == Handled(done[i].call.request, done[i].response)
    decreases |done|
  {
    var front := done[..|done| - 1];
    if i < |done| - 1 {
      RequestsAt(front, i);
      assert front[..i] == done[..i];
    }
  }

  /** Every completed request got the handler's response to that very request, and every ping got the ping
      answer: the completed requests, in the order of completion, account one by one for the handler calls,
      in the order the handler was called, with at most the last handler call not yet returned. */
  ghost predicate Matched(s: State) {
    && Requests(s.done) <= s.log && |s.log| <= |Requests(s.done)| + 1
    && (forall i :: 0 <= i < |s.done| && s.done[i].call.kind == REQUEST ==>
          var k := |Requests(s.done[..i])|;
          k < |s.log| && s.log[k] == Handled(s.done[i].call.request, s.done[i].response))
    && (forall i :: 0 <= i < |s.done| && s.done[i].call.kind == PING ==> s.done[i].response == OK_BODY)
  }

  lemma LogOf(s: State)
    requires Exchange(s)
    ensures Requests(s.done) <= s.log && |s.log| <= |Requests(s.done)| + 1
  {
    hide Exchanges, TheExchange, Requests, Calls, ActiveCall;
  }

  lemma ResponsesMatch(cfg: Config, s: State)
    requires !cfg.asWritten && Reachable(cfg, s)
    ensures Matched(s)
  {
    ReachableInv(cfg, s);
    LogOf(s);
    forall i | 0 <= i < |s.done| && s.done[i].call.kind == REQUEST
      ensures var k := |Requests(s.done[..i])|;
              k < |s.log| && s.log[k] == Handled(s.done[i].call.request, s.done[i].response)
    {
      RequestsAt(s.done, i);
    }
  }

  lemma CompletedSized(cfg: Config, s: State, i: nat)
    requires !cfg.asWritten && Reachable(cfg, s) && i < |s.done|
    ensures Within(cfg, s.done[i].call.request) && Within(cfg, s.done[i].response)
  {
    ReachableInv(cfg, s);
  }

  /** At most one exchange exists anywhere, and none when no caller is between its Send and its return. */
  lemma OneExchange(cfg: Config, s: State)
    requires !cfg.asWritten && Reachable(cfg, s)
    ensures Exchanges(s) <= 1
    ensures ActiveCall(s).None? ==> Exchanges(s) == 0
  {
    ReachableInv(cfg, s);
  }

  /** Notifications reach ReceiveNotify once each and in the order they were sent. */
  lemma NotificationsInOrder(cfg: Config, s: State)
    requires !cfg.asWritten && Reachable(cfg, s)
    ensures s.noticed <= s.notices
    ensures s.replies.open == [] ==> s.noticed == s.notices
  {
    ReachableInv(cfg, s);
  }

  /** With the guard as it is written, no call that returns success has changed its response buffer, in any
      run; it meets the matching property only for a buffer that already held the answer. */
  lemma AsWrittenNeverCopies(cfg: Config, s: State)
    requires cfg.asWritten && Reachable(cfg, s)
    ensures forall i :: 0 <= i < |s.done| ==> s.done[i].response == s.done[i].call.out
  {
    ReachableInv(cfg, s);
  }

  /** A caller that has just entered finds every handler call so far accounted for by calls that returned
      before: the handler call its own return will account for happens while it is inside. */
  lemma HandledInsideTheCall(cfg: Config, s: State, t: nat)
    requires !cfg.asWritten && Reachable(cfg, s) && t < |s.clients| && s.clients[t].Entered?
    ensures s.log == Requests(s.done) && Exchanges(s) == 0
  {
    ReachableInv(cfg, s);
  }

  // ---------------------------------------------------------------- a run with the guard as written

  lemma {:induction false} RunSnoc(cfg: Config, s: State, steps: seq<Step>, step: Step)
    requires Run(cfg, s, steps).Some? && Enabled(cfg, Run(cfg, s, steps).value, step)
    ensures Run(cfg, s, steps + [step]) == Some(Apply(cfg, Run(cfg, s, steps).value, step))
    decreases |steps|
  {
    hide Enabled, Apply;
    if steps == [] {
      assert (steps + [step])[1..] == [];
    } else {
      assert (steps + [step])[1..] == steps[1..] + [step];
      RunSnoc(cfg, Apply(cfg, s, steps[0]), steps[1..], step);
    }
  }

  lemma Reach(cfg: Config, s: State, step: Step)
    requires Reachable(cfg, s) && Enabled(cfg, s, step)
    ensures Reachable(cfg, Apply(cfg, s, step))
  {
    var s0, steps :| InitState(s0) && Run(cfg, s0, steps) == Some(s);
    RunSnoc(cfg, s0, steps, step);
    assert Run(cfg, s0, steps + [step]) == Some(Apply(cfg, s, step));
  }

  function EmptyFrame(header: Bytes): (ds: seq<Datagram>)
    ensures IsFrame(header, [], ds) && |ds| == 2
  {
    [ProtocolHeader(0), header]
  }

  lemma ReachInit(cfg: Config, s: State)
    requires InitState(s)
    ensures Reachable(cfg, s)
  {
    assert Run(cfg, s, []) == Some(s);
  }

  /** One caller sends an empty request. */
  lemma CallerSends(cfg: Config, out: Bytes) returns (s: State)
    ensures Reachable(cfg, s) && s.clients == [Sending(Call(REQUEST, [], out), [])] && s.notifiers == [Quiet]
    ensures s.txLock == s.txLock == None && s.receiver == Receiving && s.replies == EMPTY
    ensures s.log == [] && s.done == [] && s.server == Serving && s.response == []
    ensures var ds := EmptyFrame(TypeHeader(REQUEST));
            s.requests == Wire(ds, AwaitStart, [Frame(TypeHeader(REQUEST), [], ds)], [])
  {
    hide Reachable, IsFrame, EncodeInt;
    var call, ds := Call(REQUEST, [], out), EmptyFrame(TypeHeader(REQUEST));
    s := State([Idle], None, None, false, [], [], Receiving, Serving, [], [Quiet], None, EMPTY, EMPTY,
               false, false, [], [], [], []);
    assert Reachable(cfg, s) by { ReachInit(cfg, s); }
    Reach(cfg, s, Client(0, Enter(call)));
    s := Apply(cfg, s, Client(0, Enter(call)));
    Reach(cfg, s, Client(0, StartSend(ds)));
    s := Apply(cfg, s, Client(0, StartSend(ds)));
    Reach(cfg, s, Client(0, PutRequest));
    s := Apply(cfg, s, Client(0, PutRequest));
    Reach(cfg, s, Client(0, PutRequest));
    s := Apply(cfg, s, Client(0, PutRequest));
    assert ds[1..][1..] == [];
  }

  /** Then it waits. */
  lemma CallerWaits(cfg: Config, out: Bytes) returns (s: State)
    ensures Reachable(cfg, s) && s.clients == [Blocked(Call(REQUEST, [], out))] && s.notifiers == [Quiet]
    ensures s.resp == None && s.txLock == None && s.receiver == Receiving && s.replies == EMPTY
    ensures s.log == [] && s.done == [] && !s.arrived && s.server == Serving && s.response == [] && RequestTodo(s) == []
    ensures var ds := EmptyFrame(TypeHeader(REQUEST));
            s.requests == Wire(ds, AwaitStart, [Frame(TypeHeader(REQUEST), [], ds)], [])
  {
    hide Reachable, IsFrame, EncodeInt;
    s := CallerSends(cfg, out);
    Reach(cfg, s, Client(0, ClearSlot));
    s := Apply(cfg, s, Client(0, ClearSlot));
    Reach(cfg, s, Client(0, Wait));
    s := Apply(cfg, s, Client(0, Wait));
  }

  /** A notification is sent while the caller waits. */
  lemma NoticeSent(cfg: Config, s: State) returns (s': State)
    requires Reachable(cfg, s) && s.notifiers == [Quiet] && s.txLock == None && s.replies == EMPTY
    ensures Reachable(cfg, s') && s'.clients == s.clients && s'.receiver == s.receiver && s'.resp == s.resp
    ensures s'.log == s.log && s'.done == s.done && |s'.replies.queue| == 2
    ensures var ds := EmptyFrame(TypeHeader(NOTIFY));
            s'.replies == Wire(ds, AwaitStart, [Frame(TypeHeader(NOTIFY), [], ds)], [])
  {
    hide Reachable, IsFrame, EncodeInt, Feed, WireInv;
    var ds := EmptyFrame(TypeHeader(NOTIFY));
    var start := Notifier(0, StartNotify(false, [], ds));
    Reach(cfg, s, start);
    s' := Apply(cfg, s, start);
    Reach(cfg, s', Notifier(0, PutNotify));
    s' := Apply(cfg, s', Notifier(0, PutNotify));
    Reach(cfg, s', Notifier(0, PutNotify));
    s' := Apply(cfg, s', Notifier(0, PutNotify));
  }

  /** The receive thread takes it. */
  lemma NoticeArrives(cfg: Config, s: State) returns (s': State)
    requires cfg.asWritten && Reachable(cfg, s) && |s.clients| == 1 && s.clients[0].Blocked? && s.notifiers == [Quiet]
    requires s.txLock == None && s.receiver == Receiving && s.replies == EMPTY && s.done == []
    ensures Reachable(cfg, s') && s'.clients == s.clients && s'.receiver.GotReply? && s'.resp == s.resp
    ensures s'.log == s.log && s'.done == s.done
  {
    hide Reachable, IsFrame, EncodeInt, Feed, WireInv;
    s' := NoticeSent(cfg, s);
    FrameIntegrity(cfg, s');
    NextDatagram(cfg.limit, s'.replies, ReplyTodo(s'));
    Reach(cfg, s', Receiver(TakeReply));
    s' := Apply(cfg, s', Receiver(TakeReply));
    FrameIntegrity(cfg, s');
    NextDatagram(cfg.limit, s'.replies, ReplyTodo(s'));
    Reach(cfg, s', Receiver(TakeReply));
    s' := Apply(cfg, s', Receiver(TakeReply));
  }

  /** With the guard as written, a request can return success, its response buffer unchanged, before the
      handler was called at all: a notification is taken for its response. */
  lemma AsWrittenRun(cfg: Config, out: Bytes) returns (s: State)
    requires cfg.asWritten
    ensures Reachable(cfg, s) && s.done == [Completed(Call(REQUEST, [], out), out)] && s.log == []
  {
    hide Reachable, EncodeInt;
    s := CallerWaits(cfg, out);
    s := NoticeArrives(cfg, s);
    Reach(cfg, s, Receiver(LockSlot));
    s := Apply(cfg, s, Receiver(LockSlot));
    Reach(cfg, s, Receiver(Store));
    s := Apply(cfg, s, Receiver(Store));
    Reach(cfg, s, Receiver(Signal(Some(0))));
    s := Apply(cfg, s, Receiver(Signal(Some(0))));
    Reach(cfg, s, Receiver(UnlockSlot));
    s := Apply(cfg, s, Receiver(UnlockSlot));
    Reach(cfg, s, Client(0, Relock));
    s := Apply(cfg, s, Client(0, Relock));
    Reach(cfg, s, Client(0, TakeResponse));
    s := Apply(cfg, s, Client(0, TakeResponse));
  }

  /** Responses match requests in every reachable state if and only if the receive guard is the intended one. */
  lemma MatchedUnlessAsWritten(cfg: Config)
    ensures (forall s :: Reachable(cfg, s) ==> Matched(s)) <==> !cfg.asWritten
  {
    if cfg.asWritten {
      var s := AsWrittenRun(cfg, []);
      assert s.done[..0] == [];
      assert Reachable(cfg, s) && !Matched(s);
    } else {
      forall s | Reachable(cfg, s) ensures Matched(s) { ResponsesMatch(cfg, s); }
    }
  }
}
