/** When a call returns: what a waiting caller waits for always comes nearer and comes, unless the handler has
    answered with more than Send lets through; then no call of this client ever completes again. */
module RpcProgress {
  import opened Bytes
  import opened Framing
  import opened Wires
  import opened Rpc
  import opened RpcProofs
  import opened RpcTheorems

  /** Steps that bring work already begun further: the server's, the receive thread's, and those of a notifying
      thread that holds the send lock. No caller, no spurious wake-up and no new notification is among them. */
  predicate Drives(step: Step) {
    step.Server? || step.Receiver? || (step.Notifier? && !step.n.StartNotify?)
  }

  /** A step that can be taken if the handler, should it be called now, answers `r`. */
  predicate CanStep(cfg: Config, s: State, step: Step, r: Bytes) {
    Enabled(cfg, s, step) && Drives(step) && (step.Server? && step.v.Handle? ==> step.v.response == r)
  }

  /** If the active sender has sent all it has, a frame that is not wholly received has datagrams in the queue. */
  lemma Queued(limit: nat, w: Wire)
    requires WireInv(limit, w, []) && w.open != []
    ensures w.queue != []
  {
    assert |Datagrams(w.open)| >= |w.open[0].ds|;
    assert w.got + w.queue + [] == w.got + w.queue;
  }

  lemma HolderIsInside(s: State, u: nat)
    requires OuterLock(s) && SlotLock(s) && s.resp == Some(ByCaller(u))
    ensures s.outer == Some(u) && u < |s.clients| && !s.clients[u].Blocked?
  {
  }

  /** The caller that waits is the only thread inside a call and holds no response mutex. */
  lemma OnlyCaller(cfg: Config, s: State, t: nat)
    requires Integrity(cfg, s) && t < |s.clients| && s.clients[t].Blocked?
    ensures RequestTodo(s) == [] && (s.resp.None? || s.resp == Some(ByReceiver))
  {
    hide WireInv, SendLock;
    match s.resp
    case Some(ByCaller(u)) => HolderIsInside(s, u);
    case _ =>
  }

  lemma ReceiverDrives(cfg: Config, s: State, t: nat, r: Bytes) returns (step: Step)
    requires Integrity(cfg, s) && t < |s.clients| && s.clients[t].Blocked?
    requires !s.receiver.Receiving? || s.replies.queue != []
    ensures CanStep(cfg, s, step, r)
  {
    hide WireInv, RequestTodo;
    OnlyCaller(cfg, s, t);
    step := Receiver(match s.receiver
                     case GotReply(_, _) => LockSlot
                     case Holding(_, _) => Store
                     case Stored => Signal(Some(t))
                     case Signalled => UnlockSlot
                     case _ => TakeReply);
  }

  /** The holder of the send lock can go on: to its next datagram, or to the end of its Send. */
  lemma SenderDrives(cfg: Config, s: State, r: Bytes) returns (step: Step)
    requires Integrity(cfg, s) && s.txLock.Some?
    ensures CanStep(cfg, s, step, r)
  {
    hide WireInv;
    match s.txLock.value
    case ByServer => step := Server(if s.server.todo == [] then EndReply else PutReply);
    case ByNotifier(i) => step := Notifier(i, if s.notifiers[i].todo == [] then EndNotify else PutNotify);
  }

  lemma ServerDrives(cfg: Config, s: State, r: Bytes) returns (step: Step)
    requires Integrity(cfg, s) && s.txLock.None? && (s.server.Serving? ==> s.requests.queue != [])
    requires Representable(cfg, r)
    ensures CanStep(cfg, s, step, r)
  {
    hide WireInv;
    match s.server
    case GotRequest(_, _) =>
      assert s.response + r == r;
      step := Server(Handle(r));
    case Ready(header) =>
      if SendRejects(cfg.limit, header, s.response) {
        step := Server(RefuseReply);
      } else {
        step := Server(StartReply(WholeFrame(header, s.response)));
      }
    case _ => step := Server(TakeRequest);
  }

  /** With an idle reply channel and receive thread the exchange is in the request channel or at the server. */
  lemma OnTheFarSide(s: State)
    requires Exchanges(s) == 1 && s.receiver.Receiving? && !s.arrived && s.replies.open == []
    ensures s.server.Serving? ==> s.requests.open != []
  {
  }

  lemma OneExchangeLeft(cfg: Config, s: State, t: nat)
    requires !cfg.asWritten && Inv(cfg, s) && t < |s.clients| && s.clients[t].Blocked? && !Doomed(cfg, s)
    ensures !s.refused && Exchanges(s) == 1
    ensures s.arrived ==> s.receiver == Stored
  {
    hide Exchange, Exchanges, Doomed, Sized, Notified, PingsAnswered, WireInv, SlotLock, SendLock;
    StillUnderWay(cfg, s, t);
  }

  lemma NotRefused(cfg: Config, s: State, step: Step, r: Bytes)
    requires !cfg.asWritten && Inv(cfg, s) && !Doomed(cfg, s) && CanStep(cfg, s, step, r)
    ensures step != Server(RefuseReply)
  {
    hide Exchange, Doomed, Sized, Notified, PingsAnswered, WireInv, SlotLock, SendLock, NoLostWakeup;
    if step == Server(RefuseReply) {
      RefuseDoomed(cfg, s);
    }
  }

  lemma SomeStep(cfg: Config, s: State, t: nat, r: Bytes) returns (step: Step)
    requires !cfg.asWritten && Inv(cfg, s) && t < |s.clients| && s.clients[t].Blocked? && !Doomed(cfg, s)
    requires Representable(cfg, r)
    ensures CanStep(cfg, s, step, r) && step != Server(RefuseReply)
  {
    hide WireInv, Exchanges, Exchange, Doomed, Sized, Notified, PingsAnswered, NoLostWakeup, CanStep, OuterLock,
      SlotLock, SendLock;
    OneExchangeLeft(cfg, s, t);
    if !s.receiver.Receiving? || s.replies.queue != [] {
      step := ReceiverDrives(cfg, s, t, r);
    } else if s.txLock.Some? {
      step := SenderDrives(cfg, s, r);
    } else {
      OnlyCaller(cfg, s, t);
      if s.replies.open != [] { Queued(cfg.limit, s.replies); }
      OnTheFarSide(s);
      if s.server.Serving? { Queued(cfg.limit, s.requests); }
      step := ServerDrives(cfg, s, r);
    }
    NotRefused(cfg, s, step, r);
  }

  /** While a caller is blocked in its wait, some thread other than a caller can always take a step, unless the
      handler has answered with more than the limit; waiting for a lock, a datagram or a signal never closes into
      a circle. */
  lemma NoDeadlock(cfg: Config, s: State, t: nat, r: Bytes) returns (step: Step)
    requires !cfg.asWritten && Reachable(cfg, s) && t < |s.clients| && s.clients[t].Blocked? && !Doomed(cfg, s)
    requires Representable(cfg, r)
    ensures CanStep(cfg, s, step, r) && step != Server(RefuseReply)
  {
    ReachableInv(cfg, s);
    hide Inv, CanStep, Doomed;
    step := SomeStep(cfg, s, t, r);
  }

  // ---------------------------------------------------------------- such steps come to an end

  function ServerRank(pc: ServerPC): nat {
    if pc.GotRequest? then 2 else if pc.Ready? then 1 else 0
  }

  function ReceiverRank(pc: ReceiverPC): nat {
    match pc
    case GotReply(_, _) => 4
    case Holding(_, _) => 3
    case Stored => 2
    case Signalled => 1
    case _ => 0
  }

  /** Requests that are still to be answered. */
  ghost function Unanswered(s: State): nat {
    3 * |s.requests.open| + ServerRank(s.server)
  }

  /** Datagrams and phases that are still to come if no further request is answered. */
  ghost function Pending(s: State): nat {
    6 * |ReplyTodo(s)| + 5 * |s.replies.queue| + (if s.txLock.Some? then 1 else 0) + ReceiverRank(s.receiver)
    + |s.requests.queue|
  }

  ghost predicate Falls(s: State, s': State) {
    Unanswered(s') < Unanswered(s) || (Unanswered(s') == Unanswered(s) && Pending(s') < Pending(s))
  }

  lemma TakeRequestFalls(cfg: Config, s: State)
    requires Integrity(cfg, s) && ServerEnabled(cfg, s, TakeRequest)
    ensures Falls(s, ServerApply(cfg, s, TakeRequest))
  {
    TakeRequestCases(cfg, s);
    hide WireInv, Feed, OuterLock, SlotLock, RequestTodo;
  }

  lemma ReplyFalls(cfg: Config, s: State, v: ServerStep)
    requires SendLock(s) && ServerEnabled(cfg, s, v) && !v.TakeRequest?
    ensures Falls(s, ServerApply(cfg, s, v))
  {
    hide Feed, Take, FrameOk, SendRejects, TypeOf, EncodeInt;
  }

  lemma NotifierFalls(cfg: Config, s: State, i: nat, n: NotifierStep)
    requires SendLock(s) && NotifierEnabled(cfg, s, i, n) && !n.StartNotify?
    ensures Falls(s, NotifierApply(cfg, s, i, n))
  {
    hide FrameOk, TypeOf, EncodeInt;
  }

  lemma ReceiverRankFalls(cfg: Config, s: State, r: ReceiverStep)
    requires ReceiverEnabled(cfg, s, r)
    ensures var rank := ReceiverRank(ReceiverApply(cfg, s, r).receiver);
            if r.TakeReply? then rank <= 4 else rank < ReceiverRank(s.receiver)
  {
    hide Feed, Take, TypeOf;
  }

  lemma ReceiverFalls(cfg: Config, s: State, r: ReceiverStep)
    requires ReceiverEnabled(cfg, s, r)
    ensures Falls(s, ReceiverApply(cfg, s, r))
  {
    hide Feed, SendLock, ReplyTodo, ReceiverApply;
    if r.TakeReply? { TakeReplyEffect(cfg, s); } else { SlotOnly(cfg, s, r); }
    ReceiverRankFalls(cfg, s, r);
    SendersUntouched(s, ReceiverApply(cfg, s, r));
  }

  /** Every driving step brings the end nearer, whatever the handler answers and however bodies are cut. */
  lemma DriveFalls(cfg: Config, s: State, step: Step)
    requires Integrity(cfg, s) && Enabled(cfg, s, step) && Drives(step)
    ensures Falls(s, Apply(cfg, s, step))
  {
    hide WireInv, OuterLock, SlotLock, SendLock, ServerApply, ServerEnabled, NotifierApply, NotifierEnabled,
      ReceiverApply, ReceiverEnabled, Falls;
    match step
    case Server(v) => if v.TakeRequest? { TakeRequestFalls(cfg, s); } else { ReplyFalls(cfg, s, v); }
    case Notifier(i, n) => NotifierFalls(cfg, s, i, n);
    case Receiver(r) => ReceiverFalls(cfg, s, r);
  }

  /** The n-th state of an endless run comes from the one before by a driving step. */
  ghost predicate DrivenAt(cfg: Config, run: nat -> State, step: nat -> Step, n: nat) {
    Enabled(cfg, run(n), step(n)) && Drives(step(n)) && run(n + 1) == Apply(cfg, run(n), step(n))
  }

  lemma {:induction false} DrivesEndAfter(cfg: Config, run: nat -> State, step: nat -> Step, n: nat) returns (m: nat)
    requires Reachable(cfg, run(n))
    ensures !DrivenAt(cfg, run, step, m)
    decreases Unanswered(run(n)), Pending(run(n))
  {
    m := n;
    if DrivenAt(cfg, run, step, n) {
      ReachableInv(cfg, run(n));
      hide Enabled, Apply, Reachable, Unanswered, Pending, Drives;
      DriveFalls(cfg, run(n), step(n));
      Reach(cfg, run(n), step(n));
      m := DrivesEndAfter(cfg, run, step, n + 1);
    }
  }

  /** There is no endless run of driving steps. */
  lemma DrivesEnd(cfg: Config, run: nat -> State, step: nat -> Step)
    requires Reachable(cfg, run(0))
    ensures exists m: nat :: !DrivenAt(cfg, run, step, m)
  {
    var m := DrivesEndAfter(cfg, run, step, 0);
  }

  // ---------------------------------------------------------------- the signal comes

  /** Only the signal wakes the caller. */
  lemma StillBlocked(cfg: Config, s: State, step: Step, t: nat)
    requires Enabled(cfg, s, step) && Drives(step)
    requires t < |s.clients| && s.clients[t].Blocked? && step != Receiver(Signal(Some(t)))
    ensures t < |Apply(cfg, s, step).clients| && Apply(cfg, s, step).clients[t] == s.clients[t]
  {
    hide ServerApply, ServerEnabled, NotifierApply, NotifierEnabled, ReceiverApply, ReceiverEnabled;
    match step
    case Server(v) => ServerTrail(cfg, s, v);
    case Notifier(i, n) => NotifierTrail(cfg, s, i, n);
    case Receiver(r) => ReceiverTrail(cfg, s, r);
  }

  /** A sequence of driving steps that cannot be continued has signalled the caller, unless the handler has
      answered with more than the limit. */
  lemma {:induction false} MaximalDrive(cfg: Config, s: State, steps: seq<Step>, t: nat)
    requires !cfg.asWritten && Reachable(cfg, s) && t < |s.clients| && s.clients[t].Blocked?
    requires Run(cfg, s, steps).Some? && forall i :: 0 <= i < |steps| ==> Drives(steps[i])
    requires forall step :: !CanStep(cfg, Run(cfg, s, steps).value, step, [])
    ensures Receiver(Signal(Some(t))) in steps || Doomed(cfg, Run(cfg, s, steps).value)
    decreases |steps|
  {
    hide Reachable, Apply, Enabled, Doomed, CanStep;
    if steps == [] {
      if !Doomed(cfg, s) { var step := NoDeadlock(cfg, s, t, []); }
    } else if steps[0] != Receiver(Signal(Some(t))) {
      StillBlocked(cfg, s, steps[0], t);
      Reach(cfg, s, steps[0]);
      MaximalDrive(cfg, Apply(cfg, s, steps[0]), steps[1..], t);
    }
  }

  // ---------------------------------------------------------------- the call returns, or never

  /** Continuing a run after one step. */
  lemma RunCons(cfg: Config, s: State, step: Step, steps: seq<Step>)
    requires Enabled(cfg, s, step)
    ensures Run(cfg, s, [step] + steps) == Run(cfg, Apply(cfg, s, step), steps)
  {
    assert ([step] + steps)[1..] == steps;
  }

  /** Between two states the handler has answered nothing but `r`. */
  ghost predicate AnsweredWith(s: State, f: State, r: Bytes) {
    s.log <= f.log && forall k :: |s.log| <= k < |f.log| ==> f.log[k].response == r
  }

  /** Between two states exactly one call has completed, this one, and its thread has left. */
  ghost predicate Ends(s: State, f: State, call: Call, r: Bytes) {
    && AnsweredWith(s, f, r) && f.outer == None
    && |f.done| == |s.done| + 1 && f.done[..|s.done|] == s.done && f.done[|s.done|].call == call
  }

  lemma EndsAfter(s: State, s': State, f: State, call: Call, r: Bytes)
    requires AnsweredWith(s, s', r) && s'.done == s.done && Ends(s', f, call, r)
    ensures Ends(s, f, call, r)
  {
  }

  /** A signalled caller takes its response and returns. */
  lemma SignalledReturns(cfg: Config, s: State, t: nat) returns (steps: seq<Step>)
    requires Inv(cfg, s) && t < |s.clients| && s.clients[t].Woken? && s.receiver == Signalled
    ensures Run(cfg, s, steps).Some?
    ensures forall r :: Ends(s, Run(cfg, s, steps).value, s.clients[t].call, r)
  {
    hide WireInv, Exchange, Exchanges, Sized, Notified, PingsAnswered, Refusals, TypeOf, EncodeInt, Feed, Take;
    var s1 := Apply(cfg, s, Receiver(UnlockSlot));
    var s2 := Apply(cfg, s1, Client(t, Relock));
    var s3 := Apply(cfg, s2, Client(t, TakeResponse));
    assert Run(cfg, s3, []) == Some(s3);
    RunCons(cfg, s2, Client(t, TakeResponse), []);
    RunCons(cfg, s1, Client(t, Relock), [Client(t, TakeResponse)] + []);
    steps := [Receiver(UnlockSlot)] + ([Client(t, Relock)] + ([Client(t, TakeResponse)] + []));
    RunCons(cfg, s, Receiver(UnlockSlot), [Client(t, Relock)] + ([Client(t, TakeResponse)] + []));
  }

  lemma FitAnswer(cfg: Config, s: State, r: Bytes)
    requires ServerEnabled(cfg, s, Handle(r)) && !Doomed(cfg, s) && Within(cfg, r)
    ensures var s' := ServerApply(cfg, s, Handle(r));
            !Doomed(cfg, s') && (s'.log == s.log || s'.log == s.log + [Handled(s.server.request, r)])
  {
    hide Requests, TypeOf, EncodeInt;
  }

  lemma SignalEffect(cfg: Config, s: State, t: nat)
    requires ReceiverEnabled(cfg, s, Signal(Some(t)))
    ensures var s' := ReceiverApply(cfg, s, Signal(Some(t)));
            t < |s'.clients| && s'.clients[t].Woken? && s'.receiver == Signalled
  {
    hide Feed, Take, TypeOf;
  }

  /** No step but the handler's answer can make a response too big. */
  lemma StaysReturnable(cfg: Config, s: State, step: Step, r: Bytes)
    requires CanStep(cfg, s, step, r) && !Doomed(cfg, s) && Within(cfg, r)
    ensures var s' := Apply(cfg, s, step);
            !Doomed(cfg, s') && s'.done == s.done && AnsweredWith(s, s', r)
  {
    hide Requests, ClientApply, ServerApply, NotifierApply, ReceiverApply, ServerEnabled;
    LogAndDone(cfg, s, step);
    if step.Server? && step.v.Handle? { FitAnswer(cfg, s, r); }
  }

  /** From every state in which a caller is blocked and not doomed its call can complete, if the handler, should it
      still have to answer, answers `r`. */
  lemma {:induction false} CallCanEnd(cfg: Config, s: State, t: nat, r: Bytes) returns (steps: seq<Step>)
    requires !cfg.asWritten && Reachable(cfg, s) && t < |s.clients| && s.clients[t].Blocked? && !Doomed(cfg, s)
    requires Within(cfg, r)
    ensures Run(cfg, s, steps).Some?
    ensures Ends(s, Run(cfg, s, steps).value, s.clients[t].call, r)
    decreases Unanswered(s), Pending(s)
  {
    ReachableInv(cfg, s);
    var step := NoDeadlock(cfg, s, t, r);
    var s' := Apply(cfg, s, step);
    hide Reachable, Enabled, Apply, Unanswered, Pending, Doomed, Locks, WireInv, Exchange, Sized, Run, Within, Ends,
      AnsweredWith;
    DriveFalls(cfg, s, step);
    Reach(cfg, s, step);
    StaysReturnable(cfg, s, step, r);
    var rest;
    if step == Receiver(Signal(Some(t))) {
      SignalEffect(cfg, s, t);
      ReachableInv(cfg, s');
      rest := SignalledReturns(cfg, s', t);
    } else {
      StillBlocked(cfg, s, step, t);
      rest := CallCanEnd(cfg, s', t, r);
    }
    EndsAfter(s, s', Run(cfg, s', rest).value, s.clients[t].call, r);
    RunCons(cfg, s, step, rest);
    steps := [step] + rest;
  }

  lemma {:induction false} ReachRun(cfg: Config, s: State, steps: seq<Step>)
    requires Reachable(cfg, s) && Run(cfg, s, steps).Some?
    ensures Reachable(cfg, Run(cfg, s, steps).value)
    decreases |steps|
  {
    hide Reachable, Enabled, Apply;
    if steps != [] {
      Reach(cfg, s, steps[0]);
      ReachRun(cfg, Apply(cfg, s, steps[0]), steps[1..]);
    }
  }

  /** What a waiting call returns: the answer to a ping, the answer the handler has given, or the one it will give. */
  ghost function AnswerTo(s: State, call: Call, r: Bytes): Bytes {
    if call.kind == PING then OK_BODY
    else if |s.log| > |Requests(s.done)| then s.log[|s.log| - 1].response
    else r
  }

  lemma LogWhenIdle(f: State)
    requires Exchange(f) && f.outer == None
    ensures f.log == Requests(f.done)
  {
    hide Exchanges, TheExchange, Requests;
  }

  lemma AnswerFound(cfg: Config, s: State, t: nat, r: Bytes, f: State)
    requires !cfg.asWritten && Inv(cfg, s) && Inv(cfg, f) && t < |s.clients| && s.clients[t].Blocked?
    requires Ends(s, f, s.clients[t].call, r)
    ensures f.done == s.done + [Completed(s.clients[t].call, AnswerTo(s, s.clients[t].call, r))]
  {
    hide Integrity, NoLostWakeup, Sized, Refusals, Notified, Exchanges, TheExchange, Progress, ActiveCall;
    LogOf(s);
    var call, last := s.clients[t].call, f.done[|s.done|];
    assert IsCall(call);
    assert f.done == s.done + [last];
    assert f.log == Requests(f.done) by { LogWhenIdle(f); }
    assert Requests(f.done)
        == Requests(s.done) + if call.kind == REQUEST then [Handled(call.request, last.response)] else [];
    if call.kind == REQUEST {
      var h := Handled(call.request, last.response);
      assert f.log[|f.log| - 1] == h;
      if |s.log| > |Requests(s.done)| {
        assert s.log == f.log;
      } else {
        assert |s.log| == |f.log| - 1;
      }
    }
  }

  /** The call of a blocked caller can return, with its answer, from every state that is not doomed. */
  lemma Returns(cfg: Config, s: State, t: nat, r: Bytes) returns (steps: seq<Step>)
    requires !cfg.asWritten && Reachable(cfg, s) && t < |s.clients| && s.clients[t].Blocked? && !Doomed(cfg, s)
    requires Within(cfg, r)
    ensures Run(cfg, s, steps).Some?
    ensures Run(cfg, s, steps).value.done == s.done + [Completed(s.clients[t].call, AnswerTo(s, s.clients[t].call, r))]
  {
    hide Reachable, Inv, Doomed, Within, AnswerTo;
    steps := CallCanEnd(cfg, s, t, r);
    ReachRun(cfg, s, steps);
    ReachableInv(cfg, s);
    ReachableInv(cfg, Run(cfg, s, steps).value);
    AnswerFound(cfg, s, t, r, Run(cfg, s, steps).value);
  }

  /** From a doomed state on no call of any client completes, in any run. */
  lemma {:induction false} NeverReturns(cfg: Config, s: State, steps: seq<Step>)
    requires !cfg.asWritten && Reachable(cfg, s) && Doomed(cfg, s)
    ensures var r := Run(cfg, s, steps); r.Some? ==> r.value.done == s.done && Doomed(cfg, r.value)
    decreases |steps|
  {
    if steps != [] && Enabled(cfg, s, steps[0]) {
      ReachableInv(cfg, s);
      hide Reachable, Enabled, Apply, Doomed, Integrity, Exchange, Sized;
      DoomedStays(cfg, s, steps[0]);
      Reach(cfg, s, steps[0]);
      NeverReturns(cfg, Apply(cfg, s, steps[0]), steps[1..]);
    }
  }

  /** Some continuation of the run completes a call. */
  ghost predicate CanReturn(cfg: Config, s: State) {
    exists steps :: Run(cfg, s, steps).Some? && |Run(cfg, s, steps).value.done| > |s.done|
  }

  /** A waiting call can still return if and only if the handler has not answered it with more than the limit.
      Otherwise neither it nor any other call of this client ever completes. */
  lemma ReturnsIff(cfg: Config, s: State, t: nat)
    requires !cfg.asWritten && Reachable(cfg, s) && t < |s.clients| && s.clients[t].Blocked?
    ensures CanReturn(cfg, s) <==> !Doomed(cfg, s)
    ensures Doomed(cfg, s) ==> forall steps :: Run(cfg, s, steps).Some? ==> Run(cfg, s, steps).value.done == s.done
  {
    hide Reachable, Doomed, Run;
    if Doomed(cfg, s) {
      forall steps | Run(cfg, s, steps).Some? ensures Run(cfg, s, steps).value.done == s.done {
        NeverReturns(cfg, s, steps);
      }
    } else {
      var steps := Returns(cfg, s, t, []);
    }
  }

  lemma {:induction false} AnsweredFrame(open: seq<Frame>) returns (i: nat)
    requires AnsweredIn(open) != []
    ensures i < |open| && AnsweredIn(open)[0] == Answered(open[i].header, open[i].body)
  {
    if IsReply(open[0].header) { i := 0; } else { var j := AnsweredFrame(open[1..]); i := j + 1; }
  }

  /** A response that has left the server is within the limit. */
  lemma SentWithin(cfg: Config, s: State)
    requires Integrity(cfg, s) && Sized(cfg, s) && Exchanges(s) == 1
    requires AskedIn(s.requests.open) == [] && AtServer(s.server, s.response) == []
    ensures |TheExchange(s)| == 1 && TheExchange(s)[0].Answered? && Within(cfg, TheExchange(s)[0].body)
  {
    hide AskedIn, AtServer, IsReply, Locks, IsChunking;
    if AnsweredIn(s.replies.open) != [] {
      var i := AnsweredFrame(s.replies.open);
    }
  }

  /** When a caller waits and its exchange has left the server, its reply was refused if and only if the handler
      answered with more than the limit. */
  lemma RefusedIff(cfg: Config, s: State, t: nat)
    requires !cfg.asWritten && Reachable(cfg, s) && t < |s.clients| && s.clients[t].Blocked?
    requires AskedIn(s.requests.open) == [] && AtServer(s.server, s.response) == []
    ensures s.refused <==> |s.log| > |Requests(s.done)| && 0 < cfg.limit < |s.log[|s.log| - 1].response|
  {
    hide Reachable, WireInv, SlotLock, SendLock, AskedIn, AnsweredIn, AtServer, Requests, Exchanges, TheExchange, Sized,
      Notified, PingsAnswered, NoLostWakeup;
    ReachableInv(cfg, s);
    StillUnderWay(cfg, s, t);
    if !s.refused {
      SentWithin(cfg, s);
    }
  }

  // ---------------------------------------------------------------- a caller that waits forever

  /** The server's loop receives the empty request that waits in the channel. */
  lemma RequestTaken(cfg: Config, s: State) returns (s': State)
    requires Reachable(cfg, s) && s.server == Serving && s.response == [] && RequestTodo(s) == []
    requires var ds := EmptyFrame(TypeHeader(REQUEST));
             s.requests == Wire(ds, AwaitStart, [Frame(TypeHeader(REQUEST), [], ds)], [])
    ensures Reachable(cfg, s') && s' == s.(requests := s'.requests, server := s'.server)
    ensures s'.server == GotRequest(TypeHeader(REQUEST), [])
  {
    hide Reachable, IsFrame, EncodeInt, Feed, WireInv;
    FrameIntegrity(cfg, s);
    NextDatagram(cfg.limit, s.requests, []);
    Reach(cfg, s, Server(TakeRequest));
    s' := Apply(cfg, s, Server(TakeRequest));
    FrameIntegrity(cfg, s');
    NextDatagram(cfg.limit, s'.requests, []);
    Reach(cfg, s', Server(TakeRequest));
    s' := Apply(cfg, s', Server(TakeRequest));
  }

  /** Whatever the limit, a handler that answers with more makes its caller wait forever: after this run neither
      that call nor any other one of the client completes. */
  lemma RefusedRun(cfg: Config, out: Bytes, response: Bytes) returns (s: State)
    requires !cfg.asWritten && 0 < cfg.limit < |response|
    ensures Reachable(cfg, s) && s.clients == [Blocked(Call(REQUEST, [], out))] && s.refused
    ensures !CanReturn(cfg, s)
  {
    hide Reachable, EncodeInt, WireInv, CanReturn;
    s := CallerWaits(cfg, out);
    s := RequestTaken(cfg, s);
    HeaderType(REQUEST);
    assert [] + response == response;
    Reach(cfg, s, Server(Handle(response)));
    s := Apply(cfg, s, Server(Handle(response)));
    Reach(cfg, s, Server(RefuseReply));
    s := Apply(cfg, s, Server(RefuseReply));
    assert Doomed(cfg, s);
    ReturnsIff(cfg, s, 0);
  }
}
