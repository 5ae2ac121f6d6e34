/** Message notification: mq_notify() registers once, the kernel fires the registration when a message reaches
    the empty queue, and the callback registers again before it processes. */
module Notifications {
  import opened Bytes

  /** One run of the notification callback, in a thread of its own. */
  datatype Activation =
    | Fired              // about to register again
    | Armed              // about to read the message count
    | Draining           // inside the batch receive
    | Drained            // only when processing comes first: about to register again
    | Finished

  /** `waiters` are processes blocked in mq_receive(); `collided` records an mq_notify() refused with EBUSY. */
  datatype State = State(
    queue: seq<Bytes>,
    registered: bool,
    waiters: nat,
    acts: seq<Activation>,
    collided: bool,
    sent: seq<Bytes>,
    taken: seq<Bytes>
  )

  /** `rearmFirst` is the order in the source; its opposite processes first and registers afterwards. `pollFails`:
      a receive of the callback may fail for another reason than the time-out, which ends its batch receive. */
  datatype Config = Config(cap: nat, rearmFirst: bool, pollFails: bool)

  datatype Step =
    | Send(message: Bytes)
    | Wait                   // another process starts a blocking receive
    | OtherReceive           // another process receives a message
    | Rearm(a: nat)
    | Check(a: nat)          // the callback's CurrentMessageCount()
    | Poll(a: nat)           // the callback's mq_timedreceive()
    | PollFails(a: nat)

  /** SetNotifyMessage() on a queue that holds `q`. */
  function Start(q: seq<Bytes>): State {
    State(q, true, 0, [], false, q, [])
  }

  predicate Enabled(cfg: Config, s: State, step: Step) {
    match step
    case Send(_) => |s.queue| < cfg.cap
    case Wait => s.queue == []
    case OtherReceive => s.queue != []
    case Rearm(a) => a < |s.acts| && s.acts[a] == if cfg.rearmFirst then Fired else Drained
    case Check(a) => a < |s.acts| && s.acts[a] == if cfg.rearmFirst then Armed else Fired
    case Poll(a) => a < |s.acts| && s.acts[a] == Draining
    case PollFails(a) => cfg.pollFails && a < |s.acts| && s.acts[a] == Draining
  }

  /** Where an activation goes when its batch receive is over. */
  function AfterDrain(cfg: Config): Activation {
    if cfg.rearmFirst then Finished else Drained
  }

  function Apply(cfg: Config, s: State, step: Step): State
    requires Enabled(cfg, s, step)
  {
    match step
    case Send(m) =>
      var s' := s.(sent := s.sent + [m]);
      if s.queue == [] && s.waiters > 0 then s'.(waiters := s.waiters - 1, taken := s.taken + [m])
      else if s.queue == [] && s.registered then s'.(queue := [m], registered := false, acts := s.acts + [Fired])
      else s'.(queue := s.queue + [m])
    case Wait => s.(waiters := s.waiters + 1)
    case OtherReceive => s.(queue := s.queue[1..], taken := s.taken + [s.queue[0]])
    case Rearm(a) =>
      s.(registered := true, collided := s.collided || s.registered,
         acts := s.acts[a := if cfg.rearmFirst then Armed else Finished])
    case Check(a) => s.(acts := s.acts[a := if s.queue == [] then AfterDrain(cfg) else Draining])
    case Poll(a) =>
      if s.queue == [] then s.(acts := s.acts[a := AfterDrain(cfg)])
      else s.(queue := s.queue[1..], taken := s.taken + [s.queue[0]])
    case PollFails(a) => s.(acts := s.acts[a := AfterDrain(cfg)])
  }

  function Run(cfg: Config, s: State, steps: seq<Step>): Option<State>
    decreases |steps|
  {
    if steps == [] then Some(s)
    else if Enabled(cfg, s, steps[0]) then Run(cfg, Apply(cfg, s, steps[0]), steps[1..])
    else None
  }

  /** The activation has not yet seen the queue empty, so it will still receive what is there. */
  predicate WillDrain(act: Activation) { act.Fired? || act.Armed? || act.Draining? }

  ghost predicate NotStranded(s: State) {
    s.queue != [] ==> exists a :: 0 <= a < |s.acts| && WillDrain(s.acts[a])
  }

  function FiredCount(acts: seq<Activation>): nat {
    if acts == [] then 0 else (if acts[0] == Fired then 1 else 0) + FiredCount(acts[1..])
  }

  /** Exactly one of: the registration stands, or one activation has yet to renew it. */
  ghost predicate Inv(cfg: Config, s: State) {
    && (!cfg.pollFails ==> NotStranded(s))
    && (if s.registered then 1 else 0) + FiredCount(s.acts) == 1
    && !s.collided
    && (forall a :: 0 <= a < |s.acts| ==> !s.acts[a].Drained?)
    && s.sent == s.taken + s.queue
    && (s.queue != [] ==> |s.queue| <= cfg.cap)
  }

  lemma {:induction false} FiredUpdate(acts: seq<Activation>, a: nat, x: Activation)
    requires a < |acts|
    ensures FiredCount(acts[a := x])
            == FiredCount(acts) - (if acts[a] == Fired then 1 else 0) + (if x == Fired then 1 else 0)
  {
    if a > 0 {
      assert acts[a := x][1..] == acts[1..][a - 1 := x];
      FiredUpdate(acts[1..], a - 1, x);
    } else {
      assert acts[a := x][1..] == acts[1..];
    }
  }

  lemma {:induction false} FiredSnoc(acts: seq<Activation>)
    ensures FiredCount(acts + [Fired]) == FiredCount(acts) + 1
  {
    if acts != [] {
      assert (acts + [Fired])[1..] == acts[1..] + [Fired];
      FiredSnoc(acts[1..]);
    }
  }

  lemma {:induction false} FiredSome(acts: seq<Activation>) returns (a: nat)
    requires FiredCount(acts) > 0
    ensures a < |acts| && acts[a] == Fired
  {
    if acts[0] == Fired { a := 0; } else { var b := FiredSome(acts[1..]); a := b + 1; }
  }

  lemma KeepDraining(s: State, a: nat, x: Activation)
    requires NotStranded(s) && a < |s.acts| && WillDrain(x)
    ensures NotStranded(s.(acts := s.acts[a := x]))
  {
    assert s.acts[a := x][a] == x;
  }

  lemma StepInv(cfg: Config, s: State, step: Step)
    requires cfg.rearmFirst && Inv(cfg, s) && Enabled(cfg, s, step)
    ensures Inv(cfg, Apply(cfg, s, step))
  {
    var s' := Apply(cfg, s, step);
    match step
    case Send(m) =>
      FiredSnoc(s.acts);
      if s.queue == [] && !s.registered {
        var a := FiredSome(s.acts);
        assert WillDrain(s'.acts[a]);
      } else if s.queue == [] && s.waiters == 0 {
        assert WillDrain(s'.acts[|s.acts|]);
      }
    case Rearm(a) =>
      FiredUpdate(s.acts, a, Armed);
      if NotStranded(s) { KeepDraining(s, a, Armed); }
    case Check(a) =>
      FiredUpdate(s.acts, a, if s.queue == [] then Finished else Draining);
      if s.queue != [] && NotStranded(s) { KeepDraining(s, a, Draining); }
    case PollFails(a) => FiredUpdate(s.acts, a, Finished);
    case Poll(a) =>
      FiredUpdate(s.acts, a, Finished);
      if s'.queue != [] { assert WillDrain(s'.acts[a]); }
    case _ =>
  }

  lemma {:induction false} RunInv(cfg: Config, s: State, steps: seq<Step>)
    requires cfg.rearmFirst && Inv(cfg, s)
    ensures var r := Run(cfg, s, steps); r.Some? ==> Inv(cfg, r.value)
    decreases |steps|
  {
    hide Inv, Enabled, Apply;
    if steps != [] && Enabled(cfg, s, steps[0]) {
      StepInv(cfg, s, steps[0]);
      RunInv(cfg, Apply(cfg, s, steps[0]), steps[1..]);
    }
  }

  /** Registering again never meets an existing registration, so it never fails; and messages leave in the
      order in which they were sent. */
  lemma RearmNeverCollides(cfg: Config, steps: seq<Step>)
    requires cfg.rearmFirst && Run(cfg, Start([]), steps).Some?
    ensures var s := Run(cfg, Start([]), steps).value;
            && !s.collided
            && (s.registered <==> FiredCount(s.acts) == 0) && FiredCount(s.acts) <= 1
            && s.sent == s.taken + s.queue
  {
    RunInv(cfg, Start([]), steps);
  }

  /** Nobody is going to receive what is in the queue. */
  ghost predicate Stranded(s: State) {
    s.queue != [] && forall a :: 0 <= a < |s.acts| ==> s.acts[a] == Finished
  }

  /** A callback whose receive fails leaves what is still queued stranded, although the registration stands. */
  lemma FailedPollStrands(cfg: Config, m: Bytes) returns (steps: seq<Step>)
    requires cfg.rearmFirst && cfg.pollFails && cfg.cap > 0
    ensures var r := Run(cfg, Start([]), steps); r.Some? && Stranded(r.value) && r.value.registered
  {
    var s0 := Start([]);
    var s1 := Apply(cfg, s0, Send(m));
    var s2 := Apply(cfg, s1, Rearm(0));
    var s3 := Apply(cfg, s2, Check(0));
    var s4 := Apply(cfg, s3, PollFails(0));
    var t3, t2, t1 := [PollFails(0)], [Check(0), PollFails(0)], [Rearm(0), Check(0), PollFails(0)];
    steps := [Send(m), Rearm(0), Check(0), PollFails(0)];
    assert t3[1..] == [] && t2[1..] == t3 && t1[1..] == t2 && steps[1..] == t1;
    assert Run(cfg, s3, t3) == Some(s4);
    assert Run(cfg, s2, t2) == Some(s4);
    assert Run(cfg, s1, t1) == Some(s4);
  }

  /** No message is ever stranded, in any run with any number of concurrent activations, senders and other
      receivers, if and only if the queue was empty when the notification was set and no receive of the callback
      can fail for another reason than the time-out. */
  lemma NoStrandedMessage(cfg: Config, q: seq<Bytes>)
    requires cfg.rearmFirst
    ensures (forall steps {:trigger Run(cfg, Start(q), steps)} ::
               Run(cfg, Start(q), steps).Some? ==> NotStranded(Run(cfg, Start(q), steps).value))
            <==> q == [] && !(cfg.pollFails && cfg.cap > 0)
  {
    if q != [] {
      assert Run(cfg, Start(q), []) == Some(Start(q));
    } else if cfg.pollFails && cfg.cap > 0 {
      var steps := FailedPollStrands(cfg, []);
      assert !NotStranded(Run(cfg, Start(q), steps).value);
    } else {
      forall steps | Run(cfg, Start(q), steps).Some? ensures NotStranded(Run(cfg, Start(q), steps).value) {
        RunInv(cfg, Start(q), steps);
      }
    }
  }

  // ---------------------------------------------------------------- every message is received

  /** The steps of the callbacks themselves. */
  predicate Callback(step: Step) { step.Rearm? || step.Check? || step.Poll? }

  function Rank(act: Activation): nat {
    match act
    case Fired => 3
    case Armed => 2
    case Draining => 1
    case Drained => 0
    case Finished => 0
  }

  function Ranks(acts: seq<Activation>): nat {
    if acts == [] then 0 else Rank(acts[0]) + Ranks(acts[1..])
  }

  lemma {:induction false} RanksUpdate(acts: seq<Activation>, a: nat, x: Activation)
    requires a < |acts|
    ensures Ranks(acts[a := x]) == Ranks(acts) - Rank(acts[a]) + Rank(x)
  {
    if a > 0 {
      assert acts[a := x][1..] == acts[1..][a - 1 := x];
      RanksUpdate(acts[1..], a - 1, x);
    } else {
      assert acts[a := x][1..] == acts[1..];
    }
  }

  /** What the callbacks still have to do. */
  function ToDo(s: State): nat { |s.queue| + Ranks(s.acts) }

  lemma CallbackFalls(cfg: Config, s: State, step: Step)
    requires cfg.rearmFirst && Enabled(cfg, s, step) && Callback(step)
    ensures ToDo(Apply(cfg, s, step)) < ToDo(s) && Apply(cfg, s, step).sent == s.sent
  {
    hide Ranks;
    RanksUpdate(s.acts, step.a, Apply(cfg, s, step).acts[step.a]);
    assert s.acts[step.a := s.acts[step.a]] == s.acts;
  }

  /** A sequence of callback steps is no longer than what there is to do. */
  lemma {:induction false} CallbacksEnd(cfg: Config, s: State, steps: seq<Step>)
    requires cfg.rearmFirst && Run(cfg, s, steps).Some? && forall i :: 0 <= i < |steps| ==> Callback(steps[i])
    ensures var r := Run(cfg, s, steps).value; ToDo(r) + |steps| <= ToDo(s) && r.sent == s.sent
    decreases |steps|
  {
    hide Enabled, Apply, ToDo;
    if steps != [] {
      CallbackFalls(cfg, s, steps[0]);
      CallbacksEnd(cfg, Apply(cfg, s, steps[0]), steps[1..]);
    }
  }

  /** The step an activation that has not finished can take. */
  function NextOf(s: State, a: nat): Step
    requires a < |s.acts|
  {
    if s.acts[a].Fired? then Rearm(a) else if s.acts[a].Armed? then Check(a) else Poll(a)
  }

  lemma NextEnabled(cfg: Config, s: State, a: nat)
    requires cfg.rearmFirst && a < |s.acts| && WillDrain(s.acts[a])
    ensures Enabled(cfg, s, NextOf(s, a)) && Callback(NextOf(s, a))
  {
  }

  /** Callback steps that cannot be continued have received everything that was sent, in order. */
  lemma MaximalCallbacks(cfg: Config, before: seq<Step>, steps: seq<Step>)
    requires cfg.rearmFirst && !cfg.pollFails && Run(cfg, Start([]), before).Some?
    requires var s := Run(cfg, Start([]), before).value;
             && Run(cfg, s, steps).Some?
             && forall step :: Callback(step) ==> !Enabled(cfg, Run(cfg, s, steps).value, step)
    ensures var r := Run(cfg, Run(cfg, Start([]), before).value, steps).value; r.queue == [] && r.taken == r.sent
  {
    var s := Run(cfg, Start([]), before).value;
    var r := Run(cfg, s, steps).value;
    RunInv(cfg, Start([]), before);
    RunInv(cfg, s, steps);
    hide Enabled, Callback, Run;
    if r.queue != [] {
      var a :| 0 <= a < |r.acts| && WillDrain(r.acts[a]);
      NextEnabled(cfg, r, a);
      assert false;
    }
    assert r.taken + [] == r.taken;
  }

  /** From every state the callbacks can finish, and have then received everything, in order. */
  lemma {:induction false} CallbacksReceive(cfg: Config, s: State) returns (steps: seq<Step>)
    requires cfg.rearmFirst && !cfg.pollFails && Inv(cfg, s)
    ensures Run(cfg, s, steps).Some? && forall i :: 0 <= i < |steps| ==> Callback(steps[i])
    ensures var r := Run(cfg, s, steps).value; r.queue == [] && r.taken == s.sent && r.sent == s.sent && Inv(cfg, r)
    decreases ToDo(s)
  {
    if s.queue == [] {
      steps := [];
      assert s.taken + [] == s.taken;
    } else {
      var a :| 0 <= a < |s.acts| && WillDrain(s.acts[a]);
      NextEnabled(cfg, s, a);
      var step := NextOf(s, a);
      hide Enabled, Apply, ToDo, Inv, Callback;
      CallbackFalls(cfg, s, step);
      StepInv(cfg, s, step);
      var rest := CallbacksReceive(cfg, Apply(cfg, s, step));
      steps := [step] + rest;
      assert steps[1..] == rest;
    }
  }

  lemma SendKept(cfg: Config, s: State, m: Bytes)
    requires |s.queue| < cfg.cap
    ensures Enabled(cfg, s, Send(m)) && Apply(cfg, s, Send(m)).sent == s.sent + [m]
  {
  }

  /** Whatever has happened before, a message that finds room is accepted, and the callbacks can go on to have
      received it after all earlier ones. */
  lemma SentIsReceived(cfg: Config, before: seq<Step>, m: Bytes) returns (steps: seq<Step>)
    requires cfg.rearmFirst && !cfg.pollFails && Run(cfg, Start([]), before).Some?
    requires |Run(cfg, Start([]), before).value.queue| < cfg.cap
    ensures var s := Run(cfg, Start([]), before).value;
            && Run(cfg, s, steps).Some? && Run(cfg, s, steps).value.taken == s.sent + [m]
            && steps != [] && steps[0] == Send(m) && forall i :: 0 < i < |steps| ==> Callback(steps[i])
  {
    var s := Run(cfg, Start([]), before).value;
    RunInv(cfg, Start([]), before);
    hide Enabled, Apply, Inv, Callback;
    SendKept(cfg, s, m);
    StepInv(cfg, s, Send(m));
    var rest := CallbacksReceive(cfg, Apply(cfg, s, Send(m)));
    steps := [Send(m)] + rest;
    assert steps[1..] == rest;
    forall i | 0 < i < |steps| ensures Callback(steps[i]) { assert steps[i] == rest[i - 1]; }
  }

  // ---------------------------------------------------------------- when the kernel notifies

  /** A message starts a callback if and only if it meets an empty queue, a registration, and nobody who waits for
      it; a process that waits is given the message itself, and the registration stands. */
  lemma FiresIff(cfg: Config, s: State, m: Bytes)
    requires Enabled(cfg, s, Send(m))
    ensures var s' := Apply(cfg, s, Send(m));
            && (s'.acts != s.acts <==> s.queue == [] && s.registered && s.waiters == 0)
            && (s'.acts != s.acts ==> s'.acts == s.acts + [Fired] && !s'.registered && s'.queue == [m])
            && (s'.acts == s.acts ==> s'.registered == s.registered)
            && (s.queue == [] && s.waiters > 0 ==>
                  s'.queue == [] && s'.taken == s.taken + [m] && s'.waiters == s.waiters - 1)
            && (s.queue != [] || s.waiters == 0 ==> s'.queue == s.queue + [m] && s'.taken == s.taken)
  {
    assert |s.acts + [Fired]| > |s.acts|;
    assert [] + [m] == [m];
  }

  /** A process that starts to wait on an empty queue receives the next message before any callback, and one that
      finds a message takes the oldest. */
  lemma OthersReceive(cfg: Config, s: State, m: Bytes)
    requires cfg.cap > 0
    ensures s.queue == [] ==>
              var r := Run(cfg, s, [Wait, Send(m)]);
              r.Some? && r.value == s.(sent := s.sent + [m], taken := s.taken + [m])
    ensures s.queue != [] ==>
              var r := Run(cfg, s, [OtherReceive]);
              r.Some? && r.value == s.(queue := s.queue[1..], taken := s.taken + [s.queue[0]])
  {
    if s.queue == [] {
      assert [Wait, Send(m)][1..] == [Send(m)] && [Send(m)][1..] == [];
      assert Run(cfg, Apply(cfg, s, Wait), [Send(m)]) == Some(Apply(cfg, Apply(cfg, s, Wait), Send(m)));
    } else {
      assert [OtherReceive][1..] == [];
    }
  }

  // ---------------------------------------------------------------- the opposite order

  /** If the callback processed first and registered afterwards, a message sent in between would be stranded
      although the registration stands. */
  lemma ProcessFirstStrands(cfg: Config, m: Bytes) returns (steps: seq<Step>)
    requires !cfg.rearmFirst && cfg.cap > 0
    ensures var r := Run(cfg, Start([]), steps); r.Some? && Stranded(r.value) && r.value.registered
  {
    var s0 := Start([]);
    var s1 := Apply(cfg, s0, Send(m));
    var s2 := Apply(cfg, s1, Check(0));
    var s3 := Apply(cfg, s2, Poll(0));
    var s4 := Apply(cfg, s3, Poll(0));
    var s5 := Apply(cfg, s4, Send(m));
    var s6 := Apply(cfg, s5, Rearm(0));
    var t5, t4, t3 := [Rearm(0)], [Send(m), Rearm(0)], [Poll(0), Send(m), Rearm(0)];
    var t2, t1 := [Poll(0), Poll(0), Send(m), Rearm(0)], [Check(0), Poll(0), Poll(0), Send(m), Rearm(0)];
    steps := [Send(m), Check(0), Poll(0), Poll(0), Send(m), Rearm(0)];
    assert t5[1..] == [] && t4[1..] == t5 && t3[1..] == t4 && t2[1..] == t3 && t1[1..] == t2 && steps[1..] == t1;
    assert Run(cfg, s5, t5) == Some(s6);
    assert Run(cfg, s4, t4) == Some(s6);
    assert Run(cfg, s3, t3) == Some(s6);
    assert Run(cfg, s2, t2) == Some(s6);
    assert Run(cfg, s1, t1) == Some(s6);
  }

  /** Once stranded, further sends notify nobody. */
  lemma {:induction false} StrandedStays(cfg: Config, s: State, steps: seq<Step>)
    requires Stranded(s) && forall i :: 0 <= i < |steps| ==> steps[i].Send?
    ensures var r := Run(cfg, s, steps); r.Some? ==> Stranded(r.value) && r.value.acts == s.acts
    decreases |steps|
  {
    if steps != [] && Enabled(cfg, s, steps[0]) {
      StrandedStays(cfg, Apply(cfg, s, steps[0]), steps[1..]);
    }
  }
}
