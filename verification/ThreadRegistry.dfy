/** The registry of running threads: which Thread object belongs to the calling thread, from the start of a
    thread to the end of its cleanup handler. */
module ThreadRegistry {
  import opened Bytes

  /** One run of a Thread object, between pthread_create and the reuse of its thread id. */
  datatype Phase =
    | Created             // the wrapper has not registered the thread yet
    | Executing
    | Cleaning(returned: bool)   // inside the object's Cleanup(); the handler runs for a return or a cancellation
    | Cleaned             // about to unregister
    | Exited              // unregistered; the thread id is still taken
    | Gone                // terminated; the thread id may be reused

  datatype Activation = Activation(obj: nat, tid: nat, phase: Phase, cancelled: bool, cleanups: nat)

  /** m_isActive, m_threadId and m_thread of a Thread object; m_thread names the latest activation. */
  datatype Object = Object(isActive: bool, threadId: nat, thread: Option<nat>)

  /** `system` is the operating system's table of thread ids in use; `eraseFailed` records that the handler's
      assertion on the erase count did not hold. */
  datatype State = State(objs: seq<Object>, acts: seq<Activation>, system: map<nat, nat>, threadMap: map<nat, nat>,
                         eraseFailed: bool)

  datatype Step =
    | Start(o: nat, tid: nat)
    | Register(a: nat)
    | Cancel(o: nat)
    | CancellationPoint(a: nat)
    | Return(a: nat)
    | CleanupReturns(a: nat)
    | CutShort(a: nat)
    | Unregister(a: nat)
    | Terminate(a: nat)

  predicate InitState(s: State) {
    && s.acts == [] && s.system == map[] && s.threadMap == map[] && !s.eraseFailed
    && forall o :: 0 <= o < |s.objs| ==> s.objs[o] == Object(false, 0, None)
  }

  predicate At(s: State, a: nat, phase: Phase) {
    a < |s.acts| && s.acts[a].phase == phase && s.acts[a].obj < |s.objs|
  }

  /** `oneController`: no two threads call Start on one object at the same time, so that its check and its
      set of m_isActive are one step. Without it a second Start may have passed the check already.
      `cancelInCleanup`: an object's Cleanup() may contain a cancellation point. When it runs after a normal return
      the handler is no longer registered, and a cancellation there ends the thread without the rest of it. */
  datatype Config = Config(oneController: bool, cancelInCleanup: bool)

  predicate Enabled(cfg: Config, s: State, step: Step) {
    match step
    case Start(o, tid) => o < |s.objs| && tid != 0 && tid !in s.system && (cfg.oneController ==> !s.objs[o].isActive)
    case Register(a) => At(s, a, Created)
    case Cancel(o) => o < |s.objs| && s.objs[o].thread.Some? && s.objs[o].thread.value < |s.acts|
    case CancellationPoint(a) => At(s, a, Executing) && s.acts[a].cancelled
    case Return(a) => At(s, a, Executing)
    case CleanupReturns(a) => At(s, a, Cleaning(true)) || At(s, a, Cleaning(false))
    case CutShort(a) => cfg.cancelInCleanup && At(s, a, Cleaning(true)) && s.acts[a].cancelled
    case Unregister(a) => At(s, a, Cleaned)
    case Terminate(a) => At(s, a, Exited)
  }

  function Move(s: State, a: nat, phase: Phase): State
    requires a < |s.acts|
  {
    s.(acts := s.acts[a := s.acts[a].(phase := phase)])
  }

  function Apply(cfg: Config, s: State, step: Step): State
    requires Enabled(cfg, s, step)
  {
    match step
    case Start(o, tid) =>
      s.(objs := s.objs[o := Object(true, s.objs[o].threadId, Some(|s.acts|))],
         acts := s.acts + [Activation(o, tid, Created, false, 0)],
         system := s.system[tid := |s.acts|])
    case Register(a) =>
      var act := s.acts[a];
      Move(s, a, Executing).(
        // std::map::insert
        threadMap := if act.tid in s.threadMap then s.threadMap else s.threadMap[act.tid := act.obj],
        objs := s.objs[act.obj := s.objs[act.obj].(isActive := true, threadId := act.tid)])
    case Cancel(o) =>
      var a := s.objs[o].thread.value;
      s.(acts := s.acts[a := s.acts[a].(cancelled := true)])
    case CancellationPoint(a) => Move(s, a, Cleaning(false))
    case Return(a) => Move(s, a, Cleaning(true))
    case CleanupReturns(a) => s.(acts := s.acts[a := s.acts[a].(phase := Cleaned, cleanups := s.acts[a].cleanups + 1)])
    case CutShort(a) => Move(s, a, Exited)
    case Unregister(a) =>
      // the key erased is what the object's m_threadId holds
      var o := s.acts[a].obj;
      var tid := s.objs[o].threadId;
      Move(s, a, Exited).(
        eraseFailed := s.eraseFailed || tid !in s.threadMap,
        threadMap := s.threadMap - {tid},
        objs := s.objs[o := s.objs[o].(isActive := false, threadId := 0)])
    case Terminate(a) => Move(s, a, Gone).(system := s.system - {s.acts[a].tid})
  }

  function Run(cfg: Config, s: State, steps: seq<Step>): Option<State>
    decreases |steps|
  {
    if steps == [] then Some(s)
    else if Enabled(cfg, s, steps[0]) then Run(cfg, Apply(cfg, s, steps[0]), steps[1..])
    else None
  }

  /** Thread::CurrentThread() called by a thread with this id. */
  function CurrentThread(s: State, tid: nat): Option<nat> {
    if tid in s.threadMap then Some(s.threadMap[tid]) else None
  }

  predicate Registered(act: Activation) { act.phase.Executing? || act.phase.Cleaning? || act.phase.Cleaned? }

  predicate Live(act: Activation) { act.phase.Created? || Registered(act) }

  /** A thread id in use belongs to one activation. */
  ghost predicate Ids(s: State) {
    forall a :: 0 <= a < |s.acts| ==>
      && s.acts[a].obj < |s.objs| && s.acts[a].tid != 0
      && (s.acts[a].phase != Gone ==> s.acts[a].tid in s.system && s.system[s.acts[a].tid] == a)
  }

  /** Registered threads are in the map, and an object that an activation lives for is active and knows it. */
  ghost predicate Known(s: State) {
    && (forall a :: 0 <= a < |s.acts| && Registered(s.acts[a]) ==>
          && s.acts[a].tid in s.threadMap
          && s.acts[a].obj < |s.objs| && s.objs[s.acts[a].obj].threadId == s.acts[a].tid)
    && (forall a :: 0 <= a < |s.acts| && Live(s.acts[a]) ==>
          s.acts[a].obj < |s.objs| && s.objs[s.acts[a].obj].thread == Some(a) && s.objs[s.acts[a].obj].isActive)
  }

  /** The map holds nothing else, and each thread with its own object. */
  ghost predicate MapExact(s: State) {
    forall k :: k in s.threadMap ==>
      && k in s.system && s.system[k] < |s.acts| && Registered(s.acts[s.system[k]])
      && s.acts[s.system[k]].tid == k && s.threadMap[k] == s.acts[s.system[k]].obj
  }

  /** No object is active without an activation that lives. */
  ghost predicate ActiveLives(s: State) {
    forall o :: 0 <= o < |s.objs| && s.objs[o].isActive ==>
      && s.objs[o].thread.Some? && s.objs[o].thread.value < |s.acts|
      && Live(s.acts[s.objs[o].thread.value]) && s.acts[s.objs[o].thread.value].obj == o
  }

  /** Each activation cleans up exactly once. */
  ghost predicate CleanedOnce(s: State) {
    forall a :: 0 <= a < |s.acts| ==>
      s.acts[a].cleanups == if s.acts[a].phase in {Cleaned, Exited, Gone} then 1 else 0
  }

  /** What holds unless a cancellation cuts a cleanup short. */
  ghost predicate Orderly(s: State) { MapExact(s) && ActiveLives(s) && CleanedOnce(s) }

  ghost predicate Inv(cfg: Config, s: State) {
    Ids(s) && Known(s) && !s.eraseFailed && (!cfg.cancelInCleanup ==> Orderly(s))
  }

  lemma IdsStep(cfg: Config, s: State, step: Step)
    requires cfg.oneController && Ids(s) && Enabled(cfg, s, step)
    ensures Ids(Apply(cfg, s, step))
  {
  }

  lemma CleanedStep(cfg: Config, s: State, step: Step)
    requires CleanedOnce(s) && Enabled(cfg, s, step) && !step.CutShort?
    ensures CleanedOnce(Apply(cfg, s, step))
  {
  }

  /** What the handler erases is in the map. */
  lemma EraseHits(cfg: Config, s: State, step: Step)
    requires Known(s) && !s.eraseFailed && Enabled(cfg, s, step)
    ensures !Apply(cfg, s, step).eraseFailed
  {
  }

  /** Steps that change one activation and neither the map nor the objects. */
  predicate Quiet(step: Step) { !step.Start? && !step.Register? && !step.Unregister? }

  function Moved(cfg: Config, s: State, step: Step): nat
    requires Enabled(cfg, s, step) && Quiet(step)
  {
    match step
    case Cancel(o) => s.objs[o].thread.value
    case CancellationPoint(a) => a
    case Return(a) => a
    case CleanupReturns(a) => a
    case CutShort(a) => a
    case Terminate(a) => a
  }

  /** Such a step makes no activation live or registered that was not. */
  lemma QuietEffect(cfg: Config, s: State, step: Step)
    requires Enabled(cfg, s, step) && Quiet(step)
    ensures var a, s' := Moved(cfg, s, step), Apply(cfg, s, step);
            && a < |s.acts| && |s'.acts| == |s.acts| && s' == s.(acts := s.acts[a := s'.acts[a]], system := s'.system)
            && s'.acts[a].obj == s.acts[a].obj && s'.acts[a].tid == s.acts[a].tid
            && (Live(s'.acts[a]) ==> Live(s.acts[a])) && (Registered(s'.acts[a]) ==> Registered(s.acts[a]))
            && (!step.CutShort? && Live(s.acts[a]) ==> Live(s'.acts[a]))
            && (!step.CutShort? && Registered(s.acts[a]) ==> Registered(s'.acts[a]))
            && (step.Terminate? ==> s'.system == s.system - {s.acts[a].tid} && s.acts[a].phase == Exited)
            && (!step.Terminate? ==> s'.system == s.system)
  {
  }

  lemma QuietKnown(cfg: Config, s: State, step: Step)
    requires Known(s) && Enabled(cfg, s, step) && Quiet(step)
    ensures Known(Apply(cfg, s, step))
  {
    hide Live, Registered, Apply;
    QuietEffect(cfg, s, step);
  }

  lemma QuietMap(cfg: Config, s: State, step: Step)
    requires Ids(s) && MapExact(s) && Enabled(cfg, s, step) && Quiet(step) && !step.CutShort?
    ensures MapExact(Apply(cfg, s, step))
  {
    QuietEffect(cfg, s, step);
    hide Live, Apply, Enabled;
  }

  lemma QuietActive(cfg: Config, s: State, step: Step)
    requires ActiveLives(s) && Enabled(cfg, s, step) && Quiet(step) && !step.CutShort?
    ensures ActiveLives(Apply(cfg, s, step))
  {
    QuietEffect(cfg, s, step);
    hide Live, Registered, Apply, Enabled;
  }

  lemma StartKnown(cfg: Config, s: State, o: nat, tid: nat)
    requires cfg.oneController && Known(s) && Enabled(cfg, s, Start(o, tid))
    ensures Known(Apply(cfg, s, Start(o, tid)))
    ensures ActiveLives(s) ==> ActiveLives(Apply(cfg, s, Start(o, tid)))
  {
  }

  lemma RegisterKnown(cfg: Config, s: State, a: nat)
    requires Known(s) && Enabled(cfg, s, Register(a))
    ensures Known(Apply(cfg, s, Register(a)))
    ensures ActiveLives(s) ==> ActiveLives(Apply(cfg, s, Register(a)))
  {
  }

  lemma UnregisterKnown(cfg: Config, s: State, a: nat)
    requires Ids(s) && Known(s) && Enabled(cfg, s, Unregister(a))
    ensures Known(Apply(cfg, s, Unregister(a)))
    ensures ActiveLives(s) ==> ActiveLives(Apply(cfg, s, Unregister(a)))
  {
  }

  lemma BusyMap(cfg: Config, s: State, step: Step)
    requires Ids(s) && Known(s) && MapExact(s) && Enabled(cfg, s, step) && !Quiet(step)
    ensures MapExact(Apply(cfg, s, step))
  {
  }

  lemma KnownStep(cfg: Config, s: State, step: Step)
    requires cfg.oneController && Ids(s) && Known(s) && Enabled(cfg, s, step)
    ensures Known(Apply(cfg, s, step))
    ensures ActiveLives(s) && !step.CutShort? ==> ActiveLives(Apply(cfg, s, step))
  {
    hide Ids, Known, ActiveLives, Enabled, Apply;
    match step
    case Start(o, tid) => StartKnown(cfg, s, o, tid);
    case Register(a) => RegisterKnown(cfg, s, a);
    case Unregister(a) => UnregisterKnown(cfg, s, a);
    case _ =>
      QuietKnown(cfg, s, step);
      if ActiveLives(s) && !step.CutShort? { QuietActive(cfg, s, step); }
  }

  lemma OrderlyStep(cfg: Config, s: State, step: Step)
    requires cfg.oneController && Ids(s) && Known(s) && Orderly(s) && Enabled(cfg, s, step) && !step.CutShort?
    ensures Orderly(Apply(cfg, s, step))
  {
    hide Ids, Known, MapExact, ActiveLives, CleanedOnce, Enabled, Apply;
    KnownStep(cfg, s, step);
    CleanedStep(cfg, s, step);
    if Quiet(step) { QuietMap(cfg, s, step); } else { BusyMap(cfg, s, step); }
  }

  lemma NotCutShort(cfg: Config, s: State, step: Step)
    requires !cfg.cancelInCleanup && Enabled(cfg, s, step)
    ensures !step.CutShort?
  {
  }

  lemma StepInv(cfg: Config, s: State, step: Step)
    requires cfg.oneController && Inv(cfg, s) && Enabled(cfg, s, step)
    ensures Inv(cfg, Apply(cfg, s, step))
  {
    hide Ids, Known, Orderly, Enabled, Apply;
    IdsStep(cfg, s, step);
    EraseHits(cfg, s, step);
    KnownStep(cfg, s, step);
    if !cfg.cancelInCleanup {
      NotCutShort(cfg, s, step);
      OrderlyStep(cfg, s, step);
    }
  }

  lemma {:induction false} RunInv(cfg: Config, s: State, steps: seq<Step>)
    requires cfg.oneController && Inv(cfg, s)
    ensures var r := Run(cfg, s, steps); r.Some? ==> Inv(cfg, r.value)
    decreases |steps|
  {
    hide Inv, Enabled, Apply;
    if steps != [] && Enabled(cfg, s, steps[0]) {
      StepInv(cfg, s, steps[0]);
      RunInv(cfg, Apply(cfg, s, steps[0]), steps[1..]);
    }
  }

  /** A thread that executes or cleans up is given its own Thread object, one that is not registered is given
      none, the erase assertion holds, and every activation that reached its end has cleaned up exactly once. */
  ghost predicate Exact(s: State) {
    && (forall a :: 0 <= a < |s.acts| && Registered(s.acts[a]) ==>
          CurrentThread(s, s.acts[a].tid) == Some(s.acts[a].obj))
    && (forall a :: 0 <= a < |s.acts| && (s.acts[a].phase == Created || s.acts[a].phase == Exited) ==>
          CurrentThread(s, s.acts[a].tid) == None)
    && !s.eraseFailed
    && (forall a :: 0 <= a < |s.acts| && s.acts[a].phase in {Cleaned, Exited, Gone} ==> s.acts[a].cleanups == 1)
  }

  lemma RegistryExact(cfg: Config, s0: State, steps: seq<Step>)
    requires cfg.oneController && !cfg.cancelInCleanup && InitState(s0) && Run(cfg, s0, steps).Some?
    ensures Exact(Run(cfg, s0, steps).value)
  {
    RunInv(cfg, s0, steps);
  }

  /** An object is active exactly while one of its activations is between Start and the end of its cleanup
      handler, and then only one is. */
  lemma ActiveExact(cfg: Config, s0: State, steps: seq<Step>, o: nat)
    requires cfg.oneController && !cfg.cancelInCleanup && InitState(s0) && Run(cfg, s0, steps).Some?
    ensures var s := Run(cfg, s0, steps).value;
            o < |s.objs| ==>
              && (s.objs[o].isActive <==> exists a :: 0 <= a < |s.acts| && Live(s.acts[a]) && s.acts[a].obj == o)
              && (forall a, b :: 0 <= a < b < |s.acts| && Live(s.acts[a]) && Live(s.acts[b]) ==>
                    !(s.acts[a].obj == o && s.acts[b].obj == o))
  {
    RunInv(cfg, s0, steps);
  }

  // ---------------------------------------------------------------- what Cancel reaches

  /** m_thread names the latest activation of its object. */
  ghost predicate Latest(s: State) {
    forall o :: 0 <= o < |s.objs| ==>
      match s.objs[o].thread
      case None => forall b :: 0 <= b < |s.acts| ==> s.acts[b].obj != o
      case Some(a) => a < |s.acts| && s.acts[a].obj == o && forall b :: a < b < |s.acts| ==> s.acts[b].obj != o
  }

  lemma LatestStep(cfg: Config, s: State, step: Step)
    requires Latest(s) && Enabled(cfg, s, step)
    ensures Latest(Apply(cfg, s, step))
  {
    if Quiet(step) {
      QuietEffect(cfg, s, step);
      hide Apply, Enabled, Live, Registered;
    }
  }

  lemma {:induction false} LatestRun(cfg: Config, s: State, steps: seq<Step>)
    requires Latest(s)
    ensures var r := Run(cfg, s, steps); r.Some? ==> Latest(r.value)
    decreases |steps|
  {
    hide Latest, Enabled, Apply;
    if steps != [] && Enabled(cfg, s, steps[0]) {
      LatestStep(cfg, s, steps[0]);
      LatestRun(cfg, Apply(cfg, s, steps[0]), steps[1..]);
    }
  }

  /** Cancel can be called as soon as the object has been started, and requests the cancellation of the object's
      latest activation and of nothing else; with one controller no other one of its activations lives. */
  lemma CancelsTheLatest(cfg: Config, s0: State, before: seq<Step>, o: nat)
    requires InitState(s0) && Run(cfg, s0, before).Some?
    requires var s := Run(cfg, s0, before).value;
             o < |s.objs| && exists b :: 0 <= b < |s.acts| && s.acts[b].obj == o
    ensures var s := Run(cfg, s0, before).value;
            && Enabled(cfg, s, Cancel(o))
            && var s' := Apply(cfg, s, Cancel(o));
            && s' == s.(acts := s'.acts) && |s'.acts| == |s.acts|
            && (forall b :: 0 <= b < |s.acts| ==>
                  var latest := s.acts[b].obj == o && forall c :: b < c < |s.acts| ==> s.acts[c].obj != o;
                  s'.acts[b] == if latest then s.acts[b].(cancelled := true) else s.acts[b])
            && (cfg.oneController ==> forall b :: 0 <= b < |s.acts| && s.acts[b].obj == o && Live(s.acts[b]) ==>
                                        s'.acts[b].cancelled)
  {
    LatestRun(cfg, s0, before);
    if cfg.oneController { RunInv(cfg, s0, before); }
    hide Run;
  }

  // ---------------------------------------------------------------- a whole life

  lemma RunNil(cfg: Config, s: State)
    ensures Run(cfg, s, []) == Some(s)
  {
  }

  lemma RunCons(cfg: Config, s: State, step: Step, last: State, steps: seq<Step>)
    requires Enabled(cfg, s, step) && Run(cfg, Apply(cfg, s, step), steps) == Some(last)
    ensures Run(cfg, s, [step] + steps) == Some(last)
  {
    assert ([step] + steps)[1..] == steps;
  }

  /** From Execute to the end of the thread, by return or by an accepted cancellation. */
  lemma Cleans(cfg: Config, s: State, o: nat, n: nat, tid: nat, cancel: bool) returns (end: State, steps: seq<Step>)
    requires n < |s.acts| && s.acts[n] == Activation(o, tid, Executing, cancel, 0)
    requires o < |s.objs| && s.objs[o].threadId == tid && tid in s.threadMap
    ensures Run(cfg, s, steps) == Some(end)
    ensures end == State(s.objs[o := Object(false, 0, s.objs[o].thread)],
                         s.acts[n := Activation(o, tid, Gone, cancel, 1)],
                         s.system - {tid}, s.threadMap - {tid}, s.eraseFailed)
  {
    hide Run;
    var leave := if cancel then CancellationPoint(n) else Return(n);
    var s1 := Apply(cfg, s, leave);
    var s2 := Apply(cfg, s1, CleanupReturns(n));
    var s3 := Apply(cfg, s2, Unregister(n));
    end := Apply(cfg, s3, Terminate(n));
    RunNil(cfg, end);
    RunCons(cfg, s3, Terminate(n), end, []);
    RunCons(cfg, s2, Unregister(n), end, [Terminate(n)] + []);
    RunCons(cfg, s1, CleanupReturns(n), end, [Unregister(n)] + ([Terminate(n)] + []));
    steps := [CleanupReturns(n)] + ([Unregister(n)] + ([Terminate(n)] + []));
    RunCons(cfg, s, leave, end, steps);
    steps := [leave] + steps;
    assert end.acts == s.acts[n := Activation(o, tid, Gone, cancel, 1)];
  }

  /** An object that is not active can be started with any thread id not in use. Its thread then runs as this
      object, returns or is cancelled, cleans up once, and leaves everything as before but for its own record. */
  lemma WholeLife(cfg: Config, s: State, o: nat, tid: nat, cancel: bool)
    returns (running: State, first: seq<Step>, later: seq<Step>)
    requires Inv(cfg, s) && !cfg.cancelInCleanup && o < |s.objs| && !s.objs[o].isActive && tid != 0 && tid !in s.system
    ensures Run(cfg, s, first) == Some(running) && |running.acts| == |s.acts| + 1
    ensures running.acts[|s.acts|] == Activation(o, tid, Executing, false, 0) && CurrentThread(running, tid) == Some(o)
    ensures Run(cfg, running, later)
            == Some(s.(acts := s.acts + [Activation(o, tid, Gone, cancel, 1)],
                       objs := s.objs[o := Object(false, 0, Some(|s.acts|))]))
  {
    hide Run;
    var n := |s.acts|;
    assert tid !in s.threadMap;
    var s1 := Apply(cfg, s, Start(o, tid));
    running := Apply(cfg, s1, Register(n));
    RunNil(cfg, running);
    RunCons(cfg, s1, Register(n), running, []);
    first := [Start(o, tid)] + ([Register(n)] + []);
    RunCons(cfg, s, Start(o, tid), running, [Register(n)] + []);
    var end, rest := Cleans(cfg, if cancel then Apply(cfg, running, Cancel(o)) else running, o, n, tid, cancel);
    if cancel {
      RunCons(cfg, running, Cancel(o), end, rest);
      later := [Cancel(o)] + rest;
    } else {
      later := rest;
    }
    assert end.acts == s.acts + [Activation(o, tid, Gone, cancel, 1)];
    assert end.objs == s.objs[o := Object(false, 0, Some(n))];
    assert end.system == s.system && end.threadMap == s.threadMap;
  }

  // ---------------------------------------------------------------- when it fails

  /** Two activations of one object: the first to finish erases the second one's entry. */
  lemma SecondErase(cfg: Config, s: State, t1: nat, t2: nat) returns (steps: seq<Step>, last: State)
    requires |s.objs| > 0 && s.objs[0].threadId == t2 && t1 != 0 && t2 != 0 && t1 != t2
    requires s.acts == [Activation(0, t1, Executing, false, 0), Activation(0, t2, Executing, false, 0)]
    requires s.threadMap == map[t1 := 0, t2 := 0]
    ensures Run(cfg, s, steps) == Some(last) && last.eraseFailed
  {
    hide Run;
    var s5 := Apply(cfg, s, Return(0));
    var s6 := Apply(cfg, s5, CleanupReturns(0));
    var s7 := Apply(cfg, s6, Unregister(0));
    assert CurrentThread(s7, t2) == None && s7.acts[1].phase == Executing;
    var s8 := Apply(cfg, s7, Return(1));
    var s9 := Apply(cfg, s8, CleanupReturns(1));
    last := Apply(cfg, s9, Unregister(1));
    RunNil(cfg, last);
    RunCons(cfg, s9, Unregister(1), last, []);
    RunCons(cfg, s8, CleanupReturns(1), last, [Unregister(1)] + []);
    RunCons(cfg, s7, Return(1), last, [CleanupReturns(1)] + ([Unregister(1)] + []));
    RunCons(cfg, s6, Unregister(0), last, [Return(1)] + ([CleanupReturns(1)] + ([Unregister(1)] + [])));
    steps := [Unregister(0)] + ([Return(1)] + ([CleanupReturns(1)] + ([Unregister(1)] + [])));
    RunCons(cfg, s5, CleanupReturns(0), last, steps);
    RunCons(cfg, s, Return(0), last, [CleanupReturns(0)] + steps);
    steps := [Return(0)] + ([CleanupReturns(0)] + steps);
  }

  /** Two controllers that both pass Start's check before either sets m_isActive run one object twice; then a
      thread that still executes loses its registration, and its own erase assertion fails. */
  lemma RacingStarts(cfg: Config, s0: State, t1: nat, t2: nat) returns (steps: seq<Step>)
    requires !cfg.oneController && InitState(s0) && |s0.objs| > 0 && t1 != 0 && t2 != 0 && t1 != t2
    ensures var r := Run(cfg, s0, steps); r.Some? && r.value.eraseFailed
  {
    hide Run;
    var s1 := Apply(cfg, s0, Start(0, t1));
    var s2 := Apply(cfg, s1, Start(0, t2));
    var s3 := Apply(cfg, s2, Register(0));
    var s4 := Apply(cfg, s3, Register(1));
    var later, s := SecondErase(cfg, s4, t1, t2);
    RunCons(cfg, s3, Register(1), s, later);
    RunCons(cfg, s2, Register(0), s, [Register(1)] + later);
    RunCons(cfg, s1, Start(0, t2), s, [Register(0)] + ([Register(1)] + later));
    RunCons(cfg, s0, Start(0, t1), s, [Start(0, t2)] + ([Register(0)] + ([Register(1)] + later)));
    steps := [Start(0, t1)] + ([Start(0, t2)] + ([Register(0)] + ([Register(1)] + later)));
  }

  /** A thread cancelled inside Cleanup() after a normal return ends without leaving the map. */
  lemma CutShortStays(cfg: Config, s0: State, tid: nat) returns (steps: seq<Step>, s: State)
    requires cfg.cancelInCleanup && InitState(s0) && |s0.objs| > 0 && tid != 0
    ensures Run(cfg, s0, steps) == Some(s) && |s.objs| == |s0.objs| && s.objs[1..] == s0.objs[1..]
    ensures s.acts == [Activation(0, tid, Exited, true, 0)] && s.threadMap == map[tid := 0] && s.system == map[tid := 0]
  {
    hide Run;
    var s1 := Apply(cfg, s0, Start(0, tid));
    var s2 := Apply(cfg, s1, Register(0));
    var s3 := Apply(cfg, s2, Cancel(0));
    var s4 := Apply(cfg, s3, Return(0));
    s := Apply(cfg, s4, CutShort(0));
    RunNil(cfg, s);
    RunCons(cfg, s4, CutShort(0), s, []);
    RunCons(cfg, s3, Return(0), s, [CutShort(0)] + []);
    RunCons(cfg, s2, Cancel(0), s, [Return(0)] + ([CutShort(0)] + []));
    steps := [Cancel(0)] + ([Return(0)] + ([CutShort(0)] + []));
    RunCons(cfg, s1, Register(0), s, steps);
    steps := [Register(0)] + steps;
    RunCons(cfg, s0, Start(0, tid), s, steps);
    steps := [Start(0, tid)] + steps;
  }

  lemma {:induction false} RunAppend(cfg: Config, s: State, first: seq<Step>, second: seq<Step>)
    requires Run(cfg, s, first).Some?
    ensures Run(cfg, s, first + second) == Run(cfg, Run(cfg, s, first).value, second)
    decreases |first|
  {
    hide Enabled, Apply;
    if first == [] {
      assert first + second == second;
    } else {
      assert (first + second)[1..] == first[1..] + second;
      RunAppend(cfg, Apply(cfg, s, first[0]), first[1..], second);
    }
  }

  /** A later thread of another object that is given the same thread id is then taken for the dead one's object. */
  lemma StaleEntry(cfg: Config, s0: State, tid: nat) returns (steps: seq<Step>)
    requires cfg.cancelInCleanup && InitState(s0) && |s0.objs| > 1 && tid != 0
    ensures var r := Run(cfg, s0, steps);
            && r.Some? && |r.value.acts| == 2 && r.value.acts[1] == Activation(1, tid, Executing, false, 0)
            && CurrentThread(r.value, tid) == Some(0)
  {
    hide Run;
    var first, s := CutShortStays(cfg, s0, tid);
    assert s.objs[1] == s.objs[1..][0] == s0.objs[1];
    var s1 := Apply(cfg, s, Terminate(0));
    var s2 := Apply(cfg, s1, Start(1, tid));
    var s3 := Apply(cfg, s2, Register(1));
    RunNil(cfg, s3);
    RunCons(cfg, s2, Register(1), s3, []);
    RunCons(cfg, s1, Start(1, tid), s3, [Register(1)] + []);
    var second := [Terminate(0)] + ([Start(1, tid)] + ([Register(1)] + []));
    RunCons(cfg, s, Terminate(0), s3, [Start(1, tid)] + ([Register(1)] + []));
    RunAppend(cfg, s0, first, second);
    steps := first + second;
  }

  /** The erase assertion holds in every run if and only if each object has one controller, cancelled cleanups or
      not. */
  lemma EraseHoldsIff(cfg: Config, s0: State)
    requires InitState(s0) && |s0.objs| > 0
    ensures (forall steps {:trigger Run(cfg, s0, steps)} ::
               Run(cfg, s0, steps).Some? ==> !Run(cfg, s0, steps).value.eraseFailed)
            <==> cfg.oneController
  {
    if cfg.oneController {
      forall steps | Run(cfg, s0, steps).Some? ensures !Run(cfg, s0, steps).value.eraseFailed {
        RunInv(cfg, s0, steps);
      }
    } else {
      var steps := RacingStarts(cfg, s0, 1, 2);
      assert Run(cfg, s0, steps).Some?;
    }
  }

  /** The registry is exact in every run if and only if each object has one controller and no cancellation can
      land inside a Cleanup(). */
  lemma RegistryExactIff(cfg: Config, s0: State)
    requires InitState(s0) && |s0.objs| > 0
    ensures (forall steps {:trigger Run(cfg, s0, steps)} ::
               Run(cfg, s0, steps).Some? ==> Exact(Run(cfg, s0, steps).value))
            <==> cfg.oneController && !cfg.cancelInCleanup
  {
    hide Run;
    if cfg.oneController && !cfg.cancelInCleanup {
      forall steps | Run(cfg, s0, steps).Some? ensures Exact(Run(cfg, s0, steps).value) {
        RegistryExact(cfg, s0, steps);
      }
    } else if cfg.cancelInCleanup {
      var steps, s := CutShortStays(cfg, s0, 1);
      assert s.acts[0].phase == Exited && !Exact(Run(cfg, s0, steps).value);
    } else {
      var steps := RacingStarts(cfg, s0, 1, 2);
      assert !Exact(Run(cfg, s0, steps).value);
    }
  }
}
