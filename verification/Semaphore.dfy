/** The named semaphore used as a lock: Wait, and a Post that reads the value before it decides to post. */
module Semaphores {
  import opened Bytes

  datatype Process =
    | Outside
    | Inside                 // returned from Wait
    | HasRead(value: nat)    // inside Post, between sem_getvalue and the decision to post

  datatype State = State(value: nat, procs: seq<Process>)

  datatype Step = Wait(p: nat) | GetValue(p: nat) | MaybePost(p: nat)

  /** The owner creates the semaphore with value 1. */
  predicate InitState(s: State) {
    s.value == 1 && forall p :: 0 <= p < |s.procs| ==> s.procs[p] == Outside
  }

  /** `paired`: every process calls Wait and Post alternately, as SharedLock does. */
  predicate Enabled(paired: bool, s: State, step: Step) {
    match step
    case Wait(p) => p < |s.procs| && s.value > 0 && (s.procs[p] == Outside || (!paired && s.procs[p] == Inside))
    case GetValue(p) => p < |s.procs| && (s.procs[p] == Inside || (!paired && s.procs[p] == Outside))
    case MaybePost(p) => p < |s.procs| && s.procs[p].HasRead?
  }

  function Apply(paired: bool, s: State, step: Step): State
    requires Enabled(paired, s, step)
  {
    match step
    case Wait(p) => State(s.value - 1, s.procs[p := Inside])
    case GetValue(p) => State(s.value, s.procs[p := HasRead(s.value)])
    case MaybePost(p) => State(if s.procs[p].value < 1 then s.value + 1 else s.value, s.procs[p := Outside])
  }

  function Run(paired: bool, s: State, steps: seq<Step>): Option<State>
    decreases |steps|
  {
    if steps == [] then Some(s)
    else if Enabled(paired, s, steps[0]) then Run(paired, Apply(paired, s, steps[0]), steps[1..])
    else None
  }

  function Weight(p: Process, pending: bool): nat {
    if pending then (if p.HasRead? && p.value < 1 then 1 else 0) else (if p.Outside? then 0 else 1)
  }

  /** How many processes are in one of the two sections counted: from Wait until the post step, or, for
      `pending`, those that will post. */
  function Count(procs: seq<Process>, pending: bool): nat {
    if procs == [] then 0 else Weight(procs[0], pending) + Count(procs[1..], pending)
  }

  lemma {:induction false} CountUpdate(procs: seq<Process>, i: nat, p: Process, pending: bool)
    requires i < |procs|
    ensures Count(procs[i := p], pending) == Count(procs, pending) - Weight(procs[i], pending) + Weight(p, pending)
    ensures Weight(procs[i], pending) <= Count(procs, pending) <= |procs|
  {
    if i == 0 {
      assert procs[i := p][1..] == procs[1..];
      if procs[1..] != [] { CountUpdate(procs[1..], 0, p, pending); }
    } else {
      assert procs[i := p][1..] == procs[1..][i - 1 := p];
      CountUpdate(procs[1..], i - 1, p, pending);
    }
  }

  lemma {:induction false} CountTwo(procs: seq<Process>, i: nat, j: nat)
    requires i < j < |procs| && !procs[i].Outside? && !procs[j].Outside?
    ensures Count(procs, false) >= 2
  {
    if i == 0 {
      CountUpdate(procs[1..], j - 1, Outside, false);
    } else {
      CountTwo(procs[1..], i - 1, j - 1);
    }
  }

  lemma {:induction false} CountNone(procs: seq<Process>, pending: bool)
    requires forall p :: 0 <= p < |procs| ==> procs[p] == Outside
    ensures Count(procs, pending) == 0
  {
    if procs != [] { CountNone(procs[1..], pending); }
  }

  /** The permit is either free or with one holder, and a holder that reads the value reads 0. */
  ghost predicate LockInv(s: State) {
    && s.value + Count(s.procs, false) == 1
    && forall p :: 0 <= p < |s.procs| && s.procs[p].HasRead? ==> s.procs[p].value == 0
  }

  ghost predicate BoundInv(s: State) {
    s.value + Count(s.procs, true) <= if |s.procs| > 1 then |s.procs| else 1
  }

  lemma LockStep(s: State, step: Step)
    requires LockInv(s) && Enabled(true, s, step)
    ensures LockInv(Apply(true, s, step))
  {
    CountUpdate(s.procs, step.p, Apply(true, s, step).procs[step.p], false);
  }

  lemma BoundStep(s: State, step: Step)
    requires BoundInv(s) && Enabled(false, s, step)
    ensures BoundInv(Apply(false, s, step)) && |Apply(false, s, step).procs| == |s.procs|
  {
    var s' := Apply(false, s, step);
    CountUpdate(s.procs, step.p, s'.procs[step.p], true);
    CountUpdate(s'.procs, step.p, s'.procs[step.p], true);
  }

  lemma {:induction false} LockRun(s: State, steps: seq<Step>)
    requires LockInv(s)
    ensures var r := Run(true, s, steps); r.Some? ==> LockInv(r.value)
    decreases |steps|
  {
    hide Enabled, Apply, LockInv;
    if steps != [] && Enabled(true, s, steps[0]) {
      LockStep(s, steps[0]);
      LockRun(Apply(true, s, steps[0]), steps[1..]);
    }
  }

  lemma {:induction false} BoundRun(s: State, steps: seq<Step>)
    requires BoundInv(s)
    ensures var r := Run(false, s, steps); r.Some? ==> BoundInv(r.value) && |r.value.procs| == |s.procs|
    decreases |steps|
  {
    hide Enabled, Apply, BoundInv;
    if steps != [] && Enabled(false, s, steps[0]) {
      BoundStep(s, steps[0]);
      BoundRun(Apply(false, s, steps[0]), steps[1..]);
    }
  }

  /** With Wait and Post paired, the value plus the number of holders is 1 in every reachable state, no two
      processes hold the lock, and the value check inside Post never keeps a holder from posting. */
  lemma LockBySemaphore(s0: State, steps: seq<Step>)
    requires InitState(s0) && Run(true, s0, steps).Some?
    ensures var s := Run(true, s0, steps).value;
            && s.value + Count(s.procs, false) == 1
            && (forall i, j :: 0 <= i < j < |s.procs| ==> s.procs[i].Outside? || s.procs[j].Outside?)
            && (forall p :: 0 <= p < |s.procs| && s.procs[p].HasRead? ==>
                  Apply(true, s, MaybePost(p)).value == s.value + 1)
  {
    CountNone(s0.procs, false);
    LockRun(s0, steps);
    var s := Run(true, s0, steps).value;
    forall i, j | 0 <= i < j < |s.procs| ensures s.procs[i].Outside? || s.procs[j].Outside? {
      if !s.procs[i].Outside? && !s.procs[j].Outside? { CountTwo(s.procs, i, j); }
    }
  }

  /** Somebody holds a lock that is not free. */
  lemma {:induction false} Holder(procs: seq<Process>) returns (h: nat)
    requires Count(procs, false) > 0
    ensures h < |procs| && !procs[h].Outside?
  {
    if !procs[0].Outside? { h := 0; } else { var k := Holder(procs[1..]); h := k + 1; }
  }

  lemma RunAfter(paired: bool, s: State, step: Step, steps: seq<Step>)
    requires Enabled(paired, s, step)
    ensures Run(paired, s, [step] + steps) == Run(paired, Apply(paired, s, step), steps)
  {
    assert ([step] + steps)[1..] == steps;
  }

  /** A holder can give the lock back: its Post reads 0 and posts. */
  lemma Releases(s: State, h: nat) returns (steps: seq<Step>)
    requires LockInv(s) && h < |s.procs| && !s.procs[h].Outside?
    ensures Run(true, s, steps) == Some(State(1, s.procs[h := Outside]))
  {
    CountUpdate(s.procs, h, Outside, false);
    if s.procs[h].Inside? {
      var s' := Apply(true, s, GetValue(h));
      assert s'.procs[h := Outside] == s.procs[h := Outside];
      RunAfter(true, s', MaybePost(h), []);
      RunAfter(true, s, GetValue(h), [MaybePost(h)] + []);
      steps := [GetValue(h)] + ([MaybePost(h)] + []);
    } else {
      RunAfter(true, s, MaybePost(h), []);
      steps := [MaybePost(h)] + [];
    }
  }

  lemma {:induction false} RunSplit(paired: bool, s: State, first: seq<Step>, second: seq<Step>)
    requires Run(paired, s, first).Some?
    ensures Run(paired, s, first + second) == Run(paired, Run(paired, s, first).value, second)
    decreases |first|
  {
    hide Enabled, Apply;
    if first == [] {
      assert first + second == second;
    } else {
      assert (first + second)[1..] == first[1..] + second;
      RunSplit(paired, Apply(paired, s, first[0]), first[1..], second);
    }
  }

  lemma {:induction false} SameProcs(s: State, steps: seq<Step>)
    requires Run(true, s, steps).Some?
    ensures |Run(true, s, steps).value.procs| == |s.procs|
    decreases |steps|
  {
    if steps != [] { SameProcs(Apply(true, s, steps[0]), steps[1..]); }
  }

  /** Every process can get the lock from every reachable state: at once when it is free, otherwise as soon as the
      holder has posted; nobody can while it is held. */
  lemma EveryoneCanLock(s0: State, before: seq<Step>, p: nat) returns (steps: seq<Step>)
    requires InitState(s0) && Run(true, s0, before).Some? && p < |s0.procs|
    ensures var s := Run(true, s0, before).value;
            && p < |s.procs| && Run(true, s, steps).Some?
            && var r := Run(true, s, steps).value; p < |r.procs| && r.procs[p] == Inside && r.value == 0
    ensures var s := Run(true, s0, before).value;
            (s.value == 1 ==> steps == [Wait(p)]) && (s.value == 0 ==> !Enabled(true, s, Wait(p)))
  {
    CountNone(s0.procs, false);
    LockRun(s0, before);
    SameProcs(s0, before);
    var s := Run(true, s0, before).value;
    if s.value == 1 {
      if !s.procs[p].Outside? { CountUpdate(s.procs, p, Outside, false); }
      RunAfter(true, s, Wait(p), []);
      steps := [Wait(p)] + [];
    } else {
      var h := Holder(s.procs);
      var first := Releases(s, h);
      var s' := State(1, s.procs[h := Outside]);
      CountUpdate(s.procs, h, Outside, false);
      if !s'.procs[p].Outside? { CountUpdate(s'.procs, p, Outside, false); }
      RunAfter(true, s', Wait(p), []);
      RunSplit(true, s, first, [Wait(p)] + []);
      steps := first + ([Wait(p)] + []);
    }
  }

  /** Without pairing the value and the posts already decided can still not exceed the number of processes
      (or 1). */
  lemma ValueBound(s0: State, steps: seq<Step>)
    requires InitState(s0) && Run(false, s0, steps).Some?
    ensures var s := Run(false, s0, steps).value;
            s.value + Count(s.procs, true) <= if |s0.procs| > 1 then |s0.procs| else 1
  {
    CountNone(s0.procs, true);
    BoundRun(s0, steps);
  }

  // ---------------------------------------------------------------- the bound is attained

  ghost predicate Reachable(s0: State, s: State) {
    exists steps :: Run(false, s0, steps) == Some(s)
  }

  lemma {:induction false} RunSnoc(s: State, steps: seq<Step>, step: Step)
    requires Run(false, s, steps).Some? && Enabled(false, Run(false, s, steps).value, step)
    ensures Run(false, s, steps + [step]) == Some(Apply(false, Run(false, s, steps).value, step))
    decreases |steps|
  {
    hide Enabled, Apply;
    if steps == [] {
      assert (steps + [step])[1..] == [];
    } else {
      assert (steps + [step])[1..] == steps[1..] + [step];
      RunSnoc(Apply(false, s, steps[0]), steps[1..], step);
    }
  }

  lemma Reach(s0: State, s: State, step: Step)
    requires Reachable(s0, s) && Enabled(false, s, step)
    ensures Reachable(s0, Apply(false, s, step))
  {
    var steps :| Run(false, s0, steps) == Some(s);
    RunSnoc(s0, steps, step);
    assert Run(false, s0, steps + [step]) == Some(Apply(false, s, step));
  }

  /** `n` processes of which the first `k` are in state `a`, the others in state `b`. */
  function Split(n: nat, k: nat, a: Process, b: Process): seq<Process> {
    seq(n, i => if i < k then a else b)
  }

  /** All processes read the value 0 before any of them posts. */
  lemma {:induction false} AllRead(s0: State, k: nat)
    requires InitState(s0) && k <= |s0.procs| && s0.procs != []
    ensures Reachable(s0, State(0, if k == 0 then s0.procs[0 := Inside]
                                   else Split(|s0.procs|, k, HasRead(0), Outside)))
  {
    var n := |s0.procs|;
    if k == 0 {
      assert Run(false, s0, []) == Some(s0);
      Reach(s0, s0, Wait(0));
    } else {
      AllRead(s0, k - 1);
      var s := State(0, if k == 1 then s0.procs[0 := Inside] else Split(n, k - 1, HasRead(0), Outside));
      Reach(s0, s, GetValue(k - 1));
      assert s.procs[k - 1 := HasRead(0)] == Split(n, k, HasRead(0), Outside);
    }
  }

  /** Then all of them post. */
  lemma {:induction false} AllPost(s0: State, k: nat)
    requires InitState(s0) && k <= |s0.procs| && s0.procs != []
    ensures Reachable(s0, State(k, Split(|s0.procs|, k, Outside, HasRead(0))))
  {
    var n := |s0.procs|;
    if k == 0 {
      AllRead(s0, n);
      assert Split(n, n, HasRead(0), Outside) == Split(n, 0, Outside, HasRead(0));
    } else {
      AllPost(s0, k - 1);
      var s := State(k - 1, Split(n, k - 1, Outside, HasRead(0)));
      Reach(s0, s, MaybePost(k - 1));
      assert s.procs[k - 1 := Outside] == Split(n, k, Outside, HasRead(0));
    }
  }

  /** With N processes that post without waiting, the value N is reached. */
  lemma BoundAttained(s0: State)
    requires InitState(s0) && s0.procs != []
    ensures exists s :: Reachable(s0, s) && s.value == |s0.procs|
  {
    AllPost(s0, |s0.procs|);
  }
}
