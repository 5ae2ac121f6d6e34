/** The message queue: a POSIX priority queue used with one constant priority, the loops that drain it, and
    the absolute deadlines of the timed calls. */
module MessageQueues {
  import opened Bytes

  const PRIORITY: nat := 10
  const MILLION: int := 1_000_000
  const BILLION: int := 1_000_000_000
  const POW63: int := 0x8000_0000_0000_0000

  // ---------------------------------------------------------------- deadlines

  datatype Timespec = Timespec(sec: int, nsec: int)

  function Nanos(t: Timespec): int { t.sec * BILLION + t.nsec }

  predicate Normalised(t: Timespec) { 0 <= t.nsec < BILLION }

  /** `long time = millisec * MILLION`: an unsigned 64-bit product stored in a signed long. */
  function ProductAsLong(millisec: nat): int {
    var p := millisec * MILLION % POW64;
    if p < POW63 then p else p - POW64
  }

  /** C's `/` and `%`, which truncate toward zero. */
  function Quotient(a: int, b: int): int
    requires b > 0
  {
    if a >= 0 then a / b else -(-a / b)
  }

  function Remainder(a: int, b: int): int
    requires b > 0
  {
    a - b * Quotient(a, b)
  }

  function Added(t1: Timespec, t2: Timespec): (t: Timespec)
    ensures Nanos(t) == Nanos(t1) + Nanos(t2)
    ensures Normalised(t1) && Normalised(t2) ==> Normalised(t)
  {
    if t2.nsec + t1.nsec >= BILLION then Timespec(t2.sec + t1.sec + 1, t2.nsec + t1.nsec - BILLION)
    else Timespec(t2.sec + t1.sec, t2.nsec + t1.nsec)
  }

  /** C's division truncates toward zero: a remainder is smaller than the divisor and has the dividend's sign. */
  lemma Truncates(a: int, b: int)
    requires b > 0
    ensures a == b * Quotient(a, b) + Remainder(a, b)
    ensures if a >= 0 then 0 <= Remainder(a, b) < b else -b < Remainder(a, b) <= 0
  {
  }

  method TimeAdd(t1: Timespec, t2: Timespec) returns (add: Timespec)
    ensures add == Added(t1, t2)
  {
    var sec := t2.sec + t1.sec;
    var nsec := t2.nsec + t1.nsec;
    if nsec >= BILLION {
      nsec := nsec - BILLION;
      sec := sec + 1;
    }
    add := Timespec(sec, nsec);
  }

  function Deadline(now: Timespec, millisec: nat): Timespec {
    var time := ProductAsLong(millisec);
    Added(now, Timespec(Quotient(time, BILLION), Remainder(time, BILLION)))
  }

  /** The deadline is exactly `millisec` milliseconds from `now` if and only if the product fits a signed
      64-bit long; 9223372036854 is the largest such value. An exact deadline is normalised. */
  lemma DeadlineExact(now: Timespec, millisec: nat)
    requires Normalised(now) && millisec < POW64
    ensures Nanos(Deadline(now, millisec)) == Nanos(now) + millisec * MILLION <==> millisec <= 9223372036854
    ensures millisec <= 9223372036854 ==> Normalised(Deadline(now, millisec))
  {
    var time := ProductAsLong(millisec);
    assert Nanos(Deadline(now, millisec)) == Nanos(now) + time;
    if millisec <= 9223372036854 {
      assert time == millisec * MILLION;
    }
  }

  // ---------------------------------------------------------------- the kernel's queue

  datatype Entry = Entry(priority: nat, message: Bytes)

  /** mq_send(): behind all messages of the same or a higher priority. */
  function InsertByPriority(q: seq<Entry>, e: Entry): seq<Entry> {
    if q == [] then [e]
    else if q[0].priority >= e.priority then [q[0]] + InsertByPriority(q[1..], e)
    else [e] + q
  }

  function Messages(q: seq<Entry>): (ms: seq<Bytes>)
    ensures |ms| == |q|
  {
    if q == [] then [] else [q[0].message] + Messages(q[1..])
  }

  ghost predicate AllAt(q: seq<Entry>, priority: nat) {
    forall i :: 0 <= i < |q| ==> q[i].priority == priority
  }

  /** With one constant priority the priority queue is first in, first out. */
  lemma {:induction false} ConstantPriorityIsFifo(q: seq<Entry>, m: Bytes, priority: nat)
    requires AllAt(q, priority)
    ensures var q' := InsertByPriority(q, Entry(priority, m));
            AllAt(q', priority) && Messages(q') == Messages(q) + [m]
  {
    if q != [] { ConstantPriorityIsFifo(q[1..], m, priority); }
  }

  /** What other processes send between two of our calls, as far as there is room. */
  function Arrived(room: int, ms: seq<Bytes>): (a: seq<Bytes>)
    ensures a <= ms && |a| == if room <= 0 then 0 else if |ms| <= room then |ms| else room
  {
    if room <= 0 then [] else if |ms| <= room then ms else ms[..room]
  }

  // ---------------------------------------------------------------- draining

  /** A drain loop: what it dequeued, what is left, what arrived meanwhile, and whether a receive failed for
      another reason than an empty queue. */
  datatype Drained = Drained(taken: seq<Bytes>, left: seq<Bytes>, arrived: seq<Bytes>, failed: bool)

  /** What is offered before the next receive, and what before the later ones. */
  function Offer(env: seq<seq<Bytes>>): seq<Bytes> { if env == [] then [] else env[0] }

  function Later(env: seq<seq<Bytes>>): seq<seq<Bytes>> { if env == [] then [] else env[1..] }

  function Countdown(errorAt: Option<nat>): Option<nat> {
    if errorAt.Some? && errorAt.value > 0 then Some(errorAt.value - 1) else None
  }

  /** Before the k-th receive the messages `env[k]` are offered by others; receive number `errorAt` fails. */
  function Drain(cap: nat, q: seq<Bytes>, env: seq<seq<Bytes>>, errorAt: Option<nat>): Drained
    decreases |q| + |Flatten(env)|
  {
    var a := Arrived(cap - |q|, Offer(env));
    var q' := q + a;
    if errorAt == Some(0) then Drained([], q', a, true)
    else if q' == [] then Drained([], [], a, false)
    else
      var r := Drain(cap, q'[1..], Later(env), Countdown(errorAt));
      Drained([q'[0]] + r.taken, r.left, a + r.arrived, r.failed)
  }

  /** What one receive with a deadline in the past does to the messages `q`: it takes `m` and leaves `q'`. */
  ghost predicate Polled(q: seq<Bytes>, fails: bool, m: Option<Bytes>, q': seq<Bytes>) {
    if fails || q == [] then m == None && q' == q else m == Some(q[0]) && q' == q[1..]
  }

  /** A loop that began with the histories `sent0` and `taken0` and has dequeued `out` ends with `all` if it goes on
      from the messages `q` and the histories `sent` and `taken`. */
  ghost predicate OnTheWay(all: Drained, sent0: seq<Bytes>, taken0: seq<Bytes>, out: seq<Bytes>,
                           cap: nat, q: seq<Bytes>, sent: seq<Bytes>, taken: seq<Bytes>,
                           env: seq<seq<Bytes>>, errorAt: Option<nat>)
  {
    var r := Drain(cap, q, env, errorAt);
    && sent0 <= sent && taken == taken0 + out
    && all == Drained(out + r.taken, r.left, sent[|sent0|..] + r.arrived, r.failed)
  }

  lemma FirstTurn(cap: nat, q: seq<Bytes>, sent: seq<Bytes>, taken: seq<Bytes>,
                  env: seq<seq<Bytes>>, errorAt: Option<nat>)
    ensures OnTheWay(Drain(cap, q, env, errorAt), sent, taken, [], cap, q, sent, taken, env, errorAt)
  {
    var r := Drain(cap, q, env, errorAt);
    assert [] + r.taken == r.taken && sent[|sent|..] + r.arrived == r.arrived;
  }

  /** A turn of the drain loop that receives nothing ends it. */
  lemma LastTurn(all: Drained, sent0: seq<Bytes>, taken0: seq<Bytes>, out: seq<Bytes>,
                 cap: nat, q: seq<Bytes>, sent: seq<Bytes>, taken: seq<Bytes>,
                 env: seq<seq<Bytes>>, errorAt: Option<nat>, q': seq<Bytes>, sent': seq<Bytes>)
    requires OnTheWay(all, sent0, taken0, out, cap, q, sent, taken, env, errorAt)
    requires var a := Arrived(cap - |q|, Offer(env));
             Polled(q + a, errorAt == Some(0), None, q') && sent' == sent + a
    ensures out == all.taken && q' == all.left && (all.failed <==> errorAt == Some(0))
    ensures sent' == sent0 + all.arrived && taken == taken0 + all.taken
  {
    assert out + [] == out;
  }

  /** What a turn that receives a message leaves to the following turns. */
  lemma OneTurn(cap: nat, q: seq<Bytes>, env: seq<seq<Bytes>>, errorAt: Option<nat>, m: Bytes, q': seq<Bytes>)
    requires Polled(q + Arrived(cap - |q|, Offer(env)), errorAt == Some(0), Some(m), q')
    ensures var r := Drain(cap, q', Later(env), Countdown(errorAt));
            Drain(cap, q, env, errorAt)
            == Drained([m] + r.taken, r.left, Arrived(cap - |q|, Offer(env)) + r.arrived, r.failed)
  {
  }

  /** Such a turn comes nearer to the end: what is queued and what can still arrive become fewer. */
  lemma Nearer(cap: nat, q: seq<Bytes>, env: seq<seq<Bytes>>, fails: bool, m: Bytes, q': seq<Bytes>)
    requires Polled(q + Arrived(cap - |q|, Offer(env)), fails, Some(m), q')
    ensures |q'| + |Flatten(Later(env))| < |q| + |Flatten(env)|
  {
  }

  lemma NextTurn(all: Drained, sent0: seq<Bytes>, taken0: seq<Bytes>, out: seq<Bytes>,
                 cap: nat, q: seq<Bytes>, sent: seq<Bytes>, taken: seq<Bytes>,
                 env: seq<seq<Bytes>>, errorAt: Option<nat>, m: Bytes, q': seq<Bytes>, sent': seq<Bytes>)
    requires OnTheWay(all, sent0, taken0, out, cap, q, sent, taken, env, errorAt)
    requires var a := Arrived(cap - |q|, Offer(env));
             Polled(q + a, errorAt == Some(0), Some(m), q') && sent' == sent + a
    ensures OnTheWay(all, sent0, taken0, out + [m], cap, q', sent', taken + [m], Later(env), Countdown(errorAt))
    ensures |q'| + |Flatten(Later(env))| < |q| + |Flatten(env)|
  {
    hide Drain, Arrived, Polled, Offer, Later, Countdown, Flatten;
    OneTurn(cap, q, env, errorAt, m, q');
    Nearer(cap, q, env, errorAt == Some(0), m, q');
    var a := Arrived(cap - |q|, Offer(env));
    var r := Drain(cap, q', Later(env), Countdown(errorAt));
    assert out + ([m] + r.taken) == out + [m] + r.taken;
    assert sent'[|sent0|..] + r.arrived == sent[|sent0|..] + (a + r.arrived);
  }

  lemma DrainStep(q: seq<Bytes>, a: seq<Bytes>, r: Drained)
    requires q + a != [] && r.taken + r.left == (q + a)[1..] + r.arrived
    ensures [(q + a)[0]] + r.taken + r.left == q + (a + r.arrived)
  {
    assert [(q + a)[0]] + r.taken + r.left == [(q + a)[0]] + (r.taken + r.left);
    assert [(q + a)[0]] + ((q + a)[1..] + r.arrived) == q + a + r.arrived;
  }

  /** A drain keeps every message and the order, never overfills the queue, and empties it unless a receive
      fails. */
  lemma {:induction false} DrainConserves(cap: nat, q: seq<Bytes>, env: seq<seq<Bytes>>, errorAt: Option<nat>)
    requires |q| <= cap
    ensures var r := Drain(cap, q, env, errorAt);
            && r.taken + r.left == q + r.arrived
            && |r.left| <= cap
            && (!r.failed ==> r.left == [])
            && (errorAt == None ==> !r.failed)
    decreases |q| + |Flatten(env)|
  {
    var a := Arrived(cap - |q|, Offer(env));
    var q' := q + a;
    if errorAt == Some(0) || q' == [] {
      assert [] + q' == q + a;
    } else {
      DrainConserves(cap, q'[1..], Later(env), Countdown(errorAt));
      DrainStep(q, a, Drain(cap, q'[1..], Later(env), Countdown(errorAt)));
    }
  }

  /** With no concurrent senders and no failure a drain yields exactly the queue's contents, in order. */
  lemma {:induction false} QuietDrain(cap: nat, q: seq<Bytes>)
    requires |q| <= cap
    ensures Drain(cap, q, [], None) == Drained(q, [], [], false)
    decreases |q|
  {
    assert q + [] == q;
    if q != [] {
      QuietDrain(cap, q[1..]);
      assert [q[0]] + q[1..] == q;
    }
  }

  /** A drain sees what arrives while it runs: as long as something arrives before each of its receives and there is
      room for it, it yields the queue's contents and then all of that, in order. */
  lemma {:induction false} DrainGetsAll(cap: nat, q: seq<Bytes>, env: seq<seq<Bytes>>)
    requires |q| + |Flatten(env)| <= cap && forall k :: 0 <= k < |env| ==> env[k] != []
    ensures Drain(cap, q, env, None) == Drained(q + Flatten(env), [], Flatten(env), false)
    decreases |q| + |Flatten(env)|
  {
    var q' := q + Arrived(cap - |q|, Offer(env));
    assert Arrived(cap - |q|, Offer(env)) == Offer(env);
    assert q + Flatten(env) == q' + Flatten(Later(env));
    if q' != [] {
      DrainGetsAll(cap, q'[1..], Later(env));
      assert [q'[0]] + (q'[1..] + Flatten(Later(env))) == q' + Flatten(Later(env));
    }
  }

  /** A drain fails if and only if its failing receive comes before the one that would have found the queue empty,
      or is that one, and it has then dequeued one message for every receive before the failing one. */
  lemma {:induction false} DrainFails(cap: nat, q: seq<Bytes>, env: seq<seq<Bytes>>, errorAt: Option<nat>)
    ensures var r, n := Drain(cap, q, env, errorAt), |Drain(cap, q, env, None).taken|;
            && (r.failed <==> errorAt.Some? && errorAt.value <= n)
            && (r.failed ==> |r.taken| == errorAt.value)
    decreases |q| + |Flatten(env)|
  {
    var q' := q + Arrived(cap - |q|, Offer(env));
    if errorAt != Some(0) && q' != [] {
      DrainFails(cap, q'[1..], Later(env), Countdown(errorAt));
    }
  }

  /** The batch receive throws its list away when a receive fails. What it returns and what it leaves are all
      the messages there were, unless the failing receive comes after the first and not after the one that would
      have found the queue empty. */
  lemma BatchLoss(cap: nat, q: seq<Bytes>, env: seq<seq<Bytes>>, errorAt: Option<nat>)
    requires |q| <= cap
    ensures var r := Drain(cap, q, env, errorAt);
            (if r.failed then [] else r.taken) + r.left == q + r.arrived
            <==> !(errorAt.Some? && 0 < errorAt.value <= |Drain(cap, q, env, None).taken|)
  {
    DrainConserves(cap, q, env, errorAt);
    DrainFails(cap, q, env, errorAt);
    var r := Drain(cap, q, env, errorAt);
    assert |r.taken + r.left| == |q + r.arrived|;
    assert [] + r.left == r.left;
  }

  /** One message in the queue, and an error on the second receive: the message is gone. */
  lemma BatchLosesOne(cap: nat, m: Bytes)
    requires cap > 0
    ensures Drain(cap, [m], [], Some(1)) == Drained([m], [], [], true)
  {
    assert [m] + [] == [m] && [m][1..] == [] && [m] + Arrived(cap - 1, []) == [m];
    assert Drain(cap, [], [], Some(0)) == Drained([], [], [], true);
  }

  // ---------------------------------------------------------------- one send, one receive

  /** `TimedOut(at)`: the call waited until the absolute time `at`. `Blocked`: it waits without a deadline. */
  datatype Status =
    | Success
    | NotFound
    | TooLong
    | TimedOut(at: Timespec)
    | InvalidDeadline
    | Interrupted
    | Faulted
    | Blocked

  /** What another process does. */
  datatype Other = Sends(m: Bytes) | Takes

  /** What ends a call that has to wait: its turn, a signal handler, or nothing but its deadline. `Fault`: the
      kernel call fails at once, for a reason of its own. */
  datatype Event = Turn | Signalled | Nothing | Fault

  /** What the other processes do while a call waits, and what ends the wait. */
  datatype Wait = Wait(others: seq<Other>, event: Event)

  /** What a call leaves in the queue, and what was sent and dequeued meanwhile by all processes. */
  datatype Effect = Effect(status: Status, left: seq<Bytes>, sent: seq<Bytes>, taken: seq<Bytes>)

  ghost predicate Conserves(cap: nat, q: seq<Bytes>, e: Effect) {
    e.taken + e.left == q + e.sent && |e.left| <= cap
  }

  /** The other processes' calls, of which those that have to wait come to nothing. */
  function Traffic(cap: nat, q: seq<Bytes>, others: seq<Other>, status: Status): (e: Effect)
    ensures e.status == status
    decreases |others|
  {
    if others == [] then Effect(status, q, [], [])
    else
      match others[0]
      case Sends(m) =>
        if |q| < cap then
          var e := Traffic(cap, q + [m], others[1..], status);
          e.(sent := [m] + e.sent)
        else Traffic(cap, q, others[1..], status)
      case Takes =>
        if q != [] then
          var e := Traffic(cap, q[1..], others[1..], status);
          e.(taken := [q[0]] + e.taken)
        else Traffic(cap, q, others[1..], status)
  }

  lemma {:induction false} TrafficConserves(cap: nat, q: seq<Bytes>, others: seq<Other>, status: Status)
    requires |q| <= cap
    ensures Conserves(cap, q, Traffic(cap, q, others, status))
    decreases |others|
  {
    if others == [] {
      assert [] + q == q + [];
    } else if others[0].Sends? && |q| < cap {
      var e := Traffic(cap, q + [others[0].m], others[1..], status);
      TrafficConserves(cap, q + [others[0].m], others[1..], status);
      assert q + ([others[0].m] + e.sent) == q + [others[0].m] + e.sent;
    } else if others[0].Takes? && q != [] {
      var e := Traffic(cap, q[1..], others[1..], status);
      TrafficConserves(cap, q[1..], others[1..], status);
      assert [q[0]] + e.taken + e.left == [q[0]] + (e.taken + e.left);
      assert [q[0]] + (q[1..] + e.sent) == q + e.sent;
    } else {
      TrafficConserves(cap, q, others[1..], status);
    }
  }

  lemma TrafficStart(e: Effect)
    ensures e == Effect(e.status, e.left, [] + e.sent, [] + e.taken)
  {
  }

  /** One call of another process, seen from a loop that has already seen `out` sent and `gone` taken. */
  lemma TrafficTurn(cap: nat, q: seq<Bytes>, others: seq<Other>, status: Status, out: seq<Bytes>, gone: seq<Bytes>)
    requires others != []
    ensures var (e, rest) := (Traffic(cap, q, others, status), others[1..]);
            var here := Effect(status, e.left, out + e.sent, gone + e.taken);
            if others[0].Sends? && |q| < cap then
              var e' := Traffic(cap, q + [others[0].m], rest, status);
              here == Effect(status, e'.left, out + [others[0].m] + e'.sent, gone + e'.taken)
            else if others[0].Takes? && q != [] then
              var e' := Traffic(cap, q[1..], rest, status);
              here == Effect(status, e'.left, out + e'.sent, gone + [q[0]] + e'.taken)
            else e == Traffic(cap, q, rest, status)
  {
    if others[0].Sends? && |q| < cap {
      var e' := Traffic(cap, q + [others[0].m], others[1..], status);
      assert out + ([others[0].m] + e'.sent) == out + [others[0].m] + e'.sent;
    } else if others[0].Takes? && q != [] {
      var e' := Traffic(cap, q[1..], others[1..], status);
      assert gone + ([q[0]] + e'.taken) == gone + [q[0]] + e'.taken;
    }
  }

  lemma TrafficEnd(cap: nat, q: seq<Bytes>, status: Status, out: seq<Bytes>, gone: seq<Bytes>)
    ensures var e := Traffic(cap, q, [], status);
            Effect(status, e.left, out + e.sent, gone + e.taken) == Effect(status, q, out, gone)
  {
  }

  /** The last call of another process: a send puts its message behind the others if there is room, a receive takes
      the oldest message if there is one. */
  lemma {:induction false} TrafficLast(cap: nat, q: seq<Bytes>, others: seq<Other>, last: Other, status: Status)
    ensures Traffic(cap, q, [], status) == Effect(status, q, [], [])
    ensures var e, e' := Traffic(cap, q, others, status), Traffic(cap, q, others + [last], status);
            match last
            case Sends(m) => e' == if |e.left| < cap then e.(left := e.left + [m], sent := e.sent + [m]) else e
            case Takes => e' == if e.left != [] then e.(left := e.left[1..], taken := e.taken + [e.left[0]]) else e
    decreases |others|
  {
    if others == [] {
      assert [] + [last] == [last] && [last][1..] == [];
    } else {
      assert (others + [last])[1..] == others[1..] + [last];
      var q' := if others[0].Sends? then if |q| < cap then q + [others[0].m] else q else if q != [] then q[1..] else q;
      TrafficLast(cap, q', others[1..], last, status);
    }
  }

  /** How a wait ends that does not get its turn. */
  function GivesUp(deadline: Option<Timespec>, event: Event): (status: Status)
    ensures status != Success
  {
    if event.Signalled? then Interrupted else if deadline.Some? then TimedOut(deadline.value) else Blocked
  }

  /** mq_send(), or mq_timedsend() with a deadline. */
  function SendEffect(cap: nat, msgsize: nat, q: seq<Bytes>, m: Bytes, deadline: Option<Timespec>, w: Wait): Effect {
    if w.event.Fault? then Effect(Faulted, q, [], [])
    else if |m| > msgsize then Effect(TooLong, q, [], [])
    else if |q| < cap then Effect(Success, q + [m], [m], [])
    else if deadline.Some? && !Normalised(deadline.value) then Effect(InvalidDeadline, q, [], [])
    else
      var e := Traffic(cap, q, w.others, GivesUp(deadline, w.event));
      if w.event.Turn? && |e.left| < cap then Effect(Success, e.left + [m], e.sent + [m], e.taken) else e
  }

  /** mq_receive(), or mq_timedreceive() with a deadline; what a successful call receives is the last one taken. */
  function ReceiveEffect(cap: nat, q: seq<Bytes>, deadline: Option<Timespec>, w: Wait): Effect {
    if w.event.Fault? then Effect(Faulted, q, [], [])
    else if q != [] then Effect(Success, q[1..], [], [q[0]])
    else if deadline.Some? && !Normalised(deadline.value) then Effect(InvalidDeadline, q, [], [])
    else
      var e := Traffic(cap, q, w.others, GivesUp(deadline, w.event));
      if w.event.Turn? && e.left != [] then Effect(Success, e.left[1..], e.sent, e.taken + [e.left[0]]) else e
  }

  lemma ConservesStill(cap: nat, q: seq<Bytes>, m: Bytes)
    requires |q| <= cap
    ensures forall status :: Conserves(cap, q, Effect(status, q, [], []))
    ensures |q| < cap ==> Conserves(cap, q, Effect(Success, q + [m], [m], []))
  {
    assert [] + q == q + [] && [] + (q + [m]) == q + [m];
  }

  lemma ConservesSent(cap: nat, q: seq<Bytes>, e: Effect, m: Bytes)
    requires Conserves(cap, q, e) && |e.left| < cap
    ensures Conserves(cap, q, Effect(Success, e.left + [m], e.sent + [m], e.taken))
  {
    assert e.taken + (e.left + [m]) == e.taken + e.left + [m];
    assert q + (e.sent + [m]) == q + e.sent + [m];
  }

  /** Whatever happens during a send, no message is lost or overtaken, the bound holds, and a successful one puts
      its message last. */
  lemma SendConserves(cap: nat, msgsize: nat, q: seq<Bytes>, m: Bytes, deadline: Option<Timespec>, w: Wait)
    requires |q| <= cap
    ensures var e := SendEffect(cap, msgsize, q, m, deadline, w);
            && Conserves(cap, q, e)
            && (e.status == Success ==> |m| <= msgsize && e.left != [] && e.left[|e.left| - 1] == m)
  {
    hide Traffic, GivesUp, Conserves;
    TrafficConserves(cap, q, w.others, GivesUp(deadline, w.event));
    ConservesStill(cap, q, m);
    var e := Traffic(cap, q, w.others, GivesUp(deadline, w.event));
    if |e.left| < cap { ConservesSent(cap, q, e, m); }
  }

  /** Likewise for a receive, and a successful one has taken a message. */
  lemma ReceiveConserves(cap: nat, q: seq<Bytes>, deadline: Option<Timespec>, w: Wait)
    requires |q| <= cap
    ensures var e := ReceiveEffect(cap, q, deadline, w);
            && Conserves(cap, q, e)
            && (e.status == Success ==> e.taken != [])
            && (q != [] && !w.event.Fault? ==> e.status == Success && e.taken == [q[0]])
  {
    var e := Traffic(cap, q, w.others, GivesUp(deadline, w.event));
    TrafficConserves(cap, q, w.others, GivesUp(deadline, w.event));
    if e.left != [] {
      assert e.taken + [e.left[0]] + e.left[1..] == e.taken + e.left;
    }
    assert [] + q == q + [];
  }

  /** The call has to wait, and its deadline, if it has one, is valid. */
  predicate MustWait(ready: bool, deadline: Option<Timespec>, w: Wait) {
    !w.event.Fault? && !ready && (deadline.Some? ==> Normalised(deadline.value))
  }

  /** Exactly when a receive ends how, and what it takes: the oldest message there is, or, after a wait that got its
      turn, the oldest one the other processes left. */
  lemma ReceiveStatus(cap: nat, q: seq<Bytes>, deadline: Option<Timespec>, w: Wait)
    ensures var e := ReceiveEffect(cap, q, deadline, w);
            var left := Traffic(cap, q, w.others, GivesUp(deadline, w.event)).left;
            var waits := MustWait(q != [], deadline, w);
            var served := waits && w.event.Turn? && left != [];
            && (e.status == Faulted <==> w.event.Fault?)
            && (e.status == InvalidDeadline <==>
                  !w.event.Fault? && q == [] && deadline.Some? && !Normalised(deadline.value))
            && (e.status == Success <==> served || (!w.event.Fault? && q != []))
            && (e.status == Interrupted <==> waits && w.event.Signalled?)
            && (e.status.TimedOut? <==> waits && deadline.Some? && !w.event.Signalled? && !served)
            && (e.status.TimedOut? ==> e.status.at == deadline.value)
            && (e.status == Blocked <==> waits && deadline.None? && !w.event.Signalled? && !served)
            && (served ==> e.taken != [] && e.taken[|e.taken| - 1] == left[0] && e.left == left[1..])
            && (waits && !served ==> e.left == left)
            && (!waits && e.status != Success ==> e.left == q && e.sent == e.taken == [])
  {
    hide Traffic;
  }

  /** Exactly when a send ends how: a message that is not too long is accepted when there is room, or when its turn
      comes and the other processes have left room. */
  lemma SendStatus(cap: nat, msgsize: nat, q: seq<Bytes>, m: Bytes, deadline: Option<Timespec>, w: Wait)
    ensures var e := SendEffect(cap, msgsize, q, m, deadline, w);
            var left := Traffic(cap, q, w.others, GivesUp(deadline, w.event)).left;
            var waits := |m| <= msgsize && MustWait(|q| < cap, deadline, w);
            var served := waits && w.event.Turn? && |left| < cap;
            && (e.status == Faulted <==> w.event.Fault?)
            && (e.status == TooLong <==> !w.event.Fault? && |m| > msgsize)
            && (e.status == InvalidDeadline <==>
                  !w.event.Fault? && |m| <= msgsize && |q| >= cap && deadline.Some? && !Normalised(deadline.value))
            && (e.status == Success <==> served || (!w.event.Fault? && |m| <= msgsize && |q| < cap))
            && (e.status == Interrupted <==> waits && w.event.Signalled?)
            && (e.status.TimedOut? <==> waits && deadline.Some? && !w.event.Signalled? && !served)
            && (e.status.TimedOut? ==> e.status.at == deadline.value)
            && (e.status == Blocked <==> waits && deadline.None? && !w.event.Signalled? && !served)
            && (served ==> e.left == left + [m])
            && (waits && !served ==> e.left == left)
            && (!waits && e.status != Success ==> e.left == q && e.sent == e.taken == [])
  {
    hide Traffic;
  }

  /** A receive whose deadline has passed takes what is there, or nothing. */
  lemma ReceiveNow(cap: nat, q: seq<Bytes>, past: Timespec)
    requires Normalised(past)
    ensures ReceiveEffect(cap, q, Some(past), Wait([], Nothing))
            == if q == [] then Effect(TimedOut(past), [], [], []) else Effect(Success, q[1..], [], [q[0]])
  {
  }

  // ---------------------------------------------------------------- objects

  /** The queue object in the kernel, shared by all processes. `sent` and `taken` are its history. */
  class PosixQueue {
    const maxmsg: nat
    const msgsize: nat
    var entries: seq<Entry>
    ghost var sent: seq<Bytes>
    ghost var taken: seq<Bytes>

    /** Conservation and order: all messages ever accepted are those dequeued, in order, followed by those
        queued; the queue never holds more than `maxmsg`. */
    ghost predicate Valid()
      reads this
    {
      AllAt(entries, PRIORITY) && |entries| <= maxmsg && 0 < maxmsg && sent == taken + Messages(entries)
    }

    /** The owner's mq_open(), with its defaults. */
    constructor (maxMessageCount: int, maxMessageSize: int)
      ensures Valid() && entries == [] && sent == [] && taken == []
      ensures maxmsg == (if maxMessageCount > 0 then maxMessageCount else 10)
      ensures msgsize == (if maxMessageSize > 0 then maxMessageSize else 8192)
    {
      maxmsg := if maxMessageCount > 0 then maxMessageCount else 10;
      msgsize := if maxMessageSize > 0 then maxMessageSize else 8192;
      entries, sent, taken := [], [], [];
    }

    method Enqueue(m: Bytes)
      requires Valid() && |entries| < maxmsg
      modifies this
      ensures Valid() && taken == old(taken)
      ensures Messages(entries) == old(Messages(entries)) + [m] && sent == old(sent) + [m]
    {
      ConstantPriorityIsFifo(entries, m, PRIORITY);
      entries := InsertByPriority(entries, Entry(PRIORITY, m));
      sent := sent + [m];
    }

    method Dequeue() returns (m: Bytes)
      requires Valid() && entries != []
      modifies this
      ensures Valid() && sent == old(sent)
      ensures old(Messages(entries)) == [m] + Messages(entries) && taken == old(taken) + [m]
    {
      m := entries[0].message;
      entries := entries[1..];
      taken := taken + [m];
    }

    /** What the other processes do while one of ours waits. */
    method Meanwhile(others: seq<Other>, status: Status)
      requires Valid()
      modifies this
      ensures Valid()
      ensures var e := Traffic(maxmsg, old(Messages(entries)), others, status);
              && Messages(entries) == e.left
              && sent == old(sent) + e.sent && taken == old(taken) + e.taken
    {
      hide Messages, AllAt, Traffic;
      ghost var all := Traffic(maxmsg, Messages(entries), others, status);
      ghost var out, gone := [], [];
      TrafficStart(all);
      for i := 0 to |others|
        invariant Valid()
        invariant sent == old(sent) + out && taken == old(taken) + gone
        invariant var e := Traffic(maxmsg, Messages(entries), others[i..], status);
                  all == Effect(status, e.left, out + e.sent, gone + e.taken)
      {
        TrafficTurn(maxmsg, Messages(entries), others[i..], status, out, gone);
        assert others[i..][1..] == others[i + 1..];
        if others[i].Sends? {
          if |entries| < maxmsg {
            Enqueue(others[i].m);
            out := out + [others[i].m];
          }
        } else if entries != [] {
          var m := Dequeue();
          gone := gone + [m];
        }
      }
      TrafficEnd(maxmsg, Messages(entries), status, out, gone);
      assert others[|others|..] == [];
    }

    /** mq_send(), or mq_timedsend() with a deadline. */
    method Send(m: Bytes, deadline: Option<Timespec>, w: Wait) returns (r: Status)
      requires Valid()
      modifies this
      ensures Valid()
      ensures var e := SendEffect(maxmsg, msgsize, old(Messages(entries)), m, deadline, w);
              && r == e.status && Messages(entries) == e.left
              && sent == old(sent) + e.sent && taken == old(taken) + e.taken
    {
      hide Messages, AllAt, Traffic;
      if w.event.Fault? {
        return Faulted;
      }
      if |m| > msgsize {
        return TooLong;
      }
      if |entries| == maxmsg {
        if deadline.Some? && !Normalised(deadline.value) {
          return InvalidDeadline;
        }
        r := GivesUp(deadline, w.event);
        Meanwhile(w.others, r);
        if !w.event.Turn? || |entries| == maxmsg {
          return;
        }
      }
      Enqueue(m);
      r := Success;
    }

    /** mq_receive(), or mq_timedreceive() with a deadline. */
    method Receive(deadline: Option<Timespec>, w: Wait) returns (r: Status, m: Bytes)
      requires Valid()
      modifies this
      ensures Valid()
      ensures var e := ReceiveEffect(maxmsg, old(Messages(entries)), deadline, w);
              && r == e.status && Messages(entries) == e.left
              && sent == old(sent) + e.sent && taken == old(taken) + e.taken
      ensures r == Success ==> taken != [] && m == taken[|taken| - 1]
    {
      hide Messages, AllAt, Traffic;
      m := [];
      if w.event.Fault? {
        return Faulted, m;
      }
      if entries == [] {
        if deadline.Some? && !Normalised(deadline.value) {
          return InvalidDeadline, m;
        }
        r := GivesUp(deadline, w.event);
        Meanwhile(w.others, r);
        if !w.event.Turn? || entries == [] {
          return;
        }
      }
      m := Dequeue();
      r := Success;
    }

    /** Other processes send. */
    method Others(ms: seq<Bytes>)
      requires Valid()
      modifies this
      ensures Valid() && taken == old(taken)
      ensures var a := Arrived(maxmsg - old(|entries|), ms);
              Messages(entries) == old(Messages(entries)) + a && sent == old(sent) + a
    {
      var a := Arrived(maxmsg - |entries|, ms);
      for i := 0 to |a|
        invariant Valid() && taken == old(taken) && |entries| == old(|entries|) + i
        invariant Messages(entries) == old(Messages(entries)) + a[..i] && sent == old(sent) + a[..i]
      {
        Enqueue(a[i]);
      }
      assert a[..|a|] == a;
    }
  }

  class MessageQueue {
    const kernel: PosixQueue
    var isOpen: bool          // m_messageQueue != -1

    constructor (kernel: PosixQueue)
      ensures this.kernel == kernel && isOpen
    {
      this.kernel, isOpen := kernel, true;
    }

    /** Send and TimedSend at time `now`; `millisec` 0 waits without a deadline. */
    method TimedSend(message: Bytes, millisec: nat, now: Timespec, w: Wait) returns (r: Status)
      requires kernel.Valid()
      modifies kernel
      ensures kernel.Valid()
      ensures !isOpen ==> r == NotFound && kernel.entries == old(kernel.entries)
                          && kernel.sent == old(kernel.sent) && kernel.taken == old(kernel.taken)
      ensures isOpen ==>
                var deadline := if millisec == 0 then None else Some(Deadline(now, millisec));
                var e := SendEffect(kernel.maxmsg, kernel.msgsize, old(Messages(kernel.entries)), message, deadline, w);
                && r == e.status && Messages(kernel.entries) == e.left
                && kernel.sent == old(kernel.sent) + e.sent && kernel.taken == old(kernel.taken) + e.taken
    {
      if !isOpen {
        return NotFound;
      }
      hide SendEffect, Messages;
      if millisec == 0 {
        r := kernel.Send(message, None, w);
      } else {
        var time := ProductAsLong(millisec);
        var timeout := TimeAdd(now, Timespec(Quotient(time, BILLION), Remainder(time, BILLION)));
        r := kernel.Send(message, Some(timeout), w);
      }
    }

    /** Receive and TimedReceive of one message at time `now`. */
    method TimedReceive(millisec: nat, now: Timespec, w: Wait) returns (r: Status, message: Bytes)
      requires kernel.Valid()
      modifies kernel
      ensures kernel.Valid()
      ensures !isOpen ==> r == NotFound && kernel.entries == old(kernel.entries)
                          && kernel.sent == old(kernel.sent) && kernel.taken == old(kernel.taken)
      ensures isOpen ==>
                var deadline := if millisec == 0 then None else Some(Deadline(now, millisec));
                var e := ReceiveEffect(kernel.maxmsg, old(Messages(kernel.entries)), deadline, w);
                && r == e.status && Messages(kernel.entries) == e.left
                && kernel.sent == old(kernel.sent) + e.sent && kernel.taken == old(kernel.taken) + e.taken
      ensures r == Success ==> kernel.taken != [] && message == kernel.taken[|kernel.taken| - 1]
    {
      if !isOpen {
        return NotFound, [];
      }
      hide ReceiveEffect, Messages;
      if millisec == 0 {
        r, message := kernel.Receive(None, w);
      } else {
        var time := ProductAsLong(millisec);
        var timeout := TimeAdd(now, Timespec(Quotient(time, BILLION), Remainder(time, BILLION)));
        r, message := kernel.Receive(Some(timeout), w);
      }
    }

    /** mq_timedreceive() with a deadline in the past, after others have sent `offer`. */
    method Poll(offer: seq<Bytes>, fails: bool) returns (m: Option<Bytes>)
      requires kernel.Valid()
      modifies kernel
      ensures kernel.Valid()
      ensures var a := Arrived(kernel.maxmsg - old(|kernel.entries|), offer);
              && Polled(old(Messages(kernel.entries)) + a, fails, m, Messages(kernel.entries))
              && kernel.sent == old(kernel.sent) + a
              && kernel.taken == if m == None then old(kernel.taken) else old(kernel.taken) + [m.value]
    {
      hide Arrived, AllAt;
      kernel.Others(offer);
      if fails {
        return None;
      }
      ghost var q := Messages(kernel.entries);
      var status, message := kernel.Receive(Some(Timespec(0, 0)), Wait([], Nothing));
      ReceiveNow(kernel.maxmsg, q, Timespec(0, 0));
      m := if status == Success then Some(message) else None;
    }

    /** The loop Clear and the batch Receive share; `out` collects what it dequeues. */
    method DrainLoop(env: seq<seq<Bytes>>, errorAt: Option<nat>) returns (out: seq<Bytes>, failed: bool)
      requires kernel.Valid()
      modifies kernel
      ensures kernel.Valid()
      ensures var r := Drain(kernel.maxmsg, old(Messages(kernel.entries)), env, errorAt);
              && out == r.taken && failed == r.failed && Messages(kernel.entries) == r.left
              && kernel.sent == old(kernel.sent) + r.arrived && kernel.taken == old(kernel.taken) + r.taken
    {
      hide Drain, Arrived, Messages, AllAt, Polled, Offer, Later, Countdown, Flatten, OnTheWay;
      out := [];
      var offers, countdown := env, errorAt;
      ghost var sent0, taken0 := kernel.sent, kernel.taken;
      ghost var all := Drain(kernel.maxmsg, Messages(kernel.entries), env, errorAt);
      FirstTurn(kernel.maxmsg, Messages(kernel.entries), sent0, taken0, env, errorAt);
      while true
        invariant kernel.Valid()
        invariant OnTheWay(all, sent0, taken0, out, kernel.maxmsg, Messages(kernel.entries), kernel.sent, kernel.taken,
                           offers, countdown)
        decreases |Messages(kernel.entries)| + |Flatten(offers)|
      {
        ghost var q, sent, taken := Messages(kernel.entries), kernel.sent, kernel.taken;
        var m := Poll(Offer(offers), countdown == Some(0));
        ghost var q', sent' := Messages(kernel.entries), kernel.sent;
        if m.None? {
          LastTurn(all, sent0, taken0, out, kernel.maxmsg, q, sent, taken, offers, countdown, q', sent');
          return out, countdown == Some(0);
        }
        NextTurn(all, sent0, taken0, out, kernel.maxmsg, q, sent, taken, offers, countdown, m.value, q', sent');
        out, offers, countdown := out + [m.value], Later(offers), Countdown(countdown);
      }
    }

    /** Receive(std::vector &): everything the queue holds; the list is thrown away when a receive fails. */
    method ReceiveAll(env: seq<seq<Bytes>>, errorAt: Option<nat>) returns (status: Status, out: seq<Bytes>)
      requires kernel.Valid()
      modifies kernel
      ensures kernel.Valid()
      ensures !isOpen ==> status == NotFound && out == []
      ensures isOpen && old(kernel.entries) == [] ==> status == Success && out == []
      ensures !isOpen || old(kernel.entries) == [] ==> kernel.entries == old(kernel.entries)
      ensures isOpen && old(kernel.entries) != [] ==>
                var r := Drain(kernel.maxmsg, old(Messages(kernel.entries)), env, errorAt);
                && Messages(kernel.entries) == r.left && kernel.taken == old(kernel.taken) + r.taken
                && status == (if r.failed then Interrupted else Success) && out == (if r.failed then [] else r.taken)
      ensures isOpen && env == [] && errorAt == None ==>
                out == old(Messages(kernel.entries)) && kernel.entries == []
    {
      out := [];
      if !isOpen {
        return NotFound, out;
      }
      if |kernel.entries| == 0 {
        return Success, out;
      }
      QuietDrain(kernel.maxmsg, Messages(kernel.entries));
      var failed;
      out, failed := DrainLoop(env, errorAt);
      if failed {
        out := [];
      }
      status := if failed then Interrupted else Success;
    }

    method Clear(env: seq<seq<Bytes>>, errorAt: Option<nat>)
      requires kernel.Valid()
      modifies kernel
      ensures kernel.Valid()
      ensures !isOpen || old(kernel.entries) == [] ==> kernel.entries == old(kernel.entries)
      ensures isOpen && old(kernel.entries) != [] ==>
                var r := Drain(kernel.maxmsg, old(Messages(kernel.entries)), env, errorAt);
                Messages(kernel.entries) == r.left && kernel.taken == old(kernel.taken) + r.taken
      ensures isOpen && errorAt == None ==> kernel.entries == []
    {
      if !isOpen || |kernel.entries| == 0 {
        return;
      }
      DrainConserves(kernel.maxmsg, Messages(kernel.entries), env, errorAt);
      var _, _ := DrainLoop(env, errorAt);
    }
  }
}
