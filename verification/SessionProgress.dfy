/** No reachable state is stuck, and no run goes on for ever without new calls. */
module SessionProgress {
  import opened SessionProtocol
  import opened SessionSafety

  /** Every call issued so far has returned. */
  predicate Quiet<O, V>(ops: seq<Op<O, V>>) {
    forall t :: 0 <= t < |ops| ==> ops[t].pc.Returned?
  }

  // ---- Deadlock freedom ----

  /** With the worker at rest, a goroutine that has the gate is never blocked. */
  lemma HolderMoves<S, O, V>(s: Session<S, O, V>, t: nat, op: Op<O, V>)
    requires SesInv(s) && OpInv(s, t, op) && Held(op.pc)
    requires (s.worker.Idle? && !s.queueClosed) || s.worker.Stopped?
    ensures !Blocked(s, op.pc)
  {
  }

  /** With the worker at rest, a blocked goroutine waits for one that is not. */
  lemma WaitsForMover<S, O, V>(s: State<S, O, V>, t: nat) returns (u: nat)
    requires Inv(s) && t < |s.ops| && !s.ops[t].pc.Returned?
    requires (s.ses.worker.Idle? && !s.ses.queueClosed) || s.ses.worker.Stopped?
    ensures Enabled(s, Turn(u))
  {
    assert OpInv(s.ses, t, s.ops[t]);
    if !Blocked(s.ses, s.ops[t].pc) { return t; }
    if Held(s.ops[t].pc) {
      HolderMoves(s.ses, t, s.ops[t]);
      return t;
    }
    u := if s.ops[t].pc.AtGate? then s.ses.writer.id else t;
    assert OpInv(s.ses, u, s.ops[u]);
    if s.ops[u].pc.Draining? && s.ses.readers != {} {
      u :| u in s.ses.readers;
      assert OpInv(s.ses, u, s.ops[u]);
    }
    if Held(s.ops[u].pc) { HolderMoves(s.ses, u, s.ops[u]); }
  }

  /** In every reachable state with a call under way, some goroutine or the worker can move,
      whatever the readers, the writers, the queue and the callback are doing. */
  lemma NeverStuck<S, O, V>(n: Native<S, O, V>, live: bool, acts: seq<Action<O, V>>, s: State<S, O, V>)
    returns (a: Action<O, V>)
    requires Run(n, Init(n, live), acts, s) && !Quiet(s.ops)
    ensures !a.Start? && Enabled(s, a)
  {
    RunKeeps(n, Init(n, live), acts, s);
    var w := s.ses.worker;
    match w
    case Running(job) => a := if job.rest == [] then Deliver else Step;
    case Freeing(_) => a := Deliver;
    case InCallback(_) =>
      if NestedReturned(s.ops) { a := ExitCallback(Failed); }
      else {
        var u :| 0 <= u < |s.ops| && s.ops[u].nested && !s.ops[u].pc.Returned?;
        assert OpInv(s.ses, u, s.ops[u]);
        a := Turn(u);
      }
    case _ =>
      if w.Idle? && s.ses.queueClosed { a := WorkerExit; }
      else {
        var t :| 0 <= t < |s.ops| && !s.ops[t].pc.Returned?;
        var u := WaitsForMover(s, t);
        a := Turn(u);
      }
  }

  // ---- Every call returns ----

  /** What a call can still cost: its own steps and the worker's steps for it. */
  function Cost<O>(call: Call<O>): nat {
    match call
    case Invoke(task, callbacks) => 12 + |task| + 2 * callbacks
    case Close => 12
  }

  function OpWeight<O, V>(op: Op<O, V>): nat {
    match op.pc
    case Loading => Cost(op.call)
    case AtGate => Cost(op.call) - 1
    case Draining => Cost(op.call) - 2
    case Inside => Cost(op.call) - 3
    case Sending => Cost(op.call) - 4
    case Awaiting => 5
    case Answered(_) => 4
    case Sealing => 3
    case Stopping => 2
    case Leaving(_) => 1
    case Returned(_) => 0
  }

  function WorkerWeight<O, V>(w: Worker<O, V>): nat {
    match w
    case Stopped => 0
    case Idle => 1
    case Freeing(_) => 3
    case Running(job) => 3 + |job.rest| + 2 * job.budget
    case InCallback(job) => 4 + |job.rest| + 2 * job.budget
  }

  function Sum<O, V>(ops: seq<Op<O, V>>): nat {
    if ops == [] then 0 else Sum(ops[..|ops| - 1]) + OpWeight(ops[|ops| - 1])
  }

  function Weight<S, O, V>(s: State<S, O, V>): nat {
    Sum(s.ops) + WorkerWeight(s.ses.worker)
  }

  lemma {:induction false} SumUpdate<O, V>(ops: seq<Op<O, V>>, t: nat, op: Op<O, V>)
    requires t < |ops|
    ensures Sum(ops[t := op]) == Sum(ops) - OpWeight(ops[t]) + OpWeight(op)
  {
    var last := |ops| - 1;
    if t == last {
      assert ops[t := op][..last] == ops[..last];
    } else {
      assert ops[t := op][..last] == ops[..last][t := op];
      SumUpdate(ops[..last], t, op);
    }
  }

  lemma TurnCosts<S, O, V>(s: Session<S, O, V>, t: nat, op: Op<O, V>)
    requires SesInv(s) && OpInv(s, t, op) && !Blocked(s, op.pc)
    ensures OpWeight(op.(pc := NextPc(s, op))) + WorkerWeight(NextSes(s, t, op).worker)
         < OpWeight(op) + WorkerWeight(s.worker)
  {
  }

  lemma StartCosts<S, O, V>(n: Native<S, O, V>, s: State<S, O, V>, call: Call<O>, nested: bool)
    requires Enabled(s, Start(call, nested))
    ensures Weight(Apply(n, s, Start(call, nested))) == Weight(s) + Cost(call)
  {
    var ops := s.ops + [Op(call, nested, Loading, Nobody)];
    assert ops[..|ops| - 1] == s.ops;
  }

  lemma ReplyCosts<S, O, V>(n: Native<S, O, V>, s: Session<S, O, V>, op: Op<O, V>)
    requires s.ctx.Some? && (s.worker.Running? || s.worker.Freeing?)
    ensures DeliverOp(n, s, op).pc.Answered? && WorkerWeight(DeliverSes(n, s).worker) < WorkerWeight(s.worker)
  {
  }

  lemma DeliverCosts<S, O, V>(n: Native<S, O, V>, s: State<S, O, V>)
    requires Inv(s) && Enabled(s, Deliver)
    ensures Weight(Apply(n, s, Deliver)) < Weight(s)
  {
    hide Inv, DeliverOp, DeliverSes, Sum;
    ServedHasContext(s);
    ServedAwaits(s);
    var t := Served(s.ses.worker).id;
    ReplyCosts(n, s.ses, s.ops[t]);
    SumUpdate(s.ops, t, DeliverOp(n, s.ses, s.ops[t]));
  }

  lemma InternalCosts<S, O, V>(n: Native<S, O, V>, s: State<S, O, V>, a: Action<O, V>)
    requires Inv(s) && Internal(a) && Enabled(s, a)
    ensures Weight(Apply(n, s, a)) < Weight(s)
  {
    if !a.WorkerExit? { ServedHasContext(s); }
  }

  /** Every action but the issue of a call uses up weight. */
  lemma ActionCosts<S, O, V>(n: Native<S, O, V>, s: State<S, O, V>, a: Action<O, V>)
    requires Inv(s) && Enabled(s, a)
    ensures match a
            case Start(call, _) => Weight(Apply(n, s, a)) == Weight(s) + Cost(call)
            case _ => Weight(Apply(n, s, a)) < Weight(s)
  {
    match a
    case Start(call, nested) => StartCosts(n, s, call, nested);
    case Turn(t) =>
      var op := s.ops[t];
      TurnCosts(s.ses, t, op);
      SumUpdate(s.ops, t, op.(pc := NextPc(s.ses, op)));
    case Deliver => DeliverCosts(n, s);
    case _ => InternalCosts(n, s, a);
  }

  /** The number of actions other than Start, and the cost of the calls issued. */
  function Moves<O, V>(acts: seq<Action<O, V>>): nat {
    if acts == [] then 0 else (if acts[0].Start? then 0 else 1) + Moves(acts[1..])
  }

  function Issued<O, V>(acts: seq<Action<O, V>>): nat {
    if acts == [] then 0 else (if acts[0].Start? then Cost(acts[0].call) else 0) + Issued(acts[1..])
  }

  /** However the goroutines are scheduled, a run has no more moves than its calls pay for.
      With NeverStuck: once no more calls are issued, every call returns. */
  lemma {:induction false} RunIsBounded<S, O, V>(
    n: Native<S, O, V>, s: State<S, O, V>, acts: seq<Action<O, V>>, t: State<S, O, V>)
    requires Inv(s) && Run(n, s, acts, t)
    ensures Moves(acts) + Weight(t) <= Weight(s) + Issued(acts)
    decreases |acts|
  {
    if acts != [] {
      ActionCosts(n, s, acts[0]);
      ActionKeeps(n, s, acts[0]);
      RunIsBounded(n, Apply(n, s, acts[0]), acts[1..], t);
    }
  }

  /** Whatever the schedule: without new calls a run is bounded by the weight of the state it
      starts from, and where it can go no further every call has returned. */
  lemma EveryScheduleReturns<S, O(!new), V(!new)>(
    n: Native<S, O, V>, live: bool, acts: seq<Action<O, V>>, s: State<S, O, V>,
    more: seq<Action<O, V>>, t: State<S, O, V>)
    requires Run(n, Init(n, live), acts, s)
    requires Run(n, s, more, t) && forall i :: 0 <= i < |more| ==> !more[i].Start?
    ensures |more| <= Weight(s)
    ensures Quiet(t.ops) || exists a: Action<O, V> :: !a.Start? && Enabled(t, a)
  {
    RunKeeps(n, Init(n, live), acts, s);
    RunIsBounded(n, s, more, t);
    AllMoves(more);
    RunsJoin(n, Init(n, live), acts, s, more, t);
    if !Quiet(t.ops) {
      var a := NeverStuck(n, live, acts + more, t);
    }
  }

  lemma {:induction false} AllMoves<O, V>(acts: seq<Action<O, V>>)
    requires forall i :: 0 <= i < |acts| ==> !acts[i].Start?
    ensures Moves(acts) == |acts| && Issued(acts) == 0
  {
    if acts != [] { AllMoves(acts[1..]); }
  }

  lemma {:induction false} RunsJoin<S, O, V>(
    n: Native<S, O, V>, s: State<S, O, V>, first: seq<Action<O, V>>, t: State<S, O, V>,
    second: seq<Action<O, V>>, u: State<S, O, V>)
    requires Run(n, s, first, t) && Run(n, t, second, u)
    ensures Run(n, s, first + second, u)
    decreases |first|
  {
    if first == [] {
      assert first + second == second;
    } else {
      assert (first + second)[1..] == first[1..] + second;
      RunsJoin(n, Apply(n, s, first[0]), first[1..], t, second, u);
    }
  }
}
