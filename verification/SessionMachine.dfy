/** The Session as the object the code updates in place (sdk/go/session.go): one method for each
    indivisible step of a goroutine or of the worker, proved against the transition system. */
module SessionMachine {
  import opened Wrappers
  import opened SessionProtocol
  import opened SessionSafety

  class Machine<S, O, V> {
    const n: Native<S, O, V>
    const live: bool
    var callbackActive: bool
    var ctx: Option<S>
    var queueClosed: bool
    var worker: Worker<O, V>
    var readers: set<nat>
    var writer: Index
    var closed: bool
    var closing: bool
    var closeErr: Reply<V>
    var log: seq<Entry<O, V>>
    var fault: bool
    var ops: seq<Op<O, V>>

    /** NewSession, or a zero Session. */
    constructor (n: Native<S, O, V>, live: bool)
      ensures this.n == n && View() == Init(n, live)
    {
      this.n, this.live := n, live;
      callbackActive, queueClosed, closed, closing, fault := false, false, false, false, false;
      ctx := if live then Some(n.start) else None;
      worker := if live then Idle else Stopped;
      readers, writer, closeErr, log, ops := {}, Nobody, Ok([]), [], [];
    }

    function Fields(): Session<S, O, V>
      reads this
    {
      Session(live, callbackActive, ctx, queueClosed, worker, readers, writer, closed, closing, closeErr, log, fault)
    }

    function View(): State<S, O, V>
      reads this
    {
      State(Fields(), ops)
    }

    method Issue(call: Call<O>, nested: bool)
      requires Enabled(View(), Start(call, nested))
      modifies this`ops
      ensures View() == Apply(n, old(View()), Start(call, nested))
    {
      ops := ops + [Op(call, nested, Loading, Nobody)];
    }

    method Goto(t: nat, pc: Pc<V>)
      requires t < |ops|
      modifies this`ops
      ensures ops == old(ops)[t := old(ops)[t].(pc := pc)]
    {
      ops := ops[t := ops[t].(pc := pc)];
    }

    /** The callback flag, before anything else: line 92 or 110. */
    method Load(t: nat)
      requires Enabled(View(), Turn(t)) && ops[t].pc.Loading?
      modifies this
      ensures View() == Apply(n, old(View()), Turn(t))
    {
      Goto(t, if callbackActive then Returned(Reentry) else AtGate);
    }

    /** RLock in invoke; Close announces itself as the writer. */
    method Lock(t: nat)
      requires Enabled(View(), Turn(t)) && ops[t].pc.AtGate?
      modifies this
      ensures View() == Apply(n, old(View()), Turn(t))
    {
      if ops[t].call.Invoke? {
        readers := readers + {t};
        Goto(t, Inside);
      } else {
        writer := At(t);
        Goto(t, Draining);
      }
    }

    /** Lock returns in Close once the readers are gone. */
    method Drain(t: nat)
      requires Enabled(View(), Turn(t)) && ops[t].pc.Draining?
      modifies this
      ensures View() == Apply(n, old(View()), Turn(t))
    {
      Goto(t, Inside);
    }

    /** The closed flag, read by invoke and set by Close. */
    method Check(t: nat)
      requires Enabled(View(), Turn(t)) && ops[t].pc.Inside?
      modifies this
      ensures View() == Apply(n, old(View()), Turn(t))
    {
      if ops[t].call.Invoke? {
        Goto(t, if closed || !live then Leaving(SessionClosed) else Sending);
      } else if closed {
        Goto(t, Leaving(Done(closeErr)));
      } else {
        closed, closing := true, live;
        Goto(t, if live then Sending else Leaving(Done(Ok([]))));
      }
    }

    /** The unbuffered send: the worker has the request as soon as it is sent. */
    method Send(t: nat)
      requires Enabled(View(), Turn(t)) && ops[t].pc.Sending?
      modifies this
      ensures View() == Apply(n, old(View()), Turn(t))
    {
      if queueClosed {
        fault := true;
      } else {
        worker := Taken(t, ops[t].call);
        Goto(t, Awaiting);
      }
    }

    /** The reply: invoke returns it, Close stores it. */
    method Receive(t: nat)
      requires Enabled(View(), Turn(t)) && ops[t].pc.Answered?
      modifies this
      ensures View() == Apply(n, old(View()), Turn(t))
    {
      var reply := ops[t].pc.reply;
      if ops[t].call.Invoke? {
        Goto(t, Leaving(Done(reply)));
      } else {
        closeErr := reply;
        Goto(t, Sealing);
      }
    }

    /** Close closes the queue. */
    method Seal(t: nat)
      requires Enabled(View(), Turn(t)) && ops[t].pc.Sealing?
      modifies this
      ensures View() == Apply(n, old(View()), Turn(t))
    {
      queueClosed, fault := true, fault || queueClosed;
      Goto(t, Stopping);
    }

    /** The worker has stopped; Close is about to return what it stored. */
    method Join(t: nat)
      requires Enabled(View(), Turn(t)) && ops[t].pc.Stopping?
      modifies this
      ensures View() == Apply(n, old(View()), Turn(t))
    {
      closing := false;
      Goto(t, Leaving(Done(closeErr)));
    }

    /** The deferred RUnlock or Unlock. */
    method Unlock(t: nat)
      requires Enabled(View(), Turn(t)) && ops[t].pc.Leaving?
      modifies this
      ensures View() == Apply(n, old(View()), Turn(t))
    {
      var result := ops[t].pc.result;
      if ops[t].call.Invoke? {
        readers := readers - {t};
      } else {
        writer := Nobody;
      }
      Goto(t, Returned(result));
    }

    method Proceed(t: nat)
      requires Enabled(View(), Turn(t))
      modifies this
      ensures View() == Apply(n, old(View()), Turn(t))
    {
      match ops[t].pc {
        case Loading => Load(t);
        case AtGate => Lock(t);
        case Draining => Drain(t);
        case Inside => Check(t);
        case Sending => Send(t);
        case Answered(_) => Receive(t);
        case Sealing => Seal(t);
        case Stopping => Join(t);
        case Leaving(_) => Unlock(t);
      }
    }

    /** The worker completes one native operation; a failing one ends the session task. */
    method NativeStep()
      requires Enabled(View(), Step)
      modifies this
      ensures View() == Apply(n, old(View()), Step)
    {
      var job := worker.job;
      if ctx.None? {
        fault, worker := true, Running(job.(rest := []));
        return;
      }
      var (state, reply) := n.apply(ctx.value, job.rest[0]);
      ctx := Some(state);
      match reply {
        case Ok(outputs) =>
          worker := Running(job.(rest := job.rest[1..], outputs := job.outputs + outputs, past := job.past + [Did]));
        case Err(code) =>
          worker := Running(job.(rest := [], failed := Code(code), past := job.past + [Did]));
      }
    }

    /** runBootstrap up to the user function, and from its outcome on. */
    method Enter()
      requires Enabled(View(), EnterCallback)
      modifies this
      ensures View() == Apply(n, old(View()), EnterCallback)
    {
      callbackActive := true;
      worker := InCallback(worker.job.(budget := worker.job.budget - 1));
    }

    method Exit(exit: CallbackExit<V>)
      requires Enabled(View(), ExitCallback(exit))
      modifies this
      ensures View() == Apply(n, old(View()), ExitCallback(exit))
    {
      var job := worker.job;
      callbackActive := false;
      worker := Running(job.(past := job.past + [Heard(exit)]));
      if ctx.None? {
        fault := true;
      } else if |job.rest| > 0 {
        ctx := Some(n.hear(ctx.value, job.rest[0], exit));
      }
    }

    /** The worker answers: with the reply of a session task, or of freeing the context. */
    method Answer()
      requires Enabled(View(), Deliver)
      modifies this
      ensures View() == Apply(n, old(View()), Deliver)
    {
      var t := Served(worker).id;
      if worker.Running? {
        var job := worker.job;
        var reply := TaskReply(job.outputs, job.failed);
        ops := ops[t := ops[t].(pc := Answered(reply), slot := At(|log|))];
        log := log + [Ran(t, job.task, job.past, reply)];
      } else if ctx.None? {
        fault := true;
      } else {
        var reply := n.free(ctx.value);
        ops := ops[t := ops[t].(pc := Answered(reply), slot := At(|log|))];
        log := log + [Freed(t, reply)];
        ctx := None;
      }
      worker := Idle;
    }

    method Stop()
      requires Enabled(View(), WorkerExit)
      modifies this
      ensures View() == Apply(n, old(View()), WorkerExit)
    {
      worker := Stopped;
    }

    method Act(a: Action<O, V>)
      requires Enabled(View(), a)
      modifies this
      ensures View() == Apply(n, old(View()), a)
    {
      match a {
        case Start(call, nested) => Issue(call, nested);
        case Turn(t) => Proceed(t);
        case Step => NativeStep();
        case EnterCallback => Enter();
        case ExitCallback(exit) => Exit(exit);
        case Deliver => Answer();
        case WorkerExit => Stop();
      }
    }

    /** Any schedule of steps: the object follows a run of the transition system and keeps its
        invariant throughout. */
    method Follow(schedule: seq<Action<O, V>>, ghost goal: State<S, O, V>)
      requires Inv(View()) && Run(n, View(), schedule, goal)
      modifies this
      ensures View() == goal && Inv(View()) && !fault
    {
      for i := 0 to |schedule|
        invariant Inv(View()) && Run(n, View(), schedule[i..], goal)
      {
        assert schedule[i..][1..] == schedule[i + 1..];
        ActionKeeps(n, View(), schedule[i]);
        Act(schedule[i]);
      }
    }
  }
}
