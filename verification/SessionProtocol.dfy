/** The worker protocol of one Session (sdk/go/session.go), as a transition system.

    Any number of goroutines issue calls. Each call is one element of `ops`; its
    program counter says where in `invoke` or `Close` its goroutine stands. One
    worker drains the unbuffered queue and may be inside a user callback, during
    which the callback itself may issue calls and wait for them.

    The transitions keep the code's branches even where the protocol is meant to
    exclude them: a native operation without a context, a second free, a send on
    or a second close of the closed queue all set `fault`. That they never do is
    a theorem, not an assumption. */
module SessionProtocol {
  import opened Wrappers

  /** A position that may be missing: of a call in `ops`, or of an entry in the log. */
  datatype Index = Nobody | At(id: nat)

  /** Whether a task has failed, and with which code. */
  datatype Failure = Fine | Code(code: int)

  /** What a native call, or a whole task, answers: its outputs or an error code. */
  datatype Reply<+V> = Ok(outputs: seq<V>) | Err(code: int)

  /** How a user callback ends; an error and a recovered panic both report failure. */
  datatype CallbackExit<+V> = Values(values: seq<V>) | Failed | Panicked

  /** A call: `invoke` with a task that makes at most `callbacks` user callbacks, or `Close`. */
  datatype Call<+O> = Invoke(task: seq<O>, callbacks: nat) | Close

  /** What a call returns to its goroutine. */
  datatype Result<+V> = Reentry | SessionClosed | Done(reply: Reply<V>)

  /** Where a goroutine stands. `Draining`, `Sealing` and `Stopping` occur in Close only. */
  datatype Pc<+V> =
    | Loading                      // about to read callbackActive
    | AtGate                       // about to lock: RLock in invoke, Lock in Close
    | Draining                     // announced as writer, waiting for the readers
    | Inside                       // holds the gate, about to test closed
    | Sending                      // blocked on the unbuffered queue
    | Awaiting                     // request taken by the worker
    | Answered(reply: Reply<V>)    // the reply is in the buffered done channel
    | Sealing                      // closeErr stored, about to close the queue
    | Stopping                     // queue closed, waiting for the worker to stop
    | Leaving(result: Result<V>)   // about to unlock
    | Returned(result: Result<V>)

  /** `nested` marks a call that a user callback issued and waits for.
      `slot` records the position of the call's task in the log, once logged. */
  datatype Op<+O, +V> = Op(call: Call<O>, nested: bool, pc: Pc<V>, slot: Index)

  /** One indivisible native event of a task: an operation done, or a callback's outcome taken in. */
  datatype Micro<+V> = Did | Heard(exit: CallbackExit<V>)

  /** How far a task has come: native state, operations left, outputs, first failure. */
  datatype Progress<+S, +O, +V> =
    Progress(state: S, rest: seq<O>, outputs: seq<V>, failed: Failure)

  /** The request the worker is serving: its task, what is left of it and what was done so far. */
  datatype Job<+O, +V> = Job(
    tid: nat, task: seq<O>, rest: seq<O>, outputs: seq<V>, failed: Failure, budget: nat, past: seq<Micro<V>>)

  datatype Worker<+O, +V> =
    | Idle
    | Running(job: Job<O, V>)
    | InCallback(job: Job<O, V>)
    | Freeing(closer: nat)
    | Stopped

  /** The log: tasks in the order in which the worker finished them. */
  datatype Entry<+O, +V> =
    | Ran(tid: nat, task: seq<O>, past: seq<Micro<V>>, reply: Reply<V>)
    | Freed(tid: nat, reply: Reply<V>)

  /** The native library: a deterministic state function per operation. `hear` is what
      native code does with a callback's outcome while it is executing an operation. */
  datatype Native<!S, !O, !V> = Native(
    start: S,
    apply: (S, O) -> (S, Reply<V>),
    hear: (S, O, CallbackExit<V>) -> S,
    free: S -> Reply<V>)

  /** The Session's fields, its worker, and the history variables `closing` (a Close has
      closed the session and is not yet leaving), `log` and `fault`. `live` is false for
      a zero Session, whose queue is nil. */
  datatype Session<+S, +O, +V> = Session(
    live: bool,
    callbackActive: bool,
    ctx: Option<S>,
    queueClosed: bool,
    worker: Worker<O, V>,
    readers: set<nat>,
    writer: Index,
    closed: bool,
    closing: bool,
    closeErr: Reply<V>,
    log: seq<Entry<O, V>>,
    fault: bool)

  datatype State<+S, +O, +V> = State(ses: Session<S, O, V>, ops: seq<Op<O, V>>)

  datatype Action<+O, +V> =
    | Start(call: Call<O>, nested: bool)    // some goroutine, or the running callback, issues a call
    | Turn(tid: nat)                        // that goroutine takes its next step
    | Step                                  // the worker completes a native operation
    | EnterCallback
    | ExitCallback(exit: CallbackExit<V>)
    | Deliver                               // the worker puts the reply into the done channel
    | WorkerExit

  /** NewSession after a successful start; or, not live, a zero Session. */
  function Init<S, O, V>(n: Native<S, O, V>, live: bool): State<S, O, V> {
    State(Session(live, false, if live then Some(n.start) else None, false,
                  if live then Idle else Stopped, {}, Nobody, false, false, Ok([]), [], false), [])
  }

  /** Whether a goroutine at this point of its call has to wait. */
  predicate Blocked<S, O, V>(s: Session<S, O, V>, pc: Pc<V>) {
    match pc
    case AtGate => s.writer.At?
    case Draining => s.readers != {}
    case Sending => !s.worker.Idle? && !s.queueClosed
    case Awaiting => true
    case Stopping => !s.worker.Stopped?
    case Returned(_) => true
    case _ => false
  }

  /** Where the next step of a goroutine takes it. */
  function NextPc<S, O, V>(s: Session<S, O, V>, op: Op<O, V>): Pc<V> {
    var invoke := op.call.Invoke?;
    match op.pc
    case Loading => if s.callbackActive then Returned(Reentry) else AtGate
    case AtGate => if invoke then Inside else Draining
    case Draining => Inside
    case Inside =>
      if invoke then (if s.closed || !s.live then Leaving(SessionClosed) else Sending)
      else if s.closed then Leaving(Done(s.closeErr))
      else if s.live then Sending
      else Leaving(Done(Ok([])))
    case Sending => if s.queueClosed then Sending else Awaiting
    case Awaiting => Awaiting
    case Answered(r) => if invoke then Leaving(Done(r)) else Sealing
    case Sealing => Stopping
    case Stopping => Leaving(Done(s.closeErr))
    case Leaving(r) => Returned(r)
    case Returned(r) => Returned(r)
  }

  /** What the next step of goroutine `t` does to the session. */
  function NextSes<S, O, V>(s: Session<S, O, V>, t: nat, op: Op<O, V>): Session<S, O, V> {
    var invoke := op.call.Invoke?;
    match op.pc
    case AtGate => if invoke then s.(readers := s.readers + {t}) else s.(writer := At(t))
    case Inside => if invoke || s.closed then s else s.(closed := true, closing := s.live)
    case Sending => if s.queueClosed then s.(fault := true) else s.(worker := Taken(t, op.call))
    case Answered(r) => if invoke then s else s.(closeErr := r)
    case Sealing => s.(queueClosed := true, fault := s.fault || s.queueClosed)
    case Stopping => s.(closing := false)
    case Leaving(_) => if invoke then s.(readers := s.readers - {t}) else s.(writer := Nobody)
    case _ => s
  }

  /** The worker's state just after it received a request. */
  function Taken<O, V>(t: nat, call: Call<O>): Worker<O, V> {
    match call
    case Invoke(task, callbacks) => Running(Job(t, task, task, [], Fine, callbacks, []))
    case Close => Freeing(t)
  }

  /** The worker completes one native operation of the task. */
  function StepOf<S, O, V>(n: Native<S, O, V>, s: Session<S, O, V>): Session<S, O, V>
    requires s.worker.Running?
  {
    var job := s.worker.job;
    if s.ctx.None? then s.(fault := true, worker := Running(job.(rest := [])))
    else
      var p := Advance(n, ProgressOf(s.ctx.value, job), Did);
      s.(ctx := Some(p.state),
         worker := Running(Job(job.tid, job.task, p.rest, p.outputs, p.failed, job.budget, job.past + [Did])))
  }

  /** runBootstrap: the flag is set before the user function and cleared on every exit. */
  function EnterOf<S, O, V>(s: Session<S, O, V>): Session<S, O, V>
    requires s.worker.Running? && s.worker.job.budget > 0
  {
    s.(callbackActive := true, worker := InCallback(s.worker.job.(budget := s.worker.job.budget - 1)))
  }

  function ExitOf<S, O, V>(n: Native<S, O, V>, s: Session<S, O, V>, exit: CallbackExit<V>): Session<S, O, V>
    requires s.worker.InCallback?
  {
    var job := s.worker.job;
    var back := s.(callbackActive := false, worker := Running(job.(past := job.past + [Heard(exit)])));
    if s.ctx.None? then back.(fault := true)
    else back.(ctx := Some(Advance(n, ProgressOf(s.ctx.value, job), Heard(exit)).state))
  }

  /** The goroutine whose request the worker has taken. */
  function Served<O, V>(w: Worker<O, V>): Index {
    match w
    case Running(job) => At(job.tid)
    case InCallback(job) => At(job.tid)
    case Freeing(t) => At(t)
    case _ => Nobody
  }

  /** The entry that the worker's current request adds to the log. */
  function EntryOf<S, O, V>(n: Native<S, O, V>, s: Session<S, O, V>): Entry<O, V>
    requires s.worker.Running? || (s.worker.Freeing? && s.ctx.Some?)
  {
    match s.worker
    case Running(job) => Ran(job.tid, job.task, job.past, TaskReply(job.outputs, job.failed))
    case Freeing(t) => Freed(t, n.free(s.ctx.value))
  }

  function DeliverSes<S, O, V>(n: Native<S, O, V>, s: Session<S, O, V>): Session<S, O, V>
    requires s.worker.Running? || s.worker.Freeing?
  {
    if s.worker.Freeing? && s.ctx.None? then s.(fault := true, worker := Idle)
    else
      var e := EntryOf(n, s);
      s.(worker := Idle, log := s.log + [e], ctx := if e.Freed? then None else s.ctx)
  }

  function DeliverOp<S, O, V>(n: Native<S, O, V>, s: Session<S, O, V>, op: Op<O, V>): Op<O, V>
    requires s.worker.Running? || s.worker.Freeing?
  {
    if s.worker.Freeing? && s.ctx.None? then op
    else op.(pc := Answered(EntryOf(n, s).reply), slot := At(|s.log|))
  }

  /** Whether the action can be taken now. */
  predicate Enabled<S, O, V>(s: State<S, O, V>, a: Action<O, V>) {
    var w := s.ses.worker;
    match a
    case Start(_, nested) => nested ==> w.InCallback?
    case Turn(t) => t < |s.ops| && !Blocked(s.ses, s.ops[t].pc)
    case Step => w.Running? && w.job.rest != []
    case EnterCallback => w.Running? && w.job.rest != [] && w.job.budget > 0
    case ExitCallback(_) => w.InCallback? && NestedReturned(s.ops)
    case Deliver =>
      && ((w.Running? && w.job.rest == []) || w.Freeing?)
      && Served(w).id < |s.ops|
    case WorkerExit => w.Idle? && s.ses.queueClosed
  }

  /** A callback returns only after the calls it waits for have returned. */
  predicate NestedReturned<O, V>(ops: seq<Op<O, V>>) {
    forall t :: 0 <= t < |ops| && ops[t].nested ==> ops[t].pc.Returned?
  }

  function Apply<S, O, V>(n: Native<S, O, V>, s: State<S, O, V>, a: Action<O, V>): State<S, O, V>
    requires Enabled(s, a)
  {
    match a
    case Start(call, nested) => s.(ops := s.ops + [Op(call, nested, Loading, Nobody)])
    case Turn(t) =>
      State(NextSes(s.ses, t, s.ops[t]), s.ops[t := s.ops[t].(pc := NextPc(s.ses, s.ops[t]))])
    case Step => s.(ses := StepOf(n, s.ses))
    case EnterCallback => s.(ses := EnterOf(s.ses))
    case ExitCallback(exit) => s.(ses := ExitOf(n, s.ses, exit))
    case Deliver =>
      var t := Served(s.ses.worker).id;
      State(DeliverSes(n, s.ses), s.ops[t := DeliverOp(n, s.ses, s.ops[t])])
    case WorkerExit => s.(ses := s.ses.(worker := Stopped))
  }

  function TaskReply<V>(outputs: seq<V>, failed: Failure): Reply<V> {
    if failed.Code? then Err(failed.code) else Ok(outputs)
  }

  function ProgressOf<S, O, V>(state: S, job: Job<O, V>): Progress<S, O, V> {
    Progress(state, job.rest, job.outputs, job.failed)
  }

  /** Execute the next native event of a task that has one left; a failing operation ends the task. */
  function Advance<S, O, V>(n: Native<S, O, V>, p: Progress<S, O, V>, m: Micro<V>): Progress<S, O, V> {
    if p.rest == [] then p else
    match m
    case Heard(exit) => p.(state := n.hear(p.state, p.rest[0], exit))
    case Did =>
      var (state, reply) := n.apply(p.state, p.rest[0]);
      match reply
      case Ok(outputs) => Progress(state, p.rest[1..], p.outputs + outputs, p.failed)
      case Err(code) => Progress(state, [], p.outputs, Code(code))
  }

  /** A run: a sequence of actions, each enabled when taken. */
  ghost predicate Run<S, O, V>(
    n: Native<S, O, V>, s: State<S, O, V>, acts: seq<Action<O, V>>, t: State<S, O, V>)
    decreases |acts|
  {
    if acts == [] then s == t
    else Enabled(s, acts[0]) && Run(n, Apply(n, s, acts[0]), acts[1..], t)
  }
}
