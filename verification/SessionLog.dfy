/** Concurrent calls against one worker behave like a sequential log of whole tasks. */
module SessionLog {
  import opened Wrappers
  import opened SessionProtocol
  import opened SessionSafety

  // ---- The sequential reading of a log ----

  /** Execute native events one after the other, with nothing in between. */
  function RunTask<S, O, V>(n: Native<S, O, V>, p: Progress<S, O, V>, past: seq<Micro<V>>): Progress<S, O, V> {
    if past == [] then p
    else Advance(n, RunTask(n, p, past[..|past| - 1]), past[|past| - 1])
  }

  function WholeTask<S, O, V>(n: Native<S, O, V>, s: S, task: seq<O>, past: seq<Micro<V>>): Progress<S, O, V> {
    RunTask(n, Progress(s, task, [], Fine), past)
  }

  /** The native state after the entries of the log, one whole task at a time; none after a free. */
  function After<S, O, V>(n: Native<S, O, V>, log: seq<Entry<O, V>>): Option<S> {
    if log == [] then Some(n.start)
    else
      var before := After(n, log[..|log| - 1]);
      match log[|log| - 1]
      case Freed(_, _) => None
      case Ran(_, task, past, _) =>
        if before.None? then None else Some(WholeTask(n, before.value, task, past).state)
  }

  /** The entry is what its task, run alone and to its end from `s`, does and answers. */
  ghost predicate Follows<S, O, V>(n: Native<S, O, V>, s: Option<S>, e: Entry<O, V>) {
    s.Some? &&
    match e
    case Ran(_, task, past, reply) =>
      var p := WholeTask(n, s.value, task, past);
      p.rest == [] && reply == TaskReply(p.outputs, p.failed)
    case Freed(_, reply) => reply == n.free(s.value)
  }

  /** Every entry follows from the state that the entries before it leave. */
  ghost predicate Legal<S, O, V>(n: Native<S, O, V>, log: seq<Entry<O, V>>) {
    forall i :: 0 <= i < |log| ==> Follows(n, After(n, log[..i]), log[i])
  }

  // ---- The concurrent session refines it ----

  ghost predicate Refines<S, O, V>(n: Native<S, O, V>, s: Session<S, O, V>) {
    && Legal(n, s.log)
    && if s.worker.Running? || s.worker.InCallback? then
         && s.ctx.Some? && After(n, s.log).Some?
         && ProgressOf(s.ctx.value, s.worker.job)
            == WholeTask(n, After(n, s.log).value, s.worker.job.task, s.worker.job.past)
       else s.ctx == if s.live then After(n, s.log) else None
  }

  /** The worker's task and the logged tasks are those of the calls. */
  ghost predicate TasksOfCalls<S, O, V>(s: State<S, O, V>) {
    && (s.ses.worker.Running? || s.ses.worker.InCallback? ==>
          && s.ses.worker.job.tid < |s.ops|
          && s.ops[s.ses.worker.job.tid].call.Invoke?
          && s.ops[s.ses.worker.job.tid].call.task == s.ses.worker.job.task)
    && (forall i :: 0 <= i < |s.ses.log| && s.ses.log[i].Ran? ==>
          && s.ses.log[i].tid < |s.ops|
          && s.ops[s.ses.log[i].tid].call.Invoke?
          && s.ops[s.ses.log[i].tid].call.task == s.ses.log[i].task)
  }

  lemma TurnRefines<S, O, V>(n: Native<S, O, V>, s: Session<S, O, V>, t: nat, op: Op<O, V>)
    requires SesInv(s) && OpInv(s, t, op) && !Blocked(s, op.pc) && Refines(n, s)
    ensures Refines(n, NextSes(s, t, op))
  {
    hide NextSes, Over, Gone, ClosingInv, AnswerInv, Legal;
    NextLog(s, t, op);
    NextCtx(s, t, op);
    NextWorker(s, t, op);
    NextLive(s, t, op);
  }

  lemma LogOne<S, O, V>(n: Native<S, O, V>, log: seq<Entry<O, V>>, e: Entry<O, V>)
    requires Legal(n, log) && Follows(n, After(n, log), e)
    ensures Legal(n, log + [e])
    ensures After(n, log + [e]) == match e
              case Freed(_, _) => None
              case Ran(_, task, past, _) => Some(WholeTask(n, After(n, log).value, task, past).state)
  {
    assert (log + [e])[..|log|] == log;
    forall i | 0 <= i < |log + [e]|
      ensures Follows(n, After(n, (log + [e])[..i]), (log + [e])[i])
    {
      assert (log + [e])[..i] == log[..i];
      if i == |log| { assert log[..i] == log; }
    }
  }

  lemma DeliverRefines<S, O, V>(n: Native<S, O, V>, s: Session<S, O, V>)
    requires SesInv(s) && Refines(n, s) && s.ctx.Some?
    requires s.worker.Freeing? || (s.worker.Running? && s.worker.job.rest == [])
    ensures Refines(n, DeliverSes(n, s))
  {
    LogOne(n, s.log, EntryOf(n, s));
  }

  lemma WorkerRefines<S, O, V>(n: Native<S, O, V>, s: State<S, O, V>, a: Action<O, V>)
    requires SesInv(s.ses) && Refines(n, s.ses) && Internal(a) && Enabled(s, a)
    ensures Refines(n, Apply(n, s, a).ses)
  {
    if a.Step? || a.ExitCallback? {
      var past := Apply(n, s, a).ses.worker.job.past;
      assert past[..|past| - 1] == s.ses.worker.job.past;
    }
  }

  lemma ActionRefines<S, O, V>(n: Native<S, O, V>, s: State<S, O, V>, a: Action<O, V>)
    requires Inv(s) && Refines(n, s.ses) && Enabled(s, a)
    ensures Refines(n, Apply(n, s, a).ses)
  {
    match a
    case Start(_, _) =>
    case Turn(t) => TurnRefines(n, s.ses, t, s.ops[t]);
    case Deliver =>
      ServedHasContext(s);
      DeliverRefines(n, s.ses);
    case _ => WorkerRefines(n, s, a);
  }

  /** A run changes no call and takes no entry from the log. */
  ghost predicate Grows<S, O, V>(s: State<S, O, V>, t: State<S, O, V>) {
    && t.ses.live == s.ses.live && |s.ops| <= |t.ops| && s.ses.log <= t.ses.log
    && forall i :: 0 <= i < |s.ops| ==> t.ops[i].call == s.ops[i].call
  }

  lemma ActionGrows<S, O, V>(n: Native<S, O, V>, s: State<S, O, V>, a: Action<O, V>)
    requires Enabled(s, a)
    ensures Grows(s, Apply(n, s, a))
  {
    if a.Turn? {
      NextLog(s.ses, a.tid, s.ops[a.tid]);
      NextLive(s.ses, a.tid, s.ops[a.tid]);
    }
  }

  lemma TurnKeepsTasks<S, O, V>(n: Native<S, O, V>, s: State<S, O, V>, t: nat)
    requires TasksOfCalls(s) && Enabled(s, Turn(t))
    ensures TasksOfCalls(Apply(n, s, Turn(t)))
  {
    hide NextSes, NextPc, Blocked;
    ActionGrows(n, s, Turn(t));
    NextLog(s.ses, t, s.ops[t]);
    NextWorker(s.ses, t, s.ops[t]);
  }

  lemma ActionKeepsTasks<S, O, V>(n: Native<S, O, V>, s: State<S, O, V>, a: Action<O, V>)
    requires Inv(s) && TasksOfCalls(s) && Enabled(s, a)
    ensures TasksOfCalls(Apply(n, s, a))
  {
    match a
    case Turn(t) => TurnKeepsTasks(n, s, t);
    case Deliver =>
      ServedHasContext(s);
      ActionGrows(n, s, a);
    case _ => ActionGrows(n, s, a);
  }

  lemma {:induction false} RunRefines<S, O, V>(
    n: Native<S, O, V>, s: State<S, O, V>, acts: seq<Action<O, V>>, t: State<S, O, V>)
    requires Inv(s) && Refines(n, s.ses) && TasksOfCalls(s) && Run(n, s, acts, t)
    ensures Inv(t) && Refines(n, t.ses) && TasksOfCalls(t)
    decreases |acts|
  {
    if acts != [] {
      ActionKeeps(n, s, acts[0]);
      ActionRefines(n, s, acts[0]);
      ActionKeepsTasks(n, s, acts[0]);
      RunRefines(n, Apply(n, s, acts[0]), acts[1..], t);
    }
  }
}
