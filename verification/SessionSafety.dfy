/** What every reachable state of the session protocol satisfies. */
module SessionSafety {
  import opened SessionProtocol

  // ---- The invariant: one part about the session, one about each call ----

  /** The goroutine is between its lock and its unlock. */
  predicate Held<V>(pc: Pc<V>) {
    pc.Inside? || pc.Sending? || pc.Awaiting? || pc.Answered? || pc.Sealing? || pc.Stopping? || pc.Leaving?
  }

  predicate NoFree<O, V>(log: seq<Entry<O, V>>) {
    forall i :: 0 <= i < |log| ==> log[i].Ran?
  }

  /** The log ends with the one free, after tasks only. */
  predicate FreedLast<O, V>(log: seq<Entry<O, V>>) {
    |log| > 0 && log[|log| - 1].Freed? && NoFree(log[..|log| - 1])
  }

  /** Before the free: there is a context and nothing was freed. */
  predicate Open<S, O, V>(s: Session<S, O, V>) {
    s.live && s.ctx.Some? && !s.queueClosed && !s.worker.Stopped? && NoFree(s.log)
  }

  /** After the free: no context, and the log ends with the free. */
  predicate Gone<S, O, V>(s: Session<S, O, V>) {
    s.live && s.ctx.None? && (s.worker.Idle? || s.worker.Stopped?) && FreedLast(s.log)
  }

  /** After the Close that closed the session; also a closed zero Session. */
  ghost predicate Over<S, O, V>(s: Session<S, O, V>) {
    s.closed && !s.closing && s.worker.Stopped? && s.ctx.None? &&
    if s.live then Gone(s) && s.queueClosed && s.closeErr == s.log[|s.log| - 1].reply
    else s.log == [] && s.closeErr == Ok([])
  }

  ghost predicate SesInv<S, O, V>(s: Session<S, O, V>) {
    && !s.fault
    && (!s.live ==> s.worker.Stopped? && s.ctx.None? && s.log == [] && s.closeErr == Ok([]) && !s.closing)
    && (s.live && !s.closed ==> Open(s) && !s.closing)
    && (s.closed && !s.closing ==> Over(s))
    && (s.closing ==> s.closed && s.writer.At? && (Open(s) || Gone(s)))
    && s.callbackActive == s.worker.InCallback?
    && (s.worker.InCallback? ==> s.worker.job.rest != [])
  }

  /** The progress of the Close that closes the session. */
  ghost predicate ClosingInv<S, O, V>(s: Session<S, O, V>, pc: Pc<V>) {
    match pc
    case Sending => s.closing && Open(s)
    case Awaiting => s.closing && Open(s)
    case Answered(r) => s.closing && Gone(s) && !s.queueClosed && s.worker.Idle? && s.log[|s.log| - 1].reply == r
    case Sealing => s.closing && Gone(s) && !s.queueClosed && s.worker.Idle? && s.log[|s.log| - 1].reply == s.closeErr
    case Stopping => s.closing && Gone(s) && s.queueClosed && s.log[|s.log| - 1].reply == s.closeErr
    case Leaving(r) => Over(s) && r == Done(s.closeErr)
    case Returned(r) => r == Reentry || (Over(s) && r == Done(s.closeErr))
    case Draining => !s.closing
    case Inside => !s.closing
    case _ => true
  }

  /** An answered call is in the log with the reply it was given. */
  ghost predicate LoggedWith<S, O, V>(s: Session<S, O, V>, op: Op<O, V>, r: Reply<V>) {
    && op.slot.At? && op.slot.id < |s.log|
    && s.log[op.slot.id].reply == r
    && s.log[op.slot.id].Ran?
  }

  ghost predicate ResultInv<S, O, V>(s: Session<S, O, V>, op: Op<O, V>, r: Result<V>) {
    if r.Done? then LoggedWith(s, op, r.reply) else op.slot.Nobody?
  }

  ghost predicate AnswerInv<S, O, V>(s: Session<S, O, V>, op: Op<O, V>) {
    match op.pc
    case Answered(r) => LoggedWith(s, op, r)
    case Leaving(r) => ResultInv(s, op, r)
    case Returned(r) => ResultInv(s, op, r)
    case _ => op.slot.Nobody?
  }

  ghost predicate InvokeInv<S, O, V>(s: Session<S, O, V>, t: nat, op: Op<O, V>) {
    && (t in s.readers <==> Held(op.pc))
    && s.writer != At(t)
    && !op.pc.Draining? && !op.pc.Sealing? && !op.pc.Stopping?
    && (op.pc.Sending? || op.pc.Awaiting? ==> s.live && !s.closed)
    && (Served(s.worker) == At(t) ==> !s.worker.Freeing?)
    && AnswerInv(s, op)
  }

  ghost predicate CloseInv<S, O, V>(s: Session<S, O, V>, t: nat, op: Op<O, V>) {
    && t !in s.readers
    && (s.writer == At(t) <==> op.pc.Draining? || Held(op.pc))
    && (Held(op.pc) ==> s.readers == {})
    && (Served(s.worker) == At(t) ==> s.worker.Freeing?)
    && ClosingInv(s, op.pc)
    && (op.slot.At? ==> op.pc.Answered? || op.pc.Sealing? || op.pc.Stopping? || op.pc.Leaving? || op.pc.Returned?)
    && (op.pc == Returned(Reentry) ==> op.slot.Nobody?)
  }

  ghost predicate OpInv<S, O, V>(s: Session<S, O, V>, t: nat, op: Op<O, V>) {
    && (Served(s.worker) == At(t) <==> op.pc.Awaiting?)
    && (op.nested ==> op.pc == Returned(Reentry) || (op.pc.Loading? && s.worker.InCallback?))
    && (op.slot.At? ==> op.slot.id < |s.log| && s.log[op.slot.id].tid == t)
    && (forall i :: 0 <= i < |s.log| && s.log[i].tid == t ==> op.slot == At(i))
    && if op.call.Invoke? then InvokeInv(s, t, op) else CloseInv(s, t, op)
  }

  /** The session speaks of existing calls only. */
  predicate Bounded<S, O, V>(s: Session<S, O, V>, count: nat) {
    && (forall t :: t in s.readers ==> t < count)
    && (s.writer.At? ==> s.writer.id < count)
    && (Served(s.worker).At? ==> Served(s.worker).id < count)
    && (forall i :: 0 <= i < |s.log| ==> s.log[i].tid < count)
  }

  ghost predicate Inv<S, O, V>(s: State<S, O, V>) {
    && SesInv(s.ses)
    && Bounded(s.ses, |s.ops|)
    && forall t :: 0 <= t < |s.ops| ==> OpInv(s.ses, t, s.ops[t])
  }

  // ---- Every action keeps it ----

  lemma TurnKeepsSession<S, O, V>(s: Session<S, O, V>, t: nat, op: Op<O, V>)
    requires SesInv(s) && OpInv(s, t, op) && !Blocked(s, op.pc)
    ensures SesInv(NextSes(s, t, op))
  {
  }

  lemma InvokeKeepsSelf<S, O, V>(s: Session<S, O, V>, t: nat, op: Op<O, V>)
    requires SesInv(s) && OpInv(s, t, op) && !Blocked(s, op.pc) && op.call.Invoke?
    ensures OpInv(NextSes(s, t, op), t, op.(pc := NextPc(s, op)))
  {
  }

  lemma CloseKeepsSelf<S, O, V>(s: Session<S, O, V>, t: nat, op: Op<O, V>)
    requires SesInv(s) && OpInv(s, t, op) && !Blocked(s, op.pc) && op.call.Close?
    ensures OpInv(NextSes(s, t, op), t, op.(pc := NextPc(s, op)))
  {
  }

  lemma InvokeKeepsOther<S, O, V>(s: Session<S, O, V>, t: nat, op: Op<O, V>, u: nat, other: Op<O, V>)
    requires SesInv(s) && OpInv(s, t, op) && !Blocked(s, op.pc) && op.call.Invoke?
    requires u != t && OpInv(s, u, other)
    ensures OpInv(NextSes(s, t, op), u, other)
  {
  }

  lemma CloseKeepsOther<S, O, V>(s: Session<S, O, V>, t: nat, op: Op<O, V>, u: nat, other: Op<O, V>)
    requires SesInv(s) && OpInv(s, t, op) && !Blocked(s, op.pc) && op.call.Close?
    requires u != t && OpInv(s, u, other)
    ensures OpInv(NextSes(s, t, op), u, other)
  {
  }

  // A goroutine's step brings no call but its own into the session, and logs nothing.

  lemma NextWriter<S, O, V>(s: Session<S, O, V>, t: nat, op: Op<O, V>)
    ensures var writer := NextSes(s, t, op).writer;
      writer == s.writer || writer == At(t) || writer.Nobody?
  {
    match op.pc
    case Loading =>
    case AtGate =>
    case Inside =>
    case Sending =>
    case Answered(_) =>
    case Sealing =>
    case Stopping =>
    case Leaving(_) =>
    case _ =>
  }

  lemma NextServed<S, O, V>(s: Session<S, O, V>, t: nat, op: Op<O, V>)
    ensures Served(NextSes(s, t, op).worker) == Served(s.worker) || Served(NextSes(s, t, op).worker) == At(t)
  {
    match op.pc
    case Loading =>
    case AtGate =>
    case Inside =>
    case Sending =>
    case Answered(_) =>
    case Sealing =>
    case Stopping =>
    case Leaving(_) =>
    case _ =>
  }

  lemma NextReaders<S, O, V>(s: Session<S, O, V>, t: nat, op: Op<O, V>)
    ensures NextSes(s, t, op).readers <= s.readers + {t}
  {
    match op.pc
    case Loading =>
    case AtGate =>
    case Inside =>
    case Sending =>
    case Answered(_) =>
    case Sealing =>
    case Stopping =>
    case Leaving(_) =>
    case _ =>
  }

  lemma NextLog<S, O, V>(s: Session<S, O, V>, t: nat, op: Op<O, V>)
    ensures NextSes(s, t, op).log == s.log
  {
    match op.pc
    case Loading =>
    case AtGate =>
    case Inside =>
    case Sending =>
    case Answered(_) =>
    case Sealing =>
    case Stopping =>
    case Leaving(_) =>
    case _ =>
  }

  lemma NextCtx<S, O, V>(s: Session<S, O, V>, t: nat, op: Op<O, V>)
    ensures NextSes(s, t, op).ctx == s.ctx
  {
    match op.pc
    case Loading =>
    case AtGate =>
    case Inside =>
    case Sending =>
    case Answered(_) =>
    case Sealing =>
    case Stopping =>
    case Leaving(_) =>
    case _ =>
  }

  /** A goroutine's step gives the worker at most its own request. */
  lemma NextWorker<S, O, V>(s: Session<S, O, V>, t: nat, op: Op<O, V>)
    ensures NextSes(s, t, op).worker == if op.pc.Sending? && !s.queueClosed then Taken(t, op.call) else s.worker
  {
    hide Taken;
    match op.pc
    case Loading =>
    case AtGate =>
    case Inside =>
    case Sending =>
    case Answered(_) =>
    case Sealing =>
    case Stopping =>
    case Leaving(_) =>
    case _ =>
  }

  lemma NextLive<S, O, V>(s: Session<S, O, V>, t: nat, op: Op<O, V>)
    ensures NextSes(s, t, op).live == s.live
  {
    match op.pc
    case Loading =>
    case AtGate =>
    case Inside =>
    case Sending =>
    case Answered(_) =>
    case Sealing =>
    case Stopping =>
    case Leaving(_) =>
    case _ =>
  }

  lemma TurnKeepsBounds<S, O, V>(s: Session<S, O, V>, t: nat, op: Op<O, V>, count: nat)
    requires Bounded(s, count) && t < count
    ensures Bounded(NextSes(s, t, op), count)
  {
    NextWriter(s, t, op);
    NextServed(s, t, op);
    NextReaders(s, t, op);
    NextLog(s, t, op);
  }

  /** One call moved and the session with it; the other calls' parts still hold. */
  lemma Moved<S, O, V>(ses: Session<S, O, V>, ops: seq<Op<O, V>>, t: nat, op: Op<O, V>)
    requires SesInv(ses) && Bounded(ses, |ops|) && t < |ops| && OpInv(ses, t, op)
    requires forall u :: 0 <= u < |ops| && u != t ==> OpInv(ses, u, ops[u])
    ensures Inv(State(ses, ops[t := op]))
  {
    hide SesInv, OpInv, Bounded;
  }

  lemma TurnKeeps<S, O, V>(n: Native<S, O, V>, s: State<S, O, V>, t: nat)
    requires Inv(s) && Enabled(s, Turn(t))
    ensures Inv(Apply(n, s, Turn(t)))
  {
    hide SesInv, OpInv, Bounded, NextSes, NextPc, Blocked;
    var op := s.ops[t];
    TurnKeepsSession(s.ses, t, op);
    TurnKeepsBounds(s.ses, t, op, |s.ops|);
    if op.call.Invoke? { InvokeKeepsSelf(s.ses, t, op); } else { CloseKeepsSelf(s.ses, t, op); }
    forall u | 0 <= u < |s.ops| && u != t
      ensures OpInv(NextSes(s.ses, t, op), u, s.ops[u])
    {
      if op.call.Invoke? { InvokeKeepsOther(s.ses, t, op, u, s.ops[u]); }
      else { CloseKeepsOther(s.ses, t, op, u, s.ops[u]); }
    }
    Moved(NextSes(s.ses, t, op), s.ops, t, op.(pc := NextPc(s.ses, op)));
  }

  /** Actions of the worker that end no request. */
  predicate Internal<O, V>(a: Action<O, V>) {
    a.Step? || a.EnterCallback? || a.ExitCallback? || a.WorkerExit?
  }

  lemma WorkerKeepsOp<S, O, V>(n: Native<S, O, V>, s: State<S, O, V>, a: Action<O, V>, u: nat)
    requires SesInv(s.ses) && Internal(a) && Enabled(s, a) && u < |s.ops|
    requires OpInv(s.ses, u, s.ops[u])
    ensures OpInv(Apply(n, s, a).ses, u, s.ops[u])
  {
  }

  lemma WorkerKeeps<S, O, V>(n: Native<S, O, V>, s: State<S, O, V>, a: Action<O, V>)
    requires Inv(s) && Internal(a) && Enabled(s, a)
    ensures Inv(Apply(n, s, a))
  {
    if !a.WorkerExit? { ServedHasContext(s); }
    forall u | 0 <= u < |s.ops|
      ensures OpInv(Apply(n, s, a).ses, u, s.ops[u])
    {
      WorkerKeepsOp(n, s, a, u);
    }
  }

  /** A task is never executing, and a free never pending, without a context. */
  lemma ServedHasContext<S, O, V>(s: State<S, O, V>)
    requires Inv(s) && Served(s.ses.worker).At?
    ensures s.ses.ctx.Some?
  {
    var t := Served(s.ses.worker).id;
    assert OpInv(s.ses, t, s.ops[t]);
  }

  lemma DeliverKeepsOther<S, O, V>(
    n: Native<S, O, V>, s: Session<S, O, V>, t: nat, op: Op<O, V>, u: nat, other: Op<O, V>)
    requires SesInv(s) && s.ctx.Some? && (s.worker.Running? || s.worker.Freeing?)
    requires Served(s.worker) == At(t) && OpInv(s, t, op)
    requires u != t && OpInv(s, u, other)
    ensures OpInv(DeliverSes(n, s), u, other)
  {
  }

  lemma DeliverKeepsSelf<S, O, V>(n: Native<S, O, V>, s: Session<S, O, V>, t: nat, op: Op<O, V>)
    requires SesInv(s) && s.ctx.Some? && (s.worker.Running? || s.worker.Freeing?)
    requires Served(s.worker) == At(t) && OpInv(s, t, op)
    ensures SesInv(DeliverSes(n, s)) && OpInv(DeliverSes(n, s), t, DeliverOp(n, s, op))
  {
  }

  /** The served goroutine awaits its reply. */
  lemma ServedAwaits<S, O, V>(s: State<S, O, V>)
    requires Inv(s) && Served(s.ses.worker).At?
    ensures Served(s.ses.worker).id < |s.ops|
    ensures s.ops[Served(s.ses.worker).id].pc.Awaiting?
  {
    var t := Served(s.ses.worker).id;
    assert OpInv(s.ses, t, s.ops[t]);
  }

  lemma DeliverKeepsBounds<S, O, V>(n: Native<S, O, V>, s: Session<S, O, V>, count: nat)
    requires Bounded(s, count) && s.ctx.Some? && (s.worker.Running? || s.worker.Freeing?)
    ensures Bounded(DeliverSes(n, s), count)
  {
  }

  lemma DeliverKeeps<S, O, V>(n: Native<S, O, V>, s: State<S, O, V>)
    requires Inv(s) && Enabled(s, Deliver)
    ensures Inv(Apply(n, s, Deliver))
  {
    hide SesInv, OpInv, Bounded, DeliverSes, DeliverOp;
    ServedHasContext(s);
    var t := Served(s.ses.worker).id;
    DeliverKeepsSelf(n, s.ses, t, s.ops[t]);
    DeliverKeepsBounds(n, s.ses, |s.ops|);
    forall u | 0 <= u < |s.ops| && u != t
      ensures OpInv(DeliverSes(n, s.ses), u, s.ops[u])
    {
      DeliverKeepsOther(n, s.ses, t, s.ops[t], u, s.ops[u]);
    }
    Moved(DeliverSes(n, s.ses), s.ops, t, DeliverOp(n, s.ses, s.ops[t]));
  }

  lemma StartKeeps<S, O, V>(n: Native<S, O, V>, s: State<S, O, V>, call: Call<O>, nested: bool)
    requires Inv(s) && Enabled(s, Start(call, nested))
    ensures Inv(Apply(n, s, Start(call, nested)))
  {
  }

  lemma ActionKeeps<S, O, V>(n: Native<S, O, V>, s: State<S, O, V>, a: Action<O, V>)
    requires Inv(s) && Enabled(s, a)
    ensures Inv(Apply(n, s, a))
  {
    match a
    case Start(call, nested) => StartKeeps(n, s, call, nested);
    case Turn(t) => TurnKeeps(n, s, t);
    case Deliver => DeliverKeeps(n, s);
    case _ => WorkerKeeps(n, s, a);
  }

  lemma {:induction false} RunKeeps<S, O, V>(
    n: Native<S, O, V>, s: State<S, O, V>, acts: seq<Action<O, V>>, t: State<S, O, V>)
    requires Inv(s) && Run(n, s, acts, t)
    ensures Inv(t)
    decreases |acts|
  {
    if acts != [] {
      ActionKeeps(n, s, acts[0]);
      RunKeeps(n, Apply(n, s, acts[0]), acts[1..], t);
    }
  }
}
