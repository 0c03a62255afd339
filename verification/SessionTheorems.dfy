/** The promises of a Session, over every run from NewSession (or from a zero Session). */
module SessionTheorems {
  import opened SessionProtocol
  import opened SessionSafety
  import opened SessionLog

  lemma {:induction false} RunGrows<S, O, V>(
    n: Native<S, O, V>, s: State<S, O, V>, acts: seq<Action<O, V>>, t: State<S, O, V>)
    requires Run(n, s, acts, t)
    ensures Grows(s, t)
    decreases |acts|
  {
    if acts != [] {
      ActionGrows(n, s, acts[0]);
      RunGrows(n, Apply(n, s, acts[0]), acts[1..], t);
    }
  }

  /** No native operation and no free ever meets a missing context, and the queue is neither
      used nor closed again after it was closed. */
  lemma NeverFaults<S, O, V>(n: Native<S, O, V>, live: bool, acts: seq<Action<O, V>>, s: State<S, O, V>)
    requires Run(n, Init(n, live), acts, s)
    ensures !s.ses.fault
    ensures Served(s.ses.worker).At? ==> s.ses.ctx.Some?
  {
    RunKeeps(n, Init(n, live), acts, s);
    if Served(s.ses.worker).At? { ServedHasContext(s); }
  }

  predicate InLog<O, V>(log: seq<Entry<O, V>>, i: int, t: nat) {
    0 <= i < |log| && log[i].tid == t
  }

  /** A call whose task was admitted has it executed exactly once before it returns, and
      returns the reply of that execution; a refused call's task is never executed. */
  lemma ExactlyOnce<S, O, V>(
    n: Native<S, O, V>, live: bool, acts: seq<Action<O, V>>, s: State<S, O, V>, t: nat)
    requires Run(n, Init(n, live), acts, s)
    requires t < |s.ops| && s.ops[t].call.Invoke? && s.ops[t].pc.Returned?
    ensures var r := s.ops[t].pc.result;
      if r.Done? then
        exists i :: InLog(s.ses.log, i, t) && s.ses.log[i].Ran? && s.ses.log[i].task == s.ops[t].call.task
                    && s.ses.log[i].reply == r.reply && forall j :: InLog(s.ses.log, j, t) ==> j == i
      else Served(s.ses.worker) != At(t) && forall j :: !InLog(s.ses.log, j, t)
  {
    hide SesInv, Refines, Init, Run, CloseInv, Bounded;
    StartsWell(n, live);
    RunRefines(n, Init(n, live), acts, s);
    assert OpInv(s.ses, t, s.ops[t]);
    if s.ops[t].pc.result.Done? {
      assert InLog(s.ses.log, s.ops[t].slot.id, t);
    }
  }

  lemma StartsWell<S, O, V>(n: Native<S, O, V>, live: bool)
    ensures Inv(Init(n, live)) && Refines(n, Init(n, live).ses) && TasksOfCalls(Init(n, live))
  {
  }

  /** A Close that has returned and was not refused. */
  predicate Closed<O, V>(op: Op<O, V>) {
    op.call.Close? && op.pc.Returned? && !op.pc.result.Reentry?
  }

  /** The context is freed at most once, after every task that was ever admitted; and after a
      Close that was not refused has returned it is freed and the worker has stopped. */
  lemma FreedLastAndOnce<S, O, V>(
    n: Native<S, O, V>, live: bool, acts: seq<Action<O, V>>, s: State<S, O, V>)
    requires Run(n, Init(n, live), acts, s)
    ensures forall i :: 0 <= i < |s.ses.log| && s.ses.log[i].Freed? ==> i == |s.ses.log| - 1
    ensures forall t :: 0 <= t < |s.ops| && Closed(s.ops[t]) ==>
              && s.ses.ctx.None? && s.ses.worker.Stopped?
              && (live ==> |s.ses.log| > 0 && s.ses.log[|s.ses.log| - 1].Freed?)
              && forall u :: 0 <= u < |s.ops| ==> !s.ops[u].pc.Sending? && !s.ops[u].pc.Awaiting?
  {
    RunKeeps(n, Init(n, live), acts, s);
    RunGrows(n, Init(n, live), acts, s);
    forall t | 0 <= t < |s.ops| && Closed(s.ops[t])
      ensures Over(s.ses) && forall u :: 0 <= u < |s.ops| ==> !s.ops[u].pc.Sending? && !s.ops[u].pc.Awaiting?
    {
      assert OpInv(s.ses, t, s.ops[t]);
      forall u | 0 <= u < |s.ops|
        ensures !s.ops[u].pc.Sending? && !s.ops[u].pc.Awaiting?
      {
        assert OpInv(s.ses, u, s.ops[u]);
      }
    }
  }

  /** Every Close that is not refused returns the same error: what freeing the context answered, after
      all tasks; for a zero session none. */
  lemma ClosesAgree<S, O, V>(
    n: Native<S, O, V>, live: bool, acts: seq<Action<O, V>>, s: State<S, O, V>, t: nat, u: nat)
    requires Run(n, Init(n, live), acts, s)
    requires t < |s.ops| && Closed(s.ops[t]) && u < |s.ops| && Closed(s.ops[u])
    ensures s.ops[t].pc == s.ops[u].pc == Returned(Done(s.ses.closeErr))
    ensures !live ==> s.ses.closeErr == Ok([])
    ensures live ==> var tasks := |s.ses.log| - 1;
              && tasks >= 0 && s.ses.log[tasks].Freed? && After(n, s.ses.log[..tasks]).Some?
              && s.ses.closeErr == n.free(After(n, s.ses.log[..tasks]).value)
  {
    StartsWell(n, live);
    RunRefines(n, Init(n, live), acts, s);
    RunGrows(n, Init(n, live), acts, s);
    hide Run, Init, Bounded, After;
    assert OpInv(s.ses, t, s.ops[t]);
    assert OpInv(s.ses, u, s.ops[u]);
    if live {
      var tasks := |s.ses.log| - 1;
      assert s.ses.log[tasks].Freed? && Follows(n, After(n, s.ses.log[..tasks]), s.ses.log[tasks]);
    }
  }

  // ---- Calls issued after a Close has returned ----

  ghost predicate LateInv<S, O, V>(s: State<S, O, V>, from: nat, err: Reply<V>) {
    && Over(s.ses) && s.ses.closeErr == err
    && forall t :: from <= t < |s.ops| ==>
         match s.ops[t].pc
         case Leaving(r) => r == if s.ops[t].call.Invoke? then SessionClosed else Done(err)
         case Returned(r) => r == if s.ops[t].call.Invoke? then SessionClosed else Done(err)
         case pc => !pc.Answered? && !pc.Sending? && !pc.Awaiting?
  }

  lemma LateKeeps<S, O, V>(n: Native<S, O, V>, s: State<S, O, V>, a: Action<O, V>, from: nat, err: Reply<V>)
    requires Inv(s) && LateInv(s, from, err) && Enabled(s, a) && from <= |s.ops|
    ensures LateInv(Apply(n, s, a), from, err)
  {
    if a.Turn? { assert OpInv(s.ses, a.tid, s.ops[a.tid]); }
  }

  lemma {:induction false} LateRun<S, O, V>(
    n: Native<S, O, V>, s: State<S, O, V>, acts: seq<Action<O, V>>, t: State<S, O, V>, from: nat, err: Reply<V>)
    requires Inv(s) && LateInv(s, from, err) && from <= |s.ops| && Run(n, s, acts, t)
    ensures LateInv(t, from, err) && t.ses.log == s.ses.log
    decreases |acts|
  {
    if acts != [] {
      LateKeeps(n, s, acts[0], from, err);
      ActionKeeps(n, s, acts[0]);
      if acts[0].Turn? { NextLog(s.ses, acts[0].tid, s.ops[acts[0].tid]); }
      LateRun(n, Apply(n, s, acts[0]), acts[1..], t, from, err);
    }
  }

  /** Once some Close has returned without being refused, calls issued later do nothing:
      an invoke returns ErrClosed and a Close the same stored error. */
  lemma AfterClose<S, O, V>(
    n: Native<S, O, V>, live: bool, acts: seq<Action<O, V>>, s: State<S, O, V>, c: nat,
    more: seq<Action<O, V>>, t: State<S, O, V>, u: nat)
    requires Run(n, Init(n, live), acts, s) && Run(n, s, more, t)
    requires c < |s.ops| && Closed(s.ops[c])
    requires |s.ops| <= u < |t.ops| && t.ops[u].pc.Returned?
    ensures t.ops[u].pc.result == if t.ops[u].call.Invoke? then SessionClosed else s.ops[c].pc.result
    ensures t.ses.log == s.ses.log
  {
    RunKeeps(n, Init(n, live), acts, s);
    assert OpInv(s.ses, c, s.ops[c]);
    LateRun(n, s, more, t, |s.ops|, s.ses.closeErr);
  }

  /** A call that a callback issues and waits for is refused before it touches the gate or the
      queue; so the worker never waits for itself. */
  lemma ReentryIsRefused<S, O, V>(
    n: Native<S, O, V>, live: bool, acts: seq<Action<O, V>>, s: State<S, O, V>, t: nat)
    requires Run(n, Init(n, live), acts, s)
    requires t < |s.ops| && s.ops[t].nested
    ensures s.ops[t].pc == Returned(Reentry) || (s.ops[t].pc.Loading? && s.ses.callbackActive)
    ensures t !in s.ses.readers && s.ses.writer != At(t) && forall j :: !InLog(s.ses.log, j, t)
  {
    RunKeeps(n, Init(n, live), acts, s);
    assert OpInv(s.ses, t, s.ops[t]);
  }

  // ---- Linearization ----

  /** The replies of concurrent calls are those of their tasks run whole, one after the other, in
      log order from the start state; between tasks the native state is that of the sequential run. */
  lemma RefinesSequential<S, O, V>(
    n: Native<S, O, V>, acts: seq<Action<O, V>>, s: State<S, O, V>)
    requires Run(n, Init(n, true), acts, s)
    ensures Legal(n, s.ses.log)
    ensures Served(s.ses.worker).Nobody? ==> s.ses.ctx == After(n, s.ses.log)
  {
    RunRefines(n, Init(n, true), acts, s);
    RunGrows(n, Init(n, true), acts, s);
  }

  /** The log respects real time: a call that returned before another was issued is logged first. */
  lemma RespectsRealTime<S, O, V>(
    n: Native<S, O, V>, acts: seq<Action<O, V>>, s: State<S, O, V>, more: seq<Action<O, V>>, t: State<S, O, V>,
    a: nat, b: nat, i: int, j: int)
    requires Run(n, Init(n, true), acts, s) && Run(n, s, more, t)
    requires a < |s.ops| && s.ops[a].call.Invoke? && s.ops[a].pc.Returned?
    requires b >= |s.ops|
    requires InLog(t.ses.log, i, a) && InLog(t.ses.log, j, b)
    ensures i < j
  {
    RunKeeps(n, Init(n, true), acts, s);
    RunKeeps(n, s, more, t);
    RunGrows(n, s, more, t);
    ReturnedStays(n, s, more, t, a);
    assert OpInv(s.ses, a, s.ops[a]);
    assert OpInv(t.ses, a, t.ops[a]);
  }

  lemma {:induction false} ReturnedStays<S, O, V>(
    n: Native<S, O, V>, s: State<S, O, V>, acts: seq<Action<O, V>>, t: State<S, O, V>, a: nat)
    requires Inv(s) && Run(n, s, acts, t) && a < |s.ops| && s.ops[a].pc.Returned?
    ensures a < |t.ops| && t.ops[a] == s.ops[a]
    decreases |acts|
  {
    if acts != [] {
      assert OpInv(s.ses, a, s.ops[a]);
      ActionKeeps(n, s, acts[0]);
      ReturnedStays(n, Apply(n, s, acts[0]), acts[1..], t, a);
    }
  }
}
