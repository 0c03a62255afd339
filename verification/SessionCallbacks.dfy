/** Which calls a user callback may wait for. While a callback runs the worker serves nobody, so a
    call that has passed the flag but is not answered yet cannot return before the callback does. */
module SessionCallbacks {
  import opened SessionProtocol
  import opened SessionSafety
  import opened SessionRuns

  /** The call has passed the flag and has no answer yet. */
  predicate Waiting<V>(pc: Pc<V>) {
    pc.AtGate? || pc.Draining? || pc.Inside? || pc.Sending? || pc.Awaiting?
  }

  predicate NoExit<O, V>(acts: seq<Action<O, V>>) {
    forall i :: 0 <= i < |acts| ==> !acts[i].ExitCallback?
  }

  /** Some schedule lets call `k` return before the callback does. */
  ghost predicate CanReturn<S(!new), O(!new), V(!new)>(n: Native<S, O, V>, s: State<S, O, V>, k: nat) {
    exists acts, t: State<S, O, V> :: Run(n, s, acts, t) && NoExit(acts) && k < |t.ops| && t.ops[k].pc.Returned?
  }

  // ---- Waiting calls stay ----

  /** While a callback runs the session is open, its queue is unserved, and the gate has a reader. */
  lemma DuringCallback<S, O, V>(s: State<S, O, V>)
    requires Inv(s) && s.ses.worker.InCallback?
    ensures s.ses.live && s.ses.ctx.Some? && !s.ses.queueClosed && s.ses.callbackActive
    ensures s.ses.readers != {} && !s.ses.closed
  {
    var t := Served(s.ses.worker).id;
    assert OpInv(s.ses, t, s.ops[t]);
    assert t in s.ses.readers;
    if s.ses.writer.At? {
      assert OpInv(s.ses, s.ses.writer.id, s.ops[s.ses.writer.id]);
    }
  }

  lemma WaitingOneStep<S, O, V>(n: Native<S, O, V>, s: State<S, O, V>, a: Action<O, V>, k: nat)
    requires Inv(s) && s.ses.worker.InCallback? && k < |s.ops| && Waiting(s.ops[k].pc)
    requires Enabled(s, a) && !a.ExitCallback?
    ensures var t := Apply(n, s, a); t.ses.worker.InCallback? && k < |t.ops| && Waiting(t.ops[k].pc)
  {
    hide Inv;
    DuringCallback(s);
    if a.Turn? {
      hide NextSes;
      NextWorker(s.ses, a.tid, s.ops[a.tid]);
    }
  }

  lemma {:induction false} WaitingUntilExit<S, O, V>(
    n: Native<S, O, V>, s: State<S, O, V>, acts: seq<Action<O, V>>, t: State<S, O, V>, k: nat)
    requires Inv(s) && s.ses.worker.InCallback? && k < |s.ops| && Waiting(s.ops[k].pc)
    requires Run(n, s, acts, t) && NoExit(acts)
    ensures t.ses.worker.InCallback? && k < |t.ops| && Waiting(t.ops[k].pc)
    decreases |acts|
  {
    if acts != [] {
      hide Inv, Apply, Enabled;
      ActionKeeps(n, s, acts[0]);
      WaitingOneStep(n, s, acts[0], k);
      WaitingUntilExit(n, Apply(n, s, acts[0]), acts[1..], t, k);
    }
  }

  // ---- The others need nobody ----

  /** A call that is not waiting returns by its own steps. */
  lemma OthersReturn<S, O, V>(n: Native<S, O, V>, s: State<S, O, V>, k: nat)
    returns (acts: seq<Action<O, V>>, t: State<S, O, V>)
    requires Inv(s) && s.ses.worker.InCallback? && k < |s.ops| && !Waiting(s.ops[k].pc)
    ensures Run(n, s, acts, t) && NoExit(acts) && k < |t.ops| && t.ops[k].pc.Returned?
  {
    DuringCallback(s);
    assert OpInv(s.ses, k, s.ops[k]);
    acts, t := [], s;
    if s.ops[k].pc.Answered? {
      t := Apply(n, s, Turn(k));
      assert t.ops[k].pc.Leaving?;
      var u := Apply(n, t, Turn(k));
      acts := [Turn(k), Turn(k)];
      assert acts[1..] == [Turn(k)] && acts[1..][1..] == [];
      t := u;
    } else if !s.ops[k].pc.Returned? {
      t := Apply(n, s, Turn(k));
      acts := [Turn(k)];
      assert acts[1..] == [];
    }
  }

  /** A call can return while the callback is still running exactly if it has not yet read the flag,
      in which case it is refused, or if it is answered already. So a callback that waits for a call
      which it has not issued itself waits for ever exactly if the call had passed the flag and was
      not answered when the callback began. */
  lemma ReturnsDuringCallback<S(!new), O(!new), V(!new)>(
    n: Native<S, O, V>, live: bool, past: seq<Action<O, V>>, s: State<S, O, V>, k: nat)
    requires Run(n, Init(n, live), past, s) && s.ses.worker.InCallback? && k < |s.ops|
    ensures CanReturn(n, s, k) <==>
              s.ops[k].pc.Loading? || s.ops[k].pc.Answered? || s.ops[k].pc.Leaving? || s.ops[k].pc.Returned?
    ensures Waiting(s.ops[k].pc) <==>
              !(s.ops[k].pc.Loading? || s.ops[k].pc.Answered? || s.ops[k].pc.Leaving? || s.ops[k].pc.Returned?)
  {
    RunKeeps(n, Init(n, live), past, s);
    if Waiting(s.ops[k].pc) {
      forall acts, t: State<S, O, V> | Run(n, s, acts, t) && NoExit(acts) && k < |t.ops|
        ensures !t.ops[k].pc.Returned?
      {
        WaitingUntilExit(n, s, acts, t, k);
      }
    } else {
      var acts, t := OthersReturn(n, s, k);
      DuringCallback(s);
      assert OpInv(s.ses, k, s.ops[k]);
    }
  }

  /** Such a call is met in practice: one goroutine's task is being served, another's is waiting to
      be sent, and then the first task's callback begins. */
  lemma WaitingCallIsReachable<S(!new), O(!new), V(!new)>(n: Native<S, O, V>, op: O)
    returns (past: seq<Action<O, V>>, s: State<S, O, V>)
    ensures Run(n, Init(n, true), past, s) && s.ses.worker.InCallback?
    ensures |s.ops| == 2 && s.ops[1].pc.Sending? && !s.ops[1].nested && !CanReturn(n, s, 1)
  {
    past, s := Admit(n, Init(n, true), [], Init(n, true), op, 1);
    past, s := Queue(n, Init(n, true), past, s, Invoke([op], 0));
    past, s := Extend(n, Init(n, true), past, s, EnterCallback);
    ReturnsDuringCallback(n, true, past, s, 1);
  }
}
