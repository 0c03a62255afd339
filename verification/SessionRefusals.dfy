/** Which calls are refused, and when: the answer of every call is decided at one step of its own. */
module SessionRefusals {
  import opened SessionProtocol
  import opened SessionSafety
  import opened SessionTheorems

  // ---- The two refusals and their causes ----

  /** The call is refused: because the session is closed, which an invoke finds before it unlocks,
      or else because a callback is running. */
  predicate Refused<V>(shut: bool, pc: Pc<V>) {
    if shut then pc == Leaving(SessionClosed) || pc == Returned(SessionClosed) else pc == Returned(Reentry)
  }

  /** Some Close has returned and was not refused. */
  predicate SomeClosed<S, O, V>(s: State<S, O, V>) {
    exists c :: 0 <= c < |s.ops| && Closed(s.ops[c])
  }

  /** What makes a step of call `k` a refusal: a callback is running as it starts; or, once it holds
      the gate, some Close has returned or the session is a zero one. */
  predicate Cause<S, O, V>(shut: bool, s: State<S, O, V>, k: nat) {
    && k < |s.ops|
    && if shut then s.ops[k].pc.Inside? && (!s.ses.live || SomeClosed(s))
       else s.ops[k].pc.Loading? && s.ses.worker.InCallback?
  }

  /** Action `i` of the run is a step of call `k`, taken in state `u`. */
  ghost predicate TurnAt<S, O, V>(
    n: Native<S, O, V>, s: State<S, O, V>, acts: seq<Action<O, V>>, i: nat, u: State<S, O, V>, k: nat)
  {
    i < |acts| && acts[i] == Turn(k) && Run(n, s, acts[..i], u)
  }

  // ---- An invariant: a closed session was closed by a Close ----

  predicate HasClosed<O, V>(op: Op<O, V>) {
    && op.call.Close?
    && (op.pc.Sending? || op.pc.Awaiting? || op.pc.Answered? || op.pc.Sealing? || op.pc.Stopping?
        || op.pc.Leaving? || Closed(op))
  }

  ghost predicate Honest<S, O, V>(s: State<S, O, V>) {
    && (forall t :: 0 <= t < |s.ops| ==> s.ops[t].pc != Leaving(Reentry))
    && (s.ses.closed ==> exists c :: 0 <= c < |s.ops| && HasClosed(s.ops[c]))
  }

  /** An invoke that holds the gate finds the session closed exactly if a Close has returned. */
  lemma ClosedForReader<S, O, V>(s: State<S, O, V>, k: nat)
    requires Inv(s) && Honest(s) && k < |s.ops| && s.ops[k].call.Invoke? && s.ops[k].pc.Inside?
    ensures s.ses.closed <==> SomeClosed(s)
  {
    assert OpInv(s.ses, k, s.ops[k]);
    if s.ses.closed {
      var c :| 0 <= c < |s.ops| && HasClosed(s.ops[c]);
      assert OpInv(s.ses, c, s.ops[c]);
    }
    if c :| 0 <= c < |s.ops| && Closed(s.ops[c]) {
      assert OpInv(s.ses, c, s.ops[c]);
    }
  }

  lemma NextClosed<S, O, V>(s: Session<S, O, V>, t: nat, op: Op<O, V>)
    requires OpInv(s, t, op) && op.pc != Leaving(Reentry)
    ensures NextPc(s, op) != Leaving(Reentry)
    ensures HasClosed(op) ==> HasClosed(op.(pc := NextPc(s, op)))
    ensures NextSes(s, t, op).closed ==> s.closed || HasClosed(op.(pc := NextPc(s, op)))
  {
    match op.pc
    case Loading =>
    case AtGate =>
    case Draining =>
    case Inside =>
    case Sending =>
    case Awaiting =>
    case Answered(_) =>
    case Sealing =>
    case Stopping =>
    case Leaving(_) =>
    case Returned(_) =>
  }

  lemma HonestKeeps<S, O, V>(n: Native<S, O, V>, s: State<S, O, V>, a: Action<O, V>)
    requires Inv(s) && Honest(s) && Enabled(s, a)
    ensures Honest(Apply(n, s, a))
  {
    var t := Apply(n, s, a);
    if a.Turn? {
      assert OpInv(s.ses, a.tid, s.ops[a.tid]);
      NextClosed(s.ses, a.tid, s.ops[a.tid]);
      hide NextSes, NextPc, OpInv, HasClosed;
      if s.ses.closed {
        var c :| 0 <= c < |s.ops| && HasClosed(s.ops[c]);
        assert HasClosed(t.ops[c]);
      } else if t.ses.closed {
        assert HasClosed(t.ops[a.tid]);
      }
    } else if s.ses.closed {
      var c :| 0 <= c < |s.ops| && HasClosed(s.ops[c]);
      assert HasClosed(t.ops[c]);
    }
  }

  // ---- One step ----

  /** A step of a call turns it into a refused one exactly if it has the cause; a refusal stays. */
  lemma TurnRefuses<S, O, V>(s: State<S, O, V>, k: nat, shut: bool)
    requires Inv(s) && Honest(s) && k < |s.ops| && !Blocked(s.ses, s.ops[k].pc)
    requires shut ==> s.ops[k].call.Invoke?
    ensures Refused(shut, NextPc(s.ses, s.ops[k])) <==> Refused(shut, s.ops[k].pc) || Cause(shut, s, k)
  {
    assert OpInv(s.ses, k, s.ops[k]);
    if shut && s.ops[k].pc.Inside? { ClosedForReader(s, k); }
    hide SomeClosed;
    assert s.ops[k].pc != Leaving(Reentry);
    match s.ops[k].pc
    case Loading =>
    case AtGate =>
    case Draining =>
    case Inside =>
    case Sending =>
    case Awaiting =>
    case Answered(_) =>
    case Sealing =>
    case Stopping =>
    case Leaving(_) =>
    case Returned(_) =>
  }

  /** Nothing but such a step refuses a call. */
  lemma RefusedInOneStep<S, O, V>(n: Native<S, O, V>, s: State<S, O, V>, a: Action<O, V>, k: nat, shut: bool)
    requires Inv(s) && Honest(s) && Enabled(s, a) && k < |Apply(n, s, a).ops|
    requires shut ==> Apply(n, s, a).ops[k].call.Invoke?
    ensures Refused(shut, Apply(n, s, a).ops[k].pc) <==>
            (k < |s.ops| && Refused(shut, s.ops[k].pc)) || (a == Turn(k) && Cause(shut, s, k))
  {
    if a == Turn(k) {
      hide NextPc, NextSes, Inv, Honest, Cause, Refused;
      TurnRefuses(s, k, shut);
    } else if a.Deliver? {
      var t := Served(s.ses.worker).id;
      assert OpInv(s.ses, t, s.ops[t]);
    }
  }

  // ---- Whole runs ----

  lemma {:induction false} RefusalHasCause<S, O, V>(
    n: Native<S, O, V>, s: State<S, O, V>, acts: seq<Action<O, V>>, t: State<S, O, V>, k: nat, shut: bool)
    returns (i: nat, u: State<S, O, V>)
    requires Inv(s) && Honest(s) && Run(n, s, acts, t) && k < |t.ops| && (shut ==> t.ops[k].call.Invoke?)
    requires Refused(shut, t.ops[k].pc) && !(k < |s.ops| && Refused(shut, s.ops[k].pc))
    ensures TurnAt(n, s, acts, i, u, k) && Cause(shut, u, k)
    decreases |acts|
  {
    hide Inv, Honest, Apply, Refused, Cause;
    var next := Apply(n, s, acts[0]);
    ActionKeeps(n, s, acts[0]);
    HonestKeeps(n, s, acts[0]);
    CallStays(n, next, acts[1..], t, k);
    if k < |next.ops| && Refused(shut, next.ops[k].pc) {
      RefusedInOneStep(n, s, acts[0], k, shut);
      i, u := 0, s;
    } else {
      i, u := RefusalHasCause(n, next, acts[1..], t, k, shut);
      assert acts[..i + 1][0] == acts[0] && acts[..i + 1][1..] == acts[1..][..i];
      i := i + 1;
    }
  }

  lemma {:induction false} CallStays<S, O, V>(
    n: Native<S, O, V>, s: State<S, O, V>, acts: seq<Action<O, V>>, t: State<S, O, V>, k: nat)
    requires Run(n, s, acts, t)
    ensures |s.ops| <= |t.ops| && (k < |s.ops| ==> t.ops[k].call == s.ops[k].call)
    decreases |acts|
  {
    if acts != [] { CallStays(n, Apply(n, s, acts[0]), acts[1..], t, k); }
  }

  lemma {:induction false} CauseRefuses<S, O, V>(
    n: Native<S, O, V>, s: State<S, O, V>, acts: seq<Action<O, V>>, t: State<S, O, V>,
    i: nat, u: State<S, O, V>, k: nat, shut: bool)
    requires Inv(s) && Honest(s) && Run(n, s, acts, t) && k < |t.ops| && (shut ==> t.ops[k].call.Invoke?)
    requires (TurnAt(n, s, acts, i, u, k) && Cause(shut, u, k)) || (k < |s.ops| && Refused(shut, s.ops[k].pc))
    ensures Refused(shut, t.ops[k].pc)
    decreases |acts|
  {
    if acts != [] {
      hide Inv, Honest, Apply, Refused, Cause;
      var next := Apply(n, s, acts[0]);
      ActionKeeps(n, s, acts[0]);
      HonestKeeps(n, s, acts[0]);
      CallStays(n, s, [acts[0]], next, k);
      CallStays(n, next, acts[1..], t, k);
      if k < |s.ops| && Refused(shut, s.ops[k].pc) {
        RefusedInOneStep(n, s, acts[0], k, shut);
        CauseRefuses(n, next, acts[1..], t, 0, u, k, shut);
      } else if i == 0 {
        RefusedInOneStep(n, s, acts[0], k, shut);
        CauseRefuses(n, next, acts[1..], t, 0, u, k, shut);
      } else {
        assert acts[..i][0] == acts[0] && acts[..i][1..] == acts[1..][..i - 1];
        CauseRefuses(n, next, acts[1..], t, i - 1, u, k, shut);
      }
    }
  }

  lemma StartsHonest<S, O, V>(n: Native<S, O, V>, live: bool)
    ensures Inv(Init(n, live)) && Honest(Init(n, live))
  {
  }

  /** A call returns the reentry error exactly if it read the callback flag while a callback ran. */
  lemma ReentryExactly<S(!new), O(!new), V(!new)>(
    n: Native<S, O, V>, live: bool, acts: seq<Action<O, V>>, s: State<S, O, V>, k: nat)
    requires Run(n, Init(n, live), acts, s) && k < |s.ops|
    ensures s.ops[k].pc == Returned(Reentry) <==>
            exists i: nat, u :: TurnAt(n, Init(n, live), acts, i, u, k) && k < |u.ops|
                           && u.ops[k].pc.Loading? && u.ses.worker.InCallback?
  {
    StartsHonest(n, live);
    var first := Init(n, live);
    if s.ops[k].pc == Returned(Reentry) {
      var i, u := RefusalHasCause(n, first, acts, s, k, false);
    }
    if i: nat, u :| TurnAt(n, first, acts, i, u, k) && k < |u.ops| && u.ops[k].pc.Loading? && u.ses.worker.InCallback? {
      CauseRefuses(n, first, acts, s, i, u, k, false);
    }
  }

  /** An invoke returns ErrClosed exactly if, when it held the gate and looked, some Close had
      returned, or the session is a zero one. So whenever neither holds it is admitted. */
  lemma ClosedExactly<S(!new), O(!new), V(!new)>(
    n: Native<S, O, V>, live: bool, acts: seq<Action<O, V>>, s: State<S, O, V>, k: nat)
    requires Run(n, Init(n, live), acts, s) && k < |s.ops| && s.ops[k].call.Invoke? && s.ops[k].pc.Returned?
    ensures s.ops[k].pc.result == SessionClosed <==>
            exists i: nat, u :: TurnAt(n, Init(n, live), acts, i, u, k) && k < |u.ops|
                           && u.ops[k].pc.Inside? && (!live || SomeClosed(u))
  {
    StartsHonest(n, live);
    var first := Init(n, live);
    forall i: nat, u | TurnAt(n, first, acts, i, u, k) ensures u.ses.live == live {
      RunGrows(n, first, acts[..i], u);
    }
    if s.ops[k].pc.result == SessionClosed {
      var i, u := RefusalHasCause(n, first, acts, s, k, true);
    }
    if i: nat, u :| TurnAt(n, first, acts, i, u, k) && k < |u.ops| && u.ops[k].pc.Inside? && (!live || SomeClosed(u)) {
      CauseRefuses(n, first, acts, s, i, u, k, true);
    }
  }

  // ---- Sessions without callbacks, sessions without Close ----

  lemma OnlyEnterEnters<S, O, V>(n: Native<S, O, V>, s: State<S, O, V>, a: Action<O, V>)
    requires Enabled(s, a) && !a.EnterCallback? && !s.ses.worker.InCallback?
    ensures !Apply(n, s, a).ses.worker.InCallback?
  {
    if a.Turn? {
      NextWorker(s.ses, a.tid, s.ops[a.tid]);
    }
  }

  lemma {:induction false} NoCallbackRuns<S, O, V>(
    n: Native<S, O, V>, s: State<S, O, V>, acts: seq<Action<O, V>>, t: State<S, O, V>)
    requires Run(n, s, acts, t) && !s.ses.worker.InCallback?
    requires forall i :: 0 <= i < |acts| ==> !acts[i].EnterCallback?
    ensures !t.ses.worker.InCallback?
    decreases |acts|
  {
    hide Apply, Enabled;
    if acts != [] {
      OnlyEnterEnters(n, s, acts[0]);
      NoCallbackRuns(n, Apply(n, s, acts[0]), acts[1..], t);
    }
  }

  lemma {:induction false} NobodyCloses<S, O, V>(
    n: Native<S, O, V>, s: State<S, O, V>, acts: seq<Action<O, V>>, t: State<S, O, V>)
    requires Run(n, s, acts, t) && forall c :: 0 <= c < |s.ops| ==> s.ops[c].call.Invoke?
    requires forall i :: 0 <= i < |acts| && acts[i].Start? ==> acts[i].call.Invoke?
    ensures forall c :: 0 <= c < |t.ops| ==> t.ops[c].call.Invoke?
    decreases |acts|
  {
    if acts != [] { NobodyCloses(n, Apply(n, s, acts[0]), acts[1..], t); }
  }

  /** Without a callback no call is refused for reentry; so every invoke of a live session that
      nobody closes returns its own task's reply. */
  lemma NothingToRefuse<S(!new), O(!new), V(!new)>(
    n: Native<S, O, V>, live: bool, acts: seq<Action<O, V>>, s: State<S, O, V>, k: nat)
    requires Run(n, Init(n, live), acts, s) && k < |s.ops| && s.ops[k].pc.Returned?
    requires forall i :: 0 <= i < |acts| ==> !acts[i].EnterCallback?
    ensures !s.ops[k].pc.result.Reentry?
    ensures live && (forall i :: 0 <= i < |acts| && acts[i].Start? ==> acts[i].call.Invoke?) ==>
              s.ops[k].pc.result.Done?
  {
    var first := Init(n, live);
    StartsHonest(n, live);
    if s.ops[k].pc.result.Reentry? {
      var i, u := RefusalHasCause(n, first, acts, s, k, false);
      NoCallbackRuns(n, first, acts[..i], u);
    }
    if live && forall i :: 0 <= i < |acts| && acts[i].Start? ==> acts[i].call.Invoke? {
      NobodyCloses(n, first, acts, s);
      if s.ops[k].pc.result.SessionClosed? {
        var i, u := RefusalHasCause(n, first, acts, s, k, true);
        RunGrows(n, first, acts[..i], u);
        NobodyCloses(n, first, acts[..i], u);
      }
    }
  }
}
