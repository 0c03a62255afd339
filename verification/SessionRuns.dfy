/** Building runs of a session step by step. */
module SessionRuns {
  import opened SessionProtocol
  import opened SessionProgress

  lemma Extend<S, O, V>(
    n: Native<S, O, V>, first: State<S, O, V>, acts: seq<Action<O, V>>, s: State<S, O, V>, a: Action<O, V>)
    returns (all: seq<Action<O, V>>, t: State<S, O, V>)
    requires Run(n, first, acts, s) && Enabled(s, a)
    ensures t == Apply(n, s, a) && Run(n, first, all, t)
  {
    assert [a][1..] == [];
    RunsJoin(n, first, acts, s, [a], Apply(n, s, a));
    return acts + [a], Apply(n, s, a);
  }

  /** An open session with the worker at rest and nobody closing. */
  ghost predicate Ready<S, O, V>(s: State<S, O, V>) {
    && s.ses.live && s.ses.worker.Idle? && !s.ses.queueClosed && !s.ses.closed
    && s.ses.writer.Nobody? && !s.ses.callbackActive && s.ses.ctx.Some?
  }

  /** The state with one more call, at `pc`. */
  function With<S, O, V>(
    ses: Session<S, O, V>, ops: seq<Op<O, V>>, call: Call<O>, pc: Pc<V>, slot: Index): State<S, O, V>
  {
    State(ses, ops + [Op(call, false, pc, slot)])
  }

  lemma WithTurn<S, O, V>(
    n: Native<S, O, V>, first: State<S, O, V>, acts: seq<Action<O, V>>, s: State<S, O, V>,
    ses: Session<S, O, V>, ops: seq<Op<O, V>>, call: Call<O>, pc: Pc<V>, slot: Index)
    returns (all: seq<Action<O, V>>, t: State<S, O, V>)
    requires Run(n, first, acts, s) && s == With(ses, ops, call, pc, slot) && !Blocked(ses, pc)
    ensures var op := Op(call, false, pc, slot);
      t == With(NextSes(ses, |ops|, op), ops, call, NextPc(ses, op), slot)
    ensures Run(n, first, all, t)
  {
    all, t := Extend(n, first, acts, s, Turn(|ops|));
  }

  /** A call is issued, locks, finds the session open and comes to the queue. */
  lemma Queue<S, O, V>(
    n: Native<S, O, V>, first: State<S, O, V>, acts: seq<Action<O, V>>, s: State<S, O, V>, call: Call<O>)
    returns (all: seq<Action<O, V>>, t: State<S, O, V>)
    requires Run(n, first, acts, s) && call.Invoke?
    requires s.ses.live && !s.ses.closed && s.ses.writer.Nobody? && !s.ses.callbackActive
    ensures Run(n, first, all, t)
    ensures t == With(s.ses.(readers := s.ses.readers + {|s.ops|}), s.ops, call, Sending, Nobody)
  {
    all, t := Extend(n, first, acts, s, Start(call, false));
    all, t := WithTurn(n, first, all, t, s.ses, s.ops, call, Loading, Nobody);
    all, t := WithTurn(n, first, all, t, s.ses, s.ops, call, AtGate, Nobody);
    var held := s.ses.(readers := s.ses.readers + {|s.ops|});
    all, t := WithTurn(n, first, all, t, held, s.ops, call, Inside, Nobody);
  }

  /** With the worker at rest the call is taken at once. */
  lemma Admit<S, O, V>(
    n: Native<S, O, V>, first: State<S, O, V>, acts: seq<Action<O, V>>, s: State<S, O, V>, op: O, callbacks: nat)
    returns (all: seq<Action<O, V>>, t: State<S, O, V>)
    requires Run(n, first, acts, s) && Ready(s)
    ensures Run(n, first, all, t)
    ensures t == With(s.ses.(readers := s.ses.readers + {|s.ops|},
                             worker := Running(Job(|s.ops|, [op], [op], [], Fine, callbacks, []))),
                      s.ops, Invoke([op], callbacks), Awaiting, Nobody)
  {
    var call := Invoke([op], callbacks);
    all, t := Queue(n, first, acts, s, call);
    all, t := WithTurn(n, first, all, t, t.ses, s.ops, call, Sending, Nobody);
  }
}
