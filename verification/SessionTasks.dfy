/** What a whole task does and answers, read operation by operation. */
module SessionTasks {
  import opened Wrappers
  import opened SessionProtocol
  import opened SessionSafety
  import opened SessionLog
  import opened SessionTheorems

  /** A task's closure: the operations one after the other, each after what its callbacks made the
      library hear, up to the first that fails. The state it leaves and what it returns; none if the
      events end before the task does. */
  function RunOps<S, O, V>(n: Native<S, O, V>, s: S, task: seq<O>, past: seq<Micro<V>>): Option<(S, Reply<V>)>
    decreases |past|
  {
    if task == [] then Some((s, Ok([])))
    else if past == [] then None
    else
      match past[0]
      case Heard(exit) => RunOps(n, n.hear(s, task[0], exit), task, past[1..])
      case Did =>
        var (t, reply) := n.apply(s, task[0]);
        match reply
        case Err(code) => Some((t, Err(code)))
        case Ok(outputs) =>
          match RunOps(n, t, task[1..], past[1..])
          case None => None
          case Some((u, Err(code))) => Some((u, Err(code)))
          case Some((u, Ok(more))) => Some((u, Ok(outputs + more)))
  }

  lemma {:induction false} FirstEvent<S, O, V>(n: Native<S, O, V>, p: Progress<S, O, V>, past: seq<Micro<V>>)
    requires past != []
    ensures RunTask(n, p, past) == RunTask(n, Advance(n, p, past[0]), past[1..])
    decreases |past|
  {
    hide Advance;
    var last := |past| - 1;
    if last > 0 {
      FirstEvent(n, p, past[..last]);
      assert past[1..][..last - 1] == past[..last][1..];
    } else {
      assert past[..0] == [] && past[1..] == [];
      assert RunTask(n, p, []) == p;
    }
  }

  /** A task that has nothing left stays as it is. */
  lemma {:induction false} DoneStays<S, O, V>(n: Native<S, O, V>, p: Progress<S, O, V>, past: seq<Micro<V>>)
    requires p.rest == []
    ensures RunTask(n, p, past) == p
    decreases |past|
  {
    if past != [] { DoneStays(n, p, past[..|past| - 1]); }
  }

  /** What is left of a task answers after the outputs there are already. */
  function Behind<V>(outputs: seq<V>, rest: Reply<V>): Reply<V> {
    match rest
    case Ok(more) => Ok(outputs + more)
    case Err(code) => Err(code)
  }

  lemma {:induction false} RestOfTask<S, O, V>(n: Native<S, O, V>, p: Progress<S, O, V>, past: seq<Micro<V>>)
    requires p.failed.Fine? && RunTask(n, p, past).rest == []
    ensures var q := RunTask(n, p, past);
      && RunOps(n, p.state, p.rest, past).Some?
      && var (s, reply) := RunOps(n, p.state, p.rest, past).value;
         s == q.state && Behind(p.outputs, reply) == TaskReply(q.outputs, q.failed)
    decreases |past|
  {
    if p.rest == [] {
      DoneStays(n, p, past);
      assert p.outputs + [] == p.outputs;
    } else if past != [] {
      var next := Advance(n, p, past[0]);
      FirstEvent(n, p, past);
      if next.failed.Fine? {
        RestOfTask(n, next, past[1..]);
        if past[0].Did? { OneMore(n, p, past); }
      } else {
        DoneStays(n, next, past[1..]);
      }
    }
  }

  lemma OneMore<S, O, V>(n: Native<S, O, V>, p: Progress<S, O, V>, past: seq<Micro<V>>)
    requires p.rest != [] && past != [] && past[0].Did? && n.apply(p.state, p.rest[0]).1.Ok?
    requires RunOps(n, n.apply(p.state, p.rest[0]).0, p.rest[1..], past[1..]).Some?
    ensures RunOps(n, p.state, p.rest, past).Some?
    ensures var outputs := n.apply(p.state, p.rest[0]).1.outputs;
      var (s, reply) := RunOps(n, p.state, p.rest, past).value;
      var (u, rest) := RunOps(n, n.apply(p.state, p.rest[0]).0, p.rest[1..], past[1..]).value;
      s == u && Behind(p.outputs, reply) == Behind(p.outputs + outputs, rest)
  {
    var outputs := n.apply(p.state, p.rest[0]).1.outputs;
    var rest := RunOps(n, n.apply(p.state, p.rest[0]).0, p.rest[1..], past[1..]).value.1;
    match rest
    case Ok(more) => assert p.outputs + (outputs + more) == p.outputs + outputs + more;
    case Err(_) =>
  }

  /** In every run each logged task is one that a call issued, and it did and answered what its
      operations do and answer one after the other, from the state that the tasks before it left. */
  lemma LoggedTaskRuns<S, O, V>(
    n: Native<S, O, V>, acts: seq<Action<O, V>>, s: State<S, O, V>, i: nat)
    requires Run(n, Init(n, true), acts, s) && i < |s.ses.log| && s.ses.log[i].Ran?
    ensures var e := s.ses.log[i];
      && e.tid < |s.ops| && s.ops[e.tid].call.Invoke? && s.ops[e.tid].call.task == e.task
      && After(n, s.ses.log[..i]).Some? && After(n, s.ses.log[..i + 1]).Some?
      && RunOps(n, After(n, s.ses.log[..i]).value, e.task, e.past) ==
         Some((After(n, s.ses.log[..i + 1]).value, e.reply))
  {
    hide RunOps, RunTask, Inv, Run;
    var log := s.ses.log;
    StartsWell(n, true);
    RunRefines(n, Init(n, true), acts, s);
    assert Follows(n, After(n, log[..i]), log[i]);
    assert log[..i + 1][..i] == log[..i];
    var before := After(n, log[..i]).value;
    RestOfTask(n, Progress(before, log[i].task, [], Fine), log[i].past);
    EmptyBefore(RunOps(n, before, log[i].task, log[i].past).value.1);
  }

  lemma EmptyBefore<V>(reply: Reply<V>)
    ensures Behind([], reply) == reply
  {
    if reply.Ok? { assert [] + reply.outputs == reply.outputs; }
  }
}
