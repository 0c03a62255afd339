/** Vanilla options priced through a shared session (sdk/go/options.go): one-shot `price`
    against `setEngine` followed by a separate `value`. */
module OptionCalls {
  import opened Wrappers
  import opened SessionProtocol
  import opened SessionLog
  import opened SessionRuns
  import opened SessionTheorems

  const INVALID_ARGUMENT := 1
  const INVALID_HANDLE := 2
  const CORE_ERROR := 3

  /** A pricing engine, as attached from a source handle. */
  datatype Engine = Engine(source: nat, kind: int, order: nat)

  /** The native objects these calls touch; `sources` gives the engine kind a handle serves. */
  datatype Book<+M> = Book(options: map<nat, Option<Engine>>, sources: map<nat, int>, market: M)

  datatype NativeOp =
    | SetEngine(option: nat, source: nat, kind: int, order: nat)
    | Value(option: nat, field: int)
    | Other(code: nat)

  /** Valuation and the rest of the library, as deterministic functions. */
  datatype Library<!M> = Library(
    value: (M, nat, Engine, int) -> Reply<real>,
    validOrder: nat -> bool,
    other: (Book<M>, nat) -> (Book<M>, Reply<real>),
    hear: (M, NativeOp, CallbackExit<real>) -> M,
    free: Book<M> -> Reply<real>)

  /** itofin_option_set_engine */
  function Attach<M>(lib: Library<M>, b: Book<M>, o: nat, e: Engine): (Book<M>, Reply<real>) {
    if o !in b.options then (b, Err(INVALID_HANDLE))
    else if e.kind !in {0, 1, 2} then (b, Err(INVALID_ARGUMENT))
    else if e.source !in b.sources || b.sources[e.source] != e.kind then (b, Err(INVALID_HANDLE))
    else if e.kind == 1 && !lib.validOrder(e.order) then (b, Err(CORE_ERROR))
    else (b.(options := b.options[o := Some(e)]), Ok([]))
  }

  /** itofin_option_value */
  function Valuation<M>(lib: Library<M>, b: Book<M>, o: nat, field: int): Reply<real> {
    if o !in b.options then Err(INVALID_HANDLE)
    else if !(0 <= field <= 8) then Err(INVALID_ARGUMENT)
    else match b.options[o]
      case None => Err(CORE_ERROR)
      case Some(e) => lib.value(b.market, o, e, field)
  }

  function ApplyOp<M>(lib: Library<M>, b: Book<M>, op: NativeOp): (Book<M>, Reply<real>) {
    match op
    case SetEngine(o, source, kind, order) => Attach(lib, b, o, Engine(source, kind, order))
    case Value(o, field) => (b, Valuation(lib, b, o, field))
    case Other(code) => lib.other(b, code)
  }

  function OptionNative<M>(lib: Library<M>, start: Book<M>): Native<Book<M>, NativeOp, real> {
    Native(start,
           (b: Book<M>, op: NativeOp) => ApplyOp(lib, b, op),
           (b: Book<M>, op: NativeOp, exit: CallbackExit<real>) => b.(market := lib.hear(b.market, op, exit)),
           lib.free)
  }

  /** What a one-shot method sends to the worker: attach and value in one session operation. */
  function PriceTask(o: nat, e: Engine): seq<NativeOp> {
    [SetEngine(o, e.source, e.kind, e.order), Value(o, 0)]
  }

  // ---- price is atomic ----

  /** How far a price task can be: not attached, attached, or valued under its own engine. */
  predicate PriceInv<M>(lib: Library<M>, o: nat, e: Engine, p: Progress<Book<M>, NativeOp, real>) {
    if p.rest == PriceTask(o, e) then p.outputs == [] && p.failed.Fine?
    else if p.rest == PriceTask(o, e)[1..] then
      o in p.state.options && p.state.options[o] == Some(e) && p.outputs == [] && p.failed.Fine?
    else p.rest == [] &&
         (p.failed.Fine? ==>
            && o in p.state.options && p.state.options[o] == Some(e)
            && Ok(p.outputs) == lib.value(p.state.market, o, e, 0))
  }

  lemma {:induction false} PriceProgress<M>(
    lib: Library<M>, start: Book<M>, b: Book<M>, o: nat, e: Engine, past: seq<Micro<real>>)
    ensures PriceInv(lib, o, e, WholeTask(OptionNative(lib, start), b, PriceTask(o, e), past))
  {
    if past != [] {
      PriceProgress(lib, start, b, o, e, past[..|past| - 1]);
    }
  }

  /** Whatever engines other callers attach in the meantime, a one-shot price that succeeds is the
      value of the option under the engine it was given, in the market at its place in the log. */
  lemma PriceUsesItsEngine<M>(
    lib: Library<M>, start: Book<M>, acts: seq<Action<NativeOp, real>>, s: State<Book<M>, NativeOp, real>,
    t: nat, o: nat, e: Engine, outputs: seq<real>)
    requires Run(OptionNative(lib, start), Init(OptionNative(lib, start), true), acts, s)
    requires t < |s.ops| && s.ops[t].call.Invoke? && s.ops[t].call.task == PriceTask(o, e)
    requires s.ops[t].pc == Returned(Done(Ok(outputs)))
    ensures exists i :: InLog(s.ses.log, i, t) &&
              var b := After(OptionNative(lib, start), s.ses.log[..i + 1]);
              b.Some? && Ok(outputs) == lib.value(b.value.market, o, e, 0)
  {
    hide PriceTask, Legal;
    var n := OptionNative(lib, start);
    RefinesSequential(n, acts, s);
    ExactlyOnce(n, true, acts, s, t);
    var i :| InLog(s.ses.log, i, t) && s.ses.log[i].Ran? && s.ses.log[i].reply == Ok(outputs)
          && s.ses.log[i].task == PriceTask(o, e);
    PricedAt(lib, start, s.ses.log, i, o, e, outputs);
  }

  /** A price task in a legal log answers with the value under its own engine. */
  lemma PricedAt<M>(
    lib: Library<M>, start: Book<M>, log: seq<Entry<NativeOp, real>>, i: nat, o: nat, e: Engine, outputs: seq<real>)
    requires Legal(OptionNative(lib, start), log) && i < |log|
    requires log[i].Ran? && log[i].task == PriceTask(o, e) && log[i].reply == Ok(outputs)
    ensures var b := After(OptionNative(lib, start), log[..i + 1]);
      b.Some? && Ok(outputs) == lib.value(b.value.market, o, e, 0)
  {
    hide PriceTask, WholeTask;
    var n := OptionNative(lib, start);
    assert Follows(n, After(n, log[..i]), log[i]);
    assert log[..i + 1][..i] == log[..i];
    PriceProgress(lib, start, After(n, log[..i]).value, o, e, log[i].past);
    PricedEnd(lib, o, e, WholeTask(n, After(n, log[..i]).value, PriceTask(o, e), log[i].past));
  }

  lemma PricedEnd<M>(lib: Library<M>, o: nat, e: Engine, p: Progress<Book<M>, NativeOp, real>)
    requires PriceInv(lib, o, e, p) && p.rest == []
    ensures p.failed.Fine? ==> Ok(p.outputs) == lib.value(p.state.market, o, e, 0)
  {
  }

  // ---- A separate value call sees the last engine attached by anybody ----

  /** An operation of the rest of the library that leaves the option's engine alone; releasing the
      option does not. */
  ghost predicate OtherKeeps<M(!new)>(lib: Library<M>, code: nat, o: nat) {
    forall b: Book<M> :: o in b.options ==>
      var c := lib.other(b, code).0; o in c.options && c.options[o] == b.options[o]
  }

  /** Whatever the task attaches, by itself or to other options, nothing else in it touches `o`. */
  ghost predicate Harmless<M(!new)>(lib: Library<M>, task: seq<NativeOp>, o: nat) {
    forall k :: 0 <= k < |task| && task[k].Other? ==> OtherKeeps(lib, task[k].code, o)
  }

  /** The engine that an operation attaches to `o`, if it is an attach and succeeds. */
  function AttachOf<M>(lib: Library<M>, b: Book<M>, op: NativeOp, o: nat): Option<Engine> {
    if op.SetEngine? && op.option == o && ApplyOp(lib, b, op).1.Ok? then Some(Engine(op.source, op.kind, op.order))
    else None
  }

  /** The later of two attaches, where there are any. */
  function Later(first: Option<Engine>, second: Option<Engine>): Option<Engine> {
    if second.Some? then second else first
  }

  /** The last successful attach to `o` while a task goes through `past`. */
  function AttachedBy<M>(
    lib: Library<M>, start: Book<M>, p: Progress<Book<M>, NativeOp, real>, past: seq<Micro<real>>, o: nat)
    : Option<Engine>
    decreases |past|
  {
    if past == [] then None
    else
      var before := past[..|past| - 1];
      var q := RunTask(OptionNative(lib, start), p, before);
      Later(AttachedBy(lib, start, p, before, o),
            if past[|past| - 1].Did? && q.rest != [] then AttachOf(lib, q.state, q.rest[0], o) else None)
  }

  /** The last successful attach to `o` among the tasks logged at `i` up to `j`. */
  function AttachedIn<M>(
    lib: Library<M>, start: Book<M>, log: seq<Entry<NativeOp, real>>, i: nat, j: nat, o: nat): Option<Engine>
    requires i <= j <= |log|
    decreases j
  {
    if i == j then None
    else
      var b := After(OptionNative(lib, start), log[..j - 1]);
      Later(AttachedIn(lib, start, log, i, j - 1, o),
            match log[j - 1]
            case Ran(_, task, past, _) =>
              if b.Some? then AttachedBy(lib, start, Progress(b.value, task, [], Fine), past, o) else None
            case Freed(_, _) => None)
  }

  /** One native event: the option's engine is the one just attached, or the one it had. */
  lemma EventEngine<M(!new)>(
    lib: Library<M>, start: Book<M>, q: Progress<Book<M>, NativeOp, real>, m: Micro<real>, o: nat)
    requires Harmless(lib, q.rest, o) && o in q.state.options
    ensures var r := Advance(OptionNative(lib, start), q, m);
      && Harmless(lib, r.rest, o) && o in r.state.options
      && r.state.options[o] ==
         Later(q.state.options[o], if m.Did? && q.rest != [] then AttachOf(lib, q.state, q.rest[0], o) else None)
  {
    if q.rest != [] && q.rest[0].Other? {
      assert OtherKeeps(lib, q.rest[0].code, o);
    }
  }

  lemma {:induction false} TaskEngine<M(!new)>(
    lib: Library<M>, start: Book<M>, p: Progress<Book<M>, NativeOp, real>, past: seq<Micro<real>>, o: nat)
    requires Harmless(lib, p.rest, o) && o in p.state.options
    ensures var q := RunTask(OptionNative(lib, start), p, past);
      && Harmless(lib, q.rest, o) && o in q.state.options
      && q.state.options[o] == Later(p.state.options[o], AttachedBy(lib, start, p, past, o))
    decreases |past|
  {
    if past != [] {
      hide Harmless, Advance;
      TaskEngine(lib, start, p, past[..|past| - 1], o);
      var q := RunTask(OptionNative(lib, start), p, past[..|past| - 1]);
      EventEngine(lib, start, q, past[|past| - 1], o);
    }
  }

  /** The option's engine at any place of the log is the last one attached since an earlier place,
      by whichever caller, or the one it had there if there was none. */
  lemma {:induction false} EngineIsLatest<M(!new)>(
    lib: Library<M>, start: Book<M>, log: seq<Entry<NativeOp, real>>, i: nat, j: nat, o: nat)
    requires i <= j <= |log| && After(OptionNative(lib, start), log[..j]).Some?
    requires forall k :: i <= k < j ==> log[k].Ran? && Harmless(lib, log[k].task, o)
    ensures var b, c := After(OptionNative(lib, start), log[..i]), After(OptionNative(lib, start), log[..j]);
      && b.Some?
      && (o in b.value.options ==>
            o in c.value.options
            && c.value.options[o] == Later(b.value.options[o], AttachedIn(lib, start, log, i, j, o)))
    decreases j
  {
    if i < j {
      hide Harmless, AttachedBy;
      assert log[..j][..j - 1] == log[..j - 1];
      EngineIsLatest(lib, start, log, i, j - 1, o);
      var before := After(OptionNative(lib, start), log[..j - 1]).value;
      if o in before.options {
        TaskEngine(lib, start, Progress(before, log[j - 1].task, [], Fine), log[j - 1].past, o);
      }
    }
  }

  /** A logged setEngine call is a successful attach exactly if it returned no error. */
  lemma {:induction false} SetEngineAttaches<M>(
    lib: Library<M>, start: Book<M>, b: Book<M>, o: nat, e: Engine, past: seq<Micro<real>>)
    ensures var task := [SetEngine(o, e.source, e.kind, e.order)];
      var p := WholeTask(OptionNative(lib, start), b, task, past);
      AttachedBy(lib, start, Progress(b, task, [], Fine), past, o)
      == if p.rest == [] && p.failed.Fine? then Some(e) else None
    ensures var task := [SetEngine(o, e.source, e.kind, e.order)];
      var p := WholeTask(OptionNative(lib, start), b, task, past);
      p.rest == [] || (p.rest == task && p.failed.Fine?)
    decreases |past|
  {
    if past != [] { SetEngineAttaches(lib, start, b, o, e, past[..|past| - 1]); }
  }

  /** So a setEngine call counts as an attach exactly if it returned without error. */
  lemma LoggedAttach<M>(lib: Library<M>, start: Book<M>, log: seq<Entry<NativeOp, real>>, k: nat, o: nat, e: Engine)
    requires Legal(OptionNative(lib, start), log) && k < |log|
    requires log[k].Ran? && log[k].task == [SetEngine(o, e.source, e.kind, e.order)]
    ensures AttachedIn(lib, start, log, k, k + 1, o) == if log[k].reply.Ok? then Some(e) else None
  {
    hide AttachedBy;
    var n := OptionNative(lib, start);
    assert Follows(n, After(n, log[..k]), log[k]);
    SetEngineAttaches(lib, start, After(n, log[..k]).value, o, e, log[k].past);
    assert AttachedIn(lib, start, log, k, k, o).None?;
  }

  /** Attaching alone: done without failure, the option has that engine. */
  lemma {:induction false} AttachProgress<M>(
    lib: Library<M>, start: Book<M>, b: Book<M>, o: nat, e: Engine, past: seq<Micro<real>>)
    ensures var p := WholeTask(OptionNative(lib, start), b, PriceTask(o, e)[..1], past);
      if p.rest == [] then p.failed.Fine? ==> o in p.state.options && p.state.options[o] == Some(e)
      else p.rest == PriceTask(o, e)[..1] && p.failed.Fine?
  {
    if past != [] { AttachProgress(lib, start, b, o, e, past[..|past| - 1]); }
  }

  /** Valuing alone: the engines are as before, and the answer is the valuation. */
  lemma {:induction false} ValueProgress<M>(
    lib: Library<M>, start: Book<M>, b: Book<M>, o: nat, field: int, past: seq<Micro<real>>)
    ensures var p := WholeTask(OptionNative(lib, start), b, [Value(o, field)], past);
      && p.state.options == b.options
      && if p.rest == [] then TaskReply(p.outputs, p.failed) == Valuation(lib, p.state, o, field)
         else p.rest == [Value(o, field)] && p.outputs == [] && p.failed.Fine?
  {
    if past != [] { ValueProgress(lib, start, b, o, field, past[..|past| - 1]); }
  }

  lemma AttachedAt<M>(
    lib: Library<M>, start: Book<M>, log: seq<Entry<NativeOp, real>>, i: nat, o: nat, e: Engine)
    requires Legal(OptionNative(lib, start), log) && i < |log|
    requires log[i].Ran? && log[i].task == PriceTask(o, e)[..1] && log[i].reply.Ok?
    ensures var b := After(OptionNative(lib, start), log[..i + 1]);
      b.Some? && o in b.value.options && b.value.options[o] == Some(e)
  {
    var n := OptionNative(lib, start);
    assert Follows(n, After(n, log[..i]), log[i]);
    assert log[..i + 1][..i] == log[..i];
    AttachProgress(lib, start, After(n, log[..i]).value, o, e, log[i].past);
  }

  lemma ValuedAt<M>(
    lib: Library<M>, start: Book<M>, log: seq<Entry<NativeOp, real>>, j: nat, o: nat, field: int)
    requires Legal(OptionNative(lib, start), log) && j < |log|
    requires log[j].Ran? && log[j].task == [Value(o, field)]
    ensures var b, c := After(OptionNative(lib, start), log[..j]), After(OptionNative(lib, start), log[..j + 1]);
      b.Some? && c.Some? && c.value.options == b.value.options
      && log[j].reply == Valuation(lib, c.value, o, field)
  {
    var n := OptionNative(lib, start);
    assert Follows(n, After(n, log[..j]), log[j]);
    assert log[..j + 1][..j] == log[..j];
    ValueProgress(lib, start, After(n, log[..j]).value, o, field, log[j].past);
  }

  /** A value call after a setEngine call: it answers with the last engine that any caller attached
      in between, failed attaches not counted, and with the caller's own exactly if that engine is
      the same one or there is none. */
  lemma SplitCallsExactly<M(!new)>(
    lib: Library<M>, start: Book<M>, log: seq<Entry<NativeOp, real>>, i: nat, j: nat,
    o: nat, e: Engine, field: int)
    requires Legal(OptionNative(lib, start), log) && i < j < |log| && 0 <= field <= 8
    requires log[i].Ran? && log[i].task == PriceTask(o, e)[..1] && log[i].reply.Ok?
    requires log[j].Ran? && log[j].task == [Value(o, field)]
    requires forall k :: i < k < j ==> log[k].Ran? && Harmless(lib, log[k].task, o)
    ensures var b := After(OptionNative(lib, start), log[..j + 1]);
      var latest := AttachedIn(lib, start, log, i + 1, j, o);
      && b.Some? && o in b.value.options
      && (b.value.options[o] == Some(e) <==> latest.None? || latest == Some(e))
      && log[j].reply == lib.value(b.value.market, o, if latest.Some? then latest.value else e, field)
  {
    hide Harmless, Legal, PriceTask, AttachedIn, After;
    AttachedAt(lib, start, log, i, o, e);
    ValuedAt(lib, start, log, j, o, field);
    EngineIsLatest(lib, start, log, i + 1, j, o);
  }

  // ---- setEngine then value, as two calls, gives no such guarantee ----

  /** The worker runs the operation and answers. */
  lemma Serve<S, O, V>(
    n: Native<S, O, V>, first: State<S, O, V>, acts: seq<Action<O, V>>, s: State<S, O, V>,
    ses: Session<S, O, V>, ops: seq<Op<O, V>>, op: O)
    returns (all: seq<Action<O, V>>, t: State<S, O, V>, log: seq<Entry<O, V>>)
    requires Run(n, first, acts, s) && ses.ctx.Some? && s == With(ses, ops, Invoke([op], 0), Awaiting, Nobody)
    requires ses.worker == Running(Job(|ops|, [op], [op], [], Fine, 0, []))
    ensures Run(n, first, all, t)
    ensures t == With(ses.(worker := Idle, ctx := Some(n.apply(ses.ctx.value, op).0), log := log),
                      ops, Invoke([op], 0), Answered(n.apply(ses.ctx.value, op).1), At(|ses.log|))
  {
    all, t := Extend(n, first, acts, s, Step);
    var job := t.ses.worker.job;
    assert TaskReply(job.outputs, job.failed) == n.apply(ses.ctx.value, op).1 by {
      match n.apply(ses.ctx.value, op).1
      case Ok(outputs) => assert [] + outputs == outputs;
      case Err(_) =>
    }
    all, t := Extend(n, first, all, t, Deliver);
    log := t.ses.log;
  }

  /** A call of one operation, alone on the session, from its issue to its return. */
  lemma OneCall<S, O, V>(
    n: Native<S, O, V>, first: State<S, O, V>, acts: seq<Action<O, V>>, s: State<S, O, V>, op: O)
    returns (all: seq<Action<O, V>>, t: State<S, O, V>)
    requires Run(n, first, acts, s) && Ready(s)
    ensures Run(n, first, all, t) && Ready(t)
    ensures t.ses.ctx.value == n.apply(s.ses.ctx.value, op).0
    ensures exists slot ::
      t.ops == s.ops + [Op(Invoke([op], 0), false, Returned(Done(n.apply(s.ses.ctx.value, op).1)), slot)]
  {
    all, t := Admit(n, first, acts, s, op, 0);
    var log;
    all, t, log := Serve(n, first, all, t, t.ses, s.ops, op);
    var call, slot, reply := Invoke([op], 0), At(|s.ses.log|), n.apply(s.ses.ctx.value, op).1;
    all, t := WithTurn(n, first, all, t, t.ses, s.ops, call, Answered(reply), slot);
    all, t := WithTurn(n, first, all, t, t.ses, s.ops, call, Leaving(Done(reply)), slot);
  }

  /** Option 1 with engine sources 10 and 11, and nothing attached yet. */
  function TwoSources<M>(attached: Option<Engine>, market: M): Book<M> {
    Book(map[1 := attached], map[10 := 0, 11 := 0], market)
  }

  lemma TwoSourcesSteps<M>(lib: Library<M>, start: Book<M>, attached: Option<Engine>, source: nat, market: M)
    requires source == 10 || source == 11
    ensures var n, b := OptionNative(lib, start), TwoSources(attached, market);
      && n.apply(b, SetEngine(1, source, 0, 0)) == (TwoSources(Some(Engine(source, 0, 0)), market), Ok([]))
      && n.apply(TwoSources(Some(Engine(source, 0, 0)), market), Value(1, 0)).1
         == lib.value(market, 1, Engine(source, 0, 0), 0)
  {
    assert map[1 := attached][1 := Some(Engine(source, 0, 0))] == map[1 := Some(Engine(source, 0, 0))];
  }

  /** Two engines for one option: a caller attaches the first and gets no error, another caller
      attaches the second, and the first caller's value is that of the second engine. */
  lemma SplitCallsMix<M>(lib: Library<M>, market: M)
    returns (acts: seq<Action<NativeOp, real>>, t: State<Book<M>, NativeOp, real>)
    ensures var n := OptionNative(lib, TwoSources(None, market));
      && Run(n, Init(n, true), acts, t)
      && |t.ops| == 3
      && t.ops[0].call == Invoke([SetEngine(1, 10, 0, 0)], 0) && t.ops[0].pc == Returned(Done(Ok([])))
      && t.ops[2].call == Invoke([Value(1, 0)], 0)
      && t.ops[2].pc == Returned(Done(lib.value(market, 1, Engine(11, 0, 0), 0)))
  {
    var start := TwoSources(None, market);
    var n := OptionNative(lib, start);
    TwoSourcesSteps(lib, start, None, 10, market);
    TwoSourcesSteps(lib, start, Some(Engine(10, 0, 0)), 11, market);
    acts, t := OneCall(n, Init(n, true), [], Init(n, true), SetEngine(1, 10, 0, 0));
    acts, t := OneCall(n, Init(n, true), acts, t, SetEngine(1, 11, 0, 0));
    acts, t := OneCall(n, Init(n, true), acts, t, Value(1, 0));
  }
}
