/** What pricing and valuing an option answer, in every case: the library's value under the engine
    given, or the code of the first thing that is wrong. */
module OptionAnswers {
  import opened Wrappers
  import opened SessionProtocol
  import opened SessionLog
  import opened OptionCalls

  /** The engine can be attached: the option exists, the kind is one of the three, the source handle
      serves it, and an order, which only the second kind has, is one the library takes. */
  predicate Attachable<M>(lib: Library<M>, b: Book<M>, o: nat, e: Engine) {
    && o in b.options && 0 <= e.kind <= 2
    && e.source in b.sources && b.sources[e.source] == e.kind
    && (e.kind == 1 ==> lib.validOrder(e.order))
  }

  /** Attaching and nothing else: the option has the engine, or all is as it was. */
  lemma AttachExactly<M>(lib: Library<M>, b: Book<M>, o: nat, e: Engine)
    ensures var (after, reply) := Attach(lib, b, o, e);
      && (reply.Ok? <==> Attachable(lib, b, o, e))
      && (reply.Ok? ==> reply == Ok([]) && after == b.(options := b.options[o := Some(e)]))
      && (reply.Err? ==> after == b)
      && (reply == Err(1) <==> o in b.options && !(0 <= e.kind <= 2))
      && (reply == Err(3) <==>
            && o in b.options && e.kind == 1 && e.source in b.sources && b.sources[e.source] == 1
            && !lib.validOrder(e.order))
      && reply in {Ok([]), Err(1), Err(2), Err(3)}
  {
  }

  /** How far a price task is, from the book `b` in which it began; callbacks move the market only. */
  predicate PriceAt<M>(lib: Library<M>, b: Book<M>, o: nat, e: Engine, p: Progress<Book<M>, NativeOp, real>) {
    && p.state.sources == b.sources
    && if p.rest == PriceTask(o, e) then p.outputs == [] && p.failed.Fine? && p.state.options == b.options
       else if !Attachable(lib, b, o, e) then p.rest == [] && p.failed.Code? && p.state.options == b.options
       else
         && p.state.options == b.options[o := Some(e)]
         && if p.rest == PriceTask(o, e)[1..] then p.outputs == [] && p.failed.Fine?
            else p.rest == [] && TaskReply(p.outputs, p.failed) == lib.value(p.state.market, o, e, 0)
  }

  lemma PriceStep<M>(
    lib: Library<M>, start: Book<M>, b: Book<M>, o: nat, e: Engine,
    p: Progress<Book<M>, NativeOp, real>, m: Micro<real>)
    requires PriceAt(lib, b, o, e, p)
    ensures PriceAt(lib, b, o, e, Advance(OptionNative(lib, start), p, m))
  {
    if m.Did? && p.rest == PriceTask(o, e) {
      AttachExactly(lib, p.state, o, e);
    } else if m.Did? && p.rest != [] {
      match lib.value(p.state.market, o, e, 0)
      case Ok(outputs) => assert [] + outputs == outputs;
      case Err(_) =>
    }
  }

  lemma {:induction false} PriceEvents<M>(
    lib: Library<M>, start: Book<M>, b: Book<M>, o: nat, e: Engine, past: seq<Micro<real>>)
    ensures PriceAt(lib, b, o, e, WholeTask(OptionNative(lib, start), b, PriceTask(o, e), past))
    decreases |past|
  {
    if past != [] {
      hide PriceAt, Advance;
      PriceEvents(lib, start, b, o, e, past[..|past| - 1]);
      PriceStep(lib, start, b, o, e, WholeTask(OptionNative(lib, start), b, PriceTask(o, e), past[..|past| - 1]),
                past[|past| - 1]);
    }
  }

  /** A one-shot price, at its place in the log: it answers with the library's value under its own
      engine exactly if that engine can be attached, and then the option keeps the engine; otherwise it
      fails and all engines are as they were. */
  lemma PriceAnswers<M>(
    lib: Library<M>, start: Book<M>, log: seq<Entry<NativeOp, real>>, i: nat, o: nat, e: Engine)
    requires Legal(OptionNative(lib, start), log) && i < |log|
    requires log[i].Ran? && log[i].task == PriceTask(o, e)
    ensures var n := OptionNative(lib, start);
      var before, after := After(n, log[..i]), After(n, log[..i + 1]);
      && before.Some? && after.Some? && after.value.sources == before.value.sources
      && if Attachable(lib, before.value, o, e) then
           && log[i].reply == lib.value(after.value.market, o, e, 0)
           && after.value.options == before.value.options[o := Some(e)]
         else log[i].reply.Err? && after.value.options == before.value.options
  {
    var n := OptionNative(lib, start);
    assert Follows(n, After(n, log[..i]), log[i]);
    assert log[..i + 1][..i] == log[..i];
    PriceEvents(lib, start, After(n, log[..i]).value, o, e, log[i].past);
    hide Attachable, WholeTask;
  }

  /** A separate value call, at its place in the log. */
  lemma ValueAnswers<M>(
    lib: Library<M>, start: Book<M>, log: seq<Entry<NativeOp, real>>, i: nat, o: nat, field: int)
    requires Legal(OptionNative(lib, start), log) && i < |log|
    requires log[i].Ran? && log[i].task == [Value(o, field)]
    ensures var n := OptionNative(lib, start);
      var before, after := After(n, log[..i]), After(n, log[..i + 1]);
      && before.Some? && after.Some? && after.value.options == before.value.options
      && log[i].reply ==
           if o !in before.value.options then Err(2)
           else if field < 0 || field > 8 then Err(1)
           else if before.value.options[o].None? then Err(3)
           else lib.value(after.value.market, o, before.value.options[o].value, field)
  {
    ValuedAt(lib, start, log, i, o, field);
    assert log[..i + 1][..i] == log[..i];
  }
}
