/** Callback guards and the residual count of the Python global bootstrap
    (crates/itofin-py/src/bootstrap.rs).

    Python code that runs inside a callback may bootstrap other curves, so callbacks nest. What
    happens is a tree of events; `log` records it as a flat history, against which the guard
    depth and the shared residual counts are specified. */
module BootstrapCallbacks {
  import opened Wrappers

  datatype Number = Finite(value: real) | NotFinite

  /** How a Python callback ends; an uncallable or missing callback gives no values. */
  datatype Ending = Raises | Gives(values: seq<Number>)

  /** What code does: try to change a quote, or run a curve's date or penalty closure, whose
      Python callback in turn does what `body` says. */
  datatype Event =
    | Mutate
    | Dates(curve: nat, body: seq<Event>, ending: Ending)
    | Penalties(curve: nat, body: seq<Event>, ending: Ending)

  datatype Fact =
    | Entered | Left
    | Mutation(allowed: bool)
    | Reset(curve: nat)
    | Accepted(curve: nat, values: seq<Number>)
    | Rejected(curve: nat, ending: Ending)

  /** Guards that have been entered and not yet left. */
  function Alive(log: seq<Fact>): int {
    if log == [] then 0
    else
      var before := Alive(log[..|log| - 1]);
      match log[|log| - 1]
      case Entered => before + 1
      case Left => before - 1
      case _ => before
  }

  /** The length of the curve's latest accepted penalties since its latest date reset. */
  function Recent(log: seq<Fact>, curve: nat): Option<nat> {
    if log == [] then None
    else
      match log[|log| - 1]
      case Reset(c) => if c == curve then None else Recent(log[..|log| - 1], curve)
      case Accepted(c, values) => if c == curve then Some(|values|) else Recent(log[..|log| - 1], curve)
      case _ => Recent(log[..|log| - 1], curve)
  }

  predicate AllFinite(values: seq<Number>) {
    forall i :: 0 <= i < |values| ==> values[i].Finite?
  }

  /** Whether penalties are to be accepted after `log`. */
  predicate Acceptable(log: seq<Fact>, curve: nat, ending: Ending) {
    && ending.Gives? && AllFinite(ending.values)
    && (Recent(log, curve).Some? ==> Recent(log, curve).value == |ending.values|)
  }

  function Judged(log: seq<Fact>, curve: nat, ending: Ending): Fact {
    if Acceptable(log, curve, ending) then Accepted(curve, ending.values) else Rejected(curve, ending)
  }

  /** What has happened once `events` have happened after `log`. */
  function After(log: seq<Fact>, events: seq<Event>): seq<Fact>
    decreases events
  {
    if events == [] then log
    else
      var last := |events| - 1;
      var before := After(log, events[..last]);
      match events[last]
      case Mutate => before + [Mutation(Alive(before) == 0)]
      case Dates(curve, body, _) => After(before + [Reset(curve), Entered], body) + [Left]
      case Penalties(curve, body, ending) =>
        var called := After(before + [Entered], body) + [Left];
        called + [Judged(called, curve, ending)]
  }

  // ---- The code ----

  class Thread {
    var depth: int
    var counts: map<nat, nat>
    ghost var log: seq<Fact>

    /** The cells hold what the history determines. */
    ghost predicate Valid()
      reads this
    {
      && depth == Alive(log)
      && forall c :: Recent(log, c) == if c in counts then Some(counts[c]) else None
    }

    constructor ()
      ensures Valid() && log == [] && depth == 0
    {
      depth, counts, log := 0, map[], [];
    }

    method Enter()
      requires Valid()
      modifies this
      ensures Valid() && log == old(log) + [Entered]
    {
      depth := depth + 1;
      log := log + [Entered];
    }

    method Leave()
      requires Valid()
      modifies this
      ensures Valid() && log == old(log) + [Left]
    {
      depth := depth - 1;
      log := log + [Left];
    }

    /** ensure_quote_mutation_allowed */
    method TryMutation() returns (allowed: bool)
      requires Valid()
      modifies this
      ensures Valid() && log == old(log) + [Mutation(allowed)]
      ensures allowed == (Alive(old(log)) == 0)
    {
      allowed := depth == 0;
      log := log + [Mutation(allowed)];
    }

    /** The date closure: the count is forgotten before the callback is called. */
    method RunDates(curve: nat, body: seq<Event>)
      requires Valid()
      modifies this
      ensures Valid() && log == After(old(log) + [Reset(curve), Entered], body) + [Left]
      decreases body, 1
    {
      counts := counts - {curve};
      log := log + [Reset(curve)];
      assert Valid();
      Enter();
      assert log == old(log) + [Reset(curve), Entered];
      Execute(body);
      Leave();
    }

    /** The penalty closure. */
    method RunPenalties(curve: nat, body: seq<Event>, ending: Ending) returns (ok: bool)
      requires Valid()
      modifies this
      ensures var called := After(old(log) + [Entered], body) + [Left];
              && Valid()
              && ok == Acceptable(called, curve, ending)
              && log == called + [Judged(called, curve, ending)]
      decreases body, 1
    {
      Enter();
      Execute(body);
      Leave();
      ok := Judge(curve, ending);
    }

    /** Raised, non-finite or differently many residuals are refused, and the count stays. */
    method Judge(curve: nat, ending: Ending) returns (ok: bool)
      requires Valid()
      modifies this
      ensures Valid()
      ensures ok == Acceptable(old(log), curve, ending)
      ensures log == old(log) + [Judged(old(log), curve, ending)]
      ensures !ok ==> counts == old(counts)
    {
      ok := false;
      if ending.Gives? {
        var finite := FiniteValues(ending.values);
        assert Recent(log, curve) == if curve in counts then Some(counts[curve]) else None;
        ok := finite && (curve in counts ==> counts[curve] == |ending.values|);
      }
      Record(curve, ending, ok);
    }

    method Record(curve: nat, ending: Ending, ok: bool)
      requires Valid() && (ok ==> ending.Gives?)
      modifies this
      ensures Valid() && log == old(log) + [if ok then Accepted(curve, ending.values) else Rejected(curve, ending)]
      ensures !ok ==> counts == old(counts)
    {
      hide Alive, Recent;
      ghost var fact := if ok then Accepted(curve, ending.values) else Rejected(curve, ending);
      AliveNext(log, fact);
      forall c
        ensures Recent(log + [fact], c) ==
                if fact.Accepted? && c == curve then Some(|fact.values|) else Recent(log, c)
      {
        RecentNext(log, fact, c);
      }
      log := log + [fact];
      if ok {
        counts := counts[curve := |ending.values|];
      }
    }

    static method FiniteValues(values: seq<Number>) returns (finite: bool)
      ensures finite == AllFinite(values)
    {
      for i := 0 to |values|
        invariant AllFinite(values[..i])
      {
        if values[i].NotFinite? {
          return false;
        }
        assert values[..i + 1] == values[..i] + [values[i]];
      }
      assert values[..|values|] == values;
      finite := true;
    }

    method Execute(events: seq<Event>)
      requires Valid()
      modifies this
      ensures Valid() && log == After(old(log), events)
      decreases events, 0
    {
      if events == [] {
        return;
      }
      var last := |events| - 1;
      Execute(events[..last]);
      match events[last] {
        case Mutate =>
          var _ := TryMutation();
        case Dates(curve, body, _) =>
          RunDates(curve, body);
        case Penalties(curve, body, ending) =>
          var _ := RunPenalties(curve, body, ending);
      }
    }
  }

  // ---- Theorems about every history ----

  /** Events leave the guards balanced: as many are alive after them as before. */
  lemma {:induction false} GuardsBalance(log: seq<Fact>, events: seq<Event>)
    ensures Alive(After(log, events)) == Alive(log)
    decreases events
  {
    if events != [] {
      hide Alive;
      var last := |events| - 1;
      var before := After(log, events[..last]);
      GuardsBalance(log, events[..last]);
      match events[last]
      case Mutate => AliveNext(before, Mutation(Alive(before) == 0));
      case Dates(curve, body, _) =>
        AliveNext(before, Reset(curve));
        AliveNext(before + [Reset(curve)], Entered);
        assert before + [Reset(curve)] + [Entered] == before + [Reset(curve), Entered];
        GuardsBalance(before + [Reset(curve), Entered], body);
        AliveNext(After(before + [Reset(curve), Entered], body), Left);
      case Penalties(curve, body, ending) =>
        AliveNext(before, Entered);
        GuardsBalance(before + [Entered], body);
        AliveNext(After(before + [Entered], body), Left);
        var called := After(before + [Entered], body) + [Left];
        var fact := Judged(called, curve, ending);
        AliveNext(called, fact);
        assert !fact.Entered? && !fact.Left?;
    }
  }

  lemma AliveNext(log: seq<Fact>, fact: Fact)
    ensures Alive(log + [fact]) == Alive(log) + if fact.Entered? then 1 else if fact.Left? then -1 else 0
  {
    assert (log + [fact])[..|log|] == log;
  }

  lemma RecentNext(log: seq<Fact>, fact: Fact, curve: nat)
    ensures Recent(log + [fact], curve) ==
            match fact {
              case Reset(c) => if c == curve then None else Recent(log, curve)
              case Accepted(c, values) => if c == curve then Some(|values|) else Recent(log, curve)
              case _ => Recent(log, curve)
            }
  {
    assert (log + [fact])[..|log|] == log;
  }

  /** Each fact of the history was the right answer when it was recorded. */
  ghost predicate Sound(log: seq<Fact>) {
    forall i :: 0 <= i < |log| ==> Justified(log[..i], log[i])
  }

  ghost predicate Justified(past: seq<Fact>, fact: Fact) {
    match fact
    case Mutation(allowed) => allowed <==> Alive(past) == 0
    case Accepted(curve, values) => Acceptable(past, curve, Gives(values))
    case Rejected(curve, ending) => !Acceptable(past, curve, ending)
    case _ => true
  }

  lemma SoundNext(log: seq<Fact>, fact: Fact)
    requires Sound(log) && Justified(log, fact)
    ensures Sound(log + [fact])
  {
    var next := log + [fact];
    forall i | 0 <= i < |next| ensures Justified(next[..i], next[i]) {
      assert next[..i] == log[..i];
      if i == |log| {
        assert log[..i] == log;
      }
    }
  }

  lemma {:induction false} EventsAreSound(log: seq<Fact>, events: seq<Event>)
    requires Sound(log)
    ensures Sound(After(log, events))
    decreases events
  {
    if events != [] {
      var last := |events| - 1;
      var before := After(log, events[..last]);
      EventsAreSound(log, events[..last]);
      match events[last]
      case Mutate => SoundNext(before, Mutation(Alive(before) == 0));
      case Dates(curve, body, _) =>
        SoundNext(before, Reset(curve));
        SoundNext(before + [Reset(curve)], Entered);
        assert before + [Reset(curve)] + [Entered] == before + [Reset(curve), Entered];
        EventsAreSound(before + [Reset(curve), Entered], body);
        SoundNext(After(before + [Reset(curve), Entered], body), Left);
      case Penalties(curve, body, ending) =>
        SoundNext(before, Entered);
        EventsAreSound(before + [Entered], body);
        var called := After(before + [Entered], body) + [Left];
        SoundNext(After(before + [Entered], body), Left);
        SoundNext(called, Judged(called, curve, ending));
    }
  }

  predicate ResetBetween(log: seq<Fact>, curve: nat, i: int, j: int)
    requires 0 <= i <= j <= |log|
  {
    exists k :: i <= k < j && log[k] == Reset(curve)
  }

  /** After an accepted result the count stays what it was until the next date reset, whatever is
      rejected or nested in between. */
  lemma {:induction false} CountKept(log: seq<Fact>, curve: nat, i: nat, j: nat)
    requires Sound(log) && i < j <= |log|
    requires log[i].Accepted? && log[i].curve == curve && !ResetBetween(log, curve, i, j)
    ensures Recent(log[..j], curve) == Some(|log[i].values|)
    decreases j
  {
    assert log[..j] == log[..j - 1] + [log[j - 1]];
    RecentNext(log[..j - 1], log[j - 1], curve);
    if j - 1 > i {
      CountKept(log, curve, i, j - 1);
      assert Justified(log[..j - 1], log[j - 1]);
      assert log[j - 1] != Reset(curve);
    }
  }

  /** Before place `j` a result of that curve with another number of residuals was accepted, and no date
      reset came in between. */
  ghost predicate OtherLength(log: seq<Fact>, curve: nat, j: nat, length: nat)
    requires j <= |log|
  {
    exists i :: 0 <= i < j && log[i].Accepted? && log[i].curve == curve
      && !ResetBetween(log, curve, i, j) && |log[i].values| != length
  }

  /** A count that is there stems from an accepted result after which no reset came. */
  lemma {:induction false} CountHasSource(log: seq<Fact>, curve: nat, j: nat) returns (i: nat)
    requires j <= |log| && Recent(log[..j], curve).Some?
    ensures i < j && log[i].Accepted? && log[i].curve == curve && !ResetBetween(log, curve, i, j)
    ensures |log[i].values| == Recent(log[..j], curve).value
    decreases j
  {
    assert log[..j] == log[..j - 1] + [log[j - 1]];
    RecentNext(log[..j - 1], log[j - 1], curve);
    if log[j - 1].Accepted? && log[j - 1].curve == curve {
      i := j - 1;
    } else {
      i := CountHasSource(log, curve, j - 1);
    }
  }

  /** Over every nesting, a penalty callback's result is rejected exactly if it raised, gave a residual
      that is not finite, or gave another number of them than one accepted since the last date reset. */
  lemma RejectedExactly(events: seq<Event>, j: nat, curve: nat, ending: Ending)
    requires j < |After([], events)|
    requires var fact := After([], events)[j];
      fact == Rejected(curve, ending) || (ending.Gives? && fact == Accepted(curve, ending.values))
    ensures var log := After([], events);
      log[j].Rejected? <==>
        || ending.Raises?
        || (exists i :: 0 <= i < |ending.values| && ending.values[i].NotFinite?)
        || OtherLength(log, curve, j, |ending.values|)
  {
    var log := After([], events);
    EventsAreSound([], events);
    assert Justified(log[..j], log[j]);
    if Recent(log[..j], curve).Some? {
      var i := CountHasSource(log, curve, j);
    }
    if ending.Gives? && OtherLength(log, curve, j, |ending.values|) {
      var i :| 0 <= i < j && log[i].Accepted? && log[i].curve == curve
        && !ResetBetween(log, curve, i, j) && |log[i].values| != |ending.values|;
      CountKept(log, curve, i, j);
    }
  }

  /** Over every sequence of nested callbacks, raising ones included: a quote mutation is allowed
      exactly when no guard is alive; accepted residuals are finite and, between two date resets
      of a curve, all equally many. */
  lemma CallbackRules(events: seq<Event>)
    ensures var log := After([], events);
            && Alive(log) == 0
            && (forall i :: 0 <= i < |log| && log[i].Mutation? ==> (log[i].allowed <==> Alive(log[..i]) == 0))
            && (forall i :: 0 <= i < |log| && log[i].Accepted? ==> AllFinite(log[i].values))
            && (forall i, j :: 0 <= i < j < |log| && log[i].Accepted? && log[j].Accepted?
                  && log[i].curve == log[j].curve && !ResetBetween(log, log[i].curve, i, j)
                  ==> |log[i].values| == |log[j].values|)
  {
    var log := After([], events);
    GuardsBalance([], events);
    EventsAreSound([], events);
    forall i | 0 <= i < |log| && log[i].Mutation? ensures log[i].allowed <==> Alive(log[..i]) == 0 {
      assert Justified(log[..i], log[i]);
    }
    forall i | 0 <= i < |log| && log[i].Accepted? ensures AllFinite(log[i].values) {
      assert Justified(log[..i], log[i]);
    }
    forall i, j | 0 <= i < j < |log| && log[i].Accepted? && log[j].Accepted?
                  && log[i].curve == log[j].curve && !ResetBetween(log, log[i].curve, i, j)
      ensures |log[i].values| == |log[j].values|
    {
      CountKept(log, log[i].curve, i, j);
      assert Justified(log[..j], log[j]);
    }
  }

  /** Code inside a callback never gets a mutation through, however deep and after however many
      failed inner callbacks; code outside always does. */
  lemma {:induction false} MutationsByPlace(log: seq<Fact>, events: seq<Event>, k: nat)
    requires k < |events| && events[k].Mutate?
    ensures var before := After(log, events[..k]);
            After(log, events[..k + 1]) == before + [Mutation(Alive(log) == 0)]
  {
    assert events[..k + 1][..k] == events[..k];
    GuardsBalance(log, events[..k]);
  }
}
