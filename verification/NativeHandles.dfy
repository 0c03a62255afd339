/** Who owns what across the Go/native boundary (crates/libitofin-ffi/src/boundary.rs,
    bootstrap_api.rs and results_api.rs, sdk/go/bootstrap.go, session.go and results.go).

    A native context keeps a table of objects. Each object keeps some cgo handles alive,
    through whatever native nodes it shares with others; a handle is released when its last
    holder is dropped. `Graph` is that state as a value, with the net effect of each task that
    the session's worker may run. Class `Context` holds the same state in fields, and its
    methods follow the code of the two sides call by call. */
module NativeHandles {
  import opened Wrappers

  const INVALID_ARGUMENT := 1
  const INVALID_HANDLE := 2
  const CORE_ERROR := 3
  const PANIC := 5
  const POISONED := 6

  // ---- State ----

  /** One real-valued entry of a valuation's additional results; the key as its bytes. */
  datatype Addition = Addition(key: string, value: real)

  /** A frozen valuation: what the engine supplied; additions in the order of their keys. */
  datatype Snapshot = Snapshot(
    npv: Option<real>, errorEstimate: Option<real>, date: Option<int>, additional: seq<Addition>)

  /** An entry of the object table: the cgo handles it keeps alive and, for a valuation, its data. */
  datatype Object = Object(holds: set<nat>, snapshot: Option<Snapshot>)

  /** `nextId` numbers the objects of all contexts, up to `ids`; `live` and `nextCgo` are Go's
      handle registry, `deletes` every deletion so far, `fault` a deletion of a handle not live. */
  datatype Graph = Graph(
    objects: map<nat, Object>, nextId: nat, ids: nat, poisoned: bool, freed: bool,
    live: set<nat>, nextCgo: nat, deletes: multiset<nat>, fault: bool)

  function Held(objects: map<nat, Object>): set<nat> {
    set id, h | id in objects && h in objects[id].holds :: h
  }

  function HeldBy(objects: map<nat, Object>, ids: set<nat>): set<nat> {
    set id, h | id in ids && id in objects && h in objects[id].holds :: h
  }

  /** Every handle that Go ever created is either live, held by some object and never deleted,
      or not live and deleted exactly once; nothing was deleted that was not live. */
  ghost predicate Balanced(g: Graph) {
    && !g.fault
    && g.live == Held(g.objects)
    && Counted(g)
    && (forall id :: id in g.objects ==> 0 < id < g.nextId)
    && 0 < g.nextId
    && (g.freed ==> g.objects == map[])
  }

  ghost predicate Counted(g: Graph) {
    && (forall h :: h in g.live ==> h < g.nextCgo)
    && (forall h: nat :: g.deletes[h] == if h < g.nextCgo && h !in g.live then 1 else 0)
  }

  // ---- Tasks ----

  /** How the library answers a constructor whose arguments all resolve. */
  datatype Outcome = Built | Refused | Panics

  /** A Go wrapper: the session it belongs to, if any, and its handle. */
  datatype Wrapper = Wrapper(session: Option<nat>, id: nat)

  datatype Answer = Fine | Native(code: int) | SessionClosed | Mismatch | Uninitialized

  /** What a worker task may do to the graph. `Make` is any constructor without callbacks,
      `Rewire` any operation that changes what existing objects share, `Elsewhere` the
      constructors of other sessions. */
  datatype Task =
    | Curve(variables: Option<Wrapper>, reference: int, deps: set<nat>, outcome: Outcome)
    | Make(deps: set<nat>, snapshot: Option<Snapshot>, outcome: Outcome)
    | Rewire(holds: map<nat, set<nat>>, panics: bool)
    | CloseObject(w: Wrapper)
    | Read(id: nat, panicAt: Option<nat>)
    | Elsewhere(count: nat)
    | Free

  predicate ValidDate(serial: int) { 367 <= serial <= 109_574 }

  /** Objects named by a curve's arguments; 0 means that there are no additional variables. */
  function Wanted(variables: nat, deps: set<nat>): set<nat> {
    if variables == 0 then deps else deps + {variables}
  }

  /** sameSession's verdict on one object. */
  function Foreign(me: nat, w: Wrapper): Answer {
    if w.session.None? || w.id == 0 then Uninitialized
    else if w.session.value != me then Mismatch
    else Fine
  }

  function VariablesAnswer(me: nat, variables: Option<Wrapper>): Answer {
    if variables.None? then Fine else Foreign(me, variables.value)
  }

  function VariablesId(variables: Option<Wrapper>): nat {
    if variables.None? then 0 else variables.value.id
  }

  /** What a native constructor over `deps` answers in a context that is not poisoned. */
  function BuildCode(g: Graph, deps: set<nat>, outcome: Outcome): int {
    if !(deps <= g.objects.Keys) then INVALID_HANDLE
    else match outcome
      case Refused => CORE_ERROR
      case Panics => PANIC
      case Built => if g.nextId < g.ids then 0 else INVALID_ARGUMENT
  }

  function CurveCode(g: Graph, variables: nat, reference: int, deps: set<nat>, outcome: Outcome): int {
    if g.poisoned then POISONED
    else if !ValidDate(reference) then INVALID_ARGUMENT
    else BuildCode(g, Wanted(variables, deps), outcome)
  }

  /** The table becomes `next`; exactly what no object holds any more is released. */
  ghost function Settle(g: Graph, next: map<nat, Object>): Graph {
    var gone := Held(g.objects) - Held(next);
    g.(objects := next, live := g.live - gone, deletes := g.deletes + multiset(gone))
  }

  ghost function Insert(g: Graph, item: Object): Graph {
    g.(objects := g.objects[g.nextId := item], nextId := g.nextId + 1)
  }

  /** globalCurve: one cgo handle is created. The new curve holds it, or it is gone again. */
  ghost function AfterCurve(
    me: nat, g: Graph, variables: Option<Wrapper>, reference: int, deps: set<nat>, outcome: Outcome): Graph
  {
    if g.freed || VariablesAnswer(me, variables) != Fine then g
    else
      var v := VariablesId(variables);
      var code := CurveCode(g, v, reference, deps, outcome);
      var h := g.nextCgo;
      if code == 0 then
        Insert(g, Object({h} + HeldBy(g.objects, Wanted(v, deps)), None)).(live := g.live + {h}, nextCgo := h + 1)
      else
        g.(nextCgo := h + 1, deletes := g.deletes + multiset{h}, poisoned := g.poisoned || code == PANIC)
  }

  /** Whether reading a valuation meets a panic: the calls are one for the fields, then two per addition. */
  predicate ReadPanics(g: Graph, id: nat, panicAt: Option<nat>) {
    && !g.poisoned
    && panicAt.Some?
    && (panicAt.value == 0 ||
        (Readable(g, id) && panicAt.value <= 2 * |g.objects[id].snapshot.value.additional|))
  }

  /** Whether `id` is a valuation whose date, if it has one, Go accepts. */
  predicate Readable(g: Graph, id: nat) {
    && id in g.objects && g.objects[id].snapshot.Some?
    && (g.objects[id].snapshot.value.date.Some? ==> ValidDate(g.objects[id].snapshot.value.date.value))
  }

  ghost function AfterRead(g: Graph, id: nat, panicAt: Option<nat>): Graph {
    if g.freed || g.poisoned then g
    else if ReadPanics(g, id, panicAt) then g.(poisoned := true)
    else Settle(g, g.objects - {id})
  }

  ghost function AfterClose(g: Graph, w: Wrapper): Graph {
    if w.session.None? || w.id == 0 || g.freed || g.poisoned then g else Settle(g, g.objects - {w.id})
  }

  /** Native operations share what some object already keeps; they cannot conjure a handle up. */
  function Rewired(objects: map<nat, Object>, holds: map<nat, set<nat>>): map<nat, Object> {
    map id | id in objects ::
      if id in holds then objects[id].(holds := holds[id] * Held(objects)) else objects[id]
  }

  /** A valuation is detached from what it was taken of; any other object shares its arguments. */
  function Made(g: Graph, deps: set<nat>, snapshot: Option<Snapshot>): Object {
    Object(if snapshot.Some? then {} else HeldBy(g.objects, deps), snapshot)
  }

  ghost function After(me: nat, g: Graph, task: Task): Graph {
    match task
    case Curve(variables, reference, deps, outcome) => AfterCurve(me, g, variables, reference, deps, outcome)
    case Make(deps, snapshot, outcome) =>
      if g.freed || g.poisoned then g
      else if BuildCode(g, deps, outcome) == 0 then Insert(g, Made(g, deps, snapshot))
      else g.(poisoned := outcome.Panics? && deps <= g.objects.Keys)
    case Rewire(holds, panics) =>
      if g.freed || g.poisoned then g else Settle(g, Rewired(g.objects, holds)).(poisoned := panics)
    case CloseObject(w) => AfterClose(g, w)
    case Read(id, panicAt) => AfterRead(g, id, panicAt)
    case Elsewhere(count) => g.(nextId := if g.nextId + count <= g.ids then g.nextId + count else g.nextId)
    case Free => if g.freed then g else Settle(g, map[]).(freed := true)
  }

  // ---- What readResults delivers ----

  datatype Results = Results(
    npv: Option<real>, errorEstimate: Option<real>, date: Option<int>, additional: map<string, real>)

  predicate DistinctKeys(s: Snapshot) {
    forall i, j :: 0 <= i < j < |s.additional| ==> s.additional[i].key != s.additional[j].key
  }

  /** The first `n` additions are in the map, and nothing else. */
  ghost predicate Shows(m: map<string, real>, s: Snapshot, n: nat)
    requires n <= |s.additional|
  {
    && (forall i :: 0 <= i < n ==> s.additional[i].key in m)
    && (forall key :: key in m ==> exists i :: 0 <= i < n && s.additional[i] == Addition(key, m[key]))
  }

  // ---- The two sides, call by call ----

  class Context {
    const me: nat              // the session's identity
    const ids: nat             // where handle numbers run out: u64::MAX in the code
    var objects: map<nat, Object>
    var nextId: nat
    var poisoned: bool
    var freed: bool
    var live: set<nat>
    var nextCgo: nat
    var deletes: multiset<nat>
    var fault: bool

    constructor (me: nat, ids: nat)
      ensures this.me == me
      ensures State() == Graph(map[], 1, ids, false, false, {}, 0, multiset{}, false)
    {
      this.me, this.ids := me, ids;
      objects, nextId, poisoned, freed := map[], 1, false, false;
      live, nextCgo, deletes, fault := {}, 0, multiset{}, false;
    }

    function State(): Graph
      reads this
    {
      Graph(objects, nextId, ids, poisoned, freed, live, nextCgo, deletes, fault)
    }

    /** runtime/cgo: registers a value under a number never used before. */
    method NewHandle() returns (h: nat)
      modifies this
      ensures h == old(nextCgo)
      ensures State() == old(State()).(live := old(live) + {h}, nextCgo := h + 1)
    {
      h := nextCgo;
      live, nextCgo := live + {h}, nextCgo + 1;
    }

    /** runtime/cgo Handle.Delete, which panics on a handle that is not live. */
    method DeleteHandle(h: nat)
      modifies this`live, this`deletes, this`fault
      ensures h in old(live) ==>
                State() == old(State()).(live := old(live) - {h}, deletes := old(deletes) + multiset{h})
      ensures h !in old(live) ==> State() == old(State()).(fault := true)
    {
      if h in live {
        live, deletes := live - {h}, deletes + multiset{h};
      } else {
        fault := true;
      }
    }

    /** goBootstrapRelease for each of `gone`. */
    method ReleaseAll(gone: set<nat>)
      requires gone <= live
      modifies this`live, this`deletes, this`fault
      ensures live == old(live) - gone && deletes == old(deletes) + multiset(gone) && fault == old(fault)
    {
      var left := gone;
      while left != {}
        invariant left <= gone
        invariant live == old(live) - (gone - left)
        invariant deletes == old(deletes) + multiset(gone - left) && fault == old(fault)
        decreases left
      {
        var h :| h in left;
        ghost var done := gone - left;
        assert gone - (left - {h}) == done + {h};
        assert multiset(done + {h}) == multiset(done) + multiset{h};
        DeleteHandle(h);
        left := left - {h};
      }
      assert gone - left == gone;
    }

    /** Native memory management: the table becomes `next`, and each callback record whose last
        owner that dropped is released. */
    method Replace(next: map<nat, Object>)
      requires Held(objects) - Held(next) <= live
      modifies this
      ensures State() == Settle(old(State()), next)
    {
      var gone := Held(objects) - Held(next);
      objects := next;
      ReleaseAll(gone);
    }

    /** itofin_global_curve_new. `adopted` is set once the context check has passed; from then on
        the callback record has a native owner, and every failing exit drops it. */
    method GlobalCurveNew(variables: nat, reference: int, deps: set<nat>, outcome: Outcome, h: nat)
      returns (code: int, adopted: bool)
      requires h in live && nextId !in objects
      modifies this
      ensures code == CurveCode(old(State()), variables, reference, deps, outcome)
      ensures adopted == !old(poisoned)
      ensures code == 0 ==>
                State() == Insert(old(State()), Object({h} + HeldBy(old(objects), Wanted(variables, deps)), None))
      ensures code != 0 && adopted ==>
                State() == old(State()).(live := old(live) - {h}, deletes := old(deletes) + multiset{h},
                                         poisoned := code == PANIC)
      ensures code != 0 && !adopted ==> State() == old(State())
    {
      if poisoned {
        return POISONED, false;
      }
      code, adopted := 0, true;
      if !ValidDate(reference) {
        code := INVALID_ARGUMENT;
      } else if !(deps <= objects.Keys) {
        code := INVALID_HANDLE;
      } else if variables != 0 && variables !in objects {
        code := INVALID_HANDLE;
      } else if outcome.Refused? {
        code := CORE_ERROR;
      } else if outcome.Panics? {
        code, poisoned := PANIC, true;
      } else if nextId < ids {
        var curve := Object({h} + HeldBy(objects, Wanted(variables, deps)), None);
        objects, nextId := objects[nextId := curve], nextId + 1;
      } else {
        code := INVALID_ARGUMENT;
      }
      if code != 0 {
        DeleteHandle(h);
      }
    }

    /** globalCurve, inside invoke: the deferred function deletes what was not adopted. */
    method GlobalCurve(variables: Option<Wrapper>, reference: int, deps: set<nat>, outcome: Outcome)
      returns (answer: Answer)
      requires Balanced(State())
      modifies this
      ensures State() == AfterCurve(me, old(State()), variables, reference, deps, outcome)
      ensures answer ==
              if old(freed) then SessionClosed
              else if VariablesAnswer(me, variables) != Fine then VariablesAnswer(me, variables)
              else
                var code := CurveCode(old(State()), VariablesId(variables), reference, deps, outcome);
                if code == 0 then Fine else Native(code)
      ensures answer == Fine <==>
                && !old(freed) && !old(poisoned) && 367 <= reference <= 109_574 && deps <= old(objects).Keys
                && (variables.Some? ==>
                      && variables.value.session == Some(me)
                      && variables.value.id != 0 && variables.value.id in old(objects))
                && outcome.Built? && old(nextId) < ids
      ensures answer == Fine ==>
                && objects.Keys == old(objects).Keys + {old(nextId)} && nextId == old(nextId) + 1
                && (forall id :: id in old(objects) ==> objects[id] == old(objects)[id])
                && forall h :: h in objects[old(nextId)].holds <==>
                     || h == old(nextCgo)
                     || exists id :: id in old(objects) && h in old(objects)[id].holds
                          && (id in deps || (variables.Some? && id == variables.value.id))
    {
      if freed {
        return SessionClosed;
      }
      var id := 0;
      if variables.Some? {
        var objs := [variables.value];
        answer := SameSession(objs);
        assert answer == Foreign(me, objs[0]);
        if answer != Fine {
          return;
        }
        id := variables.value.id;
      }
      ghost var before := State();
      var h := NewHandle();
      assert before.live + {h} - {h} == before.live;
      assert CurveCode(State(), id, reference, deps, outcome) == CurveCode(before, id, reference, deps, outcome);
      var code, adopted := GlobalCurveNew(id, reference, deps, outcome, h);
      if !adopted {
        DeleteHandle(h);
      }
      assert code != 0 ==> State() == before.(
        nextCgo := h + 1, deletes := before.deletes + multiset{h}, poisoned := before.poisoned || code == PANIC);
      answer := if code == 0 then Fine else Native(code);
    }

    /** sameSession: the answer for the first object that is not a live wrapper of this session. */
    method SameSession(objs: seq<Wrapper>) returns (answer: Answer)
      ensures answer == Fine <==> forall i :: 0 <= i < |objs| ==> Foreign(me, objs[i]) == Fine
      ensures answer != Fine ==>
                exists i :: 0 <= i < |objs| && answer == Foreign(me, objs[i])
                            && forall j :: 0 <= j < i ==> Foreign(me, objs[j]) == Fine
      ensures answer == Fine <==> forall i :: 0 <= i < |objs| ==> objs[i].session == Some(me) && objs[i].id != 0
      ensures answer != Fine ==>
                exists i :: 0 <= i < |objs|
                  && (forall j :: 0 <= j < i ==> objs[j].session == Some(me) && objs[j].id != 0)
                  && if objs[i].session.None? || objs[i].id == 0 then answer == Uninitialized
                     else objs[i].session != Some(me) && answer == Mismatch
    {
      for i := 0 to |objs|
        invariant forall j :: 0 <= j < i ==> Foreign(me, objs[j]) == Fine
      {
        var w := objs[i];
        if w.session.None? || w.id == 0 {
          return Uninitialized;
        }
        if w.session.value != me {
          return Mismatch;
        }
      }
      return Fine;
    }

    /** itofin_handle_release. */
    method HandleRelease(id: nat) returns (code: int)
      requires Held(objects) <= live
      modifies this
      ensures code == if old(poisoned) then POISONED else if id !in old(objects) then INVALID_HANDLE else 0
      ensures State() == if code == 0 then Settle(old(State()), old(objects) - {id}) else old(State())
    {
      if poisoned {
        return POISONED;
      }
      if id !in objects {
        return INVALID_HANDLE;
      }
      Replace(objects - {id});
      code := 0;
    }

    /** object.Close of a wrapper that this session made, or of the zero wrapper. */
    method Close(w: Wrapper) returns (answer: Answer)
      requires Balanced(State())
      requires w.session.Some? ==> w.session.value == me
      modifies this
      ensures State() == AfterClose(old(State()), w)
      ensures answer == if old(poisoned) && !old(freed) && w.session.Some? && w.id != 0 then Native(POISONED) else Fine
    {
      if w.session.None? || w.id == 0 {
        return Fine;
      }
      if freed {
        return Fine;
      }
      var code := HandleRelease(w.id);
      if code == INVALID_HANDLE {
        assert objects - {w.id} == objects;
        code := 0;
      }
      answer := if code == 0 then Fine else Native(code);
    }

    /** itofin_results_fields: the scalar fields and the number of additions. */
    method ResultsFields(id: nat, panics: bool) returns (code: int, fields: Snapshot, count: nat)
      modifies this
      ensures State() == old(State()).(poisoned := old(poisoned) || panics)
      ensures code == if old(poisoned) then POISONED else if panics then PANIC
                      else if id !in objects || objects[id].snapshot.None? then INVALID_HANDLE else 0
      ensures code == 0 ==>
                fields == objects[id].snapshot.value.(additional := []) &&
                count == |objects[id].snapshot.value.additional|
    {
      fields, count := Snapshot(None, None, None, []), 0;
      if poisoned {
        return POISONED, fields, count;
      }
      if panics {
        poisoned := true;
        return PANIC, fields, count;
      }
      if id !in objects || objects[id].snapshot.None? {
        return INVALID_HANDLE, fields, count;
      }
      var s := objects[id].snapshot.value;
      code, fields, count := 0, s.(additional := []), |s.additional|;
    }

    /** itofin_results_additional: one addition; capacity 0 asks for the key's length only. */
    method ResultsAdditional(id: nat, index: nat, key: array<char>, capacity: nat, panics: bool)
      returns (code: int, required: nat, value: real)
      requires capacity <= key.Length
      modifies this, key
      ensures State() == old(State()).(poisoned := old(poisoned) || panics)
      ensures old(poisoned) ==> code == POISONED
      ensures !old(poisoned) && panics ==> code == PANIC
      ensures !old(poisoned) && !panics && id in objects && objects[id].snapshot.Some?
              && index < |objects[id].snapshot.value.additional| ==>
                var a := objects[id].snapshot.value.additional[index];
                && required == |a.key| && value == a.value
                && (capacity == 0 || |a.key| <= capacity ==> code == 0)
                && (0 < |a.key| <= capacity ==> key[..|a.key|] == a.key)
    {
      required, value := 0, 0.0;
      if poisoned {
        return POISONED, required, value;
      }
      if panics {
        poisoned := true;
        return PANIC, required, value;
      }
      if id !in objects || objects[id].snapshot.None? {
        return INVALID_HANDLE, required, value;
      }
      if index >= |objects[id].snapshot.value.additional| {
        return INVALID_ARGUMENT, required, value;
      }
      var a := objects[id].snapshot.value.additional[index];
      required, value := |a.key|, a.value;
      if capacity == 0 {
        return 0, required, value;
      }
      if capacity < |a.key| {
        return INVALID_ARGUMENT, required, value;
      }
      for i := 0 to |a.key|
        invariant key[..i] == a.key[..i]
        invariant State() == old(State())
      {
        key[i] := a.key[i];
      }
      assert a.key[..|a.key|] == a.key;
      code := 0;
    }

    /** One addition by the two calls readResults makes for it. */
    method ReadAddition(id: nat, index: nat, panicAt: Option<nat>) returns (code: int, a: Addition)
      requires !poisoned && id in objects && objects[id].snapshot.Some?
      requires index < |objects[id].snapshot.value.additional|
      modifies this
      ensures var panicked := panicAt == Some(2 * index + 1) || panicAt == Some(2 * index + 2);
              && State() == old(State()).(poisoned := panicked)
              && code == (if panicked then PANIC else 0)
              && (code == 0 ==> a == objects[id].snapshot.value.additional[index])
    {
      a := Addition("", 0.0);
      var none := new char[0];
      var size: nat, value: real;
      code, size, value := ResultsAdditional(id, index, none, 0, panicAt == Some(2 * index + 1));
      if code != 0 {
        return;
      }
      var key := new char[size];
      code, size, value := ResultsAdditional(id, index, key, size, panicAt == Some(2 * index + 2));
      if code != 0 {
        return;
      }
      assert key[..] == key[..key.Length] == objects[id].snapshot.value.additional[index].key;
      a := Addition(key[..], value);
    }

    /** The body of readResults, before the deferred release. */
    method ReadFields(id: nat, panicAt: Option<nat>) returns (answer: Answer, r: Results)
      modifies this
      ensures State() == old(State()).(poisoned := old(poisoned) || ReadPanics(old(State()), id, panicAt))
      ensures answer ==
              if old(poisoned) then Native(POISONED)
              else if ReadPanics(old(State()), id, panicAt) then Native(PANIC)
              else if id !in objects || objects[id].snapshot.None? then Native(INVALID_HANDLE)
              else if !Readable(old(State()), id) then Native(INVALID_ARGUMENT)
              else Fine
      ensures answer == Fine ==>
                var s := objects[id].snapshot.value;
                && r.npv == s.npv && r.errorEstimate == s.errorEstimate && r.date == s.date
                && (DistinctKeys(s) ==> Shows(r.additional, s, |s.additional|))
    {
      r := Results(None, None, None, map[]);
      var code, fields, count := ResultsFields(id, !poisoned && panicAt == Some(0));
      if code != 0 {
        return Native(code), r;
      }
      r := r.(npv := fields.npv, errorEstimate := fields.errorEstimate);
      if fields.date.Some? {
        if !ValidDate(fields.date.value) {
          return Native(INVALID_ARGUMENT), r;
        }
        r := r.(date := fields.date);
      }
      ghost var s := objects[id].snapshot.value;
      for i := 0 to count
        invariant State() == old(State())
        invariant panicAt.Some? ==> panicAt.value == 0 || 2 * i < panicAt.value
        invariant r.npv == s.npv && r.errorEstimate == s.errorEstimate && r.date == s.date
        invariant DistinctKeys(s) ==> Shows(r.additional, s, i)
      {
        var a: Addition;
        code, a := ReadAddition(id, i, panicAt);
        if code != 0 {
          return Native(code), r;
        }
        assert s.additional[i] == a;
        r := r.(additional := r.additional[a.key := a.value]);
      }
      answer := Fine;
    }

    /** readResults: whatever happened, the handle is released on the way out. */
    method ReadResults(id: nat, panicAt: Option<nat>) returns (answer: Answer, r: Results)
      requires Balanced(State()) && !freed
      modifies this
      ensures State() == AfterRead(old(State()), id, panicAt)
      ensures answer == Fine <==>
              !old(poisoned) && Readable(old(State()), id) && !ReadPanics(old(State()), id, panicAt)
      ensures answer == Fine <==>
                && !old(poisoned) && id in old(objects) && old(objects)[id].snapshot.Some?
                && var s := old(objects)[id].snapshot.value;
                   && (s.date.Some? ==> 367 <= s.date.value <= 109_574)
                   && (panicAt.Some? ==> panicAt.value > 2 * |s.additional|)
      ensures answer == Fine ==>
                var s := old(objects)[id].snapshot.value;
                && r.npv == s.npv && r.errorEstimate == s.errorEstimate && r.date == s.date
                && (DistinctKeys(s) ==> Shows(r.additional, s, |s.additional|))
    {
      answer, r := ReadFields(id, panicAt);
      var code := HandleRelease(id);
      if code == INVALID_HANDLE {
        assert objects - {id} == objects;
      }
    }

    /** itofin_context_free, poisoned or not. */
    method ContextFree()
      requires Balanced(State()) && !freed
      modifies this
      ensures State() == After(me, old(State()), Free)
    {
      Replace(map[]);
      freed := true;
    }
  }
}
