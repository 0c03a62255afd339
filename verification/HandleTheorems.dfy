/** Conservation of native and cgo handles over every sequence of tasks of one session. */
module HandleTheorems {
  import opened Wrappers
  import opened NativeHandles

  ghost function Empty(ids: nat): Graph {
    Graph(map[], 1, ids, false, false, {}, 0, multiset{}, false)
  }

  ghost function AfterAll(me: nat, g: Graph, tasks: seq<Task>): Graph
    decreases |tasks|
  {
    if tasks == [] then g else AfterAll(me, After(me, g, tasks[0]), tasks[1..])
  }

  // ---- Every task keeps the balance ----

  lemma SettleBalanced(g: Graph, next: map<nat, Object>)
    requires Balanced(g) && Held(next) <= Held(g.objects) && next.Keys <= g.objects.Keys
    ensures Balanced(Settle(g, next))
  {
    var gone: set<nat> := Held(g.objects) - Held(next);
    var after := Settle(g, next);
    assert after.live == Held(next);
    forall h: nat ensures after.deletes[h] == if h < g.nextCgo && h !in after.live then 1 else 0 {
      assert multiset(gone)[h] == if h in gone then 1 else 0;
    }
    assert g.freed ==> next == map[];
  }

  lemma FewerHeld(objects: map<nat, Object>, ids: set<nat>)
    ensures Held(objects - ids) <= Held(objects)
  {
    forall h | h in Held(objects - ids) ensures h in Held(objects) {
      var id :| id in objects - ids && h in (objects - ids)[id].holds;
      assert id in objects && h in objects[id].holds;
    }
  }

  lemma InsertHeld(g: Graph, item: Object)
    requires g.nextId !in g.objects
    ensures Held(Insert(g, item).objects) == Held(g.objects) + item.holds
  {
    var next := Insert(g, item).objects;
    forall h | h in Held(g.objects) + item.holds ensures h in Held(next) {
      if h in item.holds {
        assert g.nextId in next && h in next[g.nextId].holds;
      } else {
        var id :| id in g.objects && h in g.objects[id].holds;
        assert id in next && h in next[id].holds;
      }
    }
  }

  lemma HeldByIsHeld(objects: map<nat, Object>, ids: set<nat>)
    ensures HeldBy(objects, ids) <= Held(objects)
  {
  }

  /** What keeps a usable context from building a curve, in the order in which it is noticed; and what a
      failure leaves: no new object, and the handle made for the callbacks deleted again. */
  lemma CurveFails(me: nat, g: Graph, variables: Option<Wrapper>, reference: int, deps: set<nat>, outcome: Outcome)
    requires !g.freed && (variables.Some? ==> variables.value.session == Some(me) && variables.value.id != 0)
    ensures var code := CurveCode(g, VariablesId(variables), reference, deps, outcome);
      var dated := !g.poisoned && 367 <= reference <= 109_574;
      var found := dated && deps <= g.objects.Keys && (variables.Some? ==> variables.value.id in g.objects);
      && (code == POISONED <==> g.poisoned)
      && (code == INVALID_HANDLE <==> dated && !found)
      && (code == CORE_ERROR <==> found && outcome.Refused?)
      && (code == PANIC <==> found && outcome.Panics?)
      && (code == INVALID_ARGUMENT <==> !g.poisoned && (!dated || (found && outcome.Built? && g.nextId >= g.ids)))
    ensures var after := AfterCurve(me, g, variables, reference, deps, outcome);
      CurveCode(g, VariablesId(variables), reference, deps, outcome) != 0 ==>
        && after.objects == g.objects && after.live == g.live && after.nextId == g.nextId
        && after.nextCgo == g.nextCgo + 1 && after.deletes == g.deletes + multiset{g.nextCgo}
        && (after.poisoned <==> g.poisoned || CurveCode(g, VariablesId(variables), reference, deps, outcome) == PANIC)
  {
  }

  lemma CurveBalanced(
      me: nat, g: Graph, variables: Option<Wrapper>, reference: int, deps: set<nat>, outcome: Outcome)
    requires Balanced(g)
    ensures Balanced(AfterCurve(me, g, variables, reference, deps, outcome))
  {
    var after := AfterCurve(me, g, variables, reference, deps, outcome);
    var wanted := Wanted(VariablesId(variables), deps);
    HeldByIsHeld(g.objects, wanted);
    InsertHeld(g, Object({g.nextCgo} + HeldBy(g.objects, wanted), None));
    assert g.nextCgo !in g.live;
    assert Counted(after);
  }

  lemma RewiredHeld(objects: map<nat, Object>, holds: map<nat, set<nat>>)
    ensures Rewired(objects, holds).Keys == objects.Keys
    ensures Held(Rewired(objects, holds)) <= Held(objects)
  {
  }

  lemma MadeBalanced(g: Graph, deps: set<nat>, snapshot: Option<Snapshot>)
    requires Balanced(g) && !g.freed
    ensures Balanced(Insert(g, Made(g, deps, snapshot)))
  {
    HeldByIsHeld(g.objects, deps);
    InsertHeld(g, Made(g, deps, snapshot));
  }

  /** The flags and the next object number do not matter for the balance. */
  lemma StillBalanced(g: Graph, poisoned: bool, skipped: nat)
    requires Balanced(g)
    ensures Balanced(g.(poisoned := poisoned)) && Balanced(g.(nextId := g.nextId + skipped))
  {
  }

  lemma FreeBalanced(g: Graph)
    requires Balanced(g)
    ensures Balanced(Settle(g, map[]).(freed := true))
  {
    SettleBalanced(g, map[]);
  }

  lemma TaskBalanced(me: nat, g: Graph, task: Task)
    requires Balanced(g)
    ensures Balanced(After(me, g, task))
  {
    hide Balanced, Settle, Insert, Made, Held, HeldBy, Rewired, AfterCurve;
    match task
    case Curve(variables, reference, deps, outcome) => CurveBalanced(me, g, variables, reference, deps, outcome);
    case Make(deps, snapshot, outcome) =>
      if !g.freed { MadeBalanced(g, deps, snapshot); }
      StillBalanced(g, outcome.Panics? && deps <= g.objects.Keys, 0);
    case Rewire(holds, panics) =>
      RewiredHeld(g.objects, holds);
      SettleBalanced(g, Rewired(g.objects, holds));
      StillBalanced(Settle(g, Rewired(g.objects, holds)), panics, 0);
    case CloseObject(w) =>
      FewerHeld(g.objects, {w.id});
      SettleBalanced(g, g.objects - {w.id});
    case Read(id, _) =>
      FewerHeld(g.objects, {id});
      SettleBalanced(g, g.objects - {id});
      StillBalanced(g, true, 0);
    case Elsewhere(count) =>
      StillBalanced(g, g.poisoned, count);
    case Free =>
      FreeBalanced(g);
  }

  lemma {:induction false} RunBalanced(me: nat, g: Graph, tasks: seq<Task>)
    requires Balanced(g)
    ensures Balanced(AfterAll(me, g, tasks))
    decreases |tasks|
  {
    if tasks != [] {
      TaskBalanced(me, g, tasks[0]);
      RunBalanced(me, After(me, g, tasks[0]), tasks[1..]);
    }
  }

  lemma TaskFrees(me: nat, g: Graph, task: Task)
    ensures After(me, g, task).freed <==> g.freed || task.Free?
  {
  }

  /** The context is freed exactly if a task of the run frees it. */
  lemma {:induction false} FreedByFree(me: nat, g: Graph, tasks: seq<Task>)
    ensures AfterAll(me, g, tasks).freed <==> g.freed || Free in tasks
    decreases |tasks|
  {
    if tasks != [] {
      TaskFrees(me, g, tasks[0]);
      FreedByFree(me, After(me, g, tasks[0]), tasks[1..]);
      assert tasks == [tasks[0]] + tasks[1..];
    }
  }

  /** Conservation: over every run of a session, panics and failures included, each cgo handle is
      deleted at most once; it is still undeleted exactly while some object keeps it, and once the
      context has been freed every handle ever created has been deleted exactly once. */
  lemma EachHandleDeletedOnce(me: nat, ids: nat, tasks: seq<Task>, h: nat)
    ensures var g := AfterAll(me, Empty(ids), tasks);
            && !g.fault
            && g.deletes[h] <= 1
            && (h < g.nextCgo ==> (g.deletes[h] == 0 <==> exists id :: id in g.objects && h in g.objects[id].holds))
            && (Free in tasks && h < g.nextCgo ==> g.deletes[h] == 1)
  {
    var g := AfterAll(me, Empty(ids), tasks);
    assert Balanced(Empty(ids)) by {
      assert Held(map[]) == {};
    }
    RunBalanced(me, Empty(ids), tasks);
    FreedByFree(me, Empty(ids), tasks);
    if h in g.live {
      var id :| id in g.objects && h in g.objects[id].holds;
    }
    if id :| id in g.objects && h in g.objects[id].holds {
      assert h in Held(g.objects);
    }
  }

  // ---- Closing ----

  lemma StaysGone(me: nat, g: Graph, task: Task, id: nat)
    requires id < g.nextId && id !in g.objects
    ensures id < After(me, g, task).nextId && id !in After(me, g, task).objects
  {
  }

  /** Handle numbers are never reused: what has left the table never comes back. */
  lemma {:induction false} NeverReborn(me: nat, g: Graph, tasks: seq<Task>, id: nat)
    requires id < g.nextId && id !in g.objects
    ensures id !in AfterAll(me, g, tasks).objects
    decreases |tasks|
  {
    if tasks != [] {
      StaysGone(me, g, tasks[0], id);
      NeverReborn(me, After(me, g, tasks[0]), tasks[1..], id);
    }
  }

  /** A Close, whatever it answers, then anything at all, then Close of a copy: the second changes nothing. */
  lemma LateCloseIsHarmless(me: nat, g: Graph, id: nat, between: seq<Task>)
    requires 0 < id < g.nextId
    ensures var w := Wrapper(Some(me), id);
            var later := AfterAll(me, AfterClose(g, w), between);
            AfterClose(later, w) == later
  {
    var closed := AfterClose(g, Wrapper(Some(me), id));
    if g.poisoned || g.freed {
      StaysUnusable(me, closed, between);
    } else {
      NeverReborn(me, closed, between, id);
      CloseAbsent(AfterAll(me, closed, between), Wrapper(Some(me), id));
    }
  }

  /** A context that is poisoned or freed stays so. */
  lemma {:induction false} StaysUnusable(me: nat, g: Graph, tasks: seq<Task>)
    requires g.poisoned || g.freed
    ensures AfterAll(me, g, tasks).poisoned || AfterAll(me, g, tasks).freed
    decreases |tasks|
  {
    if tasks != [] { StaysUnusable(me, After(me, g, tasks[0]), tasks[1..]); }
  }

  lemma CloseAbsent(g: Graph, w: Wrapper)
    requires w.id !in g.objects
    ensures AfterClose(g, w) == g
  {
    assert g.objects - {w.id} == g.objects;
    SettleSame(g);
  }

  lemma SettleSame(g: Graph)
    ensures Settle(g, g.objects) == g
  {
    var none: set<nat> := {};
    assert Held(g.objects) - Held(g.objects) == none;
    assert g.live - none == g.live && g.deletes + multiset(none) == g.deletes;
  }

  ghost function AfterCloses(g: Graph, ws: seq<Wrapper>): Graph
    decreases |ws|
  {
    if ws == [] then g else AfterCloses(AfterClose(g, ws[0]), ws[1..])
  }

  function Ids(ws: seq<Wrapper>): set<nat> {
    set i | 0 <= i < |ws| && ws[i].session.Some? && ws[i].id != 0 :: ws[i].id
  }

  /** Dropping some objects and then more is dropping them all at once. */
  lemma SettleTwice(g: Graph, next: map<nat, Object>, last: map<nat, Object>)
    requires Held(last) <= Held(next) <= Held(g.objects)
    ensures Settle(Settle(g, next), last) == Settle(g, last)
  {
    ReleaseTwice(g.live, g.deletes, Held(g.objects) - Held(next), Held(next) - Held(last));
    assert Held(g.objects) - Held(last) == (Held(g.objects) - Held(next)) + (Held(next) - Held(last));
  }

  lemma DropTwice(g: Graph, some: set<nat>, more: set<nat>)
    ensures var first := Settle(g, g.objects - some);
            Settle(first, first.objects - more) == Settle(g, g.objects - (some + more))
  {
    assert g.objects - some - more == g.objects - (some + more);
    FewerHeld(g.objects, some);
    FewerHeld(g.objects - some, more);
    SettleTwice(g, g.objects - some, g.objects - (some + more));
  }

  lemma ReleaseTwice(live: set<nat>, deletes: multiset<nat>, first: set<nat>, second: set<nat>)
    requires first !! second
    ensures live - first - second == live - (first + second)
    ensures deletes + multiset(first) + multiset(second) == deletes + multiset(first + second)
  {
    assert multiset(first + second) == multiset(first) + multiset(second);
  }

  lemma IdsOfRest(w: Wrapper, rest: seq<Wrapper>)
    ensures Ids([w] + rest) == Ids([w]) + Ids(rest)
  {
    var ws := [w] + rest;
    forall id | id in Ids(rest) ensures id in Ids(ws) {
      var i :| 0 <= i < |rest| && rest[i].session.Some? && rest[i].id != 0 && rest[i].id == id;
      assert ws[i + 1] == rest[i];
    }
    forall id | id in Ids(ws) ensures id in Ids([w]) + Ids(rest) {
      var i :| 0 <= i < |ws| && ws[i].session.Some? && ws[i].id != 0 && ws[i].id == id;
      assert ws[i] == if i == 0 then [w][0] else rest[i - 1];
    }
    forall id | id in Ids([w]) ensures id in Ids(ws) {
      assert ws[0] == [w][0];
    }
  }

  lemma CloseOne(g: Graph, w: Wrapper)
    requires !g.poisoned && !g.freed
    ensures AfterClose(g, w) == Settle(g, g.objects - Ids([w]))
  {
    if w.session.None? || w.id == 0 {
      assert Ids([w]) == {};
      assert g.objects - Ids([w]) == g.objects;
      SettleSame(g);
    } else {
      assert [w][0] == w;
      assert Ids([w]) == {w.id};
    }
  }

  /** Closing any copies of any objects, in any order and any number of times, drops exactly
      those objects, and on a poisoned or freed context none: the result depends only on which
      handles were closed. */
  lemma {:induction false} ClosesInAnyOrder(g: Graph, ws: seq<Wrapper>)
    ensures AfterCloses(g, ws) == if g.poisoned || g.freed then g else Settle(g, g.objects - Ids(ws))
    decreases |ws|
  {
    if g.poisoned || g.freed {
      if ws != [] { ClosesInAnyOrder(AfterClose(g, ws[0]), ws[1..]); }
    } else if ws == [] {
      assert g.objects - Ids(ws) == g.objects;
      SettleSame(g);
    } else {
      var w, rest := ws[0], ws[1..];
      assert ws == [w] + rest;
      CloseOne(g, w);
      ClosesInAnyOrder(AfterClose(g, w), rest);
      IdsOfRest(w, rest);
      DropTwice(g, Ids([w]), Ids(rest));
    }
  }

  // ---- Valuation snapshots ----

  /** readResults consumes the handle it was given exactly when the context is usable and no native
      call panics while it reads. Otherwise the context is poisoned and keeps the snapshot until
      it is freed. No other object is touched either way. */
  lemma ReadConsumes(g: Graph, id: nat, panicAt: Option<nat>)
    requires Balanced(g) && !g.freed && id in g.objects
    ensures var after := AfterRead(g, id, panicAt);
            && (id !in after.objects <==> !g.poisoned && !ReadPanics(g, id, panicAt))
            && (id in after.objects <==> after.poisoned)
            && after.objects - {id} == g.objects - {id}
            && id !in Settle(after, map[]).objects
  {
    assert g.objects - {id} - {id} == g.objects - {id};
  }

  /** Results: taking a snapshot and reading it leaves the table as it was, whether reading
      succeeds or fails, unless a native call panics. */
  lemma ResultsLeaveNoHandle(me: nat, g: Graph, option: nat, snapshot: Snapshot, panicAt: Option<nat>)
    requires Balanced(g) && !g.freed && !g.poisoned && option in g.objects && g.nextId < g.ids
    ensures var taken := After(me, g, Make({option}, Some(snapshot), Built));
            && g.nextId in taken.objects
            && (!ReadPanics(taken, g.nextId, panicAt) ==>
                  AfterRead(taken, g.nextId, panicAt) == g.(nextId := g.nextId + 1))
  {
    var taken := After(me, g, Make({option}, Some(snapshot), Built));
    assert taken.objects - {g.nextId} == g.objects;
    InsertHeld(g, Made(g, {option}, Some(snapshot)));
    assert Held(taken.objects) == Held(g.objects);
    SettleSame(g);
  }
}
