/** The generated package tree (crates/itofin-py/scripts/gen_stubs.py and
    gen_submodule_shims.py): regenerating stubs, restoring them, and keeping shims beside them.

    A tree maps paths below python/itofin to texts. The generator is deterministic: it writes a
    fixed set of stubs over what is there. Stubs are post-processed in the order of their paths;
    elsewhere the order of iteration makes no difference and is left open. */
module StubTree {
  import opened Wrappers
  import opened Text
  import opened PathOrder

  type Files = map<Path, string>

  /** What the tooling is run with: the texts the generator writes, post_process (None where it
      raises), the marker of a generated stub, the text of a submodule's shim and the marker in it. */
  datatype Config = Config(
    output: Files, process: string -> Option<string>, stubMarker: string, shim: string -> string, shimMarker: string)

  const STUB_SUFFIX := ".pyi"
  const SOURCE_SUFFIX := ".py"
  const INIT_STUB := "__init__.pyi"
  const INIT_SOURCE := "__init__.py"

  /** Matched by rglob("*.pyi"). */
  predicate IsStub(p: Path) {
    p != [] && EndsWith(p[|p| - 1], STUB_SUFFIX)
  }

  function Stubs(files: Files): Files {
    map p | p in files && IsStub(p) :: files[p]
  }

  ghost predicate Sane(c: Config) {
    && (forall p :: p in c.output ==> IsStub(p))
    && (forall name :: Contains(c.shim(name), c.shimMarker))
  }

  // ---- Post-processing every generated stub ----

  predicate IsGenerated(c: Config, files: Files, p: Path)
    requires p in files
  {
    IsStub(p) && Contains(files[p], c.stubMarker)
  }

  /** What one stub becomes; None where post_process raises on it. */
  function Processed(c: Config, files: Files, p: Path): Option<string>
    requires p in files
  {
    if IsGenerated(c, files, p) then c.process(files[p]) else Some(files[p])
  }

  predicate AllProcess(c: Config, files: Files) {
    forall p :: p in files ==> Processed(c, files, p).Some?
  }

  function ProcessAll(c: Config, files: Files): Files
    requires AllProcess(c, files)
  {
    map p | p in files :: Processed(c, files, p).value
  }

  /** The first stub, in the order of paths, on which post_process raises. */
  ghost predicate RaisesFirst(c: Config, written: Files, stop: Path) {
    && stop in written && Processed(c, written, stop).None?
    && forall p :: p in written && p != stop && Processed(c, written, p).None? ==> Before(stop, p)
  }

  /** The tree when post_process raises there: what comes before is processed, the rest raw. */
  function HalfDone(c: Config, written: Files, stop: Path): Files {
    map p | p in written ::
      if Before(p, stop) && Processed(c, written, p).Some? then Processed(c, written, p).value else written[p]
  }

  // ---- Shims ----

  function Target(name: string): Path { [name, INIT_SOURCE] }

  /** The submodules with a stub: desired_shims' keys. */
  function Wanted(files: Files): set<string> {
    set p | p in files && |p| == 2 && p[1] == INIT_STUB :: p[0]
  }

  /** Paths that orphans looks at and does not skip. */
  predicate Candidate(wanted: set<string>, p: Path) {
    || (|p| == 1 && EndsWith(p[0], SOURCE_SUFFIX) && p[0] != INIT_SOURCE)
    || (|p| == 2 && p[1] == INIT_SOURCE && p[0] !in wanted)
  }

  function Orphans(c: Config, files: Files): set<Path> {
    set p | p in files && Candidate(Wanted(files), p) && Contains(files[p], c.shimMarker)
  }

  /** Submodules whose shim is missing or has another text. */
  function Outdated(c: Config, files: Files): set<string> {
    set name | name in Wanted(files) && (Target(name) !in files || files[Target(name)] != c.shim(name))
  }

  predicate NeedsShims(c: Config, files: Files) {
    Outdated(c, files) != {} || Orphans(c, files) != {}
  }

  predicate IsTarget(files: Files, p: Path) {
    |p| == 2 && p[1] == INIT_SOURCE && p[0] in Wanted(files)
  }

  /** The tree after a writing shim run: every wanted shim, no orphan, the rest as it was. */
  ghost predicate Shimmed(c: Config, files: Files, after: Files) {
    && (forall name :: name in Wanted(files) ==> Target(name) in after && after[Target(name)] == c.shim(name))
    && (forall p :: !IsTarget(files, p) ==> (p in after <==> p in files && p !in Orphans(c, files)))
    && (forall p :: p in after && !IsTarget(files, p) ==> after[p] == files[p])
  }

  // ---- Changes ----

  datatype Change = New(path: Path) | Orphaned(path: Path) | Stale(path: Path)

  ghost predicate Describes(before: Files, after: Files, changes: set<Change>) {
    && (forall p :: New(p) in changes <==> p !in before && p in after)
    && (forall p :: Orphaned(p) in changes <==> p in before && p !in after)
    && (forall p :: Stale(p) in changes <==> p in before && p in after && before[p] != after[p])
  }

  /** No change is described exactly if nothing changed. */
  lemma NoChangeMeansEqual(before: Files, after: Files, changes: set<Change>)
    requires Describes(before, after, changes)
    ensures changes == {} <==> before == after
  {
    if changes == {} {
      forall p ensures p in before <==> p in after {
        assert New(p) !in changes && Orphaned(p) !in changes;
      }
      forall p | p in before ensures before[p] == after[p] {
        assert Stale(p) !in changes;
      }
    }
    if before == after {
      forall change ensures change !in changes {
        match change
        case New(p) =>
        case Orphaned(p) =>
        case Stale(p) =>
      }
      assert changes == {};
    }
  }

  method Describe(before: Files, after: Files) returns (changes: set<Change>)
    ensures Describes(before, after, changes)
  {
    changes := {};
    var left := before.Keys + after.Keys;
    ghost var all := left;
    while left != {}
      invariant left <= all
      invariant forall p :: New(p) in changes <==> p in all - left && p !in before && p in after
      invariant forall p :: Orphaned(p) in changes <==> p in all - left && p in before && p !in after
      invariant forall p :: Stale(p) in changes <==>
          p in all - left && p in before && p in after && before[p] != after[p]
      decreases left
    {
      var p :| p in left;
      if p !in before {
        changes := changes + {New(p)};
      } else if p !in after {
        changes := changes + {Orphaned(p)};
      } else if before[p] != after[p] {
        changes := changes + {Stale(p)};
      }
      left := left - {p};
    }
  }

  // ---- The scripts ----

  class Tree {
    var files: Files

    constructor (files: Files)
      ensures this.files == files
    {
      this.files := files;
    }

    /** post_process_generated, in the order of paths; `ok` is false where post_process raises, and
        then exactly the stubs before that one have been rewritten. */
    method PostProcessGenerated(c: Config) returns (ok: bool)
      modifies this
      ensures ok == AllProcess(c, old(files))
      ensures ok ==> files == ProcessAll(c, old(files))
      ensures !ok ==> exists stop :: RaisesFirst(c, old(files), stop) && files == HalfDone(c, old(files), stop)
    {
      var before := files;
      var left := set p | p in files && IsStub(p);
      assert Ahead(before, left);
      hide Before, Contains, EndsWith, HalfDone, Ahead;
      while left != {}
        invariant left <= before.Keys && files.Keys == before.Keys
        invariant forall p :: p in left ==> IsStub(p) && files[p] == before[p]
        invariant forall p :: p in before && p !in left ==> Processed(c, before, p) == Some(files[p])
        invariant Ahead(before, left)
        decreases left
      {
        ghost var _ := FirstExists(left);
        var p :| p in left && IsFirst(left, p);
        if Contains(files[p], c.stubMarker) {
          var wanted := c.process(files[p]);
          if wanted.None? {
            StoppedHere(c, before, left, p, files);
            return false;
          }
          if files[p] != wanted.value {
            files := files[p := wanted.value];
          }
        }
        AheadNext(before, left, p);
        left := left - {p};
      }
      assert files == ProcessAll(c, before);
      ok := true;
    }

    /** restore: stubs that were not there are unlinked, the others written back. */
    method Restore(before: Files)
      requires forall p :: p in before ==> IsStub(p)
      modifies this
      ensures Stubs(files) == before
      ensures forall p :: !IsStub(p) ==> (p in files <==> p in old(files)) && (p in files ==> files[p] == old(files)[p])
    {
      var extra := set p | p in files && IsStub(p) && p !in before;
      files := files - extra;
      var left := before.Keys;
      while left != {}
        invariant left <= before.Keys
        invariant forall p :: p in files && IsStub(p) ==> p in before
        invariant forall p :: p in before && p !in left ==> p in files && files[p] == before[p]
        invariant forall p :: !IsStub(p) ==>
            (p in files <==> p in old(files)) && (p in files ==> files[p] == old(files)[p])
        decreases left
      {
        var p :| p in left;
        files := files[p := before[p]];
        left := left - {p};
      }
    }

    /** One wanted shim: whether it was missing or stale; unless checking, it is written. */
    method RefreshShim(c: Config, check: bool, name: string, ghost before: Files, ghost done: set<string>)
      returns (changed: bool)
      requires name !in done && if check then files == before else Refreshed(c, before, done, files)
      modifies this
      ensures changed == (Target(name) !in before || before[Target(name)] != c.shim(name))
      ensures if check then files == before else Refreshed(c, before, done + {name}, files)
    {
      assert !IsDone(done, Target(name));
      changed := Target(name) !in files || files[Target(name)] != c.shim(name);
      if changed && !check {
        files := files[Target(name) := c.shim(name)];
      }
    }

    /** The loop of run over the wanted shims. */
    method RefreshShims(c: Config, check: bool) returns (changed: bool)
      modifies this
      ensures changed == (Outdated(c, old(files)) != {})
      ensures if check then files == old(files) else Refreshed(c, old(files), Wanted(old(files)), files)
    {
      hide Wanted;
      ghost var before := files;
      var wanted := Wanted(files);
      var left := wanted;
      changed := false;
      while left != {}
        invariant left <= wanted
        invariant if check then files == before else Refreshed(c, before, wanted - left, files)
        invariant changed ==> Outdated(c, before) != {}
        invariant !changed ==> Outdated(c, before) <= left
        decreases left
      {
        hide Refreshed;
        var name :| name in left;
        var stale := RefreshShim(c, check, name, before, wanted - left);
        assert stale <==> name in Outdated(c, before);
        assert wanted - left + {name} == wanted - (left - {name});
        changed := changed || stale;
        left := left - {name};
      }
      assert wanted - left == wanted;
    }

    /** The loop of run over the orphans. */
    method RemoveOrphans(c: Config, check: bool, wanted: set<string>) returns (changed: bool)
      modifies this
      ensures var orphans := set p | p in old(files) && Candidate(wanted, p) && Contains(old(files)[p], c.shimMarker);
              && changed == (orphans != {})
              && files == if check then old(files) else old(files) - orphans
    {
      var orphans := set p | p in files && Candidate(wanted, p) && Contains(files[p], c.shimMarker);
      ghost var before := files;
      changed := orphans != {};
      var left := orphans;
      while left != {}
        invariant left <= orphans
        invariant files == if check then before else before - (orphans - left)
        decreases left
      {
        var p :| p in left;
        if !check {
          files := files - {p};
        }
        left := left - {p};
      }
      assert orphans - left == orphans;
    }

    /** gen_submodule_shims.run */
    method RunShims(c: Config, check: bool) returns (exit: int)
      modifies this
      ensures exit == if NeedsShims(c, old(files)) then 1 else 0
      ensures if check then files == old(files) else Shimmed(c, old(files), files)
    {
      ghost var before := files;
      var wanted := Wanted(files);
      var outdated := RefreshShims(c, check);
      if !check {
        OrphansNotRefreshed(c, before, files);
      }
      var orphaned := RemoveOrphans(c, check, wanted);
      exit := if outdated || orphaned then 1 else 0;
    }

    /** main; None where post_process raises and main does not return. */
    method RunScript(c: Config, check: bool) returns (exit: Option<int>)
      requires Sane(c)
      modifies this
      ensures exit.Some? <==> AllProcess(c, old(files) + c.output)
      ensures exit.Some? ==>
                var after := ProcessAll(c, old(files) + c.output);
                var changed := Stubs(old(files)) != Stubs(after);
                if check then
                  files == old(files) && exit.value == if changed || NeedsShims(c, old(files)) then 1 else 0
                else
                  Shimmed(c, after, files) && exit.value == if changed || NeedsShims(c, after) then 1 else 0
      ensures exit.None? ==>
                var written := old(files) + c.output;
                exists stop :: RaisesFirst(c, written, stop) && files == HalfDone(c, written, stop)
    {
      var before := Stubs(files);
      ghost var start := files;
      files := files + c.output;
      ghost var written := files;
      var ok := PostProcessGenerated(c);
      if !ok {
        return None;
      }
      var after := Stubs(files);
      var changes := Describe(before, after);
      NoChangeMeansEqual(before, after, changes);
      if check {
        Restore(before);
        RestoredWhole(c, start, files);
      }
      var shims := RunShims(c, check);
      exit := Some(if changes != {} || shims != 0 then 1 else 0);
    }
  }

  predicate IsDone(done: set<string>, p: Path) {
    |p| == 2 && p[1] == INIT_SOURCE && p[0] in done
  }

  /** Some wanted shims are written, everything else is as it was. */
  ghost predicate Refreshed(c: Config, before: Files, done: set<string>, files: Files) {
    && (forall name :: name in done ==> Target(name) in files && files[Target(name)] == c.shim(name))
    && (forall p :: !IsDone(done, p) ==> (p in files <==> p in before) && (p in files ==> files[p] == before[p]))
  }

  /** The stubs that have been visited come before those that are left. */
  ghost predicate Ahead(before: Files, left: set<Path>) {
    forall p, q :: p in before && IsStub(p) && p !in left && q in left ==> Before(p, q)
  }

  lemma AheadNext(before: Files, left: set<Path>, p: Path)
    requires Ahead(before, left) && IsFirst(left, p)
    ensures Ahead(before, left - {p})
  {
    hide Before;
  }

  /** Where the loop over the stubs stops, the tree is processed up to that stub. */
  lemma StoppedHere(c: Config, before: Files, left: set<Path>, stop: Path, files: Files)
    requires IsFirst(left, stop) && left <= before.Keys && files.Keys == before.Keys
    requires forall p :: p in left ==> IsStub(p) && files[p] == before[p]
    requires forall p :: p in before && p !in left ==> Processed(c, before, p) == Some(files[p])
    requires Ahead(before, left) && Processed(c, before, stop).None?
    ensures RaisesFirst(c, before, stop) && files == HalfDone(c, before, stop)
  {
    var half := HalfDone(c, before, stop);
    forall p | p in before ensures files[p] == half[p] {
      OneBefore(p, stop);
    }
    assert files.Keys == half.Keys;
  }

  lemma OrphansNotRefreshed(c: Config, before: Files, files: Files)
    requires Refreshed(c, before, Wanted(before), files)
    ensures forall p :: Candidate(Wanted(before), p) ==>
              (p in files <==> p in before) && (p in files ==> files[p] == before[p])
    ensures (set p | p in files && Candidate(Wanted(before), p) && Contains(files[p], c.shimMarker)) ==
            Orphans(c, before)
    ensures Shimmed(c, before, files - Orphans(c, before))
  {
  }

  lemma RestoredWhole(c: Config, start: Files, files: Files)
    requires Stubs(files) == Stubs(start)
    requires forall p :: !IsStub(p) ==> (p in files <==> p in start) && (p in files ==> files[p] == start[p])
    ensures files == start
  {
    forall p ensures p in files <==> p in start {
      assert IsStub(p) ==> (p in Stubs(files) <==> p in Stubs(start));
    }
    forall p | p in files ensures files[p] == start[p] {
      assert IsStub(p) ==> Stubs(files)[p] == Stubs(start)[p];
    }
  }
}
