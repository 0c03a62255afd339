/** Agreement of check and write mode, and convergence, over every tree. */
module StubTreeTheorems {
  import opened Wrappers
  import opened Text
  import opened PathOrder
  import opened StubTree
  import StubText
  import StubTextTheorems
  import StubTextTwice

  /** The tree that a run's shim step starts from in write mode. */
  function Regenerated(c: Config, files: Files): Files
    requires AllProcess(c, files + c.output)
  {
    ProcessAll(c, files + c.output)
  }

  ghost predicate StubsChange(c: Config, files: Files)
    requires AllProcess(c, files + c.output)
  {
    Stubs(files) != Stubs(Regenerated(c, files))
  }

  /** Regenerating leaves everything but stubs alone. */
  lemma OthersKept(c: Config, files: Files)
    requires Sane(c) && AllProcess(c, files + c.output)
    ensures forall p :: !IsStub(p) ==>
              && (p in Regenerated(c, files) <==> p in files)
              && (p in files ==> Regenerated(c, files)[p] == files[p])
  {
  }

  /** From any tree check mode and write mode return the same exit code, although check mode
      inspects the shims of the restored tree and write mode those of the regenerated one. */
  lemma CheckAgreesWithWrite(c: Config, files: Files)
    requires Sane(c) && AllProcess(c, files + c.output)
    ensures StubsChange(c, files) || NeedsShims(c, files) <==>
            StubsChange(c, files) || NeedsShims(c, Regenerated(c, files))
  {
    if !StubsChange(c, files) {
      OthersKept(c, files);
      RestoredWhole(c, files, Regenerated(c, files));
    }
  }

  lemma ShimsAreNoStubs(files: Files, p: Path)
    requires IsStub(p)
    ensures !IsTarget(files, p)
    ensures forall wanted :: !Candidate(wanted, p)
  {
    var name := p[|p| - 1];
    SuffixChar(name, STUB_SUFFIX);
    SuffixChar(name, SOURCE_SUFFIX);
    assert STUB_SUFFIX[3] == 'i' && SOURCE_SUFFIX[2] == 'y' && INIT_SOURCE[|INIT_SOURCE| - 1] == 'y';
  }

  lemma SuffixChar(name: string, suffix: string)
    requires suffix != ""
    ensures EndsWith(name, suffix) ==> name != "" && name[|name| - 1] == suffix[|suffix| - 1]
  {
    if EndsWith(name, suffix) {
      assert name[|name| - 1] == name[|name| - |suffix|..][|suffix| - 1];
    }
  }

  /** A writing shim run touches no stub. */
  lemma StubsUntouched(c: Config, files: Files, after: Files)
    requires Shimmed(c, files, after)
    ensures Stubs(after) == Stubs(files) && Wanted(after) == Wanted(files)
  {
    forall p | IsStub(p) ensures (p in after <==> p in files) && (p in after ==> after[p] == files[p]) {
      ShimsAreNoStubs(files, p);
    }
    assert Stubs(after) == Stubs(files);
    forall p: Path | |p| == 2 && p[1] == INIT_STUB ensures p in after <==> p in files {
      assert INIT_STUB[|INIT_STUB| - |STUB_SUFFIX|..] == STUB_SUFFIX;
      assert IsStub(p);
    }
    assert forall p :: p in after && |p| == 2 && p[1] == INIT_STUB <==> p in files && |p| == 2 && p[1] == INIT_STUB;
    forall name ensures name in Wanted(after) <==> name in Wanted(files) {
      if name in Wanted(after) {
        var p :| p in after && |p| == 2 && p[1] == INIT_STUB && p[0] == name;
        assert p in files;
      }
      if name in Wanted(files) {
        var p :| p in files && |p| == 2 && p[1] == INIT_STUB && p[0] == name;
        assert p in after;
      }
    }
  }

  /** A file that such a run removes: it bears the marker, and is a top-level source other than the
      package's own, or the source of a directory without a stub. */
  ghost predicate IsDropped(c: Config, files: Files, p: Path) {
    && p in files && Contains(files[p], c.shimMarker)
    && (|| (p != ["__init__.py"] && exists name: string :: p == [name + ".py"])
        || exists name: string :: p == [name, "__init__.py"] && [name, "__init__.pyi"] !in files)
  }

  /** The source of a directory with a stub. */
  ghost predicate BesideStub(files: Files, p: Path) {
    exists name: string :: p == [name, "__init__.py"] && [name, "__init__.pyi"] in files
  }

  lemma StubIsWanted(files: Files, name: string)
    ensures name in Wanted(files) <==> [name, "__init__.pyi"] in files
  {
    if name in Wanted(files) {
      var p :| p in files && |p| == 2 && p[1] == INIT_STUB && p[0] == name;
      assert p == [name, "__init__.pyi"];
    }
    if [name, "__init__.pyi"] in files {
      assert [name, "__init__.pyi"][1] == INIT_STUB;
    }
  }

  lemma DroppedIsOrphan(c: Config, files: Files, p: Path)
    ensures IsDropped(c, files, p) <==> p in Orphans(c, files)
  {
    hide Contains, Wanted;
    if p in files && Contains(files[p], c.shimMarker) {
      if |p| == 1 {
        if EndsWith(p[0], SOURCE_SUFFIX) {
          var name := p[0][..|p[0]| - |SOURCE_SUFFIX|];
          assert p[0] == name + ".py";
          assert p == [name + ".py"];
        }
        if name: string :| p == [name + ".py"] {
          assert (name + ".py")[|name|..] == SOURCE_SUFFIX;
        }
        assert p == ["__init__.py"] <==> p[0] == INIT_SOURCE;
      } else if |p| == 2 {
        StubIsWanted(files, p[0]);
        assert p == [p[0], p[1]];
      }
    }
  }

  /** A writing shim run removes exactly those files, and writes the shim of exactly the directories
      that have a stub; everything else stays. */
  lemma ShimRunExactly(c: Config, files: Files, after: Files, p: Path)
    requires Shimmed(c, files, after)
    ensures BesideStub(files, p) ==> p in after && after[p] == c.shim(p[0])
    ensures !BesideStub(files, p) ==>
              && (p in after <==> p in files && !IsDropped(c, files, p))
              && (p in after ==> after[p] == files[p])
  {
    hide Contains, Wanted, Orphans;
    DroppedIsOrphan(c, files, p);
    if |p| == 2 {
      StubIsWanted(files, p[0]);
      assert p == [p[0], p[1]];
    }
    if BesideStub(files, p) {
      assert p == Target(p[0]);
    }
  }

  /** A shim run asks for changes exactly if it makes some. */
  lemma NeededExactly(c: Config, files: Files, after: Files)
    requires Shimmed(c, files, after)
    ensures NeedsShims(c, files) <==> after != files
  {
    hide Contains, Wanted;
    if name :| name in Outdated(c, files) {
      assert Target(name) in after && after[Target(name)] == c.shim(name);
    }
    if p :| p in Orphans(c, files) {
      assert p !in after;
    }
    if !NeedsShims(c, files) {
      forall p ensures (p in after <==> p in files) && (p in after ==> after[p] == files[p]) {
        if IsTarget(files, p) { assert p == Target(p[0]) && p[0] !in Outdated(c, files); }
      }
      assert after == files;
    }
  }

  /** After one writing run of the shim script a second one has nothing to do. */
  lemma ShimsConverge(c: Config, files: Files, after: Files)
    requires Shimmed(c, files, after)
    ensures !NeedsShims(c, after)
  {
    StubsUntouched(c, files, after);
  }

  /** A shim follows its stub: once the stub is gone, the next run removes what it wrote. */
  lemma ShimFollowsStub(c: Config, files: Files, after: Files, name: string)
    requires Sane(c) && Shimmed(c, files, after) && name in Wanted(files)
    ensures Target(name) in Orphans(c, after - {[name, INIT_STUB]})
  {
    var without := after - {[name, INIT_STUB]};
    assert INIT_STUB[|INIT_STUB| - 1] == 'i' && INIT_SOURCE[|INIT_SOURCE| - 1] == 'y';
    assert Target(name)[1] != [name, INIT_STUB][1];
    assert Target(name) in without && without[Target(name)] == c.shim(name);
    forall p | p in without && |p| == 2 && p[1] == INIT_STUB ensures p[0] != name {
      assert p != [name, INIT_STUB];
      assert p == [p[0], INIT_STUB];
    }
    assert name !in Wanted(without);
  }

  /** Files without the shim marker, other than the shim of an existing submodule, are kept. */
  lemma HandWrittenKept(c: Config, files: Files, after: Files, p: Path)
    requires Shimmed(c, files, after) && p in files && !IsTarget(files, p) && !Contains(files[p], c.shimMarker)
    ensures p in after && after[p] == files[p]
  {
  }

  /** A writing run of the whole script changes only what it generates: a stub that the generator
      does not write and that lacks its marker is kept, and so is any other file that lacks the shim
      marker and is not the shim of a submodule. */
  lemma HandWrittenFilesKept(c: Config, files: Files, after: Files, p: Path)
    requires Sane(c) && AllProcess(c, files + c.output) && Shimmed(c, Regenerated(c, files), after)
    requires p in files
    requires if IsStub(p) then p !in c.output && !Contains(files[p], c.stubMarker)
             else !IsTarget(Regenerated(c, files), p) && !Contains(files[p], c.shimMarker)
    ensures p in after && after[p] == files[p]
  {
    if IsStub(p) {
      ShimsAreNoStubs(Regenerated(c, files), p);
    } else {
      OthersKept(c, files);
      HandWrittenKept(c, Regenerated(c, files), after, p);
    }
  }

  /** What a stub's text becomes if post-processing raises nowhere. */
  function Tidied(c: Config, text: string): Option<string> {
    if Contains(text, c.stubMarker) then c.process(text) else Some(text)
  }

  /** The file at the path once the generator has written its stubs over the tree. */
  function Written(c: Config, files: Files, p: Path): Option<string> {
    if p in c.output then Some(c.output[p]) else if p in files then Some(files[p]) else None
  }

  /** The whole tree after a writing run, file by file. A stub is the generator's text or the one that
      was there, post-processed if it bears the marker. Beside a stub in a directory of the package
      there is its shim; marked sources without a stub are gone; everything else is as it was. */
  lemma WriteRunExactly(c: Config, files: Files, after: Files, p: Path)
    requires Sane(c) && AllProcess(c, files + c.output) && Shimmed(c, Regenerated(c, files), after)
    ensures IsStub(p) ==> (p in after <==> Written(c, files, p).Some?)
    ensures IsStub(p) && p in after ==> Tidied(c, Written(c, files, p).value) == Some(after[p])
    ensures BesideStub(files + c.output, p) ==> p in after && after[p] == c.shim(p[0])
    ensures !IsStub(p) && !BesideStub(files + c.output, p) ==>
              && (p in after <==> p in files && !IsDropped(c, files + c.output, p))
              && (p in after ==> after[p] == files[p])
  {
    var raw := files + c.output;
    hide Contains, Wanted, Shimmed, Candidate;
    var made := Regenerated(c, files);
    assert made.Keys == raw.Keys;
    if IsStub(p) {
      StubsUntouched(c, made, after);
      assert p in Stubs(after) <==> p in Stubs(made);
    } else {
      ShimRunExactly(c, made, after, p);
    }
    if BesideStub(raw, p) {
      ShimIsNoStub(raw, p);
    }
  }

  lemma ShimIsNoStub(files: Files, p: Path)
    requires BesideStub(files, p)
    ensures !IsStub(p)
  {
    StubIsWanted(files, p[0]);
    if IsStub(p) { ShimsAreNoStubs(files, p); }
  }

  /** So the exit code is that of a hook: 1 exactly if a writing run changes the tree. */
  lemma ExitMeansChanged(c: Config, files: Files, after: Files)
    requires Sane(c) && AllProcess(c, files + c.output) && Shimmed(c, Regenerated(c, files), after)
    ensures StubsChange(c, files) || NeedsShims(c, Regenerated(c, files)) <==> after != files
  {
    var made := Regenerated(c, files);
    hide Contains, Wanted, Shimmed, NeedsShims;
    NeededExactly(c, made, after);
    StubsUntouched(c, made, after);
    if Stubs(made) == Stubs(files) {
      OthersKept(c, files);
      RestoredWhole(c, files, made);
    }
  }

  // ---- Check mode that raises ----

  /** A run that raises at `stop` changes nothing: every stub the generator writes was there, each
      stub before `stop` is processed to the text it had, and each other one is written as it was. */
  ghost predicate Unnoticed(c: Config, files: Files, stop: Path) {
    var written := files + c.output;
    && c.output.Keys <= files.Keys
    && (forall p :: p in files && Before(p, stop) ==> Processed(c, written, p) == Some(files[p]))
    && (forall p :: p in c.output && !Before(p, stop) ==> c.output[p] == files[p])
  }

  /** The exact condition under which check mode leaves a tree as it was. */
  ghost predicate CheckKeeps(c: Config, files: Files) {
    || AllProcess(c, files + c.output)
    || exists stop :: RaisesFirst(c, files + c.output, stop) && Unnoticed(c, files, stop)
  }

  lemma RaisingKeepsExactly(c: Config, files: Files, stop: Path)
    requires RaisesFirst(c, files + c.output, stop)
    ensures HalfDone(c, files + c.output, stop) == files <==> Unnoticed(c, files, stop)
  {
    var written := files + c.output;
    var half := HalfDone(c, written, stop);
    forall p | p in written && Before(p, stop) ensures Processed(c, written, p).Some? {
      OneBefore(p, stop);
    }
    if half == files {
      assert half.Keys == written.Keys;
      forall p | p in c.output && !Before(p, stop) ensures c.output[p] == files[p] {
        assert half[p] == written[p];
      }
      forall p | p in files && Before(p, stop) ensures Processed(c, written, p) == Some(files[p]) {
        assert half[p] == files[p];
      }
    }
    if Unnoticed(c, files, stop) {
      assert half.Keys == files.Keys;
    }
  }

  lemma OneStop(c: Config, written: Files, p: Path, q: Path)
    requires RaisesFirst(c, written, p) && RaisesFirst(c, written, q)
    ensures p == q
  {
    OneBefore(p, q);
  }

  /** Check mode on any tree: it is as before exactly under that condition. */
  method Check(c: Config, tree: Tree) returns (exit: Option<int>)
    requires Sane(c)
    modifies tree
    ensures tree.files == old(tree.files) <==> CheckKeeps(c, old(tree.files))
  {
    ghost var before := tree.files;
    ghost var written := before + c.output;
    exit := tree.RunScript(c, true);
    if exit.None? {
      ghost var stop :| RaisesFirst(c, written, stop) && tree.files == HalfDone(c, written, stop);
      RaisingKeepsExactly(c, before, stop);
      forall q | RaisesFirst(c, written, q) ensures q == stop {
        OneStop(c, written, q, stop);
      }
    }
  }

  /** So where post_process raises, check mode leaves behind every stub that the generator wrote; and
      the tree has changed if one of them was not there before, or if the stub at fault, as the
      generator writes it, is not what was there. */
  lemma RaisingCheckLeavesStubs(c: Config, files: Files, stop: Path)
    requires RaisesFirst(c, files + c.output, stop)
    ensures c.output.Keys <= HalfDone(c, files + c.output, stop).Keys
    ensures !(c.output.Keys <= files.Keys) ==> HalfDone(c, files + c.output, stop) != files
    ensures stop in c.output && stop in files && files[stop] != c.output[stop] ==>
              HalfDone(c, files + c.output, stop) != files
  {
    RaisingKeepsExactly(c, files, stop);
    OneBefore(stop, stop);
  }

  // A package of one stub, whose generated text has an enum without members. It was committed with
  // some other text, as it would be if its last member has just been removed.

  const STUB_MARKER := "automatically generated " + "by pyo3_stub_gen"
  const SHIM_MARKER := "generated by scripts/" + "gen_submodule_shims.py"
  const EMPTY_ENUM_STUB := "# This file is " + STUB_MARKER + "\nimport enum\nclass Empty(enum.Enum):\n    ...\n"
  const EMPTY_ENUM_PATH: Path := ["empty", INIT_STUB]

  function EmptyEnumParse(): string -> Option<seq<StubText.EnumClass>> {
    (t: string) => Some(if t == EMPTY_ENUM_STUB then [StubText.EnumClass(2, "Empty", [])] else [])
  }

  function EmptyEnum(): Config {
    Config(map[EMPTY_ENUM_PATH := EMPTY_ENUM_STUB], t => StubText.PostProcess(EmptyEnumParse(), t), STUB_MARKER,
           name => "Auto-" + SHIM_MARKER + name, SHIM_MARKER)
  }

  /** post_process itself raises on that stub. */
  lemma EmptyEnumRaises(files: Files)
    requires files == map[EMPTY_ENUM_PATH := EMPTY_ENUM_STUB]
    ensures Sane(EmptyEnum()) && RaisesFirst(EmptyEnum(), files, EMPTY_ENUM_PATH)
    ensures !AllProcess(EmptyEnum(), files) && HalfDone(EmptyEnum(), files, EMPTY_ENUM_PATH) == files
    ensures StubText.PostProcess(EmptyEnumParse(), EMPTY_ENUM_STUB).None?
  {
    assert INIT_STUB[|INIT_STUB| - |STUB_SUFFIX|..] == STUB_SUFFIX;
    forall name ensures Contains("Auto-" + SHIM_MARKER + name, SHIM_MARKER) {
      ContainsIn("Auto-", SHIM_MARKER, name);
    }
    ContainsIn("# This file is ", STUB_MARKER, "\nimport enum\nclass Empty(enum.Enum):\n    ...\n");
    var enums := [StubText.EnumClass(2, "Empty", [])];
    assert enums[..0] == [];
    assert StubText.Replacements(enums, 1).None?;
    assert Processed(EmptyEnum(), files, EMPTY_ENUM_PATH).None?;
  }

  /** Checking it raises and leaves the raw stub in place of the committed one. */
  method CheckThatChanges(tree: Tree, committed: string) returns (exit: Option<int>)
    requires tree.files == map[EMPTY_ENUM_PATH := committed] && committed != EMPTY_ENUM_STUB
    modifies tree
    ensures exit.None? && tree.files == map[EMPTY_ENUM_PATH := EMPTY_ENUM_STUB] != old(tree.files)
  {
    var c := EmptyEnum();
    ghost var written := tree.files + c.output;
    assert written == map[EMPTY_ENUM_PATH := EMPTY_ENUM_STUB];
    assert tree.files[EMPTY_ENUM_PATH] != written[EMPTY_ENUM_PATH];
    EmptyEnumRaises(written);
    hide Sane, RaisesFirst, HalfDone, AllProcess, EmptyEnum, Processed, StubText.PostProcess;
    exit := tree.RunScript(c, true);
    ghost var stop :| RaisesFirst(c, written, stop) && tree.files == HalfDone(c, written, stop);
    OneStop(c, written, stop, EMPTY_ENUM_PATH);
  }

  // ---- A second writing run ----

  /** Generated stubs that the generator no longer writes are left alone by post-processing them again. */
  ghost predicate LeftoversStable(c: Config, files: Files)
    requires AllProcess(c, files + c.output)
  {
    forall p :: p in files && IsStub(p) && p !in c.output ==>
      var text := Processed(c, files + c.output, p).value;
      Contains(text, c.stubMarker) ==> c.process(text) == Some(text)
  }

  lemma StubAgain(c: Config, files: Files, after: Files, p: Path)
    requires Sane(c) && AllProcess(c, files + c.output) && Shimmed(c, Regenerated(c, files), after)
    requires p in after
    ensures IsStub(p) ==> p in files + c.output && after[p] == Processed(c, files + c.output, p).value
    ensures p in c.output ==> Processed(c, after + c.output, p) == Some(after[p])
    ensures p !in c.output ==> (after + c.output)[p] == after[p]
  {
    if IsStub(p) {
      ShimsAreNoStubs(Regenerated(c, files), p);
    }
  }

  /** After a writing run, a second one finds no stub and no shim to change, and changes nothing,
      exactly if the leftover generated stubs are stable under post-processing. */
  lemma SecondRunIsClean(c: Config, files: Files, after: Files)
    requires Sane(c) && AllProcess(c, files + c.output) && Shimmed(c, Regenerated(c, files), after)
    ensures LeftoversStable(c, files) <==>
            && AllProcess(c, after + c.output)
            && Regenerated(c, after) == after
            && !NeedsShims(c, Regenerated(c, after))
  {
    ShimsConverge(c, Regenerated(c, files), after);
    OutputWritten(c, files, after);
    if LeftoversStable(c, files) {
      forall p | p in after + c.output ensures Processed(c, after + c.output, p) == Some(after[p]) {
        StubAgain(c, files, after, p);
      }
      assert Regenerated(c, after) == after;
    } else {
      var p :| p in files && IsStub(p) && p !in c.output &&
        var text := Processed(c, files + c.output, p).value;
        Contains(text, c.stubMarker) && c.process(text) != Some(text);
      ShimsAreNoStubs(Regenerated(c, files), p);
      assert p in after;
      StubAgain(c, files, after, p);
      assert Processed(c, after + c.output, p) == c.process(after[p]);
    }
  }

  lemma OutputWritten(c: Config, files: Files, after: Files)
    requires Sane(c) && AllProcess(c, files + c.output) && Shimmed(c, Regenerated(c, files), after)
    ensures (after + c.output).Keys == after.Keys
  {
    forall p | p in c.output ensures p in after {
      ShimsAreNoStubs(Regenerated(c, files), p);
    }
  }

  /** A marked stub that the generator no longer writes. */
  predicate Leftover(c: Config, files: Files, p: Path) {
    p in files && IsStub(p) && p !in c.output && Contains(files[p], c.stubMarker)
  }

  /** With post_process as it is: the leftovers are stable exactly if the lines of each that keeps
      its marker are settled. */
  lemma LeftoversOfPostProcess(
      c: Config, parse: string -> Option<seq<StubText.EnumClass>>, files: Files)
    requires AllProcess(c, files + c.output)
    requires forall t :: c.process(t) == StubText.PostProcess(parse, t)
    requires forall p :: Leftover(c, files, p) ==> ParsesTwice(parse, files[p])
    ensures LeftoversStable(c, files) <==>
            forall p :: Leftover(c, files, p) && KeepsMarker(c, parse, files[p]) ==>
              StubTextTwice.Settled(StubText.Expanded(parse, files[p]).value)
  {
    hide StubTextTwice.Settled, StubText.Expanded, StubText.PostProcess, Contains;
    forall p | p in files && IsStub(p) && p !in c.output
      ensures var text := Processed(c, files + c.output, p).value;
        (Contains(text, c.stubMarker) ==> c.process(text) == Some(text)) <==>
        (Leftover(c, files, p) && KeepsMarker(c, parse, files[p]) ==>
           StubTextTwice.Settled(StubText.Expanded(parse, files[p]).value))
    {
      assert (files + c.output)[p] == files[p];
      if Leftover(c, files, p) {
        assert ParsesTwice(parse, files[p]);
        StubTextTwice.PostProcessTwice(parse, files[p]);
      }
    }
  }

  ghost predicate KeepsMarker(c: Config, parse: string -> Option<seq<StubText.EnumClass>>, t: string)
    requires ParsesTwice(parse, t)
  {
    Contains(StubText.PostProcess(parse, t).value, c.stubMarker)
  }

  /** post_process succeeds on the text and leaves no enum class in it. */
  ghost predicate ParsesTwice(parse: string -> Option<seq<StubText.EnumClass>>, t: string) {
    && StubText.PostProcess(parse, t).Some?
    && StubText.Expanded(parse, t).Some?
    && StubTextTheorems.Identifiers(parse(t).value)
    && parse(StubText.PostProcess(parse, t).value) == Some([])
  }
}
