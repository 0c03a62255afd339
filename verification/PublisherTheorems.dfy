/** What publishing promises over crashes, reruns with rebuilt archives, and repeated runs. */
module PublisherTheorems {
  import opened Wrappers
  import opened RemoteTags
  import opened Text
  import opened Publisher
  import opened PublisherRun
  import opened PublisherAssets

  // ---- The remote after any number of writes of a run ----

  /** The remote with these assets, and with the Go tag and the notes if they are written. */
  function Later(c: Checkout, r: Remote, assets: map<string, string>, tag: bool, notes: bool): Remote
    requires c.version.Some?
  {
    var goTag := GoTag(c.version.value);
    r.(assets := assets,
       refs := if tag then r.refs[goTag := Commit(c.revision)] else r.refs,
       body := if notes then r.body + Notes(c) else r.body)
  }

  lemma MissingTag(r: Remote, tag: string)
    ensures Resolve(r.refs, r.tagObjects, tag) == Missing <==> tag !in r.refs
  {
    if tag in r.refs { FollowNeverMissing(r.tagObjects, r.refs[tag], 8); }
  }

  /** The writes after the uploads, one by one. */
  lemma ClosingWrites(c: Checkout, r: Remote, uploads: seq<Write>, accepts: nat -> bool, m: nat)
    requires c.version.Some? && m <= |Closing(c, r)|
    requires Deliver(r, uploads, accepts) == r.(assets := Deliver(r, uploads, accepts).assets)
    ensures Deliver(r, uploads + Closing(c, r)[..m], accepts) ==
            Later(c, r, Deliver(r, uploads, accepts).assets,
                  m > 0 && |TagWrites(c, r)| > 0, m > |TagWrites(c, r)| && |NoteWrites(c, r)| > 0)
  {
    hide Deliver, Contains, Resolve, Notes, Follow;
    var ws := Closing(c, r);
    if m == 0 {
      assert uploads + ws[..0] == uploads;
    } else if m == 1 {
      assert uploads + ws[..1] == uploads + [ws[0]];
      DeliverOne(r, uploads, ws[0], accepts);
    } else {
      assert uploads + ws[..2] == uploads + [ws[0]] + [ws[1]];
      DeliverOne(r, uploads, ws[0], accepts);
      DeliverOne(r, uploads + [ws[0]], ws[1], accepts);
    }
  }

  /** What a cleared run leaves after its first `n` writes: either a prefix of the uploads and
      nothing else, or all of them with both platforms attached, and then the tag and the notes. */
  lemma Phases(tools: Tools, c: Checkout, accepts: nat -> bool, r: Remote, n: nat)
    requires Cleared(c, r) && n <= |Plan(tools, c, accepts, r).0|
    ensures var uploads := AllUploads(tools, c, r).0;
      var after := Deliver(r, Plan(tools, c, accepts, r).0[..n], accepts);
      if n <= |uploads| then
        after == Deliver(r, uploads[..n], accepts) && after == Later(c, r, after.assets, false, false)
      else
        var m := n - |uploads|;
        && Attached(Deliver(r, uploads, accepts).assets, c.version.value)
        && m <= |Closing(c, r)|
        && after == Later(c, r, Deliver(r, uploads, accepts).assets,
                          |TagWrites(c, r)| > 0, m > |TagWrites(c, r)| && |NoteWrites(c, r)| > 0)
  {
    hide Deliver, Uploads, Contains, Notes, Follow, Attached;
    PlanIsShaped(tools, c, accepts, r);
    var uploads := AllUploads(tools, c, r).0;
    var plan := Plan(tools, c, accepts, r).0;
    UploadsAreNew(tools, c, r, |PLATFORMS|);
    if n <= |uploads| {
      assert plan[..n] == uploads[..n];
      UploadsAdd(r, uploads[..n], accepts);
    } else {
      assert plan[..n] == uploads + Closing(c, r)[..n - |uploads|];
      UploadsAdd(r, uploads, accepts);
      ClosingWrites(c, r, uploads, accepts, n - |uploads|);
    }
  }

  function Min(a: nat, b: nat): nat {
    if a < b then a else b
  }

  /** Outcome, read off the number of writes that were made. */
  lemma OutcomeAfter(tools: Tools, c: Checkout, accepts: nat -> bool, r: Remote, limit: nat)
    ensures var plan := Plan(tools, c, accepts, r);
      Outcome(tools, c, accepts, r, limit) ==
        (Deliver(r, plan.0[..Min(limit, |plan.0|)], accepts), if limit < |plan.0| then Crashed else plan.1)
  {
    var plan := Plan(tools, c, accepts, r).0;
    assert plan[..|plan|] == plan;
  }

  // ---- Safety, whatever the server drops and wherever the run stops ----

  /** A run that fails a check of lines 71-89 writes nothing. Any other run only adds: no tag is
      moved or removed, the only new tag is the Go tag on the checked-out commit, no asset is
      replaced; and the Go tag is created only with both archives and both checksums attached. */
  lemma OnlyAdds(tools: Tools, c: Checkout, accepts: nat -> bool, r: Remote, limit: nat)
    ensures var after := Outcome(tools, c, accepts, r, limit).0;
      if !Cleared(c, r) then after == r && Outcome(tools, c, accepts, r, limit).1 == Raised
      else
        && (forall t :: t in r.refs ==> t in after.refs && after.refs[t] == r.refs[t])
        && (forall t :: t in after.refs && t !in r.refs ==>
              t == GoTag(c.version.value) && after.refs[t] == Commit(c.revision)
              && Attached(after.assets, c.version.value))
        && (forall n :: n in r.assets ==> n in after.assets && after.assets[n] == r.assets[n])
  {
    hide Uploads, Contains, Notes, Follow;
    OutcomeAfter(tools, c, accepts, r, limit);
    if Cleared(c, r) {
      var plan := Plan(tools, c, accepts, r).0;
      Phases(tools, c, accepts, r, Min(limit, |plan|));
      MissingTag(r, GoTag(c.version.value));
      var uploads := AllUploads(tools, c, r).0;
      UploadsAreNew(tools, c, r, |PLATFORMS|);
      UploadsAdd(r, uploads[..Min(limit, |uploads|)], accepts);
      assert uploads[..|uploads|] == uploads;
    }
  }

  /** A checkout's clearance survives runs of checkouts of the same release. */
  lemma StaysCleared(tools: Tools, c: Checkout, accepts: nat -> bool, r: Remote, limit: nat, d: Checkout)
    requires Cleared(c, r) && SameRelease(c, d)
    ensures Cleared(d, Outcome(tools, c, accepts, r, limit).0)
  {
    OutcomeAfter(tools, c, accepts, r, limit);
    Phases(tools, c, accepts, r, Min(limit, |Plan(tools, c, accepts, r).0|));
    MissingTag(r, GoTag(c.version.value));
    MissingTag(r, c.tag);
  }

  lemma {:induction false} NotUploaded(r: Remote, ws: seq<Write>, accepts: nat -> bool, name: string)
    requires forall k :: 0 <= k < |ws| && ws[k].Upload? ==> ws[k].name != name
    ensures name in Deliver(r, ws, accepts).assets <==> name in r.assets
  {
    if ws != [] { NotUploaded(r, ws[..|ws| - 1], accepts, name); }
  }

  lemma BlockedUploads(tools: Tools, c: Checkout, r: Remote, i: nat)
    requires c.version.Some? && i < |PLATFORMS|
    requires PlatformWrites(tools, c, r, PLATFORMS[i]).None?
    ensures AllUploads(tools, c, r) == (Uploads(tools, c, r, i).0, None)
  {
    assert Uploads(tools, c, r, i + 1) == (Uploads(tools, c, r, i).0, None);
    UploadsPrefix(tools, c, r, i + 1, |PLATFORMS|);
  }

  /** The uploads for the platforms before `i` bear other names than those of platform `i`. */
  lemma OtherPlatformsNames(tools: Tools, c: Checkout, r: Remote, i: nat)
    requires c.version.Some? && i < |PLATFORMS|
    ensures var name := ArchiveName(c.version.value, PLATFORMS[i]);
      forall k :: 0 <= k < |Uploads(tools, c, r, i).0| && Uploads(tools, c, r, i).0[k].Upload? ==>
        Uploads(tools, c, r, i).0[k].name != name && Uploads(tools, c, r, i).0[k].name != ChecksumName(name)
  {
    if i == 1 {
      NamesDiffer(c.version.value, 0, 1);
      NamesDiffer(c.version.value, 1, 0);
      var none: seq<Write> := [];
      assert Uploads(tools, c, r, 0) == (none, Some(map[]));
      if PlatformWrites(tools, c, r, PLATFORMS[0]).Some? {
        var ws := PlatformWrites(tools, c, r, PLATFORMS[0]).value.0;
        assert none + ws == ws;
      }
    }
  }

  /** A platform whose published files do not fit is left as it is by every run. */
  lemma MisfitStays(tools: Tools, c: Checkout, accepts: nat -> bool, r: Remote, limit: nat, i: nat)
    requires Cleared(c, r) && i < |PLATFORMS|
    requires !PlatformFits(tools, c.version.value, c.revision, r.assets, PLATFORMS[i])
    ensures var (after, verdict) := Outcome(tools, c, accepts, r, limit);
      !verdict.Published? && Agree(after.assets, r.assets, c.version.value, PLATFORMS[i])
  {
    hide Deliver, Identified, Matches;
    var name := ArchiveName(c.version.value, PLATFORMS[i]);
    var uploads := Uploads(tools, c, r, i).0;
    assert PlatformWrites(tools, c, r, PLATFORMS[i]).None?;
    BlockedUploads(tools, c, r, i);
    OutcomeAfter(tools, c, accepts, r, limit);
    assert Plan(tools, c, accepts, r) == (uploads, Raised);
    OtherPlatformsNames(tools, c, r, i);
    var n := Min(limit, |uploads|);
    NotUploaded(r, uploads[..n], accepts, name);
    NotUploaded(r, uploads[..n], accepts, ChecksumName(name));
    OnlyAdds(tools, c, accepts, r, limit);
  }

  /** For instance a published checksum whose archive is missing: no run publishes, and none
      removes the obstacle. Only a server that loses uploads can leave it behind. */
  lemma OrphanChecksumBlocks(tools: Tools, c: Checkout, accepts: nat -> bool, r: Remote, limit: nat, i: nat)
    requires Cleared(c, r) && i < |PLATFORMS|
    requires var name := ArchiveName(c.version.value, PLATFORMS[i]); ChecksumName(name) in r.assets && name !in r.assets
    ensures var (after, verdict) := Outcome(tools, c, accepts, r, limit);
      var name := ArchiveName(c.version.value, PLATFORMS[i]);
      !verdict.Published? && ChecksumName(name) in after.assets && name !in after.assets
  {
    MisfitStays(tools, c, accepts, r, limit, i);
  }

  // ---- Every state of a run against a server that keeps uploads ----

  /** In every intermediate state each published checksum fits its published archive and none is
      there without its archive, even if local archives are invalid or the run stops half-way. */
  lemma EveryStateFits(
    tools: Tools, c: Checkout, accepts: nat -> bool, r: Remote, limit: nat)
    requires Reliable(accepts) && c.version.Some? && Sane(tools, c.version.value)
    requires Fits(tools, c.version.value, c.revision, r.assets)
    ensures Fits(tools, c.version.value, c.revision, Outcome(tools, c, accepts, r, limit).0.assets)
  {
    OutcomeAfter(tools, c, accepts, r, limit);
    if Cleared(c, r) {
      var plan := Plan(tools, c, accepts, r).0;
      var uploads := AllUploads(tools, c, r).0;
      var n := Min(limit, |plan|);
      Phases(tools, c, accepts, r, n);
      assert uploads[..|uploads|] == uploads;
      DeliverPuts(r, uploads[..Min(n, |uploads|)], accepts);
      UploadsFit(tools, c, r, |PLATFORMS|, Min(n, |uploads|));
    }
  }

  /** From fitting assets, a run with valid local archives that is not stopped publishes: both
      platforms attached, the Go tag on the commit, the notes in place, and in its result the
      digests of the archives that are published. Six writes are always enough. */
  lemma Completes(tools: Tools, c: Checkout, accepts: nat -> bool, r: Remote, limit: nat)
    requires Reliable(accepts) && Cleared(c, r) && Sane(tools, c.version.value)
    requires Fits(tools, c.version.value, c.revision, r.assets) && LocalValid(tools, c) && limit >= 6
    ensures var (after, verdict) := Outcome(tools, c, accepts, r, limit);
      && Complete(c, after)
      && verdict == Published(ReceiptOf(tools, c, after))
  {
    hide Deliver, Uploads, Contains, Notes, Follow;
    var uploads := AllUploads(tools, c, r).0;
    UploadsComplete(tools, c, r, |PLATFORMS|);
    DeliverPuts(r, uploads, accepts);
    UploadsAreNew(tools, c, r, |PLATFORMS|);
    AttachedByBoth(Put(r.assets, uploads), c.version.value);
    PlanIsShaped(tools, c, accepts, r);
    OutcomeAfter(tools, c, accepts, r, limit);
    var plan := Plan(tools, c, accepts, r).0;
    assert plan == uploads + Closing(c, r);
    UploadsAdd(r, uploads, accepts);
    ClosingWrites(c, r, uploads, accepts, |Closing(c, r)|);
    assert Closing(c, r)[..|Closing(c, r)|] == Closing(c, r) && plan[..|plan|] == plan;
    LaterCompletes(c, r, Put(r.assets, uploads));
  }

  /** None is left to do for this release. */
  ghost predicate Complete(c: Checkout, r: Remote)
    requires c.version.Some?
  {
    && Attached(r.assets, c.version.value)
    && Resolve(r.refs, r.tagObjects, GoTag(c.version.value)) == Resolved(c.revision)
    && Contains(r.body, NOTES_HEADING)
  }

  function ReceiptOf(tools: Tools, c: Checkout, r: Remote): Receipt
    requires c.version.Some?
  {
    Receipt(c.version.value, c.revision, GoTag(c.version.value),
            DigestsOf(tools, c.version.value, r.assets, |PLATFORMS|))
  }

  lemma AttachedByBoth(assets: map<string, string>, version: string)
    requires forall i :: 0 <= i < |PLATFORMS| ==> HasBoth(assets, ArchiveName(version, PLATFORMS[i]))
    ensures Attached(assets, version)
  {
  }

  lemma LaterCompletes(c: Checkout, r: Remote, assets: map<string, string>)
    requires Cleared(c, r) && Attached(assets, c.version.value)
    ensures Complete(c, Later(c, r, assets, |TagWrites(c, r)| > 0, |NoteWrites(c, r)| > 0))
  {
    ContainsIn(r.body + "\n\n", NOTES_HEADING, c.guide);
    assert r.body + Notes(c) == r.body + "\n\n" + NOTES_HEADING + c.guide;
  }

  // ---- Crashes and reruns ----

  /** A run of some checkout, stopped before its write limit, against a server that may lose uploads. */
  datatype Attempt = Attempt(checkout: Checkout, accepts: nat -> bool, limit: nat)

  /** Runs one after the other. */
  function History(tools: Tools, r: Remote, runs: seq<Attempt>): Remote
  {
    if runs == [] then r
    else
      var Attempt(c, accepts, limit) := runs[|runs| - 1];
      Outcome(tools, c, accepts, History(tools, r, runs[..|runs| - 1]), limit).0
  }

  /** From a release without native assets: after any number of runs of this release, each with
      archives of its own, valid or not, and each stopped anywhere, a further run with valid
      archives publishes. */
  lemma CrashesDoNotMatter(
    tools: Tools, r: Remote, runs: seq<Attempt>, c: Checkout, accepts: nat -> bool, limit: nat)
    requires Reliable(accepts) && Cleared(c, r) && Sane(tools, c.version.value)
    requires forall i :: 0 <= i < |PLATFORMS| ==>
               ArchiveName(c.version.value, PLATFORMS[i]) !in r.assets
               && ChecksumName(ArchiveName(c.version.value, PLATFORMS[i])) !in r.assets
    requires forall i :: 0 <= i < |runs| ==> SameRelease(c, runs[i].checkout) && Reliable(runs[i].accepts)
    requires LocalValid(tools, c) && limit >= 6
    ensures Fits(tools, c.version.value, c.revision, History(tools, r, runs).assets)
    ensures Outcome(tools, c, accepts, History(tools, r, runs), limit).1.Published?
  {
    HistoryFits(tools, r, runs, c);
    Completes(tools, c, accepts, History(tools, r, runs), limit);
  }

  lemma {:induction false} HistoryFits(tools: Tools, r: Remote, runs: seq<Attempt>, c: Checkout)
    requires Cleared(c, r) && Sane(tools, c.version.value)
    requires Fits(tools, c.version.value, c.revision, r.assets)
    requires forall i :: 0 <= i < |runs| ==> SameRelease(c, runs[i].checkout) && Reliable(runs[i].accepts)
    ensures Fits(tools, c.version.value, c.revision, History(tools, r, runs).assets)
    ensures Cleared(c, History(tools, r, runs))
  {
    if runs != [] {
      var Attempt(d, accepts, limit) := runs[|runs| - 1];
      assert SameRelease(c, d);
      HistoryFits(tools, r, runs[..|runs| - 1], c);
      var before := History(tools, r, runs[..|runs| - 1]);
      EveryStateFits(tools, d, accepts, before, limit);
      StaysCleared(tools, d, accepts, before, limit, c);
    }
  }
}
