/** Exactly when a run publishes, whatever the server keeps and wherever the run stops; what blocks
    a release for good; and what a run does after one that published. */
module PublisherSuccess {
  import opened Wrappers
  import opened RemoteTags
  import opened Text
  import opened Publisher
  import opened PublisherRun
  import opened PublisherAssets
  import opened PublisherTheorems

  // ---- What a published verdict takes ----

  /** The server keeps the uploads that the run makes. */
  ghost predicate Keeps(tools: Tools, c: Checkout, accepts: nat -> bool, r: Remote)
    requires c.version.Some?
  {
    forall k :: 0 <= k < |AllUploads(tools, c, r).0| ==> accepts(k)
  }

  /** No check of any platform fails exactly if what is published fits and what is local is valid. */
  lemma ChecksPass(tools: Tools, c: Checkout, r: Remote)
    requires c.version.Some?
    ensures AllUploads(tools, c, r).1.Some? ==>
              Fits(tools, c.version.value, c.revision, r.assets) && LocalValid(tools, c)
  {
    if AllUploads(tools, c, r).1.Some? {
      forall i | 0 <= i < |PLATFORMS|
        ensures PlatformFits(tools, c.version.value, c.revision, r.assets, PLATFORMS[i])
        ensures LocalPlatform(tools, c, PLATFORMS[i])
      {
        if PlatformWrites(tools, c, r, PLATFORMS[i]).None? { BlockedUploads(tools, c, r, i); }
      }
    }
  }

  predicate IsNameOf(version: string, i: nat, name: string)
    requires i < |PLATFORMS|
  {
    name == ArchiveName(version, PLATFORMS[i]) || name == ChecksumName(ArchiveName(version, PLATFORMS[i]))
  }

  predicate IsNameBefore(version: string, k: nat, name: string)
    requires k <= |PLATFORMS|
  {
    exists i :: 0 <= i < k && IsNameOf(version, i, name)
  }

  /** The writes upload files of the first `k` platforms, each at most once. */
  predicate OnceEach(version: string, k: nat, ws: seq<Write>)
    requires k <= |PLATFORMS|
  {
    && OnlyUploads(ws)
    && (forall m :: 0 <= m < |ws| ==> IsNameBefore(version, k, ws[m].name))
    && (forall l, m :: 0 <= l < m < |ws| ==> ws[l].name != ws[m].name)
  }

  /** One platform's uploads bear its two names, each at most once. */
  lemma PlatformNames(tools: Tools, c: Checkout, r: Remote, i: nat)
    requires c.version.Some? && i < |PLATFORMS| && PlatformWrites(tools, c, r, PLATFORMS[i]).Some?
    ensures var ws := PlatformWrites(tools, c, r, PLATFORMS[i]).value.0;
      && OnlyUploads(ws)
      && (forall m :: 0 <= m < |ws| ==> IsNameOf(c.version.value, i, ws[m].name))
      && (forall l, m :: 0 <= l < m < |ws| ==> ws[l].name != ws[m].name)
  {
    hide Identified, Matches, ArchiveName, ChecksumName;
    NamesDiffer(c.version.value, i, i);
  }

  lemma OnceEachGrows(version: string, k: nat, before: seq<Write>, ws: seq<Write>)
    requires k < |PLATFORMS| && OnceEach(version, k, before) && OnlyUploads(ws)
    requires forall m :: 0 <= m < |ws| ==> IsNameOf(version, k, ws[m].name)
    requires forall l, m :: 0 <= l < m < |ws| ==> ws[l].name != ws[m].name
    ensures OnceEach(version, k + 1, before + ws)
  {
    hide ArchiveName, ChecksumName;
    var all := before + ws;
    assert OnlyUploads(all);
    forall m | 0 <= m < |all| ensures IsNameBefore(version, k + 1, all[m].name) {
      if m < |before| {
        assert IsNameBefore(version, k, before[m].name);
      } else {
        assert IsNameOf(version, k, ws[m - |before|].name);
      }
    }
    forall l, m | 0 <= l < m < |all| ensures all[l].name != all[m].name {
      if l < |before| <= m {
        assert IsNameBefore(version, k, before[l].name);
        var i :| 0 <= i < k && IsNameOf(version, i, before[l].name);
        assert all[l] == before[l] && all[m] == ws[m - |before|];
        NamesDiffer(version, i, k);
        NamesDiffer(version, k, i);
      } else if l >= |before| {
        assert all[l] == ws[l - |before|] && all[m] == ws[m - |before|];
      }
    }
  }

  /** Every upload is one of the release's four files, and no file is uploaded twice. */
  lemma {:induction false} UploadNames(tools: Tools, c: Checkout, r: Remote, k: nat)
    requires c.version.Some? && k <= |PLATFORMS|
    ensures OnceEach(c.version.value, k, Uploads(tools, c, r, k).0)
  {
    if k > 0 {
      hide OnceEach, PlatformWrites;
      var version := c.version.value;
      var before := Uploads(tools, c, r, k - 1).0;
      UploadNames(tools, c, r, k - 1);
      MorePlatforms(version, k - 1, before);
      if PlatformWrites(tools, c, r, PLATFORMS[k - 1]).Some? {
        PlatformNames(tools, c, r, k - 1);
        OnceEachGrows(version, k - 1, before, PlatformWrites(tools, c, r, PLATFORMS[k - 1]).value.0);
      }
    } else {
      assert Uploads(tools, c, r, k).0 == [];
    }
  }

  lemma MorePlatforms(version: string, k: nat, ws: seq<Write>)
    requires k < |PLATFORMS| && OnceEach(version, k, ws)
    ensures OnceEach(version, k + 1, ws)
  {
    var none: seq<Write> := [];
    OnceEachGrows(version, k, ws, none);
    assert ws + none == ws;
  }

  /** An upload the server loses leaves its name unattached, if no other upload bears it. */
  lemma {:induction false} LostStaysAway(r: Remote, ws: seq<Write>, accepts: nat -> bool, m: nat)
    requires m < |ws| && (forall k :: 0 <= k < |ws| ==> ws[k].Upload?) && !accepts(m)
    requires ws[m].name !in r.assets && forall k :: 0 <= k < |ws| && k != m ==> ws[k].name != ws[m].name
    ensures ws[m].name !in Deliver(r, ws, accepts).assets
    decreases |ws|
  {
    var last := |ws| - 1;
    if m < last {
      LostStaysAway(r, ws[..last], accepts, m);
    } else {
      NotUploaded(r, ws[..last], accepts, ws[m].name);
    }
  }

  /** Both platforms can only be attached in the end if the server kept every upload. */
  lemma AttachedMeansKept(tools: Tools, c: Checkout, accepts: nat -> bool, r: Remote)
    requires c.version.Some?
    requires Attached(Deliver(r, AllUploads(tools, c, r).0, accepts).assets, c.version.value)
    ensures Keeps(tools, c, accepts, r)
  {
    var ws := AllUploads(tools, c, r).0;
    UploadNames(tools, c, r, |PLATFORMS|);
    UploadsAreNew(tools, c, r, |PLATFORMS|);
    forall m | 0 <= m < |ws| ensures accepts(m) {
      assert IsNameBefore(c.version.value, |PLATFORMS|, ws[m].name);
      var i :| 0 <= i < |PLATFORMS| && IsNameOf(c.version.value, i, ws[m].name);
      assert HasBoth(Deliver(r, ws, accepts).assets, ArchiveName(c.version.value, PLATFORMS[i]));
      if !accepts(m) { LostStaysAway(r, ws, accepts, m); }
    }
  }

  function Always(): nat -> bool { (k: nat) => true }

  lemma {:induction false} KeptAlike(r: Remote, ws: seq<Write>, accepts: nat -> bool)
    requires forall k :: 0 <= k < |ws| && ws[k].Upload? ==> accepts(k)
    ensures Deliver(r, ws, accepts) == Deliver(r, ws, Always())
    decreases |ws|
  {
    if ws != [] { KeptAlike(r, ws[..|ws| - 1], accepts); }
  }

  lemma ClosingUploadsNothing(c: Checkout, r: Remote)
    requires c.version.Some?
    ensures |Closing(c, r)| <= 2 && forall k :: 0 <= k < |Closing(c, r)| ==> !Closing(c, r)[k].Upload?
  {
  }

  /** A server that keeps the run's uploads is as good as one that keeps all. */
  lemma KeptRunAlike(tools: Tools, c: Checkout, accepts: nat -> bool, r: Remote)
    requires Cleared(c, r) && Keeps(tools, c, accepts, r)
    ensures Plan(tools, c, accepts, r) == Plan(tools, c, Always(), r)
    ensures |Plan(tools, c, accepts, r).0| <= 6
    ensures var ws := Plan(tools, c, accepts, r).0; Deliver(r, ws, accepts) == Deliver(r, ws, Always())
  {
    hide Deliver, Uploads, Closing, Attached;
    var uploads := AllUploads(tools, c, r).0;
    UploadsAreNew(tools, c, r, |PLATFORMS|);
    KeptAlike(r, uploads, accepts);
    ClosingUploadsNothing(c, r);
    KeptAlike(r, uploads + Closing(c, r), accepts);
  }

  /** The exact condition of success, for every server and every point at which a run may stop: the
      checks before the first write pass, what is published fits, what is local is valid, the server
      keeps what this run uploads, and the run is not stopped before its last write, of which there
      are at most six. */
  lemma PublishesExactly(tools: Tools, c: Checkout, accepts: nat -> bool, r: Remote, limit: nat)
    requires c.version.Some? ==> Sane(tools, c.version.value)
    ensures Outcome(tools, c, accepts, r, limit).1.Published? <==>
              && Cleared(c, r)
              && Fits(tools, c.version.value, c.revision, r.assets) && LocalValid(tools, c)
              && Keeps(tools, c, accepts, r)
              && limit >= |Plan(tools, c, accepts, r).0|
    ensures Cleared(c, r) && Keeps(tools, c, accepts, r) ==> |Plan(tools, c, accepts, r).0| <= 6
  {
    hide Deliver, Uploads, Fits, LocalValid, Attached, Closing;
    OutcomeAfter(tools, c, accepts, r, limit);
    if Cleared(c, r) {
      ChecksPass(tools, c, r);
      var plan := Plan(tools, c, accepts, r);
      if plan.1.Published? { AttachedMeansKept(tools, c, accepts, r); }
      if Keeps(tools, c, accepts, r) { KeptRunAlike(tools, c, accepts, r); }
      if Fits(tools, c.version.value, c.revision, r.assets) && LocalValid(tools, c) && Keeps(tools, c, accepts, r) {
        Completes(tools, c, Always(), r, 6);
        OutcomeAfter(tools, c, Always(), r, 6);
      }
    }
  }

  /** Against a server that keeps uploads a run that is not stopped publishes exactly if its first
      checks pass, its local archives are valid and what is published fits. */
  lemma PublishesIffFits(tools: Tools, c: Checkout, accepts: nat -> bool, r: Remote, limit: nat)
    requires Reliable(accepts) && (c.version.Some? ==> Sane(tools, c.version.value)) && limit >= 6
    ensures Outcome(tools, c, accepts, r, limit).1.Published? <==>
              && Cleared(c, r)
              && Fits(tools, c.version.value, c.revision, r.assets) && LocalValid(tools, c)
  {
    PublishesExactly(tools, c, accepts, r, limit);
  }

  // ---- What blocks a release for good ----

  /** Files that do not fit, of whatever kind the misfit is, stay: on no server does a run of the
      release publish, and none makes them fit. */
  lemma MisfitBlocks(tools: Tools, c: Checkout, accepts: nat -> bool, r: Remote, limit: nat)
    requires c.version.Some? && !Fits(tools, c.version.value, c.revision, r.assets)
    ensures var (after, verdict) := Outcome(tools, c, accepts, r, limit);
      !verdict.Published? && !Fits(tools, c.version.value, c.revision, after.assets)
  {
    hide Deliver, Plan;
    if Cleared(c, r) {
      var i :| 0 <= i < |PLATFORMS| && !PlatformFits(tools, c.version.value, c.revision, r.assets, PLATFORMS[i]);
      MisfitStays(tools, c, accepts, r, limit, i);
      FitsAgree(tools, c.version.value, c.revision, Outcome(tools, c, accepts, r, limit).0.assets, r.assets, i);
    } else {
      OnlyAdds(tools, c, accepts, r, limit);
    }
  }

  /** Over any history of the release's runs, each against a server of its own, the obstacle stays
      and nothing is ever published. */
  lemma {:induction false} MisfitBlocksForGood(
    tools: Tools, r: Remote, runs: seq<Attempt>, c: Checkout, accepts: nat -> bool, limit: nat)
    requires c.version.Some? && !Fits(tools, c.version.value, c.revision, r.assets)
    requires forall i :: 0 <= i < |runs| ==> SameRelease(c, runs[i].checkout)
    ensures !Fits(tools, c.version.value, c.revision, History(tools, r, runs).assets)
    ensures !Outcome(tools, c, accepts, History(tools, r, runs), limit).1.Published?
    decreases |runs|
  {
    hide Outcome, Fits;
    if runs != [] {
      var Attempt(d, keeps, stop) := runs[|runs| - 1];
      assert SameRelease(c, d);
      MisfitBlocksForGood(tools, r, runs[..|runs| - 1], c, keeps, stop);
      MisfitBlocks(tools, d, keeps, History(tools, r, runs[..|runs| - 1]), stop);
    }
    MisfitBlocks(tools, c, accepts, History(tools, r, runs), limit);
  }

  // ---- Repeated success ----

  /** With everything attached and fitting, no platform needs an upload. */
  lemma {:induction false} NothingToUpload(tools: Tools, c: Checkout, r: Remote, k: nat)
    requires c.version.Some? && k <= |PLATFORMS| && LocalValid(tools, c)
    requires Fits(tools, c.version.value, c.revision, r.assets) && Attached(r.assets, c.version.value)
    ensures Uploads(tools, c, r, k) == ([], Some(DigestsOf(tools, c.version.value, r.assets, k)))
  {
    if k > 0 {
      NothingToUpload(tools, c, r, k - 1);
      LocalGivesWrites(tools, c, r, k - 1);
      assert HasBoth(r.assets, ArchiveName(c.version.value, PLATFORMS[k - 1]));
      UploadsWhole(tools, c, r, k);
      var none: seq<Write> := [];
      assert none + none == none;
    }
  }

  lemma {:induction false} NothingEverUploaded(tools: Tools, c: Checkout, r: Remote, k: nat)
    requires c.version.Some? && k <= |PLATFORMS| && Attached(r.assets, c.version.value)
    ensures Uploads(tools, c, r, k).0 == []
  {
    if k > 0 {
      NothingEverUploaded(tools, c, r, k - 1);
      assert HasBoth(r.assets, ArchiveName(c.version.value, PLATFORMS[k - 1]));
      var none: seq<Write> := [];
      assert none + none == none;
    }
  }

  /** A run that published, on whatever server, left the release complete: fitting archives and
      checksums of both platforms, the Go tag on the commit, the notes, and in its result the digests
      of the archives that are published. */
  lemma PublishedMeansComplete(tools: Tools, c: Checkout, accepts: nat -> bool, r: Remote, limit: nat)
    requires c.version.Some? && Sane(tools, c.version.value)
    requires Outcome(tools, c, accepts, r, limit).1.Published?
    ensures var (after, verdict) := Outcome(tools, c, accepts, r, limit);
      && Complete(c, after) && Fits(tools, c.version.value, c.revision, after.assets)
      && verdict == Published(ReceiptOf(tools, c, after))
      && (after, verdict) == Outcome(tools, c, Always(), r, 6)
  {
    hide Deliver, Uploads, Fits, LocalValid, Closing;
    PublishesExactly(tools, c, accepts, r, limit);
    KeptRunAlike(tools, c, accepts, r);
    OutcomeAfter(tools, c, accepts, r, limit);
    OutcomeAfter(tools, c, Always(), r, 6);
    Completes(tools, c, Always(), r, 6);
    EveryStateFits(tools, c, Always(), r, 6);
  }

  /** After a run that published, on whatever server, every further run of the release on whatever
      server writes nothing; and it returns the same result, exactly if its local archives, which
      may be built differently, are valid. */
  lemma SecondRunIsQuiet(
    tools: Tools, c: Checkout, accepts: nat -> bool, r: Remote, limit: nat,
    d: Checkout, keeps: nat -> bool, again: nat)
    requires c.version.Some? && Sane(tools, c.version.value) && SameRelease(c, d)
    requires Outcome(tools, c, accepts, r, limit).1.Published?
    ensures var (after, verdict) := Outcome(tools, c, accepts, r, limit);
      && Plan(tools, d, keeps, after).0 == []
      && Outcome(tools, d, keeps, after, again).0 == after
      && (Outcome(tools, d, keeps, after, again).1 == verdict <==> LocalValid(tools, d))
  {
    hide Outcome, Plan, Fits, LocalValid, Complete;
    PublishesExactly(tools, c, accepts, r, limit);
    PublishedMeansComplete(tools, c, accepts, r, limit);
    var after := Outcome(tools, c, accepts, r, limit).0;
    StaysCleared(tools, c, Always(), r, 6, d);
    QuietRun(tools, c, d, keeps, after, again);
  }

  /** A run on a complete release. */
  lemma QuietRun(tools: Tools, c: Checkout, d: Checkout, keeps: nat -> bool, r: Remote, limit: nat)
    requires c.version.Some? && Sane(tools, c.version.value) && SameRelease(c, d) && Cleared(d, r)
    requires Complete(c, r) && Fits(tools, c.version.value, c.revision, r.assets)
    ensures Plan(tools, d, keeps, r).0 == []
    ensures Outcome(tools, d, keeps, r, limit).0 == r
    ensures Outcome(tools, d, keeps, r, limit).1 == Published(ReceiptOf(tools, c, r)) <==> LocalValid(tools, d)
  {
    hide Uploads, Fits, LocalValid, Contains, Resolve;
    NothingEverUploaded(tools, d, r, |PLATFORMS|);
    PlanIsShaped(tools, d, keeps, r);
    ChecksPass(tools, d, r);
    if LocalValid(tools, d) { NothingToUpload(tools, d, r, |PLATFORMS|); }
    OutcomeAfter(tools, d, keeps, r, limit);
  }
}
