/** The publisher as it runs: one remote write at a time, against a server that may drop uploads,
    and stopped before write number `limit`. Its outcome is `Publisher.Outcome`. */
module PublisherRun {
  import opened Wrappers
  import opened RemoteTags
  import opened Text
  import opened Publisher

  lemma DeliverOne(r: Remote, ws: seq<Write>, w: Write, accepts: nat -> bool)
    ensures Deliver(r, ws + [w], accepts) == Effect(Deliver(r, ws, accepts), w, accepts(|ws|))
  {
    assert (ws + [w])[..|ws|] == ws;
  }

  predicate OnlyUploads(ws: seq<Write>) {
    forall i :: 0 <= i < |ws| ==> ws[i].Upload?
  }

  predicate NoneOf(ws: seq<Write>, names: set<string>) {
    forall i :: 0 <= i < |ws| && ws[i].Upload? ==> ws[i].name !in names
  }

  /** Uploads of new names change nothing but add to the assets. */
  lemma {:induction false} UploadsAdd(r: Remote, ws: seq<Write>, accepts: nat -> bool)
    requires OnlyUploads(ws) && NoneOf(ws, r.assets.Keys)
    ensures Deliver(r, ws, accepts) == r.(assets := Deliver(r, ws, accepts).assets)
    ensures var s := Deliver(r, ws, accepts);
      forall n :: n in r.assets ==> n in s.assets && s.assets[n] == r.assets[n]
  {
    if ws != [] { UploadsAdd(r, ws[..|ws| - 1], accepts); }
  }

  lemma PlatformUploads(tools: Tools, c: Checkout, r: Remote, platform: string)
    requires c.version.Some? && PlatformWrites(tools, c, r, platform).Some?
    ensures OnlyUploads(PlatformWrites(tools, c, r, platform).value.0)
    ensures NoneOf(PlatformWrites(tools, c, r, platform).value.0, r.assets.Keys)
    ensures |PlatformWrites(tools, c, r, platform).value.0| <= 2
  {
    if ChecksumName(ArchiveName(c.version.value, platform)) in r.assets {
      assert ArchiveName(c.version.value, platform) in r.assets;
    }
  }

  lemma {:induction false} UploadsAreNew(tools: Tools, c: Checkout, r: Remote, k: nat)
    requires c.version.Some? && k <= |PLATFORMS|
    ensures OnlyUploads(Uploads(tools, c, r, k).0) && NoneOf(Uploads(tools, c, r, k).0, r.assets.Keys)
    ensures |Uploads(tools, c, r, k).0| <= 2 * k
  {
    if k > 0 {
      UploadsAreNew(tools, c, r, k - 1);
      if PlatformWrites(tools, c, r, PLATFORMS[k - 1]).Some? { PlatformUploads(tools, c, r, PLATFORMS[k - 1]); }
    }
  }

  /** The uploads for the first platforms are the first uploads of the plan. */
  lemma {:induction false} UploadsPrefix(tools: Tools, c: Checkout, r: Remote, i: nat, k: nat)
    requires c.version.Some? && i <= k <= |PLATFORMS|
    ensures Uploads(tools, c, r, i).0 <= Uploads(tools, c, r, k).0
    ensures Uploads(tools, c, r, i).1.None? ==> Uploads(tools, c, r, k) == Uploads(tools, c, r, i)
    decreases k
  {
    if i < k { UploadsPrefix(tools, c, r, i, k - 1); }
  }

  /** A run that made the first `limit` writes of a longer plan has crashed. */
  lemma CutEarly(r: Remote, plan: (seq<Write>, Verdict), accepts: nat -> bool, limit: nat, ws: seq<Write>)
    requires ws <= plan.0 && |ws| == limit < |plan.0|
    ensures Cut(r, plan, accepts, limit) == (Deliver(r, ws, accepts), Crashed)
    ensures ws == plan.0[..limit]
  {
    assert ws == plan.0[..limit];
  }

  /** A plan starts with the uploads, and goes on where they are all there. */
  ghost predicate Shaped(
    tools: Tools, c: Checkout, accepts: nat -> bool, r: Remote, plan: (seq<Write>, Verdict))
  {
    if !Cleared(c, r) then plan == ([], Raised)
    else
      var (uploads, digests) := AllUploads(tools, c, r);
      plan ==
        if digests.None? || !Attached(Deliver(r, uploads, accepts).assets, c.version.value) then (uploads, Raised)
        else (uploads + TagWrites(c, r) + NoteWrites(c, r),
              Published(Receipt(c.version.value, c.revision, GoTag(c.version.value), digests.value)))
  }

  lemma PlanIsShaped(tools: Tools, c: Checkout, accepts: nat -> bool, r: Remote)
    ensures Shaped(tools, c, accepts, r, Plan(tools, c, accepts, r))
  {
    if Cleared(c, r) {
      var uploads := AllUploads(tools, c, r).0;
      assert uploads + (TagWrites(c, r) + NoteWrites(c, r)) == uploads + TagWrites(c, r) + NoteWrites(c, r);
    }
  }

  class GitHub {
    var remote: Remote
    var writes: seq<Write>
    const tools: Tools
    const accepts: nat -> bool
    const limit: nat

    constructor (remote: Remote, tools: Tools, accepts: nat -> bool, limit: nat)
      ensures this.remote == remote && writes == []
      ensures this.tools == tools && this.accepts == accepts && this.limit == limit
    {
      this.remote, this.writes := remote, [];
      this.tools, this.accepts, this.limit := tools, accepts, limit;
    }

    /** One remote write; `alive` is false if the run is stopped before it. */
    method Put(w: Write) returns (alive: bool)
      modifies this
      ensures alive == (|old(writes)| < limit)
      ensures if alive then writes == old(writes) + [w] && remote == Effect(old(remote), w, accepts(|old(writes)|))
              else writes == old(writes) && remote == old(remote)
    {
      alive := |writes| < limit;
      if alive {
        remote := Effect(remote, w, accepts(|writes|));
        writes := writes + [w];
      }
    }

    /** The checks of the loop body for one platform, and what is to be uploaded. */
    method Examine(c: Checkout, names: set<string>, platform: string, ghost start: Remote)
      returns (ok: bool, archive: string, checksum: string, digest: string)
      requires c.version.Some? && names == start.assets.Keys
      requires forall n :: n in names ==> n in remote.assets && remote.assets[n] == start.assets[n]
      ensures ok == PlatformWrites(tools, c, start, platform).Some?
      ensures ok ==>
        var name := ArchiveName(c.version.value, platform);
        PlatformWrites(tools, c, start, platform).value ==
          ((if name in names then [] else [Upload(name, archive)])
           + (if ChecksumName(name) in names then [] else [Upload(ChecksumName(name), checksum)]), digest)
    {
      var version, name := c.version.value, ArchiveName(c.version.value, platform);
      ok, archive, checksum, digest := false, "", "", "";
      if name !in c.local || !Identified(tools, c.local[name], version, c.revision, platform) { return; }
      archive := c.local[name];
      digest := tools.digest(archive);
      var sum := ChecksumName(name);
      if sum !in c.local || !Matches(c.local[sum], digest, name) { return; }
      checksum := c.local[sum];
      if sum in names && name !in names { return; }
      if name in names {
        archive := remote.assets[name];
        if !Identified(tools, archive, version, c.revision, platform) { return; }
        digest := tools.digest(archive);
        if sum in names {
          if !Matches(remote.assets[sum], digest, name) { return; }
        } else {
          checksum := ChecksumText(digest, name);
        }
        assert [] + [Upload(sum, checksum)] == [Upload(sum, checksum)];
        var none: seq<Write> := [];
        assert none + none == none;
      } else {
        assert [Upload(name, archive)] + [Upload(sum, checksum)] == [Upload(name, archive), Upload(sum, checksum)];
      }
      ok := true;
    }

    /** The loop body for one platform. */
    method AttachPlatform(c: Checkout, names: set<string>, platform: string, ghost start: Remote)
      returns (verdict: Option<Verdict>, digest: string)
      requires c.version.Some? && names == start.assets.Keys
      requires remote == Deliver(start, writes, accepts) && |writes| <= limit
      requires forall n :: n in names ==> n in remote.assets && remote.assets[n] == start.assets[n]
      modifies this
      ensures remote == Deliver(start, writes, accepts) && |writes| <= limit
      ensures match PlatformWrites(tools, c, start, platform)
              case None => verdict == Some(Raised) && writes == old(writes)
              case Some((ws, d)) =>
                if verdict.None? then writes == old(writes) + ws && digest == d
                else verdict == Some(Crashed) && |writes| == limit < |old(writes) + ws| && writes <= old(writes) + ws
    {
      hide Deliver, PlatformWrites, ArchiveName, ChecksumName;
      var name := ArchiveName(c.version.value, platform);
      var ok, archive, checksum;
      ok, archive, checksum, digest := Examine(c, names, platform, start);
      if !ok { return Some(Raised), digest; }
      if name !in names {
        DeliverOne(start, writes, Upload(name, archive), accepts);
        var alive := Put(Upload(name, archive));
        if !alive { return Some(Crashed), digest; }
      }
      if ChecksumName(name) !in names {
        DeliverOne(start, writes, Upload(ChecksumName(name), checksum), accepts);
        var alive := Put(Upload(ChecksumName(name), checksum));
        if !alive { return Some(Crashed), digest; }
      }
      verdict := None;
    }

    /** Lines 71-89: everything that is checked before the first write. */
    method Check(c: Checkout) returns (ok: bool, existing: Resolution)
      ensures ok == Cleared(c, remote)
      ensures ok ==> existing == Resolve(remote.refs, remote.tagObjects, GoTag(c.version.value))
    {
      existing := Missing;
      if c.version.None? || c.tag != "v" + c.version.value { return false, existing; }
      if c.goMod.None? || ["module", "github.com/" + c.repository + "/sdk/go"] !in c.goMod.value {
        return false, existing;
      }
      var core := RemoteCommit(remote.refs, remote.tagObjects, c.tag);
      if core != Resolved(c.revision) { return false, existing; }
      existing := RemoteCommit(remote.refs, remote.tagObjects, GoTag(c.version.value));
      if existing != Missing && existing != Resolved(c.revision) { return false, existing; }
      ok := remote.released && remote.tagName == c.tag && !remote.draft;
    }

    /** The uploads of both platforms; `verdict` is set if the run ends in them. */
    method Attach(c: Checkout) returns (verdict: Option<Verdict>, checksums: map<string, string>)
      requires c.version.Some? && writes == []
      modifies this
      ensures remote == Deliver(old(remote), writes, accepts)
      ensures var (ws, digests) := AllUploads(tools, c, old(remote));
        match verdict
        case None => writes == ws && |writes| <= limit && digests == Some(checksums)
        case Some(v) =>
          if v == Crashed then |writes| == limit < |ws| && writes <= ws
          else v == Raised && writes == ws && |writes| <= limit && digests.None?
    {
      ghost var start := remote;
      var names := remote.assets.Keys;
      checksums := map[];
      for i := 0 to |PLATFORMS|
        invariant writes == Uploads(tools, c, start, i).0 && |writes| <= limit
        invariant Uploads(tools, c, start, i).1 == Some(checksums)
        invariant remote == Deliver(start, writes, accepts)
      {
        UploadsAreNew(tools, c, start, i);
        UploadsAdd(start, writes, accepts);
        UploadsPrefix(tools, c, start, i + 1, |PLATFORMS|);
        var digest;
        verdict, digest := AttachPlatform(c, names, PLATFORMS[i], start);
        if verdict.Some? { return; }
        checksums := checksums[ArchiveName(c.version.value, PLATFORMS[i]) := digest];
      }
      verdict := None;
    }

    /** Lines 122-126: create the Go tag if it is missing; either way it then names the commit. */
    method Tag(c: Checkout, existing: Resolution, ghost start: Remote) returns (verdict: Option<Verdict>)
      requires Cleared(c, start) && existing == Resolve(start.refs, start.tagObjects, GoTag(c.version.value))
      requires remote == Deliver(start, writes, accepts) && |writes| <= limit
      requires remote.refs == start.refs && remote.tagObjects == start.tagObjects
      modifies this
      ensures remote == Deliver(start, writes, accepts) && |writes| <= limit
      ensures remote.body == old(remote.body)
      ensures match verdict
              case None => writes == old(writes) + TagWrites(c, start)
              case Some(v) => v == Crashed && writes == old(writes) && |writes| == limit && |TagWrites(c, start)| == 1
    {
      var goTag := GoTag(c.version.value);
      if existing == Missing {
        DeliverOne(start, writes, CreateTag(goTag, c.revision), accepts);
        var alive := Put(CreateTag(goTag, c.revision));
        if !alive { return Some(Crashed); }
      }
      var created := RemoteCommit(remote.refs, remote.tagObjects, goTag);
      if created != Resolved(c.revision) { return Some(Raised); }
      verdict := None;
    }

    /** Lines 127-139: add the notes if they are missing. */
    method Note(c: Checkout, ghost start: Remote) returns (verdict: Option<Verdict>)
      requires c.version.Some? && remote.body == start.body
      requires remote == Deliver(start, writes, accepts) && |writes| <= limit
      modifies this
      ensures remote == Deliver(start, writes, accepts) && |writes| <= limit
      ensures match verdict
              case None => writes == old(writes) + NoteWrites(c, start)
              case Some(v) => v == Crashed && writes == old(writes) && |writes| == limit && |NoteWrites(c, start)| == 1
    {
      if !Contains(remote.body, NOTES_HEADING) {
        var notes := EditNotes(remote.body + Notes(c));
        DeliverOne(start, writes, notes, accepts);
        var alive := Put(notes);
        if !alive { return Some(Crashed); }
      }
      verdict := None;
    }

    /** Lines 119-140, after the uploads. */
    method Complete(c: Checkout, existing: Resolution, checksums: map<string, string>,
                    ghost start: Remote, ghost plan: (seq<Write>, Verdict))
      returns (verdict: Verdict)
      requires Cleared(c, start) && existing == Resolve(start.refs, start.tagObjects, GoTag(c.version.value))
      requires remote == Deliver(start, writes, accepts) && |writes| <= limit
      requires remote == start.(assets := remote.assets)
      requires plan ==
        if !Attached(remote.assets, c.version.value) then (writes, Raised)
        else (writes + TagWrites(c, start) + NoteWrites(c, start),
              Published(Receipt(c.version.value, c.revision, GoTag(c.version.value), checksums)))
      modifies this
      ensures (remote, verdict) == Cut(start, plan, accepts, limit)
      ensures writes == plan.0[..if limit < |plan.0| then limit else |plan.0|]
    {
      if !Attached(remote.assets, c.version.value) { return Raised; }
      var stopped := Tag(c, existing, start);
      if stopped.None? { stopped := Note(c, start); }
      if stopped.Some? {
        CutEarly(start, plan, accepts, limit, writes);
        return stopped.value;
      }
      verdict := Published(Receipt(c.version.value, c.revision, GoTag(c.version.value), checksums));
    }

    /** The body of publish, against a plan of its shape. */
    method Run(c: Checkout, ghost plan: (seq<Write>, Verdict)) returns (verdict: Verdict)
      requires writes == [] && Shaped(tools, c, accepts, remote, plan)
      modifies this
      ensures (remote, verdict) == Cut(old(remote), plan, accepts, limit)
      ensures writes == plan.0[..if limit < |plan.0| then limit else |plan.0|]
    {
      ghost var start := remote;
      var ok, existing := Check(c);
      if !ok { return Raised; }
      var stopped, checksums := Attach(c);
      if stopped.Some? {
        if stopped.value == Crashed { CutEarly(start, plan, accepts, limit, writes); }
        return stopped.value;
      }
      UploadsAreNew(tools, c, start, |PLATFORMS|);
      UploadsAdd(start, writes, accepts);
      verdict := Complete(c, existing, checksums, start, plan);
    }

    /** publish, stopped before write number `limit`. */
    method Publish(c: Checkout) returns (verdict: Verdict)
      requires writes == []
      modifies this
      ensures (remote, verdict) == Outcome(tools, c, accepts, old(remote), limit)
      ensures writes == var plan := Plan(tools, c, accepts, old(remote)).0;
                        plan[..if limit < |plan| then limit else |plan|]
    {
      PlanIsShaped(tools, c, accepts, remote);
      verdict := Run(c, Plan(tools, c, accepts, remote));
    }
  }
}
