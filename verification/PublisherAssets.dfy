/** The release assets during a run: which uploads a platform needs, and that every prefix of them
    leaves archives and checksums that fit. */
module PublisherAssets {
  import opened Wrappers
  import opened Text
  import opened Publisher

  // ---- What is assumed and what is kept ----

  /** Digests are words, as hexadecimal digests are, and so is the version. */
  ghost predicate Sane(tools: Tools, version: string) {
    IsWord(version) && forall bytes :: IsWord(tools.digest(bytes))
  }

  /** The server keeps every upload. */
  ghost predicate Reliable(accepts: nat -> bool) {
    forall k :: accepts(k)
  }

  /** No checksum without its archive, each checksum fits its archive, and each archive is one of
      this version, revision and platform. */
  predicate PlatformFits(
    tools: Tools, version: string, revision: string, assets: map<string, string>, platform: string)
  {
    var name := ArchiveName(version, platform);
    var sum := ChecksumName(name);
    && (name in assets ==> Identified(tools, assets[name], version, revision, platform))
    && (sum in assets ==> name in assets && Matches(assets[sum], tools.digest(assets[name]), name))
  }

  predicate Fits(tools: Tools, version: string, revision: string, assets: map<string, string>) {
    forall i :: 0 <= i < |PLATFORMS| ==> PlatformFits(tools, version, revision, assets, PLATFORMS[i])
  }

  /** The local directory holds a valid archive with its checksum for the platform. */
  predicate LocalPlatform(tools: Tools, c: Checkout, platform: string)
    requires c.version.Some?
  {
    var name := ArchiveName(c.version.value, platform);
    && name in c.local && Identified(tools, c.local[name], c.version.value, c.revision, platform)
    && ChecksumName(name) in c.local && Matches(c.local[ChecksumName(name)], tools.digest(c.local[name]), name)
  }

  predicate LocalValid(tools: Tools, c: Checkout)
    requires c.version.Some?
  {
    forall i :: 0 <= i < |PLATFORMS| ==> LocalPlatform(tools, c, PLATFORMS[i])
  }

  /** Two checkouts of one release: the archives may be built differently. */
  predicate SameRelease(c: Checkout, d: Checkout) {
    && c.repository == d.repository && c.tag == d.tag && c.version == d.version
    && c.revision == d.revision && c.goMod == d.goMod
  }

  // ---- Names ----

  /** The four asset names of a version are distinct. */
  lemma NamesDiffer(version: string, i: nat, j: nat)
    requires i < |PLATFORMS| && j < |PLATFORMS|
    ensures ArchiveName(version, PLATFORMS[i]) != ChecksumName(ArchiveName(version, PLATFORMS[j]))
    ensures i != j ==> ArchiveName(version, PLATFORMS[i]) != ArchiveName(version, PLATFORMS[j])
    ensures i != j ==>
      ChecksumName(ArchiveName(version, PLATFORMS[i])) != ChecksumName(ArchiveName(version, PLATFORMS[j]))
  {
    assert |ArchiveName(version, PLATFORMS[i])| == 22 + |version| + |PLATFORMS[i]|;
    assert |ArchiveName(version, PLATFORMS[j])| == 22 + |version| + |PLATFORMS[j]|;
  }

  lemma ArchiveNameIsWord(version: string, i: nat)
    requires i < |PLATFORMS| && IsWord(version)
    ensures IsWord(ArchiveName(version, PLATFORMS[i]))
  {
  }

  /** A generated checksum file fits. */
  lemma ChecksumTextMatches(tools: Tools, version: string, i: nat, digest: string)
    requires i < |PLATFORMS| && IsWord(version) && IsWord(digest)
    ensures var name := ArchiveName(version, PLATFORMS[i]);
      Matches(ChecksumText(digest, name), digest, name)
  {
    ArchiveNameIsWord(version, i);
    TwoWords(digest, ArchiveName(version, PLATFORMS[i]));
  }

  // ---- One platform's uploads ----

  /** The two asset maps agree on the platform's names. */
  predicate Agree(a: map<string, string>, b: map<string, string>, version: string, platform: string) {
    var name := ArchiveName(version, platform);
    AgreeOn(a, b, name) && AgreeOn(a, b, ChecksumName(name))
  }

  predicate AgreeOn(a: map<string, string>, b: map<string, string>, name: string) {
    (name in a <==> name in b) && (name in a ==> a[name] == b[name])
  }

  function Put(assets: map<string, string>, ws: seq<Write>): map<string, string>
  {
    if ws == [] then assets
    else
      var before := Put(assets, ws[..|ws| - 1]);
      match ws[|ws| - 1]
      case Upload(name, content) => before[name := content]
      case _ => before
  }

  lemma {:induction false} DeliverPuts(r: Remote, ws: seq<Write>, accepts: nat -> bool)
    requires Reliable(accepts)
    ensures Deliver(r, ws, accepts).assets == Put(r.assets, ws)
  {
    if ws != [] { DeliverPuts(r, ws[..|ws| - 1], accepts); }
  }

  lemma {:induction false} PutAppend(assets: map<string, string>, a: seq<Write>, b: seq<Write>)
    ensures Put(assets, a + b) == Put(Put(assets, a), b)
  {
    if b == [] {
      assert a + b == a;
    } else {
      assert (a + b)[..|a + b| - 1] == a + b[..|b| - 1];
      PutAppend(assets, a, b[..|b| - 1]);
    }
  }

  /** After any prefix of the platform's uploads its assets fit, and after all of them both are there. */
  lemma PlatformUploadsFit(tools: Tools, c: Checkout, r: Remote, i: nat, assets: map<string, string>, n: nat)
    requires c.version.Some? && i < |PLATFORMS| && Sane(tools, c.version.value)
    requires PlatformFits(tools, c.version.value, c.revision, r.assets, PLATFORMS[i])
    requires Agree(assets, r.assets, c.version.value, PLATFORMS[i])
    requires PlatformWrites(tools, c, r, PLATFORMS[i]).Some?
    requires n <= |PlatformWrites(tools, c, r, PLATFORMS[i]).value.0|
    ensures var (ws, digest) := PlatformWrites(tools, c, r, PLATFORMS[i]).value;
      var after := Put(assets, ws[..n]);
      var name := ArchiveName(c.version.value, PLATFORMS[i]);
      && PlatformFits(tools, c.version.value, c.revision, after, PLATFORMS[i])
      && (n == |ws| ==> HasBoth(after, name) && digest == tools.digest(after[name]))
  {
    var version := c.version.value;
    var name := ArchiveName(version, PLATFORMS[i]);
    NamesDiffer(version, i, i);
    var (ws, digest) := PlatformWrites(tools, c, r, PLATFORMS[i]).value;
    ChecksumTextMatches(tools, version, i, digest);
    if n == 2 {
      assert ws[..2][..1] == ws[..1] && ws[..1][..0] == [];
    } else if n == 1 {
      assert ws[..1][..0] == [];
    }
  }

  lemma {:induction false} PutElsewhere(assets: map<string, string>, ws: seq<Write>, name: string)
    requires forall k :: 0 <= k < |ws| && ws[k].Upload? ==> ws[k].name != name
    ensures AgreeOn(Put(assets, ws), assets, name)
  {
    if ws != [] { PutElsewhere(assets, ws[..|ws| - 1], name); }
  }

  /** Uploads for one platform leave the other's names alone. */
  lemma PlatformUploadsApart(tools: Tools, c: Checkout, r: Remote, i: nat, assets: map<string, string>, n: nat, j: nat)
    requires c.version.Some? && i < |PLATFORMS| && j < |PLATFORMS| && i != j
    requires PlatformWrites(tools, c, r, PLATFORMS[i]).Some?
    requires n <= |PlatformWrites(tools, c, r, PLATFORMS[i]).value.0|
    ensures var ws := PlatformWrites(tools, c, r, PLATFORMS[i]).value.0;
      Agree(Put(assets, ws[..n]), assets, c.version.value, PLATFORMS[j])
  {
    var version := c.version.value;
    NamesDiffer(version, i, j);
    NamesDiffer(version, j, i);
    var ws := PlatformWrites(tools, c, r, PLATFORMS[i]).value.0;
    PutElsewhere(assets, ws[..n], ArchiveName(version, PLATFORMS[j]));
    PutElsewhere(assets, ws[..n], ChecksumName(ArchiveName(version, PLATFORMS[j])));
  }

  // ---- All uploads ----

  lemma FitsAgree(
    tools: Tools, version: string, revision: string, a: map<string, string>, b: map<string, string>, i: nat)
    requires i < |PLATFORMS| && Agree(a, b, version, PLATFORMS[i])
    ensures PlatformFits(tools, version, revision, a, PLATFORMS[i]) ==
            PlatformFits(tools, version, revision, b, PLATFORMS[i])
  {
  }

  /** A prefix of one platform's uploads, on assets where every platform fits. */
  lemma OnePlatformMore(tools: Tools, c: Checkout, r: Remote, i: nat, assets: map<string, string>, n: nat)
    requires c.version.Some? && i < |PLATFORMS| && Sane(tools, c.version.value)
    requires Fits(tools, c.version.value, c.revision, assets)
    requires Agree(assets, r.assets, c.version.value, PLATFORMS[i])
    requires PlatformWrites(tools, c, r, PLATFORMS[i]).Some?
    requires n <= |PlatformWrites(tools, c, r, PLATFORMS[i]).value.0|
    ensures var after := Put(assets, PlatformWrites(tools, c, r, PLATFORMS[i]).value.0[..n]);
      && Fits(tools, c.version.value, c.revision, after)
      && forall j :: 0 <= j < |PLATFORMS| && j != i ==> Agree(after, assets, c.version.value, PLATFORMS[j])
  {
    FitsAgree(tools, c.version.value, c.revision, assets, r.assets, i);
    PlatformUploadsFit(tools, c, r, i, assets, n);
    var after := Put(assets, PlatformWrites(tools, c, r, PLATFORMS[i]).value.0[..n]);
    forall j | 0 <= j < |PLATFORMS| && j != i
      ensures Agree(after, assets, c.version.value, PLATFORMS[j])
      ensures PlatformFits(tools, c.version.value, c.revision, after, PLATFORMS[j])
    {
      PlatformUploadsApart(tools, c, r, i, assets, n, j);
      FitsAgree(tools, c.version.value, c.revision, after, assets, j);
    }
  }

  lemma AgreeTwice(
    a: map<string, string>, b: map<string, string>, d: map<string, string>, version: string, platform: string)
    requires Agree(a, b, version, platform) && Agree(b, d, version, platform)
    ensures Agree(a, d, version, platform)
  {
  }

  /** The uploads of `k` platforms are those of `k - 1`, cut or followed by one platform's. */
  lemma UploadsStep(tools: Tools, c: Checkout, r: Remote, k: nat, n: nat)
    requires c.version.Some? && 0 < k <= |PLATFORMS| && n <= |Uploads(tools, c, r, k).0|
    ensures var before, writes := Uploads(tools, c, r, k - 1).0, PlatformWrites(tools, c, r, PLATFORMS[k - 1]);
      if n <= |before| then Uploads(tools, c, r, k).0[..n] == before[..n]
      else writes.Some? && n <= |before| + |writes.value.0|
           && Uploads(tools, c, r, k).0[..n] == before + writes.value.0[..n - |before|]
  {
  }

  lemma NoUploads(tools: Tools, c: Checkout, r: Remote)
    requires c.version.Some?
    ensures Uploads(tools, c, r, 0) == ([], Some(map[])) && Put(r.assets, []) == r.assets
    ensures Done(tools, c.version.value, r.assets, map[], 0)
    ensures forall j :: 0 <= j < |PLATFORMS| ==> Agree(r.assets, r.assets, c.version.value, PLATFORMS[j])
  {
  }

  /** After any prefix of the uploads for the first `k` platforms every platform fits, and the
      platforms that are not yet reached are as they were. */
  lemma {:induction false} UploadsFit(tools: Tools, c: Checkout, r: Remote, k: nat, n: nat)
    requires c.version.Some? && Sane(tools, c.version.value) && k <= |PLATFORMS|
    requires Fits(tools, c.version.value, c.revision, r.assets)
    requires n <= |Uploads(tools, c, r, k).0|
    ensures Fits(tools, c.version.value, c.revision, Put(r.assets, Uploads(tools, c, r, k).0[..n]))
    ensures forall j :: k <= j < |PLATFORMS| ==>
              Agree(Put(r.assets, Uploads(tools, c, r, k).0[..n]), r.assets, c.version.value, PLATFORMS[j])
    decreases k
  {
    hide Uploads, Put, PlatformWrites, Agree, Fits, Sane;
    if k == 0 {
      NoUploads(tools, c, r);
    } else {
      UploadsStep(tools, c, r, k, n);
      var before := Uploads(tools, c, r, k - 1).0;
      UploadsFit(tools, c, r, k - 1, if n <= |before| then n else |before|);
      if n > |before| {
        assert before[..|before|] == before;
        var ws := PlatformWrites(tools, c, r, PLATFORMS[k - 1]).value.0[..n - |before|];
        PutAppend(r.assets, before, ws);
        OnePlatformMore(tools, c, r, k - 1, Put(r.assets, before), n - |before|);
        forall j | k <= j < |PLATFORMS|
          ensures Agree(Put(Put(r.assets, before), ws), r.assets, c.version.value, PLATFORMS[j])
        {
          AgreeTwice(Put(Put(r.assets, before), ws), Put(r.assets, before), r.assets, c.version.value, PLATFORMS[j]);
        }
      }
    }
  }

  /** What the uploads for the first `k` platforms leave behind. */
  predicate Done(tools: Tools, version: string, assets: map<string, string>, digests: map<string, string>, k: nat)
    requires k <= |PLATFORMS|
  {
    && digests == DigestsOf(tools, version, assets, k)
    && forall i :: 0 <= i < k ==> HasBoth(assets, ArchiveName(version, PLATFORMS[i]))
  }

  lemma DoneOneMore(
    tools: Tools, version: string, before: map<string, string>, after: map<string, string>,
    digests: map<string, string>, k: nat)
    requires k < |PLATFORMS| && Done(tools, version, before, digests, k)
    requires forall j :: 0 <= j < k ==> Agree(after, before, version, PLATFORMS[j])
    requires HasBoth(after, ArchiveName(version, PLATFORMS[k]))
    ensures var name := ArchiveName(version, PLATFORMS[k]);
      Done(tools, version, after, digests[name := tools.digest(after[name])], k + 1)
  {
    DigestsAgree(tools, version, after, before, k);
    forall i | 0 <= i < k
      ensures HasBoth(after, ArchiveName(version, PLATFORMS[i]))
    {
      assert Agree(after, before, version, PLATFORMS[i]);
    }
  }

  lemma UploadsWhole(tools: Tools, c: Checkout, r: Remote, k: nat)
    requires c.version.Some? && 0 < k <= |PLATFORMS|
    requires Uploads(tools, c, r, k - 1).1.Some? && PlatformWrites(tools, c, r, PLATFORMS[k - 1]).Some?
    ensures var (before, digests) := Uploads(tools, c, r, k - 1);
      var (ws, digest) := PlatformWrites(tools, c, r, PLATFORMS[k - 1]).value;
      Uploads(tools, c, r, k) ==
      (before + ws, Some(digests.value[ArchiveName(c.version.value, PLATFORMS[k - 1]) := digest]))
  {
  }

  lemma CompleteOneMore(
    tools: Tools, c: Checkout, r: Remote, k: nat, before: seq<Write>, digests: map<string, string>)
    requires c.version.Some? && Sane(tools, c.version.value) && k < |PLATFORMS|
    requires PlatformWrites(tools, c, r, PLATFORMS[k]).Some?
    requires Fits(tools, c.version.value, c.revision, Put(r.assets, before))
    requires Agree(Put(r.assets, before), r.assets, c.version.value, PLATFORMS[k])
    requires Done(tools, c.version.value, Put(r.assets, before), digests, k)
    ensures var (ws, digest) := PlatformWrites(tools, c, r, PLATFORMS[k]).value;
      var added := digests[ArchiveName(c.version.value, PLATFORMS[k]) := digest];
      Done(tools, c.version.value, Put(r.assets, before + ws), added, k + 1)
  {
    var ws := PlatformWrites(tools, c, r, PLATFORMS[k]).value.0;
    var assets := Put(r.assets, before);
    assert ws[..|ws|] == ws;
    PutAppend(r.assets, before, ws);
    FitsAgree(tools, c.version.value, c.revision, assets, r.assets, k);
    OnePlatformMore(tools, c, r, k, assets, |ws|);
    PlatformUploadsFit(tools, c, r, k, assets, |ws|);
    DoneOneMore(tools, c.version.value, assets, Put(assets, ws), digests, k);
  }

  /** After all uploads the platforms done have both assets, and the digests are those of the
      published archives. */
  lemma {:induction false} UploadsComplete(tools: Tools, c: Checkout, r: Remote, k: nat)
    requires c.version.Some? && Sane(tools, c.version.value) && k <= |PLATFORMS|
    requires Fits(tools, c.version.value, c.revision, r.assets) && LocalValid(tools, c)
    ensures Uploads(tools, c, r, k).1.Some?
    ensures Done(tools, c.version.value, Put(r.assets, Uploads(tools, c, r, k).0), Uploads(tools, c, r, k).1.value, k)
  {
    hide PlatformWrites, Fits, LocalValid, Agree, Done, Uploads, Put, Sane, ArchiveName;
    if k == 0 {
      NoUploads(tools, c, r);
    } else {
      UploadsComplete(tools, c, r, k - 1);
      var (before, digests) := Uploads(tools, c, r, k - 1);
      assert before[..|before|] == before;
      UploadsFit(tools, c, r, k - 1, |before|);
      LocalGivesWrites(tools, c, r, k - 1);
      UploadsWhole(tools, c, r, k);
      CompleteOneMore(tools, c, r, k - 1, before, digests.value);
    }
  }

  /** Valid local archives and fitting remote assets: no check raises. */
  lemma LocalGivesWrites(tools: Tools, c: Checkout, r: Remote, i: nat)
    requires c.version.Some? && i < |PLATFORMS|
    requires Fits(tools, c.version.value, c.revision, r.assets) && LocalValid(tools, c)
    ensures PlatformWrites(tools, c, r, PLATFORMS[i]).Some?
  {
    assert LocalPlatform(tools, c, PLATFORMS[i]);
    assert PlatformFits(tools, c.version.value, c.revision, r.assets, PLATFORMS[i]);
  }

  /** The digests of the published archives of the first `k` platforms. */
  function DigestsOf(tools: Tools, version: string, assets: map<string, string>, k: nat): map<string, string>
    requires k <= |PLATFORMS|
  {
    if k == 0 then map[]
    else
      var name := ArchiveName(version, PLATFORMS[k - 1]);
      DigestsOf(tools, version, assets, k - 1)[name := if name in assets then tools.digest(assets[name]) else ""]
  }

  lemma {:induction false} DigestsAgree(
    tools: Tools, version: string, a: map<string, string>, b: map<string, string>, k: nat)
    requires k <= |PLATFORMS| && forall j :: 0 <= j < k ==> Agree(a, b, version, PLATFORMS[j])
    ensures DigestsOf(tools, version, a, k) == DigestsOf(tools, version, b, k)
  {
    if k > 0 {
      DigestsAgree(tools, version, a, b, k - 1);
      assert Agree(a, b, version, PLATFORMS[k - 1]);
    }
  }
}
