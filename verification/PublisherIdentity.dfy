/** What the publisher's checks accept and what a published release holds, said of archives, texts
    and tags as they are rather than through the functions that compute the checks. */
module PublisherIdentity {
  import opened Wrappers
  import opened RemoteTags
  import opened Text
  import opened Publisher
  import opened PublisherRun
  import opened PublisherAssets
  import opened PublisherTheorems
  import opened PublisherSuccess

  // ---- Manifests ----

  /** The text before the first "=" of the line is `key`. */
  predicate Keyed(line: string, key: string) {
    '=' !in key && key + "=" <= line
  }

  /** A manifest: each line has an "=", and no two lines the same text before their first one. */
  ghost predicate Unambiguous(lines: seq<string>) {
    && (forall i :: 0 <= i < |lines| ==> '=' in lines[i])
    && (forall i, j, key :: 0 <= i < j < |lines| && Keyed(lines[i], key) ==> !Keyed(lines[j], key))
  }

  /** The archive has one member of that name, and its lines are a manifest that names the three. */
  ghost predicate Genuine(members: seq<Member>, version: string, revision: string, platform: string) {
    exists i ::
      && 0 <= i < |members| && members[i].isFile
      && members[i].name == "itofin-native-" + version + "-" + platform + "/VERSION"
      && (forall j :: 0 <= j < |members| && members[j].name == members[i].name ==> j == i)
      && Unambiguous(members[i].lines)
      && "version=" + version in members[i].lines
      && "revision=" + revision in members[i].lines
      && "platform=" + platform in members[i].lines
  }

  lemma {:induction false} KeyValueSplits(line: string)
    ensures KeyValue(line).Some? <==> '=' in line
    ensures KeyValue(line).Some? ==>
              var (key, value) := KeyValue(line).value; '=' !in key && line == key + "=" + value
    decreases line
  {
    if line != "" && line[0] != '=' {
      KeyValueSplits(line[1..]);
      assert line == [line[0]] + line[1..];
    }
  }

  lemma KeyedOnce(line: string, key: string, other: string)
    requires Keyed(line, key) && Keyed(line, other)
    ensures key == other
  {
    assert line[|key|] == '=' && line[|other|] == '=';
    assert forall i :: 0 <= i < |key| ==> line[i] == key[i] && line[i] != '=';
    assert forall i :: 0 <= i < |other| ==> line[i] == other[i] && line[i] != '=';
    assert key == line[..|key|] && other == line[..|other|];
  }

  /** Splitting is reading the key and what comes after it. */
  lemma SplitsAt(line: string, key: string, value: string)
    ensures KeyValue(line) == Some((key, value)) <==> '=' !in key && line == key + "=" + value
  {
    KeyValueSplits(line);
    if '=' !in key && line == key + "=" + value {
      assert line[|key|] == '=';
      var (k, v) := KeyValue(line).value;
      assert Keyed(line, key) && Keyed(line, k) by { assert line == k + "=" + v; }
      KeyedOnce(line, key, k);
      assert v == line[|k| + 1..] == value;
    }
  }

  lemma Keys(line: string, key: string, value: string, other: string)
    requires KeyValue(line) == Some((key, value))
    ensures Keyed(line, other) <==> other == key
  {
    SplitsAt(line, key, value);
    assert key + "=" <= line;
    if Keyed(line, other) { KeyedOnce(line, key, other); }
  }

  lemma {:induction false} ManifestKeys(lines: seq<string>, key: string)
    requires Manifest(lines).Some?
    ensures key in Manifest(lines).value <==> exists i :: 0 <= i < |lines| && Keyed(lines[i], key)
    decreases |lines|
  {
    if lines != [] {
      hide Keyed;
      var n := |lines| - 1;
      ManifestKeys(lines[..n], key);
      var (k, value) := KeyValue(lines[n]).value;
      Keys(lines[n], k, value, key);
      if i :| 0 <= i < |lines| && Keyed(lines[i], key) { assert i < n ==> Keyed(lines[..n][i], key); }
      if i :| 0 <= i < n && Keyed(lines[..n][i], key) { assert Keyed(lines[i], key); }
    }
  }

  /** The dictionary can be built exactly of a manifest. */
  lemma {:induction false} ManifestExactly(lines: seq<string>)
    ensures Manifest(lines).Some? <==> Unambiguous(lines)
    decreases |lines|
  {
    if lines != [] {
      hide Keyed;
      var n := |lines| - 1;
      var before, last := lines[..n], lines[n];
      ManifestExactly(before);
      UnambiguousNext(before, last);
      assert lines == before + [last];
      KeyValueSplits(last);
      if Manifest(before).Some? && KeyValue(last).Some? {
        var (key, value) := KeyValue(last).value;
        ManifestKeys(before, key);
        forall other ensures Keyed(last, other) <==> other == key { Keys(last, key, value, other); }
      }
    }
  }

  lemma UnambiguousNext(before: seq<string>, last: string)
    ensures Unambiguous(before + [last]) <==>
              && Unambiguous(before) && '=' in last
              && forall i, key :: 0 <= i < |before| && Keyed(before[i], key) ==> !Keyed(last, key)
  {
    hide Keyed;
    var lines := before + [last];
    assert lines[|before|] == last && forall i :: 0 <= i < |before| ==> lines[i] == before[i];
    if Unambiguous(lines) {
      forall i, key | 0 <= i < |before| && Keyed(before[i], key) ensures !Keyed(last, key) {
        assert Keyed(lines[i], key) && !Keyed(lines[|before|], key);
      }
      forall i, j, key | 0 <= i < j < |before| && Keyed(before[i], key) ensures !Keyed(before[j], key) {
        assert Keyed(lines[i], key) && !Keyed(lines[j], key);
      }
    }
  }

  /** A key has a value in it exactly if some line says so. */
  lemma {:induction false} ManifestSays(lines: seq<string>, key: string, value: string)
    requires Manifest(lines).Some? && '=' !in key
    ensures Has(Manifest(lines).value, key, value) <==> key + "=" + value in lines
    decreases |lines|
  {
    if lines != [] {
      var n := |lines| - 1;
      var before, last := lines[..n], lines[n];
      ManifestSays(before, key, value);
      var (k, v) := KeyValue(last).value;
      SplitsAt(last, k, v);
      SplitsAt(last, key, value);
      assert lines == before + [last];
      ManifestKeys(before, key);
      forall i | 0 <= i < n && before[i] == key + "=" + value ensures Keyed(before[i], key) {
      }
    }
  }

  // ---- Archives ----

  /** No other member has that member's name. */
  predicate OnlyNamed(members: seq<Member>, i: int)
    requires 0 <= i < |members|
  {
    forall j :: 0 <= j < |members| && members[j].name == members[i].name ==> j == i
  }

  lemma {:induction false} NoVersions(members: seq<Member>, name: string)
    ensures Versions(members, name) == [] <==> forall i :: 0 <= i < |members| ==> members[i].name != name
    decreases |members|
  {
    if members != [] {
      NoVersions(members[1..], name);
      if i :| 0 <= i < |members| && members[i].name == name && members[0].name != name {
        assert members[1..][i - 1].name == name;
      }
    }
  }

  lemma {:induction false} VersionsOnly(members: seq<Member>, i: nat)
    requires i < |members| && OnlyNamed(members, i)
    ensures Versions(members, members[i].name) == [members[i]]
    decreases |members|
  {
    var rest := members[1..];
    if i == 0 {
      NoVersions(rest, members[0].name);
      assert forall j :: 0 <= j < |rest| ==> rest[j] == members[j + 1];
    } else {
      assert forall j :: 0 <= j < |rest| ==> rest[j] == members[j + 1];
      VersionsOnly(rest, i - 1);
    }
  }

  lemma {:induction false} OnlyVersion(members: seq<Member>, name: string) returns (i: nat)
    requires |Versions(members, name)| == 1
    ensures i < |members| && members[i].name == name && OnlyNamed(members, i)
    decreases |members|
  {
    var rest := members[1..];
    assert forall j :: 0 <= j < |rest| ==> rest[j] == members[j + 1];
    if members[0].name == name {
      i := 0;
      NoVersions(rest, name);
      assert forall j :: 0 < j < |members| ==> members[j] == rest[j - 1];
    } else {
      i := OnlyVersion(rest, name);
      i := i + 1;
      forall j | 0 <= j < |members| && members[j].name == name ensures j == i {
        assert j > 0 && rest[j - 1].name == name;
      }
    }
  }

  /** archive_identity accepts exactly the archives with one such manifest. */
  lemma IdentifiedExactly(tools: Tools, bytes: string, version: string, revision: string, platform: string)
    ensures Identified(tools, bytes, version, revision, platform) <==>
            tools.open(bytes).Some? && Genuine(tools.open(bytes).value, version, revision, platform)
  {
    if tools.open(bytes).Some? {
      var members := tools.open(bytes).value;
      var name := ArchiveStem(version, platform) + "/VERSION";
      hide Manifest, Versions, Unambiguous;
      assert "version" + "=" + version == "version=" + version;
      assert "revision" + "=" + revision == "revision=" + revision;
      assert "platform" + "=" + platform == "platform=" + platform;
      forall i | 0 <= i < |members|
        ensures Manifest(members[i].lines).Some? <==> Unambiguous(members[i].lines)
        ensures Manifest(members[i].lines).Some? ==>
                  && (Has(Manifest(members[i].lines).value, "version", version) <==>
                        "version=" + version in members[i].lines)
                  && (Has(Manifest(members[i].lines).value, "revision", revision) <==>
                        "revision=" + revision in members[i].lines)
                  && (Has(Manifest(members[i].lines).value, "platform", platform) <==>
                        "platform=" + platform in members[i].lines)
      {
        ManifestExactly(members[i].lines);
        if Manifest(members[i].lines).Some? {
          ManifestSays(members[i].lines, "version", version);
          ManifestSays(members[i].lines, "revision", revision);
          ManifestSays(members[i].lines, "platform", platform);
        }
      }
      if |Versions(members, name)| == 1 {
        var i := OnlyVersion(members, name);
        VersionsOnly(members, i);
      }
      if i :| 0 <= i < |members| && members[i].name == name && OnlyNamed(members, i) {
        VersionsOnly(members, i);
      }
    }
  }

  /** Under one file name an archive is accepted as one release and platform at most. */
  lemma OneIdentity(
    tools: Tools, bytes: string, v: string, r: string, p: string, version: string, revision: string, platform: string)
    requires "itofin-native-" + v + "-" + p + ".tar.gz" == "itofin-native-" + version + "-" + platform + ".tar.gz"
    requires Identified(tools, bytes, v, r, p) && Identified(tools, bytes, version, revision, platform)
    ensures v == version && r == revision && p == platform
  {
    var name, other := "itofin-native-" + v + "-" + p, "itofin-native-" + version + "-" + platform;
    assert name == (name + ".tar.gz")[..|name|] && other == (other + ".tar.gz")[..|name|];
    IdentifiedExactly(tools, bytes, v, r, p);
    IdentifiedExactly(tools, bytes, version, revision, platform);
    var members := tools.open(bytes).value;
    var i :| 0 <= i < |members| && members[i].name == name + "/VERSION" && Unambiguous(members[i].lines)
      && "version=" + v in members[i].lines && "revision=" + r in members[i].lines
      && "platform=" + p in members[i].lines && OnlyNamed(members, i);
    OneValue(members[i].lines, "version", "version=", v, version);
    OneValue(members[i].lines, "revision", "revision=", r, revision);
    OneValue(members[i].lines, "platform", "platform=", p, platform);
  }

  lemma OneValue(lines: seq<string>, key: string, head: string, value: string, other: string)
    requires Unambiguous(lines) && '=' !in key && head == key + "="
    requires head + value in lines && head + other in lines
    ensures value == other
  {
    var i :| 0 <= i < |lines| && lines[i] == head + value;
    var j :| 0 <= j < |lines| && lines[j] == head + other;
    assert Keyed(lines[i], key) && Keyed(lines[j], key);
    assert value == lines[i][|head|..] && other == lines[j][|head|..];
  }

  /** The member that a native archive of one release and platform is meant to have. */
  function VersionMember(version: string, revision: string, platform: string): Member {
    Member("itofin-native-" + version + "-" + platform + "/VERSION", true,
           ["version=" + version, "revision=" + revision, "platform=" + platform])
  }

  lemma PlainManifest(version: string, revision: string, platform: string)
    ensures Unambiguous(["version=" + version, "revision=" + revision, "platform=" + platform])
  {
    var lines := ["version=" + version, "revision=" + revision, "platform=" + platform];
    assert lines[0][7] == '=' && lines[1][8] == '=' && lines[2][8] == '=';
    assert Keyed(lines[0], "version") && Keyed(lines[1], "revision") && Keyed(lines[2], "platform");
    forall i, j, key | 0 <= i < j < |lines| && Keyed(lines[i], key) ensures !Keyed(lines[j], key) {
      KeyedOnce(lines[i], key, ["version", "revision", "platform"][i]);
      if Keyed(lines[j], key) { KeyedOnce(lines[j], key, ["version", "revision", "platform"][j]); }
    }
  }

  /** The file name matters: an archive with the members of two releases is accepted as both, under
      the two names. */
  lemma TwoNamesTwoIdentities(
    tools: Tools, bytes: string, v: string, version: string, revision: string, platform: string)
    requires |v| < |version|
    requires tools.open(bytes) ==
             Some([VersionMember(v, revision, platform), VersionMember(version, revision, platform)])
    ensures Identified(tools, bytes, v, revision, platform) && Identified(tools, bytes, version, revision, platform)
  {
    var members := tools.open(bytes).value;
    PlainManifest(v, revision, platform);
    PlainManifest(version, revision, platform);
    IdentifiedExactly(tools, bytes, v, revision, platform);
    IdentifiedExactly(tools, bytes, version, revision, platform);
    hide Unambiguous, Identified;
    assert |members[0].name| < |members[1].name|;
    assert members[0].lines[0] == "version=" + v && members[1].lines[0] == "version=" + version;
    assert members[0].lines[1] == "revision=" + revision && members[1].lines[1] == "revision=" + revision;
    assert members[0].lines[2] == "platform=" + platform && members[1].lines[2] == "platform=" + platform;
    assert Genuine(members, v, revision, platform);
    assert Genuine(members, version, revision, platform);
  }

  // ---- Releases ----

  /** A valid archive, and a checksum file whose words are its digest and its name. */
  ghost predicate Sound(
    tools: Tools, archive: string, checksum: string, name: string, version: string, revision: string, platform: string)
  {
    && tools.open(archive).Some? && Genuine(tools.open(archive).value, version, revision, platform)
    && Words(checksum) == [tools.digest(archive), name]
  }

  /** Both files of the platform are among the local ones, and sound. */
  ghost predicate LocalSound(tools: Tools, c: Checkout, version: string, platform: string) {
    var name := "itofin-native-" + version + "-" + platform + ".tar.gz";
    && name in c.local && name + ".sha256" in c.local
    && Sound(tools, c.local[name], c.local[name + ".sha256"], name, version, c.revision, platform)
  }

  /** Nothing is attached for the platform, or a valid archive with no checksum or with a sound one. */
  ghost predicate RemoteSound(tools: Tools, c: Checkout, r: Remote, version: string, platform: string) {
    var name := "itofin-native-" + version + "-" + platform + ".tar.gz";
    && (name in r.assets ==>
          && tools.open(r.assets[name]).Some?
          && Genuine(tools.open(r.assets[name]).value, version, c.revision, platform))
    && (name + ".sha256" in r.assets ==>
          && name in r.assets
          && Sound(tools, r.assets[name], r.assets[name + ".sha256"], name, version, c.revision, platform))
  }

  /** The tag leads to the commit by at most seven dereferences. */
  ghost predicate LeadsTo(r: Remote, tag: string, sha: string) {
    tag in r.refs && exists k: nat :: k <= 7 && Deref(r.tagObjects, r.refs[tag], k) == Some(Commit(sha))
  }

  /** The checkout is that of the published core release, and its Go tag is not another commit's. */
  ghost predicate ReadyFor(c: Checkout, r: Remote, version: string) {
    && c.version == Some(version) && c.tag == "v" + version
    && c.goMod.Some? && ["module", "github.com/" + c.repository + "/sdk/go"] in c.goMod.value
    && LeadsTo(r, c.tag, c.revision)
    && ("sdk/go/v" + version in r.refs ==> LeadsTo(r, "sdk/go/v" + version, c.revision))
    && r.released && !r.draft && r.tagName == c.tag
  }

  lemma {:induction false} FoundByFollow(
    objects: map<string, GitObject>, obj: GitObject, tries: nat, k: nat, sha: string)
    requires k < tries && Deref(objects, obj, k) == Some(Commit(sha))
    ensures Follow(objects, obj, tries) == Resolved(sha)
    decreases k
  {
    if k > 0 {
      DerefStep(objects, obj, k - 1);
      FoundByFollow(objects, objects[obj.sha], tries - 1, k - 1, sha);
    }
  }

  lemma TagLeads(r: Remote, tag: string, sha: string)
    ensures Resolve(r.refs, r.tagObjects, tag) == Resolved(sha) <==> LeadsTo(r, tag, sha)
    ensures Resolve(r.refs, r.tagObjects, tag) == RemoteTags.Missing <==> tag !in r.refs
  {
    ResolvesWithinSeven(r.refs, r.tagObjects, tag, sha);
    if LeadsTo(r, tag, sha) {
      var k: nat :| k <= 7 && Deref(r.tagObjects, r.refs[tag], k) == Some(Commit(sha));
      FoundByFollow(r.tagObjects, r.refs[tag], 8, k, sha);
    }
  }

  lemma ClearedExactly(c: Checkout, r: Remote)
    ensures Cleared(c, r) <==> c.version.Some? && ReadyFor(c, r, c.version.value)
  {
    if c.version.Some? {
      TagLeads(r, c.tag, c.revision);
      TagLeads(r, "sdk/go/v" + c.version.value, c.revision);
      hide Resolve, LeadsTo;
    }
  }

  lemma SoundExactly(tools: Tools, c: Checkout, r: Remote, i: nat)
    requires c.version.Some? && i < |PLATFORMS|
    ensures LocalPlatform(tools, c, PLATFORMS[i]) <==> LocalSound(tools, c, c.version.value, PLATFORMS[i])
    ensures PlatformFits(tools, c.version.value, c.revision, r.assets, PLATFORMS[i]) <==>
            RemoteSound(tools, c, r, c.version.value, PLATFORMS[i])
  {
    hide Genuine, Identified, Words;
    var name := ArchiveName(c.version.value, PLATFORMS[i]);
    assert name == "itofin-native-" + c.version.value + "-" + PLATFORMS[i] + ".tar.gz";
    if name in c.local { IdentifiedExactly(tools, c.local[name], c.version.value, c.revision, PLATFORMS[i]); }
    if name in r.assets { IdentifiedExactly(tools, r.assets[name], c.version.value, c.revision, PLATFORMS[i]); }
  }

  /** What a run publishes, it has checked; and against a server that keeps uploads a run that is not
      stopped publishes exactly if the checkout is ready and the files of both platforms are sound. */
  lemma PublishesExactlySound(
    tools: Tools, c: Checkout, accepts: nat -> bool, r: Remote, limit: nat, version: string)
    requires c.version == Some(version) && Sane(tools, version)
    ensures var sound :=
        && ReadyFor(c, r, version)
        && LocalSound(tools, c, version, "linux-amd64") && LocalSound(tools, c, version, "darwin-arm64")
        && RemoteSound(tools, c, r, version, "linux-amd64") && RemoteSound(tools, c, r, version, "darwin-arm64");
      && (Outcome(tools, c, accepts, r, limit).1.Published? ==> sound)
      && (Reliable(accepts) && limit >= 6 ==> (Outcome(tools, c, accepts, r, limit).1.Published? <==> sound))
  {
    hide Outcome, Cleared, ReadyFor, LocalSound, RemoteSound, LocalPlatform, PlatformFits, Plan;
    PublishesExactly(tools, c, accepts, r, limit);
    ClearedExactly(c, r);
    SoundExactly(tools, c, r, 0);
    SoundExactly(tools, c, r, 1);
    if Reliable(accepts) && limit >= 6 { PublishesIffFits(tools, c, accepts, r, limit); }
  }

  // ---- What a run that publishes leaves ----

  /** What the release lacks of the platform: both local files, or the checksum of what is attached. */
  function Lacking(tools: Tools, c: Checkout, r: Remote, version: string, platform: string): map<string, string> {
    var name := "itofin-native-" + version + "-" + platform + ".tar.gz";
    if name !in r.assets && name in c.local && name + ".sha256" in c.local then
      map[name := c.local[name], name + ".sha256" := c.local[name + ".sha256"]]
    else if name in r.assets && name + ".sha256" !in r.assets then
      map[name + ".sha256" := tools.digest(r.assets[name]) + "  " + name + "\n"]
    else map[]
  }

  lemma PutLacking(tools: Tools, c: Checkout, r: Remote, assets: map<string, string>, i: nat)
    requires c.version.Some? && i < |PLATFORMS| && PlatformWrites(tools, c, r, PLATFORMS[i]).Some?
    ensures Put(assets, PlatformWrites(tools, c, r, PLATFORMS[i]).value.0) ==
            assets + Lacking(tools, c, r, c.version.value, PLATFORMS[i])
  {
    hide Identified, Matches;
    var (ws, _) := PlatformWrites(tools, c, r, PLATFORMS[i]).value;
    var name := ArchiveName(c.version.value, PLATFORMS[i]);
    assert name == "itofin-native-" + c.version.value + "-" + PLATFORMS[i] + ".tar.gz";
    NamesDiffer(c.version.value, i, i);
    var after := assets + Lacking(tools, c, r, c.version.value, PLATFORMS[i]);
    if |ws| == 2 {
      PutOne(assets, ws[0].name, ws[0].content);
      PutAppend(assets, [ws[0]], [ws[1]]);
      PutOne(Put(assets, [ws[0]]), ws[1].name, ws[1].content);
      assert ws == [ws[0]] + [ws[1]];
    } else if |ws| == 1 {
      PutOne(assets, ws[0].name, ws[0].content);
      assert ws == [ws[0]];
    }
    hide Put;
    assert Put(assets, ws) == after;
  }

  lemma PutOne(assets: map<string, string>, name: string, content: string)
    ensures Put(assets, [Upload(name, content)]) == assets[name := content]
  {
    assert [Upload(name, content)][..0] == [];
  }

  lemma PutAll(tools: Tools, c: Checkout, r: Remote)
    requires c.version.Some? && AllUploads(tools, c, r).1.Some?
    ensures Put(r.assets, AllUploads(tools, c, r).0) ==
            r.assets + Lacking(tools, c, r, c.version.value, "linux-amd64")
                     + Lacking(tools, c, r, c.version.value, "darwin-arm64")
  {
    hide Put, PlatformWrites, Lacking, ArchiveName;
    forall i: nat | i < |PLATFORMS| ensures PlatformWrites(tools, c, r, PLATFORMS[i]).Some? {
      if PlatformWrites(tools, c, r, PLATFORMS[i]).None? { BlockedUploads(tools, c, r, i); }
    }
    var first := PlatformWrites(tools, c, r, PLATFORMS[0]).value.0;
    var second := PlatformWrites(tools, c, r, PLATFORMS[1]).value.0;
    NoUploads(tools, c, r);
    UploadsWhole(tools, c, r, 1);
    UploadsWhole(tools, c, r, 2);
    var none: seq<Write> := [];
    assert none + first == first;
    PutAppend(r.assets, first, second);
    PutLacking(tools, c, r, r.assets, 0);
    PutLacking(tools, c, r, Put(r.assets, first), 1);
  }

  lemma LiteralNames(version: string)
    ensures ArchiveName(version, "linux-amd64") == "itofin-native-" + version + "-linux-amd64.tar.gz"
    ensures ArchiveName(version, "darwin-arm64") == "itofin-native-" + version + "-darwin-arm64.tar.gz"
  {
    assert "-" + "linux-amd64" + ".tar.gz" == "-linux-amd64.tar.gz";
    assert "-" + "darwin-arm64" + ".tar.gz" == "-darwin-arm64.tar.gz";
  }

  /** The tags and the notes after it. */
  lemma ClosedRemote(c: Checkout, r: Remote, assets: map<string, string>, version: string)
    requires c.version == Some(version)
    ensures Later(c, r, assets, |TagWrites(c, r)| > 0, |NoteWrites(c, r)| > 0) ==
            r.(assets := assets,
               refs := if "sdk/go/v" + version in r.refs then r.refs
                       else r.refs["sdk/go/v" + version := Commit(c.revision)],
               body := if Contains(r.body, "## Go bindings") then r.body
                       else r.body + "\n\n" + "## Go bindings" + c.guide)
  {
    hide Contains, Resolve;
    MissingTag(r, GoTag(version));
    assert r.body + Notes(c) == r.body + "\n\n" + "## Go bindings" + c.guide;
  }

  lemma TwoDigests(tools: Tools, assets: map<string, string>, version: string)
    requires ArchiveName(version, PLATFORMS[0]) in assets && ArchiveName(version, PLATFORMS[1]) in assets
    ensures DigestsOf(tools, version, assets, |PLATFORMS|) ==
            map[ArchiveName(version, PLATFORMS[0]) := tools.digest(assets[ArchiveName(version, PLATFORMS[0])]),
                ArchiveName(version, PLATFORMS[1]) := tools.digest(assets[ArchiveName(version, PLATFORMS[1])])]
  {
    hide ArchiveName;
    assert DigestsOf(tools, version, assets, 0) == map[];
    assert DigestsOf(tools, version, assets, 1) ==
           map[ArchiveName(version, PLATFORMS[0]) := tools.digest(assets[ArchiveName(version, PLATFORMS[0])])];
  }

  /** The whole remote after a run that published, whatever the server: as it was, with what was
      lacking of both platforms, the Go tag on the commit and the notes, where they were missing. */
  lemma PublishedRemote(tools: Tools, c: Checkout, accepts: nat -> bool, r: Remote, limit: nat, version: string)
    requires c.version == Some(version) && Sane(tools, version)
    requires Outcome(tools, c, accepts, r, limit).1.Published?
    ensures Outcome(tools, c, accepts, r, limit).0 == r.(
      assets := r.assets + Lacking(tools, c, r, version, "linux-amd64") + Lacking(tools, c, r, version, "darwin-arm64"),
      refs := if "sdk/go/v" + version in r.refs then r.refs else r.refs["sdk/go/v" + version := Commit(c.revision)],
      body := if Contains(r.body, "## Go bindings") then r.body else r.body + "\n\n" + "## Go bindings" + c.guide)
  {
    PublishedMeansComplete(tools, c, accepts, r, limit);
    PublishesExactly(tools, c, Always(), r, 6);
    hide Deliver, Uploads, Lacking, Put, Cleared, Attached, Later, Complete, Fits, LocalValid, Keeps, TagWrites;
    hide NoteWrites, Contains, GoTag;
    var uploads := AllUploads(tools, c, r).0;
    OutcomeAfter(tools, c, Always(), r, 6);
    var plan := Plan(tools, c, Always(), r).0;
    assert plan[..|plan|] == plan && plan == uploads + Closing(c, r);
    assert Closing(c, r)[..|Closing(c, r)|] == Closing(c, r);
    UploadsAreNew(tools, c, r, |PLATFORMS|);
    UploadsAdd(r, uploads, Always());
    DeliverPuts(r, uploads, Always());
    PutAll(tools, c, r);
    ClosingWrites(c, r, uploads, Always(), |Closing(c, r)|);
    ClosedCounts(c, r);
    ClosedRemote(c, r, Put(r.assets, uploads), version);
  }

  lemma ClosedCounts(c: Checkout, r: Remote)
    requires c.version.Some?
    ensures |Closing(c, r)| == |TagWrites(c, r)| + |NoteWrites(c, r)|
  {
  }

  /** And what it answers: the release, and the digests of the archives attached. */
  lemma PublishedReceipt(tools: Tools, c: Checkout, accepts: nat -> bool, r: Remote, limit: nat, version: string)
    requires c.version == Some(version) && Sane(tools, version)
    requires Outcome(tools, c, accepts, r, limit).1.Published?
    ensures var (after, verdict) := Outcome(tools, c, accepts, r, limit);
      var linux := "itofin-native-" + version + "-linux-amd64.tar.gz";
      var darwin := "itofin-native-" + version + "-darwin-arm64.tar.gz";
      && linux in after.assets && darwin in after.assets
      && verdict == Published(Receipt(
           version, c.revision, "sdk/go/v" + version,
           map[linux := tools.digest(after.assets[linux]), darwin := tools.digest(after.assets[darwin])]))
  {
    PublishedMeansComplete(tools, c, accepts, r, limit);
    LiteralNames(version);
    hide Outcome, ArchiveName, Fits, DigestsOf;
    TwoDigests(tools, Outcome(tools, c, accepts, r, limit).0.assets, version);
  }

  /** So what it leaves attached is sound, both platforms. */
  lemma PublishedIsSound(tools: Tools, c: Checkout, accepts: nat -> bool, r: Remote, limit: nat, version: string)
    requires c.version == Some(version) && Sane(tools, version)
    requires Outcome(tools, c, accepts, r, limit).1.Published?
    ensures var after := Outcome(tools, c, accepts, r, limit).0;
      forall platform :: platform in ["linux-amd64", "darwin-arm64"] ==>
        var name := "itofin-native-" + version + "-" + platform + ".tar.gz";
        && name in after.assets && name + ".sha256" in after.assets
        && Sound(tools, after.assets[name], after.assets[name + ".sha256"], name, version, c.revision, platform)
  {
    hide Outcome, Identified, Genuine, Words;
    PublishedMeansComplete(tools, c, accepts, r, limit);
    var after := Outcome(tools, c, accepts, r, limit).0;
    SoundExactly(tools, c, after, 0);
    SoundExactly(tools, c, after, 1);
    assert ArchiveName(version, "linux-amd64") == "itofin-native-" + version + "-" + "linux-amd64" + ".tar.gz";
    assert ArchiveName(version, "darwin-arm64") == "itofin-native-" + version + "-" + "darwin-arm64" + ".tar.gz";
  }
}
