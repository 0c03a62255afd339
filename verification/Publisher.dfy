/** Attaching native assets to a release and publishing the Go tag
    (scripts/publish_go_release.py): remote state, the order of the remote writes, and the
    publisher as a method that may be stopped between any two of them. */
module Publisher {
  import opened Wrappers
  import opened RemoteTags
  import opened Text

  // ---- Remote and local state ----

  /** The repository's tags and the one release the core tag names. */
  datatype Remote = Remote(
    refs: map<string, GitObject>,
    tagObjects: map<string, GitObject>,
    released: bool,
    tagName: string,
    draft: bool,
    assets: map<string, string>,
    body: string)

  datatype Write = Upload(name: string, content: string) | CreateTag(tag: string, sha: string) | EditNotes(body: string)

  /** A tar member: its name, whether it is a regular file, and its decoded lines. */
  datatype Member = Member(name: string, isFile: bool, lines: seq<string>)

  /** Reading a gzipped tar archive, and SHA-256 in hexadecimal. */
  datatype Tools = Tools(open: string -> Option<seq<Member>>, digest: string -> string)

  /** The checkout that runs the script: `version` is what check_version answers, `goMod` the
      words of each line of sdk/go/go.mod if it is a file, `local` the archive directory, and
      `guide` the wording of the installation notes for this repository and tag. */
  datatype Checkout = Checkout(
    repository: string,
    tag: string,
    version: Option<string>,
    goMod: Option<seq<seq<string>>>,
    revision: string,
    local: map<string, string>,
    guide: string)

  datatype Receipt = Receipt(version: string, revision: string, goTag: string, sha256: map<string, string>)

  /** How a run ends: with its result, with an exception, or stopped by a crash. */
  datatype Verdict = Published(receipt: Receipt) | Raised | Crashed

  const PLATFORMS: seq<string> := ["linux-amd64", "darwin-arm64"]
  const NOTES_HEADING := "## Go bindings"

  function ArchiveStem(version: string, platform: string): string {
    "itofin-native-" + version + "-" + platform
  }

  function ArchiveName(version: string, platform: string): string {
    ArchiveStem(version, platform) + ".tar.gz"
  }

  function ChecksumName(archive: string): string {
    archive + ".sha256"
  }

  function ChecksumText(digest: string, archive: string): string {
    digest + "  " + archive + "\n"
  }

  function GoTag(version: string): string {
    "sdk/go/v" + version
  }

  /** The section added to the release notes: its heading, then how to install. */
  function Notes(c: Checkout): string {
    "\n\n" + NOTES_HEADING + c.guide
  }

  // ---- archive_identity and verify_checksum ----

  /** A line split at its first "=", if it has one. */
  function KeyValue(line: string): Option<(string, string)> {
    if line == "" then None
    else if line[0] == '=' then Some(("", line[1..]))
    else
      match KeyValue(line[1..])
      case None => None
      case Some((key, value)) => Some(([line[0]] + key, value))
  }

  /** The manifest as a dictionary; none for a line without "=" or a repeated key. */
  function Manifest(lines: seq<string>): Option<map<string, string>> {
    if lines == [] then Some(map[])
    else
      match (Manifest(lines[..|lines| - 1]), KeyValue(lines[|lines| - 1]))
      case (Some(m), Some((key, value))) => if key in m then None else Some(m[key := value])
      case _ => None
  }

  predicate Has(m: map<string, string>, key: string, value: string) {
    key in m && m[key] == value
  }

  /** The members named VERSION of the archive. */
  function Versions(members: seq<Member>, name: string): seq<Member> {
    if members == [] then []
    else (if members[0].name == name then [members[0]] else []) + Versions(members[1..], name)
  }

  /** archive_identity succeeds: the bytes are an archive of this version, revision and platform. */
  predicate Identified(tools: Tools, bytes: string, version: string, revision: string, platform: string) {
    match tools.open(bytes)
    case None => false
    case Some(members) =>
      var found := Versions(members, ArchiveStem(version, platform) + "/VERSION");
      |found| == 1 && found[0].isFile &&
      match Manifest(found[0].lines)
      case None => false
      case Some(m) => Has(m, "version", version) && Has(m, "revision", revision) && Has(m, "platform", platform)
  }

  /** verify_checksum succeeds. */
  predicate Matches(checksum: string, digest: string, archive: string) {
    Words(checksum) == [digest, archive]
  }

  // ---- The checks before any write (lines 71-89) ----

  predicate Cleared(c: Checkout, r: Remote) {
    && c.version.Some? && c.tag == "v" + c.version.value
    && c.goMod.Some? && ["module", "github.com/" + c.repository + "/sdk/go"] in c.goMod.value
    && Resolve(r.refs, r.tagObjects, c.tag) == Resolved(c.revision)
    && (Resolve(r.refs, r.tagObjects, GoTag(c.version.value)) == Missing
        || Resolve(r.refs, r.tagObjects, GoTag(c.version.value)) == Resolved(c.revision))
    && r.released && r.tagName == c.tag && !r.draft
  }

  // ---- What a run writes, in order ----

  function Effect(r: Remote, w: Write, accepted: bool): Remote {
    match w
    case Upload(name, content) => if accepted then r.(assets := r.assets[name := content]) else r
    case CreateTag(tag, sha) => r.(refs := r.refs[tag := Commit(sha)])
    case EditNotes(body) => r.(body := body)
  }

  /** The remote after the writes; `accepts(k)` says whether the server keeps upload `k` of the run. */
  function Deliver(r: Remote, ws: seq<Write>, accepts: nat -> bool): Remote {
    if ws == [] then r
    else Effect(Deliver(r, ws[..|ws| - 1], accepts), ws[|ws| - 1], accepts(|ws| - 1))
  }

  /** One platform: its uploads, and the digest of the archive that is or becomes the published
      one; nothing where a check raises, which is before the platform's first upload. */
  function PlatformWrites(tools: Tools, c: Checkout, r: Remote, platform: string): Option<(seq<Write>, string)>
    requires c.version.Some?
  {
    var version := c.version.value;
    var name := ArchiveName(version, platform);
    var sum := ChecksumName(name);
    if name !in c.local || !Identified(tools, c.local[name], version, c.revision, platform)
       || sum !in c.local || !Matches(c.local[sum], tools.digest(c.local[name]), name) then None
    else if sum in r.assets && name !in r.assets then None
    else if name !in r.assets then
      Some(([Upload(name, c.local[name]), Upload(sum, c.local[sum])], tools.digest(c.local[name])))
    else if !Identified(tools, r.assets[name], version, c.revision, platform) then None
    else
      var digest := tools.digest(r.assets[name]);
      if sum !in r.assets then Some(([Upload(sum, ChecksumText(digest, name))], digest))
      else if Matches(r.assets[sum], digest, name) then Some(([], digest))
      else None
  }

  /** The uploads for the first `k` platforms, cut where a check raises, and the digests if none does. */
  function Uploads(tools: Tools, c: Checkout, r: Remote, k: nat): (seq<Write>, Option<map<string, string>>)
    requires c.version.Some? && k <= |PLATFORMS|
  {
    if k == 0 then ([], Some(map[]))
    else
      var (before, digests) := Uploads(tools, c, r, k - 1);
      if digests.None? then (before, None)
      else
        match PlatformWrites(tools, c, r, PLATFORMS[k - 1])
        case None => (before, None)
        case Some((ws, digest)) =>
          (before + ws, Some(digests.value[ArchiveName(c.version.value, PLATFORMS[k - 1]) := digest]))
  }

  function AllUploads(tools: Tools, c: Checkout, r: Remote): (seq<Write>, Option<map<string, string>>)
    requires c.version.Some?
  {
    Uploads(tools, c, r, |PLATFORMS|)
  }

  predicate HasBoth(assets: map<string, string>, archive: string) {
    archive in assets && ChecksumName(archive) in assets
  }

  /** Both platforms' archives and checksums are attached. */
  predicate Attached(assets: map<string, string>, version: string) {
    && HasBoth(assets, ArchiveName(version, PLATFORMS[0]))
    && HasBoth(assets, ArchiveName(version, PLATFORMS[1]))
  }

  function TagWrites(c: Checkout, r: Remote): seq<Write>
    requires c.version.Some?
  {
    var goTag := GoTag(c.version.value);
    if Resolve(r.refs, r.tagObjects, goTag) == Missing then [CreateTag(goTag, c.revision)] else []
  }

  function NoteWrites(c: Checkout, r: Remote): seq<Write>
    requires c.version.Some?
  {
    if Contains(r.body, NOTES_HEADING) then [] else [EditNotes(r.body + Notes(c))]
  }

  /** The writes after the uploads: the Go tag if missing, then the notes if missing. */
  function Closing(c: Checkout, r: Remote): seq<Write>
    requires c.version.Some?
  {
    TagWrites(c, r) + NoteWrites(c, r)
  }

  /** The whole run: the writes it would make if never stopped, and how it would then end. */
  function Plan(tools: Tools, c: Checkout, accepts: nat -> bool, r: Remote): (seq<Write>, Verdict) {
    if !Cleared(c, r) then ([], Raised)
    else
      var version := c.version.value;
      var (uploads, digests) := AllUploads(tools, c, r);
      if digests.None? || !Attached(Deliver(r, uploads, accepts).assets, version) then (uploads, Raised)
      else (uploads + Closing(c, r), Published(Receipt(version, c.revision, GoTag(version), digests.value)))
  }

  /** A run with this plan, stopped before its write number `limit`. */
  function Cut(r: Remote, plan: (seq<Write>, Verdict), accepts: nat -> bool, limit: nat): (Remote, Verdict) {
    if limit < |plan.0| then (Deliver(r, plan.0[..limit], accepts), Crashed)
    else (Deliver(r, plan.0, accepts), plan.1)
  }

  /** The remote after a run that is stopped before its write number `limit`, and its verdict. */
  function Outcome(tools: Tools, c: Checkout, accepts: nat -> bool, r: Remote, limit: nat): (Remote, Verdict) {
    Cut(r, Plan(tools, c, accepts, r), accepts, limit)
  }
}
