/** Resolving a remote tag to a commit (scripts/publish_go_release.py, remote_commit). */
module RemoteTags {
  import opened Wrappers

  /** A git object: a commit, an annotated tag to look up by its sha, or something else. */
  datatype GitObject = Commit(sha: string) | Tag(sha: string) | Other

  /** What remote_commit gives: no such tag, a commit, or an exception. */
  datatype Resolution = Missing | Resolved(sha: string) | Unresolvable

  /** The object after `k` dereferences; none where the chain has ended before. */
  function Deref(objects: map<string, GitObject>, obj: GitObject, k: nat): Option<GitObject> {
    if k == 0 then Some(obj)
    else
      match Deref(objects, obj, k - 1)
      case Some(Tag(sha)) => if sha in objects then Some(objects[sha]) else None
      case _ => None
  }

  /** At most `tries` objects of the chain are looked at. */
  function Follow(objects: map<string, GitObject>, obj: GitObject, tries: nat): Resolution
    decreases tries
  {
    if tries == 0 then Unresolvable
    else
      match obj
      case Commit(sha) => Resolved(sha)
      case Tag(sha) => if sha in objects then Follow(objects, objects[sha], tries - 1) else Unresolvable
      case Other => Unresolvable
  }

  function Resolve(refs: map<string, GitObject>, objects: map<string, GitObject>, tag: string): Resolution {
    if tag !in refs then Missing else Follow(objects, refs[tag], 8)
  }

  method RemoteCommit(refs: map<string, GitObject>, objects: map<string, GitObject>, tag: string)
    returns (r: Resolution)
    ensures r == Resolve(refs, objects, tag)
  {
    if tag !in refs { return Missing; }
    var obj := refs[tag];
    for i := 0 to 8
      invariant Follow(objects, refs[tag], 8) == Follow(objects, obj, 8 - i)
    {
      if obj.Commit? { return Resolved(obj.sha); }
      if !obj.Tag? { break; }
      if obj.sha !in objects { return Unresolvable; }
      obj := objects[obj.sha];
    }
    r := Unresolvable;
  }

  lemma {:induction false} DerefStep(objects: map<string, GitObject>, obj: GitObject, k: nat)
    ensures Deref(objects, obj, k + 1) ==
            match obj
            case Tag(sha) => if sha in objects then Deref(objects, objects[sha], k) else None
            case _ => None
  {
    if k > 0 { DerefStep(objects, obj, k - 1); }
  }

  lemma {:induction false} FollowFinds(objects: map<string, GitObject>, obj: GitObject, tries: nat, sha: string)
    ensures Follow(objects, obj, tries) == Resolved(sha) <==>
            exists k: nat :: k < tries && Deref(objects, obj, k) == Some(Commit(sha))
    decreases tries
  {
    if tries > 0 {
      var tag := obj.Tag? && obj.sha in objects;
      if tag { FollowFinds(objects, objects[obj.sha], tries - 1, sha); }
      if Follow(objects, obj, tries) == Resolved(sha) {
        if obj.Commit? {
          assert Deref(objects, obj, 0) == Some(Commit(sha));
        } else {
          var k: nat :| k < tries - 1 && Deref(objects, objects[obj.sha], k) == Some(Commit(sha));
          DerefStep(objects, obj, k);
          assert Deref(objects, obj, k + 1) == Some(Commit(sha));
        }
      }
      forall k: nat | k < tries && Deref(objects, obj, k) == Some(Commit(sha))
        ensures Follow(objects, obj, tries) == Resolved(sha)
      {
        if k > 0 { DerefStep(objects, obj, k - 1); }
      }
    }
  }

  /** A tag resolves to a commit exactly if at most seven dereferences lead to it; a missing tag
      is not an error, and every other chain, cyclic ones included, ends in one. */
  lemma ResolvesWithinSeven(refs: map<string, GitObject>, objects: map<string, GitObject>, tag: string, sha: string)
    ensures Resolve(refs, objects, tag) == Resolved(sha) <==>
            tag in refs && exists k: nat :: k <= 7 && Deref(objects, refs[tag], k) == Some(Commit(sha))
    ensures Resolve(refs, objects, tag) == Missing <==> tag !in refs
  {
    if tag in refs {
      FollowFinds(objects, refs[tag], 8, sha);
      FollowNeverMissing(objects, refs[tag], 8);
    }
  }

  lemma {:induction false} FollowNeverMissing(objects: map<string, GitObject>, obj: GitObject, tries: nat)
    ensures Follow(objects, obj, tries) != Missing
    decreases tries
  {
    if tries > 0 && obj.Tag? && obj.sha in objects { FollowNeverMissing(objects, objects[obj.sha], tries - 1); }
  }
}
