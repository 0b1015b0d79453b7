/** Pruning a recipe to a keep set: `filter_manifests` and
    `filter_lockfile_members` (src/lib.rs:143-177). */
module Prune {
  import opened Results
  import opened Toml
  import opened Recipes
  import opened Seqs
  import opened Workspace

  /** A manifest survives when it names no crate (a virtual manifest such as
      the root) or its crate is kept. */
  predicate KeepManifest(m: Manifest, keep: set<string>) {
    CrateName(m).None? || CrateName(m).value in keep
  }

  /** A lock entry survives when it has no string name, names a crate outside
      the workspace, or names a kept member. */
  predicate KeepLockEntry(e: LockEntry, members: set<string>, keep: set<string>) {
    e.name.None? || e.name.value !in members || e.name.value in keep
  }

  function FilterManifests(ms: seq<Manifest>, keep: set<string>): (r: seq<Manifest>)
    ensures IsSubsequence(r, ms)
    ensures forall m :: m in r <==> m in ms && KeepManifest(m, keep)
    ensures forall m :: multiset(r)[m] == if KeepManifest(m, keep) then multiset(ms)[m] else 0
  {
    Retain(ms, m => KeepManifest(m, keep))
  }

  /** `doc'` is `doc` with only its `[[package]]` entries pruned. */
  ghost predicate LockPruned(doc: LockDoc, doc': LockDoc, members: set<string>, keep: set<string>) {
    && doc'.rest == doc.rest
    && doc'.packages.Some? == doc.packages.Some?
    && (doc.packages.Some? ==>
         var es, es' := doc.packages.value, doc'.packages.value;
         && IsSubsequence(es', es)
         && forall e :: multiset(es')[e] == if KeepLockEntry(e, members, keep) then multiset(es)[e] else 0)
  }

  function FilterLockfileMembers(lock: Option<TomlText<LockDoc>>, members: set<string>, keep: set<string>)
    : (r: Result<Option<TomlText<LockDoc>>, ReduceError>)
    ensures lock.None? ==> r == Success(None)
    ensures r.Failure? <==> lock.Some? && Parse(lock.value).None?
    ensures r.Failure? ==> r.error == LockFileNotToml
    ensures r.Success? && lock.Some? ==>
      && r.value.Some?
      && Parse(r.value.value).Some?
      && LockPruned(Parse(lock.value).value, Parse(r.value.value).value, members, keep)
  {
    match lock
    case None => Success(None)
    case Some(text) =>
      match Parse(text)
      case None => Failure(LockFileNotToml)
      case Some(doc) =>
        var pruned :=
          match doc.packages
          case None => doc
          case Some(entries) => doc.(packages := Some(Retain(entries, e => KeepLockEntry(e, members, keep))));
        Success(Some(Render(pruned)))
  }

  /** With every workspace member kept, manifest filtering changes nothing. */
  lemma FilterManifestsKeepsAll(ms: seq<Manifest>, keep: set<string>)
    requires AllWorkspaceMembers(ms) <= keep
    ensures FilterManifests(ms, keep) == ms
  {
    forall i | 0 <= i < |ms|
      ensures KeepManifest(ms[i], keep)
    {
      assert ms[i] in ms;
    }
    RetainAll(ms, m => KeepManifest(m, keep));
  }

  /** With every workspace member kept, lock filtering gives back the same
      text. */
  lemma FilterLockfileKeepsAll(lock: Option<TomlText<LockDoc>>, members: set<string>, keep: set<string>)
    requires members <= keep
    requires lock.None? || Parse(lock.value).Some?
    ensures FilterLockfileMembers(lock, members, keep) == Success(lock)
  {
    if lock.Some? && lock.value.doc.packages.Some? {
      RetainAll(lock.value.doc.packages.value, e => KeepLockEntry(e, members, keep));
    }
  }
}
