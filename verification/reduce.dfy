/** `reduce_workspace_recipe` (src/lib.rs:44-61): find the roots, build the
    workspace graph, compute the keep set and prune a copy of the recipe. */
module Reduce {
  import opened Results
  import opened Toml
  import opened Recipes
  import opened Seqs
  import opened Graph
  import opened Workspace
  import opened Reach
  import opened Prune

  /** The roots: the string members listed by the first root manifest. */
  function RootMembers(ms: seq<Manifest>): Result<set<string>, ReduceError> {
    var root :- GetRootManifest(ms);
    GetRootWorkspaceMembers(root)
  }

  /** The workspace graph of a manifest sequence. */
  function WorkspaceGraph(ms: seq<Manifest>): Deps {
    BuildWorkspaceDeps(ms, AllWorkspaceMembers(ms))
  }

  /** Both filters applied to a copy of the recipe; only the manifests and
      the lock file change. */
  function PruneRecipe(rc: Recipe, members: set<string>, keep: set<string>): Result<Recipe, ReduceError> {
    var lock :- FilterLockfileMembers(rc.skeleton.lockFile, members, keep);
    Success(Recipe(rc.skeleton.(manifests := FilterManifests(rc.skeleton.manifests, keep), lockFile := lock)))
  }

  /** The reduction stated declaratively: the keep set is the set of names
      reachable from the roots. */
  ghost function ReduceSpec(rc: Recipe): Result<Recipe, ReduceError> {
    var ms := rc.skeleton.manifests;
    var roots :- RootMembers(ms);
    PruneRecipe(rc, AllWorkspaceMembers(ms), KeepSet(roots, WorkspaceGraph(ms)))
  }

  method ReduceWorkspaceRecipe(rc: Recipe) returns (r: Result<Recipe, ReduceError>)
    ensures r == ReduceSpec(rc)
  {
    var ms := rc.skeleton.manifests;
    var rootManifest :- GetRootManifest(ms);
    var roots :- GetRootWorkspaceMembers(rootManifest);
    var members := AllWorkspaceMembers(ms);
    var deps := BuildWorkspaceDeps(ms, members);
    var keep := ComputeTransitiveMembers(roots, deps);
    r := PruneRecipe(rc, members, keep);
  }

  /** The reduction fails for want of a root manifest exactly when no
      manifest sits at `Cargo.toml`. */
  lemma ReduceRootMissing(rc: Recipe)
    ensures ReduceSpec(rc) == Failure(RootManifestNotFound) <==>
      forall m :: m in rc.skeleton.manifests ==> m.relativePath != RootPath
  {
    var ms := rc.skeleton.manifests;
    if GetRootManifest(ms).Success? {
      var i :| FirstRootAt(ms, i) && ms[i] == GetRootManifest(ms).value;
      assert ms[i] in ms;
    }
  }

  /** With the root manifest found, the reduction fails exactly when that
      manifest does not parse, its `[workspace].members` is missing or not an
      array, or a lock file is present and does not parse. */
  lemma ReduceErrors(rc: Recipe, i: int)
    requires FirstRootAt(rc.skeleton.manifests, i)
    ensures var root := rc.skeleton.manifests[i];
      && (Parse(root.contents).None? ==> ReduceSpec(rc) == Failure(RootManifestNotToml))
      && (Parse(root.contents).Some? ==>
           var item := Parse(root.contents).value.workspaceMembers;
           && (item.Absent? ==> ReduceSpec(rc) == Failure(WorkspaceMembersMissing))
           && (item.NotArray? ==> ReduceSpec(rc) == Failure(WorkspaceMembersNotArray))
           && (item.Array? ==>
                var lock := rc.skeleton.lockFile;
                && (lock.Some? && Parse(lock.value).None? ==> ReduceSpec(rc) == Failure(LockFileNotToml))
                && (lock.None? || Parse(lock.value).Some? ==> ReduceSpec(rc).Success?)))
  {
    var ms := rc.skeleton.manifests;
    FirstRootFound(ms, i);
    assert RootMembers(ms) == GetRootWorkspaceMembers(ms[i]);
  }

  /** The inputs a reduction succeeds on: the root manifest lists its
      members, and a lock file, if present, parses. */
  predicate Reducible(rc: Recipe) {
    && RootMembers(rc.skeleton.manifests).Success?
    && (rc.skeleton.lockFile.None? || Parse(rc.skeleton.lockFile.value).Some?)
  }

  /** Nothing but the failures above stops a reduction. */
  lemma ReduceSucceeds(rc: Recipe)
    ensures ReduceSpec(rc).Success? <==> Reducible(rc)
  {
  }

  /** A reduction leaves everything but the manifests and the lock file as
      it was, keeps the manifests in order, and keeps a lock file present. */
  lemma ReduceTouchesOnlyManifestsAndLock(rc: Recipe)
    requires Reducible(rc)
    ensures ReduceSpec(rc).value.skeleton.otherFiles == rc.skeleton.otherFiles
    ensures IsSubsequence(ReduceSpec(rc).value.skeleton.manifests, rc.skeleton.manifests)
    ensures ReduceSpec(rc).value.skeleton.lockFile.Some? == rc.skeleton.lockFile.Some?
  {
  }

  /** A manifest of the input survives exactly when it is virtual or its
      crate is reachable from a root over workspace dependencies. */
  lemma ReduceKeepsReachableManifests(rc: Recipe, roots: set<string>)
    requires RootMembers(rc.skeleton.manifests) == Success(roots)
    requires rc.skeleton.lockFile.None? || Parse(rc.skeleton.lockFile.value).Some?
    ensures ReduceSpec(rc).Success?
    ensures forall m :: m in ReduceSpec(rc).value.skeleton.manifests <==>
      && m in rc.skeleton.manifests
      && (CrateName(m).None? || Reachable(WorkspaceGraph(rc.skeleton.manifests), roots, CrateName(m).value))
  {
  }

  /** Every virtual manifest survives; so does the root manifest when it
      names no crate. */
  lemma ReduceKeepsVirtualManifests(rc: Recipe, roots: set<string>, m: Manifest)
    requires RootMembers(rc.skeleton.manifests) == Success(roots)
    requires rc.skeleton.lockFile.None? || Parse(rc.skeleton.lockFile.value).Some?
    requires m in rc.skeleton.manifests
    requires CrateName(m).None?
    ensures m in ReduceSpec(rc).value.skeleton.manifests
  {
  }

  /** A lock entry survives, as often as it occurred, when it has no name,
      names a crate outside the workspace, or names a reachable member; every
      other entry is dropped. */
  lemma ReduceLockEntries(rc: Recipe, roots: set<string>)
    requires RootMembers(rc.skeleton.manifests) == Success(roots)
    requires rc.skeleton.lockFile.Some? && rc.skeleton.lockFile.value.Document?
    requires rc.skeleton.lockFile.value.doc.packages.Some?
    ensures ReduceSpec(rc).Success?
    ensures var doc := rc.skeleton.lockFile.value.doc;
      var entries := doc.packages.value;
      var lock := ReduceSpec(rc).value.skeleton.lockFile;
      && lock.Some? && Parse(lock.value).Some?
      && var doc' := Parse(lock.value).value;
      && doc'.rest == doc.rest
      && doc'.packages.Some?
      && IsSubsequence(doc'.packages.value, entries)
      && forall e :: multiset(doc'.packages.value)[e] ==
           if || e.name.None?
              || e.name.value !in AllWorkspaceMembers(rc.skeleton.manifests)
              || Reachable(WorkspaceGraph(rc.skeleton.manifests), roots, e.name.value)
           then multiset(entries)[e] else 0
  {
  }

  /** When every workspace member is reachable from the roots, the reduced
      recipe is the input recipe. */
  lemma ReduceFullMembership(rc: Recipe, roots: set<string>)
    requires RootMembers(rc.skeleton.manifests) == Success(roots)
    requires forall n :: n in AllWorkspaceMembers(rc.skeleton.manifests) ==>
      Reachable(WorkspaceGraph(rc.skeleton.manifests), roots, n)
    requires rc.skeleton.lockFile.None? || Parse(rc.skeleton.lockFile.value).Some?
    ensures ReduceSpec(rc) == Success(rc)
  {
    var ms := rc.skeleton.manifests;
    var members := AllWorkspaceMembers(ms);
    var keep := KeepSet(roots, WorkspaceGraph(ms));
    FilterManifestsKeepsAll(ms, keep);
    FilterLockfileKeepsAll(rc.skeleton.lockFile, members, keep);
  }
}
