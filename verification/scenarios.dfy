/** Small workspaces worked through the reduction: a crate that nothing
    depends on is pruned together with its lock entry, a dependency chain is
    kept whole, and the two fatal inputs fail with their own error. */
module Scenarios {
  import opened Results
  import opened Toml
  import opened Recipes
  import opened Graph
  import opened Workspace
  import opened Reduce
  import Prune

  function Crate(path: string, name: string, deps: seq<string>): Manifest {
    Manifest(path, Document(ManifestDoc(Some(name), Some(deps), Absent)))
  }

  function WorkspaceRoot(members: seq<Option<string>>): Manifest {
    Manifest(RootPath, Document(ManifestDoc(None, None, Array(members))))
  }

  function Entry(name: string): LockEntry {
    LockEntry(Some(name), "version = \"0.1.0\"")
  }

  /** A workspace of `root` and an unrelated `bar`; `root` depends only on
      the external `serde`. */
  const BarTop := WorkspaceRoot([Some("root")])
  const BarRoot := Crate("root/Cargo.toml", "root", ["serde"])
  const BarBar := Crate("bar/Cargo.toml", "bar", [])
  const BarLock := LockDoc(Some([Entry("bar"), Entry("root"), Entry("serde")]), "version = 3")
  const BarRecipe := Recipe(Skeleton([BarTop, BarRoot, BarBar], Some(Document(BarLock)), ""))

  lemma BarGraph()
    ensures RootMembers(BarRecipe.skeleton.manifests) == Success({"root"})
    ensures AllWorkspaceMembers(BarRecipe.skeleton.manifests) == {"root", "bar"}
    ensures WorkspaceGraph(BarRecipe.skeleton.manifests) == map["root" := {}, "bar" := {}]
  {
    var ms := [BarTop, BarRoot, BarBar];
    assert RootMembers(ms) == Success({"root"}) by {
      assert GetRootManifest(ms) == Success(BarTop);
      assert StringEntries([Some("root")]) == {"root"};
    }
    assert AllWorkspaceMembers(ms) == {"root", "bar"} by {
      assert CrateName(BarTop) == None;
      assert CrateName(BarRoot) == Some("root");
      assert CrateName(BarBar) == Some("bar");
      assert ms[1..] == [BarRoot, BarBar] && [BarRoot, BarBar][1..] == [BarBar] && [BarBar][1..] == [];
      assert AllWorkspaceMembers([BarBar]) == {"bar"};
      assert AllWorkspaceMembers([BarRoot, BarBar]) == {"root", "bar"};
    }
    BarDeps();
  }

  lemma BarDeps()
    ensures BuildWorkspaceDeps([BarTop, BarRoot, BarBar], {"root", "bar"}) == map["root" := {}, "bar" := {}]
  {
    var ms := [BarTop, BarRoot, BarBar];
    var members := {"root", "bar"};
    assert CrateName(BarTop) == None;
    assert CrateName(BarRoot) == Some("root");
    assert CrateName(BarBar) == Some("bar");
    assert ManifestDeps(BarRoot, members) == {};
    assert ManifestDeps(BarBar, members) == {};
    assert ms[..2] == [BarTop, BarRoot] && [BarTop, BarRoot][..1] == [BarTop];
    assert BuildWorkspaceDeps([BarTop], members) == map[];
    assert BuildWorkspaceDeps([BarTop, BarRoot], members) == map["root" := {}];
  }

  /** Reducing to `root` drops `bar`'s manifest and lock entry, and keeps the
      workspace manifest, `root`'s manifest and the lock entries of `root` and
      of the external `serde`. */
  lemma ScenarioUnrelatedMember()
    ensures ReduceSpec(BarRecipe).Success?
    ensures var out := ReduceSpec(BarRecipe).value.skeleton;
      && BarTop in out.manifests && BarRoot in out.manifests && BarBar !in out.manifests
      && out.lockFile.Some? && Parse(out.lockFile.value).Some?
      && var entries := Parse(out.lockFile.value).value.packages;
      && entries.Some?
      && Entry("root") in entries.value && Entry("serde") in entries.value
      && Entry("bar") !in entries.value
  {
    assert ReduceSpec(BarRecipe) == PruneRecipe(BarRecipe, {"root", "bar"}, {"root"}) by {
      BarGraph();
      BarKeep();
    }
    assert CrateName(BarTop) == None;
    assert CrateName(BarRoot) == Some("root");
    assert CrateName(BarBar) == Some("bar");
    BarLockPruned();
  }

  lemma BarKeep()
    ensures KeepSet({"root"}, map["root" := {}, "bar" := {}]) == {"root"}
  {
    var deps: Deps := map["root" := {}, "bar" := {}];
    KeepSetClosed({"root"}, deps);
    KeepSetLeast({"root"}, deps, {"root"});
  }

  lemma BarLockPruned()
    ensures var lock := Prune.FilterLockfileMembers(Some(Document(BarLock)), {"root", "bar"}, {"root"});
      && lock.Success? && lock.value.Some? && Parse(lock.value.value).Some?
      && var entries := Parse(lock.value.value).value.packages;
      && entries.Some?
      && Entry("root") in entries.value && Entry("serde") in entries.value
      && Entry("bar") !in entries.value
  {
    assert !Prune.KeepLockEntry(Entry("bar"), {"root", "bar"}, {"root"});
    var lock := Prune.FilterLockfileMembers(Some(Document(BarLock)), {"root", "bar"}, {"root"});
    var kept := Parse(lock.value.value).value.packages.value;
    var given := BarLock.packages.value;
    assert Prune.LockPruned(BarLock, Parse(lock.value.value).value, {"root", "bar"}, {"root"});
    assert multiset(given)[Entry("root")] > 0 && multiset(given)[Entry("serde")] > 0;
    assert multiset(kept)[Entry("root")] > 0 && multiset(kept)[Entry("serde")] > 0;
    assert multiset(kept)[Entry("bar")] == 0;
  }

  /** A chain `root -> a -> b`; `root` also uses the external `anyhow`. */
  const ChainTop := WorkspaceRoot([Some("root")])
  const ChainRoot := Crate("root/Cargo.toml", "root", ["a", "anyhow"])
  const ChainA := Crate("a/Cargo.toml", "a", ["b"])
  const ChainB := Crate("b/Cargo.toml", "b", [])
  const ChainLock := LockDoc(Some([Entry("a"), Entry("anyhow"), Entry("b"), Entry("root")]), "")
  const ChainRecipe := Recipe(Skeleton([ChainTop, ChainRoot, ChainA, ChainB], Some(Document(ChainLock)), ""))

  lemma ChainGraph()
    ensures RootMembers(ChainRecipe.skeleton.manifests) == Success({"root"})
    ensures AllWorkspaceMembers(ChainRecipe.skeleton.manifests) == {"root", "a", "b"}
    ensures WorkspaceGraph(ChainRecipe.skeleton.manifests) == map["root" := {"a"}, "a" := {"b"}, "b" := {}]
  {
    ChainRoots();
    ChainMembers();
    ChainDeps();
  }

  lemma ChainRoots()
    ensures RootMembers(ChainRecipe.skeleton.manifests) == Success({"root"})
  {
    var ms := [ChainTop, ChainRoot, ChainA, ChainB];
    assert GetRootManifest(ms) == Success(ChainTop);
    assert StringEntries([Some("root")]) == {"root"};
  }

  lemma ChainMembers()
    ensures AllWorkspaceMembers([ChainTop, ChainRoot, ChainA, ChainB]) == {"root", "a", "b"}
  {
    var ms := [ChainTop, ChainRoot, ChainA, ChainB];
    assert CrateName(ChainTop) == None;
    assert CrateName(ChainRoot) == Some("root");
    assert CrateName(ChainA) == Some("a");
    assert CrateName(ChainB) == Some("b");
    assert ms[1..] == [ChainRoot, ChainA, ChainB];
    assert [ChainRoot, ChainA, ChainB][1..] == [ChainA, ChainB];
    assert [ChainA, ChainB][1..] == [ChainB] && [ChainB][1..] == [];
    assert AllWorkspaceMembers([ChainB]) == {"b"};
    assert AllWorkspaceMembers([ChainA, ChainB]) == {"a", "b"};
    assert AllWorkspaceMembers([ChainRoot, ChainA, ChainB]) == {"root", "a", "b"};
  }

  lemma ChainDeps()
    ensures BuildWorkspaceDeps([ChainTop, ChainRoot, ChainA, ChainB], {"root", "a", "b"})
      == map["root" := {"a"}, "a" := {"b"}, "b" := {}]
  {
    var ms := [ChainTop, ChainRoot, ChainA, ChainB];
    var members := {"root", "a", "b"};
    assert CrateName(ChainTop) == None;
    assert CrateName(ChainRoot) == Some("root");
    assert CrateName(ChainA) == Some("a");
    assert CrateName(ChainB) == Some("b");
    assert ManifestDeps(ChainRoot, members) == {"a"};
    assert ManifestDeps(ChainA, members) == {"b"};
    assert ManifestDeps(ChainB, members) == {};
    assert ms[..3] == [ChainTop, ChainRoot, ChainA];
    assert [ChainTop, ChainRoot, ChainA][..2] == [ChainTop, ChainRoot];
    assert [ChainTop, ChainRoot][..1] == [ChainTop];
    assert BuildWorkspaceDeps([ChainTop], members) == map[];
    assert BuildWorkspaceDeps([ChainTop, ChainRoot], members) == map["root" := {"a"}];
    assert BuildWorkspaceDeps([ChainTop, ChainRoot, ChainA], members) == map["root" := {"a"}, "a" := {"b"}];
  }

  /** Every crate of the chain is reachable from `root`, so the recipe comes
      back unchanged. */
  lemma ScenarioChain()
    ensures ReduceSpec(ChainRecipe) == Success(ChainRecipe)
  {
    ChainRoots();
    ChainAllReachable();
    ReduceFullMembership(ChainRecipe, {"root"});
  }

  lemma ChainAllReachable()
    ensures forall n :: n in AllWorkspaceMembers(ChainRecipe.skeleton.manifests) ==>
      Reachable(WorkspaceGraph(ChainRecipe.skeleton.manifests), {"root"}, n)
  {
    ChainGraph();
    ChainReachable();
  }

  lemma ChainReachable()
    ensures forall n :: n in {"root", "a", "b"} ==>
      Reachable(map["root" := {"a"}, "a" := {"b"}, "b" := {}], {"root"}, n)
  {
    var deps: Deps := map["root" := {"a"}, "a" := {"b"}, "b" := {}];
    RootReachable(deps, {"root"}, "root");
    ReachableStep(deps, {"root"}, "root", "a");
    ReachableStep(deps, {"root"}, "a", "b");
  }

  /** A root `Cargo.toml` that also declares `[package].name = "app"` is not
      virtual: reducing to the member `lib` drops it. */
  lemma ScenarioNamedRootManifest()
    ensures
      var top := Manifest(RootPath, Document(ManifestDoc(Some("app"), None, Array([Some("lib")]))));
      var lib := Crate("lib/Cargo.toml", "lib", []);
      var kept := Prune.FilterManifests([top, lib], {"lib"});
      top !in kept && lib in kept
  {
    var top := Manifest(RootPath, Document(ManifestDoc(Some("app"), None, Array([Some("lib")]))));
    assert CrateName(top) == Some("app");
    assert "app" !in {"lib"};
  }

  /** No manifest at `Cargo.toml`: the reduction fails. */
  lemma ScenarioNoRootManifest()
    ensures
      var rc := Recipe(Skeleton([Crate("root/Cargo.toml", "root", [])], None, ""));
      ReduceSpec(rc) == Failure(RootManifestNotFound)
  {
  }

  /** A lock file that does not parse: the reduction fails. */
  lemma ScenarioBrokenLockFile()
    ensures
      var rc := Recipe(Skeleton([WorkspaceRoot([Some("root")])], Some(Unparsable("[[package")), ""));
      ReduceSpec(rc) == Failure(LockFileNotToml)
  {
    assert FirstRootAt([WorkspaceRoot([Some("root")])], 0);
  }
}
