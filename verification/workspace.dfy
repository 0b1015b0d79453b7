/** Reading the workspace out of a recipe's manifests: the root manifest, the
    roots it lists, the crate names of all members, and the dependency graph
    among them (src/lib.rs:63-122, 179-186). */
module Workspace {
  import opened Results
  import opened Toml
  import opened Recipes
  import opened Graph

  /** `extract_crate_name`: `[package].name` when the manifest parses and the
      name is a string; `None` marks a virtual or unreadable manifest. */
  function CrateName(m: Manifest): (r: Option<string>)
    ensures r.Some? <==> m.contents.Document? && m.contents.doc.packageName.Some?
    ensures r.Some? ==> r.value == m.contents.doc.packageName.value
  {
    match Parse(m.contents)
    case None => None
    case Some(doc) => doc.packageName
  }

  /** `ms[i]` is the first manifest at the root path. */
  ghost predicate FirstRootAt(ms: seq<Manifest>, i: int) {
    && 0 <= i < |ms|
    && ms[i].relativePath == RootPath
    && forall j :: 0 <= j < i ==> ms[j].relativePath != RootPath
  }

  /** `get_root_manifest`: the first manifest whose path is `Cargo.toml`. */
  function GetRootManifest(ms: seq<Manifest>): (r: Result<Manifest, ReduceError>)
    ensures r.Success? <==> exists i :: 0 <= i < |ms| && ms[i].relativePath == RootPath
    ensures r.Success? ==> exists i :: FirstRootAt(ms, i) && ms[i] == r.value
    ensures r.Failure? ==> r.error == RootManifestNotFound
    decreases |ms|
  {
    if ms == [] then Failure(RootManifestNotFound)
    else if ms[0].relativePath == RootPath then
      assert FirstRootAt(ms, 0);
      Success(ms[0])
    else
      var r := GetRootManifest(ms[1..]);
      assert forall i :: 0 <= i < |ms| - 1 ==> ms[1..][i] == ms[i + 1];
      assert forall i :: FirstRootAt(ms[1..], i) ==> FirstRootAt(ms, i + 1);
      r
  }

  /** The root manifest found is the first one at the root path. */
  lemma FirstRootFound(ms: seq<Manifest>, i: int)
    requires FirstRootAt(ms, i)
    ensures GetRootManifest(ms) == Success(ms[i])
  {
    assert GetRootManifest(ms).Success?;
    var j :| FirstRootAt(ms, j) && ms[j] == GetRootManifest(ms).value;
    assert ms[i].relativePath == RootPath == ms[j].relativePath;
  }

  /** The string entries of a members array; other values are dropped. */
  function StringEntries(entries: seq<Option<string>>): (r: set<string>)
    ensures forall s :: s in r <==> Some(s) in entries
    decreases |entries|
  {
    if entries == [] then {}
    else
      assert entries == [entries[0]] + entries[1..];
      var rest := StringEntries(entries[1..]);
      match entries[0]
      case None => rest
      case Some(s) => {s} + rest
  }

  /** `get_root_workspace_members`: every string in `[workspace].members`
      is a root. The root manifest must parse and the members must be an
      array; nothing else is required of it. */
  function GetRootWorkspaceMembers(root: Manifest): (r: Result<set<string>, ReduceError>)
    ensures Parse(root.contents).None? <==> r == Failure(RootManifestNotToml)
    ensures r.Success? <==>
      Parse(root.contents).Some? && Parse(root.contents).value.workspaceMembers.Array?
    ensures r.Success? ==>
      forall s :: s in r.value <==> Some(s) in Parse(root.contents).value.workspaceMembers.entries
  {
    match Parse(root.contents)
    case None => Failure(RootManifestNotToml)
    case Some(doc) =>
      match doc.workspaceMembers
      case Absent => Failure(WorkspaceMembersMissing)
      case NotArray => Failure(WorkspaceMembersNotArray)
      case Array(entries) => Success(StringEntries(entries))
  }

  /** `get_all_workspace_members`: the crate names of all manifests. */
  function AllWorkspaceMembers(ms: seq<Manifest>): (r: set<string>)
    ensures forall n :: n in r <==> exists m :: m in ms && CrateName(m) == Some(n)
    decreases |ms|
  {
    if ms == [] then {}
    else
      assert ms == [ms[0]] + ms[1..];
      var rest := AllWorkspaceMembers(ms[1..]);
      match CrateName(ms[0])
      case None => rest
      case Some(n) => {n} + rest
  }

  /** The keys of a `[dependencies]` table that name workspace members. */
  function MemberKeys(keys: seq<string>, members: set<string>): (r: set<string>)
    ensures forall d :: d in r <==> d in keys && d in members
    decreases |keys|
  {
    if keys == [] then {}
    else
      assert keys == [keys[0]] + keys[1..];
      var rest := MemberKeys(keys[1..], members);
      if keys[0] in members then {keys[0]} + rest else rest
  }

  /** The workspace dependencies one manifest declares: none when it does
      not parse or has no `[dependencies]` table. */
  function ManifestDeps(m: Manifest, members: set<string>): (r: set<string>)
    ensures r <= members
    ensures forall d :: d in r <==>
      && Parse(m.contents).Some?
      && Parse(m.contents).value.dependencies.Some?
      && d in Parse(m.contents).value.dependencies.value
      && d in members
  {
    match Parse(m.contents)
    case None => {}
    case Some(doc) =>
      match doc.dependencies
      case None => {}
      case Some(keys) => MemberKeys(keys, members)
  }

  /** `build_workspace_deps`: one entry per named manifest, mapping its name to
      its workspace dependencies. Manifests are visited in order and a later
      manifest with the same name overwrites an earlier one. */
  function BuildWorkspaceDeps(ms: seq<Manifest>, members: set<string>): (r: Deps)
    ensures forall n :: n in r <==> exists m :: m in ms && CrateName(m) == Some(n)
    ensures forall n :: n in r ==> r[n] <= members
    decreases |ms|
  {
    if ms == [] then map[]
    else
      var init := ms[..|ms| - 1];
      assert ms == init + [ms[|ms| - 1]];
      var prev := BuildWorkspaceDeps(init, members);
      match CrateName(ms[|ms| - 1])
      case None => prev
      case Some(n) => prev[n := ManifestDeps(ms[|ms| - 1], members)]
  }

  /** `ms[i]` is the last manifest named `n`. */
  ghost predicate LastNamed(ms: seq<Manifest>, n: string, i: int) {
    && 0 <= i < |ms|
    && CrateName(ms[i]) == Some(n)
    && forall j :: i < j < |ms| ==> CrateName(ms[j]) != Some(n)
  }

  /** The dependencies recorded for a name are those of the last manifest
      carrying that name. */
  lemma {:induction false} BuildWorkspaceDepsLastWins(ms: seq<Manifest>, members: set<string>, n: string, i: int)
    requires LastNamed(ms, n, i)
    ensures n in BuildWorkspaceDeps(ms, members)
    ensures BuildWorkspaceDeps(ms, members)[n] == ManifestDeps(ms[i], members)
    decreases |ms|
  {
    var init := ms[..|ms| - 1];
    if i < |ms| - 1 {
      assert LastNamed(init, n, i);
      BuildWorkspaceDepsLastWins(init, members, n, i);
    }
  }
}
