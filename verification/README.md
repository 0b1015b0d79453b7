# Workspace recipe reduction, in Dafny

A model of the core of cargo-reduce-recipe: `reduce_workspace_recipe`, which
takes a cargo-chef recipe (the manifests and lock file of a Cargo workspace)
and keeps only the workspace crates reachable from the roots listed under
`[workspace].members` of the root `Cargo.toml`.

The pipeline has five steps, and each step has its own module:

1. Find the root manifest: the first manifest whose path is `Cargo.toml`
   (`Workspace.GetRootManifest`).
2. Read the roots: every string in `[workspace].members`
   (`Workspace.GetRootWorkspaceMembers`). This is the multi-root policy the code uses.
3. Build the workspace graph. The members are all crate names
   (`Workspace.AllWorkspaceMembers`). Each named crate maps to the keys of its
   `[dependencies]` table that are members (`Workspace.BuildWorkspaceDeps`).
4. Compute the keep set with a worklist closure from the roots
   (`Reach.ComputeTransitiveMembers`).
5. Prune a copy of the recipe. A manifest survives when it names no crate or
   its crate is kept (`Prune.FilterManifests`). A `[[package]]` entry of the
   lock file is dropped only when it names a member outside the keep set
   (`Prune.FilterLockfileMembers`).

`Graph` defines the keep set declaratively: the names reachable from a root
by a path of dependency edges. It proves that this set holds the roots, is
closed under edges, and is the least set that does both. The worklist method
is proved to compute exactly this set, whatever order the hash sets yield their
elements in. `Reduce.ReduceSpec` is the whole reduction with that declarative
keep set. `Reduce.ReduceWorkspaceRecipe` is proved equal to it, and the lemmas
of `Reduce` state its error cases and its effect on manifests and lock entries.

TOML is abstracted (module `Toml`). A text either does not parse
(`Unparsable`) or parses to a document (`Document`). toml_edit keeps the
formatting of what it parsed, so a parsed text is identified with its
document, and printing a document (`Render`) gives back that document. A
manifest document carries only what the code reads: `[package].name` when it
is a string, the keys of `[dependencies]` when it is a table, and
`[workspace].members`. A lock document carries its `[[package]]` entries, each
with its name when that is a string; the rest of the lock document and of each
entry is kept as an opaque string. The rest of a manifest's text is not modelled.

Files: `results.dfy` (Option, Result), `toml.dfy`, `recipes.dfy` (recipe
types and error kinds), `seqs.dfy` (order-preserving `Retain`), `graph.dfy`,
`workspace.dfy`, `reach.dfy`, `prune.dfy`, `reduce.dfy`, and `scenarios.dfy`
(small workspaces worked through the reduction).

A missing `[workspace]` table or a missing `members` key makes the code at
src/lib.rs:80 panic rather than return an error; the model gives it its own
error kind, `WorkspaceMembersMissing` (see "Left out").

The doc comment of `filter_manifests` (src/lib.rs:145-147) describes the root
`Cargo.toml` as a manifest without a package name. That holds only for a
virtual root. A root manifest that also declares `[package].name` is filtered
like any other crate, and is dropped when its crate is not kept
(`Scenarios.ScenarioNamedRootManifest`).

## Model

| member | source | states |
|---|---|---|
| Workspace.CrateName | src/lib.rs:179-186 | a manifest has a crate name iff its text parses and `[package].name` is a string, and the name is then that string; an unparsable manifest has none |
| Workspace.GetRootManifest | src/lib.rs:63-71 | succeeds iff some manifest has path `Cargo.toml`, and then returns the first such manifest; otherwise fails with "root manifest not found" |
| Workspace.FirstRootFound | src/lib.rs:64-70 | when `ms[i]` is the first manifest at `Cargo.toml`, the lookup returns exactly `ms[i]`, even if later manifests share that path |
| Workspace.StringEntries | src/lib.rs:84-87 | a name is a root iff it occurs as a string entry of the members array; entries that are not strings contribute nothing |
| Workspace.GetRootWorkspaceMembers | src/lib.rs:73-88 | fails with "not TOML" iff the root manifest does not parse; succeeds iff it parses and `[workspace].members` is an array; the roots are then exactly its string entries |
| Workspace.AllWorkspaceMembers | src/lib.rs:90-94 | a name is a workspace member iff some manifest yields it as its crate name |
| Workspace.MemberKeys | src/lib.rs:110-116 | a dependency is recorded iff it is a key of the `[dependencies]` table and a workspace member |
| Workspace.ManifestDeps | src/lib.rs:105-116 | a name is recorded as a dependency of one manifest iff the manifest parses, has a `[dependencies]` table, the name is a key of that table, and it is a workspace member; an unparsable manifest or one without the table records none |
| Workspace.BuildWorkspaceDeps | src/lib.rs:96-122 | the graph has exactly one key per extractable crate name, and every value is a subset of the member set |
| Workspace.BuildWorkspaceDepsLastWins | src/lib.rs:103-118 | when two manifests share a crate name, the graph holds the dependencies of the later one |
| Seqs.Retain | src/lib.rs:149-152 | the survivors are an order-preserving subsequence of the input; each element that satisfies the predicate survives as often as it occurred, and no other element survives |
| Graph.KeepSetClosed | src/lib.rs:124-141 | the reachable set contains every root and is closed under dependency edges |
| Graph.KeepSetLeast | src/lib.rs:124-141 | every set that contains the roots and is closed under edges contains the reachable set, so the keep set is the least such set |
| Reach.Enumerate | src/lib.rs:130 | collecting a hash set into a stack yields each element exactly once, in some order |
| Reach.Visit | src/lib.rs:132-137 | one pop keeps the worklist invariant: all names met are reachable, and each root and each dependency of a kept name is kept or still on the stack. Either the set of unvisited names shrinks, or the stack does |
| Reach.ComputeTransitiveMembers | src/lib.rs:124-141 | terminates on any graph, including cyclic ones; the result contains every root, even a root without a graph entry, and is closed under edges; a name is in it iff it is reachable from a root |
| Prune.FilterManifests | src/lib.rs:143-153 | the surviving manifests are an order-preserving subsequence of the input; a manifest survives iff it has no crate name or its name is kept |
| Prune.FilterLockfileMembers | src/lib.rs:155-177 | no lock file gives no lock file. An unparsable lock file is an error, and nothing else is. Otherwise only the `[[package]]` array changes, and it keeps its order. An entry survives iff it has no string name, names a crate outside the workspace, or names a kept crate |
| Prune.FilterManifestsKeepsAll | src/lib.rs:148-153 | when every workspace member is kept, manifest filtering returns the manifests unchanged |
| Prune.FilterLockfileKeepsAll | src/lib.rs:161-176 | when every workspace member is kept, lock filtering returns the lock file unchanged |
| Reduce.ReduceWorkspaceRecipe | src/lib.rs:44-61 | the worklist reduction equals the declarative one, whose keep set is the set of names reachable from the roots |
| Reduce.ReduceRootMissing | src/lib.rs:45 | the reduction fails for want of a root manifest iff no manifest has path `Cargo.toml` |
| Reduce.ReduceErrors | src/lib.rs:44-61 | with the root manifest found, the reduction fails exactly when that manifest does not parse, its members are missing or not an array, or a lock file is present and does not parse; each case has its own error kind, and nothing else fails |
| Reduce.ReduceSucceeds | src/lib.rs:44-61 | the reduction succeeds iff the root manifest is found, parses and lists its members as an array, and the lock file is absent or parses |
| Reduce.ReduceTouchesOnlyManifestsAndLock | src/lib.rs:55-58 | a successful reduction changes only the manifests and the lock file; the manifests stay in order, and a lock file is present afterwards iff it was before |
| Reduce.ReduceKeepsReachableManifests | src/lib.rs:53-56 | when the roots are found and any lock file parses, the reduction succeeds, and a manifest of the input survives iff it is virtual or its crate is reachable from a root over workspace dependencies |
| Reduce.ReduceKeepsVirtualManifests | src/lib.rs:143-153 | every manifest without a crate name survives a successful reduction; this includes the root `Cargo.toml` when it names no crate |
| Reduce.ReduceLockEntries | src/lib.rs:58 | Entries without a string name, and entries naming crates outside the workspace, all survive. A member's entry survives iff the member is reachable from a root. The rest of the lock document and the order of the entries are unchanged |
| Reduce.ReduceFullMembership | src/lib.rs:208-222 | when every workspace member is reachable from the roots and any lock file parses, the reduced recipe equals the input recipe |
| Scenarios.ScenarioUnrelatedMember | src/lib.rs:224-239 | in a workspace `root`, `bar` where `root` depends only on the external `serde`, the reduction drops `bar`'s manifest and lock entry and keeps the entries of `root` and `serde` |
| Scenarios.ScenarioChain | src/lib.rs:208-222 | a chain `root -> a -> b` with the external `anyhow` comes back unchanged; a root that depends on another member, as in the test at src/lib.rs:241-256, keeps that member |
| Scenarios.ScenarioNamedRootManifest | src/lib.rs:148-153 | a root `Cargo.toml` that declares `[package].name = "app"` is dropped when only the member `lib` is kept, and `lib` survives |
| Scenarios.ScenarioNoRootManifest | src/lib.rs:64-71 | a recipe without `Cargo.toml` fails with "root manifest not found" |
| Scenarios.ScenarioBrokenLockFile | src/lib.rs:161-162 | a lock file that does not parse makes the reduction fail |

## Left out

- `reduce_workspace_recipe_file`, `load_recipe`, `save_recipe` and the serde_json (de)serialisation (src/lib.rs:22-29, 189-201): file I/O and JSON.
- TOML parsing and printing by toml_edit: a foreign library. Parse results are abstract values. `Toml.Render` assumes toml_edit's format-preserving round trip, so printing an unchanged document gives back the original text.
- anyhow context messages: errors are an enum of kinds (`Recipes.ReduceError`).
- Hash iteration order: `Reach.Enumerate` returns the elements in an order it does not fix, and every result is proved for any such order.
- Paths that are not valid UTF-8 (`to_str()` returning `None` at src/lib.rs:69): paths are strings.
- The second parse in `build_workspace_deps` (src/lib.rs:106-109): it runs only after `extract_crate_name` parsed the same text, so its error branch cannot be taken. The model parses once.
- The chef crate's `Recipe`, `Skeleton` and `Manifest` types are not part of this model. The skeleton fields the reduction never reads are one opaque value (`otherFiles`).
- The JSON fixtures of the tests (src/lib.rs:208-256) are not part of this model. The scenarios use small workspaces of their own.
- The single-root policy (exactly one `[workspace].members` entry): the code uses the multi-root policy, and that is what is modelled.
- Workspace.GetRootWorkspaceMembers: a missing `[workspace]` table or `members` key panics at src/lib.rs:80 (toml_edit's indexing operator); the model returns the error `WorkspaceMembersMissing` instead, since a panic ends the reduction with no output just as an error does.
- Scenarios.ScenarioUnrelatedMember: states which manifests and lock entries survive, not the exact output sequences.
