/** The recipe a cargo-chef `prepare` step writes, as far as the reduction
    sees it, and the ways a reduction can fail. */
module Recipes {
  import opened Results
  import opened Toml

  /** The relative path of the workspace's root manifest. */
  const RootPath: string := "Cargo.toml"

  datatype Manifest = Manifest(relativePath: string, contents: TomlText<ManifestDoc>)

  /** `otherFiles` stands for the skeleton's remaining fields, which the
      reduction copies and never reads. */
  datatype Skeleton = Skeleton(
    manifests: seq<Manifest>,
    lockFile: Option<TomlText<LockDoc>>,
    otherFiles: string)

  datatype Recipe = Recipe(skeleton: Skeleton)

  datatype ReduceError =
    | RootManifestNotFound      // no manifest at `Cargo.toml`
    | RootManifestNotToml       // the root manifest does not parse
    | WorkspaceMembersMissing   // nothing at `[workspace].members`
    | WorkspaceMembersNotArray  // `[workspace].members` is not an array
    | LockFileNotToml           // the lock file does not parse
}
