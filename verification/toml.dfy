/** An abstract view of the TOML documents the reduction reads.

    Parsing and printing belong to the toml_edit library and are not modelled:
    a text either does not parse, or it parses to a document. toml_edit keeps
    the formatting of what it parsed, so a parsed text is identified with its
    document, and printing a document gives back a text that parses to it. */
module Toml {
  import opened Results

  datatype TomlText<D> = Unparsable(raw: string) | Document(doc: D)

  /** `str::parse` into a toml_edit document; `None` is a parse error. */
  function Parse<D>(t: TomlText<D>): Option<D> {
    match t
    case Unparsable(_) => None
    case Document(d) => Some(d)
  }

  /** `Document::to_string`. */
  function Render<D>(d: D): (t: TomlText<D>)
    ensures Parse(t) == Some(d)
  {
    Document(d)
  }

  /** What `doc["workspace"]["members"]` finds: nothing at that path, an item
      that is not an inline array, or an array whose entries are strings or
      other values (`None` stands for a value that is not a string). */
  datatype MembersItem = Absent | NotArray | Array(entries: seq<Option<string>>)

  /** The parts of a Cargo.toml the reduction reads.
      - packageName: `[package].name`, when it is a string;
      - dependencies: the keys of `[dependencies]`, when that item is a table;
      - workspaceMembers: `[workspace].members`. */
  datatype ManifestDoc = ManifestDoc(
    packageName: Option<string>,
    dependencies: Option<seq<string>>,
    workspaceMembers: MembersItem)

  /** One `[[package]]` table of Cargo.lock: its `name` when that is a string,
      and the rest of the table, kept opaque. */
  datatype LockEntry = LockEntry(name: Option<string>, rest: string)

  /** A parsed Cargo.lock: the `package` array of tables when the document
      has one, and everything else in the document, kept opaque. */
  datatype LockDoc = LockDoc(packages: Option<seq<LockEntry>>, rest: string)
}
