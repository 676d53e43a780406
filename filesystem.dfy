/**
 * An abstract, read-only filesystem: a directory is identified by its path,
 * a sequence of segments from the root, and holds a set of entry names and
 * the (already parsed) contents of its `package.json`, if it has one.
 */
module Filesystem {
  /** A path as its segments; the filesystem root is `[]`. */
  type Path = seq<string>

  /** What reading `package.json` yields: the keys of its top-level
      `dependencies` mapping, or a file that could not be parsed. */
  datatype Manifest = Parsed(dependencies: set<string>) | Unparsable

  /** A directory: the names of its entries and its manifest contents
      (meaningful only when `package.json` is among the entries). */
  datatype Dir = Dir(entries: set<string>, manifest: Manifest)

  /** Directories that can be listed. A path that is absent stands for a
      directory that does not exist or cannot be read. */
  type FileSystem = map<Path, Dir>

  /** The parent directory: the path without its last segment. */
  function Parent(p: Path): (q: Path)
    requires p != []
    ensures |q| == |p| - 1 && q < p
  {
    p[..|p| - 1]
  }

  /** The entries of a directory; an unreadable or missing one has none. */
  function Entries(fs: FileSystem, p: Path): set<string>
  {
    if p in fs then fs[p].entries else {}
  }

  /** The dependency keys of the directory's manifest; a manifest that does
      not parse, or a missing directory, contributes none. */
  function Dependencies(fs: FileSystem, p: Path): set<string>
  {
    if p in fs then
      match fs[p].manifest
      case Parsed(deps) => deps
      case Unparsable => {}
    else {}
  }
}
