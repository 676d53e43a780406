/**
 * The installer resolver `checkAndGetInstaller`: from a starting directory it
 * walks up to the nearest directory holding `package.json`, records what it
 * finds there, and chooses the package manager to install with.
 */
module Installer {
  import opened Wrappers
  import opened Filesystem

  const PackageJson: string := "package.json"
  const PackageLock: string := "package.lock"
  const YarnLock: string := "yarn.lock"
  const ExpoDependency: string := "expo"

  /** The package managers the resolver chooses among. */
  datatype Installer = Expo | Yarn | Npm

  /** The name the resolver returns for an installer. */
  function Name(i: Installer): (s: string)
    ensures s == "expo" <==> i == Expo
    ensures s == "yarn" <==> i == Yarn
    ensures s == "npm" <==> i == Npm
  {
    match i
    case Expo => "expo"
    case Yarn => "yarn"
    case Npm => "npm"
  }

  /** The diagnostic flags returned with the decision. */
  datatype SearchState = SearchState(
    isPackageJsonFound: bool,
    isExpoFound: bool,
    isNpmPackageLockFound: bool,
    isYarnPackageLockFound: bool)

  /** Every flag starts out false. */
  const InitialState := SearchState(false, false, false, false)

  /** The result: installer and root directory are `null` (None) when no
      manifest was found. */
  datatype Resolution = Resolution(
    installer: Option<Installer>,
    rootDirectory: Option<Path>,
    state: SearchState)

  predicate HasManifest(fs: FileSystem, p: Path)
  {
    PackageJson in Entries(fs, p)
  }

  /** `d` is the nearest directory holding a manifest on the way from `p` up:
      an ancestor of `p` (or `p` itself) with `package.json`, and no directory
      strictly between the two has one. */
  ghost predicate NearestManifestAt(fs: FileSystem, p: Path, d: Path)
  {
    && d <= p
    && HasManifest(fs, d)
    && forall k :: |d| < k <= |p| ==> !HasManifest(fs, p[..k])
  }

  /** No directory from `p` up to the root, both included, holds a manifest. */
  ghost predicate NoManifestUpTo(fs: FileSystem, p: Path)
  {
    forall k :: 0 <= k <= |p| ==> !HasManifest(fs, p[..k])
  }

  /** The recursive specification of the upward search: the directory itself
      if it holds a manifest, else the search from its parent, and nothing
      once the root has been passed. */
  function NearestManifest(fs: FileSystem, p: Path): (r: Option<Path>)
    ensures r.Some? ==> NearestManifestAt(fs, p, r.value)
    ensures r.None? ==> NoManifestUpTo(fs, p)
    decreases |p|
  {
    if HasManifest(fs, p) then
      Some(p)
    else if p == [] then
      None
    else
      assert p[..|p|] == p;
      assert forall k :: 0 <= k < |p| ==> p[..k] == Parent(p)[..k];
      NearestManifest(fs, Parent(p))
  }

  /** The four flags as recorded in a manifest directory `d`. */
  function ManifestState(fs: FileSystem, d: Path): (s: SearchState)
    ensures s.isPackageJsonFound
    ensures s.isExpoFound <==>
      d in fs && fs[d].manifest.Parsed? && ExpoDependency in fs[d].manifest.dependencies
    ensures s.isNpmPackageLockFound <==> d in fs && PackageLock in fs[d].entries
    ensures s.isYarnPackageLockFound <==> d in fs && YarnLock in fs[d].entries
  {
    SearchState(
      isPackageJsonFound := true,
      isExpoFound := ExpoDependency in Dependencies(fs, d),
      isNpmPackageLockFound := PackageLock in Entries(fs, d),
      isYarnPackageLockFound := YarnLock in Entries(fs, d))
  }

  /** The precedence rule: expo, then yarn.lock, then package.lock, then yarn
      if it is installed, else npm. */
  function Decide(s: SearchState, yarnInstalled: bool): (r: Installer)
    ensures r == Expo <==> s.isExpoFound
    ensures r == Yarn <==>
      !s.isExpoFound && (s.isYarnPackageLockFound || (!s.isNpmPackageLockFound && yarnInstalled))
    ensures r == Npm <==>
      !s.isExpoFound && !s.isYarnPackageLockFound && (s.isNpmPackageLockFound || !yarnInstalled)
  {
    if s.isExpoFound then Expo
    else if s.isYarnPackageLockFound then Yarn
    else if s.isNpmPackageLockFound then Npm
    else if yarnInstalled then Yarn
    else Npm
  }

  /** The functional specification of the whole resolver. */
  function Resolve(fs: FileSystem, start: Path, yarnInstalled: bool): (r: Resolution)
    ensures r.rootDirectory.None? ==>
      NoManifestUpTo(fs, start) && r.installer == None && r.state == InitialState
    ensures r.rootDirectory.Some? ==>
      && NearestManifestAt(fs, start, r.rootDirectory.value)
      && r.state == ManifestState(fs, r.rootDirectory.value)
      && r.installer == Some(Decide(r.state, yarnInstalled))
  {
    match NearestManifest(fs, start)
    case None => Resolution(None, None, InitialState)
    case Some(d) =>
      var s := ManifestState(fs, d);
      Resolution(Some(Decide(s, yarnInstalled)), Some(d), s)
  }

  /** The resolver as a walk: look at the current directory, record the flags
      and stop at the first one holding `package.json`, otherwise move to the
      parent, until the root has been looked at. Then decide. */
  method CheckAndGetInstaller(fs: FileSystem, start: Path, yarnInstalled: bool)
    returns (res: Resolution)
    ensures res == Resolve(fs, start, yarnInstalled)
  {
    var state := InitialState;
    var rootDirectory: Option<Path> := None;
    var current := start;
    while true
      invariant NearestManifest(fs, current) == NearestManifest(fs, start)
      invariant rootDirectory == None && state == InitialState
      decreases |current|
    {
      var entries := Entries(fs, current);
      if PackageJson in entries {
        state := state.(isPackageJsonFound := true);
        state := state.(isExpoFound := ExpoDependency in Dependencies(fs, current));
        state := state.(isNpmPackageLockFound := PackageLock in entries);
        state := state.(isYarnPackageLockFound := YarnLock in entries);
        rootDirectory := Some(current);
        break;
      }
      if current == [] {
        break;
      }
      current := Parent(current);
    }
    var installer: Option<Installer> := None;
    if state.isPackageJsonFound {
      installer := Some(Decide(state, yarnInstalled));
    }
    res := Resolution(installer, rootDirectory, state);
  }
}
