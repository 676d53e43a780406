/**
 * What the resolver promises about its result, stated over the functional
 * specification `Resolve` (which the walk `CheckAndGetInstaller` is proved
 * to compute).
 */
module InstallerProperties {
  import opened Wrappers
  import opened Filesystem
  import opened Installer

  /** The recursive search finds exactly the nearest manifest: the two
      descriptions of "nearest enclosing manifest" agree. */
  lemma NearestManifestUnique(fs: FileSystem, p: Path, d: Path)
    ensures NearestManifest(fs, p) == Some(d) <==> NearestManifestAt(fs, p, d)
  {
    var r := NearestManifest(fs, p);
    if r.Some? {
      assert p[..|r.value|] == r.value;
    }
    if d <= p {
      assert p[..|d|] == d;
    }
  }

  /** The search finds nothing exactly when no directory from the start up to
      the root holds a manifest. */
  lemma NoManifestFound(fs: FileSystem, p: Path)
    ensures NearestManifest(fs, p) == None <==> NoManifestUpTo(fs, p)
  {
    var r := NearestManifest(fs, p);
    if r.Some? {
      assert p[..|r.value|] == r.value;
    }
  }

  /** No manifest anywhere on the way up: installer and root directory are
      null and every flag is false; and only then. */
  lemma NoPackageJson(fs: FileSystem, p: Path, yarnInstalled: bool)
    ensures NoManifestUpTo(fs, p) <==>
            Resolve(fs, p, yarnInstalled) == Resolution(None, None, SearchState(false, false, false, false))
  {
    NoManifestFound(fs, p);
  }

  /** The three "not found" signals always agree. */
  lemma NullExactlyWhenNotFound(fs: FileSystem, p: Path, yarnInstalled: bool)
    ensures var r := Resolve(fs, p, yarnInstalled);
            && (r.installer == None <==> r.rootDirectory == None)
            && (r.rootDirectory == None <==> !r.state.isPackageJsonFound)
  {
  }

  /** The root directory reported is the nearest directory holding a manifest,
      and the flags report what that directory contains, whatever the
      decision. */
  lemma ReportedRootAndFlags(fs: FileSystem, p: Path, yarnInstalled: bool, d: Path)
    requires Resolve(fs, p, yarnInstalled).rootDirectory == Some(d)
    ensures NearestManifestAt(fs, p, d)
    ensures Resolve(fs, p, yarnInstalled).state == SearchState(
      isPackageJsonFound := true,
      isExpoFound := ExpoDependency in Dependencies(fs, d),
      isNpmPackageLockFound := PackageLock in Entries(fs, d),
      isYarnPackageLockFound := YarnLock in Entries(fs, d))
  {
  }

  /** An expo dependency in the nearest manifest selects expo, whatever
      lockfiles exist; the lock flags still report their presence. */
  lemma ExpoProject(fs: FileSystem, p: Path, d: Path, yarnInstalled: bool)
    requires NearestManifestAt(fs, p, d)
    requires ExpoDependency in Dependencies(fs, d)
    ensures Resolve(fs, p, yarnInstalled) == Resolution(
      Some(Expo), Some(d),
      SearchState(true, true, PackageLock in Entries(fs, d), YarnLock in Entries(fs, d)))
  {
    NearestManifestUnique(fs, p, d);
  }

  /** Without expo, a `yarn.lock` selects yarn, whether or not a
      `package.lock` is also present. */
  lemma YarnLockProject(fs: FileSystem, p: Path, d: Path, yarnInstalled: bool)
    requires NearestManifestAt(fs, p, d)
    requires ExpoDependency !in Dependencies(fs, d)
    requires YarnLock in Entries(fs, d)
    ensures Resolve(fs, p, yarnInstalled) == Resolution(
      Some(Yarn), Some(d),
      SearchState(true, false, PackageLock in Entries(fs, d), true))
  {
    NearestManifestUnique(fs, p, d);
  }

  /** Without expo or `yarn.lock`, a `package.lock` selects npm. */
  lemma PackageLockProject(fs: FileSystem, p: Path, d: Path, yarnInstalled: bool)
    requires NearestManifestAt(fs, p, d)
    requires ExpoDependency !in Dependencies(fs, d)
    requires YarnLock !in Entries(fs, d) && PackageLock in Entries(fs, d)
    ensures Resolve(fs, p, yarnInstalled) == Resolution(
      Some(Npm), Some(d), SearchState(true, false, true, false))
  {
    NearestManifestUnique(fs, p, d);
  }

  /** Without expo and without lockfiles, yarn is chosen if it is installed
      and npm otherwise. */
  lemma NoLockfileProject(fs: FileSystem, p: Path, d: Path, yarnInstalled: bool)
    requires NearestManifestAt(fs, p, d)
    requires ExpoDependency !in Dependencies(fs, d)
    requires YarnLock !in Entries(fs, d) && PackageLock !in Entries(fs, d)
    ensures Resolve(fs, p, yarnInstalled) == Resolution(
      Some(if yarnInstalled then Yarn else Npm), Some(d), SearchState(true, false, false, false))
  {
    NearestManifestUnique(fs, p, d);
  }

  /** Whether yarn is installed matters only in the fallback case: once an
      expo dependency or a lockfile is found, the answer is the same either
      way, and the flags never depend on it. */
  lemma YarnQueryOnlyAsFallback(fs: FileSystem, p: Path)
    ensures Resolve(fs, p, true).state == Resolve(fs, p, false).state
    ensures Resolve(fs, p, true).rootDirectory == Resolve(fs, p, false).rootDirectory
    ensures var s := Resolve(fs, p, true).state;
            s.isExpoFound || s.isYarnPackageLockFound || s.isNpmPackageLockFound ==>
              Resolve(fs, p, true) == Resolve(fs, p, false)
  {
  }

  /** Starting anywhere below a directory `d`, with no manifest strictly in
      between, gives the same result as starting at `d` itself. */
  lemma {:induction false} StartDepthIrrelevant(fs: FileSystem, d: Path, q: Path, yarnInstalled: bool)
    requires d <= q
    requires forall k :: |d| < k <= |q| ==> !HasManifest(fs, q[..k])
    ensures Resolve(fs, q, yarnInstalled) == Resolve(fs, d, yarnInstalled)
    decreases |q|
  {
    if |q| > |d| {
      assert q[..|q|] == q;
      var parent := Parent(q);
      assert d <= parent;
      forall k | |d| < k <= |parent|
        ensures !HasManifest(fs, parent[..k])
      {
        assert parent[..k] == q[..k];
      }
      StartDepthIrrelevant(fs, d, parent, yarnInstalled);
    } else {
      assert d == q;
    }
  }
}
