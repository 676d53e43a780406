/**
 * The directory tree of the resolver's test suite and the results it
 * expects, each from the deepest directory and from the project root.
 */
module Scenarios {
  import opened Wrappers
  import opened Filesystem
  import opened Installer
  import opened InstallerProperties

  const ProjectRoot: Path := ["testTmp", "projectRoot"]
  const ChildDir: Path := ProjectRoot + ["childDir"]
  const ChildDir2: Path := ChildDir + ["childDir2"]

  /** `/testTmp/projectRoot/childDir/childDir2/readme.md`, with `extra`
      entries added to `projectRoot` and `manifest` as the contents of its
      `package.json` (if `extra` names one). */
  function ProjectTree(extra: set<string>, manifest: Manifest): (fs: FileSystem)
    ensures Entries(fs, ProjectRoot) == {"childDir"} + extra
    ensures Dependencies(fs, ProjectRoot) == if manifest.Parsed? then manifest.dependencies else {}
    ensures HasManifest(fs, ProjectRoot) <==> PackageJson in extra
    ensures !HasManifest(fs, []) && !HasManifest(fs, ["testTmp"])
    ensures !HasManifest(fs, ChildDir) && !HasManifest(fs, ChildDir2)
  {
    map[
      [] := Dir({"testTmp"}, Parsed({})),
      ["testTmp"] := Dir({"projectRoot"}, Parsed({})),
      ProjectRoot := Dir({"childDir"} + extra, manifest),
      ChildDir := Dir({"childDir2"}, Parsed({})),
      ChildDir2 := Dir({"readme.md"}, Parsed({}))]
  }

  /** With `package.json` only (possibly) in the project root, the two start
      directories of the tests see the same nearest manifest. */
  lemma TreeLayout(extra: set<string>, manifest: Manifest, yarnInstalled: bool)
    ensures Resolve(ProjectTree(extra, manifest), ChildDir2, yarnInstalled)
         == Resolve(ProjectTree(extra, manifest), ProjectRoot, yarnInstalled)
  {
    var fs := ProjectTree(extra, manifest);
    assert ChildDir2[..3] == ChildDir && ChildDir2[..4] == ChildDir2;
    StartDepthIrrelevant(fs, ProjectRoot, ChildDir2, yarnInstalled);
  }

  lemma ScenarioNoPackageJson(yarnInstalled: bool)
    ensures var fs := ProjectTree({}, Parsed({}));
            && Resolve(fs, ChildDir2, yarnInstalled) == Resolution(None, None, InitialState)
            && Resolve(fs, ProjectRoot, yarnInstalled) == Resolution(None, None, InitialState)
  {
    var fs := ProjectTree({}, Parsed({}));
    TreeLayout({}, Parsed({}), yarnInstalled);
    assert ProjectRoot[..0] == [] && ProjectRoot[..1] == ["testTmp"] && ProjectRoot[..2] == ProjectRoot;
    NoPackageJson(fs, ProjectRoot, yarnInstalled);
  }

  /** The project root holds the only manifest, so it is the nearest one
      seen from the root itself. */
  lemma RootIsNearest(extra: set<string>, manifest: Manifest)
    requires PackageJson in extra
    ensures NearestManifestAt(ProjectTree(extra, manifest), ProjectRoot, ProjectRoot)
  {
  }

  lemma ScenarioExpo(yarnInstalled: bool)
    ensures var fs := ProjectTree({PackageJson}, Parsed({"expo"}));
            var expected := Resolution(Some(Expo), Some(ProjectRoot), SearchState(true, true, false, false));
            Resolve(fs, ChildDir2, yarnInstalled) == expected && Resolve(fs, ProjectRoot, yarnInstalled) == expected
  {
    var extra, manifest := {PackageJson}, Parsed({"expo"});
    TreeLayout(extra, manifest, yarnInstalled);
    RootIsNearest(extra, manifest);
    ExpoProject(ProjectTree(extra, manifest), ProjectRoot, ProjectRoot, yarnInstalled);
  }

  lemma ScenarioYarnLockAlone(yarnInstalled: bool)
    ensures var fs := ProjectTree({YarnLock, PackageJson}, Parsed({"super"}));
            var expected := Resolution(Some(Yarn), Some(ProjectRoot), SearchState(true, false, false, true));
            Resolve(fs, ChildDir2, yarnInstalled) == expected && Resolve(fs, ProjectRoot, yarnInstalled) == expected
  {
    var extra, manifest := {YarnLock, PackageJson}, Parsed({"super"});
    TreeLayout(extra, manifest, yarnInstalled);
    RootIsNearest(extra, manifest);
    YarnLockProject(ProjectTree(extra, manifest), ProjectRoot, ProjectRoot, yarnInstalled);
  }

  lemma ScenarioPackageLockAlone(yarnInstalled: bool)
    ensures var fs := ProjectTree({PackageLock, PackageJson}, Parsed({"super"}));
            var expected := Resolution(Some(Npm), Some(ProjectRoot), SearchState(true, false, true, false));
            Resolve(fs, ChildDir2, yarnInstalled) == expected && Resolve(fs, ProjectRoot, yarnInstalled) == expected
  {
    var extra, manifest := {PackageLock, PackageJson}, Parsed({"super"});
    TreeLayout(extra, manifest, yarnInstalled);
    RootIsNearest(extra, manifest);
    PackageLockProject(ProjectTree(extra, manifest), ProjectRoot, ProjectRoot, yarnInstalled);
  }

  lemma ScenarioExpoAndBothLocks(yarnInstalled: bool)
    ensures var fs := ProjectTree({YarnLock, PackageLock, PackageJson}, Parsed({"expo"}));
            var expected := Resolution(Some(Expo), Some(ProjectRoot), SearchState(true, true, true, true));
            Resolve(fs, ChildDir2, yarnInstalled) == expected && Resolve(fs, ProjectRoot, yarnInstalled) == expected
  {
    var extra, manifest := {YarnLock, PackageLock, PackageJson}, Parsed({"expo"});
    TreeLayout(extra, manifest, yarnInstalled);
    RootIsNearest(extra, manifest);
    ExpoProject(ProjectTree(extra, manifest), ProjectRoot, ProjectRoot, yarnInstalled);
  }

  lemma ScenarioBothLocks(yarnInstalled: bool)
    ensures var fs := ProjectTree({YarnLock, PackageLock, PackageJson}, Parsed({"supper"}));
            var expected := Resolution(Some(Yarn), Some(ProjectRoot), SearchState(true, false, true, true));
            Resolve(fs, ChildDir2, yarnInstalled) == expected && Resolve(fs, ProjectRoot, yarnInstalled) == expected
  {
    var extra, manifest := {YarnLock, PackageLock, PackageJson}, Parsed({"supper"});
    TreeLayout(extra, manifest, yarnInstalled);
    RootIsNearest(extra, manifest);
    YarnLockProject(ProjectTree(extra, manifest), ProjectRoot, ProjectRoot, yarnInstalled);
  }

  /** The last two tests differ only in whether yarn is installed. */
  lemma ScenarioNoLockfile(yarnInstalled: bool)
    ensures var fs := ProjectTree({PackageJson}, Parsed({"supper"}));
            var expected := Resolution(Some(if yarnInstalled then Yarn else Npm), Some(ProjectRoot),
                                       SearchState(true, false, false, false));
            Resolve(fs, ChildDir2, yarnInstalled) == expected && Resolve(fs, ProjectRoot, yarnInstalled) == expected
  {
    var extra, manifest := {PackageJson}, Parsed({"supper"});
    TreeLayout(extra, manifest, yarnInstalled);
    RootIsNearest(extra, manifest);
    NoLockfileProject(ProjectTree(extra, manifest), ProjectRoot, ProjectRoot, yarnInstalled);
  }

  /** The walk itself, run on the expo fixture from the deepest directory. */
  method RunExpoScenario(yarnInstalled: bool) returns (res: Resolution)
    ensures res.installer == Some(Expo) && Name(res.installer.value) == "expo"
    ensures res.rootDirectory == Some(ProjectRoot)
    ensures res.state == SearchState(true, true, false, false)
  {
    res := CheckAndGetInstaller(ProjectTree({PackageJson}, Parsed({"expo"})), ChildDir2, yarnInstalled);
    ScenarioExpo(yarnInstalled);
  }
}
