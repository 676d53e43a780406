# Installer resolver

A model of the CLI's `checkAndGetInstaller(path)`, which decides which
JavaScript package manager (expo, yarn or npm) installs the dependencies of
the project enclosing a directory.

The resolver walks up from the starting directory to the nearest directory
holding `package.json`. There it records four flags:

- `isPackageJsonFound`;
- `isExpoFound`: the manifest's `dependencies` has the key `expo`;
- `isNpmPackageLockFound`: a `package.lock` entry is next to the manifest;
- `isYarnPackageLockFound`: a `yarn.lock` entry is next to the manifest.

It returns that directory as `rootDirectory`. The installer follows a
fixed precedence: expo, then `yarn.lock`, then `package.lock`, then yarn
if yarn is installed, else npm. With no manifest on the way up, installer
and root directory are `null` and every flag is false.

The implementation file `packages/cli/src/utils/checkAndGetInstaller` is
not part of this model. Its behaviour is taken from its test suite
(`packages/cli/src/__test__/checkAndGetInstaller.test.ts`), which fixes eight scenarios.

Files:

- `filesystem.dfy` (module `Filesystem`): a read-only filesystem as a
  map from paths (segment sequences, root `[]`) to directories, each with
  its entry names and parsed manifest. A path absent from the map is an
  unreadable or missing directory and has no entries. An unparsable
  manifest has no dependencies.
- `installer.dfy` (module `Installer`): the decision `Decide`, the
  recursive specification `NearestManifest` of the upward search, the
  functional specification `Resolve`, and the walk
  `CheckAndGetInstaller`, a loop proved to compute `Resolve`.
- `properties.dfy` (module `InstallerProperties`): what the tests
  promise, for every filesystem and start directory.
- `scenarios.dfy` (module `Scenarios`): the test suite's directory tree
  and its eight expected results, from both start directories.
- `wrappers.dfy` (module `Wrappers`): `Option`, standing for `null`.

Whether yarn is installed (`shell.which("yarn")`) is the parameter
`yarnInstalled`.

The walk looks at every directory from the start up to the filesystem root,
the root included. The tests do not distinguish this from a walk that stops
below the root.

## Model

| member | source | states |
|---|---|---|
| Installer.NearestManifest | packages/cli/src/__test__/checkAndGetInstaller.test.ts:71-82 | the search from a directory returns an ancestor-or-self holding `package.json` with no manifest strictly between, or nothing when no directory up to the root holds one |
| Installer.Decide | packages/cli/src/__test__/checkAndGetInstaller.test.ts:62-233 | the installer is expo exactly when expo is a dependency; yarn exactly when, without expo, there is a `yarn.lock` or no lockfile and yarn is installed; npm in the remaining cases |
| Installer.Name | packages/cli/src/__test__/checkAndGetInstaller.test.ts:71-73 | the installer names compared by the tests, `"expo"`, `"yarn"` and `"npm"`, each naming exactly one installer |
| Installer.ManifestState | packages/cli/src/__test__/checkAndGetInstaller.test.ts:71-79 | the flags recorded in a manifest directory: `isPackageJsonFound` true, `isExpoFound` exactly when its manifest parses with an `expo` dependency, each lock flag exactly when that lockfile is an entry there |
| Installer.Resolve | packages/cli/src/__test__/checkAndGetInstaller.test.ts:48-59 | with no root found, no directory up to the root holds a manifest, the installer is null and all flags false; with a root found, it is the nearest manifest directory, the flags are that directory's and the installer is the decision on them |
| Installer.CheckAndGetInstaller | packages/cli/src/__test__/checkAndGetInstaller.test.ts:48-59 | the upward walk with its early stop returns exactly the specified resolution: nearest manifest, its four flags, the decided installer |
| InstallerProperties.NearestManifestUnique | packages/cli/src/__test__/checkAndGetInstaller.test.ts:71-82 | the recursive search returns `d` if and only if `d` is the nearest enclosing manifest directory |
| InstallerProperties.NoManifestFound | packages/cli/src/__test__/checkAndGetInstaller.test.ts:45-59 | the search finds nothing if and only if no directory from the start to the root holds `package.json` |
| InstallerProperties.NoPackageJson | packages/cli/src/__test__/checkAndGetInstaller.test.ts:45-59 | no manifest on the way up if and only if installer and root directory are null and all four flags are false |
| InstallerProperties.NullExactlyWhenNotFound | packages/cli/src/__test__/checkAndGetInstaller.test.ts:49-55 | installer is null exactly when root directory is null, exactly when `isPackageJsonFound` is false |
| InstallerProperties.ReportedRootAndFlags | packages/cli/src/__test__/checkAndGetInstaller.test.ts:133-155 | a reported root directory is the nearest manifest directory, and the flags report what it contains independently of the chosen installer |
| InstallerProperties.ExpoProject | packages/cli/src/__test__/checkAndGetInstaller.test.ts:62-82 | an expo dependency in the nearest manifest gives installer expo and that root, with the lock flags reporting the lockfiles present |
| InstallerProperties.YarnLockProject | packages/cli/src/__test__/checkAndGetInstaller.test.ts:85-106 | without expo, `yarn.lock` gives installer yarn with or without `package.lock`; the npm flag reports `package.lock` |
| InstallerProperties.PackageLockProject | packages/cli/src/__test__/checkAndGetInstaller.test.ts:109-130 | without expo or `yarn.lock`, `package.lock` gives installer npm, npm flag true, yarn flag false |
| InstallerProperties.NoLockfileProject | packages/cli/src/__test__/checkAndGetInstaller.test.ts:183-233 | without expo and lockfiles the installer is yarn if yarn is installed, else npm; both lock flags false |
| InstallerProperties.YarnQueryOnlyAsFallback | packages/cli/src/__test__/checkAndGetInstaller.test.ts:13-14 | whether yarn is installed never changes the flags or the root, and changes nothing once expo or a lockfile is found |
| InstallerProperties.StartDepthIrrelevant | packages/cli/src/__test__/checkAndGetInstaller.test.ts:58-59 | starting below a directory with no manifest strictly between gives the same result as starting at that directory |
| Scenarios.ProjectTree | packages/cli/src/__test__/checkAndGetInstaller.test.ts:19-39 | the test tree mounted at `/testTmp`: `projectRoot` lists `childDir` plus the added entries and its manifest's dependencies; only `projectRoot` can hold `package.json` |
| Scenarios.TreeLayout | packages/cli/src/__test__/checkAndGetInstaller.test.ts:19-39 | in the test tree, starting at `childDir/childDir2` and at `projectRoot` give the same result |
| Scenarios.RootIsNearest | packages/cli/src/__test__/checkAndGetInstaller.test.ts:31-39 | with `package.json` added to the project root, it is the nearest manifest seen from the root |
| Scenarios.ScenarioNoPackageJson | packages/cli/src/__test__/checkAndGetInstaller.test.ts:45-60 | the default tree gives null installer, null root and four false flags from both start directories |
| Scenarios.ScenarioExpo | packages/cli/src/__test__/checkAndGetInstaller.test.ts:62-83 | the expo manifest gives expo, root `projectRoot`, flags true, true, false, false |
| Scenarios.ScenarioYarnLockAlone | packages/cli/src/__test__/checkAndGetInstaller.test.ts:85-107 | `yarn.lock` alone gives yarn, flags true, false, false, true |
| Scenarios.ScenarioPackageLockAlone | packages/cli/src/__test__/checkAndGetInstaller.test.ts:109-131 | `package.lock` alone gives npm, flags true, false, true, false |
| Scenarios.ScenarioExpoAndBothLocks | packages/cli/src/__test__/checkAndGetInstaller.test.ts:133-156 | expo with both lockfiles gives expo, all four flags true |
| Scenarios.ScenarioBothLocks | packages/cli/src/__test__/checkAndGetInstaller.test.ts:158-181 | both lockfiles without expo give yarn, flags true, false, true, true |
| Scenarios.ScenarioNoLockfile | packages/cli/src/__test__/checkAndGetInstaller.test.ts:183-234 | no expo and no lockfile give yarn when yarn is installed and npm when it is not, flags true, false, false, false |
| Scenarios.RunExpoScenario | packages/cli/src/__test__/checkAndGetInstaller.test.ts:71-82 | the walk itself, run on the expo tree from `childDir/childDir2`, returns expo (named `"expo"`), root `projectRoot` and the expected flags |

## Left out

- The `memfs` volume and the mocking of `fs`: test plumbing over real filesystem reads, replaced by the map from paths to directories.
- `shelljs` and `shell.which`: a query of the process PATH, replaced by the `yarnInstalled` parameter; a failure of that query is not modelled.
- JSON parsing of `package.json`: a manifest is given directly as its set of dependency keys, or as unparsable (no dependencies).
- Path strings and OS path normalisation: paths are segment sequences, so `rootDirectory` is a segment sequence rather than the string `/testTmp/projectRoot`, and relative paths are not modelled.
- The CLI command that calls the resolver and the step that runs the chosen installer: both are I/O.
- Installer.CheckAndGetInstaller: the filesystem root `[]` is inspected too, so a manifest found only at `/` makes it the root directory; a walk that stops once the directory equals its own parent never looks at `/` and returns null for that input. The tests cover only a manifest below `/`.
