/** The package-manager helpers: lockfile detection, the install command line and the
    outcome of running it. Running a command is an oracle: the set of command lines
    that fail in the environment. */
module Packages {
  import opened Text

  datatype PackageManager = Pnpm | Npm | Yarn | Bun

  const PnpmLock: string := "pnpm-lock.yaml"
  const YarnLock: string := "yarn.lock"
  const BunLock: string := "bun.lockb"
  const NpmLock: string := "package-lock.json"

  /** The executable of a package manager. */
  function Name(pm: PackageManager): string {
    match pm
    case Pnpm => "pnpm"
    case Npm => "npm"
    case Yarn => "yarn"
    case Bun => "bun"
  }

  /** detectPackageManager: the probes run in the order pnpm, yarn, bun, npm and the
      first lockfile found decides; without one the answer is npm. */
  function DetectPackageManager(present: set<string>, cwd: string): (pm: PackageManager)
    ensures pm == Pnpm <==> PathJoin(cwd, PnpmLock) in present
    ensures pm == Yarn <==> PathJoin(cwd, PnpmLock) !in present && PathJoin(cwd, YarnLock) in present
    ensures pm == Bun <==> PathJoin(cwd, PnpmLock) !in present && PathJoin(cwd, YarnLock) !in present
                           && PathJoin(cwd, BunLock) in present
    ensures pm == Npm <==> PathJoin(cwd, PnpmLock) !in present && PathJoin(cwd, YarnLock) !in present
                           && PathJoin(cwd, BunLock) !in present
  {
    if PathJoin(cwd, PnpmLock) in present then Pnpm
    else if PathJoin(cwd, YarnLock) in present then Yarn
    else if PathJoin(cwd, BunLock) in present then Bun
    else if PathJoin(cwd, NpmLock) in present then Npm
    else Npm
  }

  /** package-lock.json never changes the answer: the npm probe and the default agree. */
  lemma NpmLockIrrelevant(present: set<string>, cwd: string)
    ensures DetectPackageManager(present + {PathJoin(cwd, NpmLock)}, cwd)
         == DetectPackageManager(present - {PathJoin(cwd, NpmLock)}, cwd)
  {
    var n := PathJoin(cwd, NpmLock);
    assert PathJoin(cwd, PnpmLock) != n by {
      assert PathJoin(cwd, PnpmLock)[|cwd| + 2] != n[|cwd| + 2];
    }
    assert PathJoin(cwd, YarnLock) != n by {
      assert PathJoin(cwd, YarnLock)[|cwd| + 1] != n[|cwd| + 1];
    }
    assert PathJoin(cwd, BunLock) != n by {
      assert PathJoin(cwd, BunLock)[|cwd| + 1] != n[|cwd| + 1];
    }
  }

  /** The subcommand that adds packages: `npm install`, `<pm> add` for the others. */
  function Verb(pm: PackageManager): (v: string)
    ensures StartsWith(v, Name(pm) + " ")
    ensures |v| > 0 && !IsSpace(v[0]) && !IsSpace(v[|v| - 1])
  {
    if pm == Npm then "npm install" else Name(pm) + " add"
  }

  /** The dev flag: `--save-dev` for npm, `-D` for the others, nothing without `dev`. */
  function DevFlag(pm: PackageManager, dev: bool): (f: string)
    ensures f == "" <==> !dev
    ensures dev ==> !IsSpace(f[0]) && !IsSpace(f[|f| - 1])
  {
    if !dev then "" else if pm == Npm then "--save-dev" else "-D"
  }

  /** getInstallCommand: the template `verb flag deps`, trimmed. */
  function InstallCommand(pm: PackageManager, deps: seq<string>, dev: bool): string {
    Trim(Verb(pm) + " " + DevFlag(pm, dev) + " " + Join(deps, " "))
  }

  /** A package specifier: non-empty, and neither starting nor ending with white space. */
  predicate PackageName(d: string) {
    |d| > 0 && !IsSpace(d[0]) && !IsSpace(d[|d| - 1])
  }

  lemma {:induction false} JoinEnds(xs: seq<string>, sep: string)
    requires |xs| > 0 && forall i :: 0 <= i < |xs| ==> PackageName(xs[i])
    ensures PackageName(xs[0]) && PackageName(xs[|xs| - 1])
    ensures |Join(xs, sep)| > 0
    ensures Join(xs, sep)[0] == xs[0][0]
    ensures Join(xs, sep)[|Join(xs, sep)| - 1] == xs[|xs| - 1][|xs[|xs| - 1]| - 1]
    decreases |xs|
  {
    if |xs| > 1 {
      JoinEnds(xs[1..], sep);
      assert xs[1..][|xs[1..]| - 1] == xs[|xs| - 1];
    }
  }

  lemma LastCharNotSpace(deps: seq<string>)
    requires |deps| > 0 && forall i :: 0 <= i < |deps| ==> PackageName(deps[i])
    ensures |deps[|deps| - 1]| > 0 && !IsSpace(deps[|deps| - 1][|deps[|deps| - 1]| - 1])
  {
    assert PackageName(deps[|deps| - 1]);
  }

  /** Without `dev` the empty flag leaves two spaces between the verb and the first
      package: `pnpm add  a b`. */
  lemma InstallCommandDoubleSpace(pm: PackageManager, deps: seq<string>)
    requires |deps| > 0 && forall i :: 0 <= i < |deps| ==> PackageName(deps[i])
    ensures InstallCommand(pm, deps, false) == Verb(pm) + " " + " " + Join(deps, " ")
  {
    JoinEnds(deps, " ");
    LastCharNotSpace(deps);
    TrimSpaced(Verb(pm), DevFlag(pm, false), Join(deps, " "));
    assert Verb(pm) + " " + "" == Verb(pm) + " ";
  }

  /** With `dev` the flag stands between single spaces: `npm install --save-dev a b`. */
  lemma InstallCommandDev(pm: PackageManager, deps: seq<string>)
    requires |deps| > 0 && forall i :: 0 <= i < |deps| ==> PackageName(deps[i])
    ensures InstallCommand(pm, deps, true) == Verb(pm) + " " + DevFlag(pm, true) + " " + Join(deps, " ")
  {
    JoinEnds(deps, " ");
    LastCharNotSpace(deps);
    TrimSpaced(Verb(pm), DevFlag(pm, true), Join(deps, " "));
  }

  /** With no packages the command is the verb, followed by the flag when `dev` is set. */
  lemma InstallCommandNoDeps(pm: PackageManager, dev: bool)
    ensures InstallCommand(pm, [], dev) == if dev then Verb(pm) + " " + DevFlag(pm, true) else Verb(pm)
  {
    if dev {
      var s := Verb(pm) + " " + DevFlag(pm, true);
      assert s[0] == Verb(pm)[0];
      assert Verb(pm) + " " + DevFlag(pm, dev) + " " + Join([], " ") == s + " ";
      TrimTrailingSpaces(s, " ");
    } else {
      assert Verb(pm) + " " + DevFlag(pm, dev) + " " + Join([], " ") == Verb(pm) + "  ";
      TrimTrailingSpaces(Verb(pm), "  ");
    }
  }

  /** What installDependencies did: nothing, or ran `command` with the detected manager. */
  datatype InstallRun = NothingToInstall | Ran(pm: PackageManager, command: string, succeeded: bool)

  /** installDependencies. `failing` is the set of command lines that fail when run. */
  function InstallDependencies(present: set<string>, cwd: string, deps: seq<string>, dev: bool,
                               failing: set<string>): (r: InstallRun)
    ensures r.NothingToInstall? <==> |deps| == 0
    ensures r.Ran? ==>
      r.pm == DetectPackageManager(present, cwd)
      && r.command == InstallCommand(r.pm, deps, dev)
      && (r.succeeded <==> r.command !in failing)
  {
    if |deps| == 0 then NothingToInstall
    else
      var pm := DetectPackageManager(present, cwd);
      var command := InstallCommand(pm, deps, dev);
      Ran(pm, command, command !in failing)
  }

  /** The boolean installDependencies returns. */
  function Succeeded(r: InstallRun): bool
  {
    r.NothingToInstall? || r.succeeded
  }

  /** An empty list succeeds without running anything; a failure names the command that
      was run so that the user can repeat it by hand. */
  lemma InstallOutcome(present: set<string>, cwd: string, deps: seq<string>, dev: bool, failing: set<string>)
    ensures var r := InstallDependencies(present, cwd, deps, dev, failing);
      (|deps| == 0 ==> Succeeded(r) && r == NothingToInstall)
      && (!Succeeded(r) <==> |deps| > 0 && InstallCommand(DetectPackageManager(present, cwd), deps, dev) in failing)
  {
  }
}
