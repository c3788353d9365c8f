/** The `init` command. `InitResult` states, as a function of the environment and of the
    world and tsconfig store before the call, what `init` returns and leaves behind; `Init`
    is the command written step by step over a `Project`, proved to agree with it.

    The environment is fixed for a run: the working directory, the registry manifest
    (None when it cannot be fetched), the registry's files by path, the settings the text
    prompts produce, and the install commands that fail. The JSON files `init` edits
    (tsconfig.json and the configs it references) are held parsed, in a store of their
    own; every other file is text in the world. */
module InitCommand {
  import opened Wrappers
  import opened Text
  import opened Lists
  import opened Registry
  import opened Config
  import opened Packages
  import opened Workspace
  import opened TsConfig
  import opened ViteConfig

  datatype InitEnv = InitEnv(
    cwd: string,
    registry: Option<RegistryIndex>,
    source: map<string, string>,
    answered: RdsConfig,
    failing: set<string>)

  type Store = map<string, TsConfig>

  const PackageJson: string := "package.json"
  const ViteConfigFile: string := "vite.config.ts"
  const RekaUi: string := "reka-ui"

  // ---- transformAliasImports ----

  /** `content.replace(/@\//g, alias + "/")` */
  function TransformAliasImports(content: string, c: RdsConfig): string {
    ReplaceAll(content, "@/", c.alias + "/")
  }

  /** With the default alias `@` the transform changes nothing. */
  lemma AliasTransformIdentity(content: string, c: RdsConfig)
    requires c.alias == "@"
    ensures TransformAliasImports(content, c) == content
  {
    assert c.alias + "/" == "@/";
    ReplaceAllSelf(content, "@/");
  }

  /** The leftmost `@/` becomes `<alias>/` and the search resumes after it; text without
      `@/` is left as it is. Together these fix the result on every input. */
  lemma AliasImportRewritten(a: string, b: string, c: RdsConfig)
    requires forall i: nat :: i < |a| ==> !OccursAt(a + "@/" + b, "@/", i)
    ensures TransformAliasImports(a + "@/" + b, c) == a + c.alias + "/" + TransformAliasImports(b, c)
    ensures !Contains(b, "@/") ==> TransformAliasImports(b, c) == b
  {
    ReplaceAllLeftmost(a, "@/", b, c.alias + "/");
    if !Contains(b, "@/") {
      ReplaceAllAbsent(b, "@/", c.alias + "/");
    }
  }

  // ---- the dependency list ----

  /** `[...new Set([...utils.dependencies, ...styles.dependencies, 'reka-ui'])]` */
  function InitDependencies(reg: RegistryIndex): (deps: seq<string>)
    ensures RekaUi in deps && NoDup(deps)
    ensures forall x :: x in deps <==>
      x in reg.lib.utils.dependencies || x in reg.styles.dependencies || x == RekaUi
  {
    var all := reg.lib.utils.dependencies + reg.styles.dependencies + [RekaUi];
    assert all[|all| - 1] == RekaUi;
    DedupeMembers(all);
    Dedupe(all)
  }

  /** First occurrences in order: the deduped utils dependencies come first, and `reka-ui`
      is last unless one of the lists already names it. */
  lemma InitDependenciesOrder(reg: RegistryIndex)
    ensures var u := Dedupe(reg.lib.utils.dependencies);
      |u| <= |InitDependencies(reg)| && InitDependencies(reg)[..|u|] == u
    ensures RekaUi !in reg.lib.utils.dependencies && RekaUi !in reg.styles.dependencies ==>
      InitDependencies(reg)[|InitDependencies(reg)| - 1] == RekaUi
  {
    var a := reg.lib.utils.dependencies;
    var ab := a + reg.styles.dependencies;
    var all := ab + [RekaUi];
    assert all[..|a|] == a;
    DedupePrefix(all, |a|);
    DedupeSnoc(ab, RekaUi);
  }

  // ---- the file steps ----

  /** Where a registry file lands: `<cwd>/<dir>/<basename>`. */
  function CopyPath(cwd: string, dir: string, file: string): string {
    PathJoin(PathJoin(cwd, dir), Basename(file))
  }

  /** What is written: utils files go through transformAliasImports, styles are verbatim. */
  function CopiedContent(env: InitEnv, c: RdsConfig, file: string, transform: bool): string
    requires file in env.source
  {
    if transform then TransformAliasImports(env.source[file], c) else env.source[file]
  }

  /** One iteration of a copy loop: fetch, maybe transform, write, report. */
  function CopyStep(env: InitEnv, c: RdsConfig, dir: string, file: string, transform: bool,
                    w: World): (r: (Outcome, World))
    ensures r.1.answers == w.answers
    ensures file !in env.source <==> r.0 != Done
    ensures r.0 != Done ==> r == (Crash(FetchFailed(file)), w)
    ensures r.0 == Done ==>
      r.1.files == w.files[CopyPath(env.cwd, dir, file) := CopiedContent(env, c, file, transform)]
      && r.1.log == w.log + [Created(dir + "/" + Basename(file))]
  {
    if file !in env.source then (Crash(FetchFailed(file)), w)
    else
      (Done, Emit(WriteFile(w, CopyPath(env.cwd, dir, file), CopiedContent(env, c, file, transform)),
                  Created(dir + "/" + Basename(file))))
  }

  /** A copy loop in order, stopping at the first file that cannot be fetched. */
  function CopyAll(env: InitEnv, c: RdsConfig, dir: string, files: seq<string>, transform: bool,
                   w: World): (r: (Outcome, World))
    ensures r.1.answers == w.answers
    ensures r.0 == Done || r.0.Crash?
    decreases |files|
  {
    if |files| == 0 then (Done, w)
    else
      var s := CopyStep(env, c, dir, files[0], transform, w);
      if s.0 != Done then s else CopyAll(env, c, dir, files[1..], transform, s.1)
  }

  /** No file of `files` lands on `q`. */
  predicate NotCopiedTo(cwd: string, dir: string, files: seq<string>, q: string) {
    forall i :: 0 <= i < |files| ==> CopyPath(cwd, dir, files[i]) != q
  }

  /** The `i`-th file is the last of `files` that lands where it does. */
  predicate LastAt(cwd: string, dir: string, files: seq<string>, i: int)
    requires 0 <= i < |files|
  {
    forall k :: i < k < |files| ==> CopyPath(cwd, dir, files[k]) != CopyPath(cwd, dir, files[i])
  }

  /** A copy loop leaves a file it does not copy to as it was. */
  lemma {:induction false} CopyAllUntouched(env: InitEnv, c: RdsConfig, dir: string, files: seq<string>,
                                            transform: bool, w: World, q: string)
    requires q in w.files && NotCopiedTo(env.cwd, dir, files, q)
    ensures var r := CopyAll(env, c, dir, files, transform, w);
      q in r.1.files && r.1.files[q] == w.files[q]
    decreases |files|
  {
    if |files| > 0 {
      var s := CopyStep(env, c, dir, files[0], transform, w);
      if s.0 == Done {
        var tail := files[1..];
        assert CopyPath(env.cwd, dir, files[0]) != q;
        assert NotCopiedTo(env.cwd, dir, tail, q) by {
          forall i | 0 <= i < |tail| ensures CopyPath(env.cwd, dir, tail[i]) != q {
            assert tail[i] == files[i + 1];
          }
        }
        CopyAllUntouched(env, c, dir, tail, transform, s.1, q);
      }
    }
  }

  /** When a copy loop completes, the destination of its `i`-th file holds that file's
      content unless a later file lands on the same path. */
  lemma {:induction false} CopyAllContentAt(env: InitEnv, c: RdsConfig, dir: string, files: seq<string>,
                                            transform: bool, w: World, i: nat)
    requires i < |files| && LastAt(env.cwd, dir, files, i)
    ensures var r := CopyAll(env, c, dir, files, transform, w);
      r.0 == Done ==>
        files[i] in env.source && CopyPath(env.cwd, dir, files[i]) in r.1.files
        && r.1.files[CopyPath(env.cwd, dir, files[i])] == CopiedContent(env, c, files[i], transform)
    decreases |files|
  {
    var s := CopyStep(env, c, dir, files[0], transform, w);
    var tail := files[1..];
    if s.0 == Done {
      assert CopyAll(env, c, dir, files, transform, w) == CopyAll(env, c, dir, tail, transform, s.1);
      if i == 0 {
        var q := CopyPath(env.cwd, dir, files[0]);
        assert NotCopiedTo(env.cwd, dir, tail, q) by {
          forall k | 0 <= k < |tail| ensures CopyPath(env.cwd, dir, tail[k]) != q {
            assert tail[k] == files[k + 1];
          }
        }
        CopyAllUntouched(env, c, dir, tail, transform, s.1, q);
      } else {
        assert tail[i - 1] == files[i];
        assert LastAt(env.cwd, dir, tail, i - 1) by {
          forall k | i - 1 < k < |tail|
            ensures CopyPath(env.cwd, dir, tail[k]) != CopyPath(env.cwd, dir, tail[i - 1])
          {
            assert tail[k] == files[k + 1];
          }
        }
        CopyAllContentAt(env, c, dir, tail, transform, s.1, i - 1);
      }
    }
  }

  /** A copy loop completes exactly when every file can be fetched. */
  lemma {:induction false} CopyAllCompletes(env: InitEnv, c: RdsConfig, dir: string, files: seq<string>,
                                            transform: bool, w: World)
    ensures CopyAll(env, c, dir, files, transform, w).0 == Done <==>
      forall i :: 0 <= i < |files| ==> files[i] in env.source
    decreases |files|
  {
    if |files| > 0 && files[0] in env.source {
      var s := CopyStep(env, c, dir, files[0], transform, w);
      var tail := files[1..];
      assert CopyAll(env, c, dir, files, transform, w) == CopyAll(env, c, dir, tail, transform, s.1);
      CopyAllCompletes(env, c, dir, tail, transform, s.1);
      AllFetchableCons(env, files);
    }
  }

  /** Every file of a non-empty list can be fetched iff its head and every file of its
      tail can. */
  lemma AllFetchableCons(env: InitEnv, files: seq<string>)
    requires |files| > 0
    ensures (forall i :: 0 <= i < |files| ==> files[i] in env.source) <==>
      files[0] in env.source && forall i :: 0 <= i < |files[1..]| ==> files[1..][i] in env.source
  {
    if files[0] in env.source && forall i :: 0 <= i < |files[1..]| ==> files[1..][i] in env.source {
      forall i | 1 <= i < |files| ensures files[i] in env.source {
        assert files[1..][i - 1] == files[i];
      }
    }
  }

  /** Nothing `init` copies lands on rds-ui.json: a copy path has a `/` after the working
      directory's separator, and the config file name has none. */
  lemma CopyPathNotConfig(cwd: string, dir: string, file: string)
    ensures CopyPath(cwd, dir, file) != ConfigPath(cwd)
  {
    var a, b := CopyPath(cwd, dir, file), ConfigPath(cwd);
    var j := |cwd| + 1 + |dir|;
    assert a[j] == '/';
    if |a| == |b| {
      assert b[j] == ConfigFile[|dir|];
      assert forall t :: 0 <= t < |ConfigFile| ==> ConfigFile[t] != '/';
    }
  }

  /** Nor does vite.config.ts. */
  lemma ViteNotConfig(cwd: string)
    ensures PathJoin(cwd, ViteConfigFile) != ConfigPath(cwd)
  {
    assert PathJoin(cwd, ViteConfigFile)[|cwd| + 1] != ConfigPath(cwd)[|cwd| + 1];
  }

  lemma CopyAllKeepsConfig(env: InitEnv, c: RdsConfig, dir: string, files: seq<string>,
                           transform: bool, w: World)
    ensures var r := CopyAll(env, c, dir, files, transform, w);
      (ConfigPath(env.cwd) in r.1.files <==> ConfigPath(env.cwd) in w.files)
      && (ConfigPath(env.cwd) in w.files ==> r.1.files[ConfigPath(env.cwd)] == w.files[ConfigPath(env.cwd)])
  {
    forall i | 0 <= i < |files| ensures CopyPath(env.cwd, dir, files[i]) != ConfigPath(env.cwd) {
      CopyPathNotConfig(env.cwd, dir, files[i]);
    }
    if ConfigPath(env.cwd) in w.files {
      CopyAllUntouched(env, c, dir, files, transform, w, ConfigPath(env.cwd));
    }
    CopyAllKeys(env, c, dir, files, transform, w);
  }

  /** A copy loop only adds copy destinations. */
  lemma {:induction false} CopyAllKeys(env: InitEnv, c: RdsConfig, dir: string, files: seq<string>,
                                       transform: bool, w: World)
    ensures var r := CopyAll(env, c, dir, files, transform, w);
      w.files.Keys <= r.1.files.Keys
      && forall q :: q in r.1.files && q !in w.files ==> !NotCopiedTo(env.cwd, dir, files, q)
    decreases |files|
  {
    if |files| > 0 {
      var s := CopyStep(env, c, dir, files[0], transform, w);
      if s.0 == Done {
        CopyAllKeys(env, c, dir, files[1..], transform, s.1);
        forall q | !NotCopiedTo(env.cwd, dir, files[1..], q) ensures !NotCopiedTo(env.cwd, dir, files, q) {
          var i :| 0 <= i < |files[1..]| && CopyPath(env.cwd, dir, files[1..][i]) == q;
          assert files[1..][i] == files[i + 1];
        }
      }
    }
  }

  /** The steps after the registry is fetched: the utils files, the styles, rds-ui.json,
      then the install of the deduped dependencies. */
  function InitFiles(env: InitEnv, c: RdsConfig, reg: RegistryIndex, w: World): (r: (Outcome, World))
    ensures r.1.answers == w.answers
  {
    var u := CopyAll(env, c, c.libDir, reg.lib.utils.files, true, w);
    if u.0 != Done then u
    else
      var s := CopyAll(env, c, c.stylesDir, reg.styles.files, false, u.1);
      if s.0 != Done then s
      else
        (Done, FinishInit(env, c, reg, s.1))
  }

  /** saveConfig, then installDependencies. */
  function FinishInit(env: InitEnv, c: RdsConfig, reg: RegistryIndex, w: World): (r: World)
    ensures r.answers == w.answers
    ensures r.files == SaveConfig(w.files, env.cwd, c)
    ensures r.log == w.log + [Created(ConfigFile),
      Installed(InstallDependencies(r.files.Keys, env.cwd, InitDependencies(reg), false, env.failing))]
  {
    var saved := Emit(w.(files := SaveConfig(w.files, env.cwd, c)), Created(ConfigFile));
    Emit(saved, Installed(InstallDependencies(saved.files.Keys, env.cwd, InitDependencies(reg), false, env.failing)))
  }

  /** rds-ui.json is written only after both copy loops complete: a run that stops early
      leaves it as it was, and a completed run leaves the chosen settings loadable. */
  lemma ConfigSavedLast(env: InitEnv, c: RdsConfig, reg: RegistryIndex, w: World)
    ensures var r := InitFiles(env, c, reg, w);
      r.0 != Done ==>
        (ConfigPath(env.cwd) in r.1.files <==> ConfigPath(env.cwd) in w.files)
        && (ConfigPath(env.cwd) in w.files ==> r.1.files[ConfigPath(env.cwd)] == w.files[ConfigPath(env.cwd)])
    ensures var r := InitFiles(env, c, reg, w);
      r.0 == Done ==> LoadConfig(r.1.files, env.cwd) == Ok(c)
  {
    var u := CopyAll(env, c, c.libDir, reg.lib.utils.files, true, w);
    CopyAllKeepsConfig(env, c, c.libDir, reg.lib.utils.files, true, w);
    if u.0 == Done {
      var s := CopyAll(env, c, c.stylesDir, reg.styles.files, false, u.1);
      CopyAllKeepsConfig(env, c, c.stylesDir, reg.styles.files, false, u.1);
      if s.0 == Done {
        SaveThenLoad(s.1.files, env.cwd, c);
      }
    }
  }

  /** A completed run leaves each utils file, transformed, under libDir, unless a later
      utils file or a style lands on the same path. */
  lemma InitUtilsWritten(env: InitEnv, c: RdsConfig, reg: RegistryIndex, w: World, i: nat)
    requires i < |reg.lib.utils.files| && LastAt(env.cwd, c.libDir, reg.lib.utils.files, i)
    requires NotCopiedTo(env.cwd, c.stylesDir, reg.styles.files, CopyPath(env.cwd, c.libDir, reg.lib.utils.files[i]))
    ensures var r := InitFiles(env, c, reg, w);
      var file := reg.lib.utils.files[i];
      r.0 == Done ==>
        file in env.source && CopyPath(env.cwd, c.libDir, file) in r.1.files
        && r.1.files[CopyPath(env.cwd, c.libDir, file)] == TransformAliasImports(env.source[file], c)
  {
    var utils, styles := reg.lib.utils.files, reg.styles.files;
    var u := CopyAll(env, c, c.libDir, utils, true, w);
    if u.0 == Done {
      var q := CopyPath(env.cwd, c.libDir, utils[i]);
      CopyAllContentAt(env, c, c.libDir, utils, true, w, i);
      CopyAllUntouched(env, c, c.stylesDir, styles, false, u.1, q);
      CopyPathNotConfig(env.cwd, c.libDir, utils[i]);
    }
  }

  /** A completed run leaves each style, verbatim, under stylesDir, unless a later style
      lands on the same path. */
  lemma InitStylesWritten(env: InitEnv, c: RdsConfig, reg: RegistryIndex, w: World, i: nat)
    requires i < |reg.styles.files| && LastAt(env.cwd, c.stylesDir, reg.styles.files, i)
    ensures var r := InitFiles(env, c, reg, w);
      var file := reg.styles.files[i];
      r.0 == Done ==>
        file in env.source && CopyPath(env.cwd, c.stylesDir, file) in r.1.files
        && r.1.files[CopyPath(env.cwd, c.stylesDir, file)] == env.source[file]
  {
    var u := CopyAll(env, c, c.libDir, reg.lib.utils.files, true, w);
    if u.0 == Done {
      CopyAllContentAt(env, c, c.stylesDir, reg.styles.files, false, u.1, i);
      CopyPathNotConfig(env.cwd, c.stylesDir, reg.styles.files[i]);
    }
  }

  /** A completed run ends by installing the dependency list with the package manager
      detected from the files present at that point; the list is never empty, so the
      install always runs. */
  lemma InitInstallsLast(env: InitEnv, c: RdsConfig, reg: RegistryIndex, w: World)
    ensures var r := InitFiles(env, c, reg, w);
      r.0 == Done ==>
        |r.1.log| > 0
        && r.1.log[|r.1.log| - 1]
             == Installed(InstallDependencies(r.1.files.Keys, env.cwd, InitDependencies(reg), false, env.failing))
        && r.1.log[|r.1.log| - 1].run.Ran?
  {
  }

  // ---- the config edits as world steps ----

  /** updateViteConfig on the world. */
  function ViteStep(cwd: string, c: RdsConfig, w: World): (r: World)
    ensures r.answers == w.answers
    ensures PathJoin(cwd, ViteConfigFile) in r.files
    ensures forall q :: q != PathJoin(cwd, ViteConfigFile) ==>
      (q in r.files <==> q in w.files) && (q in w.files ==> r.files[q] == w.files[q])
  {
    var path := PathJoin(cwd, ViteConfigFile);
    match UpdateViteConfig(if path in w.files then Some(w.files[path]) else None, c)
    case Create(content) => Emit(WriteFile(w, path, content), Created(ViteConfigFile))
    case AlreadyConfigured => Emit(w, Workspace.AlreadyConfigured(ViteConfigFile))
    case Update(content) => Emit(WriteFile(w, path, content), Updated(ViteConfigFile))
  }

  /** The vite edit leaves rds-ui.json as it was. */
  lemma ViteStepKeepsConfig(cwd: string, c: RdsConfig, w: World)
    ensures var r := ViteStep(cwd, c, w);
      (ConfigPath(cwd) in r.files <==> ConfigPath(cwd) in w.files)
      && (ConfigPath(cwd) in w.files ==> r.files[ConfigPath(cwd)] == w.files[ConfigPath(cwd)])
  {
    ViteNotConfig(cwd);
  }

  /** What updateTsConfig reports. */
  function TsReport(o: TsOutcome): Event {
    match o
    case TsCreated => Created(TsConfigFile)
    case TsUpdated => Updated(TsConfigFile)
    case TsReferencesUpdated(found) => if found then Updated(TsConfigFile) else AppConfigNotFound
  }

  /** updateTsConfig on the store, with its report. */
  function TsStep(cwd: string, c: RdsConfig, ts: Store, w: World): (r: (Store, World))
    ensures r.1.files == w.files && r.1.answers == w.answers
  {
    var u := UpdateTsConfig(ts, cwd, c);
    (u.0, Emit(w, TsReport(u.1)))
  }

  /** The steps after the settings are known. */
  function InitWith(env: InitEnv, c: RdsConfig, w: World, ts: Store): (r: (Outcome, World, Store))
  {
    var w1 := ViteStep(env.cwd, c, w);
    var t := TsStep(env.cwd, c, ts, w1);
    if env.registry.None? then (Crash(RegistryUnavailable), t.1, t.0)
    else
      var f := InitFiles(env, c, env.registry.value, t.1);
      (f.0, f.1, t.0)
  }

  /** init(options) from the world `w` and the tsconfig store `ts`. */
  function InitResult(env: InitEnv, yes: bool, w: World, ts: Store): (r: (Outcome, World, Store))
  {
    if PathJoin(env.cwd, PackageJson) !in w.files then (Exit(1), w, ts)
    else if ConfigExists(w.files, env.cwd) && !yes then
      var a := Ask(w);
      if !a.0 then (Exit(0), a.1, ts) else InitWith(env, env.answered, a.1, ts)
    else InitWith(env, if yes then DefaultConfig() else env.answered, w, ts)
  }

  /** Outside a project root nothing happens; an existing rds-ui.json is only replaced
      after a confirmation, unless `--yes` is given; `--yes` uses the default settings. */
  lemma InitGuards(env: InitEnv, yes: bool, w: World, ts: Store)
    ensures PathJoin(env.cwd, PackageJson) !in w.files ==> InitResult(env, yes, w, ts) == (Exit(1), w, ts)
    ensures PathJoin(env.cwd, PackageJson) in w.files && ConfigExists(w.files, env.cwd) && !yes ==>
      (|w.answers| == 0 || !w.answers[0] <==> InitResult(env, yes, w, ts).0 == Exit(0))
    ensures (PathJoin(env.cwd, PackageJson) in w.files && ConfigExists(w.files, env.cwd) && !yes
             && (|w.answers| == 0 || !w.answers[0])) ==>
      var r := InitResult(env, yes, w, ts);
      r.1.files == w.files && r.1.log == w.log && r.2 == ts
    ensures PathJoin(env.cwd, PackageJson) in w.files && yes ==>
      InitResult(env, yes, w, ts) == InitWith(env, DefaultConfig(), w, ts)
  {
    if PathJoin(env.cwd, PackageJson) in w.files && ConfigExists(w.files, env.cwd) && !yes
       && |w.answers| > 0 && w.answers[0]
    {
      InitWithNeverExits(env, env.answered, w.(answers := w.answers[1..]), ts);
    }
  }

  /** Once the settings are known the run never exits with a code. */
  lemma InitWithNeverExits(env: InitEnv, c: RdsConfig, w: World, ts: Store)
    ensures !InitWith(env, c, w, ts).0.Exit?
  {
    if env.registry.Some? {
      var t := TsStep(env.cwd, c, ts, ViteStep(env.cwd, c, w));
      var reg := env.registry.value;
      var u := CopyAll(env, c, c.libDir, reg.lib.utils.files, true, t.1);
      if u.0 == Done {
        var s := CopyAll(env, c, c.stylesDir, reg.styles.files, false, u.1);
      }
    }
  }

  // ---- the command, step by step ----

  /** One copy loop. */
  method CopyFiles(p: Project, env: InitEnv, c: RdsConfig, dir: string, files: seq<string>,
                   transform: bool) returns (o: Outcome)
    modifies p
    ensures (o, p.State()) == CopyAll(env, c, dir, files, transform, old(p.State()))
  {
    ghost var target := CopyAll(env, c, dir, files, transform, p.State());
    for i := 0 to |files|
      invariant CopyAll(env, c, dir, files[i..], transform, p.State()) == target
    {
      assert files[i..][1..] == files[i + 1..];
      var file := files[i];
      if file !in env.source {
        return Crash(FetchFailed(file));
      }
      var content := env.source[file];
      if transform {
        content := TransformAliasImports(content, c);
      }
      var fileName := Basename(file);
      p.Write(PathJoin(PathJoin(env.cwd, dir), fileName), content);
      p.Report(Created(dir + "/" + fileName));
    }
    assert files[|files|..] == [];
    return Done;
  }

  /** updateViteConfig: `content` is read, edited in place and written back. */
  method UpdateVite(p: Project, cwd: string, c: RdsConfig)
    modifies p
    ensures p.State() == ViteStep(cwd, c, old(p.State()))
  {
    var viteConfigPath := PathJoin(cwd, ViteConfigFile);
    if viteConfigPath !in p.files {
      p.Write(viteConfigPath, CreatedViteConfig(c));
      p.Report(Created(ViteConfigFile));
      return;
    }
    var content := p.files[viteConfigPath];
    if Contains(content, Quote(c.alias)) {
      p.Report(Workspace.AlreadyConfigured(ViteConfigFile));
      return;
    }
    content := InsertAfterBrace(content, InsertionHead(content), InsertionText(content, c));
    content := WithPathImport(content);
    p.Write(viteConfigPath, content);
    p.Report(Updated(ViteConfigFile));
  }

  /** updateTsConfig: the referenced configs are updated in the loop, then the root. */
  method UpdateTs(p: Project, cwd: string, c: RdsConfig, ts: Store) returns (out: Store)
    modifies p
    ensures (out, p.State()) == TsStep(cwd, c, ts, old(p.State()))
  {
    var tsConfigPath := PathJoin(cwd, TsConfigFile);
    var paths := NewPaths(c);
    if tsConfigPath !in ts {
      out := ts[tsConfigPath := DefaultTsConfig(c)];
      p.Report(Created(TsConfigFile));
      return;
    }
    var tsConfig := ts[tsConfigPath];
    var found := false;
    out := ts;
    if UsesProjectReferences(tsConfig) {
      out, found := UpdateReferencedConfigs(ts, cwd, tsConfig.references.value, paths);
    }
    var co := OptionsOf(tsConfig);
    var merged := MergePaths(co.paths, paths);
    out := out[tsConfigPath := tsConfig.(compilerOptions := Some(co.(baseUrl := Some(BaseUrlOrDot(co.baseUrl)),
                                                                     paths := Some(merged))))];
    if !UsesProjectReferences(tsConfig) || found {
      p.Report(Updated(TsConfigFile));
    } else {
      p.Report(AppConfigNotFound);
    }
  }

  /** The steps after the registry is fetched. */
  method WriteFiles(p: Project, env: InitEnv, c: RdsConfig, reg: RegistryIndex) returns (o: Outcome)
    modifies p
    ensures (o, p.State()) == InitFiles(env, c, reg, old(p.State()))
  {
    o := CopyFiles(p, env, c, c.libDir, reg.lib.utils.files, true);
    if o != Done {
      return;
    }
    o := CopyFiles(p, env, c, c.stylesDir, reg.styles.files, false);
    if o != Done {
      return;
    }
    p.files := SaveConfig(p.files, env.cwd, c);
    p.Report(Created(ConfigFile));
    var uniqueDeps := InitDependencies(reg);
    p.Report(Installed(InstallDependencies(p.files.Keys, env.cwd, uniqueDeps, false, env.failing)));
  }

  /** init(options). */
  method Init(p: Project, env: InitEnv, yes: bool, ts: Store) returns (o: Outcome, out: Store)
    modifies p
    ensures (o, p.State(), out) == InitResult(env, yes, old(p.State()), ts)
  {
    out := ts;
    if PathJoin(env.cwd, PackageJson) !in p.files {
      return Exit(1), out;
    }
    if ConfigExists(p.files, env.cwd) && !yes {
      var overwrite := p.Confirm();
      if !overwrite {
        return Exit(0), out;
      }
    }
    var config := if yes then DefaultConfig() else env.answered;
    UpdateVite(p, env.cwd, config);
    out := UpdateTs(p, env.cwd, config, ts);
    if env.registry.None? {
      return Crash(RegistryUnavailable), out;
    }
    o := WriteFiles(p, env, config, env.registry.value);
  }
}
