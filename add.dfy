/** The `add` command. `AddResult` states, as a function of the environment and the world
    before the call, what a call of `add` returns and leaves behind; `Add` is the command
    written step by step over a `Project`, proved to agree with it.

    The environment is fixed for a run: the working directory, the registry manifest
    (None when it cannot be fetched), the registry's files by path (a path missing from
    the map cannot be fetched), the components picked at the multi-select prompt, and
    the install commands that fail. `process.exit(code)` ends the whole process, also
    from inside a nested call, and so does an uncaught error; both are outcomes. */
module AddCommand {
  import opened Wrappers
  import opened Text
  import opened Lists
  import opened Registry
  import opened Config
  import opened Transformer
  import opened Packages
  import opened Workspace

  datatype AddOptions = AddOptions(yes: bool, overwrite: bool)

  datatype Env = Env(
    cwd: string,
    registry: Option<RegistryIndex>,
    source: map<string, string>,
    selection: seq<string>,
    failing: set<string>)

  // ---- termination: the source recurses on registry dependencies without a guard ----

  /** Every component dependency of a component, other than the component itself, has a
      smaller rank: the dependency graph restricted to component keys (present in the
      registry or not) has no cycle except self-loops. A self-dependency is harmless, since
      a call never re-adds its own components. */
  predicate Ranked(reg: RegistryIndex, rank: map<string, nat>) {
    forall k :: k in reg.components ==>
      k in rank
      && forall d :: d in reg.components[k].registryDependencies && !IsLibKey(d) && d != k ==>
           d in rank && rank[d] < rank[k]
  }

  predicate Acyclic(env: Env, rank: map<string, nat>) {
    env.registry.Some? ==> Ranked(env.registry.value, rank)
  }

  function KeyHeight(rank: map<string, nat>, k: string): nat {
    if k in rank then rank[k] + 1 else 0
  }

  /** The largest height among the keys. */
  function MaxHeight(rank: map<string, nat>, ks: seq<string>): (h: nat)
    ensures forall k :: k in ks ==> KeyHeight(rank, k) <= h
    decreases |ks|
  {
    if |ks| == 0 then 0
    else
      var t := MaxHeight(rank, ks[1..]);
      assert forall k :: k in ks ==> k == ks[0] || k in ks[1..];
      if KeyHeight(rank, ks[0]) > t then KeyHeight(rank, ks[0]) else t
  }

  // ---- the steps ----

  /** The keys a call works on: the arguments, or the multi-select answer without them. */
  function Requested(keys: seq<string>, env: Env): seq<string> {
    if |keys| == 0 then env.selection else keys
  }

  /** Every key names a component of the registry. */
  predicate AllKnown(reg: RegistryIndex, ks: seq<string>) {
    forall i :: 0 <= i < |ks| ==> ks[i] in reg.components
  }

  /** `path.join(cwd, config.componentsDir, comp.name, fileName)` */
  function DestPath(cwd: string, config: RdsConfig, name: string, fileName: string): string {
    PathJoin(PathJoin(PathJoin(cwd, config.componentsDir), name), fileName)
  }

  /** The path the CLI reports after writing: relative to the project, without cwd. */
  function CreatedPath(config: RdsConfig, name: string, fileName: string): string {
    config.componentsDir + "/" + name + "/" + fileName
  }

  /** `libDep.replace('lib/', '') + '.ts'` under `cwd/libDir`. */
  function LibFilePath(cwd: string, config: RdsConfig, key: string): string {
    PathJoin(PathJoin(cwd, config.libDir), ReplaceFirst(key, LibPrefix, "") + ".ts")
  }

  /** The warnings for lib keys whose file is missing, in the order of the keys. */
  function MissingLibEvents(cwd: string, config: RdsConfig, files: map<string, string>,
                            libs: seq<string>): (r: seq<Event>)
    ensures |r| <= |libs|
    ensures forall i :: 0 <= i < |r| ==>
      r[i].MissingLib? && r[i].key in libs && LibFilePath(cwd, config, r[i].key) !in files
    ensures forall i :: 0 <= i < |libs| && LibFilePath(cwd, config, libs[i]) !in files ==>
      MissingLib(libs[i]) in r
    decreases |libs|
  {
    if |libs| == 0 then []
    else
      var init := MissingLibEvents(cwd, config, files, libs[..|libs| - 1]);
      var last := libs[|libs| - 1];
      assert forall i :: 0 <= i < |libs| - 1 ==> libs[i] == libs[..|libs| - 1][i];
      if LibFilePath(cwd, config, last) !in files then init + [MissingLib(last)] else init
  }

  /** The presence check of lib keys: only the log changes. */
  function WarnMissingLibs(cwd: string, config: RdsConfig, libs: seq<string>, w: World): World {
    w.(log := w.log + MissingLibEvents(cwd, config, w.files, libs))
  }

  /** One file of a component: the conflict policy, then fetch, transform and write. */
  function FileStep(env: Env, config: RdsConfig, name: string, file: string, opts: AddOptions,
                    w: World): (Outcome, World)
  {
    var fileName := Basename(file);
    var dest := DestPath(env.cwd, config, name, fileName);
    if dest in w.files && !opts.overwrite then
      if !opts.yes then
        var (answer, w1) := Ask(w);
        if !answer then (Done, Emit(w1, Skipped(fileName)))
        else Fetch(env, config, name, file, w1)
      else (Done, Emit(w, SkippedExisting(fileName)))
    else Fetch(env, config, name, file, w)
  }

  /** fetchFile, transformImports and the write; a file that cannot be fetched ends the run. */
  function Fetch(env: Env, config: RdsConfig, name: string, file: string, w: World): (Outcome, World) {
    var fileName := Basename(file);
    if file !in env.source then (Crash(FetchFailed(file)), w)
    else
      var content := TransformImports(env.source[file], config);
      (Done, Emit(WriteFile(w, DestPath(env.cwd, config, name, fileName), content),
                  Created(CreatedPath(config, name, fileName))))
  }

  /** The files of one component, in declared order, stopping at a failure. */
  function MaterializeFiles(env: Env, config: RdsConfig, name: string, files: seq<string>,
                            opts: AddOptions, w: World): (Outcome, World)
    decreases |files|
  {
    if |files| == 0 then (Done, w)
    else
      var s := FileStep(env, config, name, files[0], opts, w);
      if s.0 != Done then s else MaterializeFiles(env, config, name, files[1..], opts, s.1)
  }

  /** The components, in the order requested. */
  function MaterializeAll(env: Env, config: RdsConfig, reg: RegistryIndex, comps: seq<string>,
                          opts: AddOptions, w: World): (Outcome, World)
    requires AllKnown(reg, comps)
    decreases |comps|
  {
    if |comps| == 0 then (Done, w)
    else
      var c := reg.components[comps[0]];
      var s := MaterializeFiles(env, config, c.name, c.files, opts, w);
      if s.0 != Done then s else MaterializeAll(env, config, reg, comps[1..], opts, s.1)
  }

  /** `allDeps`: the npm dependencies of the components, concatenated in order. */
  function NpmDeps(reg: RegistryIndex, comps: seq<string>): (r: seq<string>)
    requires AllKnown(reg, comps)
    ensures forall x :: x in r <==> exists j :: 0 <= j < |comps| && x in reg.components[comps[j]].dependencies
    decreases |comps|
  {
    if |comps| == 0 then []
    else
      var init := comps[..|comps| - 1];
      assert forall j :: 0 <= j < |init| ==> init[j] == comps[j];
      NpmDeps(reg, init) + reg.components[comps[|comps| - 1]].dependencies
  }

  /** `allRegistryDeps`: the registry dependencies of the components, in order. */
  function RegistryDeps(reg: RegistryIndex, comps: seq<string>): (r: seq<string>)
    requires AllKnown(reg, comps)
    ensures forall x :: x in r <==>
      exists j :: 0 <= j < |comps| && x in reg.components[comps[j]].registryDependencies
    decreases |comps|
  {
    if |comps| == 0 then []
    else
      var init := comps[..|comps| - 1];
      assert forall j :: 0 <= j < |init| ==> init[j] == comps[j];
      RegistryDeps(reg, init) + reg.components[comps[|comps| - 1]].registryDependencies
  }

  /** `uniqueRegistryDeps`: the registry dependencies without duplicates and without the
      components of this call. */
  function PendingDeps(reg: RegistryIndex, comps: seq<string>): (r: seq<string>)
    requires AllKnown(reg, comps)
    ensures NoDup(r)
    ensures forall i :: 0 <= i < |r| ==> r[i] !in comps && r[i] in RegistryDeps(reg, comps)
    ensures forall x :: x in RegistryDeps(reg, comps) && x !in comps ==> x in r
  {
    var all := RegistryDeps(reg, comps);
    var d := Dedupe(all);
    assert forall x :: x in all ==> x in d by {
      forall x | x in all ensures x in d {
        var i :| 0 <= i < |all| && all[i] == x;
      }
    }
    Without(d, comps)
  }

  /** The pending keys come in the order of their first occurrence among the registry
      dependencies of the call's components. */
  lemma PendingDepsOrder(reg: RegistryIndex, comps: seq<string>)
    requires AllKnown(reg, comps)
    ensures var all, r := RegistryDeps(reg, comps), PendingDeps(reg, comps);
      forall i, j :: 0 <= i < j < |r| ==> IndexOf(all, r[i]) < IndexOf(all, r[j])
  {
    var all, r := RegistryDeps(reg, comps), PendingDeps(reg, comps);
    var d := Dedupe(all);
    assert r == Without(d, comps);
    WithoutOrder(d, comps);
    DedupeOrder(all);
    forall i, j | 0 <= i < j < |r| ensures IndexOf(all, r[i]) < IndexOf(all, r[j]) {
      var p, q := IndexOf(d, r[i]), IndexOf(d, r[j]);
      assert p < q;
      assert d[p] == r[i] && d[q] == r[j];
    }
  }

  /** The component dependencies still to add rank below the requested keys. */
  lemma PendingBelow(reg: RegistryIndex, rank: map<string, nat>, requested: seq<string>)
    requires Ranked(reg, rank)
    requires AllKnown(reg, ComponentKeys(requested))
    ensures var deps := ComponentKeys(PendingDeps(reg, ComponentKeys(requested)));
      forall i :: 0 <= i < |deps| ==> KeyHeight(rank, deps[i]) < MaxHeight(rank, requested)
  {
    var actual := ComponentKeys(requested);
    var pending := PendingDeps(reg, actual);
    var deps := ComponentKeys(pending);
    forall i | 0 <= i < |deps|
      ensures KeyHeight(rank, deps[i]) < MaxHeight(rank, requested)
    {
      var d := deps[i];
      assert d in pending && !IsLibKey(d);
      var n :| 0 <= n < |pending| && pending[n] == d;
      assert d in RegistryDeps(reg, actual);
      var j :| 0 <= j < |actual| && d in reg.components[actual[j]].registryDependencies;
      var k := actual[j];
      assert k in reg.components && d != k;
      assert k in requested;
    }
  }

  /** The npm install at the end of a call: nothing when there is nothing to install. */
  function InstallStep(env: Env, deps: seq<string>, w: World): (r: World)
    ensures r.files == w.files && r.answers == w.answers
    ensures |deps| == 0 ==> r == w
    ensures |deps| > 0 ==>
      var pm := DetectPackageManager(w.files.Keys, env.cwd);
      r.log == w.log + [Installed(Ran(pm, InstallCommand(pm, deps, false),
                                      InstallCommand(pm, deps, false) !in env.failing))]
  {
    if |deps| == 0 then w
    else Emit(w, Installed(InstallDependencies(w.files.Keys, env.cwd, deps, false, env.failing)))
  }

  /** add(components, options) from the world `w`. */
  function AddResult(env: Env, rank: map<string, nat>, keys: seq<string>, opts: AddOptions,
                     w: World): (Outcome, World)
    requires Acyclic(env, rank)
    decreases MaxHeight(rank, Requested(keys, env)), 3, 0
  {
    if !ConfigExists(w.files, env.cwd) then (Exit(1), w)
    else match LoadConfig(w.files, env.cwd)
      case Err(_) => (Crash(MalformedConfig), w)
      case Ok(config) =>
        if env.registry.None? then (Crash(RegistryUnavailable), w)
        else AddRequested(env, rank, config, Requested(keys, env), opts, w)
  }

  /** The part of add after the config is loaded and the registry fetched: the split of
      the keys, the lib warnings and the validation. */
  function AddRequested(env: Env, rank: map<string, nat>, config: RdsConfig,
                        requested: seq<string>, opts: AddOptions, w: World): (Outcome, World)
    requires env.registry.Some? && Ranked(env.registry.value, rank)
    decreases MaxHeight(rank, requested), 2, 0
  {
    if |requested| == 0 then (Exit(0), w)
    else
      var w1 := WarnMissingLibs(env.cwd, config, LibKeys(requested), w);
      var actual := ComponentKeys(requested);
      if |actual| == 0 then (Done, w1)
      else if !AllKnown(env.registry.value, actual) then (Exit(1), w1)
      else AddKnown(env, rank, config, requested, opts, w1)
  }

  /** The part of add after validation: the components, the registry dependencies, the
      nested calls and the install. */
  function AddKnown(env: Env, rank: map<string, nat>, config: RdsConfig,
                    requested: seq<string>, opts: AddOptions, w: World): (Outcome, World)
    requires env.registry.Some? && Ranked(env.registry.value, rank)
    requires AllKnown(env.registry.value, ComponentKeys(requested))
    decreases MaxHeight(rank, requested), 1, 0
  {
    var reg := env.registry.value;
    var actual := ComponentKeys(requested);
    var m := MaterializeAll(env, config, reg, actual, opts, w);
    if m.0 != Done then m
    else
      var pending := PendingDeps(reg, actual);
      var w3 := WarnMissingLibs(env.cwd, config, LibKeys(pending), m.1);
      PendingBelow(reg, rank, requested);
      var e := AddEach(env, rank, ComponentKeys(pending), opts.(yes := true),
                       MaxHeight(rank, requested), w3);
      if e.0 != Done then e
      else (Done, InstallStep(env, Dedupe(NpmDeps(reg, actual)), e.1))
  }

  /** `for (const dep of componentDeps) await add([dep], { ...options, yes: true })` */
  function AddEach(env: Env, rank: map<string, nat>, deps: seq<string>, opts: AddOptions,
                   bound: nat, w: World): (Outcome, World)
    requires Acyclic(env, rank)
    requires forall i :: 0 <= i < |deps| ==> KeyHeight(rank, deps[i]) < bound
    decreases bound, 0, |deps|
  {
    if |deps| == 0 then (Done, w)
    else
      assert Requested([deps[0]], env) == [deps[0]];
      assert [deps[0]][1..] == [];
      assert MaxHeight(rank, [deps[0]]) == KeyHeight(rank, deps[0]);
      var s := AddResult(env, rank, [deps[0]], opts, w);
      if s.0 != Done then s else AddEach(env, rank, deps[1..], opts, bound, s.1)
  }

  // ---- the command over a Project ----

  /** The presence check of lib keys, as both loops of the source run it. */
  method CheckLibs(p: Project, cwd: string, config: RdsConfig, libs: seq<string>)
    modifies p
    ensures p.State() == WarnMissingLibs(cwd, config, libs, old(p.State()))
  {
    ghost var w := p.State();
    for i := 0 to |libs|
      invariant p.State() == w.(log := w.log + MissingLibEvents(cwd, config, w.files, libs[..i]))
    {
      assert libs[..i + 1][..i] == libs[..i];
      if LibFilePath(cwd, config, libs[i]) !in p.files {
        p.Report(MissingLib(libs[i]));
      }
    }
    assert libs[..|libs|] == libs;
  }

  /** The validation loop: every requested component must be in the registry. */
  method Validate(reg: RegistryIndex, comps: seq<string>) returns (ok: bool)
    ensures ok <==> AllKnown(reg, comps)
  {
    for i := 0 to |comps|
      invariant forall j :: 0 <= j < i ==> comps[j] in reg.components
    {
      if comps[i] !in reg.components {
        return false;
      }
    }
    return true;
  }

  /** One iteration of the inner file loop. */
  method AddFile(p: Project, env: Env, config: RdsConfig, name: string, file: string,
                 opts: AddOptions) returns (o: Outcome)
    modifies p
    ensures (o, p.State()) == FileStep(env, config, name, file, opts, old(p.State()))
  {
    var fileName := Basename(file);
    var destPath := DestPath(env.cwd, config, name, fileName);
    if destPath in p.files && !opts.overwrite {
      if !opts.yes {
        var overwrite := p.Confirm();
        if !overwrite {
          p.Report(Skipped(fileName));
          return Done;
        }
      } else {
        p.Report(SkippedExisting(fileName));
        return Done;
      }
    }
    if file !in env.source {
      return Crash(FetchFailed(file));
    }
    var content := env.source[file];
    content := TransformImports(content, config);
    p.Write(destPath, content);
    p.Report(Created(CreatedPath(config, name, fileName)));
    return Done;
  }

  /** The inner loop over a component's files. */
  method AddFiles(p: Project, env: Env, config: RdsConfig, name: string, files: seq<string>,
                  opts: AddOptions) returns (o: Outcome)
    modifies p
    ensures (o, p.State()) == MaterializeFiles(env, config, name, files, opts, old(p.State()))
  {
    ghost var target := MaterializeFiles(env, config, name, files, opts, p.State());
    for i := 0 to |files|
      invariant MaterializeFiles(env, config, name, files[i..], opts, p.State()) == target
    {
      assert files[i..][1..] == files[i + 1..];
      o := AddFile(p, env, config, name, files[i], opts);
      if o != Done {
        return;
      }
    }
    o := Done;
  }

  /** The outer loop over the components, collecting `allDeps` and `allRegistryDeps`. */
  method AddComponents(p: Project, env: Env, config: RdsConfig, reg: RegistryIndex,
                       comps: seq<string>, opts: AddOptions)
      returns (o: Outcome, allDeps: seq<string>, allRegistryDeps: seq<string>)
    requires AllKnown(reg, comps)
    modifies p
    ensures (o, p.State()) == MaterializeAll(env, config, reg, comps, opts, old(p.State()))
    ensures o == Done ==> allDeps == NpmDeps(reg, comps) && allRegistryDeps == RegistryDeps(reg, comps)
  {
    ghost var target := MaterializeAll(env, config, reg, comps, opts, p.State());
    allDeps, allRegistryDeps := [], [];
    for i := 0 to |comps|
      invariant AllKnown(reg, comps[i..]) && AllKnown(reg, comps[..i])
      invariant MaterializeAll(env, config, reg, comps[i..], opts, p.State()) == target
      invariant allDeps == NpmDeps(reg, comps[..i])
      invariant allRegistryDeps == RegistryDeps(reg, comps[..i])
    {
      assert comps[i..][1..] == comps[i + 1..];
      assert comps[..i + 1][..i] == comps[..i];
      var comp := reg.components[comps[i]];
      allDeps := allDeps + comp.dependencies;
      allRegistryDeps := allRegistryDeps + comp.registryDependencies;
      o := AddFiles(p, env, config, comp.name, comp.files, opts);
      if o != Done {
        return;
      }
    }
    assert comps[..|comps|] == comps;
    o := Done;
  }

  /** The loop of recursive calls on the component dependencies. */
  method AddDependencies(p: Project, env: Env, ghost rank: map<string, nat>, deps: seq<string>,
                         opts: AddOptions, ghost bound: nat) returns (o: Outcome)
    requires Acyclic(env, rank)
    requires forall i :: 0 <= i < |deps| ==> KeyHeight(rank, deps[i]) < bound
    modifies p
    ensures (o, p.State()) == AddEach(env, rank, deps, opts, bound, old(p.State()))
    decreases bound, 0, |deps|
  {
    ghost var target := AddEach(env, rank, deps, opts, bound, p.State());
    for i := 0 to |deps|
      invariant AddEach(env, rank, deps[i..], opts, bound, p.State()) == target
    {
      assert deps[i..][1..] == deps[i + 1..];
      assert [deps[i]][1..] == [];
      assert MaxHeight(rank, [deps[i]]) == KeyHeight(rank, deps[i]);
      o := Add(p, env, rank, [deps[i]], opts);
      if o != Done {
        return;
      }
    }
    o := Done;
  }

  /** add(components, options) */
  method Add(p: Project, env: Env, ghost rank: map<string, nat>, keys: seq<string>,
             opts: AddOptions) returns (o: Outcome)
    requires Acyclic(env, rank)
    modifies p
    ensures (o, p.State()) == AddResult(env, rank, keys, opts, old(p.State()))
    decreases MaxHeight(rank, Requested(keys, env)), 3, 0
  {
    if !ConfigExists(p.files, env.cwd) {
      return Exit(1);
    }
    var loaded := LoadConfig(p.files, env.cwd);
    if loaded.Err? {
      return Crash(MalformedConfig);
    }
    var config := loaded.value;
    if env.registry.None? {
      return Crash(RegistryUnavailable);
    }
    o := AddRequestedKeys(p, env, rank, config, Requested(keys, env), opts);
  }

  /** add after the config is loaded and the registry fetched. */
  method AddRequestedKeys(p: Project, env: Env, ghost rank: map<string, nat>, config: RdsConfig,
                          components: seq<string>, opts: AddOptions) returns (o: Outcome)
    requires env.registry.Some? && Ranked(env.registry.value, rank)
    modifies p
    ensures (o, p.State()) == AddRequested(env, rank, config, components, opts, old(p.State()))
    decreases MaxHeight(rank, components), 2, 0
  {
    if |components| == 0 {
      return Exit(0);
    }
    var libComponents := LibKeys(components);
    var actualComponents := ComponentKeys(components);
    CheckLibs(p, env.cwd, config, libComponents);
    if |actualComponents| == 0 {
      return Done;
    }
    var known := Validate(env.registry.value, actualComponents);
    if !known {
      return Exit(1);
    }
    o := AddKnownKeys(p, env, rank, config, components, opts);
  }

  /** add after validation. */
  method AddKnownKeys(p: Project, env: Env, ghost rank: map<string, nat>, config: RdsConfig,
                      components: seq<string>, opts: AddOptions) returns (o: Outcome)
    requires env.registry.Some? && Ranked(env.registry.value, rank)
    requires AllKnown(env.registry.value, ComponentKeys(components))
    modifies p
    ensures (o, p.State()) == AddKnown(env, rank, config, components, opts, old(p.State()))
    decreases MaxHeight(rank, components), 1, 0
  {
    var registry := env.registry.value;
    var actualComponents := ComponentKeys(components);
    var allDeps, allRegistryDeps;
    o, allDeps, allRegistryDeps := AddComponents(p, env, config, registry, actualComponents, opts);
    if o != Done {
      return;
    }
    var uniqueRegistryDeps := Without(Dedupe(allRegistryDeps), actualComponents);
    CheckLibs(p, env.cwd, config, LibKeys(uniqueRegistryDeps));
    PendingBelow(registry, rank, components);
    o := AddDependencies(p, env, rank, ComponentKeys(uniqueRegistryDeps), opts.(yes := true),
                         MaxHeight(rank, components));
    if o != Done {
      return;
    }
    var uniqueDeps := Dedupe(allDeps);
    if |uniqueDeps| > 0 {
      var run := InstallDependencies(p.files.Keys, env.cwd, uniqueDeps, false, env.failing);
      p.Report(Installed(run));
    }
    o := Done;
  }
}
