/** What a call of `add` guarantees, stated over its specification `AddResult`. */
module AddProperties {
  import opened Wrappers
  import opened Text
  import opened Lists
  import opened Registry
  import opened Config
  import opened Transformer
  import opened Packages
  import opened Workspace
  import opened AddCommand

  /** The world after the call differs from the one before only by reports of missing
      lib files. */
  predicate OnlyLibWarnings(w: World, r: World) {
    r.files == w.files && r.answers == w.answers && |w.log| <= |r.log|
    && r.log[..|w.log|] == w.log
    && forall i :: |w.log| <= i < |r.log| ==> r.log[i].MissingLib?
  }

  /** Every file that existed before still exists, with the same content. */
  predicate KeepsFiles(before: map<string, string>, after: map<string, string>) {
    forall q :: q in before ==> q in after && after[q] == before[q]
  }

  /** Without rds-ui.json the call exits with code 1 before anything is fetched, asked,
      written or reported. */
  lemma NoConfigExits(env: Env, rank: map<string, nat>, keys: seq<string>, opts: AddOptions, w: World)
    requires Acyclic(env, rank)
    requires !ConfigExists(w.files, env.cwd)
    ensures AddResult(env, rank, keys, opts, w) == (Exit(1), w)
  {
  }

  lemma WarnOnlyLog(cwd: string, config: RdsConfig, libs: seq<string>, w: World)
    ensures OnlyLibWarnings(w, WarnMissingLibs(cwd, config, libs, w))
  {
    var r := WarnMissingLibs(cwd, config, libs, w);
    var ev := MissingLibEvents(cwd, config, w.files, libs);
    forall i | |w.log| <= i < |r.log| ensures r.log[i].MissingLib? {
      assert r.log[i] == ev[i - |w.log|];
    }
  }

  /** A request made only of `lib/...` keys writes nothing, asks nothing and installs
      nothing: it only reports the lib files that are missing. */
  lemma LibOnlyRequest(env: Env, rank: map<string, nat>, keys: seq<string>, opts: AddOptions, w: World)
    requires Acyclic(env, rank)
    requires LoadConfig(w.files, env.cwd).Ok? && env.registry.Some?
    requires |Requested(keys, env)| > 0
    requires forall i :: 0 <= i < |Requested(keys, env)| ==> IsLibKey(Requested(keys, env)[i])
    ensures AddResult(env, rank, keys, opts, w).0 == Done
    ensures OnlyLibWarnings(w, AddResult(env, rank, keys, opts, w).1)
  {
    var requested := Requested(keys, env);
    var config := LoadConfig(w.files, env.cwd).value;
    WarnOnlyLog(env.cwd, config, LibKeys(requested), w);
  }

  /** A requested component that the registry does not have ends the process with code 1
      before any file is fetched or written, any prompt is shown or anything installed. */
  lemma UnknownComponentExits(env: Env, rank: map<string, nat>, keys: seq<string>, opts: AddOptions,
                              w: World, i: nat)
    requires Acyclic(env, rank)
    requires LoadConfig(w.files, env.cwd).Ok? && env.registry.Some?
    requires i < |Requested(keys, env)|
    requires !IsLibKey(Requested(keys, env)[i])
    requires Requested(keys, env)[i] !in env.registry.value.components
    ensures AddResult(env, rank, keys, opts, w).0 == Exit(1)
    ensures OnlyLibWarnings(w, AddResult(env, rank, keys, opts, w).1)
  {
    var requested := Requested(keys, env);
    var config := LoadConfig(w.files, env.cwd).value;
    var actual := ComponentKeys(requested);
    assert requested[i] in actual;
    assert !AllKnown(env.registry.value, actual);
    WarnOnlyLog(env.cwd, config, LibKeys(requested), w);
  }

  /** The conflict policy for one file whose content can be fetched: an absent destination
      is written; an existing one is written without a prompt under `--overwrite`, kept
      under `--yes`, and otherwise written exactly when the user confirms. */
  lemma FileStepPolicy(env: Env, config: RdsConfig, name: string, file: string,
                       opts: AddOptions, w: World)
    requires file in env.source
    ensures var dest := DestPath(env.cwd, config, name, Basename(file));
      var written := w.files[dest := TransformImports(env.source[file], config)];
      var r := FileStep(env, config, name, file, opts, w);
      r.0 == Done
      && (dest !in w.files ==> r.1.files == written && r.1.answers == w.answers)
      && (dest in w.files && opts.overwrite ==> r.1.files == written && r.1.answers == w.answers)
      && (dest in w.files && !opts.overwrite && opts.yes ==>
            r.1 == Emit(w, SkippedExisting(Basename(file))))
      && (dest in w.files && !opts.overwrite && !opts.yes ==>
            r.1.answers == Ask(w).1.answers
            && (Ask(w).0 ==> r.1.files == written)
            && (!Ask(w).0 ==> r.1.files == w.files))
  {
  }

  /** One file step either leaves the files as they are or writes the transformed
      content of the file to its destination. */
  lemma FileStepWrites(env: Env, config: RdsConfig, name: string, file: string,
                       opts: AddOptions, w: World)
    ensures var s := FileStep(env, config, name, file, opts, w);
      s.1.files == w.files
      || (s.0 == Done && file in env.source
          && s.1.files == w.files[DestPath(env.cwd, config, name, Basename(file))
                                  := TransformImports(env.source[file], config)])
  {
  }

  /** `q` was written by one of the files, with that file's transformed content. */
  predicate WrittenBy(env: Env, config: RdsConfig, name: string, files: seq<string>,
                      q: string, content: string)
  {
    exists i :: 0 <= i < |files| && files[i] in env.source
      && q == DestPath(env.cwd, config, name, Basename(files[i]))
      && content == TransformImports(env.source[files[i]], config)
  }

  lemma WrittenByTail(env: Env, config: RdsConfig, name: string, files: seq<string>,
                      q: string, content: string)
    requires |files| > 0 && WrittenBy(env, config, name, files[1..], q, content)
    ensures WrittenBy(env, config, name, files, q, content)
  {
    var i :| 0 <= i < |files[1..]| && files[1..][i] in env.source
      && q == DestPath(env.cwd, config, name, Basename(files[1..][i]))
      && content == TransformImports(env.source[files[1..][i]], config);
    assert files[i + 1] == files[1..][i];
  }

  /** Every file that a component's loop changes is `componentsDir/name/basename(file)` for
      one of its files, and holds that file's fetched content after transformImports;
      nothing is deleted. */
  lemma {:induction false} MaterializeFilesWrites(env: Env, config: RdsConfig, name: string,
                                                 files: seq<string>, opts: AddOptions, w: World)
    ensures var r := MaterializeFiles(env, config, name, files, opts, w).1;
      (forall q :: q in w.files ==> q in r.files)
      && forall q :: q in r.files && (q !in w.files || r.files[q] != w.files[q]) ==>
           WrittenBy(env, config, name, files, q, r.files[q])
    decreases |files|
  {
    if |files| > 0 {
      var s := FileStep(env, config, name, files[0], opts, w);
      FileStepWrites(env, config, name, files[0], opts, w);
      if s.0 == Done {
        MaterializeFilesWrites(env, config, name, files[1..], opts, s.1);
        var r := MaterializeFiles(env, config, name, files[1..], opts, s.1).1;
        assert MaterializeFiles(env, config, name, files, opts, w).1 == r;
        forall q | q in r.files && (q !in w.files || r.files[q] != w.files[q])
          ensures WrittenBy(env, config, name, files, q, r.files[q])
        {
          if q !in s.1.files || r.files[q] != s.1.files[q] {
            WrittenByTail(env, config, name, files, q, r.files[q]);
          } else {
            assert WrittenBy(env, config, name, files, q, r.files[q]) by {
              assert 0 < |files|;
            }
          }
        }
      }
    }
  }

  // ---- `--overwrite`: every file is written, in declared order ----

  /** The writes a component's files make under `--overwrite`, in declared order. */
  function PlannedWrites(env: Env, config: RdsConfig, name: string, files: seq<string>): (r: seq<(string, string)>)
    requires forall i :: 0 <= i < |files| ==> files[i] in env.source
    ensures |r| == |files|
    decreases |files|
  {
    if |files| == 0 then []
    else
      [(DestPath(env.cwd, config, name, Basename(files[0])),
        TransformImports(env.source[files[0]], config))]
      + PlannedWrites(env, config, name, files[1..])
  }

  /** Applying writes one after the other: a later write to a path replaces an earlier one. */
  function ApplyWrites(files: map<string, string>, writes: seq<(string, string)>): map<string, string>
    decreases |writes|
  {
    if |writes| == 0 then files else ApplyWrites(files[writes[0].0 := writes[0].1], writes[1..])
  }

  lemma AppendAssoc<T>(a: seq<T>, b: seq<T>, c: seq<T>)
    ensures (a + b) + c == a + (b + c)
  {
  }

  lemma ApplyWritesCons(files: map<string, string>, path: string, content: string,
                        writes: seq<(string, string)>)
    ensures ApplyWrites(files, [(path, content)] + writes) == ApplyWrites(files[path := content], writes)
  {
    assert ([(path, content)] + writes)[1..] == writes;
  }

  /** The reports of those writes, in the same order. */
  function CreatedEvents(config: RdsConfig, name: string, files: seq<string>): (r: seq<Event>)
    ensures |r| == |files|
    decreases |files|
  {
    if |files| == 0 then []
    else [Created(CreatedPath(config, name, Basename(files[0])))] + CreatedEvents(config, name, files[1..])
  }

  /** Under `--overwrite` an available file is written and reported without a prompt. */
  lemma FileStepOverwrite(env: Env, config: RdsConfig, name: string, file: string,
                          opts: AddOptions, w: World)
    requires opts.overwrite && file in env.source
    ensures FileStep(env, config, name, file, opts, w)
         == (Done, World(w.files[DestPath(env.cwd, config, name, Basename(file))
                                  := TransformImports(env.source[file], config)],
                         w.answers, w.log + [Created(CreatedPath(config, name, Basename(file)))]))
  {
  }

  /** Under `--overwrite`, with every file available, the loop writes each file in declared
      order, reports each one and asks nothing. */
  lemma {:induction false} OverwriteWritesInOrder(env: Env, config: RdsConfig, name: string,
                                                 files: seq<string>, opts: AddOptions, w: World)
    requires opts.overwrite
    requires forall i :: 0 <= i < |files| ==> files[i] in env.source
    ensures MaterializeFiles(env, config, name, files, opts, w)
         == (Done, World(ApplyWrites(w.files, PlannedWrites(env, config, name, files)), w.answers,
                         w.log + CreatedEvents(config, name, files)))
    decreases |files|
  {
    if |files| > 0 {
      FileStepOverwrite(env, config, name, files[0], opts, w);
      var s := FileStep(env, config, name, files[0], opts, w);
      var rest := files[1..];
      assert forall i :: 0 <= i < |rest| ==> rest[i] in env.source by {
        forall i | 0 <= i < |rest| ensures rest[i] in env.source {
          assert rest[i] == files[i + 1];
        }
      }
      OverwriteWritesInOrder(env, config, name, rest, opts, s.1);
      var d0 := DestPath(env.cwd, config, name, Basename(files[0]));
      var t0 := TransformImports(env.source[files[0]], config);
      assert PlannedWrites(env, config, name, files)
          == [(d0, t0)] + PlannedWrites(env, config, name, rest);
      ApplyWritesCons(w.files, d0, t0, PlannedWrites(env, config, name, rest));
      var created := CreatedEvents(config, name, files);
      assert created == [created[0]] + CreatedEvents(config, name, rest);
      assert s.1.log == w.log + [created[0]];
      AppendAssoc(w.log, [created[0]], CreatedEvents(config, name, rest));
      assert MaterializeFiles(env, config, name, files, opts, w)
          == MaterializeFiles(env, config, name, rest, opts, s.1);
    } else {
      assert w.log + CreatedEvents(config, name, files) == w.log;
    }
  }

  // ---- `--yes`: no prompt, and without `--overwrite` no existing file changes ----

  lemma {:induction false} FilesYes(env: Env, config: RdsConfig, name: string, files: seq<string>,
                                   opts: AddOptions, w: World)
    requires opts.yes
    ensures var r := MaterializeFiles(env, config, name, files, opts, w).1;
      r.answers == w.answers && (!opts.overwrite ==> KeepsFiles(w.files, r.files))
    decreases |files|
  {
    if |files| > 0 {
      var s := FileStep(env, config, name, files[0], opts, w);
      FileStepYes(env, config, name, files[0], opts, w);
      if s.0 == Done {
        assert MaterializeFiles(env, config, name, files, opts, w)
            == MaterializeFiles(env, config, name, files[1..], opts, s.1);
        FilesYes(env, config, name, files[1..], opts, s.1);
        var r := MaterializeFiles(env, config, name, files[1..], opts, s.1).1;
        if !opts.overwrite {
          KeepsFilesTrans(w.files, s.1.files, r.files);
        }
      }
    }
  }

  /** Under `--yes` one file step asks nothing, and without `--overwrite` it keeps every
      existing file. */
  lemma FileStepYes(env: Env, config: RdsConfig, name: string, file: string, opts: AddOptions, w: World)
    requires opts.yes
    ensures var s := FileStep(env, config, name, file, opts, w).1;
      s.answers == w.answers && (!opts.overwrite ==> KeepsFiles(w.files, s.files))
  {
  }

  lemma KeepsFilesTrans(a: map<string, string>, b: map<string, string>, c: map<string, string>)
    requires KeepsFiles(a, b) && KeepsFiles(b, c)
    ensures KeepsFiles(a, c)
  {
  }

  lemma {:induction false} ComponentsYes(env: Env, config: RdsConfig, reg: RegistryIndex,
                                        comps: seq<string>, opts: AddOptions, w: World)
    requires opts.yes && AllKnown(reg, comps)
    ensures var r := MaterializeAll(env, config, reg, comps, opts, w).1;
      r.answers == w.answers && (!opts.overwrite ==> KeepsFiles(w.files, r.files))
    decreases |comps|
  {
    if |comps| > 0 {
      var c := reg.components[comps[0]];
      FilesYes(env, config, c.name, c.files, opts, w);
      var s := MaterializeFiles(env, config, c.name, c.files, opts, w);
      ComponentsYes(env, config, reg, comps[1..], opts, s.1);
    }
  }

  /** With `--yes` a call never consumes a prompt answer, nested calls included, and
      without `--overwrite` it leaves every existing file as it was. */
  lemma {:induction false} AddYes(env: Env, rank: map<string, nat>, keys: seq<string>,
                                 opts: AddOptions, w: World)
    requires Acyclic(env, rank) && opts.yes
    ensures var r := AddResult(env, rank, keys, opts, w).1;
      r.answers == w.answers && (!opts.overwrite ==> KeepsFiles(w.files, r.files))
    decreases MaxHeight(rank, Requested(keys, env)), 3, 0
  {
    if ConfigExists(w.files, env.cwd) && LoadConfig(w.files, env.cwd).Ok? && env.registry.Some? {
      RequestedYes(env, rank, LoadConfig(w.files, env.cwd).value, Requested(keys, env), opts, w);
    }
  }

  lemma {:induction false} RequestedYes(env: Env, rank: map<string, nat>, config: RdsConfig,
                                       requested: seq<string>, opts: AddOptions, w: World)
    requires env.registry.Some? && Ranked(env.registry.value, rank) && opts.yes
    ensures var r := AddRequested(env, rank, config, requested, opts, w).1;
      r.answers == w.answers && (!opts.overwrite ==> KeepsFiles(w.files, r.files))
    decreases MaxHeight(rank, requested), 2, 0
  {
    if |requested| > 0 && |ComponentKeys(requested)| > 0
       && AllKnown(env.registry.value, ComponentKeys(requested)) {
      KnownYes(env, rank, config, requested, opts, WarnMissingLibs(env.cwd, config, LibKeys(requested), w));
    }
  }

  lemma {:induction false} KnownYes(env: Env, rank: map<string, nat>, config: RdsConfig,
                                   requested: seq<string>, opts: AddOptions, w: World)
    requires env.registry.Some? && Ranked(env.registry.value, rank) && opts.yes
    requires AllKnown(env.registry.value, ComponentKeys(requested))
    ensures var r := AddKnown(env, rank, config, requested, opts, w).1;
      r.answers == w.answers && (!opts.overwrite ==> KeepsFiles(w.files, r.files))
    decreases MaxHeight(rank, requested), 1, 0
  {
    var reg := env.registry.value;
    var actual := ComponentKeys(requested);
    ComponentsYes(env, config, reg, actual, opts, w);
    var m := MaterializeAll(env, config, reg, actual, opts, w);
    if m.0 == Done {
      PendingBelow(reg, rank, requested);
      PendingYes(env, rank, config, requested, opts, m.1);
      var pending := PendingDeps(reg, actual);
      var e := AddEach(env, rank, ComponentKeys(pending), opts.(yes := true), MaxHeight(rank, requested),
                       WarnMissingLibs(env.cwd, config, LibKeys(pending), m.1));
      if !opts.overwrite {
        KeepsFilesTrans(w.files, m.1.files, e.1.files);
      }
    }
  }

  /** The nested adds after the components of one call, from the world `w` those left. */
  lemma {:induction false} PendingYes(env: Env, rank: map<string, nat>, config: RdsConfig,
                                     requested: seq<string>, opts: AddOptions, w: World)
    requires env.registry.Some? && Ranked(env.registry.value, rank) && opts.yes
    requires AllKnown(env.registry.value, ComponentKeys(requested))
    requires var deps := ComponentKeys(PendingDeps(env.registry.value, ComponentKeys(requested)));
      forall i :: 0 <= i < |deps| ==> KeyHeight(rank, deps[i]) < MaxHeight(rank, requested)
    ensures var pending := PendingDeps(env.registry.value, ComponentKeys(requested));
      var r := AddEach(env, rank, ComponentKeys(pending), opts.(yes := true), MaxHeight(rank, requested),
                       WarnMissingLibs(env.cwd, config, LibKeys(pending), w)).1;
      r.answers == w.answers && (!opts.overwrite ==> KeepsFiles(w.files, r.files))
    decreases MaxHeight(rank, requested), 0,
      |ComponentKeys(PendingDeps(env.registry.value, ComponentKeys(requested)))| + 1
  {
    var pending := PendingDeps(env.registry.value, ComponentKeys(requested));
    assert opts.(yes := true) == opts;
    EachYes(env, rank, ComponentKeys(pending), opts, MaxHeight(rank, requested),
            WarnMissingLibs(env.cwd, config, LibKeys(pending), w));
  }

  lemma {:induction false} EachYes(env: Env, rank: map<string, nat>, deps: seq<string>,
                                  opts: AddOptions, bound: nat, w: World)
    requires Acyclic(env, rank) && opts.yes
    requires forall i :: 0 <= i < |deps| ==> KeyHeight(rank, deps[i]) < bound
    ensures var r := AddEach(env, rank, deps, opts, bound, w).1;
      r.answers == w.answers && (!opts.overwrite ==> KeepsFiles(w.files, r.files))
    decreases bound, 0, |deps|
  {
    if |deps| > 0 {
      assert [deps[0]][1..] == [];
      assert MaxHeight(rank, [deps[0]]) == KeyHeight(rank, deps[0]);
      AddYes(env, rank, [deps[0]], opts, w);
      var s := AddResult(env, rank, [deps[0]], opts, w);
      EachYes(env, rank, deps[1..], opts, bound, s.1);
    }
  }

  /** The nested calls on component dependencies run with `yes` forced on, so they never
      prompt, whatever the options of the outer call. */
  lemma DependenciesNeverPrompt(env: Env, rank: map<string, nat>, deps: seq<string>,
                                opts: AddOptions, bound: nat, w: World)
    requires Acyclic(env, rank)
    requires forall i :: 0 <= i < |deps| ==> KeyHeight(rank, deps[i]) < bound
    ensures AddEach(env, rank, deps, opts.(yes := true), bound, w).1.answers == w.answers
  {
    EachYes(env, rank, deps, opts.(yes := true), bound, w);
  }

  // ---- the install step ----

  /** The list a call installs: the dependencies of the components it processed itself,
      each once. */
  lemma InstalledDependencies(reg: RegistryIndex, actual: seq<string>)
    requires AllKnown(reg, actual)
    ensures var deps := Dedupe(NpmDeps(reg, actual));
      NoDup(deps)
      && forall x :: x in deps <==> exists j :: 0 <= j < |actual| && x in reg.components[actual[j]].dependencies
  {
    var all := NpmDeps(reg, actual);
    forall x | x in all ensures x in Dedupe(all) {
      var i :| 0 <= i < |all| && all[i] == x;
    }
  }

  /** A call that completes and has dependencies of its own ends with their install, after
      all its nested calls; the command is built from the files present at that point. */
  lemma InstallIsLast(env: Env, rank: map<string, nat>, config: RdsConfig,
                      requested: seq<string>, opts: AddOptions, w: World)
    requires env.registry.Some? && Ranked(env.registry.value, rank)
    requires AllKnown(env.registry.value, ComponentKeys(requested))
    ensures var deps := Dedupe(NpmDeps(env.registry.value, ComponentKeys(requested)));
      var r := AddKnown(env, rank, config, requested, opts, w);
      r.0 == Done && |deps| > 0 ==>
        r.1.log[|r.1.log| - 1]
          == Installed(InstallDependencies(r.1.files.Keys, env.cwd, deps, false, env.failing))
  {
  }
}
