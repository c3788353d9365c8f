/** The tsconfig.json edits of `init`: the `paths` entries for the configured aliases,
    the non-overwriting merge into existing `paths`, and the project-references layout in
    which the app config found through `references` is updated as well as the root.
    JSON files are held parsed, in a store of their own (path -> TsConfig); fields the
    edits never look at are kept as opaque JSON text. */
module TsConfig {
  import opened Wrappers
  import opened Text
  import opened Config

  /** compilerOptions.paths: alias pattern -> target patterns. */
  type PathMap = map<string, seq<string>>

  /** `{ ...existingPaths }`: spreading `undefined` gives the empty object. */
  function Base(existing: Option<PathMap>): PathMap {
    if existing.Some? then existing.value else map[]
  }

  /** mergePaths: every existing entry is kept as it is, and an entry of `newPaths` is
      added only when its key is absent. (A `string[]` value is always truthy, so `!merged[key]`
      holds exactly for an absent key.) */
  function MergedPaths(existing: Option<PathMap>, newPaths: PathMap): (r: PathMap)
    ensures r.Keys == Base(existing).Keys + newPaths.Keys
    ensures forall k :: k in Base(existing) ==> r[k] == Base(existing)[k]
    ensures forall k :: k in newPaths && k !in Base(existing) ==> r[k] == newPaths[k]
  {
    newPaths + Base(existing)
  }

  /** mergePaths as written: a copy of the existing entries, then one pass over the new
      entries. The order of the pass does not matter, so it is left open. */
  method MergePaths(existing: Option<PathMap>, newPaths: PathMap) returns (merged: PathMap)
    ensures merged == MergedPaths(existing, newPaths)
  {
    merged := if existing.Some? then existing.value else map[];
    ghost var base := merged;
    var todo := newPaths.Keys;
    while todo != {}
      invariant todo <= newPaths.Keys
      invariant merged.Keys == base.Keys + (newPaths.Keys - todo)
      invariant forall k :: k in base ==> merged[k] == base[k]
      invariant forall k :: k in newPaths.Keys - todo && k !in base ==> merged[k] == newPaths[k]
      decreases todo
    {
      var k :| k in todo;
      if k !in merged {
        merged := merged[k := newPaths[k]];
      }
      todo := todo - {k};
    }
  }

  /** Merging the same entries a second time changes nothing. */
  lemma MergeIdempotent(existing: Option<PathMap>, newPaths: PathMap)
    ensures MergedPaths(Some(MergedPaths(existing, newPaths)), newPaths) == MergedPaths(existing, newPaths)
  {
  }

  /** Without existing paths the result is the new paths. */
  lemma MergeIntoUndefined(newPaths: PathMap)
    ensures MergedPaths(None, newPaths) == newPaths
  {
  }

  /** The `paths` entries `init` wants: the alias wildcard pattern to the source directory
      and, with a components alias, that alias's wildcard pattern to the components
      directory. The second assignment wins when both patterns coincide. */
  function NewPaths(c: RdsConfig): (r: PathMap)
    ensures r.Keys == {c.alias + "/*"} + (if c.componentsAlias != "" then {c.componentsAlias + "/*"} else {})
    ensures c.componentsAlias != "" ==> r[c.componentsAlias + "/*"] == ["./" + c.componentsDir + "/*"]
    ensures c.componentsAlias == "" || c.componentsAlias != c.alias ==> r[c.alias + "/*"] == ["./" + c.srcDir + "/*"]
  {
    var m := map[c.alias + "/*" := ["./" + c.srcDir + "/*"]];
    AppendCancel(c.componentsAlias, c.alias, "/*");
    if c.componentsAlias != "" then m[c.componentsAlias + "/*" := ["./" + c.componentsDir + "/*"]] else m
  }

  datatype CompilerOptions = CompilerOptions(
    baseUrl: Option<string>,
    paths: Option<PathMap>,
    others: map<string, string>)   // the remaining options, as JSON text

  datatype Reference = Reference(path: string)

  /** A parsed tsconfig. An array-valued field is `None` when it is absent or not an array. */
  datatype TsConfig = TsConfig(
    compilerOptions: Option<CompilerOptions>,
    references: Option<seq<Reference>>,
    files: Option<seq<string>>,
    includes: Option<seq<string>>,   // the `include` array
    others: map<string, string>)   // the remaining top-level fields, as JSON text

  /** The layout with project references: a non-empty `references` array and an empty
      `files` array. */
  predicate UsesProjectReferences(t: TsConfig) {
    t.references.Some? && |t.references.value| > 0 && t.files.Some? && |t.files.value| == 0
  }

  /** An `include` entry that names the sources: it contains `src/` or starts with `src`. */
  predicate NamesSources(inc: string) {
    Contains(inc, "src/") || StartsWith(inc, "src")
  }

  /** A referenced config is the app config when some `include` entry names the sources. */
  predicate IncludesSrc(t: TsConfig) {
    t.includes.Some? && exists i :: 0 <= i < |t.includes.value| && NamesSources(t.includes.value[i])
  }

  /** `config.compilerOptions || {}` */
  function OptionsOf(t: TsConfig): CompilerOptions
  {
    if t.compilerOptions.Some? then t.compilerOptions.value else CompilerOptions(None, None, map[])
  }

  /** `baseUrl || '.'`: a set, non-empty baseUrl is kept. */
  function BaseUrlOrDot(b: Option<string>): string
  {
    if b.Some? && b.value != "" then b.value else "."
  }

  /** The referenced app config: baseUrl becomes `.` whatever it was, paths are merged,
      everything else is kept. */
  function UpdatedReferenced(t: TsConfig, paths: PathMap): (r: TsConfig)
    ensures r.compilerOptions.Some?
    ensures r.compilerOptions.value.baseUrl == Some(".")
    ensures r.compilerOptions.value.paths == Some(MergedPaths(OptionsOf(t).paths, paths))
    ensures r.compilerOptions.value.others == OptionsOf(t).others
    ensures r.(compilerOptions := t.compilerOptions) == t
  {
    var co := OptionsOf(t);
    t.(compilerOptions := Some(co.(baseUrl := Some("."), paths := Some(MergedPaths(co.paths, paths)))))
  }

  /** The root config (in both layouts): a non-empty baseUrl is kept, paths are merged,
      everything else is kept. */
  function UpdatedRoot(t: TsConfig, paths: PathMap): (r: TsConfig)
    ensures r.compilerOptions.Some?
    ensures r.compilerOptions.value.baseUrl == Some(BaseUrlOrDot(OptionsOf(t).baseUrl))
    ensures r.compilerOptions.value.paths == Some(MergedPaths(OptionsOf(t).paths, paths))
    ensures r.compilerOptions.value.others == OptionsOf(t).others
    ensures r.(compilerOptions := t.compilerOptions) == t
  {
    var co := OptionsOf(t);
    t.(compilerOptions := Some(co.(baseUrl := Some(BaseUrlOrDot(co.baseUrl)),
                                   paths := Some(MergedPaths(co.paths, paths)))))
  }

  /** Both updates can be repeated without effect, and neither changes `include`. */
  lemma UpdatesIdempotent(t: TsConfig, paths: PathMap)
    ensures UpdatedReferenced(UpdatedReferenced(t, paths), paths) == UpdatedReferenced(t, paths)
    ensures UpdatedRoot(UpdatedRoot(t, paths), paths) == UpdatedRoot(t, paths)
    ensures IncludesSrc(UpdatedReferenced(t, paths)) == IncludesSrc(t)
  {
    MergeIdempotent(OptionsOf(t).paths, paths);
  }

  /** The file a reference points to: `<cwd>/<path>`, with `.json` appended unless the
      path already ends with it. */
  function RefConfigPath(cwd: string, ref: Reference): (p: string)
    ensures EndsWith(p, ".json")
    ensures StartsWith(p, PathJoin(cwd, ref.path))
  {
    var q := PathJoin(cwd, ref.path);
    if EndsWith(q, ".json") then q
    else
      assert (q + ".json")[|q|..] == ".json";
      q + ".json"
  }

  /** A reference whose file exists and is the app config. */
  predicate Updates(store: map<string, TsConfig>, cwd: string, ref: Reference) {
    RefConfigPath(cwd, ref) in store && IncludesSrc(store[RefConfigPath(cwd, ref)])
  }

  /** The loop over `references`, in order: a missing file is skipped; an app config is
      updated and written back; the flag records whether any was. */
  function UpdateReferences(store: map<string, TsConfig>, cwd: string, refs: seq<Reference>,
                            paths: PathMap): (r: (map<string, TsConfig>, bool))
    ensures r.0.Keys == store.Keys
    decreases |refs|
  {
    if |refs| == 0 then (store, false)
    else
      var p := RefConfigPath(cwd, refs[0]);
      var next := if Updates(store, cwd, refs[0]) then store[p := UpdatedReferenced(store[p], paths)] else store;
      var rest := UpdateReferences(next, cwd, refs[1..], paths);
      (rest.0, Updates(store, cwd, refs[0]) || rest.1)
  }

  /** Whether some reference points to `q`. */
  predicate Referenced(cwd: string, refs: seq<Reference>, q: string) {
    exists j :: 0 <= j < |refs| && RefConfigPath(cwd, refs[j]) == q
  }

  lemma ReferencedCons(cwd: string, refs: seq<Reference>, q: string)
    requires |refs| > 0
    ensures Referenced(cwd, refs, q) <==> RefConfigPath(cwd, refs[0]) == q || Referenced(cwd, refs[1..], q)
  {
    if Referenced(cwd, refs, q) && RefConfigPath(cwd, refs[0]) != q {
      var j :| 0 <= j < |refs| && RefConfigPath(cwd, refs[j]) == q;
      assert refs[1..][j - 1] == refs[j];
    }
    if Referenced(cwd, refs[1..], q) {
      var j :| 0 <= j < |refs[1..]| && RefConfigPath(cwd, refs[1..][j]) == q;
      assert refs[j + 1] == refs[1..][j];
    }
  }

  /** After the loop, exactly the referenced app configs carry the update (once, however
      often they are referenced) and every other file is as it was. */
  lemma {:induction false} UpdateReferencesEffect(store: map<string, TsConfig>, cwd: string,
                                                   refs: seq<Reference>, paths: PathMap)
    ensures var r := UpdateReferences(store, cwd, refs, paths);
      forall q :: q in store ==>
        r.0[q] == if Referenced(cwd, refs, q) && IncludesSrc(store[q])
                  then UpdatedReferenced(store[q], paths) else store[q]
    decreases |refs|
  {
    if |refs| > 0 {
      var p := RefConfigPath(cwd, refs[0]);
      var next := if Updates(store, cwd, refs[0]) then store[p := UpdatedReferenced(store[p], paths)] else store;
      var r := UpdateReferences(store, cwd, refs, paths);
      assert r.0 == UpdateReferences(next, cwd, refs[1..], paths).0;
      UpdateReferencesEffect(next, cwd, refs[1..], paths);
      forall q | q in store
        ensures r.0[q] == if Referenced(cwd, refs, q) && IncludesSrc(store[q])
                          then UpdatedReferenced(store[q], paths) else store[q]
      {
        ReferencedCons(cwd, refs, q);
        if q == p {
          UpdatesIdempotent(store[q], paths);
        }
      }
    }
  }

  /** The flag says whether some reference named an existing app config. */
  lemma {:induction false} UpdateReferencesFlag(store: map<string, TsConfig>, cwd: string,
                                                 refs: seq<Reference>, paths: PathMap)
    ensures UpdateReferences(store, cwd, refs, paths).1
      <==> exists j :: 0 <= j < |refs| && Updates(store, cwd, refs[j])
    decreases |refs|
  {
    if |refs| > 0 {
      var p := RefConfigPath(cwd, refs[0]);
      var next := if Updates(store, cwd, refs[0]) then store[p := UpdatedReferenced(store[p], paths)] else store;
      UpdateReferencesFlag(next, cwd, refs[1..], paths);
      if p in store {
        UpdatesIdempotent(store[p], paths);
      }
      assert forall q :: q in store ==> (q in next && IncludesSrc(next[q]) == IncludesSrc(store[q]));
      forall j | 0 <= j < |refs[1..]| ensures Updates(next, cwd, refs[1..][j]) == Updates(store, cwd, refs[j + 1]) {
        assert refs[1..][j] == refs[j + 1];
      }
      if exists j :: 0 <= j < |refs| && Updates(store, cwd, refs[j]) {
        var j :| 0 <= j < |refs| && Updates(store, cwd, refs[j]);
        if j > 0 {
          assert Updates(next, cwd, refs[1..][j - 1]);
        }
      }
    }
  }

  /** The loop over `references` as written: each existing app config is read, updated and
      written back before the next reference is looked at. */
  method UpdateReferencedConfigs(store: map<string, TsConfig>, cwd: string, refs: seq<Reference>,
                                 paths: PathMap) returns (out: map<string, TsConfig>, appConfigUpdated: bool)
    ensures (out, appConfigUpdated) == UpdateReferences(store, cwd, refs, paths)
  {
    out, appConfigUpdated := store, false;
    for i := 0 to |refs|
      invariant var r := UpdateReferences(out, cwd, refs[i..], paths);
        (r.0, appConfigUpdated || r.1) == UpdateReferences(store, cwd, refs, paths)
    {
      var refConfigPath := RefConfigPath(cwd, refs[i]);
      assert refs[i..][0] == refs[i] && refs[i..][1..] == refs[i + 1..];
      if refConfigPath in out {
        var refConfig := out[refConfigPath];
        if IncludesSrc(refConfig) {
          var co := OptionsOf(refConfig);
          var merged := MergePaths(co.paths, paths);
          out := out[refConfigPath := refConfig.(compilerOptions := Some(co.(baseUrl := Some("."), paths := Some(merged))))];
          appConfigUpdated := true;
        }
      }
    }
  }

  const TsConfigFile: string := "tsconfig.json"

  /** The tsconfig.json `init` writes when there is none. */
  function DefaultTsConfig(c: RdsConfig): TsConfig {
    TsConfig(
      Some(CompilerOptions(Some("."), Some(NewPaths(c)),
        map["target" := "\"ES2020\"", "module" := "\"ESNext\"", "moduleResolution" := "\"bundler\"",
            "strict" := "true", "jsx" := "\"preserve\"", "skipLibCheck" := "true"])),
      None, None,
      Some([c.srcDir + "/**/*", c.srcDir + "/**/*.vue"]),
      map["exclude" := "[\"node_modules\", \"dist\"]"])
  }

  /** What updateTsConfig reports. */
  datatype TsOutcome = TsCreated | TsUpdated | TsReferencesUpdated(appConfigUpdated: bool)

  /** updateTsConfig over the JSON store. */
  function UpdateTsConfig(store: map<string, TsConfig>, cwd: string, c: RdsConfig)
    : (r: (map<string, TsConfig>, TsOutcome))
    ensures var root := PathJoin(cwd, TsConfigFile);
      r.0.Keys == store.Keys + {root}
      && (root !in store ==> r.1 == TsCreated && r.0 == store[root := DefaultTsConfig(c)])
      && (root in store ==> r.0[root] == UpdatedRoot(store[root], NewPaths(c)))
      && (root in store && !UsesProjectReferences(store[root]) ==>
            r.1 == TsUpdated && r.0 == store[root := UpdatedRoot(store[root], NewPaths(c))])
  {
    var root := PathJoin(cwd, TsConfigFile);
    var paths := NewPaths(c);
    if root !in store then (store[root := DefaultTsConfig(c)], TsCreated)
    else
      var t := store[root];
      if UsesProjectReferences(t) then
        var refs := UpdateReferences(store, cwd, t.references.value, paths);
        (refs.0[root := UpdatedRoot(t, paths)], TsReferencesUpdated(refs.1))
      else (store[root := UpdatedRoot(t, paths)], TsUpdated)
  }

  /** With project references, every referenced app config other than the root carries
      the referenced update, every other file but the root is unchanged, and the flag says
      whether an app config was found. The root is written last from the value read before
      the loop, so a reference to the root itself leaves only the root update. */
  lemma ProjectReferencesEffect(store: map<string, TsConfig>, cwd: string, c: RdsConfig)
    requires PathJoin(cwd, TsConfigFile) in store
    requires UsesProjectReferences(store[PathJoin(cwd, TsConfigFile)])
    ensures var root := PathJoin(cwd, TsConfigFile);
      var refs := store[root].references.value;
      var r := UpdateTsConfig(store, cwd, c);
      (forall q :: q in store && q != root ==>
         r.0[q] == if Referenced(cwd, refs, q) && IncludesSrc(store[q])
                   then UpdatedReferenced(store[q], NewPaths(c)) else store[q])
      && (r.1.TsReferencesUpdated? && (r.1.appConfigUpdated <==> exists j :: 0 <= j < |refs| && Updates(store, cwd, refs[j])))
  {
    var root := PathJoin(cwd, TsConfigFile);
    UpdateReferencesEffect(store, cwd, store[root].references.value, NewPaths(c));
    UpdateReferencesFlag(store, cwd, store[root].references.value, NewPaths(c));
  }
}
