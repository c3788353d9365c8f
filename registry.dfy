/** The registry manifest as the CLI reads it (the RegistryIndex interface), and the
    split of requested keys into `lib/...` keys and component keys. Fetching the manifest
    and the files it lists is an oracle of the commands that use it. */
module Registry {
  import opened Text

  /** A group of shared files with their npm dependencies (`lib.utils`, `styles`). */
  datatype FileSet = FileSet(files: seq<string>, dependencies: seq<string>)

  datatype LibEntries = LibEntries(utils: FileSet)

  datatype ComponentEntry = ComponentEntry(
    name: string,
    files: seq<string>,
    dependencies: seq<string>,
    registryDependencies: seq<string>)

  datatype RegistryIndex = RegistryIndex(
    name: string,
    baseUrl: string,
    lib: LibEntries,
    styles: FileSet,
    components: map<string, ComponentEntry>)

  const LibPrefix: string := "lib/"

  /** A key that names a shared library entry rather than a component. */
  predicate IsLibKey(key: string) {
    StartsWith(key, LibPrefix)
  }

  /** `keys.filter(c => c.startsWith('lib/'))` */
  function LibKeys(keys: seq<string>): (r: seq<string>)
    ensures forall i :: 0 <= i < |r| ==> IsLibKey(r[i]) && r[i] in keys
    ensures forall i :: 0 <= i < |keys| && IsLibKey(keys[i]) ==> keys[i] in r
    decreases |keys|
  {
    if |keys| == 0 then []
    else (if IsLibKey(keys[0]) then [keys[0]] else []) + LibKeys(keys[1..])
  }

  /** `keys.filter(c => !c.startsWith('lib/'))` */
  function ComponentKeys(keys: seq<string>): (r: seq<string>)
    ensures forall i :: 0 <= i < |r| ==> !IsLibKey(r[i]) && r[i] in keys
    ensures forall i :: 0 <= i < |keys| && !IsLibKey(keys[i]) ==> keys[i] in r
    decreases |keys|
  {
    if |keys| == 0 then []
    else (if IsLibKey(keys[0]) then [] else [keys[0]]) + ComponentKeys(keys[1..])
  }

  /** Both filters distribute over concatenation and keep or drop a single key by its
      prefix, so each keeps its keys in the request's order and with their multiplicity. */
  lemma {:induction false} FiltersAppend(a: seq<string>, b: seq<string>)
    ensures LibKeys(a + b) == LibKeys(a) + LibKeys(b)
    ensures ComponentKeys(a + b) == ComponentKeys(a) + ComponentKeys(b)
    decreases |a|
  {
    if |a| > 0 {
      assert (a + b)[1..] == a[1..] + b;
      FiltersAppend(a[1..], b);
    } else {
      assert a + b == b;
    }
  }

  lemma FiltersSingleton(key: string)
    ensures LibKeys([key]) == if IsLibKey(key) then [key] else []
    ensures ComponentKeys([key]) == if IsLibKey(key) then [] else [key]
  {
    assert [key][1..] == [];
  }

  /** The two filters partition the request: every key goes to exactly one side. */
  lemma {:induction false} KeysPartition(keys: seq<string>)
    ensures |LibKeys(keys)| + |ComponentKeys(keys)| == |keys|
    decreases |keys|
  {
    if |keys| > 0 {
      KeysPartition(keys[1..]);
    }
  }
}
