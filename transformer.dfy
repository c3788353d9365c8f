/** transformImports: rewrites the registry's internal import paths to the consumer's
    aliases. Pure text rewriting; `$` patterns of String.replace are not modelled (the
    aliases and directories are assumed to hold no `$`). */
module Transformer {
  import opened Text
  import opened Config

  const LibUtilsImport: string := "@/lib/utils"
  const ComponentsImport: string := "@/components/ui"

  /** `dir.replace(srcDir + "/", "")`: the first occurrence of `srcDir/` is removed,
      wherever it stands in `dir`. */
  function RelativeToSrc(dir: string, srcDir: string): string {
    ReplaceFirst(dir, srcDir + "/", "")
  }

  /** What `@/lib/utils` becomes. */
  function LibTarget(c: RdsConfig): string {
    c.alias + "/" + RelativeToSrc(c.libDir, c.srcDir) + "/utils"
  }

  /** What `@/components/ui` becomes: the dedicated alias when one is configured. */
  function ComponentsTarget(c: RdsConfig): string {
    if c.componentsAlias != "" then c.componentsAlias
    else c.alias + "/" + RelativeToSrc(c.componentsDir, c.srcDir)
  }

  /** The first rewrite: every `@/lib/utils`. */
  function RewriteLibImports(content: string, c: RdsConfig): string {
    ReplaceAll(content, LibUtilsImport, LibTarget(c))
  }

  /** The second rewrite: every `@/components/ui`. */
  function RewriteComponentImports(content: string, c: RdsConfig): string {
    ReplaceAll(content, ComponentsImport, ComponentsTarget(c))
  }

  /** transformImports: the lib rewrite, then the components rewrite of its output. */
  function TransformImports(content: string, c: RdsConfig): string {
    RewriteComponentImports(RewriteLibImports(content, c), c)
  }

  /** The leftmost `@/lib/utils` becomes `alias/<libDir relative to srcDir>/utils`, and
      the text after it is rewritten the same way. */
  lemma LibImportRewritten(a: string, b: string, c: RdsConfig)
    requires forall i: nat :: i < |a| ==> !OccursAt(a + LibUtilsImport + b, LibUtilsImport, i)
    ensures RewriteLibImports(a + LibUtilsImport + b, c)
         == a + c.alias + "/" + RelativeToSrc(c.libDir, c.srcDir) + "/utils" + RewriteLibImports(b, c)
  {
    ReplaceAllLeftmost(a, LibUtilsImport, b, LibTarget(c));
  }

  /** The leftmost `@/components/ui` becomes the components alias when it is non-empty,
      and `alias/<componentsDir relative to srcDir>` otherwise. */
  lemma ComponentImportRewritten(a: string, b: string, c: RdsConfig)
    requires forall i: nat :: i < |a| ==> !OccursAt(a + ComponentsImport + b, ComponentsImport, i)
    ensures c.componentsAlias != "" ==>
      RewriteComponentImports(a + ComponentsImport + b, c)
        == a + c.componentsAlias + RewriteComponentImports(b, c)
    ensures c.componentsAlias == "" ==>
      RewriteComponentImports(a + ComponentsImport + b, c)
        == a + c.alias + "/" + RelativeToSrc(c.componentsDir, c.srcDir) + RewriteComponentImports(b, c)
  {
    ReplaceAllLeftmost(a, ComponentsImport, b, ComponentsTarget(c));
  }

  /** Content with neither tracked import is returned unchanged, so on such content the
      transform is trivially idempotent. */
  lemma TransformWithoutImports(content: string, c: RdsConfig)
    requires !Contains(content, LibUtilsImport) && !Contains(content, ComponentsImport)
    ensures TransformImports(content, c) == content
    ensures TransformImports(TransformImports(content, c), c) == TransformImports(content, c)
  {
    ReplaceAllAbsent(content, LibUtilsImport, LibTarget(c));
    ReplaceAllAbsent(content, ComponentsImport, ComponentsTarget(c));
  }

  /** When `dir` starts with `srcDir/`, the relative path is the rest of `dir`. */
  lemma RelativeToSrcOfPrefix(dir: string, srcDir: string)
    requires StartsWith(dir, srcDir + "/")
    ensures RelativeToSrc(dir, srcDir) == dir[|srcDir| + 1..]
  {
  }

  /** The removed `srcDir/` need not be a prefix: its leftmost occurrence is dropped
      wherever it stands (`app/src/lib` relative to `src` is `app/lib`). */
  lemma RelativeToSrcNotPrefix(a: string, srcDir: string, rest: string)
    requires forall i: nat :: i < |a| ==> !OccursAt(a + (srcDir + "/") + rest, srcDir + "/", i)
    ensures RelativeToSrc(a + (srcDir + "/") + rest, srcDir) == a + rest
  {
    ReplaceFirstLeftmost(a, srcDir + "/", rest, "");
    assert a + "" + rest == a + rest;
  }

  /** The standard layout: alias `@`, no components alias, `lib` and `components/ui`
      directly below the source directory. Here both targets are the imports themselves,
      so every input is returned unchanged, whatever the source directory. */
  lemma StandardLayoutIsIdentity(content: string, c: RdsConfig)
    requires c.alias == "@" && c.componentsAlias == ""
    requires c.libDir == c.srcDir + "/lib" && c.componentsDir == c.srcDir + "/components/ui"
    ensures TransformImports(content, c) == content
  {
    StandardTargets(c);
    ReplaceAllSelf(content, LibUtilsImport);
    ReplaceAllSelf(content, ComponentsImport);
  }

  /** In the standard layout both targets are the imports themselves. */
  lemma StandardTargets(c: RdsConfig)
    requires c.alias == "@" && c.componentsAlias == ""
    requires c.libDir == c.srcDir + "/lib" && c.componentsDir == c.srcDir + "/components/ui"
    ensures LibTarget(c) == LibUtilsImport && ComponentsTarget(c) == ComponentsImport
  {
    StandardLibTarget(c);
    StandardComponentsTarget(c);
  }

  lemma StandardLibTarget(c: RdsConfig)
    requires c.alias == "@" && c.libDir == c.srcDir + "/lib"
    ensures LibTarget(c) == LibUtilsImport
  {
    assert c.libDir == c.srcDir + "/" + "lib";
    LibTargetUnderSrc(c, "lib");
    LibUtilsImportSpelled();
  }

  lemma StandardComponentsTarget(c: RdsConfig)
    requires c.alias == "@" && c.componentsAlias == "" && c.componentsDir == c.srcDir + "/components/ui"
    ensures ComponentsTarget(c) == ComponentsImport
  {
    assert c.componentsDir == c.srcDir + "/" + "components/ui";
    ComponentsTargetUnderSrc(c, "components/ui");
    ComponentsImportSpelled();
  }

  /** The two imports as alias, slash and directory. */
  lemma LibUtilsImportSpelled()
    ensures "@" + "/" + "lib" + "/utils" == LibUtilsImport
  {
  }

  lemma ComponentsImportSpelled()
    ensures "@" + "/" + "components/ui" == ComponentsImport
    ensures "@" + "/" + "components/ui" + "/utils" == ComponentsImport + "/utils"
  {
  }

  /** With libDir directly below srcDir, the lib target names the rest of it under the
      main alias. */
  lemma LibTargetUnderSrc(c: RdsConfig, lib: string)
    requires c.libDir == c.srcDir + "/" + lib
    ensures LibTarget(c) == c.alias + "/" + lib + "/utils"
  {
    UnderSrc(c.srcDir, lib);
  }

  /** The same for the components target when there is no components alias. */
  lemma ComponentsTargetUnderSrc(c: RdsConfig, comp: string)
    requires c.componentsAlias == "" && c.componentsDir == c.srcDir + "/" + comp
    ensures ComponentsTarget(c) == c.alias + "/" + comp
  {
    UnderSrc(c.srcDir, comp);
  }

  /** `<srcDir>/<rest>` relative to `srcDir` is `rest`. */
  lemma UnderSrc(srcDir: string, rest: string)
    ensures RelativeToSrc(srcDir + "/" + rest, srcDir) == rest
  {
    ReplaceFirstLeftmostAtStart(srcDir + "/", rest);
    assert srcDir + "/" + rest == (srcDir + "/") + rest;
  }

  /** With the default settings every input is returned unchanged. */
  lemma DefaultTransformIsIdentity(content: string)
    ensures TransformImports(content, DefaultConfig()) == content
  {
    DefaultLayout();
    StandardLayoutIsIdentity(content, DefaultConfig());
  }

  /** The default configuration has the standard layout. */
  lemma DefaultLayout()
    ensures var c := DefaultConfig();
      c.alias == "@" && c.componentsAlias == ""
      && c.libDir == c.srcDir + "/lib" && c.componentsDir == c.srcDir + "/components/ui"
  {
  }

  /** The registry's label module imports `'@/lib/util'`, which is not `@/lib/utils`: it is
      left as it is under every configuration. */
  lemma LibUtilSpecifierUntouched(c: RdsConfig)
    ensures TransformImports("'@/lib/util'", c) == "'@/lib/util'"
  {
    LibUtilSpecifierLacksImports();
    TransformWithoutImports("'@/lib/util'", c);
  }

  /** `'@/lib/util'` contains neither tracked import. */
  lemma LibUtilSpecifierLacksImports()
    ensures !Contains("'@/lib/util'", LibUtilsImport) && !Contains("'@/lib/util'", ComponentsImport)
  {
    LibUtilSpecifierFacts();
    OneLongerNotContained("'@/lib/util'", LibUtilsImport);
    ShortDoesNotContain("'@/lib/util'", ComponentsImport);
  }

  /** `@/lib/utils` fits into `'@/lib/util'` at offsets 0 and 1 only, and at neither. */
  lemma LibUtilSpecifierFacts()
    ensures |"'@/lib/util'"| == |LibUtilsImport| + 1
    ensures !OccursAt("'@/lib/util'", LibUtilsImport, 0)
    ensures !OccursAt("'@/lib/util'", LibUtilsImport, 1)
    ensures |"'@/lib/util'"| < |ComponentsImport|
  {
    var s, p := "'@/lib/util'", LibUtilsImport;
    assert s[0..|p|][0] != p[0];
    assert s[1..1 + |p|][10] != p[10];
  }

  /** The lib rewrite runs first and its output goes through the components rewrite:
      with libDir at `<srcDir>/components/ui` and a components alias, `@/lib/utils` ends up
      under that alias. */
  lemma LibRewriteFeedsComponentRewrite(c: RdsConfig)
    requires c.alias == "@" && c.componentsAlias != ""
    requires c.libDir == c.srcDir + "/components/ui"
    ensures TransformImports(LibUtilsImport, c) == c.componentsAlias + "/utils"
  {
    LibTargetInComponents(c);
    ShortDoesNotContain("/utils", ComponentsImport);
    LibIntoComponents(c, "/utils");
  }

  /** With libDir at `<srcDir>/components/ui` the lib target is `@/components/ui/utils`. */
  lemma LibTargetInComponents(c: RdsConfig)
    requires c.alias == "@" && c.libDir == c.srcDir + "/components/ui"
    ensures LibTarget(c) == ComponentsImport + "/utils"
  {
    assert c.libDir == c.srcDir + "/" + "components/ui";
    LibTargetUnderSrc(c, "components/ui");
    ComponentsImportSpelled();
  }

  /** When the lib target is `@/components/ui` followed by text without that import, the
      components rewrite replaces its head by the components target. */
  lemma LibIntoComponents(c: RdsConfig, d: string)
    requires LibTarget(c) == ComponentsImport + d && !Contains(d, ComponentsImport)
    ensures TransformImports(LibUtilsImport, c) == ComponentsTarget(c) + d
  {
    ReplaceAllAtStart(LibUtilsImport, "", LibTarget(c));
    assert LibUtilsImport + "" == LibUtilsImport;
    ShortDoesNotContain("", LibUtilsImport);
    ReplaceAllAbsent("", LibUtilsImport, LibTarget(c));
    assert LibTarget(c) + "" == LibTarget(c);
    ReplaceAllAbsent(d, ComponentsImport, ComponentsTarget(c));
    ReplaceAllAtStart(ComponentsImport, d, ComponentsTarget(c));
  }

  const NestedDir: string := "components/ui/x"

  /** A configuration whose components directory lies one level below
      `<srcDir>/components/ui`. */
  function NestedComponentsConfig(srcDir: string): RdsConfig {
    RdsConfig("@", srcDir, srcDir + "/" + NestedDir, "", srcDir + "/lib", srcDir + "/styles")
  }

  /** A text that lacks `@/lib/utils` and starts with its only `@/components/ui` has that
      import replaced by the components target. */
  lemma ComponentsAtStart(b: string, c: RdsConfig)
    requires !Contains(ComponentsImport + b, LibUtilsImport)
    requires !Contains(b, ComponentsImport)
    ensures TransformImports(ComponentsImport + b, c) == ComponentsTarget(c) + b
  {
    ReplaceAllAbsent(ComponentsImport + b, LibUtilsImport, LibTarget(c));
    ReplaceAllAtStart(ComponentsImport, b, ComponentsTarget(c));
    ReplaceAllAbsent(b, ComponentsImport, ComponentsTarget(c));
  }

  /** Under the nested configuration `@/components/ui` becomes `@/components/ui/x`. */
  lemma NestedTarget(srcDir: string)
    ensures ComponentsTarget(NestedComponentsConfig(srcDir)) == ComponentsImport + "/x"
  {
    var c := NestedComponentsConfig(srcDir);
    ComponentsTargetUnderSrc(c, NestedDir);
    NestedTargetText();
  }

  /** `@` + `/` + `components/ui/x` is `@/components/ui/x`. */
  lemma NestedTargetText()
    ensures "@" + "/" + NestedDir == ComponentsImport + "/x"
  {
  }

  lemma ReplaceAllAtStart(p: string, b: string, r: string)
    requires |p| > 0
    ensures ReplaceAll(p + b, p, r) == r + ReplaceAll(b, p, r)
  {
    assert (p + b)[..|p|] == p;
    assert (p + b)[|p|..] == b;
  }

  /** `dir.replace(p, "")` when `dir` starts with `p`. */
  lemma ReplaceFirstLeftmostAtStart(p: string, rest: string)
    ensures ReplaceFirst(p + rest, p, "") == rest
  {
    assert (p + rest)[..|p|] == p;
    assert (p + rest)[|p|..] == rest;
  }

  /** When `@/components/ui` becomes itself followed by a non-empty `d` that holds
      neither import, a second run appends `d` once more. */
  lemma RewriteTwice(c: RdsConfig, d: string)
    requires ComponentsTarget(c) == ComponentsImport + d
    requires !Contains(ComponentsImport + d, LibUtilsImport) && !Contains(d, ComponentsImport)
    ensures TransformImports(ComponentsImport, c) == ComponentsImport + d
    ensures TransformImports(ComponentsImport + d, c) == ComponentsImport + d + d
  {
    ComponentsImportLacksLibImport();
    ShortDoesNotContain("", ComponentsImport);
    assert ComponentsImport + "" == ComponentsImport;
    ComponentsAtStart("", c);
    ComponentsAtStart(d, c);
  }

  /** The transform is not idempotent in general: when the components directory lies
      below `src/components/ui`, the second run rewrites the first run's output again. */
  lemma TransformNotIdempotent(srcDir: string)
    ensures var c := NestedComponentsConfig(srcDir);
      TransformImports(TransformImports(ComponentsImport, c), c)
        != TransformImports(ComponentsImport, c)
  {
    NestedTarget(srcDir);
    NestedLacksLibImport();
    ShortDoesNotContain("/x", ComponentsImport);
    RewriteTwice(NestedComponentsConfig(srcDir), "/x");
  }

  /** `@/components/ui/x` does not contain `@/lib/utils`. */
  lemma NestedLacksLibImport()
    ensures !Contains(ComponentsImport + "/x", LibUtilsImport)
  {
    var s, p := ComponentsImport + "/x", LibUtilsImport;
    LiteralFacts();
    HeadOnlyAtStart(s, p);
  }

  /** `@/components/ui` does not contain `@/lib/utils`. */
  lemma ComponentsImportLacksLibImport()
    ensures !Contains(ComponentsImport, LibUtilsImport)
  {
    LiteralFacts();
    HeadOnlyAtStart(ComponentsImport, LibUtilsImport);
  }

  /** Neither `@/components/ui` nor `@/components/ui/x` starts with `@/lib/utils`, and
      neither has an `@` after its first character. */
  lemma LiteralFacts()
    ensures !StartsWith(ComponentsImport, LibUtilsImport)
    ensures !StartsWith(ComponentsImport + "/x", LibUtilsImport)
    ensures forall i :: 0 < i < |ComponentsImport| ==> ComponentsImport[i] != '@'
    ensures forall i :: 0 < i < |ComponentsImport + "/x"| ==> (ComponentsImport + "/x")[i] != '@'
  {
    var p := LibUtilsImport;
    assert ComponentsImport[..|p|][2] != p[2];
    assert (ComponentsImport + "/x")[..|p|][2] != p[2];
  }
}
