/** The vite.config.ts edits of `init`: the alias entries, the config written when there
    is none, and the edit of an existing config. The three regular expressions
    `/(alias:\s*\{)/`, `/(resolve:\s*\{)/` and `/(defineConfig\(\s*)\{/` have the same
    shape, a fixed head, white space and a `{`; each replacement inserts text right after
    the first such `{`. */
module ViteConfig {
  import opened Wrappers
  import opened Text
  import opened Config

  /** `"x"` */
  function Quote(x: string): string {
    "\"" + x + "\""
  }

  /** The entries of the aliases object, in insertion order. The object starts with the
      main alias; a components alias is assigned after it, and when both are the same key
      the later assignment replaces the value in place. */
  function Aliases(c: RdsConfig): (r: seq<(string, string)>)
    ensures |r| > 0 && r[0].0 == c.alias
    ensures forall i, j :: 0 <= i < j < |r| ==> r[i].0 != r[j].0
    ensures forall k :: HasKey(r, k) <==> k == c.alias || (c.componentsAlias != "" && k == c.componentsAlias)
    ensures forall i :: 0 <= i < |r| ==>
      r[i].1 == if c.componentsAlias != "" && r[i].0 == c.componentsAlias then "./" + c.componentsDir
                else "./" + c.srcDir
  {
    if c.componentsAlias == "" then
      var r := [(c.alias, "./" + c.srcDir)];
      assert r[0].0 == c.alias;
      r
    else if c.componentsAlias == c.alias then
      var r := [(c.alias, "./" + c.componentsDir)];
      assert r[0].0 == c.alias;
      r
    else
      var r := [(c.alias, "./" + c.srcDir), (c.componentsAlias, "./" + c.componentsDir)];
      assert r[1].0 == c.componentsAlias;
      r
  }

  /** Some entry has key `k`. */
  predicate HasKey(es: seq<(string, string)>, k: string) {
    exists i :: 0 <= i < |es| && es[i].0 == k
  }

  const Indent: string := "      "

  /** One entry: `      "<key>": path.resolve(__dirname, "<val>"),` */
  function AliasLine(key: string, val: string): string {
    Indent + Quote(key) + (": path.resolve(__dirname, " + Quote(val) + "),")
  }

  function Lines(es: seq<(string, string)>): (r: seq<string>)
    ensures |r| == |es|
    ensures forall i :: 0 <= i < |es| ==> r[i] == AliasLine(es[i].0, es[i].1)
  {
    if |es| == 0 then [] else [AliasLine(es[0].0, es[0].1)] + Lines(es[1..])
  }

  /** The entries, one per line. */
  function AliasLines(c: RdsConfig): string {
    Join(Lines(Aliases(c)), "\n")
  }

  const ViteHeader: string :=
    "import { defineConfig } from \"vite\";\nimport vue from \"@vitejs/plugin-vue\";\nimport path from \"path\";\n\nexport default defineConfig({\n  plugins: [vue()],\n  resolve: {\n    alias: {\n"
  const ViteFooter: string := "\n    },\n  },\n});\n"

  /** The vite.config.ts written when the project has none. */
  function CreatedViteConfig(c: RdsConfig): string {
    ViteHeader + AliasLines(c) + ViteFooter
  }

  /** The index of the first character at or after `j` that is not white space. */
  function SkipSpaces(s: string, j: nat): (k: nat)
    requires j <= |s|
    ensures j <= k <= |s|
    ensures forall t :: j <= t < k ==> IsSpace(s[t])
    ensures k < |s| ==> !IsSpace(s[k])
    decreases |s| - j
  {
    if j < |s| && IsSpace(s[j]) then SkipSpaces(s, j + 1) else j
  }

  /** The pattern `head\s*\{` matches at `i`. `\s*` is greedy and `{` is not white space,
      so a match takes the whole run of white space after the head. */
  predicate BraceAfter(s: string, head: string, i: nat) {
    OccursAt(s, head, i) && SkipSpaces(s, i + |head|) < |s| && s[SkipSpaces(s, i + |head|)] == '{'
  }

  /** The leftmost match at or after `from`. */
  function FirstMatch(s: string, head: string, from: nat): (r: Option<nat>)
    requires |head| > 0 && from <= |s|
    ensures r.None? ==> forall i: nat :: from <= i ==> !BraceAfter(s, head, i)
    ensures r.Some? ==> from <= r.value && BraceAfter(s, head, r.value)
    ensures r.Some? ==> forall i: nat :: from <= i < r.value ==> !BraceAfter(s, head, i)
    decreases |s| - from
  {
    if BraceAfter(s, head, from) then Some(from)
    else if from == |s| then None
    else FirstMatch(s, head, from + 1)
  }

  /** `s.replace(/(head\s*\{)/, "$1" + ins)`: `ins` goes right after the `{` of the leftmost
      match; without a match nothing changes. */
  function InsertAfterBrace(s: string, head: string, ins: string): string
    requires |head| > 0
  {
    match FirstMatch(s, head, 0)
    case None => s
    case Some(i) => Splice(s, SkipSpaces(s, i + |head|) + 1, ins)
  }

  /** `ins` put in at index `j` of `s`. */
  function Splice(s: string, j: nat, ins: string): string
    requires j <= |s|
  {
    s[..j] + ins + s[j..]
  }

  /** The inserted text ends up in the result whenever the pattern matches. */
  lemma InsertedWhenMatched(s: string, head: string, ins: string, p: string)
    requires |head| > 0 && FirstMatch(s, head, 0).Some? && Contains(ins, p)
    ensures Contains(InsertAfterBrace(s, head, ins), p)
  {
    var k := SkipSpaces(s, FirstMatch(s, head, 0).value + |head|);
    ContainsInside(s[..k + 1], ins, s[k + 1..], p);
  }

  /** Which edit an existing config gets, in priority order: into an existing `alias: {`
      when both `resolve:` and `alias:` occur, else into `resolve: {`, else into
      `defineConfig({`. */
  function InsertionHead(content: string): (h: string)
    ensures |h| > 0
  {
    if Contains(content, "resolve:") && Contains(content, "alias:") then "alias:"
    else if Contains(content, "resolve:") then "resolve:"
    else "defineConfig("
  }

  /** What that edit inserts: the entries, wrapped in as many of `alias: {}` and
      `resolve: {}` as the config lacks. */
  function InsertionText(content: string, c: RdsConfig): string {
    if Contains(content, "resolve:") && Contains(content, "alias:") then "\n" + AliasLines(c)
    else if Contains(content, "resolve:") then "\n" + ("    alias: {\n" + AliasLines(c) + "\n    },")
    else "\n" + ("  resolve: {\n    alias: {\n" + AliasLines(c) + "\n    },\n  },")
  }

  const PathImportDq: string := "import path from \"path\""
  const PathImportSq: string := "import path from 'path'"

  /** The `import path` line is prepended unless one of its two quotings is present. */
  function WithPathImport(s: string): (r: string)
    ensures Contains(s, PathImportDq) || Contains(s, PathImportSq) ==> r == s
    ensures !Contains(s, PathImportDq) && !Contains(s, PathImportSq) ==> StartsWith(r, PathImportDq) && EndsWith(r, s)
  {
    if !Contains(s, PathImportDq) && !Contains(s, PathImportSq) then
      var r := PathImportDq + ";\n" + s;
      assert r[..|PathImportDq|] == PathImportDq;
      assert r[|r| - |s|..] == s;
      r
    else s
  }

  /** Afterwards the file imports `path`, and it still contains all it contained. */
  lemma WithPathImportKeeps(s: string)
    ensures var r := WithPathImport(s);
      (Contains(r, PathImportDq) || Contains(r, PathImportSq))
      && forall p :: Contains(s, p) ==> Contains(r, p)
  {
    var r := WithPathImport(s);
    if r != s {
      assert Contains(r, PathImportDq);
      forall p | Contains(s, p) ensures Contains(r, p) {
        ContainsInside(PathImportDq + ";\n", s, "", p);
        assert PathImportDq + ";\n" + s + "" == r;
      }
    }
  }

  /** Prepending the import twice is the same as once. */
  lemma WithPathImportIdempotent(s: string)
    ensures WithPathImport(WithPathImport(s)) == WithPathImport(s)
  {
  }

  /** The edit of an existing config that does not yet mention the alias. */
  function EditedViteConfig(content: string, c: RdsConfig): string {
    WithPathImport(InsertAfterBrace(content, InsertionHead(content), InsertionText(content, c)))
  }

  /** `out` holds the match of `head\s*\{` at `i` in `s`, immediately followed by `ins`. */
  predicate PlacedAt(s: string, head: string, i: nat, ins: string, out: string) {
    i + |head| <= |s| &&
    var k := SkipSpaces(s, i + |head|);
    k < |s| && s[i..i + |head|] == head && s[k] == '{' && Contains(out, s[i..k + 1] + ins)
  }

  /** Where the edit goes: right after the `{` of the leftmost match of the chosen head. */
  lemma EditPlacement(content: string, c: RdsConfig)
    requires FirstMatch(content, InsertionHead(content), 0).Some?
    ensures PlacedAt(content, InsertionHead(content), FirstMatch(content, InsertionHead(content), 0).value,
                     InsertionText(content, c), EditedViteConfig(content, c))
  {
    PlacedThroughPathImport(content, InsertionHead(content), InsertionText(content, c));
  }

  /** The placement survives the prepended `import path` line. */
  lemma PlacedThroughPathImport(s: string, h: string, ins: string)
    requires |h| > 0 && FirstMatch(s, h, 0).Some?
    ensures PlacedAt(s, h, FirstMatch(s, h, 0).value, ins, WithPathImport(InsertAfterBrace(s, h, ins)))
  {
    var x := InsertAfterBrace(s, h, ins);
    BraceInsertion(s, h, ins);
    WithPathImportKeeps(x);
    PlacedKeeps(s, h, FirstMatch(s, h, 0).value, ins, x, WithPathImport(x));
  }

  /** The placement carries over to any text that contains all that `x` contains. */
  lemma PlacedKeeps(s: string, h: string, i: nat, ins: string, x: string, y: string)
    requires PlacedAt(s, h, i, ins, x)
    requires forall p :: Contains(x, p) ==> Contains(y, p)
    ensures PlacedAt(s, h, i, ins, y)
  {
  }

  /** The leftmost match at `i` is the head, white space up to `k`, and a `{` at `k`. */
  lemma MatchShape(s: string, h: string, i: nat, k: nat)
    requires |h| > 0 && FirstMatch(s, h, 0) == Some(i) && k == SkipSpaces(s, i + |h|)
    ensures i + |h| <= k < |s| && s[i..i + |h|] == h && s[k] == '{'
  {
    assert BraceAfter(s, h, i);
  }

  /** The edit splices `ins` in right after that `{`. */
  lemma InsertAfterBraceAt(s: string, h: string, ins: string, i: nat, k: nat)
    requires |h| > 0 && FirstMatch(s, h, 0) == Some(i) && k == SkipSpaces(s, i + |h|) && k < |s|
    ensures InsertAfterBrace(s, h, ins) == Splice(s, k + 1, ins)
  {
  }

  /** Text spliced in after index `k` follows whatever ends at `k`. */
  lemma SplicedAfter(s: string, i: nat, k: nat, ins: string, x: string)
    requires i <= k < |s| && x == Splice(s, k + 1, ins)
    ensures Contains(x, s[i..k + 1] + ins)
  {
    assert s[..k + 1][i..] == s[i..k + 1];
    ContainsJoin(s[..k + 1], ins, s[k + 1..], i);
  }

  /** The inserted text comes right after the matched head, its white space and its `{`. */
  lemma BraceInsertion(s: string, h: string, ins: string)
    requires |h| > 0 && FirstMatch(s, h, 0).Some?
    ensures PlacedAt(s, h, FirstMatch(s, h, 0).value, ins, InsertAfterBrace(s, h, ins))
  {
    var i := FirstMatch(s, h, 0).value;
    var k := SkipSpaces(s, i + |h|);
    MatchShape(s, h, i, k);
    InsertAfterBraceAt(s, h, ins, i, k);
    SplicedAfter(s, i, k, ins, InsertAfterBrace(s, h, ins));
  }

  /** What updateViteConfig does to the file. */
  datatype ViteEdit = Create(content: string) | AlreadyConfigured | Update(content: string)

  /** updateViteConfig: `existing` is the current file, if any. A config that already
      contains the quoted main alias is left alone. */
  function UpdateViteConfig(existing: Option<string>, c: RdsConfig): (e: ViteEdit)
    ensures existing.None? <==> e.Create?
    ensures e.AlreadyConfigured? <==> existing.Some? && Contains(existing.value, Quote(c.alias))
    ensures e.Create? ==> e.content == CreatedViteConfig(c)
    ensures e.Update? ==> e.content == EditedViteConfig(existing.value, c)
  {
    match existing
    case None => Create(CreatedViteConfig(c))
    case Some(content) =>
      if Contains(content, Quote(c.alias)) then AlreadyConfigured
      else Update(EditedViteConfig(content, c))
  }

  /** Every entry line names its key in quotes. */
  lemma AliasLineQuotesKey(key: string, val: string)
    ensures Contains(AliasLine(key, val), Quote(key))
  {
    assert StartsWith(Quote(key), Quote(key));
    ContainsInside(Indent, Quote(key), ": path.resolve(__dirname, " + Quote(val) + "),", Quote(key));
  }

  /** The entry lines name the main alias in quotes. */
  lemma AliasLinesQuoteAlias(c: RdsConfig)
    ensures Contains(AliasLines(c), Quote(c.alias))
  {
    var es := Aliases(c);
    AliasLineQuotesKey(es[0].0, es[0].1);
    JoinHeadContains(Lines(es), "\n", Quote(c.alias));
  }

  /** So does whatever the edit inserts. */
  lemma InsertionTextQuotesAlias(content: string, c: RdsConfig)
    ensures Contains(InsertionText(content, c), Quote(c.alias))
  {
    AliasLinesQuoteAlias(c);
    var q, l := Quote(c.alias), AliasLines(c);
    if Contains(content, "resolve:") && Contains(content, "alias:") {
      ContainsInside("\n", l, "", q);
      assert "\n" + l + "" == "\n" + l;
    } else if Contains(content, "resolve:") {
      ContainsInside("    alias: {\n", l, "\n    },", q);
      ContainsInside("\n", "    alias: {\n" + l + "\n    },", "", q);
      assert "\n" + ("    alias: {\n" + l + "\n    },") + "" == InsertionText(content, c);
    } else {
      ContainsInside("  resolve: {\n    alias: {\n", l, "\n    },\n  },", q);
      ContainsInside("\n", "  resolve: {\n    alias: {\n" + l + "\n    },\n  },", "", q);
      assert "\n" + ("  resolve: {\n    alias: {\n" + l + "\n    },\n  },") + "" == InsertionText(content, c);
    }
  }

  /** A config `init` wrote is left alone by the next run. */
  lemma CreatedThenAlreadyConfigured(c: RdsConfig)
    ensures UpdateViteConfig(Some(CreatedViteConfig(c)), c) == AlreadyConfigured
  {
    AliasLinesQuoteAlias(c);
    ContainsInside(ViteHeader, AliasLines(c), ViteFooter, Quote(c.alias));
  }

  /** When the chosen pattern matches, the edited config names the alias, so the next run
      leaves it alone: the update is idempotent. */
  lemma UpdatedThenAlreadyConfigured(content: string, c: RdsConfig)
    requires !Contains(content, Quote(c.alias))
    requires FirstMatch(content, InsertionHead(content), 0).Some?
    ensures UpdateViteConfig(Some(EditedViteConfig(content, c)), c) == AlreadyConfigured
  {
    InsertionTextQuotesAlias(content, c);
    InsertedWhenMatched(content, InsertionHead(content), InsertionText(content, c), Quote(c.alias));
    WithPathImportKeeps(InsertAfterBrace(content, InsertionHead(content), InsertionText(content, c)));
  }

  /** When the chosen pattern does not match (`alias: someObject`, say), the file is still
      rewritten and reported as updated, but only the `import path` line can change. */
  lemma UnmatchedOnlyImportsPath(content: string, c: RdsConfig)
    requires !Contains(content, Quote(c.alias))
    requires FirstMatch(content, InsertionHead(content), 0).None?
    ensures UpdateViteConfig(Some(content), c) == Update(WithPathImport(content))
  {
  }
}
