/** The consumer-side settings (RdsConfig) and the rds-ui.json store over a file map.
    The JSON text is modelled by a codec of its own: members in a fixed order, string
    literals with `"` and `\` escaped. */
module Config {
  import opened Wrappers
  import opened Text

  datatype RdsConfig = RdsConfig(
    alias: string,
    srcDir: string,
    componentsDir: string,
    componentsAlias: string,
    libDir: string,
    stylesDir: string)

  const ConfigFile: string := "rds-ui.json"

  /** The settings `init --yes` uses. */
  function DefaultConfig(): RdsConfig {
    RdsConfig("@", "src", "src/components/ui", "", "src/lib", "src/styles")
  }

  function ConfigPath(cwd: string): string {
    PathJoin(cwd, ConfigFile)
  }

  /** A project is initialized exactly when its rds-ui.json exists. */
  predicate ConfigExists(files: map<string, string>, cwd: string) {
    ConfigPath(cwd) in files
  }

  datatype LoadError = NotFound | Malformed

  /** loadConfig: throws when the file is absent; reading text that is not a config
      throws as well (readJsonSync). */
  function LoadConfig(files: map<string, string>, cwd: string): (r: Result<RdsConfig, LoadError>)
    ensures r == Err(NotFound) <==> !ConfigExists(files, cwd)
    ensures r.Ok? ==> Decode(files[ConfigPath(cwd)]) == Some(r.value)
  {
    if !ConfigExists(files, cwd) then Err(NotFound)
    else match Decode(files[ConfigPath(cwd)])
      case None => Err(Malformed)
      case Some(c) => Ok(c)
  }

  /** saveConfig: writes rds-ui.json and no other file. */
  function SaveConfig(files: map<string, string>, cwd: string, c: RdsConfig): (r: map<string, string>)
    ensures r.Keys == files.Keys + {ConfigPath(cwd)}
    ensures forall p :: p in files && p != ConfigPath(cwd) ==> r[p] == files[p]
    ensures ConfigExists(r, cwd)
  {
    files[ConfigPath(cwd) := Encode(c)]
  }

  /** Loading what was saved gives back the saved record. */
  lemma SaveThenLoad(files: map<string, string>, cwd: string, c: RdsConfig)
    ensures LoadConfig(SaveConfig(files, cwd, c), cwd) == Ok(c)
  {
    DecodeEncode(c);
  }

  // ---- the serialisation of rds-ui.json ----

  function Escape(s: string): string
    decreases |s|
  {
    if |s| == 0 then ""
    else (if s[0] == '"' || s[0] == '\\' then ['\\', s[0]] else [s[0]]) + Escape(s[1..])
  }

  /** Reads the rest of a string literal up to its closing quote: the value and the text
      after the quote; None when the literal is not closed. */
  function ReadQuoted(s: string): Option<(string, string)>
    decreases |s|
  {
    if |s| == 0 then None
    else if s[0] == '"' then Some(("", s[1..]))
    else if s[0] == '\\' then
      if |s| < 2 then None
      else match ReadQuoted(s[2..])
        case None => None
        case Some(vr) => Some(([s[1]] + vr.0, vr.1))
    else match ReadQuoted(s[1..])
      case None => None
      case Some(vr) => Some(([s[0]] + vr.0, vr.1))
  }

  lemma {:induction false} ReadQuotedEscape(x: string, rest: string)
    ensures ReadQuoted(Escape(x) + "\"" + rest) == Some((x, rest))
    decreases |x|
  {
    if |x| == 0 {
      assert Escape(x) + "\"" + rest == ['"'] + rest;
    } else {
      var t := Escape(x[1..]) + "\"" + rest;
      ReadQuotedEscape(x[1..], rest);
      assert [x[0]] + x[1..] == x;
      if x[0] == '"' || x[0] == '\\' {
        ReadQuotedStep(['\\', x[0]], t, Escape(x) + "\"" + rest);
      } else {
        ReadQuotedStep([x[0]], t, Escape(x) + "\"" + rest);
      }
    }
  }

  /** One step of the reader: an escaped or a plain character in front of `t`. */
  lemma ReadQuotedStep(head: string, t: string, s: string)
    requires s == head + t
    requires (|head| == 2 && head[0] == '\\') || (|head| == 1 && head[0] != '"' && head[0] != '\\')
    ensures ReadQuoted(s) == match ReadQuoted(t)
      case None => None
      case Some(vr) => Some(([head[|head| - 1]] + vr.0, vr.1))
  {
    assert s[|head|..] == t;
  }

  function Expect(s: string, prefix: string): Option<string> {
    if StartsWith(s, prefix) then Some(s[|prefix|..]) else None
  }

  lemma ExpectPrefix(prefix: string, rest: string)
    ensures Expect(prefix + rest, prefix) == Some(rest)
  {
    assert (prefix + rest)[..|prefix|] == prefix;
    assert (prefix + rest)[|prefix|..] == rest;
  }

  /** `"key":"value"` followed by a terminator (`,` or `}`) and the rest of the text.
      The keys are fixed identifiers and need no escaping. */
  function Member(key: string, value: string, terminator: string, rest: string): string {
    KeyPrefix(key) + (Escape(value) + "\"" + (terminator + rest))
  }

  /** `"key":"`, the text before a member's value. */
  function KeyPrefix(key: string): string {
    "\"" + key + "\":\""
  }

  function ReadMember(s: string, key: string, terminator: string): Option<(string, string)> {
    var afterKey :- Expect(s, KeyPrefix(key));
    var vr :- ReadQuoted(afterKey);
    var rest :- Expect(vr.1, terminator);
    Some((vr.0, rest))
  }

  lemma ReadMemberOf(key: string, value: string, terminator: string, rest: string)
    ensures ReadMember(Member(key, value, terminator, rest), key, terminator) == Some((value, rest))
  {
    ExpectPrefix(KeyPrefix(key), Escape(value) + "\"" + (terminator + rest));
    ReadQuotedEscape(value, terminator + rest);
    ExpectPrefix(terminator, rest);
  }

  /** The text saveConfig writes for a config. */
  function Encode(c: RdsConfig): string {
    "{" + Member("alias", c.alias, ",",
      Member("srcDir", c.srcDir, ",",
      Member("componentsDir", c.componentsDir, ",",
      Member("componentsAlias", c.componentsAlias, ",",
      Member("libDir", c.libDir, ",",
      Member("stylesDir", c.stylesDir, "}", ""))))))
  }

  /** Parses the text of rds-ui.json; None for text that is not a config. */
  function Decode(s: string): Option<RdsConfig> {
    var body :- Expect(s, "{");
    var a :- ReadMember(body, "alias", ",");
    var b :- ReadMember(a.1, "srcDir", ",");
    var c :- ReadMember(b.1, "componentsDir", ",");
    var d :- ReadMember(c.1, "componentsAlias", ",");
    var e :- ReadMember(d.1, "libDir", ",");
    var f :- ReadMember(e.1, "stylesDir", "}");
    if f.1 == "" then Some(RdsConfig(a.0, b.0, c.0, d.0, e.0, f.0)) else None
  }

  lemma DecodeEncode(c: RdsConfig)
    ensures Decode(Encode(c)) == Some(c)
  {
    var m6 := Member("stylesDir", c.stylesDir, "}", "");
    var m5 := Member("libDir", c.libDir, ",", m6);
    var m4 := Member("componentsAlias", c.componentsAlias, ",", m5);
    var m3 := Member("componentsDir", c.componentsDir, ",", m4);
    var m2 := Member("srcDir", c.srcDir, ",", m3);
    var m1 := Member("alias", c.alias, ",", m2);
    ExpectPrefix("{", m1);
    ReadMemberOf("alias", c.alias, ",", m2);
    ReadMemberOf("srcDir", c.srcDir, ",", m3);
    ReadMemberOf("componentsDir", c.componentsDir, ",", m4);
    ReadMemberOf("componentsAlias", c.componentsAlias, ",", m5);
    ReadMemberOf("libDir", c.libDir, ",", m6);
    ReadMemberOf("stylesDir", c.stylesDir, "}", "");
  }
}
