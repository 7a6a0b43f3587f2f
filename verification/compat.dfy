/** The build step of the compatibility shim: it loads the legacy options,
    rewrites the legacy values, migrates the extension lists to an ini file
    and writes `buildpack.yml`, refusing to replace one that already exists.

    The filesystem and the environment are inputs: each existence probe is a
    `Result<bool>`, the COMPOSER_PATH variable is an `Option<string>`, and each
    file write either succeeds or fails with an error. Files written are
    returned as values.
 */
module Compat {
  import opened Outcomes
  import opened Text
  import opened Config
  import opened Format

  // ---------------------------------------------------------------------
  // PHP version placeholders
  // ---------------------------------------------------------------------

  /** The legacy placeholder tokens and the version each one stands for. */
  const Placeholders: map<string, string> := map[
    "{PHP_DEFAULT}" := "",
    "{PHP_71_LATEST}" := "7.1.*",
    "{PHP_72_LATEST}" := "7.2.*",
    "{PHP_73_LATEST}" := "7.3.*"
  ]

  /** The four rewrites, applied one after the other to the version string. */
  function TranslateVersion(v: string): (r: string)
    ensures v in Placeholders ==> r == Placeholders[v]
    ensures v !in Placeholders ==> r == v
  {
    var v1 := if v == "{PHP_DEFAULT}" then "" else v;
    var v2 := if v1 == "{PHP_71_LATEST}" then "7.1.*" else v1;
    var v3 := if v2 == "{PHP_72_LATEST}" then "7.2.*" else v2;
    if v3 == "{PHP_73_LATEST}" then "7.3.*" else v3
  }

  /** Rewrites the PHP version placeholder, if any, and nothing else. */
  function SetPhpDefaultVersions(p: PhpOptions): (r: PhpOptions)
    ensures p.version in Placeholders ==> r.version == Placeholders[p.version]
    ensures p.version !in Placeholders ==> r.version == p.version
    ensures r.(version := p.version) == p
  {
    p.(version := TranslateVersion(p.version))
  }

  /** No version a placeholder stands for is itself a placeholder. */
  lemma PlaceholderTargetsAreFinal()
    ensures forall k :: k in Placeholders ==> Placeholders[k] !in Placeholders
  {
  }

  /** Translating an already translated version changes nothing. */
  lemma TranslateVersionIdempotent(v: string)
    ensures TranslateVersion(TranslateVersion(v)) == TranslateVersion(v)
  {
    PlaceholderTargetsAreFinal();
  }

  /** The PHP 7.4 token is not one of the recognised placeholders and passes
      through untouched. */
  lemma Php74IsNotTranslated()
    ensures TranslateVersion("{PHP_74_LATEST}") == "{PHP_74_LATEST}"
  {
  }

  // ---------------------------------------------------------------------
  // Loading the legacy options
  // ---------------------------------------------------------------------

  /** LoadOptionsJSON. `found` is the existence probe of
      `.bp-config/options.json`; `decoded` is the outcome of opening, reading
      and decoding it into the four option groups. The decoded PHP version
      is then passed through the placeholder rewrite. */
  function LoadOptionsJson(found: Result<bool>, decoded: Result<Options>): (r: Result<Options>)
    ensures found.Failure? ==> r == Failure(found.error)
    ensures found == Success(false) ==> r == Success(EmptyOptions())
    ensures found == Success(true) && decoded.Failure? ==> r == Failure(decoded.error)
    ensures found == Success(true) && decoded.Success? ==>
      && r.Success?
      && r.value.php.version == TranslateVersion(decoded.value.php.version)
      && r.value.(php := r.value.php.(version := decoded.value.php.version)) == decoded.value
    ensures r.Success? ==> r.value.php.version !in Placeholders
  {
    match found
    case Failure(e) => Failure(e)
    case Success(false) => Success(EmptyOptions())
    case Success(true) =>
      match decoded
      case Failure(e) => Failure(e)
      case Success(o) => Success(o.(php := SetPhpDefaultVersions(o.php)))
  }

  // ---------------------------------------------------------------------
  // Composer version and path
  // ---------------------------------------------------------------------

  /** Whether the Composer version asks for "latest", in any letter case. */
  predicate IsLatest(v: string)
  {
    ToLower(v) == "latest"
  }

  /** "latest" compared letter by letter: each of the six characters is the
      lower-case or the upper-case letter of `latest` at that place. */
  lemma IsLatestIff(v: string)
    ensures IsLatest(v) <==> |v| == 6 && forall i :: 0 <= i < 6 ==> v[i] == "latest"[i] || v[i] == "LATEST"[i]
  {
    forall i | 0 <= i < 6 && i < |v|
      ensures LowerChar(v[i]) == "latest"[i] <==> v[i] == "latest"[i] || v[i] == "LATEST"[i]
    {
      LowerCharIs(v[i], "latest"[i], "LATEST"[i]);
    }
    if |v| == 6 {
      assert ToLower(v) == "latest" <==> forall i :: 0 <= i < 6 ==> LowerChar(v[i]) == "latest"[i] by {
        if forall i :: 0 <= i < 6 ==> LowerChar(v[i]) == "latest"[i] {
          assert forall i :: 0 <= i < 6 ==> ToLower(v)[i] == "latest"[i];
        }
      }
    }
  }

  /** An ASCII letter comes out of lower-casing from itself and from its
      upper-case form only. */
  lemma LowerCharIs(c: char, lower: char, upper: char)
    requires 'a' <= lower <= 'z' && upper as int == lower as int - 32
    ensures LowerChar(c) == lower <==> c == lower || c == upper
  {
  }

  /** The Composer rewrite of Contribute: a "latest" version (any case)
      becomes the default (empty) version, and the path is always replaced by
      COMPOSER_PATH, empty when the variable is unset. */
  function MigrateComposer(c: ComposerOptions, composerPath: Option<string>): (r: ComposerOptions)
    ensures IsLatest(c.version) ==> r.version == ""
    ensures !IsLatest(c.version) ==> r.version == c.version
    ensures composerPath.Some? ==> r.path == composerPath.value
    ensures composerPath.None? ==> r.path == ""
  {
    var version := if ToLower(c.version) == "latest" then "" else c.version;
    ComposerOptions(version, composerPath.GetOr(""))
  }

  /** A second migration with the same environment changes nothing. */
  lemma MigrateComposerIdempotent(c: ComposerOptions, composerPath: Option<string>)
    ensures MigrateComposer(MigrateComposer(c, composerPath), composerPath) == MigrateComposer(c, composerPath)
  {
  }

  /** Spellings of "latest" that are and are not recognised. */
  lemma LatestSpellings()
    ensures IsLatest("latest") && IsLatest("LATEST") && IsLatest("Latest")
    ensures !IsLatest("latest ") && !IsLatest("1.9.0") && !IsLatest("")
  {
  }

  /** The in-memory rewrite Contribute applies between loading and writing:
      only the Composer group changes. */
  function Migrate(o: Options, composerPath: Option<string>): (r: Options)
    ensures r.(composer := o.composer) == o
    ensures r.composer == MigrateComposer(o.composer, composerPath)
  {
    o.(composer := MigrateComposer(o.composer, composerPath))
  }

  // ---------------------------------------------------------------------
  // Extension migration
  // ---------------------------------------------------------------------

  /** One `<key><name>.so` line per name, in list order. */
  function SoLines(key: string, names: seq<string>): seq<string>
  {
    seq(|names|, i requires 0 <= i < |names| => key + names[i] + ".so")
  }

  /** One `extension=<name>.so` line per PHP extension, in list order. */
  function ExtensionLines(p: PhpOptions): seq<string>
  {
    SoLines("extension=", p.extensions)
  }

  /** One `zend_extension=<name>.so` line per Zend extension, in list order. */
  function ZendExtensionLines(p: PhpOptions): seq<string>
  {
    SoLines("zend_extension=", p.zendExtensions)
  }

  /** The lines of `compat-extensions.ini`: the PHP extension lines, then the
      Zend extension lines. */
  function IniLines(p: PhpOptions): seq<string>
  {
    ExtensionLines(p) + ZendExtensionLines(p)
  }

  /** The text of `compat-extensions.ini`. */
  function ExtensionsIni(p: PhpOptions): string
  {
    Unlines(IniLines(p))
  }

  /** No extension name carries a line break of its own. */
  predicate SingleLineNames(p: PhpOptions)
  {
    && (forall i :: 0 <= i < |p.extensions| ==> IsLine(p.extensions[i]))
    && (forall j :: 0 <= j < |p.zendExtensions| ==> IsLine(p.zendExtensions[j]))
  }

  /** MigrateExtensions, the text it writes: the buffer is filled by two
      loops, first over the PHP extensions, then over the Zend extensions. */
  method MigrateExtensions(p: PhpOptions) returns (text: string)
    ensures text == ExtensionsIni(p)
  {
    text := AppendLines("", "extension=", p.extensions);
    text := AppendLines(text, "zend_extension=", p.zendExtensions);
    UnlinesAppend(ExtensionLines(p), ZendExtensionLines(p));
  }

  /** One of the two loops: appends a `<key><name>.so` line for each name,
      in order, to the buffer. */
  method AppendLines(buffer: string, key: string, names: seq<string>) returns (text: string)
    ensures text == buffer + Unlines(SoLines(key, names))
  {
    var lines := SoLines(key, names);
    text := buffer;
    var i := 0;
    while i < |names|
      invariant 0 <= i <= |names| == |lines|
      invariant text == buffer + Unlines(lines[..i])
    {
      var line := key + names[i] + ".so";
      assert lines[i] == line;
      UnlinesExtend(lines, i);
      assert text + (line + "\n") == buffer + (Unlines(lines[..i]) + (line + "\n"));
      text := text + (line + "\n");
      i := i + 1;
    }
    assert lines[..i] == lines;
  }

  /** Read back line by line, the ini text holds exactly one line per
      extension: the PHP extensions first, then the Zend extensions, each in
      list order. */
  lemma ExtensionsIniReadsBack(p: PhpOptions)
    requires SingleLineNames(p)
    ensures var lines := SplitLines(ExtensionsIni(p));
      && |lines| == |p.extensions| + |p.zendExtensions|
      && (forall i :: 0 <= i < |p.extensions| ==> lines[i] == "extension=" + p.extensions[i] + ".so")
      && (forall j :: 0 <= j < |p.zendExtensions| ==>
            lines[|p.extensions| + j] == "zend_extension=" + p.zendExtensions[j] + ".so")
  {
    IniLinesAreLines(p);
    SplitUnlines(IniLines(p));
  }

  /** The ini text has one newline per extension. */
  lemma ExtensionsIniLineCount(p: PhpOptions)
    requires SingleLineNames(p)
    ensures CountNewlines(ExtensionsIni(p)) == |p.extensions| + |p.zendExtensions|
  {
    IniLinesAreLines(p);
    UnlinesCountsLines(IniLines(p));
  }

  /** The ini text is empty exactly when both lists are. */
  lemma ExtensionsIniEmpty(p: PhpOptions)
    ensures ExtensionsIni(p) == "" <==> |p.extensions| == 0 && |p.zendExtensions| == 0
  {
    UnlinesEmpty(IniLines(p));
  }

  lemma IniLinesAreLines(p: PhpOptions)
    requires SingleLineNames(p)
    ensures AreLines(IniLines(p))
  {
    var lines := IniLines(p);
    forall k | 0 <= k < |lines|
      ensures IsLine(lines[k])
    {
      if k < |p.extensions| {
        assert lines[k] == "extension=" + p.extensions[k] + ".so";
        assert IsLine(p.extensions[k]);
      } else {
        var j := k - |p.extensions|;
        assert lines[k] == "zend_extension=" + p.zendExtensions[j] + ".so";
        assert IsLine(p.zendExtensions[j]);
      }
    }
  }

  /** No extension name holds a `%`. */
  predicate PercentFreeNames(p: PhpOptions)
  {
    && (forall i :: 0 <= i < |p.extensions| ==> '%' !in p.extensions[i])
    && (forall j :: 0 <= j < |p.zendExtensions| ==> '%' !in p.zendExtensions[j])
  }

  /** The text that lands in `compat-extensions.ini`: the buffer is passed to
      the file-writing helper as its format string, with no operands. When no
      extension name holds a `%`, the file holds the buffer as built. */
  function WrittenIni(p: PhpOptions): (r: string)
    ensures PercentFreeNames(p) ==> r == ExtensionsIni(p)
  {
    PercentFreeBuffer(p);
    Sprintf(ExtensionsIni(p))
  }

  /** With no `%` in any name, the buffer holds no `%`: the line prefixes,
      `.so` and the newlines hold none. */
  lemma PercentFreeBuffer(p: PhpOptions)
    ensures PercentFreeNames(p) ==> '%' !in ExtensionsIni(p)
  {
    if PercentFreeNames(p) {
      var lines := IniLines(p);
      forall k | 0 <= k < |lines|
        ensures '%' !in lines[k]
      {
        if k < |p.extensions| {
          assert lines[k] == "extension=" + p.extensions[k] + ".so";
          assert '%' !in p.extensions[k];
        } else {
          var j := k - |p.extensions|;
          assert lines[k] == "zend_extension=" + p.zendExtensions[j] + ".so";
          assert '%' !in p.zendExtensions[j];
        }
      }
      NotInUnlines('%', lines);
    }
  }

  /** Renaming the PHP extension at `k` changes only line `k` of the ini. */
  lemma IniLinesRename(p: PhpOptions, k: nat, name: string)
    requires k < |p.extensions|
    ensures var lines := IniLines(p);
      IniLines(p.(extensions := p.extensions[k := name])) == lines[..k] + ["extension=" + name + ".so"] + lines[k + 1..]
  {
    var q := p.(extensions := p.extensions[k := name]);
    var lines := IniLines(p);
    var renamed := lines[..k] + ["extension=" + name + ".so"] + lines[k + 1..];
    assert |IniLines(q)| == |renamed|;
    forall i | 0 <= i < |renamed|
      ensures IniLines(q)[i] == renamed[i]
    {
      if i < |p.extensions| {
        assert IniLines(q)[i] == "extension=" + q.extensions[i] + ".so";
        assert i != k ==> lines[i] == "extension=" + p.extensions[i] + ".so";
      } else {
        assert IniLines(q)[i] == "zend_extension=" + q.zendExtensions[i - |p.extensions|] + ".so";
        assert lines[i] == "zend_extension=" + p.zendExtensions[i - |p.extensions|] + ".so";
      }
    }
  }

  /** When no name other than the PHP extension at `k` holds a `%`, the ini
      text before and after line `k` holds none. */
  lemma OtherLinesPercentFree(p: PhpOptions, k: nat)
    requires k < |p.extensions|
    requires forall i :: 0 <= i < |p.extensions| && i != k ==> '%' !in p.extensions[i]
    requires forall j :: 0 <= j < |p.zendExtensions| ==> '%' !in p.zendExtensions[j]
    ensures '%' !in Unlines(IniLines(p)[..k]) && '%' !in Unlines(IniLines(p)[k + 1..])
  {
    var lines := IniLines(p);
    forall i | 0 <= i < |lines| && i != k
      ensures '%' !in lines[i]
    {
      if i < |p.extensions| {
        assert lines[i] == "extension=" + p.extensions[i] + ".so";
      } else {
        assert lines[i] == "zend_extension=" + p.zendExtensions[i - |p.extensions|] + ".so";
      }
    }
    var before := lines[..k];
    var after := lines[k + 1..];
    assert forall i :: 0 <= i < |before| ==> before[i] == lines[i];
    assert forall i :: 0 <= i < |after| ==> after[i] == lines[k + 1 + i];
    NotInUnlines('%', before);
    NotInUnlines('%', after);
  }

  /** The ini text with the PHP extension at `k` named `a + mid`: the text
      of the lines before it, then `extension=<a>`, `mid` and `.so` with its
      newline, then the text of the lines after it. */
  lemma ExtensionsIniAt(p: PhpOptions, k: nat, a: string, mid: string)
    requires k < |p.extensions|
    ensures var lines := IniLines(p);
      ExtensionsIni(p.(extensions := p.extensions[k := a + mid]))
        == (Unlines(lines[..k]) + "extension=" + a) + mid + (".so" + "\n" + Unlines(lines[k + 1..]))
  {
    var lines := IniLines(p);
    IniLinesRename(p, k, a + mid);
    UnlinesAround(lines[..k], "extension=" + (a + mid) + ".so", lines[k + 1..]);
    assert "extension=" + (a + mid) + ".so" == ("extension=" + a) + mid + ".so";
    RegroupLine(Unlines(lines[..k]), "extension=" + a, mid, ".so", Unlines(lines[k + 1..]));
  }

  /** A `%` in an extension name is read as a formatting directive. When
      the PHP extension at `k` is `<a>%<v>` for a bare verb `v` and no other
      name holds a `%`, the file written is the buffer of the same lists with
      that name replaced by `<a>%!<v>(MISSING)`. */
  lemma WrittenIniFormatsPercent(p: PhpOptions, k: nat, a: string, v: char)
    requires k < |p.extensions| && p.extensions[k] == a + ['%', v]
    requires '%' !in a && IsBareVerb(v)
    requires forall i :: 0 <= i < |p.extensions| && i != k ==> '%' !in p.extensions[i]
    requires forall j :: 0 <= j < |p.zendExtensions| ==> '%' !in p.zendExtensions[j]
    ensures WrittenIni(p) == ExtensionsIni(p.(extensions := p.extensions[k := a + ("%!" + [v] + "(MISSING)")]))
  {
    var report := "%!" + [v] + "(MISSING)";
    var lines := IniLines(p);
    var pre := Unlines(lines[..k]) + "extension=" + a;
    var post := ".so" + "\n" + Unlines(lines[k + 1..]);
    assert ExtensionsIni(p) == pre + ['%', v] + post by {
      ExtensionsIniAt(p, k, a, ['%', v]);
      assert p.extensions[k := a + ['%', v]] == p.extensions;
    }
    assert Sprintf(ExtensionsIni(p)) == pre + report + post by {
      OtherLinesPercentFree(p, k);
      SprintfOneVerb(pre, v, post);
    }
    ExtensionsIniAt(p, k, a, report);
  }

  /** Read back line by line, the written ini file holds one
      `extension=<e>.so` line per PHP extension, then one
      `zend_extension=<z>.so` line per Zend extension, each in list order, and
      one newline per line. */
  lemma WrittenIniReadsBack(p: PhpOptions)
    requires SingleLineNames(p) && PercentFreeNames(p)
    ensures var lines := SplitLines(WrittenIni(p));
      && |lines| == |p.extensions| + |p.zendExtensions|
      && (forall i :: 0 <= i < |p.extensions| ==> lines[i] == "extension=" + p.extensions[i] + ".so")
      && (forall j :: 0 <= j < |p.zendExtensions| ==>
            lines[|p.extensions| + j] == "zend_extension=" + p.zendExtensions[j] + ".so")
    ensures CountNewlines(WrittenIni(p)) == |p.extensions| + |p.zendExtensions|
  {
    ExtensionsIniReadsBack(p);
    ExtensionsIniLineCount(p);
  }

  // ---------------------------------------------------------------------
  // Writing buildpack.yml
  // ---------------------------------------------------------------------

  const BuildpackYmlPath := "buildpack.yml"
  const ExtensionsIniPath := ".php.ini.d/compat-extensions.ini"

  /** The refusal when the application already has a `buildpack.yml`. */
  const BothConfigFiles := Error("you cannot have both `.bp-config/options.json` and `buildpack.yml`")

  datatype Content = IniText(text: string) | Yaml(doc: Document)

  /** A file written under the application root. */
  datatype Write = Write(path: string, content: Content)

  /** What a step did: the files it wrote, in order, and the error it
      returned, if any. */
  datatype Run = Run(writes: seq<Write>, error: Option<Error>)

  predicate WritesBuildpackYml(r: Run)
  {
    exists k :: 0 <= k < |r.writes| && r.writes[k].path == BuildpackYmlPath
  }

  /** WriteOptionsToBuildpackYAML. `found` is the existence probe of
      `buildpack.yml`; `writeFailure` is the error, if any, of writing it. */
  function WriteOptionsToBuildpackYaml(found: Result<bool>, o: Options, writeFailure: Option<Error>): (r: Run)
    ensures found.Failure? ==> r == Run([], Some(found.error))
    ensures found == Success(true) ==> r == Run([], Some(BothConfigFiles))
    ensures found == Success(false) && writeFailure.Some? ==> r == Run([], writeFailure)
    ensures found == Success(false) && writeFailure.None? ==>
      r == Run([Write(BuildpackYmlPath, Yaml(ToYaml(o)))], None)
  {
    match found
    case Failure(e) => Run([], Some(e))
    case Success(true) => Run([], Some(BothConfigFiles))
    case Success(false) =>
      if writeFailure.Some? then Run([], writeFailure)
      else Run([Write(BuildpackYmlPath, Yaml(ToYaml(o)))], None)
  }

  /** buildpack.yml is written exactly when the probe found none and the
      write itself succeeded; an existing one is never replaced. */
  lemma WriteGuard(found: Result<bool>, o: Options, writeFailure: Option<Error>)
    ensures WritesBuildpackYml(WriteOptionsToBuildpackYaml(found, o, writeFailure))
      <==> found == Success(false) && writeFailure.None?
    ensures found == Success(true) ==> !WritesBuildpackYml(WriteOptionsToBuildpackYaml(found, o, writeFailure))
  {
    var r := WriteOptionsToBuildpackYaml(found, o, writeFailure);
    if found == Success(false) && writeFailure.None? {
      assert r.writes[0].path == BuildpackYmlPath;
    }
  }

  // ---------------------------------------------------------------------
  // Contribute
  // ---------------------------------------------------------------------

  /** What the build step observes of the application and the process. */
  datatype Host = Host(
    optionsJsonExists: Result<bool>,   // probe of .bp-config/options.json
    optionsJson: Result<Options>,      // reading and decoding it
    composerPath: Option<string>,      // the COMPOSER_PATH variable
    iniWriteFailure: Option<Error>,    // writing compat-extensions.ini
    buildpackYmlExists: Result<bool>,  // probe of buildpack.yml
    yamlWriteFailure: Option<Error>)   // writing buildpack.yml

  /** Contribute: load, rewrite, write the extension ini, then write
      buildpack.yml. Each step's error ends the run. */
  function Contribute(h: Host): (r: Run)
    ensures |r.writes| <= 2
    ensures |r.writes| >= 1 ==> r.writes[0].path == ExtensionsIniPath
    ensures |r.writes| == 2 ==> r.writes[1].path == BuildpackYmlPath
    ensures r.error.None? ==> |r.writes| == 2
  {
    match LoadOptionsJson(h.optionsJsonExists, h.optionsJson)
    case Failure(e) => Run([], Some(e))
    case Success(loaded) =>
      var o := Migrate(loaded, h.composerPath);
      if h.iniWriteFailure.Some? then Run([], h.iniWriteFailure)
      else
        var ini := Write(ExtensionsIniPath, IniText(WrittenIni(o.php)));
        var yaml := WriteOptionsToBuildpackYaml(h.buildpackYmlExists, o, h.yamlWriteFailure);
        Run([ini] + yaml.writes, yaml.error)
  }

  /** The options Contribute writes when every step succeeds. */
  function Migrated(h: Host): Options
    requires LoadOptionsJson(h.optionsJsonExists, h.optionsJson).Success?
  {
    Migrate(LoadOptionsJson(h.optionsJsonExists, h.optionsJson).value, h.composerPath)
  }

  /** Each failing step ends the run with its own error: a failed load
      writes nothing, a failed ini write writes nothing, and a failed
      buildpack.yml probe or write comes after the ini file was written. */
  lemma ContributeFailures(h: Host)
    ensures LoadOptionsJson(h.optionsJsonExists, h.optionsJson).Failure? ==>
      Contribute(h) == Run([], Some(LoadOptionsJson(h.optionsJsonExists, h.optionsJson).error))
    ensures LoadOptionsJson(h.optionsJsonExists, h.optionsJson).Success? && h.iniWriteFailure.Some? ==>
      Contribute(h) == Run([], h.iniWriteFailure)
    ensures LoadOptionsJson(h.optionsJsonExists, h.optionsJson).Success? && h.iniWriteFailure.None? ==>
      var ini := Write(ExtensionsIniPath, IniText(WrittenIni(Migrated(h).php)));
      && (h.buildpackYmlExists.Failure? ==> Contribute(h) == Run([ini], Some(h.buildpackYmlExists.error)))
      && (h.buildpackYmlExists == Success(false) && h.yamlWriteFailure.Some? ==>
            Contribute(h) == Run([ini], h.yamlWriteFailure))
  {
  }

  /** The run succeeds exactly when every probe and write does; it then
      writes the ini text of the loaded extensions and a buildpack.yml whose
      Composer path is COMPOSER_PATH (empty when unset) and which holds no
      extension list. */
  lemma ContributeSucceeds(h: Host)
    ensures Contribute(h).error.None? <==>
      && LoadOptionsJson(h.optionsJsonExists, h.optionsJson).Success?
      && h.iniWriteFailure.None?
      && h.buildpackYmlExists == Success(false)
      && h.yamlWriteFailure.None?
    ensures Contribute(h).error.None? ==>
      var o := Migrated(h);
      && Contribute(h).writes == [
           Write(ExtensionsIniPath, IniText(WrittenIni(o.php))),
           Write(BuildpackYmlPath, Yaml(ToYaml(o)))]
      && Get(ToYaml(o), "composer", "json_path") == h.composerPath.GetOr("")
      && FromYaml(ToYaml(o)) == WithoutExtensions(o)
  {
    if Contribute(h).error.None? {
      YamlRoundTrip(Migrated(h));
    }
  }

  /** An existing buildpack.yml is never overwritten: the run fails, with
      the refusal unless an earlier step already failed. The extension ini
      is written before the check and so may already be in place. */
  lemma ContributeNeverOverwrites(h: Host)
    requires h.buildpackYmlExists == Success(true)
    ensures !WritesBuildpackYml(Contribute(h))
    ensures Contribute(h).error.Some?
    ensures LoadOptionsJson(h.optionsJsonExists, h.optionsJson).Success? && h.iniWriteFailure.None? ==>
      Contribute(h) == Run([Write(ExtensionsIniPath, IniText(WrittenIni(Migrated(h).php)))], Some(BothConfigFiles))
  {
  }

  /** Without an options.json, Contribute still writes an empty ini and a
      buildpack.yml of empty values apart from the Composer path. */
  lemma ContributeWithoutOptionsJson(h: Host)
    requires h.optionsJsonExists == Success(false)
    requires h.iniWriteFailure.None? && h.buildpackYmlExists == Success(false) && h.yamlWriteFailure.None?
    ensures Contribute(h) == Run([
      Write(ExtensionsIniPath, IniText("")),
      Write(BuildpackYmlPath, Yaml(ToYaml(EmptyOptions().(composer := ComposerOptions("", h.composerPath.GetOr(""))))))],
      None)
  {
  }
}
