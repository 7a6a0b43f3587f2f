# php-compat-cnb in Dafny

A verified model of the decision and transcoding rules of the PHP
compatibility buildpack, which migrates applications off the legacy PHP
buildpack's configuration.

- **Detect** (`cmd/detect/main.go`). The buildpack takes part in the build
  when there is no legacy `.extensions` folder and either COMPOSER_PATH is
  set or a `.bp-config` folder exists. A failed existence probe fails
  detection and reports the probe's error.
- **Build** (`compat/compat.go`). The contributor loads
  `.bp-config/options.json`, or the all-empty options when it is absent. It
  rewrites the legacy PHP version placeholders (`{PHP_DEFAULT}`,
  `{PHP_71_LATEST}`, `{PHP_72_LATEST}`, `{PHP_73_LATEST}`). It replaces a
  Composer version of "latest" (any case) with the default, and takes the
  Composer path from COMPOSER_PATH. It writes the PHP and Zend extension
  lists as `extension=`/`zend_extension=` lines into
  `.php.ini.d/compat-extensions.ini`. Last, it writes the remaining options
  as `buildpack.yml`, refusing when that file already exists.

Files:

- `outcomes.dfy`, module `Outcomes`: `Option`, `Result` and `Error`. These
  stand for Go's `(value, error)` returns and for unset environment
  variables.
- `text.dfy`, module `Text`: ASCII lower-casing, joining lines and splitting
  text back into lines, with the round-trip and line-count lemmas.
- `options.dfy`, module `Config`: the `Options`, `PhpOptions`,
  `HttpdOptions`, `NginxOptions` and `ComposerOptions` records, and their
  projection to and from the `buildpack.yml` document.
- `compat.dfy`, module `Compat`: version placeholders, loading, the Composer
  rewrite, extension migration, the write guard and `Contribute`.
- `detect.dfy`, module `Detect`: `runDetect`.
- `format.dfy`, module `Format`: Go's `fmt.Sprintf` applied to a format
  string with no operands, as the ini file writer does.

The filesystem and the process environment are inputs. Each existence probe
(`helper.FileExists`) is a `Result<bool>`. COMPOSER_PATH is an
`Option<string>`. Opening, reading and JSON-decoding `options.json` together
form one `Result<Options>`. Each file write is an `Option<Error>` telling
whether it failed. The files written are returned as values, as a `Run`: the
ordered list of writes plus the error returned, if any.

Where the unit tests disagree with the code, the model follows the code:

- `compat/compat_test.go` expects `{PHP_74_LATEST}` to become `7.4.*`. The
  code leaves that token unchanged (`Compat.Php74IsNotTranslated`).
- That test also expects a default web server of `httpd` when there is no
  `options.json`. The code returns all-empty options.
- That test also uses functions and Composer fields that the code does not
  have.
- `cmd/detect/main_test.go` expects build-plan entries that `runDetect`
  never produces.
- That test also expects a pass when neither COMPOSER_PATH nor `.bp-config`
  is present. The code fails (`Detect.NothingLegacyFails`).

The extension ini text is not written verbatim. `compat/compat.go:75` passes
the buffer to `helper.WriteFile` as its format string, with no operands, so
the file holds `fmt.Sprintf(buffer)`. Module `Format` (`format.dfy`) models
that pass: a `%` in an extension name is read as a formatting directive, and
text without `%` is unchanged (`Compat.WrittenIni`).

`compat/compat.go` refuses an existing `buildpack.yml` only at build time. The
refusal comes after the extension ini has been written
(`Compat.ContributeNeverOverwrites`). It applies whether or not
`options.json` exists. Detect never looks at `buildpack.yml`.

## Model

| member | source | states |
|---|---|---|
| Compat.TranslateVersion | compat/compat.go:160-173 | a placeholder token becomes the version it stands for (`{PHP_DEFAULT}` becomes empty, `{PHP_7x_LATEST}` becomes `7.x.*`); any other string is unchanged |
| Compat.SetPhpDefaultVersions | compat/compat.go:160-173 | only the PHP version is rewritten, per the placeholder table; every other PHP field, including both extension lists, is unchanged |
| Compat.PlaceholderTargetsAreFinal | compat/compat.go:160-173 | no version a placeholder stands for is itself a placeholder |
| Compat.TranslateVersionIdempotent | compat/compat.go:160-173 | translating twice gives the same as translating once |
| Compat.Php74IsNotTranslated | compat/compat.go:164-172 | `{PHP_74_LATEST}` is not recognised and passes through unchanged |
| Compat.LoadOptionsJson | compat/compat.go:112-158 | a failed probe or a failed read/decode returns that error; a missing options.json gives the all-empty options; otherwise the decoded options come back with only the PHP version translated, so a successful load never leaves a placeholder token as the PHP version |
| Compat.IsLatestIff | compat/compat.go:42 | a version counts as "latest" exactly when it has six characters and each is the lower-case or the upper-case letter of `latest` at that place |
| Compat.LatestSpellings | compat/compat.go:42-45 | `latest`, `LATEST` and `Latest` are recognised; `latest `, `1.9.0` and the empty string are not |
| Compat.MigrateComposer | compat/compat.go:42-48 | a "latest" Composer version in any case becomes empty and any other is kept; the path becomes COMPOSER_PATH, or empty when it is unset |
| Compat.MigrateComposerIdempotent | compat/compat.go:42-48 | with the same environment, migrating the Composer options twice gives the same as migrating once |
| Compat.Migrate | compat/compat.go:42-48 | the in-memory rewrite of Contribute changes the Composer group only |
| Compat.MigrateExtensions | compat/compat.go:63-73 | the two buffer loops produce exactly the ini text of the extension lists |
| Compat.AppendLines | compat/compat.go:66-72 | one loop appends to the buffer exactly one `<key><name>.so` line with its newline per name, in list order, after what the buffer held |
| Compat.ExtensionsIniReadsBack | compat/compat.go:65-73 | when no extension name contains a newline: read back line by line, the ini buffer holds one `extension=<e>.so` line per PHP extension in list order, then one `zend_extension=<z>.so` line per Zend extension in list order, and nothing else |
| Compat.ExtensionsIniLineCount | compat/compat.go:65-73 | when no extension name contains a newline, the ini buffer has as many newlines as the two lists have entries together |
| Compat.ExtensionsIniEmpty | compat/compat.go:65-73 | the ini buffer is empty exactly when both lists are empty |
| Compat.WrittenIni | compat/compat.go:75 | the file written is the buffer passed through the format pass; when no extension name contains `%`, it is exactly the buffer text |
| Compat.PercentFreeBuffer | compat/compat.go:65-73 | when no extension name contains `%`, neither does the buffer |
| Compat.WrittenIniFormatsPercent | compat/compat.go:75 | when the PHP extension at one position is `<a>%<v>` (`<a>` without `%`, `v` a bare verb) and no other PHP or Zend extension name contains `%`, the file written is the buffer of the same lists with that name replaced by `<a>%!<v>(MISSING)` |
| Compat.WrittenIniReadsBack | compat/compat.go:65-75 | when no extension name contains a newline or `%`, the written file reads back as one `extension=` line per PHP extension, then one `zend_extension=` line per Zend extension, each in list order, with one newline per line |
| Format.Sprintf | compat/compat.go:75 | the format pass of the written ini text; text that contains no `%` comes out unchanged |
| Format.SprintfOneVerb | compat/compat.go:75 | one bare directive `%<v>` amid text without `%` prints `%!<v>(MISSING)` in its place and copies the text around it |
| Format.SprintfPlainPrefix | compat/compat.go:75 | a leading run of text without `%` is copied and the rest is formatted after it |
| Format.SprintfDirected | compat/compat.go:75 | a format that starts with `%` and has no further `%` after its directive prints the directive scanner's report followed by the rest unchanged |
| Format.SprintfAround | compat/compat.go:75 | a directive amid text without `%` prints what the directive scanner reports for it, and the text around it is copied |
| Format.SprintfPercent | compat/compat.go:75 | `%%` amid text without `%` prints one `%` |
| Format.SprintfNoVerb | compat/compat.go:75 | a `%` ending text that otherwise contains no `%` prints `%!(NOVERB)` in its place |
| Format.SprintfBadIndex | compat/compat.go:75 | `%[d]<v>` with one digit `d` and a bare verb `v`, amid text without `%`, prints `%!<v>(BADINDEX)`, since no operand exists; the text around it is copied |
| Format.SprintfBadWidth | compat/compat.go:75 | `%*<v>` with a bare verb `v`, amid text without `%`, prints `%!(BADWIDTH)%!<v>(MISSING)`; the text around it is copied |
| Format.SprintfBadPrecision | compat/compat.go:75 | `%.*<v>` with a bare verb `v`, amid text without `%`, prints `%!(BADPREC)%!<v>(MISSING)`; the text around it is copied |
| Compat.WriteOptionsToBuildpackYaml | compat/compat.go:175-194 | a failed probe returns its error; an existing buildpack.yml returns the "you cannot have both" error and writes nothing; otherwise the YAML projection is written, unless the write fails |
| Compat.WriteGuard | compat/compat.go:178-182 | buildpack.yml is written exactly when the probe found none and the write succeeded, so an existing one is never replaced |
| Compat.Contribute | compat/compat.go:36-62 | a run writes at most two files: first the ini file, then buildpack.yml. A run without error writes both |
| Compat.ContributeFailures | compat/compat.go:37-59 | a load failure or an ini-write failure ends the run with that error and nothing written; a failed buildpack.yml probe or write ends it with that error after the ini file was written |
| Compat.ContributeSucceeds | compat/compat.go:36-62 | a run succeeds exactly when loading, the ini write, the buildpack.yml probe and the buildpack.yml write all succeed; it then writes the formatted ini text and then a buildpack.yml whose Composer path is COMPOSER_PATH (or empty) and which round-trips to the migrated options without extension lists |
| Compat.ContributeNeverOverwrites | compat/compat.go:51-59 | when buildpack.yml exists the run fails and never writes it; if loading and the ini write succeeded, the ini has been written and the error is the "you cannot have both" refusal |
| Compat.ContributeWithoutOptionsJson | compat/compat.go:37-61 | with no options.json, a successful run writes an empty ini and a buildpack.yml that is empty apart from the Composer path |
| Config.ToYaml | compat/compat.go:80-109 | the buildpack.yml document has exactly the ten keys of the records' YAML tags and no key for either extension list |
| Config.YamlRoundTrip | compat/compat.go:80-109 | reading the written document back gives the options with the extension lists emptied and every other field intact |
| Config.YamlIgnoresOnlyExtensions | compat/compat.go:94-95 | two sets of options give the same document exactly when they agree on everything except the extension lists |
| Detect.RunDetect | cmd/detect/main.go:28-50 | an error probing `.extensions` fails with that error; an existing `.extensions` fails without error; otherwise an error probing `.bp-config` fails with that error; otherwise detection passes without error exactly when COMPOSER_PATH is set or `.bp-config` exists |
| Detect.RunDetectFollowsRule | cmd/detect/main.go:34-49 | when both probes succeed, detection passes exactly when there is no `.extensions` and either COMPOSER_PATH is set or `.bp-config` exists |
| Detect.NeverPassesWithExtensions | cmd/detect/main.go:34-37 | an existing `.extensions` fails detection without error, whatever COMPOSER_PATH and `.bp-config` are |
| Detect.PassIsClean | cmd/detect/main.go:28-50 | a pass carries no error and needs both probes to have succeeded with `.extensions` absent |
| Detect.ComposerPathValueIrrelevant | cmd/detect/main.go:39 | only whether COMPOSER_PATH is set matters, not its value |
| Detect.NothingLegacyFails | cmd/detect/main.go:45-46 | with no `.extensions`, no COMPOSER_PATH and no `.bp-config`, detection fails without error |

## Left out

- File I/O: `helper.FileExists`, `os.Open`, `ioutil.ReadAll`, the file creation done by `helper.WriteFile`, `ioutil.WriteFile` and the 0655 file mode. Probes and write outcomes are inputs, and a failed write is modelled as writing nothing. The formatting `helper.WriteFile` applies to its content is modelled. Its signature (path, mode, format, operands) is the one compat/compat_test.go:489 calls; its source is not part of this model.
- `Format.Sprintf` follows the directive scanner of Go's `fmt` package with no operands, character by character. Go scans UTF-8 bytes, so invalid UTF-8, which a Dafny string cannot hold, is not covered.
- JSON decoding of `options.json` (four `json.Unmarshal` calls) is one abstract `Result<Options>` input. Key matching, type errors and the field order of decoding are not modelled.
- The error return of `yaml.Marshal` (compat/compat.go:184-187) is not modelled. The records hold only strings, so marshalling them cannot fail.
- YAML encoding: the document is modelled as a map from section and key to value, not as bytes or key order. The HTTPD tag at compat/compat.go:99 lacks quotes, so the key comes from the YAML library's fallback, the lower-cased field name; that is `version`, as modelled.
- `strings.ToLower` is modelled on ASCII letters only. No non-ASCII character lower-cases to one of the letters of `latest`, so the "latest" test is unaffected.
- Logging (`BodyWarning`, `BodyError`) prints messages only and changes no result.
- The buildpack lifecycle: `NewContributor` and its build-plan lookup, `detect.DefaultDetect`, `main` with `os.Exit` and its status codes, and the plan writing behind `context.Pass()`. Pass and Fail are abstract verdicts, and any error the lifecycle's own pass could report is not modelled.
- The COMPOSER_PATH lookup in detect is a pure read here. In the code it happens before the `.bp-config` probe, an ordering with no observable effect.
- The integration tests (`integration/`) build containers and make network calls; they are not modelled.
