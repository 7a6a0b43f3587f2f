/** The configuration records read from the legacy `.bp-config/options.json`
    and written back out as `buildpack.yml`, and the YAML form they take.
 */
module Config {
  import opened Outcomes

  datatype HttpdOptions = HttpdOptions(version: string)

  /** The PHP group. The two extension lists come from the JSON document but
      are never written to YAML: they are migrated to an ini file instead. */
  datatype PhpOptions = PhpOptions(
    webServer: string,
    version: string,
    adminEmail: string,
    appStartCommand: string,
    webDir: string,
    libDir: string,
    extensions: seq<string>,
    zendExtensions: seq<string>)

  datatype NginxOptions = NginxOptions(version: string)

  /** The Composer group. Whatever `path` the JSON document supplies (the
      untagged field matches a `Path` key in any case) is overwritten by the
      build step from the COMPOSER_PATH environment variable. */
  datatype ComposerOptions = ComposerOptions(version: string, path: string)

  datatype Options = Options(
    httpd: HttpdOptions,
    php: PhpOptions,
    nginx: NginxOptions,
    composer: ComposerOptions)

  /** The zero value of Options: every string empty, every list empty. */
  function EmptyOptions(): Options
  {
    Options(
      HttpdOptions(""),
      PhpOptions("", "", "", "", "", "", [], []),
      NginxOptions(""),
      ComposerOptions("", ""))
  }

  /** Options as they survive the YAML projection: the extension lists are
      cleared, everything else is kept. */
  function WithoutExtensions(o: Options): Options
  {
    o.(php := o.php.(extensions := [], zendExtensions := []))
  }

  /** Where a scalar sits in `buildpack.yml`: `section: { name: value }`. */
  datatype Key = Key(section: string, name: string)

  /** A `buildpack.yml` document as the scalars it holds, by key. */
  type Document = map<Key, string>

  /** The keys of `buildpack.yml`. Every one is written, empty or not; the
      extension lists have none. */
  const YamlKeys: set<Key> := {
    Key("httpd", "version"),
    Key("php", "webserver"),
    Key("php", "version"),
    Key("php", "serveradmin"),
    Key("php", "script"),
    Key("php", "webdirectory"),
    Key("php", "libdirectory"),
    Key("nginx", "version"),
    Key("composer", "version"),
    Key("composer", "json_path")
  }

  /** The value stored under `section.name`, or empty when it is absent. */
  function Get(doc: Document, section: string, name: string): string
  {
    var k := Key(section, name);
    if k in doc then doc[k] else ""
  }

  /** The YAML form of the options. */
  function ToYaml(o: Options): (doc: Document)
    ensures doc.Keys == YamlKeys
  {
    map[
      Key("httpd", "version") := o.httpd.version,
      Key("php", "webserver") := o.php.webServer,
      Key("php", "version") := o.php.version,
      Key("php", "serveradmin") := o.php.adminEmail,
      Key("php", "script") := o.php.appStartCommand,
      Key("php", "webdirectory") := o.php.webDir,
      Key("php", "libdirectory") := o.php.libDir,
      Key("nginx", "version") := o.nginx.version,
      Key("composer", "version") := o.composer.version,
      Key("composer", "json_path") := o.composer.path
    ]
  }

  /** Reads a document back into Options; a missing key leaves its field
      empty, and the extension lists, having no key, are always empty. */
  function FromYaml(doc: Document): Options
  {
    Options(
      HttpdOptions(Get(doc, "httpd", "version")),
      PhpOptions(
        Get(doc, "php", "webserver"),
        Get(doc, "php", "version"),
        Get(doc, "php", "serveradmin"),
        Get(doc, "php", "script"),
        Get(doc, "php", "webdirectory"),
        Get(doc, "php", "libdirectory"),
        [], []),
      NginxOptions(Get(doc, "nginx", "version")),
      ComposerOptions(
        Get(doc, "composer", "version"),
        Get(doc, "composer", "json_path")))
  }

  /** Reading the written document gives back every field except the
      extension lists, which come back empty. */
  lemma YamlRoundTrip(o: Options)
    ensures FromYaml(ToYaml(o)) == WithoutExtensions(o)
  {
  }

  /** Two option sets produce the same document exactly when they agree on
      everything but the extension lists. */
  lemma YamlIgnoresOnlyExtensions(a: Options, b: Options)
    ensures ToYaml(a) == ToYaml(b) <==> WithoutExtensions(a) == WithoutExtensions(b)
  {
    if ToYaml(a) == ToYaml(b) {
      YamlRoundTrip(a);
      YamlRoundTrip(b);
    }
  }
}
