/** The detect step: whether the compatibility shim takes part in the build.

    Its inputs are the existence probes of `.extensions` and `.bp-config`
    under the application root and the COMPOSER_PATH environment variable.
 */
module Detect {
  import opened Outcomes

  datatype Verdict = Pass | Fail

  /** The exit decision and the error reported beside it, if any. */
  datatype Detection = Detection(verdict: Verdict, error: Option<Error>)

  /** runDetect. `extensions` and `bpConfig` are the existence probes of
      `.extensions` and `.bp-config`; `composerPath` is COMPOSER_PATH. The
      `.bp-config` probe is consulted only once `.extensions` is known to be
      absent. */
  function RunDetect(extensions: Result<bool>, composerPath: Option<string>, bpConfig: Result<bool>): (r: Detection)
    ensures extensions.Failure? ==> r == Detection(Fail, Some(extensions.error))
    ensures extensions == Success(true) ==> r == Detection(Fail, None)
    ensures extensions == Success(false) && bpConfig.Failure? ==> r == Detection(Fail, Some(bpConfig.error))
    ensures extensions == Success(false) && bpConfig.Success? ==>
      && r.error == None
      && (r.verdict == Pass <==> composerPath.Some? || bpConfig.value)
  {
    match extensions
    case Failure(e) => Detection(Fail, Some(e))
    case Success(true) => Detection(Fail, None)
    case Success(false) =>
      var composerPathSet := composerPath.Some?;
      match bpConfig
      case Failure(e) => Detection(Fail, Some(e))
      case Success(bpConfigExists) =>
        if !composerPathSet && !bpConfigExists then Detection(Fail, None)
        else Detection(Pass, None)
  }

  /** The participation rule stated on its own: no legacy `.extensions`
      folder, and either COMPOSER_PATH set or a `.bp-config` folder. */
  predicate Participates(extensionsExists: bool, composerPathSet: bool, bpConfigExists: bool)
  {
    !extensionsExists && (composerPathSet || bpConfigExists)
  }

  /** When both probes succeed, detect passes exactly when the rule holds,
      and never reports an error. */
  lemma RunDetectFollowsRule(extensionsExists: bool, composerPath: Option<string>, bpConfigExists: bool)
    ensures var r := RunDetect(Success(extensionsExists), composerPath, Success(bpConfigExists));
      && r.error == None
      && (r.verdict == Pass <==> Participates(extensionsExists, composerPath.Some?, bpConfigExists))
  {
  }

  /** Detect never passes while `.extensions` exists, whatever else holds. */
  lemma NeverPassesWithExtensions(composerPath: Option<string>, bpConfig: Result<bool>)
    ensures RunDetect(Success(true), composerPath, bpConfig) == Detection(Fail, None)
  {
  }

  /** A pass never carries an error, and any error means failure. */
  lemma PassIsClean(extensions: Result<bool>, composerPath: Option<string>, bpConfig: Result<bool>)
    ensures RunDetect(extensions, composerPath, bpConfig).verdict == Pass ==>
      RunDetect(extensions, composerPath, bpConfig).error == None
    ensures RunDetect(extensions, composerPath, bpConfig).verdict == Pass ==>
      extensions == Success(false) && bpConfig.Success?
  {
  }

  /** Only whether COMPOSER_PATH is set matters, not its value. */
  lemma ComposerPathValueIrrelevant(extensions: Result<bool>, a: string, b: string, bpConfig: Result<bool>)
    ensures RunDetect(extensions, Some(a), bpConfig) == RunDetect(extensions, Some(b), bpConfig)
  {
  }

  /** With no `.extensions`, no COMPOSER_PATH and no `.bp-config`, detect
      fails cleanly; in particular a lone `buildpack.yml` (not an input to
      detect) does not make it pass. */
  lemma NothingLegacyFails()
    ensures RunDetect(Success(false), None, Success(false)) == Detection(Fail, None)
  {
  }
}
