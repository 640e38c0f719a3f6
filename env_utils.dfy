/** src/utils/env_utils.py: the `APP_PROFILE` environment variable is passed in as
    `appProfile` (`None` when it is unset); loading the `.env` file is not modelled. */
module EnvUtils {
  import opened Wrappers
  import opened Text

  const DefaultProfile := "local"

  /** `os.getenv('APP_PROFILE', 'local')`. */
  function Profile(appProfile: Option<string>): string {
    appProfile.GetOr(DefaultProfile)
  }

  /** `is_local_environment`: the profile, lower-cased, is "local". */
  function IsLocalEnvironment(appProfile: Option<string>): (r: bool)
    ensures appProfile.None? ==> r
    ensures r <==> Lower(Profile(appProfile)) == "local"
  {
    Lower(Profile(appProfile)) == "local"
  }

  /** `get_env_file_path`: ".env." followed by the profile exactly as it was given. */
  function GetEnvFilePath(appProfile: Option<string>): (r: string)
    ensures StartsWith(r, ".env.") && r[5..] == Profile(appProfile)
  {
    ".env." + Profile(appProfile)
  }

  lemma LowerConcat(a: string, b: string)
    ensures Lower(a + b) == Lower(a) + Lower(b)
  {
  }

  /** The environment is local exactly when the lower-cased file path is ".env.local":
      the path keeps the profile's case, the local test ignores it. */
  lemma LocalIffLowerPath(appProfile: Option<string>)
    ensures IsLocalEnvironment(appProfile) <==> Lower(GetEnvFilePath(appProfile)) == ".env.local"
  {
    var p := Profile(appProfile);
    LowerConcat(".env.", p);
    assert Lower(".env.") == ".env.";
    if Lower(GetEnvFilePath(appProfile)) == ".env.local" {
      assert Lower(p) == (".env." + Lower(p))[5..];
    }
  }

  /** "LOCAL" counts as local but names the file ".env.LOCAL"; an unset profile names ".env.local". */
  lemma ProfileExamples()
    ensures IsLocalEnvironment(Some("LOCAL")) && GetEnvFilePath(Some("LOCAL")) == ".env.LOCAL"
    ensures IsLocalEnvironment(None) && GetEnvFilePath(None) == ".env.local"
    ensures !IsLocalEnvironment(Some("prod"))
  {
    assert Lower("LOCAL") == "local";
    assert Lower("prod") == "prod";
  }
}
