/**
 * `detectPackageManager`: which package manager launched the scaffolder,
 * read from the `npm_config_user_agent` environment variable that npm,
 * pnpm, yarn and bun set for the scripts they run.
 */
module PackageManager {
  import opened Wrappers
  import opened JsString

  datatype Manager = Npm | Pnpm | Yarn | Bun {
    /** The executable name, as used in `<pm> install` and `<pm> dev`. */
    function Name(): (s: string)
      ensures s in {"npm", "pnpm", "yarn", "bun"}
    {
      match this
      case Npm => "npm"
      case Pnpm => "pnpm"
      case Yarn => "yarn"
      case Bun => "bun"
    }
  }

  /** `process.env.npm_config_user_agent || ''`: unset reads as "". */
  function UserAgent(env: Option<string>): (ua: string)
    ensures ua == "" <==> env == None || env == Some("")
    ensures ua != "" ==> env == Some(ua)
  {
    if env.Some? then env.value else ""
  }

  /**
   * Prefix tests in the order pnpm, yarn, bun; anything else, an unset
   * variable included, is npm.
   */
  function Detect(env: Option<string>): (m: Manager)
    ensures m == Pnpm <==> StartsWith(UserAgent(env), "pnpm")
    ensures m == Yarn <==> StartsWith(UserAgent(env), "yarn")
    ensures m == Bun <==> StartsWith(UserAgent(env), "bun")
    ensures m == Npm <==>
              && !StartsWith(UserAgent(env), "pnpm")
              && !StartsWith(UserAgent(env), "yarn")
              && !StartsWith(UserAgent(env), "bun")
  {
    var ua := UserAgent(env);
    // The three prefixes begin with different letters, so at most one matches.
    FirstLetterDecides(ua, "pnpm");
    FirstLetterDecides(ua, "yarn");
    FirstLetterDecides(ua, "bun");
    if StartsWith(ua, "pnpm") then Pnpm
    else if StartsWith(ua, "yarn") then Yarn
    else if StartsWith(ua, "bun") then Bun
    else Npm
  }

  lemma FirstLetterDecides(s: string, prefix: string)
    requires prefix != ""
    ensures StartsWith(s, prefix) ==> s[0] == prefix[0]
  {
    if StartsWith(s, prefix) {
      assert s[..|prefix|][0] == s[0];
    }
  }

  /** A manager other than the npm fallback is one whose name starts the user agent. */
  lemma DetectedNameStartsUserAgent(env: Option<string>)
    ensures Detect(env) != Npm ==> StartsWith(UserAgent(env), Detect(env).Name())
    ensures Detect(env) == Npm ==> forall m: Manager :: m != Npm ==> !StartsWith(UserAgent(env), m.Name())
  {
  }

  /** An unset variable and an empty one both select npm. */
  lemma AbsentMeansNpm()
    ensures Detect(None) == Npm && Detect(Some("")) == Npm
  {
  }
}
