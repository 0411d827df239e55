/**
 * The wiki-repository settings of the Gitea accessor
 * (accessor/gitea/defaultAccessor.go:145-185, inside CreateDefaultAccessor):
 * the directory the wiki is cloned into and the URL it is cloned from,
 * with the user name and token written into the URL when a token is given.
 */
module WikiRepo {
  import opened Wrappers
  import opened Text

  type Error = String

  /** Why the settings could not be derived. */
  datatype SetupFailure =
    | CwdError(err: Error)              // os.Getwd failed
    | DirExists(dir: String)            // the clone directory is already there
    | MalformedRootURL(rootURL: String) // a token, but no `//` in ROOT_URL to put it after
    | EmptyRootURLPanic                 // the last-character slice of an empty ROOT_URL panics

  /** The wiki-repository fields the accessor ends up with. */
  datatype WikiRepoConfig = WikiRepoConfig(url: String, token: String, dir: String)

  /** strings.Index from `from` on: the first position at or after `from` where `w` starts. */
  function SubstringIndexFrom(s: String, w: String, from: nat): (r: Option<nat>)
    decreases |s| - from
    ensures r.Some? ==> from <= r.value && StartsAt(s, r.value, w)
    ensures r.Some? ==> forall q | from <= q < r.value :: !StartsAt(s, q, w)
    ensures r.None? ==> forall q | from <= q <= |s| :: !StartsAt(s, q, w)
  {
    if from + |w| > |s| then None
    else if s[from..from + |w|] == w then Some(from)
    else SubstringIndexFrom(s, w, from + 1)
  }

  /** strings.Index. */
  function Index(s: String, w: String): Option<nat> { SubstringIndexFrom(s, w, 0) }

  /** The root URL with `<user>:<token>@` put straight after its first `//`; None when it has no `//`. */
  function WithCredentials(rootURL: String, userName: String, token: String): Option<String> {
    match Index(rootURL, "//")
    case None => None
    case Some(p) => Some(rootURL[..p + 2] + userName + ":" + token + "@" + rootURL[p + 2..])
  }

  /** The URL with a `/` added unless it already ends in one. */
  function WithTrailingSlash(u: String): String
    requires u != []
  {
    if u[|u| - 1..] != "/" then u + "/" else u
  }

  /** filepath.Join of a directory and a single plain name. */
  function JoinPath(dir: String, name: String): String {
    if dir == [] then name
    else if dir[|dir| - 1] == '/' then dir + name
    else dir + "/" + name
  }

  /** The name of a repository's wiki repository. */
  function WikiRepoName(repoName: String): String { repoName + ".wiki" }

  /** The directory the wiki is cloned into: the one given, or `<cwd>/<repo>.wiki`. */
  function WikiRepoDir(repoName: String, givenDir: String, cwd: Result<String, Error>): Result<String, SetupFailure> {
    if givenDir != "" then Ok(givenDir)
    else match cwd
      case Err(e) => Err(CwdError(e))
      case Ok(c) => Ok(JoinPath(c, WikiRepoName(repoName)))
  }

  /** The URL and stored token when no URL was given: derived from ROOT_URL. */
  function DerivedURL(rootURL: String, userName: String, repoName: String, token: String): Result<(String, String), SetupFailure> {
    var root := if token != "" then WithCredentials(rootURL, userName, token) else Some(rootURL);
    if root.None? then Err(MalformedRootURL(rootURL))
    else if root.value == "" then Err(EmptyRootURLPanic)
    else Ok((WithTrailingSlash(root.value) + userName + "/" + WikiRepoName(repoName) + ".git", token))
  }

  /**
   * The wiki settings of CreateDefaultAccessor: the directory first (an
   * existing one is an error), then the URL, which a given URL fixes
   * outright; the token is kept only when the URL was derived.
   */
  function WikiRepoSettings(userName: String, repoName: String, givenURL: String, token: String, givenDir: String,
                            cwd: Result<String, Error>, dirMissing: String -> bool, rootURL: String): Result<WikiRepoConfig, SetupFailure> {
    match WikiRepoDir(repoName, givenDir, cwd)
    case Err(f) => Err(f)
    case Ok(dir) =>
      if !dirMissing(dir) then Err(DirExists(dir))
      else if givenURL != "" then Ok(WikiRepoConfig(givenURL, "", dir))
      else match DerivedURL(rootURL, userName, repoName, token)
        case Err(f) => Err(f)
        case Ok(ut) => Ok(WikiRepoConfig(ut.0, ut.1, dir))
  }

  /** A URL given explicitly is used unchanged, and no token is kept. */
  lemma GivenURLKept(userName: String, repoName: String, givenURL: String, token: String, givenDir: String,
                     cwd: Result<String, Error>, dirMissing: String -> bool, rootURL: String)
    requires givenURL != ""
    ensures var r := WikiRepoSettings(userName, repoName, givenURL, token, givenDir, cwd, dirMissing, rootURL);
      r.Ok? ==> r.value.url == givenURL && r.value.token == ""
    ensures var r := WikiRepoSettings(userName, repoName, givenURL, token, givenDir, cwd, dirMissing, rootURL);
      r.Err? ==> r.error.CwdError? || r.error.DirExists?
  {
  }

  /**
   * The directory: the given one, or `<cwd>/<repo>.wiki`; the settings fail
   * exactly when it cannot be found or already exists, before any URL work.
   */
  lemma DirectoryDecided(userName: String, repoName: String, givenURL: String, token: String, givenDir: String,
                         cwd: Result<String, Error>, dirMissing: String -> bool, rootURL: String)
    ensures var r := WikiRepoSettings(userName, repoName, givenURL, token, givenDir, cwd, dirMissing, rootURL);
      var dir := if givenDir != "" then givenDir else if cwd.Ok? then JoinPath(cwd.value, repoName + ".wiki") else "";
      (givenDir == "" && cwd.Err? ==> r == Err(CwdError(cwd.error))) &&
      (givenDir != "" || cwd.Ok? ==>
        (!dirMissing(dir) ==> r == Err(DirExists(dir))) &&
        (r.Ok? ==> r.value.dir == dir))
  {
  }

  /** The credentials go immediately after the first `//`, and removing them gives the root URL back. */
  lemma CredentialsAfterSlashes(rootURL: String, userName: String, token: String)
    requires Index(rootURL, "//").Some?
    ensures var p := Index(rootURL, "//").value;
      var r := WithCredentials(rootURL, userName, token);
      var cred := userName + ":" + token + "@";
      r.Some? &&
      p + 2 <= |rootURL| && rootURL[p..p + 2] == "//" && (forall q | 0 <= q < p :: !StartsAt(rootURL, q, "//")) &&
      r.value == rootURL[..p + 2] + cred + rootURL[p + 2..] &&
      r.value[..p + 2] + r.value[p + 2 + |cred|..] == rootURL
  {
    var p := Index(rootURL, "//").value;
    var cred := userName + ":" + token + "@";
    var r := WithCredentials(rootURL, userName, token).value;
    assert r == rootURL[..p + 2] + cred + rootURL[p + 2..];
    assert r[..p + 2] == rootURL[..p + 2];
    assert r[p + 2 + |cred|..] == rootURL[p + 2..];
  }

  /** A token with a ROOT_URL lacking `//` is an error (once the directory is settled). */
  lemma TokenNeedsSlashes(userName: String, repoName: String, token: String, rootURL: String)
    requires token != "" && !Occurs(rootURL, "//")
    ensures DerivedURL(rootURL, userName, repoName, token) == Err(MalformedRootURL(rootURL))
  {
  }

  /** After WithTrailingSlash the URL ends in exactly the `/` it needs: a second application changes nothing. */
  lemma TrailingSlashIdempotent(u: String)
    requires u != []
    ensures var v := WithTrailingSlash(u);
      v[|v| - 1] == '/' && WithTrailingSlash(v) == v &&
      (u[|u| - 1] == '/' ==> v == u) && (u[|u| - 1] != '/' ==> v == u + "/")
  {
    var v := WithTrailingSlash(u);
    assert u[|u| - 1..] == [u[|u| - 1]];
    assert v[|v| - 1..] == [v[|v| - 1]];
  }

  /**
   * A derived URL is the root URL (with credentials when there is a token)
   * ending in `/`, then `<user>/<repo>.wiki.git`.
   */
  lemma DerivedURLShape(rootURL: String, userName: String, repoName: String, token: String)
    ensures var r := DerivedURL(rootURL, userName, repoName, token);
      var root := if token != "" then WithCredentials(rootURL, userName, token) else Some(rootURL);
      r.Ok? ==>
        root.Some? && root.value != "" && r.value.1 == token &&
        var base := WithTrailingSlash(root.value);
        base[|base| - 1] == '/' && HasPrefix(base, root.value) &&
        r.value.0 == base + (userName + "/" + repoName + ".wiki.git")
  {
    var r := DerivedURL(rootURL, userName, repoName, token);
    var root := if token != "" then WithCredentials(rootURL, userName, token) else Some(rootURL);
    if r.Ok? {
      TrailingSlashIdempotent(root.value);
      var base := WithTrailingSlash(root.value);
      assert base[..|root.value|] == root.value;
      assert r.value.0 == base + (userName + "/" + repoName + ".wiki.git");
    }
  }

  /** The accessor fields CreateDefaultAccessor fills in for the wiki. */
  class WikiRepoFields {
    var wikiRepoURL: String
    var wikiRepoToken: String
    var wikiRepoDir: String

    constructor()
      ensures wikiRepoURL == "" && wikiRepoToken == "" && wikiRepoDir == ""
    {
      wikiRepoURL, wikiRepoToken, wikiRepoDir := "", "", "";
    }

    /**
     * Lines 145-185 of CreateDefaultAccessor. `cwd` is what os.Getwd reports,
     * `dirMissing` whether os.Stat reports a path as not existing, and
     * `rootURL` the server's configured ROOT_URL.
     */
    method SetUpWikiRepo(userName: String, repoName: String, givenURL: String, token: String, givenDir: String,
                         cwd: Result<String, Error>, dirMissing: String -> bool, rootURL: String)
      returns (failure: Option<SetupFailure>)
      requires wikiRepoURL == "" && wikiRepoToken == "" && wikiRepoDir == ""
      modifies this
      ensures var r := WikiRepoSettings(userName, repoName, givenURL, token, givenDir, cwd, dirMissing, rootURL);
        match r
        case Ok(cfg) => failure.None? && wikiRepoURL == cfg.url && wikiRepoToken == cfg.token && wikiRepoDir == cfg.dir
        case Err(f) => failure == Some(f)
    {
      var wikiRepoName := repoName + ".wiki";
      var dir := givenDir;
      if dir == "" {
        if cwd.Err? {
          return Some(CwdError(cwd.error));
        }
        dir := JoinPath(cwd.value, wikiRepoName);
      }
      assert WikiRepoDir(repoName, givenDir, cwd) == Ok(dir);
      if !dirMissing(dir) {
        return Some(DirExists(dir));
      }
      wikiRepoDir := dir;

      var url := givenURL;
      if url == "" {
        var root := rootURL;
        if token != "" {
          var slashSlashPos := Index(root, "//");
          if slashSlashPos.None? {
            return Some(MalformedRootURL(root));
          }
          root := root[..slashSlashPos.value + 2] + userName + ":" + token + "@" + root[slashSlashPos.value + 2..];
          wikiRepoToken := token;
        }
        assert root == (if token != "" then WithCredentials(rootURL, userName, token) else Some(rootURL)).value;
        if root == "" {
          return Some(EmptyRootURLPanic);
        }
        if root[|root| - 1..] != "/" {
          root := root + "/";
        }
        url := root + userName + "/" + wikiRepoName + ".git";
        assert DerivedURL(rootURL, userName, repoName, token) == Ok((url, token));
      }
      wikiRepoURL := url;
      return None;
    }
  }
}
