/**
 * The input checks of the article-fetch tools and the tool-name override
 * (src/tools/setupTools.ts): which URLs count as an article of a supported
 * site, which count as a GitHub repository, and which configured tool names
 * are accepted.
 */
module ToolValidators {
  import opened Wrappers
  import opened Strings
  import opened Seqs
  import opened Types

  // ---------------------------------------------------------------------
  // validateArticleUrl

  /** The sites whose articles can be fetched. */
  datatype ArticleSite = LinuxDo | Csdn | Juejin

  /** The exact hostname an article of the site lives on. */
  function SiteHost(site: ArticleSite): string {
    match site
    case LinuxDo => "linux.do"
    case Csdn => "blog.csdn.net"
    case Juejin => "juejin.cn"
  }

  /** The text an article URL of the site must contain somewhere. */
  function SiteMarker(site: ArticleSite): string {
    match site
    case LinuxDo => ".json"
    case Csdn => "/article/details/"
    case Juejin => "/post/"
  }

  /**
   * `validateArticleUrl`: the URL parses, its hostname is exactly the site's
   * host, and the whole URL text contains the site's marker.
   */
  predicate ValidateArticleUrl(parse: UrlParser, url: string, site: ArticleSite) {
    match parse(url)
    case None => false
    case Some(u) => u.hostname == SiteHost(site) && Contains(url, SiteMarker(site))
  }

  /** A URL is an article of at most one site. */
  lemma ArticleSitesExclusive(parse: UrlParser, url: string, a: ArticleSite, b: ArticleSite)
    requires ValidateArticleUrl(parse, url, a) && ValidateArticleUrl(parse, url, b)
    ensures a == b
  {
    assert SiteHost(a) == SiteHost(b);
    assert SiteHost(a)[0] == SiteHost(b)[0];
  }

  /** A URL that does not parse is never an article URL. */
  lemma ArticleUrlNeedsParse(parse: UrlParser, url: string, site: ArticleSite)
    requires parse(url) == None
    ensures !ValidateArticleUrl(parse, url, site)
  {
  }

  lemma CsdnArticleExample(parse: UrlParser, url: string)
    requires url == "https://blog.csdn.net/u/article/details/1"
    requires parse(url) == Some(Url("blog.csdn.net", "/u/article/details/1"))
    ensures ValidateArticleUrl(parse, url, Csdn)
    ensures !ValidateArticleUrl(parse, url, Juejin)
  {
    assert url[23..40] == "/article/details/";
    assert OccursAt(url, "/article/details/", 23);
  }

  // ---------------------------------------------------------------------
  // validateGithubUrl

  const SshPrefix: string := "git@github.com:"

  /**
   * The rest of `^git@github\.com:[^\/]+\/[^\/]+` after the prefix: a
   * non-empty run without "/", a "/", and one more character that is not
   * "/". The pattern is not anchored at the end, so anything may follow.
   */
  predicate SshPathMatches(rest: string) {
    exists k :: 0 < k && k + 1 < |rest| && rest[k] == '/' && rest[k + 1] != '/' && NoSlashBefore(rest, k)
  }

  predicate NoSlashBefore(s: string, k: int) {
    forall j :: 0 <= j < k && j < |s| ==> s[j] != '/'
  }

  /** `part => part.length > 0` */
  predicate NonEmptyPart(part: string) {
    |part| > 0
  }

  /** `pathname.split('/').filter(part => part.length > 0)` */
  function PathSegments(path: string): seq<string> {
    Filter(Split(path, '/'), NonEmptyPart)
  }

  /** `validateGithubUrl` */
  predicate ValidateGithubUrl(parse: UrlParser, url: string) {
    if StartsWith(url, SshPrefix) then SshPathMatches(url[|SshPrefix|..])
    else
      match parse(url)
      case None => false
      case Some(u) =>
        (u.hostname == "github.com" || u.hostname == "www.github.com") && |PathSegments(u.pathname)| >= 2
  }

  /** Any owner and repository without "/" form an accepted SSH address, whatever follows them. */
  lemma SshAddressAccepted(parse: UrlParser, owner: string, repo: string, tail: string)
    requires |owner| > 0 && |repo| > 0
    requires forall i :: 0 <= i < |owner| ==> owner[i] != '/'
    requires repo[0] != '/'
    ensures ValidateGithubUrl(parse, SshPrefix + owner + "/" + repo + tail)
  {
    var url := SshPrefix + owner + "/" + repo + tail;
    assert url[..|SshPrefix|] == SshPrefix;
    var rest := url[|SshPrefix|..];
    assert rest == owner + "/" + repo + tail;
    var k := |owner|;
    assert rest[k] == '/' && rest[k + 1] == repo[0];
    forall j | 0 <= j < k ensures rest[j] != '/' {
      assert rest[j] == owner[j];
    }
  }

  /** An SSH address with an empty owner, or nothing after the owner's "/", is rejected. */
  lemma SshAddressRejected(parse: UrlParser, owner: string, tail: string)
    requires forall i :: 0 <= i < |owner| ==> owner[i] != '/'
    requires owner == [] || tail == [] || tail[0] == '/'
    ensures !ValidateGithubUrl(parse, SshPrefix + owner + "/" + tail)
  {
    var url := SshPrefix + owner + "/" + tail;
    assert url[..|SshPrefix|] == SshPrefix;
    var rest := url[|SshPrefix|..];
    assert rest == owner + "/" + tail;
    assert rest[|owner|] == '/';
    forall j | 0 <= j < |owner| ensures rest[j] == owner[j] {
    }
    if owner != [] && tail != [] {
      forall k | 0 < k && k + 1 < |rest| && rest[k] == '/' && NoSlashBefore(rest, k)
        ensures rest[k + 1] == '/'
      {
        assert k == |owner|;
        assert rest[k + 1] == tail[0];
      }
    }
  }

  /** Some character of `path` is not "/". */
  predicate HasNonSlash(path: string) {
    exists i :: 0 <= i < |path| && path[i] != '/'
  }

  /** Some "/" of `path` has a character other than "/" after it. */
  predicate NonSlashAfterSlash(path: string) {
    exists k, j :: 0 <= k < j < |path| && path[k] == '/' && path[j] != '/'
  }

  /** Two characters other than "/" with a "/" between them: the shape of "/owner/repo". */
  predicate TwoSegmentShape(path: string) {
    exists i, k, j :: 0 <= i < k < j < |path| && path[i] != '/' && path[k] == '/' && path[j] != '/'
  }

  /** The number of non-empty pieces. */
  function SegmentCount(pieces: seq<string>): nat {
    |Filter(pieces, NonEmptyPart)|
  }

  lemma SegmentCountCons(pieces: seq<string>)
    requires pieces != []
    ensures SegmentCount(pieces) == (if |pieces[0]| > 0 then 1 else 0) + SegmentCount(pieces[1..])
  {
  }

  /** Splitting a path that starts with "/" gives an empty first piece and then the pieces of the rest. */
  lemma SplitSlashHead(path: string)
    requires path != [] && path[0] == '/'
    ensures Split(path, '/') == [""] + Split(path[1..], '/')
  {
  }

  /** Splitting a path that starts with another character extends the rest's first piece by it. */
  lemma SplitCharHead(path: string)
    requires path != [] && path[0] != '/'
    ensures |Split(path, '/')[0]| > 0
    ensures Split(path, '/')[1..] == Split(path[1..], '/')[1..]
  {
  }

  lemma HasNonSlashSlashHead(path: string)
    requires path != [] && path[0] == '/'
    ensures HasNonSlash(path) <==> HasNonSlash(path[1..])
  {
    var t := path[1..];
    if HasNonSlash(path) {
      var i :| 0 <= i < |path| && path[i] != '/';
      assert t[i - 1] != '/';
    }
    if HasNonSlash(t) {
      var i :| 0 <= i < |t| && t[i] != '/';
      assert path[i + 1] != '/';
    }
  }

  lemma AfterSlashSlashHead(path: string)
    requires path != [] && path[0] == '/'
    ensures NonSlashAfterSlash(path) <==> HasNonSlash(path[1..])
  {
    var t := path[1..];
    if NonSlashAfterSlash(path) {
      var k, j :| 0 <= k < j < |path| && path[k] == '/' && path[j] != '/';
      assert t[j - 1] != '/';
    }
    if HasNonSlash(t) {
      var j :| 0 <= j < |t| && t[j] != '/';
      assert path[0] == '/' && path[j + 1] != '/';
    }
  }

  lemma AfterSlashCharHead(path: string)
    requires path != [] && path[0] != '/'
    ensures NonSlashAfterSlash(path) <==> NonSlashAfterSlash(path[1..])
  {
    var t := path[1..];
    if NonSlashAfterSlash(path) {
      var k, j :| 0 <= k < j < |path| && path[k] == '/' && path[j] != '/';
      assert t[k - 1] == '/' && t[j - 1] != '/';
    }
    if NonSlashAfterSlash(t) {
      var k, j :| 0 <= k < j < |t| && t[k] == '/' && t[j] != '/';
      assert path[k + 1] == '/' && path[j + 1] != '/';
    }
  }

  lemma TwoShapeSlashHead(path: string)
    requires path != [] && path[0] == '/'
    ensures TwoSegmentShape(path) <==> TwoSegmentShape(path[1..])
  {
    var t := path[1..];
    if TwoSegmentShape(path) {
      var i, k, j :| 0 <= i < k < j < |path| && path[i] != '/' && path[k] == '/' && path[j] != '/';
      assert t[i - 1] != '/' && t[k - 1] == '/' && t[j - 1] != '/';
    }
    if TwoSegmentShape(t) {
      var i, k, j :| 0 <= i < k < j < |t| && t[i] != '/' && t[k] == '/' && t[j] != '/';
      assert path[i + 1] != '/' && path[k + 1] == '/' && path[j + 1] != '/';
    }
  }

  lemma TwoShapeCharHead(path: string)
    requires path != [] && path[0] != '/'
    ensures TwoSegmentShape(path) <==> NonSlashAfterSlash(path[1..])
  {
    var t := path[1..];
    if TwoSegmentShape(path) {
      var i, k, j :| 0 <= i < k < j < |path| && path[i] != '/' && path[k] == '/' && path[j] != '/';
      assert t[k - 1] == '/' && t[j - 1] != '/';
    }
    if NonSlashAfterSlash(t) {
      var k, j :| 0 <= k < j < |t| && t[k] == '/' && t[j] != '/';
      assert path[0] != '/' && path[k + 1] == '/' && path[j + 1] != '/';
    }
  }

  /** A path has a non-empty segment exactly when it has a character other than "/". */
  lemma {:induction false} OneSegmentIff(path: string)
    ensures SegmentCount(Split(path, '/')) >= 1 <==> HasNonSlash(path)
    decreases |path|
  {
    if path != [] {
      SegmentCountCons(Split(path, '/'));
      if path[0] == '/' {
        OneSegmentIff(path[1..]);
        SplitSlashHead(path);
        HasNonSlashSlashHead(path);
      } else {
        SplitCharHead(path);
      }
    }
  }

  /** The pieces after the first hold a non-empty segment exactly when a "/" is followed by a non-"/" character. */
  lemma {:induction false} LaterSegmentIff(path: string)
    ensures SegmentCount(Split(path, '/')[1..]) >= 1 <==> NonSlashAfterSlash(path)
    decreases |path|
  {
    if path != [] {
      if path[0] == '/' {
        SplitSlashHead(path);
        OneSegmentIff(path[1..]);
        AfterSlashSlashHead(path);
      } else {
        SplitCharHead(path);
        LaterSegmentIff(path[1..]);
        AfterSlashCharHead(path);
      }
    }
  }

  /** A path has at least two non-empty segments exactly when it has the shape of "/owner/repo". */
  lemma {:induction false} TwoSegmentsIff(path: string)
    ensures SegmentCount(Split(path, '/')) >= 2 <==> TwoSegmentShape(path)
    decreases |path|
  {
    if path != [] {
      SegmentCountCons(Split(path, '/'));
      if path[0] == '/' {
        SplitSlashHead(path);
        TwoSegmentsIff(path[1..]);
        TwoShapeSlashHead(path);
      } else {
        SplitCharHead(path);
        LaterSegmentIff(path[1..]);
        TwoShapeCharHead(path);
      }
    }
  }

  /**
   * An address outside the SSH form is a GitHub repository exactly when it
   * parses, its host is github.com or www.github.com, and its path has the
   * shape of "/owner/repo".
   */
  lemma GithubHttpsIff(parse: UrlParser, url: string)
    requires !StartsWith(url, SshPrefix)
    ensures ValidateGithubUrl(parse, url) <==>
              parse(url).Some? && (parse(url).value.hostname == "github.com" || parse(url).value.hostname == "www.github.com")
              && TwoSegmentShape(parse(url).value.pathname)
  {
    if parse(url).Some? {
      TwoSegmentsIff(parse(url).value.pathname);
      assert |PathSegments(parse(url).value.pathname)| == SegmentCount(Split(parse(url).value.pathname, '/'));
    }
  }

  // ---------------------------------------------------------------------
  // getToolName

  predicate IsAsciiLetter(c: char) {
    'a' <= c <= 'z' || 'A' <= c <= 'Z'
  }

  /** `^[a-zA-Z][a-zA-Z0-9_-]*$` */
  predicate IsToolName(name: string) {
    |name| > 0 && IsAsciiLetter(name[0])
    && forall i :: 1 <= i < |name| ==>
         IsAsciiLetter(name[i]) || '0' <= name[i] <= '9' || name[i] == '_' || name[i] == '-'
  }

  /**
   * `getToolName`, with the environment variable's value passed in: the
   * configured name when it is set, non-empty and well formed, and the
   * default otherwise.
   */
  function GetToolName(configured: Option<string>, defaultName: string): (r: string)
    ensures r == defaultName || (configured.Some? && r == configured.value && IsToolName(r))
    ensures configured.Some? && IsToolName(configured.value) ==> r == configured.value
    ensures IsToolName(defaultName) ==> IsToolName(r)
  {
    if configured.Some? && configured.value != "" then
      if !IsToolName(configured.value) then defaultName else configured.value
    else defaultName
  }

  /**
   * The default names of the seven tools match the pattern, so with
   * `GetToolName` every registered tool name does.
   */
  lemma SearchToolNamesValid()
    ensures IsToolName("search")
    ensures IsToolName("searchPolicy")
    ensures IsToolName("searchPolicyAdvanced")
  {
  }

  lemma FetchToolNamesValid()
    ensures IsToolName("fetchLinuxDoArticle")
    ensures IsToolName("fetchCsdnArticle")
    ensures IsToolName("fetchGithubReadme")
    ensures IsToolName("fetchJuejinArticle")
  {
  }

  lemma GithubHttpsExample(parse: UrlParser, url: string)
    requires url == "https://github.com/owner/repo"
    requires parse(url) == Some(Url("github.com", "/owner/repo"))
    ensures ValidateGithubUrl(parse, url)
  {
    assert url[0] != SshPrefix[0];
    GithubHttpsIff(parse, url);
    var path := "/owner/repo";
    assert path[1] != '/' && path[6] == '/' && path[7] != '/';
  }

  lemma ToolNameExamples(configured: string)
    requires configured == "my-search_2"
    ensures GetToolName(Some(configured), "search") == "my-search_2"
    ensures GetToolName(Some("2search"), "search") == "search"
    ensures GetToolName(Some(""), "search") == "search"
    ensures GetToolName(None, "search") == "search"
  {
    assert !IsAsciiLetter('2');
  }
}
