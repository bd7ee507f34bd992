/**
 * The fixed tables and the per-item rules of the policy search engine
 * (src/engines/policy/index.ts): the government-site classifier, the
 * additive relevance score, and the two query rewriters.
 */
module PolicyRules {
  import opened Wrappers
  import opened Strings
  import opened Seqs
  import opened Types

  /** The government-domain whitelist. */
  const GovernmentDomains: seq<string> :=
    ["gov.cn", "jiangxi.gov.cn", "www.gov.cn", "miit.gov.cn",
     "ndrc.gov.cn", "mof.gov.cn", "most.gov.cn", "mct.gov.cn"]

  /** The closed set of policy keywords. */
  const PolicyKeywords: seq<string> :=
    ["政策", "通知", "公告", "办法", "规定", "意见",
     "方案", "计划", "条例", "指导", "措施", "文件"]

  /** Substrings of a result's source that make the classifier call it a government site. */
  const GovernmentMarkers: seq<string> := ["政府", "gov", "人民政府"]

  /** Substrings of a result's source that earn the institution bonus. */
  const InstitutionMarkers: seq<string> := ["政府", "gov", "人民政府", "发改委", "工信部", "科技部"]

  /** The qualifier appended to a keyword that names no policy term. */
  const PolicyQualifier: string := " 政策"

  /** `patterns.some(p => s.includes(p))` */
  predicate ContainsAny(s: string, patterns: seq<string>)
    decreases |patterns|
  {
    |patterns| > 0 && (Contains(s, patterns[0]) || ContainsAny(s, patterns[1..]))
  }

  /** `patterns.filter(p => s.includes(p)).length` */
  function CountContained(s: string, patterns: seq<string>): nat
    decreases |patterns|
  {
    if patterns == [] then 0
    else (if Contains(s, patterns[0]) then 1 else 0) + CountContained(s, patterns[1..])
  }

  lemma {:induction false} CountPositiveIffAny(s: string, patterns: seq<string>)
    ensures CountContained(s, patterns) > 0 <==> ContainsAny(s, patterns)
    decreases |patterns|
  {
    if patterns != [] {
      CountPositiveIffAny(s, patterns[1..]);
    }
  }

  lemma {:induction false} CountContainedAppend(s: string, a: seq<string>, b: seq<string>)
    ensures CountContained(s, a + b) == CountContained(s, a) + CountContained(s, b)
    decreases |a|
  {
    if a != [] {
      assert (a + b)[0] == a[0];
      assert (a + b)[1..] == a[1..] + b;
      CountContainedAppend(s, a[1..], b);
    } else {
      assert a + b == b;
    }
  }

  /** No pattern's first character occurs in `s`. */
  predicate InitialsAbsent(s: string, patterns: seq<string>)
    decreases |patterns|
  {
    patterns == [] || (|patterns[0]| > 0 && patterns[0][0] !in s && InitialsAbsent(s, patterns[1..]))
  }

  lemma {:induction false} InitialsAbsentIntro(s: string, patterns: seq<string>)
    requires forall k :: 0 <= k < |patterns| ==> |patterns[k]| > 0 && patterns[k][0] !in s
    ensures InitialsAbsent(s, patterns)
    decreases |patterns|
  {
    if patterns != [] {
      InitialsAbsentIntro(s, patterns[1..]);
    }
  }

  /** A text lacking the first character of every pattern contains none of them. */
  lemma {:induction false} NoneContained(s: string, patterns: seq<string>)
    requires InitialsAbsent(s, patterns)
    ensures CountContained(s, patterns) == 0 && !ContainsAny(s, patterns)
    decreases |patterns|
  {
    if patterns != [] {
      ContainsNeedsFirstChar(s, patterns[0]);
      NoneContained(s, patterns[1..]);
    }
  }

  /** A text containing every pattern contains as many as there are. */
  lemma {:induction false} AllContained(s: string, patterns: seq<string>)
    requires forall k :: 0 <= k < |patterns| ==> Contains(s, patterns[k])
    ensures CountContained(s, patterns) == |patterns|
    decreases |patterns|
  {
    if patterns != [] {
      AllContained(s, patterns[1..]);
    }
  }

  /** JavaScript truthiness of an optional string: present and non-empty. */
  predicate Given(o: Option<string>) {
    o.Some? && o.value != ""
  }

  /** `isPolicyRelated`: the text names at least one policy keyword. */
  predicate IsPolicyRelated(text: string) {
    ContainsAny(text, PolicyKeywords)
  }

  /**
   * `isGovernmentSite`. The description and source checks sit inside the
   * same `try` as `new URL(url)`, so a URL that does not parse is never a
   * government site, whatever the description and source say.
   */
  predicate IsGovernmentSite(parse: UrlParser, url: string, description: string, source: string) {
    match parse(url)
    case None => false
    case Some(u) =>
      || ContainsAny(Lower(u.hostname), GovernmentDomains)
      || (description != "" && ContainsAny(description, GovernmentDomains))
      || (source != "" && ContainsAny(source, GovernmentMarkers))
  }

  lemma WhitelistEntryMentionsGovCn(k: int)
    requires 0 <= k < |GovernmentDomains|
    ensures Contains(GovernmentDomains[k], "gov.cn")
  {
    var d := GovernmentDomains[k];
    assert d[|d| - 6..] == "gov.cn";
    assert OccursAt(d, "gov.cn", |d| - 6);
  }

  lemma {:induction false} MentionsDomainSuffix(s: string, domains: seq<string>)
    requires forall k :: 0 <= k < |domains| ==> Contains(domains[k], "gov.cn")
    ensures ContainsAny(s, domains) ==> Contains(s, "gov.cn")
    decreases |domains|
  {
    if domains != [] {
      if Contains(s, domains[0]) {
        ContainsTransitive(s, domains[0], "gov.cn");
      }
      MentionsDomainSuffix(s, domains[1..]);
    }
  }

  /** Every whitelist entry ends in "gov.cn", so the whitelist test is a test for "gov.cn". */
  lemma MentionsGovernmentDomainIff(s: string)
    ensures ContainsAny(s, GovernmentDomains) <==> Contains(s, "gov.cn")
  {
    forall k | 0 <= k < |GovernmentDomains| ensures Contains(GovernmentDomains[k], "gov.cn") {
      WhitelistEntryMentionsGovCn(k);
    }
    MentionsDomainSuffix(s, GovernmentDomains);
  }

  /** "人民政府" contains "政府", so two markers decide the source test. */
  lemma GovernmentMarkerIff(s: string)
    ensures ContainsAny(s, GovernmentMarkers) <==> Contains(s, "政府") || Contains(s, "gov")
  {
    if Contains(s, "人民政府") {
      assert "人民政府"[2..] == "政府";
      assert OccursAt("人民政府", "政府", 2);
      ContainsTransitive(s, "人民政府", "政府");
    }
  }

  /**
   * The classifier, stated without its tables: the URL parses, and the
   * lower-cased host or the description names "gov.cn", or the source
   * names "政府" or "gov".
   */
  lemma GovernmentSiteIff(parse: UrlParser, url: string, description: string, source: string)
    ensures IsGovernmentSite(parse, url, description, source) <==>
      && parse(url).Some?
      && (|| Contains(Lower(parse(url).value.hostname), "gov.cn")
          || (description != "" && Contains(description, "gov.cn"))
          || (source != "" && (Contains(source, "政府") || Contains(source, "gov"))))
  {
    if parse(url).Some? {
      MentionsGovernmentDomainIff(Lower(parse(url).value.hostname));
      MentionsGovernmentDomainIff(description);
      GovernmentMarkerIff(source);
    }
  }

  // ---------------------------------------------------------------------
  // calculatePolicyScore

  function GovernmentPoints(parse: UrlParser, r: SearchResult): nat {
    if IsGovernmentSite(parse, r.url, r.description, r.source) then 50 else 0
  }

  /** The number of distinct policy keywords the title names. */
  function TitleKeywordCount(title: string): nat {
    CountContained(title, PolicyKeywords)
  }

  function TitlePoints(title: string): nat {
    Min(TitleKeywordCount(title) * 10, 30)
  }

  function DescriptionPoints(description: string): nat {
    if description != "" && IsPolicyRelated(description) then 10 else 0
  }

  function SourcePoints(source: string): nat {
    if source != "" && ContainsAny(source, InstitutionMarkers) then 10 else 0
  }

  /** The relevance score: the sum of the four buckets, at most 50 + 30 + 10 + 10. */
  function PolicyScore(parse: UrlParser, r: SearchResult): (score: nat)
    ensures score <= 100
  {
    GovernmentPoints(parse, r) + TitlePoints(r.title)
      + DescriptionPoints(r.description) + SourcePoints(r.source)
  }

  /**
   * `calculatePolicyScore`, step by step as the source accumulates it. The
   * final clamp to 100 never changes the sum.
   */
  method CalculatePolicyScore(parse: UrlParser, r: SearchResult) returns (score: int)
    ensures score == PolicyScore(parse, r)
    ensures 0 <= score <= 100
  {
    score := 0;
    if IsGovernmentSite(parse, r.url, r.description, r.source) {
      score := score + 50;
    }
    var titleKeywordCount := TitleKeywordCount(r.title);
    score := score + Min(titleKeywordCount * 10, 30);
    if r.description != "" && IsPolicyRelated(r.description) {
      score := score + 10;
    }
    if r.source != "" && ContainsAny(r.source, InstitutionMarkers) {
      score := score + 10;
    }
    assert score == PolicyScore(parse, r);
    score := Min(score, 100);
  }

  /**
   * A government site scores at least 50, and exactly 50 when nothing else
   * about it is policy-flavoured.
   */
  lemma GovernmentSiteScore(parse: UrlParser, r: SearchResult)
    requires IsGovernmentSite(parse, r.url, r.description, r.source)
    ensures PolicyScore(parse, r) >= 50
    ensures !IsPolicyRelated(r.title) && r.description == "" && r.source == "" ==>
      PolicyScore(parse, r) == 50
  {
    CountPositiveIffAny(r.title, PolicyKeywords);
  }

  /** Away from the other buckets the score is the title bucket, 10 per keyword up to 30. */
  lemma TitleOnlyScore(parse: UrlParser, r: SearchResult)
    requires !IsGovernmentSite(parse, r.url, r.description, r.source)
    requires !IsPolicyRelated(r.description) && !ContainsAny(r.source, InstitutionMarkers)
    ensures PolicyScore(parse, r) == Min(10 * TitleKeywordCount(r.title), 30)
  {
  }

  /** Titles naming 0, 1, 2, 3 and 4 policy keywords earn 0, 10, 20, 30 and 30. */
  lemma TitleWithoutKeywordScoresNothing(title: string)
    requires title == "产业链"
    ensures TitlePoints(title) == 0
  {
    HitsAndMisses(title, PolicyKeywords, 0);
  }

  lemma TitleWithOneKeywordScoresTen(title: string)
    requires title == "政策"
    ensures TitlePoints(title) == 10
  {
    assert OccursAt(title, PolicyKeywords[0], 0);
    HitsAndMisses(title, PolicyKeywords, 1);
  }

  lemma TitleWithTwoKeywordsScoresTwenty(title: string)
    requires title == "政策通知"
    ensures TitlePoints(title) == 20
  {
    assert OccursAt(title, PolicyKeywords[0], 0);
    assert OccursAt(title, PolicyKeywords[1], 2);
    HitsAndMisses(title, PolicyKeywords, 2);
  }

  lemma TitleWithThreeKeywordsScoresThirty(title: string)
    requires title == "政策通知公告"
    ensures TitlePoints(title) == 30
  {
    assert OccursAt(title, PolicyKeywords[0], 0);
    assert OccursAt(title, PolicyKeywords[1], 2);
    assert OccursAt(title, PolicyKeywords[2], 4);
    HitsAndMisses(title, PolicyKeywords, 3);
  }

  /** The fourth keyword adds nothing: the title bucket is full at three. */
  lemma TitleWithFourKeywordsScoresThirty(title: string)
    requires title == "政策通知公告办法"
    ensures TitlePoints(title) == 30
  {
    assert OccursAt(title, PolicyKeywords[0], 0);
    assert OccursAt(title, PolicyKeywords[1], 2);
    assert OccursAt(title, PolicyKeywords[2], 4);
    assert OccursAt(title, PolicyKeywords[3], 6);
    HitsAndMisses(title, PolicyKeywords, 4);
  }

  /**
   * Counting by hits and misses: when the first `n` patterns occur in `s`
   * and the first character of every later pattern does not, exactly `n`
   * patterns are contained.
   */
  lemma HitsAndMisses(s: string, patterns: seq<string>, n: nat)
    requires n <= |patterns|
    requires forall k :: 0 <= k < n ==> Contains(s, patterns[k])
    requires forall k :: n <= k < |patterns| ==> |patterns[k]| > 0 && patterns[k][0] !in s
    ensures CountContained(s, patterns) == n
    ensures ContainsAny(s, patterns) <==> n > 0
  {
    var hits, misses := patterns[..n], patterns[n..];
    assert patterns == hits + misses;
    InitialsAbsentIntro(s, misses);
    AllContained(s, hits);
    NoneContained(s, misses);
    CountContainedAppend(s, hits, misses);
    CountPositiveIffAny(s, patterns);
  }

  /** A result on www.miit.gov.cn with a plain title and nothing else scores 50. */
  lemma MiitResultScoresFifty(parse: UrlParser, r: SearchResult)
    requires parse(r.url) == Some(Url("www.miit.gov.cn", "/foo"))
    requires r.title == "产业链" && r.description == "" && r.source == ""
    ensures PolicyScore(parse, r) == 50
  {
    var host := Lower("www.miit.gov.cn");
    assert host == "www.miit.gov.cn";
    assert host[4..] == "miit.gov.cn";
    assert OccursAt(host, "miit.gov.cn", 4);
    assert IsGovernmentSite(parse, r.url, r.description, r.source);
    HitsAndMisses(r.title, PolicyKeywords, 0);
    GovernmentSiteScore(parse, r);
  }

  // ---------------------------------------------------------------------
  // buildPolicyQuery

  /**
   * The rewritten policy query: the region and a space in front when a
   * region is given, and the qualifier " 政策" behind when the keyword
   * names no policy term.
   */
  function PolicyQuery(keyword: string, region: Option<string>): string {
    var qualified := if IsPolicyRelated(keyword) then keyword else keyword + PolicyQualifier;
    if Given(region) then region.value + " " + qualified else qualified
  }

  /** `buildPolicyQuery`, reassigning its local `query` as the source does. */
  method BuildPolicyQuery(keyword: string, region: Option<string>) returns (query: string)
    ensures query == PolicyQuery(keyword, region)
  {
    query := keyword;
    if !IsPolicyRelated(keyword) {
      query := query + PolicyQualifier;
    }
    if Given(region) {
      query := region.value + " " + query;
    }
  }

  lemma {:induction false} ContainsAnyInContext(a: string, s: string, b: string, patterns: seq<string>)
    requires ContainsAny(s, patterns)
    ensures ContainsAny(a + s + b, patterns)
    decreases |patterns|
  {
    if Contains(s, patterns[0]) {
      ContainsInContext(a, s, b, patterns[0]);
    } else {
      ContainsAnyInContext(a, s, b, patterns[1..]);
    }
  }

  lemma QualifierIsPolicyRelated()
    ensures IsPolicyRelated(PolicyQualifier)
  {
    assert OccursAt(PolicyQualifier, PolicyKeywords[0], 1);
    ContainsAnyWitness(PolicyQualifier, PolicyKeywords, 0);
  }

  /** Whatever the keyword, the rewritten query names a policy keyword. */
  lemma PolicyQueryIsPolicyRelated(keyword: string, region: Option<string>)
    ensures IsPolicyRelated(PolicyQuery(keyword, region))
  {
    var qualified := if IsPolicyRelated(keyword) then keyword else keyword + PolicyQualifier;
    if !IsPolicyRelated(keyword) {
      QualifierIsPolicyRelated();
      ContainsAnyInContext(keyword, PolicyQualifier, "", PolicyKeywords);
      assert qualified == keyword + PolicyQualifier + "";
    }
    if Given(region) {
      ContainsAnyInContext(region.value + " ", qualified, "", PolicyKeywords);
      assert PolicyQuery(keyword, region) == region.value + " " + qualified + "";
    }
  }

  /** Without a region the keyword comes back unchanged exactly when it already names a policy term. */
  lemma PolicyQueryUnchangedIff(keyword: string)
    ensures PolicyQuery(keyword, None) == keyword <==> IsPolicyRelated(keyword)
  {
    if !IsPolicyRelated(keyword) {
      assert |PolicyQuery(keyword, None)| == |keyword| + 3;
    }
  }

  /** Rewriting an already rewritten query (without a region) changes nothing. */
  lemma PolicyQueryIdempotent(keyword: string)
    ensures PolicyQuery(PolicyQuery(keyword, None), None) == PolicyQuery(keyword, None)
  {
    PolicyQueryIsPolicyRelated(keyword, None);
    PolicyQueryUnchangedIff(PolicyQuery(keyword, None));
  }

  /** A keyword naming no policy term gets the qualifier. */
  lemma PolicyQueryQualifies(keyword: string)
    requires !IsPolicyRelated(keyword)
    ensures PolicyQuery(keyword, None) == keyword + PolicyQualifier
  {
  }

  lemma PolicyQueryKeepsPolicyKeyword(policy: string)
    requires policy == "政策"
    ensures PolicyQuery(policy, None) == "政策"
  {
    ContainsSelf(policy);
    ContainsAnyWitness(policy, PolicyKeywords, 0);
  }

  lemma PlainKeywordNamesNoPolicyTerm(chain: string)
    requires chain == "产业链"
    ensures !IsPolicyRelated(chain)
  {
    HitsAndMisses(chain, PolicyKeywords, 0);
  }

  lemma PolicyQueryQualifiesPlainKeyword(chain: string)
    requires chain == "产业链"
    ensures PolicyQuery(chain, None) == "产业链 政策"
  {
    PlainKeywordNamesNoPolicyTerm(chain);
    PolicyQueryQualifies(chain);
  }

  /** "计划" is a policy keyword, so the plan name gets the region but no qualifier. */
  lemma PolicyQueryRegionExample(plan: string, province: string)
    requires plan == "江西省1269行动计划" && province == "江西省"
    ensures PolicyQuery(plan, Some(province)) == "江西省 江西省1269行动计划"
  {
    assert plan[9..11] == "计划";
    assert OccursAt(plan, "计划", 9);
    ContainsAnyWitness(plan, PolicyKeywords, 7);
  }

  lemma {:induction false} ContainsAnyWitness(s: string, patterns: seq<string>, k: nat)
    requires k < |patterns| && Contains(s, patterns[k])
    ensures ContainsAny(s, patterns)
    decreases k
  {
    if k > 0 {
      ContainsAnyWitness(s, patterns[1..], k - 1);
    }
  }

  // ---------------------------------------------------------------------
  // the query built by searchPolicyAdvanced

  /** The keyword, then " site:<site>" if a site is given, then " filetype:<type>" if a type is given. */
  function AdvancedQuery(keyword: string, site: Option<string>, fileType: Option<string>): string {
    keyword
      + (if Given(site) then " site:" + site.value else "")
      + (if Given(fileType) then " filetype:" + fileType.value else "")
  }

  method BuildAdvancedQuery(keyword: string, site: Option<string>, fileType: Option<string>)
    returns (query: string)
    ensures query == AdvancedQuery(keyword, site, fileType)
  {
    query := keyword;
    if Given(site) {
      query := query + " site:" + site.value;
    }
    if Given(fileType) {
      query := query + " filetype:" + fileType.value;
    }
  }

  /** The keyword leads, the site token follows it, and the file-type token comes last. */
  lemma AdvancedQueryOrder(keyword: string, site: string, fileType: string)
    requires site != "" && fileType != ""
    ensures StartsWith(AdvancedQuery(keyword, Some(site), Some(fileType)), keyword)
    ensures OccursAt(AdvancedQuery(keyword, Some(site), Some(fileType)), " site:" + site, |keyword|)
    ensures OccursAt(AdvancedQuery(keyword, Some(site), Some(fileType)),
                     " filetype:" + fileType, |keyword| + 6 + |site|)
  {
    var q := AdvancedQuery(keyword, Some(site), Some(fileType));
    assert q == keyword + (" site:" + site) + (" filetype:" + fileType);
  }

  lemma AdvancedQueryExample(keyword: string, site: string, fileType: string)
    requires keyword == "人工智能" && site == "miit.gov.cn" && fileType == "pdf"
    ensures AdvancedQuery(keyword, Some(site), Some(fileType)) == "人工智能 site:miit.gov.cn filetype:pdf"
    ensures AdvancedQuery(keyword, None, Some("")) == "人工智能"
  {
  }
}
