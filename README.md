# Policy search and tool dispatch, modelled in Dafny

This project models two parts of an MCP web-search server.

The first is the policy-document search engine (`src/engines/policy/index.ts`):

- the government-domain whitelist and the policy keyword table;
- the classifiers `isGovernmentSite` and `isPolicyRelated`;
- the 0–100 relevance score `calculatePolicyScore`;
- the query rewrite `buildPolicyQuery`;
- the `searchPolicy` pipeline. It fans out to Baidu and Bing, scores the results, applies the minimum-score and government-only filters, drops later duplicates of a URL, sorts stably by descending score, truncates to the limit, and annotates each description and engine name;
- `searchPolicyAdvanced`, a single Bing call with `site:` and `filetype:` operators.

The second is the generic search tool and its helpers (`src/tools/setupTools.ts`):

- the split of a result limit over engines, `distributeLimit`;
- the dispatch `executeSearch`, which rejects an empty query, absorbs unknown engine names and failed calls, and cuts the results to the limit;
- the article-URL and GitHub-URL validators;
- the tool-name override `getToolName`;
- the transform that narrows the requested engines to the configured allow-list.

The search engines, the WHATWG URL parser and the environment are outside the core, so they are parameters:

- An engine is a function from a query and a count to an outcome, `Resolved(results)` or `Rejected`.
- The URL parser is a function from a string to an optional `(hostname, pathname)`. It gives `None` where `new URL` throws.
- An environment variable is an `Option<string>`.

Modules:

- `Wrappers`: `Option` and `Result`.
- `Types`: `SearchResult` from `src/types.ts`, the engine outcome, the parsed URL and the error kinds.
- `Strings`: substring search, ASCII lower-casing, JavaScript `trim`, one-character `split` and decimal rendering.
- `Seqs`: `filter`, `slice(0, n)`, a sum, `Math.min` and the subsequence order that `filter` keeps.
- `PolicyRules`: the tables, the classifiers, the score and the query builders.
- `PolicySearch`: the `searchPolicy` pipeline and `searchPolicyAdvanced`.
- `SearchDispatch`: `distributeLimit`, `executeSearch` and the allowed-engines transform.
- `ToolValidators`: the URL validators and tool names.

Code that updates variables step by step is written as methods proved against the specification functions:

- `CalculatePolicyScore` accumulates the score;
- `BuildPolicyQuery` and `BuildAdvancedQuery` extend the query string;
- `SearchPolicyAdvanced` awaits one engine call.

The pipeline stages, which the source writes as chained `map`/`filter`/`sort`/`slice` expressions, are functions. A lemma proves what each stage promises.

Properties worth noting:

- A government site is one whose URL parses and whose lower-cased host or description mentions "gov.cn", or whose source mentions "政府" or "gov". A URL that `new URL` rejects is never a government site, whatever its description and source say. Every whitelist entry ends in "gov.cn", and "人民政府" contains "政府", so the rule reduces to these tests.
- The raw score sum never exceeds 100, so the final clamp never changes it.
- The rewritten query always names a policy keyword. The rewrite without a region is idempotent.
- Deduplication runs before sorting. When two results share a URL, the earlier one survives even if a later duplicate scored higher.
- The score annotation can be parsed back into the original score and description.
- The SSH form of a GitHub address is matched by a pattern that is not anchored at its end. After `git@github.com:owner/` the validator needs only one more character that is not `/`, and anything may follow it: `git@github.com:o/r/extra` is accepted.
- The qualifier " 政策" is appended only to keywords that name no policy term. `"江西省1269行动计划"` already contains the keyword "计划", so with region `"江西省"` the query becomes `"江西省 江西省1269行动计划"`, without the qualifier (`PolicyRules.PolicyQueryRegionExample`).

## Model

| member | source | states |
|---|---|---|
| PolicyRules.WhitelistEntryMentionsGovCn | src/engines/policy/index.ts:10-19 | every entry of the government-domain whitelist contains "gov.cn" |
| PolicyRules.MentionsGovernmentDomainIff | src/engines/policy/index.ts:39 | a text mentions some whitelisted domain exactly when it mentions "gov.cn" |
| PolicyRules.GovernmentMarkerIff | src/engines/policy/index.ts:49 | the source test of the classifier holds exactly when the source names "政府" or "gov" |
| PolicyRules.GovernmentSiteIff | src/engines/policy/index.ts:33-57 | `isGovernmentSite` holds iff the URL parses and (the lower-cased host names "gov.cn", or a non-empty description names "gov.cn", or a non-empty source names "政府" or "gov"); an unparsable URL is never a government site |
| PolicyRules.CountPositiveIffAny | src/engines/policy/index.ts:62-64 | the number of keywords a text contains is positive iff `some` keyword is contained, so `isPolicyRelated` and the keyword count agree |
| PolicyRules.CountContainedAppend | src/engines/policy/index.ts:78-80 | the keyword count over a split table is the sum of the counts over its parts |
| PolicyRules.HitsAndMisses | src/engines/policy/index.ts:78-80 | when the first n keywords occur in a text and the initial character of every later keyword does not, the keyword count is exactly n, and the text is policy-related iff n > 0 |
| PolicyRules.PolicyScore | src/engines/policy/index.ts:69-101 | the score is the sum of the four buckets (50 for a government site, 10 per title keyword up to 30, 10 for a policy-related description, 10 for an institution source) and never exceeds 100 |
| PolicyRules.CalculatePolicyScore | src/engines/policy/index.ts:69-101 | the step-by-step accumulation, clamped to 100, returns exactly the bucket sum, between 0 and 100 |
| PolicyRules.GovernmentSiteScore | src/engines/policy/index.ts:72-75 | a government site scores at least 50, and exactly 50 when its title names no keyword and its description and source are empty |
| PolicyRules.TitleOnlyScore | src/engines/policy/index.ts:77-81 | outside the other buckets the score is min(10 × title keywords, 30) |
| PolicyRules.TitleWithoutKeywordScoresNothing | src/engines/policy/index.ts:78-81 | "产业链" earns no title points |
| PolicyRules.TitleWithOneKeywordScoresTen | src/engines/policy/index.ts:78-81 | "政策" earns 10 title points |
| PolicyRules.TitleWithTwoKeywordsScoresTwenty | src/engines/policy/index.ts:78-81 | "政策通知" earns 20 title points |
| PolicyRules.TitleWithThreeKeywordsScoresThirty | src/engines/policy/index.ts:78-81 | "政策通知公告" earns 30 title points |
| PolicyRules.TitleWithFourKeywordsScoresThirty | src/engines/policy/index.ts:78-81 | four title keywords are still capped at 30 points |
| PolicyRules.MiitResultScoresFifty | src/engines/policy/index.ts:69-101 | a result on www.miit.gov.cn with a keyword-free title and empty description and source scores exactly 50 |
| PolicyRules.BuildPolicyQuery | src/engines/policy/index.ts:106-120 | the step-by-step rewrite returns the query specified by `PolicyQuery`: the qualifier " 政策" is appended only when the keyword names no policy keyword, then a given region is prepended with a space |
| PolicyRules.QualifierIsPolicyRelated | src/engines/policy/index.ts:111 | the appended qualifier itself names a policy keyword |
| PolicyRules.PolicyQueryIsPolicyRelated | src/engines/policy/index.ts:106-120 | every rewritten query names a policy keyword, with or without a region |
| PolicyRules.PolicyQueryUnchangedIff | src/engines/policy/index.ts:109-112 | without a region the keyword comes back unchanged iff it is already policy-related |
| PolicyRules.PolicyQueryIdempotent | src/engines/policy/index.ts:106-120 | rewriting a rewritten query (no region) changes nothing |
| PolicyRules.PolicyQueryQualifies | src/engines/policy/index.ts:110-112 | a keyword without any policy keyword gets " 政策" appended |
| PolicyRules.PolicyQueryKeepsPolicyKeyword | src/engines/policy/index.ts:110-112 | "政策" is returned unchanged |
| PolicyRules.PlainKeywordNamesNoPolicyTerm | src/engines/policy/index.ts:62-64 | "产业链" is not policy-related |
| PolicyRules.PolicyQueryQualifiesPlainKeyword | src/engines/policy/index.ts:106-120 | "产业链" becomes "产业链 政策" |
| PolicyRules.PolicyQueryRegionExample | src/engines/policy/index.ts:106-120 | "江西省1269行动计划" with region "江西省" becomes "江西省 江西省1269行动计划", with no qualifier because "计划" is a keyword |
| PolicyRules.ContainsAnyInContext | src/engines/policy/index.ts:115-117 | prefixing or suffixing text keeps a contained keyword contained |
| PolicyRules.BuildAdvancedQuery | src/engines/policy/index.ts:232-243 | the step-by-step build returns the query specified by `AdvancedQuery`: the keyword, then " site:<site>" when the site is non-empty, then " filetype:<type>" when the type is non-empty |
| PolicyRules.AdvancedQueryOrder | src/engines/policy/index.ts:232-243 | with both options set, the query starts with the keyword, " site:<site>" follows it directly, and " filetype:<type>" follows that |
| PolicyRules.AdvancedQueryExample | src/engines/policy/index.ts:232-243 | "人工智能" with site "miit.gov.cn" and type "pdf" gives "人工智能 site:miit.gov.cn filetype:pdf"; an empty type adds nothing |
| PolicySearch.PerEngineLimit | src/engines/policy/index.ts:149 | each engine is asked for the ceiling of twice the limit over the engine count: the smallest count whose multiple covers twice the limit |
| PolicySearch.FanOutAppend | src/engines/policy/index.ts:154-174 | the flattened fan-out over a concatenated engine list is the concatenation of the fan-outs, in engine order |
| PolicySearch.FanOutSources | src/engines/policy/index.ts:154-174 | every fetched result comes from a resolved Baidu or Bing call |
| PolicySearch.FanOutAbsorbsRejection | src/engines/policy/index.ts:162-167 | a rejected Bing call contributes nothing: the fan-out equals the one over the list without "bing" |
| PolicySearch.FanOutOtherNames | src/engines/policy/index.ts:168-169 | names other than "baidu" and "bing" fetch nothing |
| PolicySearch.ScoreAll | src/engines/policy/index.ts:183-186 | each result keeps its fields and gains its policy score, position by position |
| PolicySearch.ScoredGovernmentSite | src/engines/policy/index.ts:183-193 | a fetched result on a government site is scored at least 50 |
| PolicySearch.Eligible | src/engines/policy/index.ts:189-193 | an item survives the two filters iff its score reaches the minimum and, under `governmentOnly`, it is a government site |
| PolicySearch.FindIndexByUrl | src/engines/policy/index.ts:196 | `findIndex` by URL: the first position holding the URL, or -1 when none does |
| PolicySearch.DedupFromFirst | src/engines/policy/index.ts:195-197 | every kept item is the first occurrence of its URL |
| PolicySearch.DedupFromOrdered | src/engines/policy/index.ts:195-197 | kept items stay in their original order |
| PolicySearch.DedupFromComplete | src/engines/policy/index.ts:195-197 | every first occurrence of a URL is kept |
| PolicySearch.DedupByUrlMeaning | src/engines/policy/index.ts:195-197 | deduplication leaves distinct URLs, keeps exactly the first item for each URL of the input |
| PolicySearch.InsertByScoreMultiset | src/engines/policy/index.ts:199 | inserting one item adds exactly that item |
| PolicySearch.InsertByScoreSorted | src/engines/policy/index.ts:199 | inserting into a descending sequence keeps it descending |
| PolicySearch.InsertByScoreStable | src/engines/policy/index.ts:199 | among the items of any one score, insertion puts the new item first and keeps the others in order (the step that makes the sort stable when items are inserted back to front) |
| PolicySearch.InsertByScoreDistinct | src/engines/policy/index.ts:199 | inserting an item with a new URL keeps URLs distinct |
| PolicySearch.SortByScoreSorted | src/engines/policy/index.ts:199 | the sort orders by descending policy score |
| PolicySearch.SortByScorePermutes | src/engines/policy/index.ts:199 | the sort is a permutation of its input |
| PolicySearch.SortByScoreStable | src/engines/policy/index.ts:199 | the sort is stable: items with equal scores keep their relative order |
| PolicySearch.SortByScoreDistinct | src/engines/policy/index.ts:199 | sorting preserves distinct URLs |
| PolicySearch.RankShape | src/engines/policy/index.ts:189-204 | filter, dedup, sort and `slice(0, limit)` give exactly min(limit, number of deduplicated eligible items) items, sorted by score, with distinct URLs |
| PolicySearch.RankSurvivors | src/engines/policy/index.ts:189-204 | every ranked item passed both filters and is the first eligible item with its URL |
| PolicySearch.DedupBeforeSort | src/engines/policy/index.ts:195-199 | of two results sharing a URL, the earlier one scoring 40 survives and the later one scoring 90 is dropped |
| PolicySearch.LeadingDigits | src/engines/policy/index.ts:209 | the length of the longest digit prefix |
| PolicySearch.LeadingDigitsOf | src/engines/policy/index.ts:209 | a digit string followed by a non-digit has exactly its own length of leading digits |
| PolicySearch.AnnotationRoundTrip | src/engines/policy/index.ts:209 | the description "[政策相关度: <score>分] <description>" parses back to the score and the original description |
| PolicySearch.AnnotateRoundTrip | src/engines/policy/index.ts:207-212 | annotating the description and suffixing the engine with "-policy" is undone by `Unannotate` |
| PolicySearch.AnnotateAll | src/engines/policy/index.ts:207-212 | annotation maps one item to one item |
| PolicySearch.AnnotateAllMeaning | src/engines/policy/index.ts:207-212 | annotation keeps score order and URL distinctness, and each annotated item unannotates to its original |
| PolicySearch.SearchPolicyMeaning | src/engines/policy/index.ts:125-213 | `searchPolicy` returns exactly min(limit, number of deduplicated eligible fetched results) items, sorted by score, with distinct URLs; each unannotates to one fetched result, fields untouched, paired with its own `PolicyScore`, reaching the minimum score and, under `governmentOnly`, a government site scoring at least 50 |
| PolicySearch.AnnotatedRanking | src/engines/policy/index.ts:183-212 | the same promises for the score, filter, dedup, sort, slice and annotate stages over any fetched results |
| PolicySearch.AnnotatedFromFetched | src/engines/policy/index.ts:183-212 | an annotated item of the scored fetch unannotates to a fetched result paired with its own score |
| PolicySearch.SearchPolicyNoEngines | src/engines/policy/index.ts:154-174 | an explicitly empty engine list returns nothing |
| PolicySearch.SearchPolicyAdvanced | src/engines/policy/index.ts:218-258 | one Bing call with the advanced query for twice the limit; a rejection reaches the caller as an error, a resolved call gives its first `limit` results; `dateRange` changes nothing |
| SearchDispatch.SharesSum | src/tools/setupTools.ts:41-43 | `count` shares of `base`, the first `extra` one larger, add up to count × base + extra |
| SearchDispatch.DistributeLimitSum | src/tools/setupTools.ts:37-44 | with at least one engine the shares add up to the total limit |
| SearchDispatch.DistributeLimitEven | src/tools/setupTools.ts:37-44 | shares never grow along the engine list and differ by at most one |
| SearchDispatch.DistributeLimitShare | src/tools/setupTools.ts:37-44 | each share is the floor or the ceiling of the average |
| SearchDispatch.DistributeLimitExample | src/tools/setupTools.ts:37-44 | 10 over 3 engines is [4, 3, 3]; 2 over 3 is [1, 1, 0] |
| SearchDispatch.GatherAppend | src/tools/setupTools.ts:60-77 | the flattened dispatch over concatenated engine lists is the concatenation of the two |
| SearchDispatch.GatherSkipsUnknown | src/tools/setupTools.ts:62-72 | a name outside the engine table, or an engine whose call is rejected, contributes nothing, and the others' results come through unchanged |
| SearchDispatch.ExecuteSearch | src/tools/setupTools.ts:47-82 | an error exactly when the query trims to nothing; otherwise the untrimmed query goes to every engine with its share, and the result is the longest prefix of the engine-ordered results not exceeding the limit |
| SearchDispatch.ExecuteSearchPartialFailure | src/tools/setupTools.ts:58-77 | with engines bing, baidu, csdn and limit 10, a rejected baidu call leaves bing's results then csdn's, cut to 10 |
| SearchDispatch.AllowedEnginesMeaning | src/tools/setupTools.ts:190-202 | with no allow-list the request passes unchanged; with one, the result is non-empty; when no requested engine is permitted it is the default alone, and otherwise it holds exactly the permitted requested engines, each as often as requested, in request order |
| Seqs.FilterSubsequence | src/tools/setupTools.ts:193-194 | `filter` only deletes elements: its result is a subsequence of its input |
| SearchDispatch.AllowedEnginesIdempotent | src/tools/setupTools.ts:190-202 | applying the transform twice equals applying it once |
| Strings.TrimEmptyIffAllWhitespace | src/tools/setupTools.ts:49-56 | `query.trim()` is empty exactly when every character is whitespace |
| Strings.NatToStringRoundTrip | src/engines/policy/index.ts:209 | the decimal rendering of a score is all digits and reads back to the score |
| Strings.SplitJoin | src/tools/setupTools.ts:122 | joining the pieces of `split('/')` gives the path back |
| Strings.SplitPiecesFree | src/tools/setupTools.ts:122 | no piece of `split('/')` contains "/" |
| ToolValidators.ArticleSitesExclusive | src/tools/setupTools.ts:85-102 | a URL validates as an article of at most one site, since the three hostnames differ |
| ToolValidators.ArticleUrlNeedsParse | src/tools/setupTools.ts:86-87 | a URL the parser rejects is invalid for every site |
| ToolValidators.CsdnArticleExample | src/tools/setupTools.ts:92-95 | a blog.csdn.net article URL is a CSDN article and not a Juejin one |
| ToolValidators.SshAddressAccepted | src/tools/setupTools.ts:108-113 | `git@github.com:` followed by a slash-free owner, "/", a repo not starting with "/" and anything else is accepted |
| ToolValidators.SshAddressRejected | src/tools/setupTools.ts:108-113 | with an empty owner, or nothing or a "/" right after the owner's slash, the SSH form is rejected |
| ToolValidators.OneSegmentIff | src/tools/setupTools.ts:122 | the split path has at least one non-empty segment iff it has a character other than "/" |
| ToolValidators.LaterSegmentIff | src/tools/setupTools.ts:122 | a non-empty segment after the first exists iff some non-slash character follows a slash |
| ToolValidators.TwoSegmentsIff | src/tools/setupTools.ts:122-123 | the path has at least two non-empty segments iff it has the two-segment shape |
| ToolValidators.GithubHttpsIff | src/tools/setupTools.ts:115-126 | a non-SSH address is valid iff it parses, its host is github.com or www.github.com, and its path has two non-empty segments |
| ToolValidators.GithubHttpsExample | src/tools/setupTools.ts:115-124 | https://github.com/owner/repo is valid |
| ToolValidators.GetToolName | src/tools/setupTools.ts:133-145 | the configured name when it is set, non-empty and matches `^[a-zA-Z][a-zA-Z0-9_-]*$`, and the default otherwise; a valid default gives a valid name |
| ToolValidators.SearchToolNamesValid | src/tools/setupTools.ts:149 | "search", "searchPolicy" and "searchPolicyAdvanced" match the tool-name pattern |
| ToolValidators.FetchToolNamesValid | src/tools/setupTools.ts:150-153 | the four fetch tools' default names match the tool-name pattern |
| ToolValidators.ToolNameExamples | src/tools/setupTools.ts:133-145 | "my-search_2" is used; "2search", the empty string and an unset variable fall back to "search" |

## Left out

- The engine adapters (`searchBaidu`, `searchBing` and the other six) and their HTTP and HTML scraping are not part of this model. Each is an abstract function that resolves or rejects.
- `Promise.all` concurrency is modelled as sequential evaluation in engine order. That is the order `Promise.all` preserves in its result array.
- Console logging is not modelled.
- `new URL` is an abstract parser parameter. Only the hostname and pathname it yields are read.
- Strings.Lower: only ASCII letters are lower-cased. JavaScript's `toLowerCase` also maps non-ASCII letters; hostnames reaching the classifier are already ASCII after URL parsing.
- Limits and the minimum score are modelled as a `nat` and an `int`. Non-integer and negative limits, NaN and JavaScript's floating-point arithmetic are left out.
- PolicySearch.PerEngineLimit: requires a non-empty engine list. With an empty list the source divides by zero, but the resulting Infinity or NaN is never used, because no engine is called; `Fetch` returns nothing directly in that case.
- The `engineMap[engine]` lookup is modelled as membership in the supported-engine list. Prototype keys such as "constructor" would also find a value in the source's object. The zod schema restricts `engines` to the enum before dispatch, so they never reach it.
- `validateArticleUrl`'s `default: return false` branch is not modelled. It cannot be reached with the three-valued `type` parameter, which the model gives as a datatype.
- The zod input schemas, MCP tool registration, `getSearchDescription`, `getEnginesEnum`, `process.env` and the `config` module are not part of this model. The environment variable and the allow-list are parameters.
- The remaining tools' handlers (the LinuxDo, CSDN and Juejin article fetchers and the GitHub README fetcher) are not part of this model. Only the URL checks in front of them are modelled.
- `searchPolicyAdvanced` accepts `dateRange` but never uses it. The model accepts and ignores it as well.
- An engine is a function of the query and the count, so an engine named twice in a list gets the same outcome for both calls (`FanOut`, `Gather`). The source makes two independent calls that may settle differently, for example one rejecting and one resolving; the lemmas about a rejected engine (`FanOutAbsorbsRejection`, `GatherSkipsUnknown`) rely on the shared outcome.
- `publishDate` is carried through unchanged. Nothing in the core reads it.
