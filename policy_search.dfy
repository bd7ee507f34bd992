/**
 * The ranking pipeline of `searchPolicy` and the single-engine
 * `searchPolicyAdvanced` (src/engines/policy/index.ts): fan-out with a
 * twofold overfetch, flattening, scoring, the two filters, deduplication by
 * URL, the stable sort by score, truncation and annotation.
 */
module PolicySearch {
  import opened Wrappers
  import opened Strings
  import opened Seqs
  import opened Types
  import opened PolicyRules

  /** `{ ...result, policyScore }`: a result carrying its relevance score. */
  datatype Scored = Scored(item: SearchResult, policyScore: nat)

  /** The options object of `searchPolicy`; a missing field takes its default. */
  datatype PolicyOptions = PolicyOptions(
    region: Option<string>,
    engines: Option<seq<string>>,
    minScore: Option<int>,
    governmentOnly: Option<bool>)

  const NoOptions: PolicyOptions := PolicyOptions(None, None, None, None)

  const DefaultEngines: seq<string> := ["baidu", "bing"]
  const DefaultMinScore: int := 30

  function EnginesOf(o: PolicyOptions): seq<string> {
    if o.engines.Some? then o.engines.value else DefaultEngines
  }

  function MinScoreOf(o: PolicyOptions): int {
    if o.minScore.Some? then o.minScore.value else DefaultMinScore
  }

  function GovernmentOnlyOf(o: PolicyOptions): bool {
    o.governmentOnly.Some? && o.governmentOnly.value
  }

  // ---------------------------------------------------------------------
  // fan-out

  /** `Math.ceil(limit * 2 / engines.length)`: the smallest share that covers twice the limit. */
  function PerEngineLimit(limit: nat, count: nat): (n: nat)
    requires count > 0
    ensures n * count >= 2 * limit
    ensures n == 0 || (n - 1) * count < 2 * limit
  {
    var q := (2 * limit + count - 1) / count;
    assert q * count <= 2 * limit + count - 1 < (q + 1) * count;
    q
  }

  /** The call made for one listed engine name: only "baidu" and "bing" are dispatched, and a rejection yields `[]`. */
  function EngineResults(name: string, query: string, perLimit: nat, baidu: Engine, bing: Engine): seq<SearchResult> {
    if name == "baidu" then Settle(baidu(query, perLimit))
    else if name == "bing" then Settle(bing(query, perLimit))
    else []
  }

  /** `(await Promise.all(engines.map(...))).flat()`: the engines' results in listed order. */
  function FanOut(names: seq<string>, query: string, perLimit: nat, baidu: Engine, bing: Engine): seq<SearchResult>
    decreases |names|
  {
    if names == [] then []
    else EngineResults(names[0], query, perLimit, baidu, bing) + FanOut(names[1..], query, perLimit, baidu, bing)
  }

  lemma {:induction false} FanOutAppend(a: seq<string>, b: seq<string>, query: string, perLimit: nat, baidu: Engine, bing: Engine)
    ensures FanOut(a + b, query, perLimit, baidu, bing)
         == FanOut(a, query, perLimit, baidu, bing) + FanOut(b, query, perLimit, baidu, bing)
    decreases |a|
  {
    if a != [] {
      assert (a + b)[0] == a[0];
      assert (a + b)[1..] == a[1..] + b;
      FanOutAppend(a[1..], b, query, perLimit, baidu, bing);
    } else {
      assert a + b == b;
    }
  }

  /** Every fetched result comes from a resolved call to Baidu or to Bing. */
  lemma {:induction false} FanOutSources(names: seq<string>, query: string, perLimit: nat, baidu: Engine, bing: Engine)
    ensures forall x :: x in FanOut(names, query, perLimit, baidu, bing) ==>
              x in Settle(baidu(query, perLimit)) || x in Settle(bing(query, perLimit))
    decreases |names|
  {
    if names != [] {
      FanOutSources(names[1..], query, perLimit, baidu, bing);
    }
  }

  /** A rejected Bing call contributes nothing: the fan-out is the one over the other names. */
  lemma {:induction false} FanOutAbsorbsRejection(names: seq<string>, query: string, perLimit: nat, baidu: Engine, bing: Engine)
    requires bing(query, perLimit) == Rejected
    ensures FanOut(names, query, perLimit, baidu, bing)
         == FanOut(Filter(names, n => n != "bing"), query, perLimit, baidu, bing)
    decreases |names|
  {
    if names != [] {
      FanOutAbsorbsRejection(names[1..], query, perLimit, baidu, bing);
    }
  }

  // ---------------------------------------------------------------------
  // scoring and the two filters

  /** `allResults.map(result => ({ ...result, policyScore: calculatePolicyScore(result) }))` */
  function ScoreAll(parse: UrlParser, rs: seq<SearchResult>): (r: seq<Scored>)
    ensures |r| == |rs|
    ensures forall i :: 0 <= i < |r| ==> r[i].item == rs[i] && r[i].policyScore == PolicyScore(parse, rs[i])
  {
    seq(|rs|, i requires 0 <= i < |rs| => Scored(rs[i], PolicyScore(parse, rs[i])))
  }

  predicate IsGovernmentResult(parse: UrlParser, x: Scored) {
    IsGovernmentSite(parse, x.item.url, x.item.description, x.item.source)
  }

  /** The minimum-score filter followed by the optional government-only filter. */
  function Eligible(parse: UrlParser, s: seq<Scored>, minScore: int, governmentOnly: bool): (r: seq<Scored>)
    ensures forall i :: 0 <= i < |r| ==>
              r[i] in s && r[i].policyScore >= minScore && (governmentOnly ==> IsGovernmentResult(parse, r[i]))
    ensures forall i ::
              (0 <= i < |s| && s[i].policyScore >= minScore && (governmentOnly ==> IsGovernmentResult(parse, s[i])))
              ==> s[i] in r
  {
    var scoreOk := Filter(s, (x: Scored) => x.policyScore >= minScore);
    Filter(scoreOk, (x: Scored) => !governmentOnly || IsGovernmentResult(parse, x))
  }

  // ---------------------------------------------------------------------
  // deduplication: `index === self.findIndex(r => r.url === result.url)`

  /** `findIndex` on the URL: the first position holding `url`, or -1. */
  function FindIndexByUrl(s: seq<Scored>, url: string): (r: int)
    ensures -1 <= r < |s|
    ensures r >= 0 ==> s[r].item.url == url
    ensures forall j :: 0 <= j < |s| && (r < 0 || j < r) ==> s[j].item.url != url
    decreases |s|
  {
    if s == [] then -1
    else if s[0].item.url == url then 0
    else
      var k := FindIndexByUrl(s[1..], url);
      if k < 0 then -1 else k + 1
  }

  /** The items from position `i` on that are the first with their URL, in order. */
  function DedupFrom(s: seq<Scored>, i: nat): seq<Scored>
    requires i <= |s|
    decreases |s| - i
  {
    if i == |s| then []
    else (if FindIndexByUrl(s, s[i].item.url) == i then [s[i]] else []) + DedupFrom(s, i + 1)
  }

  /** Each survivor from position `i` on is the first occurrence of its URL, found at or after `i`. */
  lemma {:induction false} DedupFromFirst(s: seq<Scored>, i: nat)
    requires i <= |s|
    ensures forall k :: 0 <= k < |DedupFrom(s, i)| ==>
              i <= FindIndexByUrl(s, DedupFrom(s, i)[k].item.url)
              && DedupFrom(s, i)[k] == s[FindIndexByUrl(s, DedupFrom(s, i)[k].item.url)]
    decreases |s| - i
  {
    if i < |s| {
      DedupFromFirst(s, i + 1);
      var rest := DedupFrom(s, i + 1);
      var head := if FindIndexByUrl(s, s[i].item.url) == i then [s[i]] else [];
      var r := DedupFrom(s, i);
      assert r == head + rest;
      forall k | 0 <= k < |r|
        ensures i <= FindIndexByUrl(s, r[k].item.url) && r[k] == s[FindIndexByUrl(s, r[k].item.url)]
      {
        if k >= |head| {
          assert r[k] == rest[k - |head|];
        }
      }
    }
  }

  /** The survivors keep the order of their positions. */
  lemma {:induction false} DedupFromOrdered(s: seq<Scored>, i: nat)
    requires i <= |s|
    ensures forall a, b :: 0 <= a < b < |DedupFrom(s, i)| ==>
              FindIndexByUrl(s, DedupFrom(s, i)[a].item.url) < FindIndexByUrl(s, DedupFrom(s, i)[b].item.url)
    decreases |s| - i
  {
    if i < |s| {
      DedupFromOrdered(s, i + 1);
      DedupFromFirst(s, i + 1);
      var rest := DedupFrom(s, i + 1);
      var head := if FindIndexByUrl(s, s[i].item.url) == i then [s[i]] else [];
      var r := DedupFrom(s, i);
      assert r == head + rest;
      forall a, b | 0 <= a < b < |r|
        ensures FindIndexByUrl(s, r[a].item.url) < FindIndexByUrl(s, r[b].item.url)
      {
        assert r[b] == rest[b - |head|];
        if a >= |head| {
          assert r[a] == rest[a - |head|];
        }
      }
    }
  }

  /** Every first occurrence at or after position `i` survives. */
  lemma {:induction false} DedupFromComplete(s: seq<Scored>, i: nat)
    requires i <= |s|
    ensures forall j :: i <= j < |s| && FindIndexByUrl(s, s[j].item.url) == j ==> s[j] in DedupFrom(s, i)
    decreases |s| - i
  {
    if i < |s| {
      DedupFromComplete(s, i + 1);
      var head := if FindIndexByUrl(s, s[i].item.url) == i then [s[i]] else [];
      assert DedupFrom(s, i) == head + DedupFrom(s, i + 1);
    }
  }

  function DedupByUrl(s: seq<Scored>): seq<Scored> {
    DedupFrom(s, 0)
  }

  /** The survivors of deduplication have pairwise distinct URLs. */
  predicate DistinctUrls(s: seq<Scored>) {
    forall a, b :: 0 <= a < b < |s| ==> s[a].item.url != s[b].item.url
  }

  /**
   * Deduplication keeps, for every URL present, exactly the first item
   * carrying it, and nothing else.
   */
  lemma DedupByUrlMeaning(s: seq<Scored>)
    ensures DistinctUrls(DedupByUrl(s))
    ensures forall x :: x in DedupByUrl(s) ==> x in s && x == s[FindIndexByUrl(s, x.item.url)]
    ensures forall j :: 0 <= j < |s| ==> s[FindIndexByUrl(s, s[j].item.url)] in DedupByUrl(s)
  {
    var r := DedupByUrl(s);
    DedupFromFirst(s, 0);
    DedupFromOrdered(s, 0);
    DedupFromComplete(s, 0);
    forall a, b | 0 <= a < b < |r| ensures r[a].item.url != r[b].item.url {
      assert FindIndexByUrl(s, r[a].item.url) < FindIndexByUrl(s, r[b].item.url);
    }
    forall j | 0 <= j < |s| ensures s[FindIndexByUrl(s, s[j].item.url)] in r {
      var f := FindIndexByUrl(s, s[j].item.url);
      assert s[f].item.url == s[j].item.url;
    }
  }

  // ---------------------------------------------------------------------
  // `.sort((a, b) => b.policyScore - a.policyScore)`, which is stable

  /** Insert `x` in front of the first item scoring no more than it. */
  function InsertByScore(x: Scored, s: seq<Scored>): seq<Scored>
    decreases |s|
  {
    if s == [] || s[0].policyScore <= x.policyScore then [x] + s
    else [s[0]] + InsertByScore(x, s[1..])
  }

  function SortByScore(s: seq<Scored>): seq<Scored>
    decreases |s|
  {
    if s == [] then [] else InsertByScore(s[0], SortByScore(s[1..]))
  }

  predicate SortedByScore(s: seq<Scored>) {
    forall a, b :: 0 <= a < b < |s| ==> s[a].policyScore >= s[b].policyScore
  }

  function HasScore(v: int): Scored -> bool {
    (x: Scored) => x.policyScore == v
  }

  lemma {:induction false} InsertByScoreMultiset(x: Scored, s: seq<Scored>)
    ensures multiset(InsertByScore(x, s)) == multiset(s) + multiset{x}
    decreases |s|
  {
    if s != [] && s[0].policyScore > x.policyScore {
      InsertByScoreMultiset(x, s[1..]);
      assert s == [s[0]] + s[1..];
    }
  }

  lemma {:induction false} InsertByScoreSorted(x: Scored, s: seq<Scored>)
    requires SortedByScore(s)
    ensures SortedByScore(InsertByScore(x, s))
    decreases |s|
  {
    if s != [] && s[0].policyScore > x.policyScore {
      var rest := InsertByScore(x, s[1..]);
      InsertByScoreSorted(x, s[1..]);
      InsertByScoreMultiset(x, s[1..]);
      forall k | 0 <= k < |rest| ensures rest[k].policyScore <= s[0].policyScore {
        assert rest[k] in multiset(rest);
        if rest[k] != x {
          assert rest[k] in multiset(s[1..]);
          var j :| 0 <= j < |s[1..]| && s[1..][j] == rest[k];
          assert s[j + 1] == rest[k];
        }
      }
    }
  }

  /** Inserting `x` places it ahead of every item that already had its score. */
  lemma {:induction false} InsertByScoreStable(x: Scored, s: seq<Scored>, v: int)
    ensures Filter(InsertByScore(x, s), HasScore(v))
         == if x.policyScore == v then [x] + Filter(s, HasScore(v)) else Filter(s, HasScore(v))
    decreases |s|
  {
    if s != [] && s[0].policyScore > x.policyScore {
      InsertByScoreStable(x, s[1..], v);
      assert InsertByScore(x, s)[1..] == InsertByScore(x, s[1..]);
    } else {
      assert ([x] + s)[1..] == s;
    }
  }

  /** The sort orders by score, non-increasing. */
  lemma {:induction false} SortByScoreSorted(s: seq<Scored>)
    ensures SortedByScore(SortByScore(s))
    decreases |s|
  {
    if s != [] {
      SortByScoreSorted(s[1..]);
      InsertByScoreSorted(s[0], SortByScore(s[1..]));
    }
  }

  /** The sort is a permutation. */
  lemma {:induction false} SortByScorePermutes(s: seq<Scored>)
    ensures multiset(SortByScore(s)) == multiset(s)
    decreases |s|
  {
    if s != [] {
      SortByScorePermutes(s[1..]);
      InsertByScoreMultiset(s[0], SortByScore(s[1..]));
      assert s == [s[0]] + s[1..];
    }
  }

  /** The sort is stable: the items of any one score keep their relative order. */
  lemma {:induction false} SortByScoreStable(s: seq<Scored>, v: int)
    ensures Filter(SortByScore(s), HasScore(v)) == Filter(s, HasScore(v))
    decreases |s|
  {
    if s != [] {
      SortByScoreStable(s[1..], v);
      InsertByScoreStable(s[0], SortByScore(s[1..]), v);
    }
  }

  /** Sorting never brings two items with the same URL together. */
  lemma {:induction false} InsertByScoreDistinct(x: Scored, s: seq<Scored>)
    requires DistinctUrls(s)
    requires forall j :: 0 <= j < |s| ==> s[j].item.url != x.item.url
    ensures DistinctUrls(InsertByScore(x, s))
    decreases |s|
  {
    if s != [] && s[0].policyScore > x.policyScore {
      var rest := InsertByScore(x, s[1..]);
      InsertByScoreDistinct(x, s[1..]);
      InsertByScoreMultiset(x, s[1..]);
      forall k | 0 <= k < |rest| ensures rest[k].item.url != s[0].item.url {
        assert rest[k] in multiset(rest);
        if rest[k] != x {
          assert rest[k] in s[1..];
          var j :| 0 <= j < |s[1..]| && s[1..][j] == rest[k];
          assert s[j + 1] == rest[k];
        }
      }
    }
  }

  lemma {:induction false} SortByScoreDistinct(s: seq<Scored>)
    requires DistinctUrls(s)
    ensures DistinctUrls(SortByScore(s))
    decreases |s|
  {
    if s != [] {
      var rest := SortByScore(s[1..]);
      SortByScoreDistinct(s[1..]);
      SortByScorePermutes(s[1..]);
      forall k | 0 <= k < |rest| ensures rest[k].item.url != s[0].item.url {
        assert rest[k] in multiset(s[1..]);
        var j :| 0 <= j < |s[1..]| && s[1..][j] == rest[k];
        assert s[j + 1] == rest[k];
      }
      InsertByScoreDistinct(s[0], rest);
    }
  }

  // ---------------------------------------------------------------------
  // ranking and annotation

  /** Filter, deduplicate, sort and truncate, in the order the source chains them. */
  function Rank(parse: UrlParser, scored: seq<Scored>, minScore: int, governmentOnly: bool, limit: nat): seq<Scored> {
    Take(SortByScore(DedupByUrl(Eligible(parse, scored, minScore, governmentOnly))), limit)
  }

  /**
   * Ranking returns `limit` items, or every deduplicated eligible item when
   * there are fewer, sorted by score, with pairwise distinct URLs.
   */
  lemma RankShape(parse: UrlParser, scored: seq<Scored>, minScore: int, governmentOnly: bool, limit: nat)
    ensures var r := Rank(parse, scored, minScore, governmentOnly, limit);
      |r| <= limit && SortedByScore(r) && DistinctUrls(r)
    ensures |Rank(parse, scored, minScore, governmentOnly, limit)|
         == Min(limit, |DedupByUrl(Eligible(parse, scored, minScore, governmentOnly))|)
  {
    var d := DedupByUrl(Eligible(parse, scored, minScore, governmentOnly));
    var sorted := SortByScore(d);
    DedupByUrlMeaning(Eligible(parse, scored, minScore, governmentOnly));
    SortByScorePermutes(d);
    assert |sorted| == |multiset(sorted)| == |multiset(d)| == |d|;
    SortByScoreSorted(d);
    SortByScoreDistinct(d);
    assert Rank(parse, scored, minScore, governmentOnly, limit) == sorted[..|Rank(parse, scored, minScore, governmentOnly, limit)|];
  }

  /**
   * Every ranked item passed both filters and is the first eligible item
   * with its URL, however a later duplicate scored.
   */
  lemma RankSurvivors(parse: UrlParser, scored: seq<Scored>, minScore: int, governmentOnly: bool, limit: nat)
    ensures var r := Rank(parse, scored, minScore, governmentOnly, limit);
      var e := Eligible(parse, scored, minScore, governmentOnly);
      forall k :: 0 <= k < |r| ==>
        r[k] in scored && r[k].policyScore >= minScore && (governmentOnly ==> IsGovernmentResult(parse, r[k]))
        && 0 <= FindIndexByUrl(e, r[k].item.url) && r[k] == e[FindIndexByUrl(e, r[k].item.url)]
  {
    var e := Eligible(parse, scored, minScore, governmentOnly);
    var d := DedupByUrl(e);
    var sorted := SortByScore(d);
    var r := Rank(parse, scored, minScore, governmentOnly, limit);
    DedupByUrlMeaning(e);
    SortByScorePermutes(d);
    forall k | 0 <= k < |r|
      ensures r[k] in scored && r[k].policyScore >= minScore && (governmentOnly ==> IsGovernmentResult(parse, r[k]))
      ensures 0 <= FindIndexByUrl(e, r[k].item.url) && r[k] == e[FindIndexByUrl(e, r[k].item.url)]
    {
      assert r[k] == sorted[k];
      assert sorted[k] in multiset(d);
      var i :| 0 <= i < |e| && e[i] == r[k];
    }
  }

  /**
   * Deduplication runs before sorting: of two results with one URL, the
   * earlier one scoring 40 survives and the later one scoring 90 is dropped.
   */
  lemma DedupBeforeSort(parse: UrlParser, a: Scored, b: Scored, limit: nat)
    requires a.item.url == b.item.url && a.policyScore == 40 && b.policyScore == 90 && limit >= 1
    ensures Rank(parse, [a, b], 30, false, limit) == [a]
  {
    var e := Eligible(parse, [a, b], 30, false);
    assert Filter([a, b], (x: Scored) => x.policyScore >= 30) == [a, b] by {
      FilterKeepsAll([a, b], (x: Scored) => x.policyScore >= 30);
    }
    FilterKeepsAll([a, b], (x: Scored) => !false || IsGovernmentResult(parse, x));
    assert e == [a, b];
    assert FindIndexByUrl(e, b.item.url) == 0;
    assert DedupFrom(e, 2) == [];
    assert DedupFrom(e, 1) == [];
    assert DedupByUrl(e) == [a];
    assert [a][1..] == [];
    assert SortByScore([a]) == InsertByScore(a, []) == [a];
  }

  // ---------------------------------------------------------------------
  // annotation

  /** The text `[政策相关度: <score>分] ` placed before a returned description. */
  const AnnotationHead: string := "[政策相关度: "
  const AnnotationTail: string := "分] "
  const EngineSuffix: string := "-policy"

  function AnnotatedDescription(score: nat, description: string): string {
    AnnotationHead + NatToString(score) + AnnotationTail + description
  }

  /** The final `map`: the score and the original description behind the label, and the engine tagged. */
  function Annotate(x: Scored): Scored {
    Scored(x.item.(description := AnnotatedDescription(x.policyScore, x.item.description),
                   engine := x.item.engine + EngineSuffix),
           x.policyScore)
  }

  /** The number of decimal digits `s` starts with. */
  function LeadingDigits(s: string): (n: nat)
    ensures n <= |s| && AllDigits(s[..n])
    ensures n < |s| ==> !('0' <= s[n] <= '9')
    decreases |s|
  {
    if s != [] && '0' <= s[0] <= '9' then
      var n := 1 + LeadingDigits(s[1..]);
      assert s[..n] == [s[0]] + s[1..][..n - 1];
      n
    else 0
  }

  lemma {:induction false} LeadingDigitsOf(a: string, b: string)
    requires AllDigits(a)
    requires b != [] && !('0' <= b[0] <= '9')
    ensures LeadingDigits(a + b) == |a|
    decreases |a|
  {
    if a != [] {
      assert (a + b)[1..] == a[1..] + b;
      LeadingDigitsOf(a[1..], b);
    } else {
      assert a + b == b;
    }
  }

  /** Reads an annotated description back into its score and the original text. */
  function ParseAnnotation(text: string): Option<(int, string)> {
    if !StartsWith(text, AnnotationHead) then None
    else
      var rest := text[|AnnotationHead|..];
      var n := LeadingDigits(rest);
      if n > 0 && StartsWith(rest[n..], AnnotationTail) then
        Some((DecimalValue(rest[..n]), rest[n + |AnnotationTail|..]))
      else None
  }

  lemma AnnotationRoundTrip(score: nat, description: string)
    ensures ParseAnnotation(AnnotatedDescription(score, description)) == Some((score, description))
  {
    var digits := NatToString(score);
    NatToStringRoundTrip(score);
    var text := AnnotatedDescription(score, description);
    assert text == AnnotationHead + (digits + AnnotationTail + description);
    var rest := text[|AnnotationHead|..];
    assert rest == digits + (AnnotationTail + description);
    LeadingDigitsOf(digits, AnnotationTail + description);
    assert rest[..|digits|] == digits;
    assert rest[|digits|..] == AnnotationTail + description;
  }

  /** Undoes `Annotate`: `None` when the item does not carry a matching label and engine tag. */
  function Unannotate(x: Scored): Option<Scored> {
    var engine := x.item.engine;
    match ParseAnnotation(x.item.description)
    case None => None
    case Some((score, description)) =>
      if score == x.policyScore && |engine| >= |EngineSuffix| && engine[|engine| - |EngineSuffix|..] == EngineSuffix then
        Some(Scored(x.item.(description := description, engine := engine[..|engine| - |EngineSuffix|]), x.policyScore))
      else None
  }

  /** An annotated item differs from its scored source only in the label and the engine tag. */
  lemma AnnotateRoundTrip(x: Scored)
    ensures Unannotate(Annotate(x)) == Some(x)
  {
    AnnotationRoundTrip(x.policyScore, x.item.description);
    var engine := x.item.engine + EngineSuffix;
    assert engine[..|engine| - |EngineSuffix|] == x.item.engine;
    assert engine[|engine| - |EngineSuffix|..] == EngineSuffix;
  }

  /** The final `map` over the ranked items. */
  function AnnotateAll(ranked: seq<Scored>): (r: seq<Scored>)
    ensures |r| == |ranked|
  {
    seq(|ranked|, i requires 0 <= i < |ranked| => Annotate(ranked[i]))
  }

  /** Annotation keeps order, scores and URLs, and can be undone item by item. */
  lemma AnnotateAllMeaning(ranked: seq<Scored>)
    ensures SortedByScore(ranked) ==> SortedByScore(AnnotateAll(ranked))
    ensures DistinctUrls(ranked) ==> DistinctUrls(AnnotateAll(ranked))
    ensures forall k :: 0 <= k < |ranked| ==> Unannotate(AnnotateAll(ranked)[k]) == Some(ranked[k])
  {
    forall k | 0 <= k < |ranked| ensures Unannotate(AnnotateAll(ranked)[k]) == Some(ranked[k]) {
      AnnotateRoundTrip(ranked[k]);
    }
  }

  /** A scored government site carries at least 50 points. */
  lemma ScoredGovernmentSite(parse: UrlParser, rs: seq<SearchResult>, i: nat)
    requires i < |rs| && IsGovernmentSite(parse, rs[i].url, rs[i].description, rs[i].source)
    ensures ScoreAll(parse, rs)[i].policyScore >= 50
  {
    GovernmentSiteScore(parse, rs[i]);
  }

  // ---------------------------------------------------------------------
  // searchPolicy

  /** The rewritten query sent to every listed engine, each asked for its share of twice the limit. */
  function Fetch(keyword: string, limit: nat, options: PolicyOptions, baidu: Engine, bing: Engine): seq<SearchResult> {
    var engines := EnginesOf(options);
    if engines == [] then []
    else FanOut(engines, PolicyQuery(keyword, options.region), PerEngineLimit(limit, |engines|), baidu, bing)
  }

  /** `searchPolicy`, with the two engine adapters and the URL parser as parameters. */
  function SearchPolicy(keyword: string, limit: nat, options: PolicyOptions,
                        parse: UrlParser, baidu: Engine, bing: Engine): seq<Scored>
  {
    Process(parse, Fetch(keyword, limit, options, baidu, bing), MinScoreOf(options), GovernmentOnlyOf(options), limit)
  }

  /** Everything `searchPolicy` does after the fetch: score, rank and annotate. */
  function Process(parse: UrlParser, fetched: seq<SearchResult>, minScore: int, governmentOnly: bool, limit: nat): seq<Scored> {
    AnnotateAll(Rank(parse, ScoreAll(parse, fetched), minScore, governmentOnly, limit))
  }

  /**
   * What `searchPolicy` returns: at most `limit` items, sorted by score,
   * with distinct URLs; each is the annotation of a fetched result whose
   * score reaches the minimum and, under `governmentOnly`, of a government
   * site scoring at least 50.
   */
  lemma SearchPolicyMeaning(keyword: string, limit: nat, options: PolicyOptions,
                            parse: UrlParser, baidu: Engine, bing: Engine)
    ensures var r := SearchPolicy(keyword, limit, options, parse, baidu, bing);
      |r| <= limit && SortedByScore(r) && DistinctUrls(r)
      && forall k :: 0 <= k < |r| ==>
           Unannotate(r[k]).Some? && r[k] == Annotate(Unannotate(r[k]).value)
           && r[k].policyScore >= MinScoreOf(options)
           && (GovernmentOnlyOf(options) ==> IsGovernmentResult(parse, Unannotate(r[k]).value) && r[k].policyScore >= 50)
    ensures var r := SearchPolicy(keyword, limit, options, parse, baidu, bing);
      var fetched := Fetch(keyword, limit, options, baidu, bing);
      forall k :: 0 <= k < |r| ==>
        exists i :: 0 <= i < |fetched| && Unannotate(r[k]) == Some(Scored(fetched[i], PolicyScore(parse, fetched[i])))
    ensures |SearchPolicy(keyword, limit, options, parse, baidu, bing)|
         == Min(limit, |DedupByUrl(Eligible(parse, ScoreAll(parse, Fetch(keyword, limit, options, baidu, bing)),
                                            MinScoreOf(options), GovernmentOnlyOf(options)))|)
  {
    var fetched := Fetch(keyword, limit, options, baidu, bing);
    assert SearchPolicy(keyword, limit, options, parse, baidu, bing)
        == Process(parse, fetched, MinScoreOf(options), GovernmentOnlyOf(options), limit);
    AnnotatedRanking(parse, fetched, MinScoreOf(options), GovernmentOnlyOf(options), limit);
  }

  /** `SearchPolicyMeaning` for any fetched results, with the options already resolved. */
  lemma AnnotatedRanking(parse: UrlParser, fetched: seq<SearchResult>, minScore: int, governmentOnly: bool, limit: nat)
    ensures var r := Process(parse, fetched, minScore, governmentOnly, limit);
      |r| <= limit && SortedByScore(r) && DistinctUrls(r)
      && forall k :: 0 <= k < |r| ==>
           Unannotate(r[k]).Some? && r[k] == Annotate(Unannotate(r[k]).value)
           && r[k].policyScore >= minScore
           && (governmentOnly ==> IsGovernmentResult(parse, Unannotate(r[k]).value) && r[k].policyScore >= 50)
    ensures var r := Process(parse, fetched, minScore, governmentOnly, limit);
      forall k :: 0 <= k < |r| ==>
        exists i :: 0 <= i < |fetched| && Unannotate(r[k]) == Some(Scored(fetched[i], PolicyScore(parse, fetched[i])))
    ensures |Process(parse, fetched, minScore, governmentOnly, limit)|
         == Min(limit, |DedupByUrl(Eligible(parse, ScoreAll(parse, fetched), minScore, governmentOnly))|)
  {
    var scored := ScoreAll(parse, fetched);
    var ranked := Rank(parse, scored, minScore, governmentOnly, limit);
    var r := AnnotateAll(ranked);
    RankShape(parse, scored, minScore, governmentOnly, limit);
    RankSurvivors(parse, scored, minScore, governmentOnly, limit);
    AnnotateAllMeaning(ranked);
    forall k | 0 <= k < |r|
      ensures Unannotate(r[k]).Some? && r[k] == Annotate(Unannotate(r[k]).value)
      ensures r[k].policyScore >= minScore
      ensures governmentOnly ==> IsGovernmentResult(parse, Unannotate(r[k]).value) && r[k].policyScore >= 50
      ensures exists i :: 0 <= i < |fetched| && Unannotate(r[k]) == Some(Scored(fetched[i], PolicyScore(parse, fetched[i])))
    {
      assert r[k] == Annotate(ranked[k]);
      AnnotatedFromFetched(parse, fetched, ranked[k]);
      if governmentOnly {
        var i :| 0 <= i < |scored| && scored[i] == ranked[k];
        ScoredGovernmentSite(parse, fetched, i);
      }
    }
  }

  /**
   * An item taken from the scored fetch unannotates, once annotated, to one
   * fetched result with its fields untouched, paired with its own score.
   */
  lemma AnnotatedFromFetched(parse: UrlParser, fetched: seq<SearchResult>, x: Scored)
    requires x in ScoreAll(parse, fetched)
    ensures exists i :: 0 <= i < |fetched| && Unannotate(Annotate(x)) == Some(Scored(fetched[i], PolicyScore(parse, fetched[i])))
  {
    var scored := ScoreAll(parse, fetched);
    var i :| 0 <= i < |scored| && scored[i] == x;
    AnnotateRoundTrip(x);
    assert Unannotate(Annotate(x)) == Some(Scored(fetched[i], PolicyScore(parse, fetched[i])));
  }

  /** An explicitly empty engine list fetches nothing and returns nothing. */
  lemma SearchPolicyNoEngines(keyword: string, limit: nat, options: PolicyOptions,
                              parse: UrlParser, baidu: Engine, bing: Engine)
    requires options.engines == Some([])
    ensures SearchPolicy(keyword, limit, options, parse, baidu, bing) == []
  {
    var scored := ScoreAll(parse, []);
    assert Eligible(parse, scored, MinScoreOf(options), GovernmentOnlyOf(options)) == [];
    assert DedupByUrl([]) == [];
  }

  /** Names other than "baidu" and "bing" are dispatched to nothing. */
  lemma {:induction false} FanOutOtherNames(names: seq<string>, query: string, perLimit: nat, baidu: Engine, bing: Engine)
    requires forall i :: 0 <= i < |names| ==> names[i] != "baidu" && names[i] != "bing"
    ensures FanOut(names, query, perLimit, baidu, bing) == []
    decreases |names|
  {
    if names != [] {
      FanOutOtherNames(names[1..], query, perLimit, baidu, bing);
    }
  }

  // ---------------------------------------------------------------------
  // searchPolicyAdvanced

  /** The `dateRange` option: accepted and ignored. */
  datatype DateRange = DateRange(start: Option<string>, end: Option<string>)

  /**
   * `searchPolicyAdvanced`: one Bing call for twice the limit with the
   * site/filetype query, truncated to the limit. A rejected call is not
   * caught and reaches the caller.
   */
  method SearchPolicyAdvanced(keyword: string, limit: nat, site: Option<string>, fileType: Option<string>,
                              dateRange: Option<DateRange>, bing: Engine)
    returns (r: Result<seq<SearchResult>, SearchError>)
    ensures bing(AdvancedQuery(keyword, site, fileType), 2 * limit) == Rejected ==> r == Err(EngineFailure)
    ensures bing(AdvancedQuery(keyword, site, fileType), 2 * limit).Resolved? ==>
              r == Ok(Take(bing(AdvancedQuery(keyword, site, fileType), 2 * limit).results, limit))
    ensures r.Ok? ==> |r.value| <= limit
  {
    var query := BuildAdvancedQuery(keyword, site, fileType);
    var outcome := bing(query, limit * 2);
    match outcome {
      case Rejected =>
        r := Err(EngineFailure);
      case Resolved(results) =>
        var filtered := results;
        r := Ok(Take(filtered, limit));
    }
  }
}
