/**
 * The generic multi-engine search of the `search` tool
 * (src/tools/setupTools.ts): splitting the limit over the engines, the
 * dispatch that absorbs unknown names and failed calls, and the transform
 * that narrows the requested engines to the configured allow-list.
 */
module SearchDispatch {
  import opened Wrappers
  import opened Strings
  import opened Seqs
  import opened Types

  /** The engine names the dispatch table knows. */
  const SupportedEngines: seq<string> :=
    ["baidu", "bing", "linuxdo", "csdn", "duckduckgo", "exa", "brave", "juejin"]

  // ---------------------------------------------------------------------
  // distributeLimit

  /** `count` shares of `base`, the first `extra` of them one larger. */
  function Shares(count: nat, base: nat, extra: nat): (r: seq<nat>)
    ensures |r| == count
  {
    seq(count, i requires 0 <= i < count => base + (if i < extra then 1 else 0))
  }

  /** `distributeLimit`: the floor of the average for everyone, and the remainder spread over the first engines. */
  function DistributeLimit(total: nat, count: nat): (r: seq<nat>)
    ensures |r| == count
  {
    if count == 0 then [] else Shares(count, total / count, total % count)
  }

  lemma {:induction false} SharesSum(count: nat, base: nat, extra: nat)
    requires extra <= count
    ensures Sum(Shares(count, base, extra)) == count * base + extra
    decreases count
  {
    if count > 0 {
      var s := Shares(count, base, extra);
      var e' := if extra > 0 then extra - 1 else 0;
      assert s[1..] == Shares(count - 1, base, e');
      SharesSum(count - 1, base, e');
      assert count * base == (count - 1) * base + base;
    }
  }

  /** The shares add up to the total whenever there is at least one engine. */
  lemma DistributeLimitSum(total: nat, count: nat)
    requires count > 0
    ensures Sum(DistributeLimit(total, count)) == total
  {
    SharesSum(count, total / count, total % count);
  }

  /** The shares never grow along the engine list and differ by at most one. */
  lemma DistributeLimitEven(total: nat, count: nat)
    ensures forall i, j :: 0 <= i <= j < count ==>
              DistributeLimit(total, count)[j] <= DistributeLimit(total, count)[i] <= DistributeLimit(total, count)[j] + 1
  {
  }

  /** Share `i` is the floor of the average, plus one for the first `total % count` engines. */
  lemma DistributeLimitShare(total: nat, count: nat, i: nat)
    requires i < count
    ensures DistributeLimit(total, count)[i] * count <= total + count - 1
    ensures (DistributeLimit(total, count)[i] + 1) * count > total
  {
    var q, m := total / count, total % count;
    assert total == q * count + m;
    assert DistributeLimit(total, count)[i] * count == q * count + (if i < m then count else 0);
  }

  lemma DistributeLimitExample()
    ensures DistributeLimit(10, 3) == [4, 3, 3]
    ensures DistributeLimit(2, 3) == [1, 1, 0]
  {
  }

  // ---------------------------------------------------------------------
  // executeSearch

  /**
   * One listed engine's contribution: its adapter's results for its share,
   * or nothing when the name is not in the table or the call is rejected.
   */
  function EngineCall(name: string, query: string, share: nat, adapters: string -> Engine): seq<SearchResult> {
    if name in SupportedEngines then Settle(adapters(name)(query, share)) else []
  }

  /** `(await Promise.all(engines.map(...))).flat()` */
  function Gather(names: seq<string>, shares: seq<nat>, query: string, adapters: string -> Engine): seq<SearchResult>
    requires |shares| == |names|
    decreases |names|
  {
    if names == [] then []
    else EngineCall(names[0], query, shares[0], adapters) + Gather(names[1..], shares[1..], query, adapters)
  }

  lemma {:induction false} GatherAppend(a: seq<string>, sa: seq<nat>, b: seq<string>, sb: seq<nat>,
                                        query: string, adapters: string -> Engine)
    requires |sa| == |a| && |sb| == |b|
    ensures Gather(a + b, sa + sb, query, adapters)
         == Gather(a, sa, query, adapters) + Gather(b, sb, query, adapters)
    decreases |a|
  {
    if a != [] {
      assert (a + b)[1..] == a[1..] + b;
      assert (sa + sb)[1..] == sa[1..] + sb;
      GatherAppend(a[1..], sa[1..], b, sb, query, adapters);
    } else {
      assert a + b == b && sa + sb == sb;
    }
  }

  /**
   * `executeSearch`: an error for a query that trims to nothing; otherwise the
   * untrimmed query goes to every engine with its share of the limit, and the
   * results, in engine order, are cut to the limit.
   */
  function ExecuteSearch(query: string, engines: seq<string>, limit: nat, adapters: string -> Engine)
    : (r: Result<seq<SearchResult>, SearchError>)
    ensures r.Err? <==> AllWhitespace(query)
    ensures r.Err? ==> r.error == EmptyQuery
    ensures r.Ok? ==> |r.value| <= limit
    ensures r.Ok? ==>
              var all := Gather(engines, DistributeLimit(limit, |engines|), query, adapters);
              |r.value| <= |all| && r.value == all[..|r.value|] && (|r.value| == limit || r.value == all)
  {
    TrimEmptyIffAllWhitespace(query);
    if Trim(query) == [] then Err(EmptyQuery)
    else Ok(Take(Gather(engines, DistributeLimit(limit, |engines|), query, adapters), limit))
  }

  /**
   * With three engines of which the middle one fails, the results are the
   * first engine's followed by the third's, cut to the limit.
   */
  lemma ExecuteSearchPartialFailure(query: string, adapters: string -> Engine, xs: seq<SearchResult>, zs: seq<SearchResult>)
    requires !AllWhitespace(query)
    requires adapters("bing")(query, 4) == Resolved(xs)
    requires adapters("baidu")(query, 3) == Rejected
    requires adapters("csdn")(query, 3) == Resolved(zs)
    ensures ExecuteSearch(query, ["bing", "baidu", "csdn"], 10, adapters) == Ok(Take(xs + zs, 10))
  {
    DistributeLimitExample();
    var names: seq<string> := ["bing", "baidu", "csdn"];
    var shares: seq<nat> := [4, 3, 3];
    assert EngineCall("bing", query, 4, adapters) == xs by {
      assert SupportedEngines[1] == "bing";
    }
    assert EngineCall("baidu", query, 3, adapters) == [];
    assert EngineCall("csdn", query, 3, adapters) == zs by {
      assert SupportedEngines[3] == "csdn";
    }
    assert names[1..][1..][1..] == [] && shares[1..][1..][1..] == [];
    assert Gather(names[1..][1..], shares[1..][1..], query, adapters) == zs + [];
    assert Gather(names[1..], shares[1..], query, adapters) == [] + (zs + []);
    assert Gather(names, shares, query, adapters) == xs + ([] + (zs + []));
    assert xs + ([] + (zs + [])) == xs + zs;
  }

  /** A name outside the table contributes nothing, so the other engines' results come through unchanged. */
  lemma GatherSkipsUnknown(names: seq<string>, shares: seq<nat>, i: nat, query: string, adapters: string -> Engine)
    requires |shares| == |names| && i < |names|
    requires names[i] !in SupportedEngines || adapters(names[i])(query, shares[i]) == Rejected
    ensures Gather(names, shares, query, adapters)
         == Gather(names[..i], shares[..i], query, adapters) + Gather(names[i + 1..], shares[i + 1..], query, adapters)
  {
    assert names == names[..i] + ([names[i]] + names[i + 1..]);
    assert shares == shares[..i] + ([shares[i]] + shares[i + 1..]);
    GatherAppend(names[..i], shares[..i], [names[i]] + names[i + 1..], [shares[i]] + shares[i + 1..], query, adapters);
    assert ([names[i]] + names[i + 1..])[1..] == names[i + 1..];
    assert ([shares[i]] + shares[i + 1..])[1..] == shares[i + 1..];
  }

  // ---------------------------------------------------------------------
  // the allowed-engines transform of the `search` tool's `engines` field

  /**
   * With a non-empty allow-list, the requested engines it permits, in
   * request order, or the default engine if none is permitted; with an
   * empty allow-list, the request unchanged.
   */
  function AllowedEngines(requested: seq<string>, allowed: seq<string>, defaultEngine: string): seq<string> {
    if |allowed| > 0 then
      var kept := Filter(requested, (e: string) => e in allowed);
      if |kept| > 0 then kept else [defaultEngine]
    else requested
  }

  /**
   * Under an allow-list the result is never empty and holds only permitted
   * engines or the default alone; when some requested engine is permitted,
   * the result is exactly the permitted requested engines, each as often as
   * requested, in request order.
   */
  lemma AllowedEnginesMeaning(requested: seq<string>, allowed: seq<string>, defaultEngine: string)
    ensures allowed == [] ==> AllowedEngines(requested, allowed, defaultEngine) == requested
    ensures allowed != [] ==> |AllowedEngines(requested, allowed, defaultEngine)| > 0
    ensures allowed != [] ==>
              AllowedEngines(requested, allowed, defaultEngine) == [defaultEngine]
              || (forall i :: 0 <= i < |AllowedEngines(requested, allowed, defaultEngine)| ==>
                    AllowedEngines(requested, allowed, defaultEngine)[i] in allowed
                    && AllowedEngines(requested, allowed, defaultEngine)[i] in requested)
    ensures allowed != [] ==>
              (AllowedEngines(requested, allowed, defaultEngine) == [defaultEngine]
               <== forall i :: 0 <= i < |requested| ==> requested[i] !in allowed)
    ensures allowed != [] && (exists i :: 0 <= i < |requested| && requested[i] in allowed) ==>
              var r := AllowedEngines(requested, allowed, defaultEngine);
              && (forall e :: e in r <==> e in requested && e in allowed)
              && (forall e :: e in allowed ==> multiset(r)[e] == multiset(requested)[e])
              && IsSubsequence(r, requested)
  {
    if allowed != [] && (exists i :: 0 <= i < |requested| && requested[i] in allowed) {
      var keep := (e: string) => e in allowed;
      var kept := Filter(requested, keep);
      var i :| 0 <= i < |requested| && requested[i] in allowed;
      assert requested[i] in kept;
      FilterSubsequence(requested, keep);
      forall e | e in allowed ensures multiset(kept)[e] == multiset(requested)[e] {
        FilterMultiset(requested, keep, e);
      }
    }
  }

  /** Applying the transform to its own result changes nothing. */
  lemma AllowedEnginesIdempotent(requested: seq<string>, allowed: seq<string>, defaultEngine: string)
    ensures AllowedEngines(AllowedEngines(requested, allowed, defaultEngine), allowed, defaultEngine)
         == AllowedEngines(requested, allowed, defaultEngine)
  {
    if allowed != [] {
      var kept := Filter(requested, (e: string) => e in allowed);
      if |kept| > 0 {
        FilterKeepsAll(kept, (e: string) => e in allowed);
      }
    }
  }
}
