/**
 * `OptimizedProxyFetcher` (optimized_fetcher.py): how `fetch_all` combines
 * what the source fetchers returned, and the URL list of
 * `fetch_from_kuaidaili`. The page scraping itself is not modelled; each
 * fetcher's outcome is an input.
 */
module OptimizedFetcher {
  import opened Text
  import opened ProxyEntry
  import opened PageUrls

  // ---------------------------------------------------------------------------
  // fetch_from_kuaidaili: the requested URLs
  // ---------------------------------------------------------------------------

  /** The entries of one `PROXY_SOURCES` item the fetcher reads. */
  datatype Source = Source(urls: seq<UrlTemplate>, pages: int, enabled: bool)

  /** `PROXY_SOURCES['kuaidaili']` of config.py: two templates, 5 pages, enabled. */
  const KuaidailiSource: Source := Source(KuaidailiTemplates, 5, true)

  /**
   * The URLs `fetch_from_kuaidaili` hands to `batch_request`: none for a
   * disabled source (it returns an empty list before any request), otherwise
   * every template for every page from 1 to `pages`.
   */
  method KuaidailiUrls(source: Source) returns (urls: seq<string>)
    ensures !source.enabled ==> urls == []
    ensures source.enabled ==> urls == Expansion(source.pages, source.urls)
    ensures source.enabled && source.pages >= 0 ==> |urls| == source.pages * |source.urls|
  {
    if !source.enabled {
      return [];
    }
    urls := Expand(source.pages, source.urls);
    if source.pages >= 0 {
      ExpansionLength(source.pages, source.urls);
    }
  }

  /** With the shipped configuration: ten URLs, page 1 of both listings first. */
  lemma KuaidailiDefaultUrls()
    ensures |Expansion(KuaidailiSource.pages, KuaidailiSource.urls)| == 10
    ensures Expansion(KuaidailiSource.pages, KuaidailiSource.urls)[0] == "https://www.kuaidaili.com/free/inha/1/"
    ensures Expansion(KuaidailiSource.pages, KuaidailiSource.urls)[1] == "https://www.kuaidaili.com/free/intr/1/"
  {
    ExpansionLayout(5, KuaidailiTemplates);
    ExpansionAt(5, KuaidailiTemplates, 1, 0);
    ExpansionAt(5, KuaidailiTemplates, 1, 1);
    assert IntToString(1) == "1";
  }

  // ---------------------------------------------------------------------------
  // fetch_all
  // ---------------------------------------------------------------------------

  /** What `asyncio.gather(..., return_exceptions=True)` gives for one fetcher. */
  datatype TaskResult =
    | Listed(proxies: seq<Proxy>)  // the fetcher returned a list
    | NotAList                     // it raised (the exception object) or returned something else

  /** `all_proxies`: the listed results concatenated in task order. */
  function Gathered(results: seq<TaskResult>): seq<Proxy>
    decreases |results|
  {
    if |results| == 0 then []
    else
      var n := |results| - 1;
      Gathered(results[..n]) + (if results[n].Listed? then results[n].proxies else [])
  }

  /**
   * The key of each proxy, in order. The dedup below is stated for any key
   * function; `fetch_all` uses `proxy_url`.
   */
  function Keys(ps: seq<Proxy>, key: Proxy -> string): (ks: seq<string>)
    ensures |ks| == |ps| && forall i :: 0 <= i < |ps| ==> ks[i] == key(ps[i])
  {
    seq(|ps|, i requires 0 <= i < |ps| => key(ps[i]))
  }

  /** `list(unique_proxies.values())`: the first proxy seen for each key, in the order first seen. */
  function Dedup(ps: seq<Proxy>, key: Proxy -> string): seq<Proxy>
    decreases |ps|
  {
    if |ps| == 0 then []
    else
      var n := |ps| - 1;
      var d := Dedup(ps[..n], key);
      if key(ps[n]) in Keys(d, key) then d else d + [ps[n]]
  }

  /** The position `i` holds the first proxy of `ps` with its key. */
  ghost predicate FirstOfItsKey(ps: seq<Proxy>, key: Proxy -> string, i: int)
    requires 0 <= i < |ps|
  {
    forall j :: 0 <= j < i ==> key(ps[j]) != key(ps[i])
  }

  /** The reference list: the proxies at first-occurrence positions below `n`, in position order. */
  ghost function FirstOccurrences(ps: seq<Proxy>, key: Proxy -> string, n: nat): seq<Proxy>
    requires n <= |ps|
  {
    if n == 0 then []
    else FirstOccurrences(ps, key, n - 1) + (if FirstOfItsKey(ps, key, n - 1) then [ps[n - 1]] else [])
  }

  /** The keys kept are exactly the keys seen. */
  lemma {:induction false} DedupKeys(ps: seq<Proxy>, key: Proxy -> string)
    ensures forall k :: k in Keys(Dedup(ps, key), key) <==> k in Keys(ps, key)
    decreases |ps|
  {
    if |ps| > 0 {
      var n := |ps| - 1;
      DedupKeys(ps[..n], key);
      var d := Dedup(ps[..n], key);
      assert Keys(ps, key) == Keys(ps[..n], key) + [key(ps[n])];
      if key(ps[n]) !in Keys(d, key) {
        assert Keys(d + [ps[n]], key) == Keys(d, key) + [key(ps[n])];
      }
    }
  }

  /**
   * Dedup keeps, for every key, its first proxy, in the order of first
   * appearance: it is the list of first occurrences.
   */
  lemma {:induction false} DedupIsFirstOccurrences(ps: seq<Proxy>, key: Proxy -> string)
    ensures Dedup(ps, key) == FirstOccurrences(ps, key, |ps|)
    decreases |ps|
  {
    if |ps| > 0 {
      var n := |ps| - 1;
      var init := ps[..n];
      DedupIsFirstOccurrences(init, key);
      SamePrefixSameFirsts(ps, init, key, n);
      DedupKeys(init, key);
      var k := key(ps[n]);
      if FirstOfItsKey(ps, key, n) {
        assert k !in Keys(init, key) by {
          forall j | 0 <= j < n ensures Keys(init, key)[j] != k { assert init[j] == ps[j]; }
        }
      } else {
        var j :| 0 <= j < n && key(ps[j]) == k;
        assert Keys(init, key)[j] == k;
      }
    }
  }

  lemma {:induction false} SamePrefixSameFirsts(ps: seq<Proxy>, qs: seq<Proxy>, key: Proxy -> string, n: nat)
    requires n <= |ps| && n <= |qs| && ps[..n] == qs[..n]
    ensures FirstOccurrences(ps, key, n) == FirstOccurrences(qs, key, n)
    decreases n
  {
    if n > 0 {
      assert ps[..n - 1] == qs[..n - 1] by {
        assert ps[..n - 1] == ps[..n][..n - 1] && qs[..n - 1] == qs[..n][..n - 1];
      }
      SamePrefixSameFirsts(ps, qs, key, n - 1);
      assert ps[n - 1] == ps[..n][n - 1] == qs[..n][n - 1] == qs[n - 1];
      assert FirstOfItsKey(ps, key, n - 1) <==> FirstOfItsKey(qs, key, n - 1) by {
        forall j | 0 <= j < n - 1 ensures ps[j] == qs[j] {
          assert ps[j] == ps[..n][j] && qs[j] == qs[..n][j];
        }
      }
    }
  }

  /** No two proxies of the dedup share a key. */
  lemma {:induction false} DedupDistinct(ps: seq<Proxy>, key: Proxy -> string)
    ensures Distinct(Keys(Dedup(ps, key), key))
    decreases |ps|
  {
    if |ps| > 0 {
      var n := |ps| - 1;
      DedupDistinct(ps[..n], key);
      var d := Dedup(ps[..n], key);
      if key(ps[n]) !in Keys(d, key) {
        var ks := Keys(d + [ps[n]], key);
        forall i, j | 0 <= i < j < |ks| ensures ks[i] != ks[j] {
          if j == |ks| - 1 { assert ks[i] == Keys(d, key)[i]; }
          else { assert ks[i] == Keys(d, key)[i] && ks[j] == Keys(d, key)[j]; }
        }
      }
    }
  }

  /** `fetch_all()` after the gather: extend with every listed result, then keep one proxy per address. */
  method FetchAll(results: seq<TaskResult>) returns (finalProxies: seq<Proxy>)
    ensures finalProxies == Dedup(Gathered(results), ProxyUrl)
  {
    var allProxies: seq<Proxy> := [];
    var i := 0;
    while i < |results|
      invariant 0 <= i <= |results|
      invariant allProxies == Gathered(results[..i])
    {
      assert results[..i + 1][..i] == results[..i];
      if results[i].Listed? {
        allProxies := allProxies + results[i].proxies;
      }
      i := i + 1;
    }
    assert results[..i] == results;
    finalProxies := UniqueProxies(allProxies);
  }

  /** The second half of `fetch_all`: the `unique_proxies` dict filled in order, then its values. */
  method UniqueProxies(allProxies: seq<Proxy>) returns (finalProxies: seq<Proxy>)
    ensures finalProxies == Dedup(allProxies, ProxyUrl)
  {
    var uniqueProxies: map<string, Proxy> := map[];
    var keyOrder: seq<string> := [];
    var k := 0;
    while k < |allProxies|
      invariant 0 <= k <= |allProxies|
      invariant keyOrder == Keys(Dedup(allProxies[..k], ProxyUrl), ProxyUrl)
      invariant forall key :: key in uniqueProxies <==> key in keyOrder
      invariant forall j :: 0 <= j < |keyOrder| ==> uniqueProxies[keyOrder[j]] == Dedup(allProxies[..k], ProxyUrl)[j]
    {
      assert allProxies[..k + 1][..k] == allProxies[..k];
      var proxy := allProxies[k];
      var key := ProxyUrl(proxy);
      if key !in uniqueProxies {
        DedupDistinct(allProxies[..k], ProxyUrl);
        uniqueProxies := uniqueProxies[key := proxy];
        keyOrder := keyOrder + [key];
      }
      k := k + 1;
    }
    assert allProxies[..k] == allProxies;
    finalProxies := seq(|keyOrder|, j requires 0 <= j < |keyOrder| => uniqueProxies[keyOrder[j]]);
  }

  /** A result that is not a list adds nothing: dropping it changes nothing. */
  lemma {:induction false} FailuresContributeNothing(results: seq<TaskResult>)
    ensures Gathered(results) == Gathered(OnlyLists(results))
    decreases |results|
  {
    if |results| > 0 {
      var n := |results| - 1;
      FailuresContributeNothing(results[..n]);
      if results[n].Listed? {
        assert OnlyLists(results) == OnlyLists(results[..n]) + [results[n]];
        assert OnlyLists(results)[..|OnlyLists(results)| - 1] == OnlyLists(results[..n]);
      } else {
        assert OnlyLists(results) == OnlyLists(results[..n]);
      }
    }
  }

  /** The listed results alone, in order. */
  function OnlyLists(results: seq<TaskResult>): (r: seq<TaskResult>)
    ensures forall x :: x in r ==> x.Listed?
    decreases |results|
  {
    if |results| == 0 then []
    else
      var n := |results| - 1;
      OnlyLists(results[..n]) + (if results[n].Listed? then [results[n]] else [])
  }

  /** Every proxy of every listed result has its address in the output. */
  lemma EveryListedAddressKept(results: seq<TaskResult>, i: nat, p: Proxy)
    requires i < |results| && results[i].Listed? && p in results[i].proxies
    ensures ProxyUrl(p) in Keys(Dedup(Gathered(results), ProxyUrl), ProxyUrl)
  {
    GatheredHolds(results, i, p);
    DedupKeys(Gathered(results), ProxyUrl);
    var all := Gathered(results);
    var j :| 0 <= j < |all| && all[j] == p;
    assert Keys(all, ProxyUrl)[j] == ProxyUrl(p);
  }

  lemma {:induction false} GatheredHolds(results: seq<TaskResult>, i: nat, p: Proxy)
    requires i < |results| && results[i].Listed? && p in results[i].proxies
    ensures p in Gathered(results)
    decreases |results|
  {
    var n := |results| - 1;
    if i < n {
      GatheredHolds(results[..n], i, p);
    }
  }
}
