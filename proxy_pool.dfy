/**
 * `ProxyPool` (proxy_pool.py) as a class: the dictionary, its insertion
 * order and the ban-set are fields that the methods update in place. Each
 * mutator is proved to move the state exactly as the matching function of
 * PoolSpec does, so the lemmas proved there hold of every run of the class.
 */
module ProxyPoolStore {
  import opened Wrappers
  import opened ProxyEntry
  import opened PoolSpec
  import Ranking

  class ProxyPool {
    /** The `config` dictionary the pool was built with. */
    const cfg: Config
    /** `self.proxies`; `order` is the order in which its keys were inserted. */
    var proxies: map<string, Proxy>
    var order: seq<string>
    /** `self.banned_proxies`. */
    var banned: set<string>

    function State(): Pool
      reads this
    {
      Pool(proxies, order, banned)
    }

    ghost predicate Valid()
      reads this
    {
      WellFormed(State())
    }

    /** `ProxyPool(config)`: an empty pool and an empty ban-set. */
    constructor (cfg: Config)
      ensures this.cfg == cfg && State() == EmptyPool && Valid()
    {
      this.cfg := cfg;
      proxies := map[];
      order := [];
      banned := {};
    }

    /** `add_proxy(proxy)`. */
    method AddProxy(p: Proxy) returns (r: AddResult)
      requires Valid()
      modifies this
      ensures Valid()
      ensures (r, State()) == Add(cfg, old(State()), p)
    {
      AddWellFormed(cfg, State(), p);
      var key := ProxyUrl(p);
      if key in banned {
        return Returned(false);
      }
      if |order| >= cfg.maxSize {
        if |order| == 0 {
          return MinOfEmptyRaised;
        }
        var victim := Victim(State());
        proxies := proxies - {victim};
        order := Erase(order, victim);
      }
      if key in proxies {
        proxies := proxies[key := Merge(proxies[key], p)];
        return Returned(true);
      }
      proxies := proxies[key := p];
      order := order + [key];
      r := Returned(true);
    }

    /** `remove_proxy(key)`. */
    method RemoveProxy(key: string)
      requires Indexed(State())
      modifies this
      ensures Indexed(State())
      ensures State() == Remove(old(State()), key)
    {
      RemoveIndexed(State(), key);
      if key in proxies {
        proxies := proxies - {key};
        order := Erase(order, key);
      }
    }

    /** `ban_proxy(key)`. */
    method BanProxy(key: string)
      requires Valid()
      modifies this
      ensures Valid()
      ensures State() == Ban(old(State()), key)
    {
      BanEffect(State(), key);
      banned := banned + {key};
      RemoveProxy(key);
    }

    /** `update_proxy_score(key, success, response_time)`, with `datetime.now()` passed in as `now`. */
    method UpdateProxyScore(key: string, success: bool, responseTime: real, now: Instant)
      requires Valid()
      modifies this
      ensures Valid()
      ensures State() == UpdateScore(cfg, old(State()), key, success, responseTime, now)
    {
      UpdateWellFormed(cfg, State(), key, success, responseTime, now);
      if key !in proxies {
        return;
      }
      var p := proxies[key];
      if success {
        p := p.(successCount := p.successCount + 1, lastSuccessTime := Some(now), responseTime := responseTime);
        p := p.(score := Min(1.0, p.score + 0.1));
      } else {
        p := p.(failCount := p.failCount + 1, lastFailTime := Some(now));
        p := p.(score := Max(0.0, p.score - 0.2));
      }
      ReplaceKeeps(State(), key, p);
      proxies := proxies[key := p];
      if p.failCount >= cfg.banThreshold {
        BanProxy(key);
      }
    }

    /** `decay_scores()`: one pass over the dictionary, scaling each score. */
    method DecayScores()
      requires Valid()
      modifies this
      ensures Valid()
      ensures State() == Decay(cfg, old(State()))
    {
      ghost var s0 := State();
      var scaled := proxies;
      var i := 0;
      while i < |order|
        invariant 0 <= i <= |order|
        invariant scaled.Keys == proxies.Keys
        invariant forall j :: 0 <= j < i ==> scaled[order[j]] == Decayed(cfg, proxies[order[j]])
        invariant forall j :: i <= j < |order| ==> scaled[order[j]] == proxies[order[j]]
      {
        var k := order[i];
        scaled := scaled[k := Decayed(cfg, scaled[k])];
        i := i + 1;
      }
      EveryPositionDecayed(cfg, s0, scaled);
      proxies := scaled;
      DecayEffect(cfg, s0);
    }

    /**
     * `batch_health_check()`: each entry gets the timestamp its own probe
     * wrote; `outcome(k)` is what the probe of the entry filed under `k` did.
     * The probes write disjoint entries, so the order they finish in does not
     * matter.
     */
    method BatchHealthCheck(outcome: string -> Probe)
      requires Valid()
      modifies this
      ensures Valid()
      ensures State() == HealthChecked(old(State()), outcome)
    {
      ghost var s0 := State();
      HealthCheckedEffect(s0, outcome);
      if |order| == 0 {
        assert proxies == HealthChecked(s0, outcome).proxies;
        return;
      }
      var i := 0;
      while i < |order|
        invariant 0 <= i <= |order|
        invariant order == s0.order && banned == s0.banned && proxies.Keys == s0.proxies.Keys
        modifies this`proxies
        invariant forall j :: 0 <= j < i ==> proxies[order[j]] == Probed(s0.proxies[order[j]], outcome(order[j]))
        invariant forall j :: i <= j < |order| ==> proxies[order[j]] == s0.proxies[order[j]]
      {
        var k := order[i];
        proxies := proxies[k := Probed(proxies[k], outcome(k))];
        i := i + 1;
      }
      EveryPositionProbed(s0, outcome, proxies);
    }

    /**
     * `get_best_proxies(count)`: valid pool entries only, at most `count` of
     * them, ranked by (score, success_rate) from the highest down; every
     * valid entry left out ranks no higher than every entry returned, and
     * with `count` at least the number of valid entries all of them are
     * returned.
     */
    function GetBestProxies(count: int): (r: seq<Proxy>)
      reads this
      requires Covered(State())
      ensures r == BestProxies(State(), count)
      ensures count >= 0 ==> |r| <= count
      ensures forall p :: p in r ==> p in Entries(State()) && IsValid(p)
      ensures Ranking.SortedDesc(r)
      ensures forall p, q :: p in multiset(ValidProxies(State())) - multiset(r) && q in r ==> Ranking.KeyAtLeast(q, p)
      ensures count >= |ValidProxies(State())| ==> multiset(r) == multiset(ValidProxies(State()))
    {
      var es := Entries(State());
      Ranking.BestAreValidMembers(es, count);
      Ranking.BestIsSorted(es, count);
      Ranking.BestDominatesLeftOut(es, count);
      BestProxies(State(), count)
    }

    /**
     * `get_random_proxy()`: `random.choice` over the valid entries, as a
     * choice the model leaves open. None exactly when no entry is valid.
     */
    method GetRandomProxy() returns (r: Option<Proxy>)
      requires Valid()
      ensures r.None? <==> (forall k :: k in proxies ==> !IsValid(proxies[k]))
      ensures r.Some? ==> r.value in ValidProxies(State()) && r.value in proxies.Values && IsValid(r.value)
    {
      var valid := ValidProxies(State());
      ValidProxiesAreEntries(State());
      if |valid| == 0 {
        return None;
      }
      assert valid[0] in valid;
      var p :| p in valid;
      r := Some(p);
    }

    /** `get_statistics()`. */
    function GetStatistics(): (st: Stats)
      reads this
      requires Valid()
      ensures st == Statistics(State())
      ensures st.totalProxies == |order| && st.validProxies <= st.totalProxies && st.bannedProxies == |banned|
      ensures st.validProxies == |ValidProxies(State())|
      ensures st.validProxies == |set k | k in proxies && IsValid(proxies[k])|
      ensures 0.0 <= st.successRate <= 1.0
      ensures |order| == 0 ==> st.successRate == 0.0 && st.avgScore == 0.0
      ensures ScoresInUnit(State()) ==> 0.0 <= st.avgScore <= 1.0
    {
      StatisticsCounts(State());
      StatisticsRateAverage(State());
      StatisticsScoreAverage(State());
      Statistics(State())
    }
  }
}
