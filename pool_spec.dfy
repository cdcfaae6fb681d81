/**
 * The state of a `ProxyPool` (proxy_pool.py) as a value, with one function
 * per operation. The class in proxy_pool.dfy is proved to follow these
 * functions step by step; the lemmas here state what the operations promise.
 */
module PoolSpec {
  import opened Wrappers
  import opened Text
  import opened ProxyEntry
  import Ranking

  /** The entries of the `config` dictionary the pool reads. */
  datatype Config = Config(maxSize: int, scoreDecay: real, banThreshold: int)

  /** `PROXY_POOL_CONFIG` of config.py: max_size 1000, score_decay 0.95, ban_threshold 3. */
  const DefaultConfig: Config := Config(1000, 0.95, 3)

  /**
   * `self.proxies` (a dictionary, whose iteration order is `order`, the order
   * in which its keys were inserted) and `self.banned_proxies`.
   */
  datatype Pool = Pool(proxies: map<string, Proxy>, order: seq<string>, banned: set<string>)

  /** The state `ProxyPool.__init__` leaves. */
  const EmptyPool: Pool := Pool(map[], [], {})

  /**
   * The dictionary and its order agree: the order lists each key once,
   * exactly the dictionary's keys, and every proxy is filed under its own
   * `proxy_url`.
   */
  ghost predicate Indexed(s: Pool) {
    && Distinct(s.order)
    && (forall k :: k in s.proxies <==> k in s.order)
    && (forall k {:trigger ProxyUrl(s.proxies[k])} :: k in s.proxies ==> ProxyUrl(s.proxies[k]) == k)
  }

  /** What every operation keeps: an indexed dictionary, and no banned key in it. */
  ghost predicate WellFormed(s: Pool) {
    Indexed(s) && (forall k :: k in s.banned ==> k !in s.proxies)
  }

  /** Every score lies in [0, 1]. */
  ghost predicate ScoresInUnit(s: Pool) {
    forall k :: k in s.proxies ==> 0.0 <= s.proxies[k].score <= 1.0
  }

  predicate Covered(s: Pool) {
    forall i :: 0 <= i < |s.order| ==> s.order[i] in s.proxies
  }

  /** `self.proxies.values()`, in dictionary order. */
  function Entries(s: Pool): (es: seq<Proxy>)
    requires Covered(s)
    ensures |es| == |s.order|
    ensures forall i :: 0 <= i < |es| ==> es[i] == s.proxies[s.order[i]]
  {
    seq(|s.order|, i requires 0 <= i < |s.order| => s.proxies[s.order[i]])
  }

  /** `len(self.proxies)`. */
  function Size(s: Pool): nat {
    |s.order|
  }

  lemma {:induction false} DistinctCount(xs: seq<string>)
    requires Distinct(xs)
    ensures |set x | x in xs| == |xs|
    decreases |xs|
  {
    if |xs| > 0 {
      var tail := xs[1..];
      assert Distinct(tail) by {
        forall i, j | 0 <= i < j < |tail| ensures tail[i] != tail[j] { assert tail[i] == xs[i + 1] && tail[j] == xs[j + 1]; }
      }
      DistinctCount(tail);
      assert xs[0] !in tail by {
        forall j | 0 <= j < |tail| ensures tail[j] != xs[0] { assert tail[j] == xs[j + 1]; }
      }
      assert (set x | x in xs) == (set x | x in tail) + {xs[0]} by {
        assert xs == [xs[0]] + tail;
      }
    }
  }

  /** The order has as many entries as the dictionary has keys. */
  lemma SizeIsKeyCount(s: Pool)
    requires WellFormed(s)
    ensures |s.proxies| == Size(s)
  {
    DistinctCount(s.order);
    assert s.proxies.Keys == set x | x in s.order;
  }

  // ---------------------------------------------------------------------------
  // deleting a key from the insertion order
  // ---------------------------------------------------------------------------

  /** The insertion order once `k` is deleted from the dictionary. */
  function Erase(xs: seq<string>, k: string): (r: seq<string>)
    ensures forall x :: x in r <==> x in xs && x != k
    ensures |r| <= |xs|
    ensures k !in xs ==> r == xs
    decreases |xs|
  {
    if |xs| == 0 then []
    else if xs[0] == k then Erase(xs[1..], k)
    else
      assert xs == [xs[0]] + xs[1..];
      [xs[0]] + Erase(xs[1..], k)
  }

  lemma {:induction false} EraseDistinct(xs: seq<string>, k: string)
    requires Distinct(xs)
    ensures Distinct(Erase(xs, k))
    ensures k in xs ==> |Erase(xs, k)| == |xs| - 1
    decreases |xs|
  {
    if |xs| > 0 {
      var tail := xs[1..];
      assert Distinct(tail) by {
        forall i, j | 0 <= i < j < |tail| ensures tail[i] != tail[j] { assert tail[i] == xs[i + 1] && tail[j] == xs[j + 1]; }
      }
      assert xs[0] !in tail by {
        forall j | 0 <= j < |tail| ensures tail[j] != xs[0] { assert tail[j] == xs[j + 1]; }
      }
      EraseDistinct(tail, k);
      if xs[0] != k {
        var r := Erase(tail, k);
        assert xs[0] !in r;
        forall i, j | 0 <= i < j < |[xs[0]] + r| ensures ([xs[0]] + r)[i] != ([xs[0]] + r)[j] {
          if i > 0 { assert ([xs[0]] + r)[i] == r[i - 1]; }
          assert ([xs[0]] + r)[j] == r[j - 1];
        }
      }
    }
  }

  lemma DistinctTail(xs: seq<string>)
    requires Distinct(xs) && |xs| > 0
    ensures Distinct(xs[1..]) && xs[0] !in xs[1..]
  {
    var tail := xs[1..];
    forall a, b | 0 <= a < b < |tail| ensures tail[a] != tail[b] { assert tail[a] == xs[a + 1] && tail[b] == xs[b + 1]; }
    forall j | 0 <= j < |tail| ensures tail[j] != xs[0] { assert tail[j] == xs[j + 1]; }
  }

  /** `del d[k]` keeps the other keys in their insertion order: the order loses exactly position `i`. */
  lemma {:induction false} EraseAt(xs: seq<string>, i: nat)
    requires Distinct(xs) && i < |xs|
    ensures Erase(xs, xs[i]) == xs[..i] + xs[i + 1..]
    decreases i
  {
    var tail := xs[1..];
    DistinctTail(xs);
    if i > 0 {
      var k := xs[i];
      assert tail[i - 1] == k && xs[0] != k;
      EraseAt(tail, i - 1);
      assert Erase(xs, k) == [xs[0]] + Erase(tail, k);
      assert tail[..i - 1] == xs[1..i] && tail[i..] == xs[i + 1..];
      assert xs[..i] == [xs[0]] + xs[1..i];
    }
  }

  // ---------------------------------------------------------------------------
  // add_proxy
  // ---------------------------------------------------------------------------

  /**
   * `min(values, key=lambda p: p.score)`: the position of the first proxy
   * with the lowest score.
   */
  function FirstMinIndex(es: seq<Proxy>): (i: nat)
    requires |es| > 0
    ensures i < |es|
    ensures forall j :: 0 <= j < |es| ==> es[i].score <= es[j].score
    ensures forall j :: 0 <= j < i ==> es[j].score > es[i].score
    decreases |es|
  {
    if |es| == 1 then 0
    else
      var i := FirstMinIndex(es[..|es| - 1]);
      assert es[i] == es[..|es| - 1][i];
      if es[|es| - 1].score < es[i].score then |es| - 1 else i
  }

  /** The key `add_proxy` deletes when the pool is full. */
  function Victim(s: Pool): string
    requires Covered(s) && |s.order| > 0
  {
    ProxyUrl(Entries(s)[FirstMinIndex(Entries(s))])
  }

  /** The victim is a key of the pool with the lowest score, the first such in insertion order. */
  lemma VictimIsFirstMinimum(s: Pool)
    requires WellFormed(s) && |s.order| > 0
    ensures Victim(s) in s.proxies
    ensures forall k :: k in s.proxies ==> s.proxies[Victim(s)].score <= s.proxies[k].score
    ensures forall j :: 0 <= j < |s.order| && s.order[j] != Victim(s)
              && s.proxies[s.order[j]].score == s.proxies[Victim(s)].score
              ==> exists i :: 0 <= i < j && s.order[i] == Victim(s)
  {
    var es := Entries(s);
    var i := FirstMinIndex(es);
    assert Victim(s) == s.order[i];
    forall k | k in s.proxies ensures s.proxies[Victim(s)].score <= s.proxies[k].score {
      var j :| 0 <= j < |s.order| && s.order[j] == k;
      assert es[j] == s.proxies[k];
    }
    forall j | 0 <= j < |s.order| && s.order[j] != Victim(s)
         && s.proxies[s.order[j]].score == s.proxies[Victim(s)].score
      ensures exists i' :: 0 <= i' < j && s.order[i'] == Victim(s)
    {
      assert es[j] == s.proxies[s.order[j]];
      assert j != i;
      assert 0 <= i < j && s.order[i] == Victim(s);
    }
  }

  /** `del self.proxies[min_score_proxy.proxy_url]`. */
  function Evict(s: Pool): Pool
    requires Covered(s) && |s.order| > 0
  {
    var victim := Victim(s);
    s.(proxies := s.proxies - {victim}, order := Erase(s.order, victim))
  }

  /**
   * The fields a re-add copies from the incoming proxy onto the one already
   * filed; score, address and classification stay as they were.
   */
  function Merge(existing: Proxy, incoming: Proxy): Proxy {
    existing.(successCount := incoming.successCount,
              failCount := incoming.failCount,
              responseTime := incoming.responseTime,
              lastSuccessTime := incoming.lastSuccessTime,
              lastFailTime := incoming.lastFailTime)
  }

  /** What `add_proxy` returns, or the `ValueError` that `min()` raises over an empty dictionary. */
  datatype AddResult = Returned(added: bool) | MinOfEmptyRaised

  /**
   * `add_proxy(p)`: a banned key is refused; a full pool first deletes its
   * first lowest-scored entry (before looking for `p`'s key, so a re-add can
   * shrink the pool or evict its own key); then a present key is merged in
   * place and a new key is inserted last.
   */
  function Add(cfg: Config, s: Pool, p: Proxy): (AddResult, Pool)
    requires Covered(s)
  {
    var key := ProxyUrl(p);
    if key in s.banned then (Returned(false), s)
    else if |s.order| >= cfg.maxSize && |s.order| == 0 then (MinOfEmptyRaised, s)
    else
      var t := if |s.order| >= cfg.maxSize then Evict(s) else s;
      (Returned(true), Admit(t, p))
  }

  /** The second half of `add_proxy`: a present key is merged in place, a new key is inserted last. */
  function Admit(t: Pool, p: Proxy): Pool {
    var key := ProxyUrl(p);
    if key in t.proxies then t.(proxies := t.proxies[key := Merge(t.proxies[key], p)])
    else t.(proxies := t.proxies[key := p], order := t.order + [key])
  }

  lemma EvictWellFormed(s: Pool)
    requires WellFormed(s) && |s.order| > 0
    ensures WellFormed(Evict(s))
    ensures Size(Evict(s)) == Size(s) - 1
    ensures Evict(s).proxies.Keys == s.proxies.Keys - {Victim(s)}
    ensures Evict(s).banned == s.banned
    ensures forall k :: k in Evict(s).proxies ==> Evict(s).proxies[k] == s.proxies[k]
    ensures var i := FirstMinIndex(Entries(s)); Evict(s).order == s.order[..i] + s.order[i + 1..]
  {
    VictimIsFirstMinimum(s);
    EraseDistinct(s.order, Victim(s));
    EraseAt(s.order, FirstMinIndex(Entries(s)));
  }

  lemma AdmitWellFormed(t: Pool, p: Proxy)
    requires WellFormed(t) && ProxyUrl(p) !in t.banned
    ensures WellFormed(Admit(t, p))
    ensures Admit(t, p).banned == t.banned
    ensures Admit(t, p).proxies.Keys == t.proxies.Keys + {ProxyUrl(p)}
    ensures Size(Admit(t, p)) == if ProxyUrl(p) in t.proxies then Size(t) else Size(t) + 1
  {
    var key := ProxyUrl(p);
    if key in t.proxies {
      var m := Merge(t.proxies[key], p);
      assert ProxyUrl(m) == ProxyUrl(t.proxies[key]);
    } else {
      var order := t.order + [key];
      assert key !in t.order;
      forall i, j | 0 <= i < j < |order| ensures order[i] != order[j] {
        if j == |order| - 1 { assert order[i] in t.order; }
      }
    }
  }

  /** A merge keeps the stored score and an insert brings the incoming one. */
  lemma AdmitScoresInUnit(t: Pool, p: Proxy)
    requires ScoresInUnit(t) && 0.0 <= p.score <= 1.0
    ensures ScoresInUnit(Admit(t, p))
  {
  }

  lemma AddWellFormed(cfg: Config, s: Pool, p: Proxy)
    requires WellFormed(s)
    ensures WellFormed(Add(cfg, s, p).1)
    ensures Add(cfg, s, p).1.banned == s.banned
  {
    var key := ProxyUrl(p);
    if key !in s.banned && !(|s.order| >= cfg.maxSize && |s.order| == 0) {
      if |s.order| >= cfg.maxSize {
        EvictWellFormed(s);
        AdmitWellFormed(Evict(s), p);
      } else {
        AdmitWellFormed(s, p);
      }
    }
  }

  /** A banned key is refused and nothing changes. */
  lemma AddRefusesBanned(cfg: Config, s: Pool, p: Proxy)
    requires Covered(s) && ProxyUrl(p) in s.banned
    ensures Add(cfg, s, p) == (Returned(false), s)
  {
  }

  /**
   * With a capacity of at least one, an add keeps the pool within its
   * capacity and never raises; a key already present never makes it grow.
   */
  lemma AddRespectsCapacity(cfg: Config, s: Pool, p: Proxy)
    requires WellFormed(s) && cfg.maxSize >= 1 && Size(s) <= cfg.maxSize
    ensures Add(cfg, s, p).0 != MinOfEmptyRaised
    ensures Size(Add(cfg, s, p).1) <= cfg.maxSize
    ensures ProxyUrl(p) in s.proxies ==> Size(Add(cfg, s, p).1) <= Size(s)
  {
    if |s.order| >= cfg.maxSize && ProxyUrl(p) !in s.banned {
      EvictWellFormed(s);
    }
  }

  /**
   * A full pool loses exactly its first lowest-scored key (its victim) and
   * then holds the incoming key.
   */
  lemma AddAtCapacity(cfg: Config, s: Pool, p: Proxy)
    requires WellFormed(s) && |s.order| > 0 && Size(s) >= cfg.maxSize && ProxyUrl(p) !in s.banned
    ensures Add(cfg, s, p).0 == Returned(true)
    ensures Add(cfg, s, p).1.proxies.Keys == s.proxies.Keys - {Victim(s)} + {ProxyUrl(p)}
    ensures Victim(s) == ProxyUrl(p) ==> Add(cfg, s, p).1.proxies[ProxyUrl(p)] == p
  {
    EvictWellFormed(s);
  }

  /**
   * A re-add of a key that the call does not evict keeps the stored proxy's
   * score, address and classification and overwrites its counters, latency and
   * timestamps with the incoming ones (no summing); no key is added.
   */
  lemma AddMergesPresentKey(cfg: Config, s: Pool, p: Proxy)
    requires WellFormed(s) && ProxyUrl(p) in s.proxies
    requires Size(s) >= cfg.maxSize ==> |s.order| > 0 && Victim(s) != ProxyUrl(p)
    ensures Add(cfg, s, p).0 == Returned(true)
    ensures var (key, old_, new_) := (ProxyUrl(p), s.proxies[ProxyUrl(p)], Add(cfg, s, p).1.proxies[ProxyUrl(p)]);
      && new_.score == old_.score && new_.ip == old_.ip && new_.port == old_.port
      && new_.country == old_.country && new_.anonymity == old_.anonymity && new_.proxyType == old_.proxyType
      && new_.successCount == p.successCount && new_.failCount == p.failCount
      && new_.responseTime == p.responseTime
      && new_.lastSuccessTime == p.lastSuccessTime && new_.lastFailTime == p.lastFailTime
    ensures Size(s) < cfg.maxSize ==> Add(cfg, s, p).1.order == s.order
  {
    assert ProxyUrl(p) !in s.banned;
    if Size(s) >= cfg.maxSize { EvictWellFormed(s); }
  }

  /** A new key under capacity is filed last, as the incoming proxy itself. */
  lemma AddInsertsNewKey(cfg: Config, s: Pool, p: Proxy)
    requires Covered(s) && ProxyUrl(p) !in s.proxies && ProxyUrl(p) !in s.banned && Size(s) < cfg.maxSize
    ensures Add(cfg, s, p) == (Returned(true), Pool(s.proxies[ProxyUrl(p) := p], s.order + [ProxyUrl(p)], s.banned))
  {
  }

  // ---------------------------------------------------------------------------
  // remove_proxy, ban_proxy, update_proxy_score, decay_scores
  // ---------------------------------------------------------------------------

  /** `remove_proxy(key)`: deletes the key if present. */
  function Remove(s: Pool, key: string): Pool {
    if key in s.proxies then s.(proxies := s.proxies - {key}, order := Erase(s.order, key)) else s
  }

  /** `ban_proxy(key)`: adds the key to the ban-set, then removes it. */
  function Ban(s: Pool, key: string): Pool {
    Remove(s.(banned := s.banned + {key}), key)
  }

  lemma RemoveIndexed(s: Pool, key: string)
    requires Indexed(s)
    ensures Indexed(Remove(s, key))
  {
    EraseDistinct(s.order, key);
  }

  lemma RemoveWellFormed(s: Pool, key: string)
    requires WellFormed(s)
    ensures WellFormed(Remove(s, key))
    ensures Remove(s, key).proxies.Keys == s.proxies.Keys - {key}
    ensures Remove(s, key).banned == s.banned
    ensures forall k :: k in Remove(s, key).proxies ==> Remove(s, key).proxies[k] == s.proxies[k]
    ensures forall i :: 0 <= i < |s.order| && s.order[i] == key ==> Remove(s, key).order == s.order[..i] + s.order[i + 1..]
    ensures key !in s.proxies ==> Remove(s, key) == s
  {
    EraseDistinct(s.order, key);
    forall i | 0 <= i < |s.order| && s.order[i] == key
      ensures Remove(s, key).order == s.order[..i] + s.order[i + 1..]
    {
      EraseAt(s.order, i);
    }
  }

  /** After a ban the key is banned and no longer in the pool; nothing else changes. */
  lemma BanEffect(s: Pool, key: string)
    requires WellFormed(s)
    ensures WellFormed(Ban(s, key))
    ensures Ban(s, key).banned == s.banned + {key}
    ensures key !in Ban(s, key).proxies
    ensures Ban(s, key).proxies == s.proxies - {key}
    ensures forall i :: 0 <= i < |s.order| && s.order[i] == key ==> Ban(s, key).order == s.order[..i] + s.order[i + 1..]
    ensures key !in s.proxies ==> Ban(s, key).order == s.order
  {
    EraseDistinct(s.order, key);
    forall i | 0 <= i < |s.order| && s.order[i] == key
      ensures Ban(s, key).order == s.order[..i] + s.order[i + 1..]
    {
      EraseAt(s.order, i);
    }
  }

  function Min(a: real, b: real): real { if a <= b then a else b }
  function Max(a: real, b: real): real { if a >= b then a else b }

  /** The fields `update_proxy_score` sets on the stored proxy for one outcome at instant `now`. */
  function Scored(p: Proxy, success: bool, responseTime: real, now: Instant): Proxy {
    if success then
      p.(successCount := p.successCount + 1, lastSuccessTime := Some(now),
         responseTime := responseTime, score := Min(1.0, p.score + 0.1))
    else
      p.(failCount := p.failCount + 1, lastFailTime := Some(now), score := Max(0.0, p.score - 0.2))
  }

  /**
   * One outcome moves the score up by 0.1 or down by 0.2, clamped: a score in
   * [0, 1] stays there, a success never lowers it and a failure never raises it.
   */
  lemma ScoredStaysInUnit(p: Proxy, success: bool, responseTime: real, now: Instant)
    requires 0.0 <= p.score <= 1.0
    ensures var q := Scored(p, success, responseTime, now);
      && 0.0 <= q.score <= 1.0
      && (success ==> q.score >= p.score && q.score == (if p.score + 0.1 <= 1.0 then p.score + 0.1 else 1.0))
      && (!success ==> q.score <= p.score && q.score == (if p.score - 0.2 >= 0.0 then p.score - 0.2 else 0.0))
  {
  }

  /**
   * `update_proxy_score(key, success, response_time)`: nothing for an absent
   * key; otherwise the outcome is recorded, and the key is banned if its
   * failure count has reached the threshold, whatever the outcome was.
   */
  function UpdateScore(cfg: Config, s: Pool, key: string, success: bool, responseTime: real, now: Instant): Pool {
    if key !in s.proxies then s
    else
      var p := Scored(s.proxies[key], success, responseTime, now);
      var t := s.(proxies := s.proxies[key := p]);
      if p.failCount >= cfg.banThreshold then Ban(t, key) else t
  }

  /** Refiling a present key with a proxy of the same address keeps the pool well formed. */
  lemma ReplaceKeeps(s: Pool, key: string, q: Proxy)
    requires WellFormed(s) && key in s.proxies && q.ip == s.proxies[key].ip && q.port == s.proxies[key].port
    ensures var t := s.(proxies := s.proxies[key := q]);
      && WellFormed(t) && t.proxies.Keys == s.proxies.Keys
      && (ScoresInUnit(s) && 0.0 <= q.score <= 1.0 ==> ScoresInUnit(t))
  {
    assert ProxyUrl(s.proxies[key]) == key;
  }

  lemma UpdateWellFormed(cfg: Config, s: Pool, key: string, success: bool, responseTime: real, now: Instant)
    requires WellFormed(s)
    ensures WellFormed(UpdateScore(cfg, s, key, success, responseTime, now))
  {
    if key in s.proxies {
      var p := Scored(s.proxies[key], success, responseTime, now);
      ReplaceKeeps(s, key, p);
      if p.failCount >= cfg.banThreshold { BanEffect(s.(proxies := s.proxies[key := p]), key); }
    }
  }

  /**
   * The effect of one outcome on a present key: the counters, timestamps and
   * score of `Scored`, or a ban once the failure count reaches the threshold.
   */
  lemma UpdateEffect(cfg: Config, s: Pool, key: string, success: bool, responseTime: real, now: Instant)
    requires WellFormed(s) && key in s.proxies
    ensures var q := Scored(s.proxies[key], success, responseTime, now);
      var s' := UpdateScore(cfg, s, key, success, responseTime, now);
      && (q.failCount >= cfg.banThreshold ==>
            key in s'.banned && key !in s'.proxies && s'.proxies == s.proxies - {key})
      && (q.failCount < cfg.banThreshold ==>
            s'.proxies == s.proxies[key := q] && s'.order == s.order && s'.banned == s.banned)
      && (success ==> q.successCount == s.proxies[key].successCount + 1 && q.failCount == s.proxies[key].failCount
                      && q.lastSuccessTime == Some(now) && q.responseTime == responseTime)
      && (!success ==> q.failCount == s.proxies[key].failCount + 1 && q.successCount == s.proxies[key].successCount
                       && q.lastFailTime == Some(now))
  {
    var p := s.proxies[key];
    var q := Scored(p, success, responseTime, now);
    ScoredCounters(p, success, responseTime, now);
    var t := s.(proxies := s.proxies[key := q]);
    assert UpdateScore(cfg, s, key, success, responseTime, now) == if q.failCount >= cfg.banThreshold then Ban(t, key) else t;
    Refiled(cfg, s, key, q);
  }

  /** Refiling `q` under a present key, then banning it when its failures reach the threshold. */
  lemma Refiled(cfg: Config, s: Pool, key: string, q: Proxy)
    requires key in s.proxies
    ensures var t := s.(proxies := s.proxies[key := q]);
      var s' := if q.failCount >= cfg.banThreshold then Ban(t, key) else t;
      && (q.failCount >= cfg.banThreshold ==>
            key in s'.banned && key !in s'.proxies && s'.proxies == s.proxies - {key})
      && (q.failCount < cfg.banThreshold ==>
            s'.proxies == s.proxies[key := q] && s'.order == s.order && s'.banned == s.banned)
  {
    var t := s.(proxies := s.proxies[key := q]);
    assert t.proxies - {key} == s.proxies - {key};
  }

  /** The counters and timestamps one outcome sets. */
  lemma ScoredCounters(p: Proxy, success: bool, responseTime: real, now: Instant)
    ensures var q := Scored(p, success, responseTime, now);
      && q.ip == p.ip && q.port == p.port
      && (success ==> q.successCount == p.successCount + 1 && q.failCount == p.failCount
                      && q.lastSuccessTime == Some(now) && q.responseTime == responseTime)
      && (!success ==> q.failCount == p.failCount + 1 && q.successCount == p.successCount
                       && q.lastFailTime == Some(now))
  {
  }

  /** An absent key leaves the pool as it is. */
  lemma UpdateAbsentKey(cfg: Config, s: Pool, key: string, success: bool, responseTime: real, now: Instant)
    requires key !in s.proxies
    ensures UpdateScore(cfg, s, key, success, responseTime, now) == s
  {
  }

  /** One proxy after `proxy.score *= decay_factor`. */
  function Decayed(cfg: Config, p: Proxy): Proxy {
    p.(score := p.score * cfg.scoreDecay)
  }

  /** `decay_scores()`: every score multiplied by `score_decay`, nothing else touched. */
  function Decay(cfg: Config, s: Pool): Pool {
    s.(proxies := map k | k in s.proxies :: Decayed(cfg, s.proxies[k]))
  }

  lemma DecayEffect(cfg: Config, s: Pool)
    requires WellFormed(s)
    ensures WellFormed(Decay(cfg, s))
    ensures Decay(cfg, s).proxies.Keys == s.proxies.Keys
    ensures Decay(cfg, s).order == s.order && Decay(cfg, s).banned == s.banned
    ensures forall k :: k in s.proxies ==>
      Decay(cfg, s).proxies[k] == s.proxies[k].(score := s.proxies[k].score * cfg.scoreDecay)
  {
    var d := Decay(cfg, s);
    assert d.proxies.Keys == s.proxies.Keys;
    assert d.order == s.order && d.banned == s.banned;
    forall k | k in d.proxies ensures ProxyUrl(d.proxies[k]) == k {
      assert d.proxies[k] == Decayed(cfg, s.proxies[k]);
      assert ProxyUrl(d.proxies[k]) == ProxyUrl(s.proxies[k]);
    }
    assert Indexed(d);
  }

  /** A dictionary that holds, at every key of the order, that key's decayed entry is the decayed dictionary. */
  lemma EveryPositionDecayed(cfg: Config, s: Pool, m: map<string, Proxy>)
    requires WellFormed(s) && m.Keys == s.proxies.Keys
    requires forall j :: 0 <= j < |s.order| ==> m[s.order[j]] == Decayed(cfg, s.proxies[s.order[j]])
    ensures m == Decay(cfg, s).proxies
  {
    forall k | k in m ensures m[k] == Decay(cfg, s).proxies[k] {
      var j :| 0 <= j < |s.order| && s.order[j] == k;
    }
  }

  /** A decay factor in [0, 1] keeps every score in [0, 1]. */
  lemma DecayScoresInUnit(cfg: Config, s: Pool)
    requires ScoresInUnit(s) && 0.0 <= cfg.scoreDecay <= 1.0
    ensures ScoresInUnit(Decay(cfg, s))
  {
    var d := Decay(cfg, s);
    forall k | k in d.proxies ensures 0.0 <= d.proxies[k].score <= 1.0 {
      var x := s.proxies[k].score;
      ProductNonNegative(x, cfg.scoreDecay);
      ProductNonNegative(x, 1.0 - cfg.scoreDecay);
      assert x * cfg.scoreDecay == x - x * (1.0 - cfg.scoreDecay);
    }
  }

  // ---------------------------------------------------------------------------
  // batch_health_check
  // ---------------------------------------------------------------------------

  /**
   * What one `health_check` did to the entry it probed: a reply with status
   * 200 recorded at an instant, no such reply from any test URL recorded at
   * an instant, or an exception that `gather` returned in place of a result,
   * which wrote nothing.
   */
  datatype Probe = Reached(at: Instant) | Unreached(at: Instant) | Crashed

  /** The entry after its probe: only the timestamp of the outcome is written. */
  function Probed(p: Proxy, r: Probe): Proxy {
    match r
    case Reached(t) => p.(lastSuccessTime := Some(t))
    case Unreached(t) => p.(lastFailTime := Some(t))
    case Crashed => p
  }

  /**
   * `batch_health_check()`: every entry carries what its own probe wrote;
   * `outcome(k)` is the probe of the entry filed under `k`. No score or
   * counter is updated.
   */
  function HealthChecked(s: Pool, outcome: string -> Probe): Pool {
    s.(proxies := map k | k in s.proxies :: Probed(s.proxies[k], outcome(k)))
  }

  /**
   * The batch check keeps the pool's keys, order and bans, and changes each
   * entry in the timestamp of its probe's outcome and in nothing else.
   */
  lemma HealthCheckedEffect(s: Pool, outcome: string -> Probe)
    requires WellFormed(s)
    ensures var h := HealthChecked(s, outcome);
      && WellFormed(h) && h.order == s.order && h.banned == s.banned && h.proxies.Keys == s.proxies.Keys
    ensures forall k :: k in s.proxies ==>
      var (p, q) := (s.proxies[k], HealthChecked(s, outcome).proxies[k]);
      && q.(lastSuccessTime := p.lastSuccessTime, lastFailTime := p.lastFailTime) == p
      && (outcome(k).Reached? ==> q.lastSuccessTime == Some(outcome(k).at) && q.lastFailTime == p.lastFailTime)
      && (outcome(k).Unreached? ==> q.lastFailTime == Some(outcome(k).at) && q.lastSuccessTime == p.lastSuccessTime)
      && (outcome(k).Crashed? ==> q == p)
  {
    var h := HealthChecked(s, outcome);
    forall k | k in h.proxies ensures ProxyUrl(h.proxies[k]) == k {
      assert ProxyUrl(h.proxies[k]) == ProxyUrl(s.proxies[k]);
    }
  }

  /** A dictionary that holds, at every key of the order, that key's probed entry is the batch check's. */
  lemma EveryPositionProbed(s: Pool, outcome: string -> Probe, m: map<string, Proxy>)
    requires WellFormed(s) && m.Keys == s.proxies.Keys
    requires forall j :: 0 <= j < |s.order| ==> m[s.order[j]] == Probed(s.proxies[s.order[j]], outcome(s.order[j]))
    ensures m == HealthChecked(s, outcome).proxies
  {
    forall k | k in m ensures m[k] == HealthChecked(s, outcome).proxies[k] {
      var j :| 0 <= j < |s.order| && s.order[j] == k;
    }
  }

  /**
   * The batch check does not change the ranking: `get_best_proxies` returns
   * as many entries as before, each ranking like the one it returned before
   * at the same position, so the exported count is unchanged.
   */
  lemma HealthCheckKeepsBest(s: Pool, outcome: string -> Probe, count: int)
    requires WellFormed(s)
    ensures Ranking.RankAlike(BestProxies(HealthChecked(s, outcome), count), BestProxies(s, count))
    ensures |BestProxies(HealthChecked(s, outcome), count)| == |BestProxies(s, count)|
  {
    var h := HealthChecked(s, outcome);
    HealthCheckedEffect(s, outcome);
    var es, fs := Entries(h), Entries(s);
    forall i | 0 <= i < |es| ensures Ranking.SameRank(es[i], fs[i]) {
      assert es[i] == h.proxies[s.order[i]] && fs[i] == s.proxies[s.order[i]];
    }
    Ranking.BestAlike(es, fs, count);
  }

  // ---------------------------------------------------------------------------
  // whole runs of operations
  // ---------------------------------------------------------------------------

  /** One call on the pool, with the caller's instant for `update_proxy_score`. */
  datatype Op =
    | AddOp(proxy: Proxy)
    | RemoveOp(key: string)
    | UpdateOp(key: string, success: bool, responseTime: real, now: Instant)
    | BanOp(key: string)
    | DecayOp

  function Step(cfg: Config, s: Pool, op: Op): Pool
    requires Covered(s)
  {
    match op
    case AddOp(p) => Add(cfg, s, p).1
    case RemoveOp(k) => Remove(s, k)
    case UpdateOp(k, ok, rt, now) => UpdateScore(cfg, s, k, ok, rt, now)
    case BanOp(k) => Ban(s, k)
    case DecayOp => Decay(cfg, s)
  }

  lemma AddKeeps(cfg: Config, s: Pool, p: Proxy)
    requires WellFormed(s)
    ensures var s' := Add(cfg, s, p).1;
      && WellFormed(s') && s'.banned == s.banned
      && (cfg.maxSize >= 1 && Size(s) <= cfg.maxSize ==> Size(s') <= cfg.maxSize)
      && (ScoresInUnit(s) && 0.0 <= p.score <= 1.0 ==> ScoresInUnit(s'))
  {
    if ProxyUrl(p) !in s.banned && !(|s.order| >= cfg.maxSize && |s.order| == 0) {
      if |s.order| >= cfg.maxSize {
        EvictWellFormed(s);
        AdmitWellFormed(Evict(s), p);
        if ScoresInUnit(s) && 0.0 <= p.score <= 1.0 { AdmitScoresInUnit(Evict(s), p); }
      } else {
        AdmitWellFormed(s, p);
        if ScoresInUnit(s) && 0.0 <= p.score <= 1.0 { AdmitScoresInUnit(s, p); }
      }
    }
  }

  lemma RemoveKeeps(s: Pool, key: string)
    requires WellFormed(s)
    ensures var s' := Remove(s, key);
      && WellFormed(s') && s'.banned == s.banned && Size(s') <= Size(s)
      && (ScoresInUnit(s) ==> ScoresInUnit(s'))
  {
    RemoveWellFormed(s, key);
    EraseDistinct(s.order, key);
  }

  lemma BanKeeps(s: Pool, key: string)
    requires WellFormed(s)
    ensures var s' := Ban(s, key);
      && WellFormed(s') && s.banned <= s'.banned && Size(s') <= Size(s)
      && (ScoresInUnit(s) ==> ScoresInUnit(s'))
  {
    BanEffect(s, key);
    EraseDistinct(s.order, key);
  }

  lemma UpdateKeeps(cfg: Config, s: Pool, key: string, success: bool, responseTime: real, now: Instant)
    requires WellFormed(s)
    ensures var s' := UpdateScore(cfg, s, key, success, responseTime, now);
      && WellFormed(s') && s.banned <= s'.banned && Size(s') <= Size(s)
      && (ScoresInUnit(s) ==> ScoresInUnit(s'))
  {
    if key in s.proxies {
      var q := Scored(s.proxies[key], success, responseTime, now);
      if ScoresInUnit(s) { ScoredStaysInUnit(s.proxies[key], success, responseTime, now); }
      ReplaceKeeps(s, key, q);
      if q.failCount >= cfg.banThreshold { BanKeeps(s.(proxies := s.proxies[key := q]), key); }
    }
  }

  lemma StepKeeps(cfg: Config, s: Pool, op: Op)
    requires WellFormed(s)
    ensures WellFormed(Step(cfg, s, op))
    ensures s.banned <= Step(cfg, s, op).banned
    ensures cfg.maxSize >= 1 && Size(s) <= cfg.maxSize ==> Size(Step(cfg, s, op)) <= cfg.maxSize
    ensures ScoresInUnit(s) && 0.0 <= cfg.scoreDecay <= 1.0 && (op.AddOp? ==> 0.0 <= op.proxy.score <= 1.0)
            ==> ScoresInUnit(Step(cfg, s, op))
  {
    match op
    case AddOp(p) => AddKeeps(cfg, s, p);
    case RemoveOp(k) => RemoveKeeps(s, k);
    case UpdateOp(k, ok, rt, now) => UpdateKeeps(cfg, s, k, ok, rt, now);
    case BanOp(k) => BanKeeps(s, k);
    case DecayOp =>
      DecayEffect(cfg, s);
      if ScoresInUnit(s) && 0.0 <= cfg.scoreDecay <= 1.0 { DecayScoresInUnit(cfg, s); }
  }

  /** The state after a sequence of calls. */
  function Run(cfg: Config, s: Pool, ops: seq<Op>): Pool
    requires WellFormed(s)
    decreases |ops|
  {
    if |ops| == 0 then s
    else
      StepKeeps(cfg, s, ops[0]);
      Run(cfg, Step(cfg, s, ops[0]), ops[1..])
  }

  /**
   * Over any run of calls the pool stays well formed (so no banned key is
   * active), never grows past a positive capacity it started within, keeps
   * scores in [0, 1] when the added proxies and the decay factor are, and
   * never unbans a key: every later add of a banned key is refused.
   */
  lemma {:induction false} RunKeeps(cfg: Config, s: Pool, ops: seq<Op>)
    requires WellFormed(s)
    ensures WellFormed(Run(cfg, s, ops))
    ensures s.banned <= Run(cfg, s, ops).banned
    ensures cfg.maxSize >= 1 && Size(s) <= cfg.maxSize ==> Size(Run(cfg, s, ops)) <= cfg.maxSize
    ensures ScoresInUnit(s) && 0.0 <= cfg.scoreDecay <= 1.0
            && (forall i :: 0 <= i < |ops| && ops[i].AddOp? ==> 0.0 <= ops[i].proxy.score <= 1.0)
            ==> ScoresInUnit(Run(cfg, s, ops))
    ensures forall p :: ProxyUrl(p) in s.banned ==> Add(cfg, Run(cfg, s, ops), p) == (Returned(false), Run(cfg, s, ops))
    decreases |ops|
  {
    if |ops| > 0 {
      StepKeeps(cfg, s, ops[0]);
      var t := Step(cfg, s, ops[0]);
      RunKeeps(cfg, t, ops[1..]);
      assert forall i :: 0 <= i < |ops[1..]| ==> ops[1..][i] == ops[i + 1];
    }
  }

  // ---------------------------------------------------------------------------
  // get_best_proxies, get_random_proxy, get_statistics
  // ---------------------------------------------------------------------------

  /** `get_best_proxies(count)`. */
  function BestProxies(s: Pool, count: int): seq<Proxy>
    requires Covered(s)
  {
    Ranking.Best(Entries(s), count)
  }

  /** The valid proxies, in dictionary order: what `get_random_proxy` chooses from. */
  function ValidProxies(s: Pool): seq<Proxy>
    requires Covered(s)
  {
    Ranking.ValidOf(Entries(s))
  }

  /** The valid proxies are the pool's valid entries: none exactly when no entry is valid. */
  lemma ValidProxiesAreEntries(s: Pool)
    requires WellFormed(s)
    ensures forall p :: p in ValidProxies(s) ==> p in s.proxies.Values && IsValid(p)
    ensures |ValidProxies(s)| == 0 <==> forall k :: k in s.proxies ==> !IsValid(s.proxies[k])
  {
    var es := Entries(s);
    forall p | p in ValidProxies(s) ensures p in s.proxies.Values {
      var i :| 0 <= i < |es| && es[i] == p;
      assert s.proxies[s.order[i]] == p;
    }
    if |ValidProxies(s)| == 0 {
      Ranking.ValidOfCounts(es);
      forall k | k in s.proxies ensures !IsValid(s.proxies[k]) {
        var j :| 0 <= j < |s.order| && s.order[j] == k;
        assert es[j] == s.proxies[k] && es[j] in multiset(es);
      }
    } else {
      var p := ValidProxies(s)[0];
      assert p in ValidProxies(s);
      var i :| 0 <= i < |es| && es[i] == p;
      assert s.order[i] in s.proxies && IsValid(s.proxies[s.order[i]]);
    }
  }

  /** Along distinct keys, the valid values are as many as the keys whose value is valid. */
  lemma {:induction false} ValidCountAlong(m: map<string, Proxy>, xs: seq<string>, es: seq<Proxy>)
    requires Distinct(xs) && |es| == |xs|
    requires forall k :: k in xs ==> k in m
    requires forall i :: 0 <= i < |xs| ==> es[i] == m[xs[i]]
    ensures |Ranking.ValidOf(es)| == |set k | k in xs && IsValid(m[k])|
    decreases |xs|
  {
    if |xs| > 0 {
      var tail := xs[1..];
      DistinctTail(xs);
      forall i | 0 <= i < |tail| ensures es[1..][i] == m[tail[i]] { assert tail[i] == xs[i + 1]; }
      ValidCountAlong(m, tail, es[1..]);
      ValidKeysCons(m, xs);
      assert |Ranking.ValidOf(es)| == (if IsValid(es[0]) then 1 else 0) + |Ranking.ValidOf(es[1..])|;
    }
  }

  lemma ValidKeysCons(m: map<string, Proxy>, xs: seq<string>)
    requires |xs| > 0 && xs[0] !in xs[1..]
    requires forall k :: k in xs ==> k in m
    ensures |set k | k in xs && IsValid(m[k])| == |set k | k in xs[1..] && IsValid(m[k])| + if IsValid(m[xs[0]]) then 1 else 0
  {
    var rest := set k | k in xs[1..] && IsValid(m[k]);
    var head: set<string> := if IsValid(m[xs[0]]) then {xs[0]} else {};
    assert xs == [xs[0]] + xs[1..];
    assert (set k | k in xs && IsValid(m[k])) == rest + head;
    assert |rest + head| == |rest| + |head|;
  }

  /** `valid_proxies` counts the dictionary's keys whose proxy is valid. */
  lemma ValidCountIsValidKeys(s: Pool)
    requires WellFormed(s)
    ensures |ValidProxies(s)| == |set k | k in s.proxies && IsValid(s.proxies[k])|
  {
    ValidCountAlong(s.proxies, s.order, Entries(s));
    assert (set k | k in s.order && IsValid(s.proxies[k])) == (set k | k in s.proxies && IsValid(s.proxies[k]));
  }

  /** The dictionary returned by `get_statistics()`. */
  datatype Stats = Stats(totalProxies: nat, validProxies: nat, bannedProxies: nat, successRate: real, avgScore: real)

  function SumRates(es: seq<Proxy>): (r: real)
    ensures 0.0 <= r <= |es| as real
    decreases |es|
  {
    if |es| == 0 then 0.0 else SumRates(es[..|es| - 1]) + SuccessRate(es[|es| - 1])
  }

  function SumScores(es: seq<Proxy>): real
    decreases |es|
  {
    if |es| == 0 then 0.0 else SumScores(es[..|es| - 1]) + es[|es| - 1].score
  }

  lemma {:induction false} SumScoresInRange(es: seq<Proxy>)
    requires forall i :: 0 <= i < |es| ==> 0.0 <= es[i].score <= 1.0
    ensures 0.0 <= SumScores(es) <= |es| as real
    decreases |es|
  {
    if |es| > 0 { SumScoresInRange(es[..|es| - 1]); }
  }

  /** `get_statistics()`: the sums are divided by `max(total, 1)`. */
  function Statistics(s: Pool): Stats
    requires Covered(s)
  {
    var es := Entries(s);
    var total := |s.proxies|;
    var divisor := if total > 1 then total else 1;
    Stats(total, |Ranking.ValidOf(es)|, |s.banned|, SumRates(es) / divisor as real, SumScores(es) / divisor as real)
  }

  lemma QuotientInUnit(x: real, n: nat)
    requires 0.0 <= x <= n as real
    ensures 0.0 <= x / (if n > 1 then n else 1) as real <= 1.0
  {
  }

  /**
   * The counts: the total is the pool's size, the valid count is the number of
   * entries that are valid (so never more than the total), and the banned count
   * is the size of the ban-set.
   */
  lemma StatisticsCounts(s: Pool)
    requires WellFormed(s)
    ensures var st := Statistics(s);
      st.totalProxies == Size(s) && st.bannedProxies == |s.banned|
    ensures Statistics(s).validProxies == |ValidProxies(s)|
    ensures Statistics(s).validProxies == |set k | k in s.proxies && IsValid(s.proxies[k])|
    ensures Statistics(s).validProxies <= Statistics(s).totalProxies
  {
    SizeIsKeyCount(s);
    ValidCountIsValidKeys(s);
  }

  /** The success-rate average lies in [0, 1] and is 0 for an empty pool. */
  lemma StatisticsRateAverage(s: Pool)
    requires WellFormed(s)
    ensures 0.0 <= Statistics(s).successRate <= 1.0
    ensures Size(s) == 0 ==> Statistics(s).successRate == 0.0
  {
    SizeIsKeyCount(s);
    var es := Entries(s);
    QuotientInUnit(SumRates(es), |es|);
  }

  /** The score average is 0 for an empty pool and lies in [0, 1] when every score does. */
  lemma StatisticsScoreAverage(s: Pool)
    requires WellFormed(s)
    ensures Size(s) == 0 ==> Statistics(s).avgScore == 0.0
    ensures ScoresInUnit(s) ==> 0.0 <= Statistics(s).avgScore <= 1.0
  {
    SizeIsKeyCount(s);
    var es := Entries(s);
    if ScoresInUnit(s) {
      SumScoresInRange(es);
      QuotientInUnit(SumScores(es), |es|);
    }
  }

  // ---------------------------------------------------------------------------
  // scenarios
  // ---------------------------------------------------------------------------

  /**
   * Capacity 2, adds of scores 0.9, 0.5, 0.7: the third add evicts the 0.5
   * entry and the pool holds the 0.9 and 0.7 entries.
   */
  lemma ScenarioEviction(x: Proxy, y: Proxy, z: Proxy)
    requires x.score == 0.9 && y.score == 0.5 && z.score == 0.7
    requires x.ip == "10.0.0.1" && y.ip == "10.0.0.2" && z.ip == "10.0.0.3"
    ensures var cfg := DefaultConfig.(maxSize := 2);
      var s1 := Add(cfg, EmptyPool, x).1;
      var s2 := Add(cfg, s1, y).1;
      var s3 := Add(cfg, s2, z).1;
      s3.proxies.Keys == {ProxyUrl(x), ProxyUrl(z)} && s3.order == [ProxyUrl(x), ProxyUrl(z)]
  {
    var cfg := DefaultConfig.(maxSize := 2);
    var kx, ky, kz := ProxyUrl(x), ProxyUrl(y), ProxyUrl(z);
    ProxyUrlShape(x); ProxyUrlShape(y); ProxyUrlShape(z);
    assert kx[7] == '1' && ky[7] == '2' && kz[7] == '3';
    assert kx != ky && ky != kz && kx != kz;
    var s1 := Add(cfg, EmptyPool, x).1;
    assert s1 == Pool(map[kx := x], [kx], {});
    var s2 := Add(cfg, s1, y).1;
    assert s2 == Pool(map[kx := x, ky := y], [kx, ky], {});
    assert Entries(s2) == [x, y];
    assert FirstMinIndex(Entries(s2)) == 1;
    assert Victim(s2) == ky;
    assert Erase([ky], ky) == [];
    assert Evict(s2).order == [kx];
    var s3 := Add(cfg, s2, z).1;
    assert s3.order == [kx, kz];
  }

  /**
   * The second sort key breaks ties of the first: of entries scored 0.8 with
   * success rates 0.9 and 0.95, and one scored 0.6 with rate 1.0, the best
   * two are the 0.8 entries, the one with rate 0.95 first.
   */
  lemma ScenarioTieBreak(a: Proxy, b: Proxy, c: Proxy)
    requires a.score == 0.8 && a.successCount == 9 && a.failCount == 1
    requires b.score == 0.8 && b.successCount == 19 && b.failCount == 1
    requires c.score == 0.6 && c.successCount == 1 && c.failCount == 0
    ensures var s := Pool(map[ProxyUrl(a) := a, ProxyUrl(b) := b, ProxyUrl(c) := c], [ProxyUrl(a), ProxyUrl(b), ProxyUrl(c)], {});
      Covered(s) && (ProxyUrl(a) != ProxyUrl(b) && ProxyUrl(b) != ProxyUrl(c) && ProxyUrl(a) != ProxyUrl(c) ==> BestProxies(s, 2) == [b, a])
  {
    var ka, kb, kc := ProxyUrl(a), ProxyUrl(b), ProxyUrl(c);
    var s := Pool(map[ka := a, kb := b, kc := c], [ka, kb, kc], {});
    if ka != kb && kb != kc && ka != kc {
      assert Entries(s) == [a, b, c];
      assert SuccessRate(a) == 0.9 && SuccessRate(b) == 0.95 && SuccessRate(c) == 1.0;
      BestOfThree(a, b, c);
    }
  }

  /** Three valid entries where the second outranks the first and both outrank the third: the best two are the second and the first. */
  lemma BestOfThree(a: Proxy, b: Proxy, c: Proxy)
    requires IsValid(a) && IsValid(b) && IsValid(c)
    requires Ranking.KeyAtLeast(b, c) && !Ranking.KeyAtLeast(a, b) && Ranking.KeyAtLeast(a, c)
    ensures Ranking.Best([a, b, c], 2) == [b, a]
  {
    AllValidKept(a, b, c);
    SortThree(a, b, c);
    assert [b, a, c][..2] == [b, a];
  }

  lemma AllValidKept(a: Proxy, b: Proxy, c: Proxy)
    requires IsValid(a) && IsValid(b) && IsValid(c)
    ensures Ranking.ValidOf([a, b, c]) == [a, b, c]
  {
    assert Ranking.ValidOf([c]) == [c] by { assert [c][1..] == []; }
    assert Ranking.ValidOf([b, c]) == [b, c] by { assert [b, c][1..] == [c]; }
    assert [a, b, c][1..] == [b, c];
  }

  lemma SortThree(a: Proxy, b: Proxy, c: Proxy)
    requires Ranking.KeyAtLeast(b, c) && !Ranking.KeyAtLeast(a, b) && Ranking.KeyAtLeast(a, c)
    ensures Ranking.SortDesc([a, b, c]) == [b, a, c]
  {
    assert Ranking.SortDesc([c]) == [c];
    assert Ranking.SortDesc([b, c]) == [b, c] by { assert [b, c][1..] == [c]; }
    assert Ranking.Insert(a, [c]) == [a, c];
    assert Ranking.Insert(a, [b, c]) == [b, a, c] by { assert [b, c][1..] == [c]; }
    assert [a, b, c][1..] == [b, c];
  }

  /** Entries with equal keys keep their dictionary order, as Python's sort is stable even with `reverse=True`. */
  lemma ScenarioStableTie(a: Proxy, b: Proxy)
    requires a.score == b.score == 0.5 && a.successCount == b.successCount == 1 && a.failCount == b.failCount == 0
    ensures var s := Pool(map[ProxyUrl(a) := a, ProxyUrl(b) := b], [ProxyUrl(a), ProxyUrl(b)], {});
      Covered(s) && (ProxyUrl(a) != ProxyUrl(b) ==> BestProxies(s, 10) == [a, b])
  {
    var ka, kb := ProxyUrl(a), ProxyUrl(b);
    var s := Pool(map[ka := a, kb := b], [ka, kb], {});
    if ka != kb {
      assert Entries(s) == [a, b];
      assert SuccessRate(a) == 1.0 && SuccessRate(b) == 1.0;
      BestOfTwo(a, b);
    }
  }

  /** Two valid entries, the first ranking at least as high: both are returned, the first first. */
  lemma BestOfTwo(a: Proxy, b: Proxy)
    requires IsValid(a) && IsValid(b) && Ranking.KeyAtLeast(a, b)
    ensures Ranking.Best([a, b], 10) == [a, b]
  {
    assert Ranking.ValidOf([b]) == [b] by { assert [b][1..] == []; }
    assert Ranking.ValidOf([a, b]) == [a, b] by { assert [a, b][1..] == [b]; }
    assert Ranking.SortDesc([b]) == [b];
    assert Ranking.SortDesc([a, b]) == Ranking.Insert(a, [b]) == [a, b] by { assert [a, b][1..] == [b]; }
  }

  /** A proxy with two failures and a threshold of three is banned by one more failure. */
  lemma ScenarioBan(s: Pool, key: string, rt: real, now: Instant)
    requires WellFormed(s) && key in s.proxies && s.proxies[key].failCount == 2
    ensures var s' := UpdateScore(DefaultConfig, s, key, false, rt, now);
      key in s'.banned && key !in s'.proxies
  {
    UpdateEffect(DefaultConfig, s, key, false, rt, now);
  }
}
