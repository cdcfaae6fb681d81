/**
 * The ranking behind `get_best_proxies` in proxy_pool.py: keep the valid
 * proxies, sort them by `(score, success_rate)` from best to worst with
 * Python's stable `sorted(..., reverse=True)`, and cut the list at `count`.
 */
module Ranking {
  import opened ProxyEntry

  /** The sort key `(p.score, p.success_rate)` of `a` is at least that of `b`, as Python compares tuples. */
  predicate KeyAtLeast(a: Proxy, b: Proxy) {
    a.score > b.score || (a.score == b.score && SuccessRate(a) >= SuccessRate(b))
  }

  lemma KeyAtLeastTransitive(a: Proxy, b: Proxy, c: Proxy)
    requires KeyAtLeast(a, b) && KeyAtLeast(b, c)
    ensures KeyAtLeast(a, c)
  {
  }

  /** Non-increasing in the sort key. */
  ghost predicate SortedDesc(s: seq<Proxy>) {
    forall i, j :: 0 <= i < j < |s| ==> KeyAtLeast(s[i], s[j])
  }

  /** `[p for p in proxies if p.is_valid]`. */
  function ValidOf(es: seq<Proxy>): (vs: seq<Proxy>)
    ensures |vs| <= |es|
    ensures forall p :: p in vs ==> p in es && IsValid(p)
    decreases |es|
  {
    if |es| == 0 then []
    else
      assert es == [es[0]] + es[1..];
      (if IsValid(es[0]) then [es[0]] else []) + ValidOf(es[1..])
  }

  /** The filter keeps every valid proxy as often as it occurs, and nothing else. */
  lemma {:induction false} ValidOfCounts(es: seq<Proxy>)
    ensures forall p :: multiset(ValidOf(es))[p] == if IsValid(p) then multiset(es)[p] else 0
    decreases |es|
  {
    if |es| > 0 {
      ValidOfCounts(es[1..]);
      assert es == [es[0]] + es[1..];
    }
  }

  /**
   * One step of the stable descending sort: `x`, which came before every
   * element of `t`, goes in front of the first element it is at least as good as.
   */
  function Insert(x: Proxy, t: seq<Proxy>): (r: seq<Proxy>)
    ensures multiset(r) == multiset(t) + multiset{x}
    ensures |r| == |t| + 1
    decreases |t|
  {
    if |t| == 0 || KeyAtLeast(x, t[0]) then [x] + t
    else
      assert t == [t[0]] + t[1..];
      [t[0]] + Insert(x, t[1..])
  }

  lemma {:induction false} InsertSorted(x: Proxy, t: seq<Proxy>)
    requires SortedDesc(t)
    ensures SortedDesc(Insert(x, t))
    decreases |t|
  {
    if |t| == 0 || KeyAtLeast(x, t[0]) {
      forall j | 0 < j < |t| + 1 ensures KeyAtLeast(([x] + t)[0], ([x] + t)[j]) {
        if j > 1 { KeyAtLeastTransitive(x, t[0], t[j - 1]); }
      }
    } else {
      InsertSorted(x, t[1..]);
      var r := Insert(x, t[1..]);
      forall j | 0 <= j < |r| ensures KeyAtLeast(t[0], r[j]) {
        assert r[j] in multiset(r);
        assert r[j] in multiset(t[1..]) + multiset{x};
        if r[j] in multiset(t[1..]) {
          var k :| 0 <= k < |t[1..]| && t[1..][k] == r[j];
          assert t[k + 1] == r[j];
        }
      }
    }
  }

  /** `sorted(vs, key=lambda p: (p.score, p.success_rate), reverse=True)`. */
  function SortDesc(vs: seq<Proxy>): (r: seq<Proxy>)
    ensures multiset(r) == multiset(vs)
    ensures |r| == |vs|
    decreases |vs|
  {
    if |vs| == 0 then []
    else
      assert vs == [vs[0]] + vs[1..];
      Insert(vs[0], SortDesc(vs[1..]))
  }

  lemma {:induction false} SortDescSorted(vs: seq<Proxy>)
    ensures SortedDesc(SortDesc(vs))
    decreases |vs|
  {
    if |vs| > 0 {
      SortDescSorted(vs[1..]);
      InsertSorted(vs[0], SortDesc(vs[1..]));
    }
  }

  /** `a` and `b` have the same sort key: the sort cannot tell them apart. */
  predicate EqualKey(a: Proxy, b: Proxy) {
    a.score == b.score && SuccessRate(a) == SuccessRate(b)
  }

  /** The elements of `xs` whose key equals `k`'s, in their order in `xs`. */
  function Tied(k: Proxy, xs: seq<Proxy>): seq<Proxy>
    decreases |xs|
  {
    if |xs| == 0 then [] else (if EqualKey(xs[0], k) then [xs[0]] else []) + Tied(k, xs[1..])
  }

  /** An insertion only passes elements with a strictly higher key, so each key's elements stay in order. */
  lemma {:induction false} InsertTied(x: Proxy, t: seq<Proxy>, k: Proxy)
    ensures Tied(k, Insert(x, t)) == Tied(k, [x] + t)
    decreases |t|
  {
    assert ([x] + t)[1..] == t;
    if |t| > 0 && !KeyAtLeast(x, t[0]) {
      var r := Insert(x, t[1..]);
      InsertTied(x, t[1..], k);
      assert ([t[0]] + r)[1..] == r;
      assert ([x] + t[1..])[1..] == t[1..];
      assert !(EqualKey(x, k) && EqualKey(t[0], k));
    }
  }

  /**
   * `sorted` is stable: for every key, the elements with that key come out in
   * the order they went in.
   */
  lemma {:induction false} SortDescStable(vs: seq<Proxy>, k: Proxy)
    ensures Tied(k, SortDesc(vs)) == Tied(k, vs)
    decreases |vs|
  {
    if |vs| > 0 {
      SortDescStable(vs[1..], k);
      InsertTied(vs[0], SortDesc(vs[1..]), k);
      assert ([vs[0]] + SortDesc(vs[1..]))[1..] == SortDesc(vs[1..]);
    }
  }

  /** Where Python's `xs[:count]` stops on a list of length `n`. */
  function SliceEnd(n: nat, count: int): (e: nat)
    ensures e <= n
    ensures count >= 0 ==> e <= count
    ensures 0 <= count <= n ==> e == count
  {
    if count >= 0 then (if count < n then count else n)
    else if n + count > 0 then n + count else 0
  }

  /** The sorted valid proxies, before the cut. */
  function Ranked(es: seq<Proxy>): seq<Proxy> {
    SortDesc(ValidOf(es))
  }

  /** `get_best_proxies(count)` over the pool's proxies in dictionary order. */
  function Best(es: seq<Proxy>, count: int): (r: seq<Proxy>)
    ensures |r| <= |Ranked(es)| && r == Ranked(es)[..|r|]
    ensures count >= 0 ==> |r| <= count
  {
    var ranked := Ranked(es);
    ranked[..SliceEnd(|ranked|, count)]
  }

  /** Every proxy returned is one of the pool's and is valid. */
  lemma BestAreValidMembers(es: seq<Proxy>, count: int)
    ensures forall p :: p in Best(es, count) ==> p in es && IsValid(p)
  {
    var ranked := Ranked(es);
    var r := Best(es, count);
    forall p | p in r ensures p in es && IsValid(p) {
      assert p in ranked;
      assert p in multiset(ranked);
      assert p in multiset(ValidOf(es));
    }
  }

  /** The result runs from best to worst. */
  lemma BestIsSorted(es: seq<Proxy>, count: int)
    ensures SortedDesc(Best(es, count))
  {
    SortDescSorted(ValidOf(es));
  }

  /**
   * Every valid proxy left out (counted with multiplicity) is no better than
   * any proxy returned, and no valid proxy is lost when `count` is large enough.
   */
  lemma BestDominatesLeftOut(es: seq<Proxy>, count: int)
    ensures forall p, q ::
              p in multiset(ValidOf(es)) - multiset(Best(es, count)) && q in Best(es, count)
              ==> KeyAtLeast(q, p)
    ensures count >= |ValidOf(es)| ==> multiset(Best(es, count)) == multiset(ValidOf(es))
  {
    var valid := ValidOf(es);
    var ranked := Ranked(es);
    var r := Best(es, count);
    SortDescSorted(valid);
    PrefixDominates(ranked, |r|);
    if count >= |valid| {
      assert |r| == |ranked|;
      assert r == ranked;
    }
  }

  /** In a descending list, every element of a prefix ranks at least as high as every element left after it. */
  lemma PrefixDominates(s: seq<Proxy>, k: nat)
    requires SortedDesc(s) && k <= |s|
    ensures forall p, q :: p in multiset(s) - multiset(s[..k]) && q in s[..k] ==> KeyAtLeast(q, p)
  {
    var head, rest := s[..k], s[k..];
    assert s == head + rest;
    assert multiset(s) - multiset(head) == multiset(rest) by {
      assert multiset(s) == multiset(head) + multiset(rest);
    }
    forall p, q | p in multiset(s) - multiset(head) && q in head ensures KeyAtLeast(q, p) {
      assert p in multiset(rest);
      var j :| 0 <= j < |rest| && rest[j] == p;
      var i :| 0 <= i < |head| && head[i] == q;
      assert s[i] == q && s[k + j] == p;
    }
  }

  // ---------------------------------------------------------------------------
  // records that differ only in what the ranking does not read
  // ---------------------------------------------------------------------------

  /** Same score and same outcome counts: the two rank alike whatever else differs. */
  predicate SameRank(a: Proxy, b: Proxy) {
    a.score == b.score && a.successCount == b.successCount && a.failCount == b.failCount
  }

  /** Position by position, the two lists rank alike. */
  predicate RankAlike(xs: seq<Proxy>, ys: seq<Proxy>) {
    |xs| == |ys| && forall i :: 0 <= i < |xs| ==> SameRank(xs[i], ys[i])
  }

  /** The filter keeps the same positions of two lists that rank alike. */
  lemma {:induction false} ValidOfAlike(xs: seq<Proxy>, ys: seq<Proxy>)
    requires RankAlike(xs, ys)
    ensures RankAlike(ValidOf(xs), ValidOf(ys))
    decreases |xs|
  {
    if |xs| > 0 {
      assert SameRank(xs[0], ys[0]);
      assert SuccessRate(xs[0]) == SuccessRate(ys[0]);
      assert RankAlike(xs[1..], ys[1..]) by {
        forall i | 0 <= i < |xs| - 1 ensures SameRank(xs[1..][i], ys[1..][i]) { assert SameRank(xs[i + 1], ys[i + 1]); }
      }
      ValidOfAlike(xs[1..], ys[1..]);
    }
  }

  /** An insertion step moves alike elements into alike places. */
  lemma {:induction false} InsertAlike(x: Proxy, y: Proxy, t: seq<Proxy>, u: seq<Proxy>)
    requires SameRank(x, y) && RankAlike(t, u)
    ensures RankAlike(Insert(x, t), Insert(y, u))
    decreases |t|
  {
    if |t| > 0 {
      assert SameRank(t[0], u[0]);
      assert SuccessRate(x) == SuccessRate(y) && SuccessRate(t[0]) == SuccessRate(u[0]);
      assert KeyAtLeast(x, t[0]) == KeyAtLeast(y, u[0]);
      if !KeyAtLeast(x, t[0]) {
        assert RankAlike(t[1..], u[1..]) by {
          forall i | 0 <= i < |t| - 1 ensures SameRank(t[1..][i], u[1..][i]) { assert SameRank(t[i + 1], u[i + 1]); }
        }
        InsertAlike(x, y, t[1..], u[1..]);
        var r, q := Insert(x, t[1..]), Insert(y, u[1..]);
        forall i | 0 <= i < |r| + 1 ensures SameRank(([t[0]] + r)[i], ([u[0]] + q)[i]) {
          if i > 0 { assert SameRank(r[i - 1], q[i - 1]); }
        }
      } else {
        forall i | 0 <= i < |t| + 1 ensures SameRank(([x] + t)[i], ([y] + u)[i]) {
          if i > 0 { assert SameRank(t[i - 1], u[i - 1]); }
        }
      }
    }
  }

  /** The stable sort puts alike elements at alike positions. */
  lemma {:induction false} SortDescAlike(xs: seq<Proxy>, ys: seq<Proxy>)
    requires RankAlike(xs, ys)
    ensures RankAlike(SortDesc(xs), SortDesc(ys))
    decreases |xs|
  {
    if |xs| > 0 {
      assert SameRank(xs[0], ys[0]);
      assert RankAlike(xs[1..], ys[1..]) by {
        forall i | 0 <= i < |xs| - 1 ensures SameRank(xs[1..][i], ys[1..][i]) { assert SameRank(xs[i + 1], ys[i + 1]); }
      }
      SortDescAlike(xs[1..], ys[1..]);
      InsertAlike(xs[0], ys[0], SortDesc(xs[1..]), SortDesc(ys[1..]));
    }
  }

  /**
   * Two pools whose entries rank alike, position by position, give best
   * lists of the same length whose entries rank alike.
   */
  lemma BestAlike(es: seq<Proxy>, fs: seq<Proxy>, count: int)
    requires RankAlike(es, fs)
    ensures RankAlike(Best(es, count), Best(fs, count))
  {
    ValidOfAlike(es, fs);
    SortDescAlike(ValidOf(es), ValidOf(fs));
    var r, q := Ranked(es), Ranked(fs);
    var n := SliceEnd(|r|, count);
    forall i | 0 <= i < n ensures SameRank(r[..n][i], q[..n][i]) { assert SameRank(r[i], q[i]); }
  }
}
