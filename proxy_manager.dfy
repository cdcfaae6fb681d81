/**
 * The two pieces of `ProxyManager` (proxy_manager.py) that decide what is
 * stored: the merge `sync_to_github` writes back to the remote file, and the
 * add-then-score loop of `fetch_and_validate`. The remote calls, the health
 * probes and the clock are inputs.
 */
module ProxyManager {
  import opened Wrappers
  import opened Text
  import opened ProxyEntry
  import opened PoolSpec
  import opened ProxyPoolStore
  import GithubApi

  // ---------------------------------------------------------------------------
  // sorted(set(...)) over strings
  // ---------------------------------------------------------------------------

  ghost function Elems(xs: seq<string>): set<string> {
    set x | x in xs
  }

  /** Every element is below every later one: sorted and without repeats. */
  ghost predicate Ascending(xs: seq<string>) {
    forall i, j :: 0 <= i < j < |xs| ==> StrLess(xs[i], xs[j])
  }

  /** `x` put into its place in an ascending list, unless it is there already. */
  function InsertAscending(x: string, t: seq<string>): seq<string>
    decreases |t|
  {
    if |t| == 0 then [x]
    else if x == t[0] then t
    else if StrLess(x, t[0]) then [x] + t
    else [t[0]] + InsertAscending(x, t[1..])
  }

  lemma {:induction false} InsertAscendingKeeps(x: string, t: seq<string>)
    requires Ascending(t)
    ensures Ascending(InsertAscending(x, t))
    ensures Elems(InsertAscending(x, t)) == Elems(t) + {x}
    decreases |t|
  {
    if |t| > 0 && x != t[0] {
      if StrLess(x, t[0]) {
        PutInFront(x, t);
      } else {
        StrLessTotal(x, t[0]);
        var tail := t[1..];
        assert Ascending(tail);
        InsertAscendingKeeps(x, tail);
        KeepInFront(x, t, InsertAscending(x, tail));
      }
    }
  }

  /** An element below the head of an ascending list goes in front of it. */
  lemma PutInFront(x: string, t: seq<string>)
    requires Ascending(t) && |t| > 0 && StrLess(x, t[0])
    ensures Ascending([x] + t) && Elems([x] + t) == Elems(t) + {x}
  {
    var r := [x] + t;
    forall i, j | 0 <= i < j < |r| ensures StrLess(r[i], r[j]) {
      if i == 0 && j > 1 { StrLessTransitive(x, t[0], t[j - 1]); }
    }
    assert Elems(r) == Elems(t) + {x} by { assert forall y :: y in r <==> y == x || y in t; }
  }

  /** The head of an ascending list stays in front of the rest with an element above it put in. */
  lemma KeepInFront(x: string, t: seq<string>, u: seq<string>)
    requires Ascending(t) && |t| > 0 && StrLess(t[0], x)
    requires Ascending(u) && Elems(u) == Elems(t[1..]) + {x}
    ensures Ascending([t[0]] + u) && Elems([t[0]] + u) == Elems(t) + {x}
  {
    var tail := t[1..];
    var r := [t[0]] + u;
    forall i, j | 0 <= i < j < |r| ensures StrLess(r[i], r[j]) {
      if i == 0 {
        assert r[j] in Elems(tail) + {x};
      }
    }
    assert Elems(t) == {t[0]} + Elems(tail) by {
      assert t == [t[0]] + tail;
      assert forall y :: y in t <==> y == t[0] || y in tail;
    }
    assert Elems(r) == {t[0]} + Elems(u) by {
      assert forall y :: y in r <==> y == t[0] || y in u;
    }
  }

  /** The elements of `xs` in ascending order, each once: `sorted(set(xs))`. */
  function SortedUnique(xs: seq<string>): seq<string>
    decreases |xs|
  {
    if |xs| == 0 then [] else InsertAscending(xs[|xs| - 1], SortedUnique(xs[..|xs| - 1]))
  }

  lemma {:induction false} SortedUniqueIsSortedSet(xs: seq<string>)
    ensures Ascending(SortedUnique(xs))
    ensures Elems(SortedUnique(xs)) == Elems(xs)
    decreases |xs|
  {
    if |xs| > 0 {
      var init := xs[..|xs| - 1];
      SortedUniqueIsSortedSet(init);
      InsertAscendingKeeps(xs[|xs| - 1], SortedUnique(init));
      assert xs == init + [xs[|xs| - 1]];
      assert Elems(xs) == Elems(init) + {xs[|xs| - 1]} by {
        assert forall y :: y in xs <==> y in init || y == xs[|xs| - 1];
      }
    }
  }

  lemma AscendingDistinct(xs: seq<string>)
    requires Ascending(xs)
    ensures Distinct(xs)
  {
    forall i, j | 0 <= i < j < |xs| ensures xs[i] != xs[j] {
      StrLessIrreflexive(xs[i]);
    }
  }

  /** A set has one ascending listing: the list `sorted` builds is determined by the set alone. */
  lemma {:induction false} AscendingUnique(a: seq<string>, b: seq<string>)
    requires Ascending(a) && Ascending(b) && Elems(a) == Elems(b)
    ensures a == b
    decreases |a|
  {
    AscendingDistinct(a);
    AscendingDistinct(b);
    DistinctCount(a);
    DistinctCount(b);
    if |a| > 0 {
      assert a[0] in Elems(b) && b[0] in Elems(a);
      var i :| 0 <= i < |a| && a[i] == b[0];
      var j :| 0 <= j < |b| && b[j] == a[0];
      if j > 0 {
        if i > 0 {
          StrLessTransitive(a[0], b[0], a[0]);
        }
        StrLessIrreflexive(a[0]);
      }
      assert a[0] == b[0];
      assert Elems(a[1..]) == Elems(a) - {a[0]} by {
        assert a == [a[0]] + a[1..];
        assert a[0] !in a[1..];
      }
      assert Elems(b[1..]) == Elems(b) - {b[0]} by {
        assert b == [b[0]] + b[1..];
        assert b[0] !in b[1..];
      }
      AscendingUnique(a[1..], b[1..]);
      assert a == [a[0]] + a[1..] && b == [b[0]] + b[1..];
    }
  }

  // ---------------------------------------------------------------------------
  // sync_to_github
  // ---------------------------------------------------------------------------

  /** Each line stripped, blank lines dropped. */
  function NonBlankStripped(lines: seq<string>, strip: string -> string): seq<string>
    decreases |lines|
  {
    if |lines| == 0 then []
    else
      var rest := NonBlankStripped(lines[1..], strip);
      if strip(lines[0]) != "" then [strip(lines[0])] + rest else rest
  }

  /** Every kept entry is a non-blank stripped line, and every non-blank line is kept stripped. */
  lemma {:induction false} NonBlankStrippedLines(lines: seq<string>, strip: string -> string)
    ensures forall x :: x in NonBlankStripped(lines, strip) ==> x != "" && exists l :: l in lines && strip(l) == x
    ensures forall l :: l in lines && strip(l) != "" ==> strip(l) in NonBlankStripped(lines, strip)
    decreases |lines|
  {
    if |lines| > 0 {
      var tail := lines[1..];
      NonBlankStrippedLines(tail, strip);
      var rest := NonBlankStripped(tail, strip);
      forall x | x in NonBlankStripped(lines, strip) ensures x != "" && exists l :: l in lines && strip(l) == x {
        if x in rest {
          var l :| l in tail && strip(l) == x;
          var k :| 0 <= k < |tail| && tail[k] == l;
          assert lines[k + 1] == l;
        } else {
          assert lines[0] in lines;
        }
      }
      forall l | l in lines && strip(l) != "" ensures strip(l) in NonBlankStripped(lines, strip) {
        if l != lines[0] {
          var k :| 0 <= k < |lines| && lines[k] == l;
          assert tail[k - 1] == l;
        }
      }
    }
  }

  /** The proxies listed in the remote file: its non-blank lines, stripped. */
  function RemoteLines(content: string): seq<string> {
    NonBlankStripped(Split(content, '\n'), Strip)
  }

  /** No remote line is blank, carries surrounding whitespace, or holds a line break. */
  lemma RemoteLinesShape(content: string)
    ensures forall x :: x in RemoteLines(content) ==>
      x != "" && !IsSpace(x[0]) && !IsSpace(x[|x| - 1]) && '\n' !in x
  {
    var lines := Split(content, '\n');
    NonBlankStrippedLines(lines, Strip);
    forall x | x in RemoteLines(content) ensures x != "" && '\n' !in x && !IsSpace(x[0]) && !IsSpace(x[|x| - 1]) {
      var l :| l in lines && Strip(l) == x;
      StripChars(l);
    }
  }

  /** Empty remote content lists no proxy. */
  lemma EmptyRemoteHasNoLines()
    ensures RemoteLines("") == []
  {
    var lines := Split("", '\n');
    assert lines == [""];
    assert |Strip(lines[0])| == 0;
    assert lines[1..] == [];
  }

  /** `{proxy.proxy_url for proxy in best}`, as a list. */
  function LocalUrls(best: seq<Proxy>): (r: seq<string>)
    ensures |r| == |best| && forall i :: 0 <= i < |best| ==> r[i] == ProxyUrl(best[i])
  {
    seq(|best|, i requires 0 <= i < |best| => ProxyUrl(best[i]))
  }

  /** The proxies to write: remote lines and local addresses, sorted, each once. */
  function Merged(content: string, best: seq<Proxy>): seq<string> {
    SortedUnique(RemoteLines(content) + LocalUrls(best))
  }

  /** `new_content`: the merged proxies joined by line breaks. */
  function NewContent(content: string, best: seq<Proxy>): string {
    Join(Merged(content, best), '\n')
  }

  /**
   * The merged list is the union of the remote lines and the local
   * addresses, ascending and without repeats: no remote line is dropped.
   */
  lemma MergedIsSortedUnion(content: string, best: seq<Proxy>)
    ensures Elems(Merged(content, best)) == Elems(RemoteLines(content)) + (set p | p in best :: ProxyUrl(p))
    ensures Ascending(Merged(content, best)) && Distinct(Merged(content, best))
    ensures forall a :: Ascending(a) && Elems(a) == Elems(Merged(content, best)) ==> a == Merged(content, best)
  {
    var remote, local := RemoteLines(content), LocalUrls(best);
    SortedUniqueIsSortedSet(remote + local);
    AscendingDistinct(Merged(content, best));
    assert Elems(remote + local) == Elems(remote) + (set p | p in best :: ProxyUrl(p)) by {
      forall y ensures y in remote + local <==> y in remote || y in (set p | p in best :: ProxyUrl(p)) {
        if y in local {
          var i :| 0 <= i < |local| && local[i] == y;
          assert best[i] in best;
        }
        if y in (set p | p in best :: ProxyUrl(p)) {
          var p :| p in best && ProxyUrl(p) == y;
          var i :| 0 <= i < |best| && best[i] == p;
          assert local[i] == y;
        }
      }
    }
    forall a | Ascending(a) && Elems(a) == Elems(Merged(content, best)) ensures a == Merged(content, best) {
      AscendingUnique(a, Merged(content, best));
    }
  }

  /** Every merged entry is a remote line or a local address. */
  lemma MergedMembers(content: string, best: seq<Proxy>)
    ensures forall x :: x in Merged(content, best) ==> x in RemoteLines(content) || x in LocalUrls(best)
  {
    var remote, local := RemoteLines(content), LocalUrls(best);
    SortedUniqueIsSortedSet(remote + local);
    forall x | x in Merged(content, best) ensures x in remote || x in local {
      assert x in Elems(Merged(content, best));
      assert x in remote + local;
    }
  }

  /** Every local address ends in a digit of its port. */
  lemma LocalUrlsEnd(best: seq<Proxy>)
    ensures forall x :: x in LocalUrls(best) ==> |x| > 0 && x[|x| - 1] != '\n'
  {
    forall x | x in LocalUrls(best) ensures |x| > 0 && x[|x| - 1] != '\n' {
      var i :| 0 <= i < |best| && LocalUrls(best)[i] == x;
      ProxyUrlShape(best[i]);
    }
  }

  /** A local address holds a line break only when its ip does. */
  lemma LocalUrlsWithoutBreaks(best: seq<Proxy>)
    requires forall p :: p in best ==> '\n' !in p.ip
    ensures forall x :: x in LocalUrls(best) ==> '\n' !in x
  {
    forall x | x in LocalUrls(best) ensures '\n' !in x {
      var i :| 0 <= i < |best| && LocalUrls(best)[i] == x;
      var p := best[i];
      IntToStringShape(p.port);
      assert '\n' !in p.ip;
      assert x == p.ip + ":" + IntToString(p.port);
    }
  }

  /** Every merged entry is non-empty and ends in something other than a line break. */
  lemma MergedEntriesEnd(content: string, best: seq<Proxy>)
    ensures forall x :: x in Merged(content, best) ==> |x| > 0 && x[|x| - 1] != '\n'
  {
    MergedMembers(content, best);
    RemoteLinesShape(content);
    LocalUrlsEnd(best);
  }

  /** The written content never ends in a line break. */
  lemma NewContentHasNoTrailingNewline(content: string, best: seq<Proxy>)
    ensures var c := NewContent(content, best); c == "" || c[|c| - 1] != '\n'
  {
    MergedEntriesEnd(content, best);
    JoinOfUnbrokenEnds(Merged(content, best));
  }

  lemma JoinOfUnbrokenEnds(m: seq<string>)
    requires forall x :: x in m ==> |x| > 0 && x[|x| - 1] != '\n'
    ensures var c := Join(m, '\n'); c == "" || c[|c| - 1] != '\n'
  {
    if |m| > 0 {
      assert m[|m| - 1] in m;
      JoinEndsWithLast(m, '\n');
    }
  }

  /**
   * Splitting the written content on line breaks gives back the merged list,
   * when at least one proxy is written and no local address holds a line
   * break: the file's lines are exactly the union.
   */
  lemma NewContentLines(content: string, best: seq<Proxy>)
    requires forall p :: p in best ==> '\n' !in p.ip
    requires |Merged(content, best)| >= 1
    ensures Split(NewContent(content, best), '\n') == Merged(content, best)
  {
    var m := Merged(content, best);
    MergedMembers(content, best);
    RemoteLinesShape(content);
    LocalUrlsWithoutBreaks(best);
    assert forall i :: 0 <= i < |m| ==> '\n' !in m[i] by {
      forall i | 0 <= i < |m| ensures '\n' !in m[i] { assert m[i] in m; }
    }
    SplitJoin(m, '\n');
  }

  /** How `sync_to_github` ends. */
  datatype SyncOutcome =
    | NoToken             // no token anywhere: returns False before any remote call
    | Failed              // a remote call raised: returns False
    | Pushed(content: string)  // `update_content` was called with this text: returns True

  /**
   * What `get_content` read: the file's `content` and `encoding` fields, or
   * an exception raised before them (the request, the JSON parsing).
   */
  datatype RemoteFile = Unreachable | File(content: string, encoding: string)

  /** The text `get_content` returns, or None where it raises. */
  function RemoteText(remote: RemoteFile): Option<string> {
    match remote
    case Unreachable => None
    case File(c, e) =>
      var d := GithubApi.DecodeContent(c, e);
      if d.Text? then Some(d.text) else None
  }

  /**
   * `sync_to_github(token)`: `token` is the argument ("" for None), `envToken`
   * the `GITHUB_TOKEN` variable, `remote` what `get_content` read, `s` the
   * pool (whose `get_best_proxies(1000)` gives the local addresses), and
   * `pushRaised` whether `update_content` raised.
   */
  function SyncToGithub(token: string, envToken: string, remote: RemoteFile, s: Pool, pushRaised: bool): SyncOutcome
    requires Covered(s)
  {
    var tok := if token != "" then token else envToken;
    if tok == "" then NoToken
    else match RemoteText(remote)
      case None => Failed
      case Some(text) => if pushRaised then Failed else Pushed(NewContent(text, BestProxies(s, 1000)))
  }

  /** The boolean the method returns. */
  function SyncSucceeded(o: SyncOutcome): bool {
    o.Pushed?
  }

  /**
   * Without a token the sync stops before anything remote is looked at; with
   * one, it reports failure exactly when a remote call raised (malformed
   * Base64 or UTF-8 content included), and otherwise pushes the merge of the
   * remote text with the pool's best addresses, whatever the remote file held.
   */
  lemma SyncOutcomes(token: string, envToken: string, remote: RemoteFile, s: Pool, pushRaised: bool)
    requires Covered(s)
    ensures var o := SyncToGithub(token, envToken, remote, s, pushRaised);
      && (token == "" && envToken == "" <==> o == NoToken)
      && (SyncSucceeded(o) <==>
            ((token != "" || envToken != "") && remote.File?
             && GithubApi.DecodeContent(remote.content, remote.encoding).Text? && !pushRaised))
      && (SyncSucceeded(o) ==>
            o.content == NewContent(GithubApi.DecodeContent(remote.content, remote.encoding).text, BestProxies(s, 1000)))
  {
  }

  /** An empty file reads as empty text, whatever its encoding field says. */
  lemma EmptyFileIsEmptyText(encoding: string)
    ensures RemoteText(File("", encoding)) == Some("")
  {
    GithubApi.EmptyContent(encoding);
  }

  /** Empty remote content is not an error: the sync pushes the local addresses alone. */
  lemma SyncOfEmptyRemote(token: string, envToken: string, encoding: string, s: Pool)
    requires Covered(s) && (token != "" || envToken != "")
    ensures SyncToGithub(token, envToken, File("", encoding), s, false)
         == Pushed(Join(SortedUnique(LocalUrls(BestProxies(s, 1000))), '\n'))
  {
    EmptyFileIsEmptyText(encoding);
    MergeWithEmptyRemote(BestProxies(s, 1000));
  }

  /** Merged with empty remote text, the content is the sorted local addresses alone. */
  lemma MergeWithEmptyRemote(best: seq<Proxy>)
    ensures NewContent("", best) == Join(SortedUnique(LocalUrls(best)), '\n')
  {
    EmptyRemoteHasNoLines();
    assert [] + LocalUrls(best) == LocalUrls(best);
  }

  /**
   * What a sync pushes, `update_content` stores through `prepareContent`
   * (no file name, no encoded text); the next sync's `get_content` reads it
   * back unchanged.
   */
  lemma PushedReadsBack(token: string, envToken: string, remote: RemoteFile, s: Pool)
    requires Covered(s) && SyncToGithub(token, envToken, remote, s, false).Pushed?
    ensures var c := SyncToGithub(token, envToken, remote, s, false).content;
      RemoteText(File(GithubApi.PrepareContent("", c, "", ""), "base64")) == Some(c)
  {
    var c := SyncToGithub(token, envToken, remote, s, false).content;
    if c == "" {
      EmptyFileIsEmptyText("base64");
    } else {
      GithubApi.ContentRoundTrip(c, "", "");
    }
  }

  // ---------------------------------------------------------------------------
  // fetch_and_validate
  // ---------------------------------------------------------------------------

  /** The pool and `valid_count` part-way through the loop, and whether `add_proxy` has raised. */
  datatype Batch = Batch(pool: Pool, valid: nat, raised: bool)

  /**
   * One turn of the loop: `add_proxy(proxy)`, then `update_proxy_score` on
   * its address with the probe's outcome (default `response_time` 0) at
   * instant `now`, counting the outcome whether or not the add was refused.
   */
  function IngestOne(cfg: Config, b: Batch, p: Proxy, ok: bool, now: Instant): (r: Batch)
    requires WellFormed(b.pool)
    ensures WellFormed(r.pool)
  {
    AddKeeps(cfg, b.pool, p);
    var (res, t) := Add(cfg, b.pool, p);
    if res == MinOfEmptyRaised then Batch(t, b.valid, true)
    else
      UpdateKeeps(cfg, t, ProxyUrl(p), ok, 0.0, now);
      Batch(UpdateScore(cfg, t, ProxyUrl(p), ok, 0.0, now), b.valid + (if ok then 1 else 0), false)
  }

  /** The loop over the first `|ps|` fetched proxies; it stops at a raise. */
  function Ingest(cfg: Config, s: Pool, ps: seq<Proxy>, probes: seq<bool>, nows: seq<Instant>): (b: Batch)
    requires WellFormed(s) && |probes| == |ps| && |nows| == |ps|
    ensures WellFormed(b.pool)
    decreases |ps|
  {
    if |ps| == 0 then Batch(s, 0, false)
    else
      var n := |ps| - 1;
      var b := Ingest(cfg, s, ps[..n], probes[..n], nows[..n]);
      if b.raised then b else IngestOne(cfg, b, ps[n], probes[n], nows[n])
  }

  function CountTrue(bs: seq<bool>): nat
    decreases |bs|
  {
    if |bs| == 0 then 0 else CountTrue(bs[..|bs| - 1]) + (if bs[|bs| - 1] then 1 else 0)
  }

  /** The calls the loop makes on the pool, two per fetched proxy. */
  function Calls(ps: seq<Proxy>, probes: seq<bool>, nows: seq<Instant>): (ops: seq<Op>)
    requires |probes| == |ps| && |nows| == |ps|
    ensures |ops| == 2 * |ps|
    decreases |ps|
  {
    if |ps| == 0 then []
    else
      var n := |ps| - 1;
      Calls(ps[..n], probes[..n], nows[..n]) + [AddOp(ps[n]), UpdateOp(ProxyUrl(ps[n]), probes[n], 0.0, nows[n])]
  }

  lemma {:induction false} RunSnoc(cfg: Config, s: Pool, ops: seq<Op>, op: Op)
    requires WellFormed(s)
    ensures RunKeepsWellFormed(cfg, s, ops)
    ensures Run(cfg, s, ops + [op]) == Step(cfg, Run(cfg, s, ops), op)
    decreases |ops|
  {
    RunKeeps(cfg, s, ops);
    if |ops| > 0 {
      StepKeeps(cfg, s, ops[0]);
      RunSnoc(cfg, Step(cfg, s, ops[0]), ops[1..], op);
      assert (ops + [op])[1..] == ops[1..] + [op];
    }
  }

  /** Well-formedness survives a run, so a step after it is defined. */
  ghost predicate RunKeepsWellFormed(cfg: Config, s: Pool, ops: seq<Op>)
    requires WellFormed(s)
  {
    WellFormed(Run(cfg, s, ops))
  }

  /**
   * Unless an add raised, the loop leaves the pool as the run of its calls
   * does (so every pool lemma about runs applies) and `valid_count` is the
   * number of true probe outcomes, refused adds included.
   */
  lemma {:induction false} IngestIsRun(cfg: Config, s: Pool, ps: seq<Proxy>, probes: seq<bool>, nows: seq<Instant>)
    requires WellFormed(s) && |probes| == |ps| && |nows| == |ps|
    ensures var b := Ingest(cfg, s, ps, probes, nows);
      !b.raised ==> b.pool == Run(cfg, s, Calls(ps, probes, nows)) && b.valid == CountTrue(probes)
    decreases |ps|
  {
    if |ps| > 0 {
      var n := |ps| - 1;
      IngestIsRun(cfg, s, ps[..n], probes[..n], nows[..n]);
      var b := Ingest(cfg, s, ps[..n], probes[..n], nows[..n]);
      if !b.raised {
        var prior := Calls(ps[..n], probes[..n], nows[..n]);
        var add, upd := AddOp(ps[n]), UpdateOp(ProxyUrl(ps[n]), probes[n], 0.0, nows[n]);
        assert Calls(ps, probes, nows) == prior + [add, upd];
        RunTwo(cfg, s, prior, add, upd);
        IngestOneSteps(cfg, b, ps[n], probes[n], nows[n]);
      }
    }
  }

  /** A turn that does not raise makes the two pool calls and counts a successful probe. */
  lemma IngestOneSteps(cfg: Config, b: Batch, p: Proxy, ok: bool, now: Instant)
    requires WellFormed(b.pool)
    ensures WellFormed(Step(cfg, b.pool, AddOp(p)))
    ensures var r := IngestOne(cfg, b, p, ok, now);
      !r.raised ==>
        && r.pool == Step(cfg, Step(cfg, b.pool, AddOp(p)), UpdateOp(ProxyUrl(p), ok, 0.0, now))
        && r.valid == b.valid + (if ok then 1 else 0)
  {
    AddKeeps(cfg, b.pool, p);
  }

  /** Two more calls continue from where the run stopped. */
  lemma RunTwo(cfg: Config, s: Pool, ops: seq<Op>, a: Op, u: Op)
    requires WellFormed(s)
    ensures RunKeepsWellFormed(cfg, s, ops) && WellFormed(Step(cfg, Run(cfg, s, ops), a))
    ensures Run(cfg, s, ops + [a, u]) == Step(cfg, Step(cfg, Run(cfg, s, ops), a), u)
  {
    RunSnoc(cfg, s, ops, a);
    RunKeeps(cfg, s, ops + [a]);
    RunSnoc(cfg, s, ops + [a], u);
    assert ops + [a] + [u] == ops + [a, u];
  }

  /** With a capacity of at least one, `add_proxy` never raises in the loop. */
  lemma {:induction false} IngestNeverRaises(cfg: Config, s: Pool, ps: seq<Proxy>, probes: seq<bool>, nows: seq<Instant>)
    requires WellFormed(s) && |probes| == |ps| && |nows| == |ps| && cfg.maxSize >= 1
    ensures !Ingest(cfg, s, ps, probes, nows).raised
    decreases |ps|
  {
    if |ps| > 0 {
      var n := |ps| - 1;
      IngestNeverRaises(cfg, s, ps[..n], probes[..n], nows[..n]);
    }
  }

  /**
   * What the loop keeps, from the run lemmas: the pool stays well formed,
   * bans are never lifted, a positive capacity is respected and scores stay
   * in [0, 1] when the fetched scores and the pool's are.
   */
  lemma IngestKeeps(cfg: Config, s: Pool, ps: seq<Proxy>, probes: seq<bool>, nows: seq<Instant>)
    requires WellFormed(s) && |probes| == |ps| && |nows| == |ps| && cfg.maxSize >= 1
    ensures var b := Ingest(cfg, s, ps, probes, nows);
      && !b.raised && b.valid == CountTrue(probes)
      && s.banned <= b.pool.banned
      && (Size(s) <= cfg.maxSize ==> Size(b.pool) <= cfg.maxSize)
      && (ScoresInUnit(s) && 0.0 <= cfg.scoreDecay <= 1.0 && (forall p :: p in ps ==> 0.0 <= p.score <= 1.0)
          ==> ScoresInUnit(b.pool))
  {
    IngestNeverRaises(cfg, s, ps, probes, nows);
    IngestIsRun(cfg, s, ps, probes, nows);
    var ops := Calls(ps, probes, nows);
    RunKeeps(cfg, s, ops);
    if forall p :: p in ps ==> 0.0 <= p.score <= 1.0 {
      CallsAddOnlyFetched(ps, probes, nows);
    }
  }

  lemma {:induction false} CallsAddOnlyFetched(ps: seq<Proxy>, probes: seq<bool>, nows: seq<Instant>)
    requires |probes| == |ps| && |nows| == |ps|
    ensures forall i :: 0 <= i < |Calls(ps, probes, nows)| && Calls(ps, probes, nows)[i].AddOp? ==>
      Calls(ps, probes, nows)[i].proxy in ps
    decreases |ps|
  {
    if |ps| > 0 {
      var n := |ps| - 1;
      CallsAddOnlyFetched(ps[..n], probes[..n], nows[..n]);
      var prior := Calls(ps[..n], probes[..n], nows[..n]);
      var ops := Calls(ps, probes, nows);
      forall i | 0 <= i < |ops| && ops[i].AddOp? ensures ops[i].proxy in ps {
        if i < |prior| {
          assert ops[i] == prior[i];
          assert ops[i].proxy in ps[..n];
        }
      }
    }
  }

  /**
   * What `fetch_and_validate` returns, or the `ValueError` of an `add_proxy`.
   * The loop's `valid_count` is only logged, so it is not part of the outcome
   * (`IngestIsRun` states its value).
   */
  datatype FetchOutcome =
    | NothingFetched    // returns 0 before touching the pool
    | Exported(count: nat)  // returns `export_to_text`'s count, the size of `get_best_proxies(1000)`
    | Raised

  /**
   * `fetch_and_validate()`, given what `fetch_all` returned, the outcome of
   * each proxy's `health_check` in the loop, the instant of each score
   * update, and what the probe of each entry did in the closing
   * `batch_health_check` (`checks(k)` for the entry filed under `k`).
   */
  method FetchAndValidate(pool: ProxyPool, fetched: seq<Proxy>, probes: seq<bool>, nows: seq<Instant>, checks: string -> Probe)
    returns (o: FetchOutcome)
    requires pool.Valid() && |probes| == |fetched| && |nows| == |fetched|
    modifies pool
    ensures pool.Valid()
    ensures |fetched| == 0 ==> o == NothingFetched && pool.State() == old(pool.State())
    ensures |fetched| > 0 ==>
      var b := Ingest(pool.cfg, old(pool.State()), fetched, probes, nows);
      && (b.raised <==> o == Raised)
      && (b.raised ==> pool.State() == b.pool)
      && (!b.raised ==> pool.State() == HealthChecked(b.pool, checks) && o == Exported(|BestProxies(b.pool, 1000)|))
  {
    if |fetched| == 0 {
      return NothingFetched;
    }
    ghost var s0 := pool.State();
    var validCount := 0;
    var i := 0;
    while i < |fetched|
      invariant 0 <= i <= |fetched|
      invariant pool.Valid()
      invariant Ingest(pool.cfg, s0, fetched[..i], probes[..i], nows[..i]) == Batch(pool.State(), validCount, false)
    {
      IngestPrefixStep(pool.cfg, s0, fetched, probes, nows, i);
      var r := pool.AddProxy(fetched[i]);
      if r == MinOfEmptyRaised {
        RaisedStops(pool.cfg, s0, fetched, probes, nows, i + 1);
        return Raised;
      }
      pool.UpdateProxyScore(ProxyUrl(fetched[i]), probes[i], 0.0, nows[i]);
      if probes[i] {
        validCount := validCount + 1;
      }
      i := i + 1;
    }
    assert fetched[..i] == fetched && probes[..i] == probes && nows[..i] == nows;
    ghost var looped := pool.State();
    pool.BatchHealthCheck(checks);
    var best := pool.GetBestProxies(1000);
    HealthCheckKeepsBest(looped, checks, 1000);
    o := Exported(|best|);
  }

  /** One more turn of the loop over a prefix that has not raised. */
  lemma IngestPrefixStep(cfg: Config, s: Pool, ps: seq<Proxy>, probes: seq<bool>, nows: seq<Instant>, i: nat)
    requires WellFormed(s) && |probes| == |ps| && |nows| == |ps| && i < |ps|
    requires !Ingest(cfg, s, ps[..i], probes[..i], nows[..i]).raised
    ensures var b := Ingest(cfg, s, ps[..i], probes[..i], nows[..i]);
      Ingest(cfg, s, ps[..i + 1], probes[..i + 1], nows[..i + 1]) == IngestOne(cfg, b, ps[i], probes[i], nows[i])
  {
    assert ps[..i + 1][..i] == ps[..i] && probes[..i + 1][..i] == probes[..i] && nows[..i + 1][..i] == nows[..i];
  }

  /** Once an add has raised, the rest of the batch changes nothing. */
  lemma {:induction false} RaisedStops(cfg: Config, s: Pool, ps: seq<Proxy>, probes: seq<bool>, nows: seq<Instant>, k: nat)
    requires WellFormed(s) && |probes| == |ps| && |nows| == |ps| && k <= |ps|
    requires Ingest(cfg, s, ps[..k], probes[..k], nows[..k]).raised
    ensures Ingest(cfg, s, ps, probes, nows) == Ingest(cfg, s, ps[..k], probes[..k], nows[..k])
    decreases |ps| - k
  {
    if k < |ps| {
      var n := |ps| - 1;
      assert ps[..n][..k] == ps[..k] && probes[..n][..k] == probes[..k] && nows[..n][..k] == nows[..k];
      RaisedStops(cfg, s, ps[..n], probes[..n], nows[..n], k);
      RaisedStep(cfg, s, ps, probes, nows);
    } else {
      assert ps[..k] == ps && probes[..k] == probes && nows[..k] == nows;
    }
  }

  /** A raise before the last proxy is the outcome of the whole batch. */
  lemma RaisedStep(cfg: Config, s: Pool, ps: seq<Proxy>, probes: seq<bool>, nows: seq<Instant>)
    requires WellFormed(s) && |probes| == |ps| && |nows| == |ps| && |ps| > 0
    requires Ingest(cfg, s, ps[..|ps| - 1], probes[..|ps| - 1], nows[..|ps| - 1]).raised
    ensures Ingest(cfg, s, ps, probes, nows) == Ingest(cfg, s, ps[..|ps| - 1], probes[..|ps| - 1], nows[..|ps| - 1])
  {
  }
}
