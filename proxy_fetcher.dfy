/**
 * The legacy collector `runAllwork` (proxyFetcher.py): the remote list is
 * split into lines, every scraped candidate not yet listed is appended, and
 * the non-empty entries are written back one per line. The scrapers and the
 * remote calls are inputs; `freeProxy05`'s URL list is modelled as well.
 */
module LegacyFetcher {
  import opened Text
  import opened PageUrls

  // ---------------------------------------------------------------------------
  // the candidate merge
  // ---------------------------------------------------------------------------

  /** A scraped row as the scrapers yield it: `"%s:%s" % (ip, port)`, with no check of either part. */
  function Candidate(ip: string, port: string): string {
    ip + ":" + port
  }

  /** `list` after `if c not in list: list.append(c)` for each candidate in turn. */
  function AppendAbsent(list: seq<string>, candidates: seq<string>): seq<string>
    decreases |candidates|
  {
    if |candidates| == 0 then list
    else
      var n := |candidates| - 1;
      var l := AppendAbsent(list, candidates[..n]);
      if candidates[n] in l then l else l + [candidates[n]]
  }

  /** The candidates of every scraper, scraper after scraper. */
  function Flatten(batches: seq<seq<string>>): seq<string>
    decreases |batches|
  {
    if |batches| == 0 then [] else Flatten(batches[..|batches| - 1]) + batches[|batches| - 1]
  }

  /**
   * The merge only appends: the starting list is a prefix of the result, so
   * existing entries keep their positions; every candidate ends up in the
   * list; and nothing else is added.
   */
  lemma {:induction false} AppendAbsentGrows(list: seq<string>, candidates: seq<string>)
    ensures list <= AppendAbsent(list, candidates)
    ensures forall c :: c in candidates ==> c in AppendAbsent(list, candidates)
    ensures forall x :: x in AppendAbsent(list, candidates) ==> x in list || x in candidates
    decreases |candidates|
  {
    if |candidates| > 0 {
      var n := |candidates| - 1;
      AppendAbsentGrows(list, candidates[..n]);
      assert candidates == candidates[..n] + [candidates[n]];
    }
  }

  /**
   * Appends bring no repeats: every entry past the starting list occurs
   * nowhere before it. Repeats already in the starting list stay.
   */
  lemma {:induction false} AppendAbsentAddsNoRepeats(list: seq<string>, candidates: seq<string>)
    ensures var r := AppendAbsent(list, candidates);
      forall i :: |list| <= i < |r| ==> r[i] !in r[..i]
    decreases |candidates|
  {
    if |candidates| > 0 {
      var n := |candidates| - 1;
      AppendAbsentAddsNoRepeats(list, candidates[..n]);
      AppendAbsentGrows(list, candidates[..n]);
      var l := AppendAbsent(list, candidates[..n]);
      if candidates[n] !in l {
        var r := l + [candidates[n]];
        forall i | |list| <= i < |r| ensures r[i] !in r[..i] {
          if i < |l| {
            assert r[..i] == l[..i];
          } else {
            assert r[..i] == l;
          }
        }
      }
    }
  }

  /** An empty row is not filtered: it is listed as ":". */
  lemma EmptyRowIsListed(list: seq<string>)
    ensures Candidate("", "") == ":"
    ensures ":" in AppendAbsent(list, [Candidate("", "")])
  {
    AppendAbsentGrows(list, [Candidate("", "")]);
  }

  /**
   * Steps 2 and 3 of `runAllwork`: the remote content split on line breaks
   * (empty pieces and repeats kept), then the nested loop over the scrapers'
   * candidates.
   */
  method MergeCandidates(remote: string, batches: seq<seq<string>>) returns (list: seq<string>)
    ensures list == AppendAbsent(Split(remote, '\n'), Flatten(batches))
  {
    list := Split(remote, '\n');
    ghost var start := list;
    var b := 0;
    while b < |batches|
      invariant 0 <= b <= |batches|
      invariant list == AppendAbsent(start, Flatten(batches[..b]))
    {
      var proxys := batches[b];
      assert batches[..b + 1][..b] == batches[..b];
      assert Flatten(batches[..b]) + proxys[..0] == Flatten(batches[..b]);
      var k := 0;
      while k < |proxys|
        invariant 0 <= k <= |proxys|
        invariant list == AppendAbsent(start, Flatten(batches[..b]) + proxys[..k])
      {
        var oneProxy := proxys[k];
        assert Flatten(batches[..b]) + proxys[..k + 1] == (Flatten(batches[..b]) + proxys[..k]) + [oneProxy];
        if oneProxy !in list {
          list := list + [oneProxy];
        }
        k := k + 1;
      }
      assert proxys[..k] == proxys;
      b := b + 1;
    }
    assert batches[..b] == batches;
  }

  // ---------------------------------------------------------------------------
  // update_data
  // ---------------------------------------------------------------------------

  /** Each non-empty entry followed by a line break, in list order. */
  function Serialized(list: seq<string>): string
    decreases |list|
  {
    if |list| == 0 then ""
    else
      var n := |list| - 1;
      Serialized(list[..n]) + (if list[n] != "" then list[n] + "\n" else "")
  }

  /** The non-empty entries, in order. */
  function NonEmpty(list: seq<string>): (r: seq<string>)
    ensures forall x :: x in r ==> x != "" && x in list
    decreases |list|
  {
    if |list| == 0 then []
    else
      var n := |list| - 1;
      assert forall x :: x in list[..n] ==> x in list;
      NonEmpty(list[..n]) + (if list[n] != "" then [list[n]] else [])
  }

  /** Step 5 of `runAllwork`: `update_data` built by concatenation. */
  method UpdateData(list: seq<string>) returns (updateData: string)
    ensures updateData == Serialized(list)
  {
    updateData := "";
    var i := 0;
    while i < |list|
      invariant 0 <= i <= |list|
      invariant updateData == Serialized(list[..i])
    {
      assert list[..i + 1][..i] == list[..i];
      if list[i] != "" {
        updateData := updateData + list[i] + "\n";
      }
      i := i + 1;
    }
    assert list[..i] == list;
  }

  /** The serialisation is the non-empty entries, each closed by a line break. */
  lemma {:induction false} SerializedIsJoin(list: seq<string>)
    ensures Serialized(list) == Join(NonEmpty(list) + [""], '\n')
    decreases |list|
  {
    if |list| > 0 {
      var n := |list| - 1;
      SerializedIsJoin(list[..n]);
      var ne := NonEmpty(list[..n]);
      if list[n] != "" {
        JoinAppend(ne, list[n]);
        assert NonEmpty(list) == ne + [list[n]];
        assert Serialized(list) == Join(ne + [""], '\n') + list[n] + "\n";
      } else {
        assert NonEmpty(list) == ne;
        assert Serialized(list) == Serialized(list[..n]);
      }
    }
  }

  /** Appending a piece before the closing empty one adds that piece and a line break. */
  lemma {:induction false} JoinAppend(parts: seq<string>, x: string)
    ensures Join(parts + [x] + [""], '\n') == Join(parts + [""], '\n') + x + "\n"
    decreases |parts|
  {
    if |parts| == 0 {
      assert [x] + [""] == [x, ""];
      assert Join([x, ""], '\n') == x + "\n" + Join([""], '\n');
    } else {
      JoinAppend(parts[1..], x);
      assert (parts + [x] + [""])[1..] == parts[1..] + [x] + [""];
      assert (parts + [""])[1..] == parts[1..] + [""];
    }
  }

  /**
   * Reading the written data back as the next run does (split on line
   * breaks) gives the non-empty entries and one final empty piece, when no
   * entry holds a line break.
   */
  lemma SerializedRoundTrip(list: seq<string>)
    requires forall x :: x in list ==> '\n' !in x
    ensures Split(Serialized(list), '\n') == NonEmpty(list) + [""]
  {
    SerializedIsJoin(list);
    var parts := NonEmpty(list) + [""];
    forall i | 0 <= i < |parts| ensures '\n' !in parts[i] {
      if i < |parts| - 1 { assert parts[i] in NonEmpty(list); }
    }
    SplitJoin(parts, '\n');
  }

  // ---------------------------------------------------------------------------
  // freeProxy05
  // ---------------------------------------------------------------------------

  /** The URL list of `freeProxy05(page_count)`: both kuaidaili listings for each page. */
  method FreeProxy05Urls(pageCount: int) returns (urls: seq<string>)
    ensures urls == Expansion(pageCount, KuaidailiTemplates)
    ensures pageCount >= 0 ==> |urls| == pageCount * 2
  {
    urls := Expand(pageCount, KuaidailiTemplates);
    if pageCount >= 0 {
      ExpansionLength(pageCount, KuaidailiTemplates);
    }
  }
}
