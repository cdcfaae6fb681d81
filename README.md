# Proxy pool and collectors, modelled in Dafny

This project models the core of a free-proxy collector. The collector scrapes
`ip:port` addresses from public listing sites, keeps them in a scored pool,
and publishes the list to a file in a GitHub repository. The model covers:

- **The pool** (`proxy_pool.py`):
  - the `Proxy` record with its derived success rate, validity and address;
  - the `ProxyPool` dictionary with its ban-set.
  - Adding evicts the lowest-scored entry at capacity, using Python's `min()` tie-break: first in insertion order. Eviction happens before the duplicate check.
  - Re-adding an address overwrites its counters and timestamps but keeps its score.
  - Each score update moves the score within [0, 1] and bans the address when its failures reach the threshold.
  - Decay, the batch health check's timestamp writes, ranking of the best entries (stable sort, reversed), random choice and statistics.
  - `ProxyPoolStore.ProxyPool` is a class whose fields the methods update in place. Each method is proved to move the state as the matching function of the value-level specification `PoolSpec` does. Every lemma of `PoolSpec` therefore holds of the class.
- **The manager** (`proxy_manager.py`):
  - `fetch_and_validate` adds each fetched proxy and updates its score with the probe's outcome. The loop is proved equal to the run of those pool calls. The closing `batch_health_check` then writes each entry's probe timestamp, which is proved not to change the exported count.
  - `sync_to_github` unites the stripped non-blank lines of the decoded remote file with the addresses of the pool's best entries, sorts them, and pushes the result. Its outcome depends on the token, on whether the remote file could be read and decoded, and on whether the push raised.
- **The optimized fetcher** (`optimized_fetcher.py`):
  - the URL list of the kuaidaili source;
  - `fetch_all`, which concatenates the results that are lists and keeps the first proxy of each address.
- **The legacy collector** (`proxyFetcher.py`):
  - the `runAllwork` merge of scraped rows into the remote list (append if absent);
  - the serialisation written back;
  - the URL list of `freeProxy05`.
- **The format check** (`DoValidator.py`): `formatValidator`, as `re.findall` of its pattern with the matching rules of Python's regular-expression engine. It is proved equal to a plain definition: four dot-separated runs of 1 to 3 ASCII digits, a colon, then 1 to 5 ASCII digits.
- **The GitHub helpers** (`github_api.py`):
  - `preparePath` and `prepareContent`;
  - the decoding step of `get_content`;
  - Base64 as `binascii` implements it (RFC 4648 section 4 alphabet and padding; the non-strict decoder skips characters outside the alphabet and stops at complete padding);
  - UTF-8 as Tables 3-6 and 3-7 of section 3.9 of the Unicode Standard define it.
  - Storing a text and reading it back returns the text.

Files, one module each:

| file | module | models |
|---|---|---|
| `wrappers.dfy` | `Wrappers` | the `Option` type |
| `text.dfy` | `Text` | the Python `str` operations used by the core: `split`, `join`, `strip`, `str(int)`, `<` |
| `proxy_entry.dfy` | `ProxyEntry` | `Proxy` |
| `ranking.dfy` | `Ranking` | `get_best_proxies` ordering |
| `pool_spec.dfy` | `PoolSpec` | `ProxyPool` as state transitions on values |
| `proxy_pool.dfy` | `ProxyPoolStore` | `ProxyPool` as a class |
| `proxy_manager.dfy` | `ProxyManager` | `sync_to_github`, `fetch_and_validate` |
| `page_urls.dfy` | `PageUrls` | page-by-template URL lists |
| `optimized_fetcher.dfy` | `OptimizedFetcher` | `fetch_from_kuaidaili` URLs, `fetch_all` |
| `proxy_fetcher.dfy` | `LegacyFetcher` | `runAllwork`, `freeProxy05` |
| `do_validator.dfy` | `FormatValidation` | `formatValidator` |
| `utf8.dfy` | `Utf8` | `str.encode("utf-8")`, `str(b, "utf-8")` |
| `base64.dfy` | `Base64` | `b64encode`, `b64decode` |
| `github_api.dfy` | `GithubApi` | `preparePath`, `prepareContent`, `get_content` decoding |

## Model

| member | source | states |
|---|---|---|
| ProxyEntry.SuccessRate | proxy_pool.py:33-39 | the rate is in [0, 1]; it is 0 with no attempts and successes/attempts otherwise |
| ProxyEntry.ValidHasSucceeded | proxy_pool.py:41-44 | a valid proxy has at least one success and no more failures than successes |
| ProxyEntry.ProxyUrlShape | proxy_pool.py:46-49 | the address is the ip, a colon, then the decimal port, and ends in a digit |
| Text.Split | proxyFetcher.py:357 | `str.split(sep)` yields at least one piece and no piece holds the separator |
| Text.JoinSplit | proxyFetcher.py:357 | joining the pieces of a split with the separator gives back the text |
| Text.SplitJoin | proxy_manager.py:112 | splitting a join of separator-free pieces gives back the pieces |
| Text.TrimStart | proxy_manager.py:103 | `lstrip()` removes only leading whitespace: the result is a suffix, what it drops is all whitespace, and it does not start with whitespace |
| Text.TrimEnd | proxy_manager.py:103 | `rstrip()` removes only trailing whitespace: the result is a prefix, what it drops is all whitespace, and it does not end with whitespace |
| Text.Strip | proxy_manager.py:103 | `str.strip()` leaves no whitespace at either end and never lengthens the text |
| Text.StripFrame | proxy_manager.py:103 | the stripped text is the slice of the text between its leading and its trailing whitespace, both of which are whitespace only |
| Text.StripChars | proxy_manager.py:103 | every character of the stripped text comes from the text |
| Text.NatToStringIsNumeral | proxy_pool.py:49 | the decimal text of n is non-empty, all digits, has no leading zero, and its value is n |
| Text.IntToStringShape | proxy_pool.py:49 | `str(int)` is non-empty, ends in a digit and holds neither ':' nor a line break |
| Text.StrLessIrreflexive | proxy_manager.py:112 | Python's string `<` is irreflexive |
| Text.StrLessTransitive | proxy_manager.py:112 | Python's string `<` is transitive |
| Text.StrLessTotal | proxy_manager.py:112 | any two distinct strings are ordered one way or the other |
| Ranking.KeyAtLeastTransitive | proxy_pool.py:176-180 | the (score, success_rate) order used by the sort is transitive |
| Ranking.ValidOf | proxy_pool.py:174 | the filtered list holds only valid proxies from the input, and is no longer |
| Ranking.ValidOfCounts | proxy_pool.py:174 | each valid proxy keeps its multiplicity and each invalid one is dropped |
| Ranking.Insert | proxy_pool.py:176-180 | insertion adds exactly one element to the multiset |
| Ranking.InsertSorted | proxy_pool.py:176-180 | insertion into a descending list keeps it descending |
| Ranking.SortDesc | proxy_pool.py:176-180 | the sort is a permutation of its input |
| Ranking.SortDescSorted | proxy_pool.py:176-180 | the sort is descending by (score, success_rate) |
| Ranking.SliceEnd | proxy_pool.py:181 | `[:count]` keeps `count` elements when 0 <= count <= n, never more than n, and never more than a non-negative count |
| Ranking.Best | proxy_pool.py:172-181 | the result is a prefix of the ranked valid proxies, of at most `count` elements |
| Ranking.BestAreValidMembers | proxy_pool.py:172-181 | every returned proxy is a valid pool entry |
| Ranking.BestIsSorted | proxy_pool.py:172-181 | the returned list is descending |
| Ranking.BestDominatesLeftOut | proxy_pool.py:172-181 | every returned proxy ranks at least as high as every valid proxy left out; with a large enough count all valid proxies are returned |
| Ranking.PrefixDominates | proxy_pool.py:175-181 | in a list sorted best first, every proxy of a prefix ranks at least as high as every proxy after it |
| Ranking.ValidOfAlike | proxy_pool.py:174 | lists that rank alike position by position keep alike positions through the validity filter |
| Ranking.InsertAlike | proxy_pool.py:176-180 | an insertion step puts alike elements at alike positions |
| Ranking.InsertTied | proxy_pool.py:176-180 | an insertion step keeps, for every key, the elements with that key in their order |
| Ranking.SortDescStable | proxy_pool.py:176-180 | `sorted` is stable: for every key, the elements with that key come out in the order they went in |
| Ranking.SortDescAlike | proxy_pool.py:176-180 | the stable descending sort puts alike elements at alike positions |
| Ranking.BestAlike | proxy_pool.py:172-181 | pools whose entries rank alike give best lists of the same length that rank alike |
| PoolSpec.Entries | proxy_pool.py:174 | `proxies.values()` lists the entries in key-insertion order |
| PoolSpec.SizeIsKeyCount | proxy_pool.py:193 | `len(proxies)` equals the length of the insertion order |
| PoolSpec.Erase | proxy_pool.py:73 | deleting a key drops exactly that key from the order's members, and an absent key leaves the order as it is |
| PoolSpec.EraseAt | proxy_pool.py:73 | `del d[k]` keeps the other keys in their insertion order: the order loses exactly the key's position |
| PoolSpec.EraseDistinct | proxy_pool.py:73 | deletion keeps the order free of repeats and shortens it by one when the key was present |
| PoolSpec.FirstMinIndex | proxy_pool.py:72 | `min(..., key=score)` picks a lowest score, and the first such one in order |
| PoolSpec.VictimIsFirstMinimum | proxy_pool.py:70-73 | the evicted key is in the pool, has the lowest score, and no earlier key ties with it |
| PoolSpec.EvictWellFormed | proxy_pool.py:69-73 | eviction removes exactly the victim, leaves the other entries, the bans and the order of the other keys as they were, and keeps the pool well formed |
| PoolSpec.AdmitWellFormed | proxy_pool.py:75-87 | admitting a non-banned proxy adds its address, growing the pool by one only for a new address |
| PoolSpec.AdmitScoresInUnit | proxy_pool.py:75-87 | admitting a proxy scored in [0, 1] keeps every score in [0, 1] |
| PoolSpec.AddWellFormed | proxy_pool.py:61-87 | `add_proxy` keeps the pool well formed and never changes the bans |
| PoolSpec.AddRefusesBanned | proxy_pool.py:65-67 | a banned address returns False and changes nothing |
| PoolSpec.AddRespectsCapacity | proxy_pool.py:69-73 | with a capacity of at least 1, adding never raises and never exceeds the capacity; re-adding never grows the pool |
| PoolSpec.AddAtCapacity | proxy_pool.py:69-87 | at capacity the victim is evicted first, then the address is added; when the victim was the address itself, the new record replaces it |
| PoolSpec.AddMergesPresentKey | proxy_pool.py:75-84 | re-adding overwrites the counters, response time and timestamps and keeps the score and identity fields |
| PoolSpec.AddInsertsNewKey | proxy_pool.py:86-87 | below capacity a new address is stored as given, at the end of the order |
| PoolSpec.RemoveIndexed | proxy_pool.py:89-92 | `remove_proxy` keeps the dictionary and its order in agreement |
| PoolSpec.RemoveWellFormed | proxy_pool.py:89-92 | removal drops exactly that key's position from the order and leaves the other entries, their order and the bans unchanged; an absent key changes nothing |
| PoolSpec.BanEffect | proxy_pool.py:118-121 | a ban adds the key to the ban-set and removes its entry and its position in the order, leaving the rest unchanged |
| PoolSpec.ScoredStaysInUnit | proxy_pool.py:102-112 | a success raises the score by 0.1 capped at 1, a failure lowers it by 0.2 floored at 0, and the score stays in [0, 1] |
| PoolSpec.ReplaceKeeps | proxy_pool.py:99-112 | updating a record in place keeps the pool well formed |
| PoolSpec.UpdateWellFormed | proxy_pool.py:94-116 | `update_proxy_score` keeps the pool well formed |
| PoolSpec.Refiled | proxy_pool.py:114-121 | refiling under a present key either keeps order and bans, or bans the key and drops its entry |
| PoolSpec.UpdateEffect | proxy_pool.py:94-116 | the counter, timestamp and response-time effects of a success or a failure, and the ban once failures reach the threshold |
| PoolSpec.ScoredCounters | proxy_pool.py:102-111 | a success adds one to the success count and records the instant and response time; a failure adds one to the failure count and records the instant; the address is kept |
| PoolSpec.UpdateAbsentKey | proxy_pool.py:96-97 | an unknown key changes nothing |
| PoolSpec.DecayEffect | proxy_pool.py:124-128 | every score is multiplied by the decay factor and nothing else changes |
| PoolSpec.DecayScoresInUnit | proxy_pool.py:124-128 | a factor in [0, 1] keeps scores in [0, 1] |
| PoolSpec.EveryPositionDecayed | proxy_pool.py:124-128 | a dictionary holding the decayed entry at every key of the order is the decayed dictionary |
| PoolSpec.HealthCheckedEffect | proxy_pool.py:130-170 | the batch check keeps keys, order and bans; each entry changes only in its probe's timestamp: the success instant on a reply, the failure instant otherwise, nothing when the probe raised |
| PoolSpec.EveryPositionProbed | proxy_pool.py:164-167 | a dictionary holding the probed entry at every key of the order is the batch check's dictionary |
| PoolSpec.HealthCheckKeepsBest | proxy_pool.py:153-181 | after the batch check, `get_best_proxies` returns as many entries as before, each ranking like the one before it at the same position |
| PoolSpec.AddKeeps | proxy_pool.py:61-87 | adding keeps the pool invariants: well-formedness, bans, capacity, scores in [0, 1] |
| PoolSpec.RemoveKeeps | proxy_pool.py:89-92 | removal keeps the pool invariants |
| PoolSpec.BanKeeps | proxy_pool.py:118-121 | banning keeps the pool invariants and only adds to the bans |
| PoolSpec.UpdateKeeps | proxy_pool.py:94-116 | score updates keep the pool invariants |
| PoolSpec.StepKeeps | proxy_pool.py:61-128 | every mutating operation keeps well-formedness, never lifts a ban, respects the capacity and keeps scores in [0, 1] |
| PoolSpec.RunKeeps | proxy_pool.py:61-128 | any sequence of operations keeps the invariants, and afterwards every originally banned address is still refused |
| PoolSpec.SumRates | proxy_pool.py:201 | the sum of the success rates is between 0 and the number of entries |
| PoolSpec.SumScoresInRange | proxy_pool.py:202 | with scores in [0, 1] the score sum is between 0 and the number of entries |
| PoolSpec.QuotientInUnit | proxy_pool.py:201-202 | dividing such a sum by `max(total, 1)` gives a value in [0, 1] |
| PoolSpec.StatisticsCounts | proxy_pool.py:193-200 | `total_proxies` is the pool size, `valid_proxies` is the number of keys whose proxy is valid (so at most the total), `banned_proxies` is the ban-set size |
| PoolSpec.ValidCountAlong | proxy_pool.py:194 | along distinct keys, the valid values are as many as the keys whose value is valid |
| PoolSpec.ValidKeysCons | proxy_pool.py:194 | the count of valid keys steps by one key |
| PoolSpec.ValidCountIsValidKeys | proxy_pool.py:194 | the valid proxies number exactly the dictionary's keys whose proxy is valid |
| PoolSpec.StatisticsRateAverage | proxy_pool.py:201 | the average success rate is in [0, 1], and 0 for an empty pool |
| PoolSpec.StatisticsScoreAverage | proxy_pool.py:202 | the average score is 0 for an empty pool and in [0, 1] when the scores are |
| PoolSpec.ValidProxiesAreEntries | proxy_pool.py:183-189 | the valid proxies are valid pool entries, and there are none exactly when no entry is valid |
| PoolSpec.ScenarioEviction | proxy_pool.py:61-87 | capacity 2 and scores 0.9, 0.5, 0.7: the third add evicts the 0.5 entry |
| PoolSpec.ScenarioBan | proxy_pool.py:109-116 | a third failure under the default threshold bans and removes the proxy |
| PoolSpec.ScenarioTieBreak | proxy_pool.py:176-181 | of entries scored 0.8 (rate 0.9), 0.8 (rate 0.95) and 0.6 (rate 1.0), the best two are the 0.8 entries with the 0.95 one first |
| PoolSpec.BestOfThree | proxy_pool.py:172-181 | three valid entries, the second outranking the first and both the third, give the second and the first as the best two |
| PoolSpec.AllValidKept | proxy_pool.py:174 | the validity filter keeps three valid entries in order |
| PoolSpec.SortThree | proxy_pool.py:176-180 | the stable descending sort puts the entry that outranks the first in front of it, and both before the one they outrank |
| PoolSpec.ScenarioStableTie | proxy_pool.py:176-181 | entries with equal score and rate keep their dictionary order |
| PoolSpec.BestOfTwo | proxy_pool.py:172-181 | two valid entries, the first ranking at least as high, are returned in their dictionary order |
| ProxyPoolStore.ProxyPool.constructor | proxy_pool.py:55-59 | a new pool is empty, with no bans |
| ProxyPoolStore.ProxyPool.AddProxy | proxy_pool.py:61-87 | the result and new state are those of `PoolSpec.Add`, and the pool stays well formed |
| ProxyPoolStore.ProxyPool.RemoveProxy | proxy_pool.py:89-92 | the new state is that of `PoolSpec.Remove` |
| ProxyPoolStore.ProxyPool.BanProxy | proxy_pool.py:118-121 | the new state is that of `PoolSpec.Ban`, and the pool stays well formed |
| ProxyPoolStore.ProxyPool.UpdateProxyScore | proxy_pool.py:94-116 | the new state is that of `PoolSpec.UpdateScore`, and the pool stays well formed |
| ProxyPoolStore.ProxyPool.DecayScores | proxy_pool.py:124-128 | the new state is that of `PoolSpec.Decay`, and the pool stays well formed |
| ProxyPoolStore.ProxyPool.GetBestProxies | proxy_pool.py:172-181 | the result is `PoolSpec.BestProxies` of the state: at most `count` valid pool entries in descending order; every valid entry left out ranks no higher than every entry returned, and all valid entries are returned when `count` is at least their number |
| ProxyPoolStore.ProxyPool.BatchHealthCheck | proxy_pool.py:130-170 | the new state is that of `PoolSpec.HealthChecked`: each entry carries the timestamp its own probe wrote, and the pool stays well formed |
| ProxyPoolStore.ProxyPool.GetRandomProxy | proxy_pool.py:183-189 | None exactly when no entry is valid; otherwise one valid entry of the pool |
| ProxyPoolStore.ProxyPool.GetStatistics | proxy_pool.py:191-203 | the result is `Statistics` of the state: the counts (`valid_proxies` the number of valid entries), and both averages in [0, 1] (0 on an empty pool) |
| ProxyManager.InsertAscendingKeeps | proxy_manager.py:112 | inserting into a strictly ascending list keeps it ascending and adds exactly that element |
| ProxyManager.PutInFront | proxy_manager.py:112 | an element below the head of an ascending list goes in front, keeping it ascending |
| ProxyManager.KeepInFront | proxy_manager.py:112 | the head stays in front when an element above it is put into the rest |
| ProxyManager.SortedUniqueIsSortedSet | proxy_manager.py:112 | the result is strictly ascending and has the same elements as its input |
| ProxyManager.AscendingDistinct | proxy_manager.py:112 | a strictly ascending list has no repeats |
| ProxyManager.AscendingUnique | proxy_manager.py:112 | two strictly ascending lists with the same elements are equal, so the result is `sorted(set(...))` |
| ProxyManager.NonBlankStrippedLines | proxy_manager.py:103 | every kept entry is a non-empty stripped input line, and every line that strips to something non-empty is kept, stripped |
| ProxyManager.RemoteLinesShape | proxy_manager.py:101-103 | no remote entry is blank, starts or ends with whitespace, or holds a line break |
| ProxyManager.EmptyRemoteHasNoLines | proxy_manager.py:101-103 | empty remote content lists nothing |
| ProxyManager.LocalUrls | proxy_manager.py:106 | the local list holds the address of each best proxy, in order |
| ProxyManager.MergedIsSortedUnion | proxy_manager.py:101-112 | the merged list is the union of the remote lines and local addresses, strictly ascending, and the only such list |
| ProxyManager.MergedMembers | proxy_manager.py:109 | every merged entry comes from the remote lines or the local addresses |
| ProxyManager.LocalUrlsEnd | proxy_manager.py:106 | every local address is non-empty and does not end in a line break |
| ProxyManager.LocalUrlsWithoutBreaks | proxy_manager.py:106 | with no line break in any ip, no local address holds one |
| ProxyManager.MergedEntriesEnd | proxy_manager.py:109-112 | every merged entry is non-empty and does not end in a line break |
| ProxyManager.NewContentHasNoTrailingNewline | proxy_manager.py:112 | the pushed text does not end in a line break |
| ProxyManager.JoinOfUnbrokenEnds | proxy_manager.py:112 | a '\n'-join of pieces that do not end in a line break does not end in one |
| ProxyManager.NewContentLines | proxy_manager.py:112 | splitting the pushed text on line breaks gives back the merged list |
| ProxyManager.SyncOutcomes | proxy_manager.py:83-130 | no token gives False before any remote call; with a token the result is True exactly when the remote file was read, its content decoded (valid Base64 and UTF-8 when so encoded) and the push did not raise, and then the merge with the pool's `get_best_proxies(1000)` addresses is pushed |
| ProxyManager.SyncOfEmptyRemote | proxy_manager.py:100-112 | empty remote content, in any encoding, still pushes the sorted addresses of the pool's best entries |
| ProxyManager.MergeWithEmptyRemote | proxy_manager.py:100-112 | merged with empty remote text, the content is the sorted local addresses alone |
| ProxyManager.EmptyFileIsEmptyText | proxy_manager.py:93-98 | an empty remote file reads as empty text |
| ProxyManager.PushedReadsBack | proxy_manager.py:116-123 | the content a sync pushes is read back unchanged by the next `get_content` |
| ProxyManager.IngestOne | proxy_manager.py:55-66 | one turn of the loop keeps the pool well formed |
| ProxyManager.Ingest | proxy_manager.py:55-67 | the loop keeps the pool well formed |
| ProxyManager.Calls | proxy_manager.py:55-66 | the loop makes two pool calls per fetched proxy |
| ProxyManager.RunSnoc | proxy_manager.py:55-66 | running one more call continues from where the run stopped |
| ProxyManager.IngestIsRun | proxy_manager.py:54-67 | unless an add raised, the pool is the run of the loop's calls and `valid_count` is the number of successful probes |
| ProxyManager.IngestOneSteps | proxy_manager.py:54-67 | one proxy that does not raise is an add and a score update on the pool, and counts as valid exactly when its probe succeeded |
| ProxyManager.RunTwo | proxy_manager.py:54-67 | running two more calls is the two steps after the run, and the pool stays well formed |
| ProxyManager.IngestNeverRaises | proxy_manager.py:55-57 | with a capacity of at least 1, no add raises |
| ProxyManager.IngestKeeps | proxy_manager.py:55-67 | the loop keeps the pool invariants: bans kept, capacity respected, scores in [0, 1] |
| ProxyManager.CallsAddOnlyFetched | proxy_manager.py:55-57 | the only proxies added are the fetched ones |
| ProxyManager.IngestPrefixStep | proxy_manager.py:55-66 | one more turn of the loop over a prefix that has not raised |
| ProxyManager.FetchAndValidate | proxy_manager.py:47-79 | nothing fetched returns 0 and leaves the pool as it was; a raising add ends the call with the pool as the loop left it; otherwise the pool is the loop's pool after the batch health check, and the result is the count `get_best_proxies(1000)` gives on the loop's pool |
| ProxyManager.RaisedStops | proxy_manager.py:55-57 | once an add raises, the rest of the batch changes nothing |
| ProxyManager.RaisedStep | proxy_manager.py:55-57 | a batch whose prefix already raised ends where the prefix ended |
| PageUrls.PageRow | optimized_fetcher.py:34-35 | one URL per template, in template order, with the page number filled in |
| PageUrls.ExpansionLength | optimized_fetcher.py:32-35 | there are pages × templates URLs |
| PageUrls.ExpansionAt | optimized_fetcher.py:32-35 | the URL at position (page - 1) × templates + j is template j filled with the page number |
| PageUrls.ExpansionLayout | optimized_fetcher.py:32-35 | the length and the position of every page and template together |
| PageUrls.Expand | optimized_fetcher.py:32-35 | the nested loop builds the page-by-template list |
| PageUrls.AppendRow | optimized_fetcher.py:34-35 | the inner loop appends one page's URL for every template, in template order |
| OptimizedFetcher.KuaidailiUrls | optimized_fetcher.py:29-35 | a disabled source requests nothing; otherwise every template for pages 1 to `pages`, pages × templates URLs |
| OptimizedFetcher.KuaidailiDefaultUrls | config.py:53-60 | the shipped configuration requests ten URLs, starting with page 1 of both listings |
| OptimizedFetcher.DedupKeys | optimized_fetcher.py:319-325 | the addresses kept are exactly the addresses seen |
| OptimizedFetcher.DedupIsFirstOccurrences | optimized_fetcher.py:319-325 | the dedup is the first proxy of each address, in first-seen order |
| OptimizedFetcher.DedupDistinct | optimized_fetcher.py:319-325 | no two kept proxies share an address |
| OptimizedFetcher.FetchAll | optimized_fetcher.py:311-325 | the result is the dedup of the concatenated list results |
| OptimizedFetcher.UniqueProxies | optimized_fetcher.py:319-325 | the dictionary loop yields the dedup by address |
| OptimizedFetcher.FailuresContributeNothing | optimized_fetcher.py:313-316 | dropping the non-list results changes nothing |
| OptimizedFetcher.OnlyLists | optimized_fetcher.py:315 | only list results are kept |
| OptimizedFetcher.EveryListedAddressKept | optimized_fetcher.py:311-325 | the address of every proxy in every list result appears in the output |
| OptimizedFetcher.GatheredHolds | optimized_fetcher.py:313-316 | every proxy of a list result is in the concatenation |
| LegacyFetcher.AppendAbsentGrows | proxyFetcher.py:372-374 | the remote list is a prefix of the result, every candidate is in it, and nothing else is added |
| LegacyFetcher.AppendAbsentAddsNoRepeats | proxyFetcher.py:372-374 | no appended entry occurs earlier in the list |
| LegacyFetcher.EmptyRowIsListed | proxyFetcher.py:91-93 | a row with an empty ip and port is listed as ":" |
| LegacyFetcher.MergeCandidates | proxyFetcher.py:357-375 | the loop gives the append-if-absent merge of all candidates, in order, into the split remote content |
| LegacyFetcher.NonEmpty | proxyFetcher.py:385-388 | only non-empty entries of the list are kept |
| LegacyFetcher.UpdateData | proxyFetcher.py:385-388 | the text is each non-empty entry followed by a line break, in list order |
| LegacyFetcher.SerializedIsJoin | proxyFetcher.py:385-388 | the text is the non-empty entries joined by line breaks, with a closing line break |
| LegacyFetcher.JoinAppend | proxyFetcher.py:388 | appending an entry adds it and a line break to the text |
| LegacyFetcher.SerializedRoundTrip | proxyFetcher.py:385-388 | split on line breaks, the written text gives the non-empty entries and one empty last piece |
| LegacyFetcher.FreeProxy05Urls | proxyFetcher.py:114-123 | both kuaidaili listings for each page, two URLs per page |
| FormatValidation.CountDigits | DoValidator.py:64 | a greedy `\d{1,m}` consumes at most m digits and stops before a non-digit |
| FormatValidation.Match | DoValidator.py:64 | a match ends within the text, at or after its start |
| FormatValidation.Backtrack | DoValidator.py:64 | a match after backtracking consumes at least one digit |
| FormatValidation.DottedIsJoin | DoValidator.py:64 | the dotted form is the octets joined by '.', then ':' and the port |
| FormatValidation.DottedSplit | DoValidator.py:64 | a dotted text has the reference format exactly when it has four octets of 1-3 digits and a port of 1-5 digits |
| FormatValidation.ProxyFormatIsDotted | DoValidator.py:64 | every text of the reference format is four octets and a port in dotted form |
| FormatValidation.CountDigitsStops | DoValidator.py:64 | the greedy count is the length of the digit run, capped |
| FormatValidation.ShorterRepeatsFail | DoValidator.py:64 | backing off inside a digit run never meets the following literal |
| FormatValidation.RunThenLiteral | DoValidator.py:64 | a digit run followed by its literal matches as the rest of the pattern does after them |
| FormatValidation.RunToEnd | DoValidator.py:64 | a final digit run of allowed length matches to the end |
| FormatValidation.BacktrackFound | DoValidator.py:64 | a backtracking match comes from some shorter run |
| FormatValidation.RunThenLiteralFound | DoValidator.py:64 | a match of a run then a literal splits the text into the run, the literal and the rest |
| FormatValidation.RunToEndFound | DoValidator.py:64 | a final run that matches to the end is 1 to m digits |
| FormatValidation.LastOctetAndPortMatch | DoValidator.py:64 | an octet, ':' and a port match the pattern's tail |
| FormatValidation.LastOctetAndPortFound | DoValidator.py:64 | a full match of the pattern's tail is an octet, ':' and a port |
| FormatValidation.RunLiteralRunFound | DoValidator.py:64 | a match to the end of a digit run, a literal and a digit run is two digit texts of the allowed lengths around the literal |
| FormatValidation.DottedMatches | DoValidator.py:64 | octets and a port in dotted form match the pattern to the end |
| FormatValidation.MatchedIsDotted | DoValidator.py:64 | a match to the end is octets and a port in dotted form |
| FormatValidation.LeadingOctetFound | DoValidator.py:64 | a match with octets still to come starts with an octet and a '.', and the rest matches the shorter pattern |
| FormatValidation.DottedCons | DoValidator.py:64 | an octet in front of a dotted text is the dotted text of one more octet |
| FormatValidation.FullMatchIffFormat | DoValidator.py:64 | the pattern matches the whole text exactly when the text has the reference format |
| FormatValidation.FirstFound | DoValidator.py:65 | the first `findall` result is a match at some position at or after the start |
| FormatValidation.NothingAtEnd | DoValidator.py:65 | there are no matches at the end of the text |
| FormatValidation.FormatValidatorIsProxyFormat | DoValidator.py:62-66 | `formatValidator` accepts exactly the texts of the reference format |
| FormatValidation.AcceptsOutOfRange | DoValidator.py:62-66 | octets above 255 and port 0 are accepted |
| FormatValidation.RejectsPieces | DoValidator.py:62-66 | a wrong octet or port in dotted form is rejected |
| FormatValidation.RejectsLongOctet | DoValidator.py:62-66 | a four-digit octet is rejected |
| FormatValidation.RejectsLongPort | DoValidator.py:62-66 | a six-digit port is rejected |
| FormatValidation.RejectsLeadingSpace | DoValidator.py:62-66 | leading whitespace is rejected |
| FormatValidation.RejectsTrailingSpace | DoValidator.py:62-66 | trailing whitespace is rejected |
| FormatValidation.RejectsPrefix | DoValidator.py:62-66 | text before the address is rejected |
| FormatValidation.RejectsEmpty | DoValidator.py:62-66 | the empty text is rejected |
| Utf8.EncodeChar | github_api.py:55 | a character encodes to 1 to 4 bytes |
| Utf8.DecodeFirst | github_api.py:198 | a well-formed first character takes between 1 byte and the rest of the input |
| Utf8.DecodeTwo | github_api.py:198 | a two-byte encoding decodes back to its character |
| Utf8.DecodeThree | github_api.py:198 | a three-byte encoding decodes back to its character |
| Utf8.DecodeFour | github_api.py:198 | a four-byte encoding decodes back to its character |
| Utf8.DecodeEncodedChar | github_api.py:198 | the bytes of a character decode back to it, whatever follows |
| Utf8.DecodeEncode | github_api.py:198 | strict decoding inverts encoding |
| Utf8.EncodeDecodedTwo | github_api.py:198 | a well-formed two-byte sequence is the encoding of the character it decodes to |
| Utf8.EncodeDecodedThree | github_api.py:198 | a well-formed three-byte sequence is the encoding of the character it decodes to |
| Utf8.EncodeDecodedFour | github_api.py:198 | a well-formed four-byte sequence is the encoding of the character it decodes to |
| Utf8.EncodeDecodedChar | github_api.py:198 | the character the strict decoder reads first encodes back to exactly the bytes it consumed |
| Utf8.DecodeStep | github_api.py:198 | a successful decode is a first character, whose encoding is the bytes it took, followed by the decoded rest |
| Utf8.EncodeCons | github_api.py:55 | encoding a string is encoding its first character, then the rest |
| Utf8.EncodeDecode | github_api.py:198 | encoding inverts strict decoding: the decoder accepts exactly the encodings of strings |
| Utf8.EncodeAscii | github_api.py:198 | ASCII text encodes to one byte per character, each the character's code |
| Utf8.EncodeAppend | github_api.py:55 | encoding distributes over concatenation |
| Base64.AlphabetChar | github_api.py:55 | alphabet characters are ASCII and never the pad '=' |
| Base64.SextetOf | github_api.py:198 | a byte's value is 64 for a byte outside the alphabet and below 64 otherwise |
| Base64.SextetOfAlphabet | github_api.py:198 | decoding an alphabet character gives back its value |
| Base64.EncodeLength | github_api.py:55 | n bytes encode to 4 × ceil(n / 3) characters |
| Base64.EncodePadding | github_api.py:55 | exactly the last 0, 1 or 2 characters are '=', as n mod 3 requires |
| Base64.Feed | github_api.py:198 | each data character keeps the carried bits within the bytes they complete |
| Base64.EncodeFour | github_api.py:198 | an ASCII group encodes to its four codes |
| Base64.ScanData | github_api.py:198 | a data character feeds the decoder and resets the pad count |
| Base64.RegroupBytes | github_api.py:198 | the three bytes split into four sextets and rejoin |
| Base64.SkipsNonAlphabet | github_api.py:198 | a byte outside the alphabet other than '=' is skipped wherever it stands |
| Base64.SkipsNewline | github_api.py:198 | a line break anywhere in the input does not change the decoded bytes |
| Base64.ScanQuad | github_api.py:198 | a full group decodes to its three bytes and the decoder is back at a group boundary |
| Base64.ScanFourData | github_api.py:198 | four alphabet characters feed their sextets in order before the rest is scanned |
| Base64.FeedGroup | github_api.py:198 | the four sextets of three bytes, fed at a group boundary, append those three bytes |
| Base64.ScanOneByteGroup | github_api.py:198 | a final one-byte group with its two pads decodes to that byte |
| Base64.ScanTwoByteGroup | github_api.py:198 | a final two-byte group with its pad decodes to those bytes |
| Base64.ScanLeadingQuad | github_api.py:198 | the first group of an encoding decodes and the rest continues |
| Base64.EncodedBytesSplit | github_api.py:198 | the encoding of data of three bytes or more is the first group's text followed by the encoding of the rest |
| Base64.ScanEncoded | github_api.py:198 | the decoder reads back every byte of an encoding |
| Base64.DecodeEncode | github_api.py:198 | `b64decode(b64encode(data))` gives back `data` |
| GithubApi.PreparePath | github_api.py:64-67 | the result starts with the prefix, is the input when it already does, and otherwise ends with the input |
| GithubApi.PreparePathIdempotent | github_api.py:64-67 | applying it twice is the same as once |
| GithubApi.PrepareContentPriority | github_api.py:47-60 | the first non-empty source wins: verbatim, else the text's Base64 (4 × ceil(n / 3) long, decoding back to its bytes), else the file's, else "" |
| GithubApi.ContentRoundTrip | github_api.py:195-200 | a text prepared by `prepareContent` and read back by `get_content` is unchanged |
| GithubApi.FileContentRoundTrip | github_api.py:56-58 | the same for the text read from a file |
| GithubApi.OtherEncodingVerbatim | github_api.py:197-200 | content in another encoding is returned as it is |
| GithubApi.EmptyContent | github_api.py:195-200 | empty content decodes to empty text under any encoding |

## Left out

- `health_check`: the network probe itself is not modelled. Its outcome is an input: a boolean per fetched proxy in the loop of `fetch_and_validate`, and a `PoolSpec.Probe` per entry in `batch_health_check`. The timestamp a loop probe writes is not modelled separately: it lands on the fetched object, which the score update that follows overwrites in the same field when the object is the pooled one, and which is discarded otherwise. The timestamps the batch check writes are modelled (`PoolSpec.HealthChecked`).
- File I/O is not modelled: `save_to_file`, `load_from_file`, `export_to_text` (only its count, the size of `get_best_proxies(1000)`), `saveData`.
- `read_file_as_str` is a parameter (`fileText`) of `GithubApi.PrepareContent`.
- The remote calls of github_api.py (`getSha`, `update_content`, JSON parsing) are out of scope. `get_content` is modelled from the `content` and `encoding` fields onwards. Whether a remote call raised is an input of `ProxyManager.SyncToGithub`.
- Logging and `print` are out of scope.
- All page scrapers (the `freeProxyNN` bodies, the `fetch_from_*` parsers, `batch_request`) are out of scope. Their outputs are inputs: `TaskResult` lists and candidate batches.
- A scraper exception in `runAllwork` aborts the whole run. The model only sees the batches the scrapers produced.
- Floating point: scores, rates and response times are exact reals. IEEE rounding of `score + 0.1`, `score - 0.2` and `score * decay` is not modelled.
- `datetime.now()`: instants are opaque `Instant` inputs, one per score update.
- Object aliasing: `Proxy` is a value. A caller holding a reference to a pooled `Proxy` does not see later updates.
- `decay_scores`: the class computes the decayed map and assigns it once. The effect per entry is the same as Python's in-place loop.
- Thread and coroutine interleaving are not modelled. Each pool operation runs to completion.
- `random.choice`: `ProxyPoolStore.ProxyPool.GetRandomProxy` returns some valid entry. Which one is left open.
- FormatValidation: `\d` is ASCII digits only. Python's `\d` on `str` also matches other Unicode decimal digits.
- FormatValidation.FindAll: the step past an empty match is simplified. This pattern never matches empty text.
- `str.format` with templates holding one `{}` only (`PageUrls.UrlTemplate`).
- `Base64.Decode` follows the non-strict `a2b_base64` of CPython 3.7 and later.
- ProxyManager.NewContentLines: this needs a premise that no best proxy's ip holds a line break, and a non-empty merged list. An ip with a line break would be split into two lines on the next read.
- LegacyFetcher.SerializedRoundTrip: this needs a premise that no entry holds a line break.
- `sync_to_github` with empty remote content proceeds and pushes the local addresses (`ProxyManager.SyncOfEmptyRemote`). Only a raised exception gives False. The model follows the code here.
