# Search-server decision logic, modelled and proved in Dafny

This project models the in-memory decisions of a multi-engine search server: how ranked lists are
fused, filtered and diversified, how calls are rate-limited, retried and spread over keys and
providers, how concurrent answers are merged, how long an engine backs off, and how the health of a
source is judged. Each Go source file of that logic has a module here:

| module | source file |
|---|---|
| `Fusion`, `UrlAggs`, `Academic`, `Floor`, `Rescue` | `pkg/search/enhance/academic_enhance.go` |
| `Core`, `WebEnhance` | `pkg/search/enhance/enhance.go`, `pkg/search/core/inf.go` |
| `Mmr` | `pkg/search/enhance/mmr.go`, `pkg/search/enhance/enhance_text.go` |
| `RateLimiting` | `pkg/antirobot/limiter.go` |
| `KeyPools` | `pkg/search/provider/keypool.go` |
| `Apipool`, `Weighted` | `pkg/search/apipool/apipool.go` |
| `Hybrid`, `RoundRobin` | `pkg/search/hybrid/hybrid.go` |
| `Searcher` | `pkg/antirobot/searcher.go` |
| `Arxiv` | `pkg/academic/arxiv.go` |
| `Telemetry`, `Health`, `Suspension` | `pkg/telemetry/store.go`, `pkg/telemetry/suspension.go` |
| `PageSpec`, `Text` | `mcp/tool_pdf.go` |

`Seqs`, `Sorting`, `Modular` and `Durations` are the toolkit. `dafny verify dfyconfig.toml` checks
everything.

## How to read it

Objects whose methods update their fields are classes; loops are methods with invariants. Each is
proved equal to a value-level specification, and the theorems are lemmas about those
specifications. Floating-point numbers are reals. Time is an explicit integer that never runs
backwards. A locked Go method is one atomic step. HTTP calls, SQL, random numbers, tokenising,
scoring signals and the two key normalisers are parameters: arbitrary functions, with only the
assumptions a contract names. Strings are sequences of Unicode characters; where the source measures
one in bytes, `Text.ByteLength` does. A Go standard stable sort is
`Sorting.SortDesc`, and `Sorting.StableSortUnique` shows that no other result is possible; an
unstable sort is either shown to have one outcome or left open in the contract.

## Where the code does less than its documentation says

Each of these is shown on a concrete input, and each with a condition has the exact one proved.

- The page-range parser expands a range with a 64-bit counter and a `p <= to` test. A range that ends
  at the greatest 64-bit integer, `9223372036854775807-9223372036854775807` being one of width 1, is
  within the width cap and is never done. The parser gets stuck exactly when such a range comes
  before any bad part (`PageSpec.LoopEndsIff`, `PageSpec.AnswerIff`, `PageSpec.TopRange`).
- The key-pool cursor is an unsigned 64-bit counter taken modulo the pool size. A call of `Next`
  probes every slot exactly when it stays clear of the wrap or the size divides 2^64
  (`KeyPools.VisitsAllIff`, `KeyPools.WrapMissesUsable`).
- The retry loop of the key-provider failover ends only because each engine call draws a key. An
  engine that fails before drawing one, as `pkg/search/provider/doubao.go:207-213` can, keeps the
  loop going for ever exactly when a usable key other than the last one handed out is left
  (`Apipool.UndrawnRetriesForever`, `Apipool.FreshPoolUndrawn`).
- Past 2^63 searches the round-robin start can be a negative index, and the search crashes
  (`Apipool.RoundRobinStart`, `Apipool.RoundRobinNegative`).
- The weighted start is proportional to the weights exactly while their total fits 64 bits
  (`Weighted.ProportionalIff`, `Weighted.WeightTooLarge`).
- "Each engine's first result is restored" holds of an engine exactly when that result has a key and
  the entry that took it in is kept on its own account, which may show neither of the result's keys
  (`Rescue.FirstKeptIff`, `Rescue.RescueFails`).
- The semaphore bounds `execOne` calls, not engine searches: a timed-out search goes on after its
  permit is returned (`Searcher.SearchesBoundedIff`, `Searcher.TwoInFlight`).
- The arXiv retry neither asks the rate limiter nor is entered in its log. Adjacent requests keep the
  official 3 seconds over all sessions exactly when no retry can ever be made, that is, when no
  Retry-After the server may send fits the search budget. A wait of 3 seconds is not enough: the next
  search can send at the very instant of the retry (`Arxiv.SpacingIff`, `Arxiv.RetryTooSoon`).
- A suspension is anchored at the newest failure unless that failure has no error kind
  (`Health.AnchoredAtNewestIff`, `Health.AnchoredAtInstantIff`, `Health.AnchoredEarlier`), and cleanup
  can hide a down source (`Health.DownAfterCleanup`, `Health.CleanupHidesDown`).

## Model

| member | source | states |
|---|---|---|
| `Sorting.StableSortUnique` | pkg/search/enhance/academic_enhance.go:192-194 | any ordered rearrangement that keeps equal scores in place is the modelled sort, so results do not depend on the library's algorithm |
| `Core.SharesKeyMeans` | pkg/search/enhance/enhance.go:80-88 | two results share a key exactly when they agree on a non-blank DOI key or a non-blank URL key |
| `Fusion.FusedKeysDisjoint` | pkg/search/enhance/academic_enhance.go:117-175 | after any sequence of hits the entries have non-empty, pairwise disjoint key sets, although URL index entries get re-pointed |
| `Fusion.DoiNeverRepointed` | pkg/search/enhance/academic_enhance.go:133-146 | once a DOI leads to an entry it leads there after any further hits |
| `Fusion.SameDoiSameEntry` | pkg/search/enhance/academic_enhance.go:133-146 | two hits with one non-blank DOI end in the same entry, whatever comes between |
| `Fusion.EntriesGather` | pkg/search/enhance/academic_enhance.go:127-175 | the merge is a partition: each entry is the merge of exactly the hits it owns |
| `Fusion.GatherCounts` | pkg/search/enhance/academic_enhance.go:169-173 | an entry's fused rank is the sum of its hits' shares, its engines those that hit it, each once |
| `Fusion.ShareMeans` | pkg/search/enhance/academic_enhance.go:122-126 | a hit's rank share times 60 plus its rank is its bucket's weight, or 1 for a weight that is not positive |
| `Fusion.HitOfBuckets` | pkg/search/enhance/academic_enhance.go:122-127 | the hits are exactly each bucket's results with their ranks from 0 |
| `Fusion.GatherMetadata` | pkg/search/enhance/academic_enhance.go:147-168 | an entry has the highest citation count and the longest content of its hits, the first title, date, journal, PDF link and DOI that are not blank, and the first hit's URL |
| `Fusion.RrfConserved` | pkg/search/enhance/academic_enhance.go:122-175 | the fused ranks of all entries add up to the shares of all hits that have a key |
| `Fusion.RrfTotalUnordered` | pkg/search/enhance/academic_enhance.go:122-175 | the total of the fused ranks is the same for any order of the buckets |
| `Academic.FuseBuckets` | pkg/search/enhance/academic_enhance.go:117-175 | the loops over shared mutable entries leave the heap as the value-level table says |
| `Floor.ApplyAcademicScoreFloor` | pkg/search/enhance/academic_enhance.go:213-281 | the loops with their key sets compute the three-pass floor |
| `Floor.FloorIsFilter` | pkg/search/enhance/academic_enhance.go:213-281 | on sorted results with disjoint keys the floor is an exact order-preserving filter; the rescue duplicates nothing and the last sort moves nothing |
| `Academic.EnhanceAcademicResults` | pkg/search/enhance/academic_enhance.go:114-206 | the whole method returns the capped floor of the ranked entries, every one scored from the hits it owns and the signals of its merged fields |
| `Academic.RankedFromHits` | pkg/search/enhance/academic_enhance.go:176-190 | a ranked result is an entry whose score is (summed rank shares * citation factor + journal boost + 0.03 for a PDF link) * recency factor |
| `Academic.DateEffect` | pkg/search/enhance/academic_enhance.go:184 | of two entries alike but for the date the scores stand in the ratio of the recency factors, and the one with the greater factor ranks first |
| `Academic.SignalEffects` | pkg/search/enhance/academic_enhance.go:178-184 | what rank shares, citations, journal and PDF link each add to the score of two entries alike in the rest |
| `Academic.AcademicPipeline` | pkg/search/enhance/academic_enhance.go:114-206 | for any buckets the floored list is the subsequence of the ranking that is first, reaches the threshold (0.02 by default) or shares a key with some engine's first result; it is ordered, its keys are separate and the best entry leads the output |
| `Rescue.SurvivesIff` | pkg/search/enhance/academic_enhance.go:208-273 | an entry survives exactly when it is best, reaches the threshold, or shows a key of some engine's first result |
| `Rescue.FirstKeptIff` | pkg/search/enhance/academic_enhance.go:208-273 | an engine's first result is kept exactly when it has a key and the entry that took it in is best, reaches the threshold, or shows a key of some engine's first result |
| `Rescue.RescueFails` | pkg/search/enhance/academic_enhance.go:211 | input on which, with the source's own scores and the default threshold, an engine's first result is not restored, against the documented promise |
| `WebEnhance.KeyOrderFacts` | pkg/search/enhance/enhance.go:111-130 | entries are one per non-blank URL key that occurs |
| `WebEnhance.KeyOrderFirst` | pkg/search/enhance/enhance.go:111-130 | in the order of the first hits with those keys |
| `WebEnhance.EntryMeans` | pkg/search/enhance/enhance.go:141-146 | a URL's fused rank is the sum over the hits with its key, its engines those that hit it, each once |
| `WebEnhance.EntryText` | pkg/search/enhance/enhance.go:122-139 | a URL's entry has the longest content, the first title and date that are not blank, and all else of its first hit |
| `WebEnhance.BucketOrderIrrelevant` | pkg/search/enhance/enhance.go:114-148 | any rearrangement of the buckets leaves each URL's fused rank and engine set as they were |
| `WebEnhance.FuseByUrl` | pkg/search/enhance/enhance.go:111-148 | the loops over mutable entries leave for each URL the merge of its hits |
| `WebEnhance.UrlScoreMeans` | pkg/search/enhance/enhance.go:150-166 | a URL's score from its hits' rank shares, the signals of the merged entry and the number of engines that agree: 0.05, 0.10 or 0.12 for two, three or more |
| `WebEnhance.UrlSignalEffects` | pkg/search/enhance/enhance.go:150-166 | what recency, authority, agreement, alignment and rank shares each do to the scores of two URLs alike in the rest |
| `WebEnhance.ApplyScoreFloor` | pkg/search/enhance/enhance.go:198-222 | on sorted input a prefix of length max(min(2, n), number at the threshold, 0.05 by default) |
| `WebEnhance.EnhanceResultsMMR` | pkg/search/enhance/enhance.go:107-191 | the output is a capped prefix of the floored ranking or of the greedy selection from it, every result is scored from its URL's hits, and the best one leads |
| `WebEnhance.BestLeads` | pkg/search/enhance/enhance.go:172-186 | the top result stays first through floor, diversification and cap |
| `Mmr.JaccardRange` | pkg/search/enhance/enhance_text.go:105-120 | similarity is symmetric, in [0, 1], 0 exactly for disjoint sets and 1 exactly for equal ones |
| `Mmr.JaccardSets` | pkg/search/enhance/enhance_text.go:105-120 | the counting loop computes shared over united tokens |
| `Mmr.ApplyMMR` | pkg/search/enhance/mmr.go:21-75 | selects min(targetN, n) distinct results starting with the first, each the earliest best of the untouched rest; by the caller's lambda (0.7 by default, at most 1) and the tokens of title and content each outweighs every waiting one, relevance against likeness to what is selected |
| `Mmr.GreedyUnique` | pkg/search/enhance/mmr.go:50-69 | there is one greedy selection of each length, so the previous row determines the output |
| `Mmr.GreedyDiverse` | pkg/search/enhance/mmr.go:53-61 | if i goes before a waiting j though it is more alike to something selected by d than j is to anything selected, then lambda times its score lead is at least (1 - lambda) * d |
| `Mmr.DuplicatesWait` | pkg/search/enhance/mmr.go:53-61 | a token duplicate of a selected result goes after every waiting unrelated result whose score is within (1 - lambda) / lambda of its own |
| `Mmr.DisplacementBounded` | pkg/search/enhance/mmr.go:50-69 | a result goes before a better-scored waiting one only if lambda times the gap is at most 1 - lambda |
| `Mmr.UnpenalisedIdentity` | pkg/search/enhance/mmr.go:50-74 | with lambda 1, or no similarity at all, score-sorted input keeps its order |
| `RateLimiting.RateLimiter.Allow` | pkg/antirobot/limiter.go:46-64 | with pruned windows, grants exactly when the unpruned grant history permits it |
| `RateLimiting.RefusedOnlyIf` | pkg/antirobot/limiter.go:51-59 | a request is refused exactly when granting it would break the spacing or put a second or a minute over its limit |
| `RateLimiting.WindowsBounded` | pkg/antirobot/limiter.go:50-63 | in every run any window of a second or a minute, wherever placed, holds at most its limit of grants |
| `RateLimiting.GrantsSpaced` | pkg/antirobot/limiter.go:51-53 | in every run consecutive grants are at least the minimum interval apart |
| `RateLimiting.FilterAfter` | pkg/antirobot/limiter.go:66-75 | the in-place compaction keeps exactly the instants after the cut, in order |
| `KeyPools.VisitsAllIff` | pkg/search/provider/keypool.go:71-81 | one call probes every slot exactly when it stays clear of the 64-bit wrap or the size divides 2^64 |
| `KeyPools.WrapMissesUsable` | pkg/search/provider/keypool.go:71-81 | a pool at the wrap whose only usable key is not probed |
| `KeyPools.DrawsBest` | pkg/search/provider/keypool.go:62-92 | a usable key is handed out whenever one exists, otherwise the leftmost of those that recover first |
| `KeyPools.RotationFair` | pkg/search/provider/keypool.go:62-92 | while the usable set V is fixed, any V-many consecutive calls hand out each of its keys exactly once |
| `KeyPools.KeyPool.Next` | pkg/search/provider/keypool.go:62-92 | the two loops make exactly one draw as specified |
| `KeyPools.KeyPool.NewKeyPool` | pkg/search/provider/keypool.go:32-58 | the pool holds the trimmed non-blank keys, each once in order of first occurrence; none left is the error |
| `KeyPools.KeyPool.MarkInvalid` | pkg/search/provider/keypool.go:95-104 | exactly the slot of the key cools down for half an hour; an unknown key changes nothing |
| `KeyPools.CoolsHalfAnHour` | pkg/search/provider/keypool.go:95-104 | a marked key is out of use for exactly half an hour, and no other key is affected |
| `KeyPools.KeyPool.Available` | pkg/search/provider/keypool.go:121-132 | counts the usable slots |
| `Apipool.CallProviderWithRetry` | pkg/search/apipool/apipool.go:166-192 | if each call draws a key and no cooldown runs out meanwhile: every call draws one key, none is drawn twice, exactly the keys of failed calls go into cooldown, the first success is served, and there are exactly max(1, available keys) calls when all fail |
| `Apipool.UndrawnRetriesForever` | pkg/search/apipool/apipool.go:173-191 | an engine that fails before drawing keeps the loop going for ever exactly when a usable key other than the last drawn is left, else it is called once |
| `Apipool.FreshPoolUndrawn` | pkg/search/apipool/apipool.go:173-191 | on a fresh pool such an engine is called for ever |
| `Apipool.ApipoolSearch.SearchRaw` | pkg/search/apipool/apipool.go:78-97 | the whole search: crashes exactly on a negative start; otherwise asks providers in cyclic order, first provider 0, the drawn one or the rotating one by strategy, each at most once and with exactly its budget of max(1, usable keys) calls unless one succeeds; the first success is the answer, and the search fails exactly when every call of every budget does; each pool asked is left as the retry loop leaves it, its draws logged, and other pools untouched |
| `Apipool.WalkFailsIff` | pkg/search/apipool/apipool.go:86-96 | a walk over the providers ends in failure exactly when no call that some budget allows succeeds |
| `Weighted.PickProportional` | pkg/search/apipool/apipool.go:117-135 | while the total fits 64 bits, of the equally likely draws exactly the weight of a provider select it |
| `Weighted.ProportionalIff` | pkg/search/apipool/apipool.go:117-135 | every provider is selected by exactly as many draws as its weight if and only if the total of the weights fits 64 bits |
| `Weighted.SelectedExact` | pkg/search/apipool/apipool.go:128-134 | while the total fits, the loop of wrapping subtractions selects what unbounded integers would, and its fall-through return is unreachable |
| `Weighted.WeightTooLarge` | pkg/search/apipool/apipool.go:120-126 | a single provider of weight 2^63 leaves no draw, although its weight is not zero |
| `Apipool.ApipoolSearch.PickWeighted` | pkg/search/apipool/apipool.go:117-135 | on 64-bit weights and total the start is what the subtraction selects; while the total fits it fails exactly when all weights are zero |
| `Apipool.ApipoolSearch.StartMeans` | pkg/search/apipool/apipool.go:100-112 | "priority" starts at provider 0; "weighted", while the total fits 64 bits, at the drawn one and leaves the choice to the counter exactly when all weights are zero; else the counter decides |
| `Apipool.ApipoolSearch.PickStartIndex` | pkg/search/apipool/apipool.go:100-112 | the returned start is that provider, and a counter below 2^63 goes up by one and leads to the provider congruent to it |
| `Apipool.StartsRotate` | pkg/search/apipool/apipool.go:111 | n consecutive searches decided by the counter start exactly once at each of the n providers |
| `Apipool.NextStart` | pkg/search/apipool/apipool.go:111 | a fresh counter starts at provider 0 and each further search at the next one cyclically |
| `Apipool.WeightMeans` | pkg/search/apipool/apipool.go:139-159 | 1 for a free engine, else the usable keys times the configured weight by name or engine name, 1 if unlisted, 0 if not positive |
| `Apipool.RoundRobinStart` | pkg/search/apipool/apipool.go:111 | the start is a provider index exactly below 2^63 searches and at the multiples of n below the wrap |
| `Apipool.RoundRobinNegative` | pkg/search/apipool/apipool.go:111 | after 2^63 searches over three providers the start is -2 |
| `RoundRobin.Distribute` | pkg/search/hybrid/hybrid.go:334-355 | returns min(limit, total) results, a prefix of each bucket, dealt out one from each engine in turn: every prefix of the output has so many full rounds and part of the next |
| `Hybrid.RoundRobinByNames` | pkg/search/hybrid/hybrid.go:306-331 | a sub-multiset of the input, exactly limit in all: the first few of every engine in their order, dealt out in turn over the configured names followed by other engines as they first occur |
| `Hybrid.EvenShareUnique` | pkg/search/hybrid/hybrid.go:306-355 | there is one such share, so the previous row fixes the output |
| `Hybrid.EvenShareServes` | pkg/search/hybrid/hybrid.go:306-355 | every engine is given its first results, those without an engine as one engine "_unknown", and no engine gets over one more than another that has results left |
| `Hybrid.EvenShareTakes` | pkg/search/hybrid/hybrid.go:306-355 | an even share holds results of the input only, each at most as often |
| `Hybrid.LabelsPartition` | pkg/search/hybrid/hybrid.go:319-329 | every result falls under exactly one of the distinct engine labels |
| `Hybrid.ArrivalOrderIrrelevant` | pkg/search/hybrid/hybrid.go:139-164 | any two arrival orders of the same messages give the merge the same sequence |
| `Hybrid.CollectedInOrder` | pkg/search/hybrid/hybrid.go:139-164 | that sequence is exactly the successes, a lower engine index first |
| `Hybrid.FirstByUrlMeans` | pkg/search/hybrid/hybrid.go:173-183 | deduplication loses no URL, repeats none, and keeps the earliest result of each |
| `Hybrid.ShapedMeans` | pkg/search/hybrid/hybrid.go:169-229 | one engine contributes its own results in their order, no URL twice, at most its cap, none below an applicable minimum score, and without scores at most its share of the global maximum |
| `Hybrid.ContributionExact` | pkg/search/hybrid/hybrid.go:169-229 | one engine contributes exactly the first min(cap, count) of its results that are unique by URL and reach an applicable minimum, the cap being the configured one or 4, lowered to its share exactly when none of them has a score, there is no enhancement and there is a global maximum |
| `Hybrid.BucketMeans` | pkg/search/hybrid/hybrid.go:231-234 | its bucket for the enhancement has its name, its configured weight and its contribution |
| `Hybrid.NothingLost` | pkg/search/hybrid/hybrid.go:166-281 | without caps and minimums every URL of every success is in the merged list |
| `Hybrid.PerEngineCapCovers` | pkg/search/hybrid/hybrid.go:221 | the per-engine share is the least one with which all engines can fill the global maximum |
| `Hybrid.MergeResults` | pkg/search/hybrid/hybrid.go:133-281 | the outcome is a function of the index-ordered successes: failure, the enhanced ranking of their buckets or the error that it is empty, or the deduplicated list, capped to best scores or to the one even share of it; without caps and minimums no URL is lost |
| `Searcher.RunInvariant` | pkg/antirobot/searcher.go:69-92 | in every state of every interleaving at most concurrency execOne calls hold a permit and each slot is written at most once, by its own engine |
| `Searcher.StepDecreases` | pkg/antirobot/searcher.go:80-90 | every step uses up a measure, so no interleaving goes on for ever |
| `Searcher.RunBounded` | pkg/antirobot/searcher.go:80-90 | so every run has at most four steps for each engine |
| `Searcher.NoDeadlock` | pkg/antirobot/searcher.go:80-90 | while an engine is unfinished some step is possible |
| `Searcher.ScheduleIndependent` | pkg/antirobot/searcher.go:69-92 | a run that can go no further has written slot i once, with engine i's answer unless that engine may time out |
| `Searcher.SlotsHold` | pkg/antirobot/searcher.go:114-155 | a slot holds the engine's response, its error under its name, an empty response for none, or the timeout error if it may time out |
| `Searcher.WaitsOnlyWhenFull` | pkg/antirobot/searcher.go:69-84 | a waiting engine can start exactly when fewer than the configured permits, 5 by default, are held |
| `Searcher.SearchesBoundedIff` | pkg/antirobot/searcher.go:122-155 | engine searches in flight stay within the permits exactly when there are no more engines than permits or none can time out |
| `Searcher.TwoInFlight` | pkg/antirobot/searcher.go:122-155 | two engines that can time out exceed a single permit |
| `Searcher.SearchSerial` | pkg/antirobot/searcher.go:96-111 | asks in order and stops exactly at the first response with results or at cancellation |
| `Arxiv.DoublesToCap` | pkg/academic/arxiv.go:184-212 | in any session of searches from a reset, k replies 429 or 503 without Retry-After, and no success, leave a cooldown of min(30s * 2^(k-1), 120s) |
| `Arxiv.SuccessResets` | pkg/academic/arxiv.go:224-230 | a session whose last reply is 200, to a first request or to a retry, has no cooldown |
| `Arxiv.CooldownInRange` | pkg/academic/arxiv.go:184-230 | in every session the cooldown stays between zero and the cap |
| `Arxiv.SearchMeans` | pkg/academic/arxiv.go:79-112 | one search: nothing is sent during a cooldown; at most 17 sleeps and two requests, the first with the limiter's grant, the second exactly when the first reply is 429 or 503 and wait and estimate fit the budget, and not before the wait is over; the replies decide outcome and cooldown |
| `Arxiv.RateLimitKept` | pkg/academic/arxiv.go:163-212 | after a first reply 429 or 503 one retry is sent exactly when the wait (Retry-After up to 120 s, else 30 s or twice the last cooldown up to 120 s) and 2 s fit the 10 s budget; unless it is answered 200 the engine cools down for that wait and no later search sends anything before it is over |
| `Arxiv.OtherReplies` | pkg/academic/arxiv.go:96-112 | any other first reply is not retried: 200 succeeds and ends the cooldown, the rest fails and leaves it |
| `Arxiv.ArxivEngine.AwaitPermit` | pkg/academic/arxiv.go:89-94 | the loop polls the limiter as specified, sleeps at most 17 times, and gives up only past the budget |
| `Arxiv.ArxivEngine.HandleRateLimited` | pkg/academic/arxiv.go:163-178 | one more request exactly when wait and estimate fit the budget, after the wait; success exactly if that reply is 200, otherwise a cooldown |
| `Arxiv.ArxivEngine.Search` | pkg/academic/arxiv.go:79-112 | the search on the mutable engine ends exactly in the outcome and state that the replies, latencies and limiter determine, and so as `Arxiv.SearchMeans` says |
| `Arxiv.SpacingIff` | pkg/academic/arxiv.go:22-28 | adjacent requests of all sessions keep the official spacing, under every latency, wake-up delay and pause, exactly when no retry can be made, exactly when no Retry-After that may be named fits the budget |
| `Arxiv.RetryTooSoon` | pkg/academic/arxiv.go:163-178 | with a Retry-After of one second two requests are a second apart, with three seconds the next search sends at the instant of the retry |
| `Telemetry.AggregateMeans` | pkg/telemetry/store.go:263-271 | each column of a daily row is the count or sum its name says, and requests = successes + failures |
| `Telemetry.SeparateRows` | pkg/telemetry/store.go:263-271 | events add to one row exactly when day, kind, tool and provider agree |
| `Telemetry.Store.Record` | pkg/telemetry/store.go:238-273 | appends an event with the observed fields and the defaults for kind and error kind, and keeps every daily row equal to the aggregate of all events ever recorded for it |
| `Telemetry.Store.Cleanup` | pkg/telemetry/store.go:275-279 | drops exactly the events before the cutoff and changes no total |
| `Health.ScanHealth` | pkg/telemetry/store.go:419-514 | the one-pass scan computes streak, anchor, status and suspension of the window |
| `Health.ReportMeans` | pkg/telemetry/store.go:482-504 | stale after a day, else down on three failures in a row, degraded when the newest or more than a fifth failed, healthy otherwise; confident from five events |
| `Health.OthersIgnored` | pkg/telemetry/store.go:419-424 | events of other sources do not bear on a source; tools are named by tool, all else by provider |
| `Health.NewestFirstIsReverse` | pkg/telemetry/store.go:414 | ordering by time and id, newest first, reads a table in time order backwards |
| `Health.DownIff` | pkg/telemetry/store.go:482-504 | from 20 events, a source is down exactly when in its unbounded history the last three are failures and the newest is at most a day old |
| `Health.SuspendedIff` | pkg/telemetry/store.go:483-488 | a suspension is shown exactly when the last three of the unbounded history failed and now is before the anchor plus its capped pause; the anchor is the newest failure if that has an error kind |
| `Health.SuccessClears` | pkg/telemetry/store.go:448-458 | a success as the newest event clears both verdicts |
| `Health.AnchoredAtNewestIff` | pkg/telemetry/store.go:452-455 | exactly when the documented anchor, the newest failure, is the one used |
| `Health.AnchoredAtInstantIff` | pkg/telemetry/store.go:452-455 | the pause counts from the newest failure's instant exactly when that has an error kind or the row anchored at instead is of the same second |
| `Health.AnchoredEarlier` | pkg/telemetry/store.go:452-455 | three failures, the newest without an error kind: the suspension ends by the older one's pause |
| `Health.DownAfterCleanup` | pkg/telemetry/store.go:275-279 | on the pruned table a source is down exactly when it is on the full log and its third newest event survived |
| `Health.SuspendedAfterCleanup` | pkg/telemetry/store.go:275-279 | on the pruned table likewise for suspensions |
| `Health.SuccessAfterCleanup` | pkg/telemetry/store.go:275-279 | a newest success clears both verdicts on the pruned table |
| `Health.CleanupHidesDown` | pkg/telemetry/store.go:275-279 | three failures are down until a cleanup drops the oldest |
| `Health.HealthOf` | pkg/telemetry/store.go:413-516 | down verdict, suspension and reset read from a store, in terms of everything ever recorded in it and the highest cleanup cutoff |
| `Health.CalculateP95` | pkg/telemetry/store.go:526-540 | an element with at least 95% of the values at or below it and fewer below; the maximum under 20 values; no clamp applies |
| `Health.NearestRankUnique` | pkg/telemetry/store.go:524-540 | that element is unique |
| `Suspension.NormalizedFacts` | pkg/telemetry/suspension.go:39-61 | normalised policies have positive pauses, a cap no lower than the base, every known kind, the caller's positive overrides, and are fixed points |
| `Suspension.Normalize` | pkg/telemetry/suspension.go:39-61 | the loop over the overrides gives that policy in any visiting order |
| `Suspension.PauseMeans` | pkg/telemetry/suspension.go:39-90 | the pause of an error kind: the caller's, else the built-in one, else the base, within the cap |
| `Suspension.PauseBounds` | pkg/telemetry/suspension.go:77-94 | a pause is positive and within the cap: a third failure suspends at once, and every suspension ends within the cap |
| `Text.SplitJoins` | mcp/tool_pdf.go:117 | splitting loses nothing and leaves no separator in a part |
| `Text.TrimMeans` | mcp/tool_pdf.go:111 | trimming takes all white space off both ends and nothing else |
| `PageSpec.ParsePagesSpec` | mcp/tool_pdf.go:110-150 | gets stuck exactly when a range ending at the greatest 64-bit integer comes before any bad part; otherwise succeeds exactly when no part is malformed, below 1, reversed or too wide, with the named pages, ascending and once each, and else the first bad part decides the error |
| `PageSpec.AnswerIff` | mcp/tool_pdf.go:117-147 | which of the four answers is given, in terms of the parts alone |
| `PageSpec.DenotePrinted` | mcp/tool_pdf.go:118-144 | a printed number is that page, two with a dash are that range, malformed when reversed and too wide beyond the cap |
| `PageSpec.PrintedIsRead` | mcp/tool_pdf.go:110-150 | round trip: a specification printed from pages and ranges is parsed into exactly those pages |
| `PageSpec.LoopEndsIff` | mcp/tool_pdf.go:131-136 | the expansion loop on a wrapping 64-bit counter ends exactly when the upper end is not the greatest 64-bit integer |
| `PageSpec.TopRange` | mcp/tool_pdf.go:128-136 | a range of width 1 that passes the cap and is never done |
| `PageSpec.AscendingUnique` | mcp/tool_pdf.go:148-149 | ascending lists of the same pages are equal, so the set of named pages determines the answer |

## Left out

- HTTP clients, parsing of replies, header rotation, proxies, logging, the dashboard, configuration loading and the other engines: input and output only.
- SQLite: the two tables are a sequence and a map with the statements' effects.
- `todayByName` and the trend query: plain selections over the daily table.
- Error-kind counts and the last-seen, last-success and recent-outcome fields of a health report: they add easy members only.
- Scoring signals (`CiteFactor`, `JournalBoost`, recency, lexical alignment, domain quality, authority) and tokenising: arbitrary functions, so no property of them is claimed.
- Rounding of floating-point scores: reals are used throughout.
- The duration at the end of a timeout's error text.
- Concurrent use of one key pool or of one arXiv engine: contracts are for calls one after another.
- Apipool.CallProviderWithRetry: states its bound for a cursor whose probes during the call stay clear of the 64-bit wrap, or a pool size dividing 2^64; beyond that a usable key can be missed, see `KeyPools.VisitsAllIff`.
- Apipool.ApipoolSearch.SearchRaw: assumes that no two provider entries share a key pool, which holds unless the configuration names an engine twice.
- Suspension.PauseBounds: does not model 64-bit overflow of a configured pause of centuries.
- Hybrid.MergeResults: fixes neither the order of the error summaries, which follows arrival, nor which of equally scored results an unstable sort puts first.
- Searcher.ScheduleIndependent: an engine that may time out can leave its answer or the timeout in its slot, as the race decides.
