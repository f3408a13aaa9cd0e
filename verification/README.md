# Parallel web crawler — sequential reference model

This project models the crawl engine of a multi-threaded web crawler, the file
`ParallelWebCrawler.java`. A crawl starts from a list of seed URLs. It follows
links up to a maximum depth, stops launching work once a wall-clock deadline
has passed, skips URLs that fully match an ignore pattern, and adds up the
word counts of every page it visits. The Java runs the task tree on a
fork/join pool. The model is the sequential reference semantics of that task
tree: seeds run in order, and a task's children run left to right, each to
completion. The shared visited set, the word-count aggregate and the clock are
threaded through the recursion as one immutable `State`.

Modules:

- `Pages` (`pages.dfy`): a parsed page (word counts and links), the zero-default count lookup `Get`, and reachability within a number of hops.
- `Seqs` (`seqs.dfy`): distinct sequences and their element sets.
- `Tally` (`tally.dfy`): the single-key insert-or-add step (`Insert`, the `compute` call), the merge of one page into the aggregate (`countWordsInUrl`), and what the aggregate equals after many merges.
- `CrawlerNode` (`crawler_node.dfy`): one crawl task (`Node`, for `InternalCrawlerNode.compute`) and its children (`Children`), the claim-fetch-merge step of an admitted task (`Visit`: add to the visited set, parse, merge), plus the invariant the tasks keep.
- `ParallelWebCrawler` (`crawler.dfy`): the dispatcher. `Launch` is the seed loop, `FinalState` the shared state once it ends, and `Crawl` is `crawl` itself: it computes the deadline, launches the seeds and builds the result. `Crawl` is characterized by `CrawlReport`, `CrawlCountsAreTotals`, `CrawlFetchesOnce` and the other `Crawl…` lemmas below.
- `Scenarios` (`scenarios.dfy`): small concrete crawls.

External collaborators are fields of `Config`:

- The clock is `clock: nat -> int`, where `clock(i)` is the i-th reading and `State.tick` is the index of the next one. Reading 0 fixes the deadline (`deadline = clock(0) + timeout`). Every seed check takes one reading. Every task with depth left takes one reading. A task with depth 0 takes none, because the Java `||` short-circuits before the clock is read. "After the deadline" is strict: `reading > deadline`.
- Regex matching is `fullMatch(pattern, url)`.
- Fetching and parsing is a total function `source: string -> Page`.
- `WordCounts.sort` is `sortCounts`.

`State.fetched` records the page fetches: each fetched URL together with the index of the clock reading that let its task proceed. It has no counterpart in the Java. It exists so that "each page is parsed at most once" and "no fetch begins after the deadline" can be stated about the model.

Two points where the code is narrower than reading `maxDepth` as a hop budget:

- A seed runs with `maxDepth` hops left and a task with 0 left stops. So visited URLs lie at most `maxDepth - 1` links from a seed, not `maxDepth` (`CrawlWithinDepth`).
- The converse does not hold. A URL within the hop budget can go unvisited when it was first claimed along a longer path with fewer hops left (`FirstClaimFixesDepth`). Under the fork/join pool, which path claims first depends on scheduling. So the visited set, and with it the counts, can differ from one run to the next. The model fixes the left-to-right schedule; running the same graph with A's links in the other order, which is the order a worker that steals the second child would produce, visits D as well (`OtherScheduleReachesD`).

## Model

| member | source | states |
|---|---|---|
| Tally.CountWordsInUrl | src/main/java/com/udacity/webcrawler/ParallelWebCrawler.java:152-156 | The per-entry insert-or-add loop: each word on the page ends at its old count plus the page's count, or at the page's count if it was absent. Words not on the page keep their value, no key is removed, and the result equals the reference merge. |
| Tally.InsertCommutes | src/main/java/com/udacity/webcrawler/ParallelWebCrawler.java:154 | Two single-key insert-or-add steps give the same map in either order, on the same word or on different words, and each raises its word's count by exactly its amount. So any interleaving of the per-key `compute` calls of concurrent tasks ends in the same aggregate. |
| Tally.MergeCommutes | src/main/java/com/udacity/webcrawler/ParallelWebCrawler.java:152-155 | Merging two pages gives the same aggregate in either order, so the aggregate does not depend on the order in which tasks merge. |
| Tally.MergeAllCounts | src/main/java/com/udacity/webcrawler/ParallelWebCrawler.java:152-155 | After merging a sequence of pages into an empty map, each word's count is the sum of its occurrences over those pages. |
| Tally.MergeAllKeys | src/main/java/com/udacity/webcrawler/ParallelWebCrawler.java:152-155 | After merging a sequence of pages, a word has an entry exactly when one of the merged pages reported it. |
| CrawlerNode.Node | src/main/java/com/udacity/webcrawler/ParallelWebCrawler.java:117-150 | A task, its children included, only grows the visited set, only moves the clock forward, only appends to the fetch log and never removes a word from the aggregate. |
| CrawlerNode.Children | src/main/java/com/udacity/webcrawler/ParallelWebCrawler.java:135-149 | Running one child per link, in order, has the same monotone effect on the shared state. |
| CrawlerNode.NodeInert | src/main/java/com/udacity/webcrawler/ParallelWebCrawler.java:118-120 | A task with depth 0, or whose clock reading is past the deadline, leaves the visited set, the counts and the fetch log unchanged. It consumes no clock reading at depth 0 and exactly one otherwise. |
| CrawlerNode.NodeIgnored | src/main/java/com/udacity/webcrawler/ParallelWebCrawler.java:122-126 | A task for a URL that some ignore pattern fully matches claims nothing, fetches nothing and merges nothing. |
| CrawlerNode.NodeAlreadyVisited | src/main/java/com/udacity/webcrawler/ParallelWebCrawler.java:128-130 | A live task for a URL that is already visited changes nothing except consuming its one clock reading. There is no second fetch and no second merge. |
| CrawlerNode.VisitKeepsConsistent | src/main/java/com/udacity/webcrawler/ParallelWebCrawler.java:128-133 | Claiming, fetching and merging a URL that is neither visited nor ignored, at a reading within the deadline, keeps the shared-state invariant. |
| CrawlerNode.NodeKeepsConsistent | src/main/java/com/udacity/webcrawler/ParallelWebCrawler.java:117-150 | Every task keeps the invariant. Fetched URLs are distinct, the visited set is exactly the fetched URLs, the aggregate is the merge of the fetched pages, and each fetch followed a reading within the deadline of a URL no pattern ignores. |
| CrawlerNode.ChildrenKeepConsistent | src/main/java/com/udacity/webcrawler/ParallelWebCrawler.java:135-149 | Running a task's children keeps the same invariant. |
| CrawlerNode.NodeReach | src/main/java/com/udacity/webcrawler/ParallelWebCrawler.java:117-150 | Every URL a task newly visits is reachable from the task's URL by at most `depth - 1` links. A depth-0 task visits nothing. |
| CrawlerNode.ChildrenReach | src/main/java/com/udacity/webcrawler/ParallelWebCrawler.java:135-149 | Children run with one hop less: every URL they newly visit is reachable from one of the links by at most `depth - 1` links. |
| ParallelWebCrawler.LaunchGrows | src/main/java/com/udacity/webcrawler/ParallelWebCrawler.java:54-71 | The seed loop only adds to the shared state: the visited set and the aggregate's words only grow, the fetch log is only appended to, and each non-empty seed list consumes at least one clock reading. |
| ParallelWebCrawler.LaunchOneKeepsConsistent | src/main/java/com/udacity/webcrawler/ParallelWebCrawler.java:55-70 | Launching one seed after its check reading keeps the shared-state invariant. |
| ParallelWebCrawler.LaunchKeepsConsistent | src/main/java/com/udacity/webcrawler/ParallelWebCrawler.java:54-71 | Launching the seeds in order keeps the shared-state invariant. |
| ParallelWebCrawler.FinalStateConsistent | src/main/java/com/udacity/webcrawler/ParallelWebCrawler.java:49-71 | The state after a whole crawl, which starts from an empty set and map, satisfies the invariant. |
| ParallelWebCrawler.LaunchReach | src/main/java/com/udacity/webcrawler/ParallelWebCrawler.java:54-71 | Every URL newly visited while launching seeds is reachable from one of those seeds by at most `maxDepth - 1` links. |
| ParallelWebCrawler.CrawlWithinDepth | src/main/java/com/udacity/webcrawler/ParallelWebCrawler.java:59-70 | Every URL the crawl visits is reachable from some seed by a path of fewer than `maxDepth` links. With `maxDepth == 0` nothing is visited. |
| ParallelWebCrawler.CrawlCountsAreTotals | src/main/java/com/udacity/webcrawler/ParallelWebCrawler.java:128-155 | For every word, the final count is the sum of its occurrences over the visited pages, each page counted once. A word has an entry exactly when some visited page reported it. |
| ParallelWebCrawler.CrawlFetchesOnce | src/main/java/com/udacity/webcrawler/ParallelWebCrawler.java:118-133 | No URL is fetched twice, and `urlsVisited` equals the number of fetches. Every fetch was of a URL no pattern ignores, allowed by a clock reading no later than the deadline. |
| ParallelWebCrawler.CrawlSkipsIgnored | src/main/java/com/udacity/webcrawler/ParallelWebCrawler.java:122-126 | A URL that an ignore pattern fully matches is never visited, so its page contributes no words. |
| ParallelWebCrawler.LaunchIgnoredSeeds | src/main/java/com/udacity/webcrawler/ParallelWebCrawler.java:122-126 | Seeds that are all ignored leave the visited set, the counts and the fetch log unchanged, and none of their links is followed. |
| ParallelWebCrawler.CrawlAllSeedsIgnored | src/main/java/com/udacity/webcrawler/ParallelWebCrawler.java:122-126 | A crawl whose every seed is ignored reports empty word counts and zero URLs visited. |
| ParallelWebCrawler.CrawlExpiredAtStart | src/main/java/com/udacity/webcrawler/ParallelWebCrawler.java:52-57 | If the clock is already past the deadline at the first seed check, no seed is launched, and the result is empty counts with zero URLs visited. |
| ParallelWebCrawler.CrawlReport | src/main/java/com/udacity/webcrawler/ParallelWebCrawler.java:73-83 | `urlsVisited` equals both the size of the final visited set and the number of page fetches. If no visited page reported a word, the result's word counts are the empty map. If some visited page did, they are the popular-word selection of the aggregate. |
| ParallelWebCrawler.RepeatedSeedIdle | src/main/java/com/udacity/webcrawler/ParallelWebCrawler.java:128-130 | With a non-decreasing clock, `[a, a]` gives the same visited set, counts and fetch log as `[a]`. |
| Scenarios.SeedWithDepthOne | src/main/java/com/udacity/webcrawler/ParallelWebCrawler.java:117-150 | Seed A with `maxDepth == 1`, words `{"a": 2}` and links B and C: B and C end at depth 0 without a fetch. The result is `{"a": 2}` with one URL visited. |
| Scenarios.DuplicateSeed | src/main/java/com/udacity/webcrawler/ParallelWebCrawler.java:128-130 | Seeds `["A", "A"]` give one URL visited, with A's words counted once. |
| Scenarios.FirstClaimFixesDepth | src/main/java/com/udacity/webcrawler/ParallelWebCrawler.java:128-149 | With A linking to B and C, B to C, C to D, and `maxDepth == 3`: D is within the hop budget of A but is never visited, because C is first claimed with one hop left. |
| Scenarios.OtherScheduleReachesD | src/main/java/com/udacity/webcrawler/ParallelWebCrawler.java:128-149 | The same graph with A's links as C then B, so that C is claimed with two hops left: the visited set is A, B, C and D. Together with `FirstClaimFixesDepth` this shows the visited set depends on which task claims C first. |

## Left out

- Fork/join scheduling (`ForkJoinPool`, `pool.invoke`, `invokeAll`, the thread count, `getMaxParallelism`): this is concurrency scheduling. The model is the sequential left-to-right schedule.
- Atomicity of `ConcurrentHashMap` and `ConcurrentSkipListSet`: these are a plain map and set threaded through the recursion. `InsertCommutes` shows that single-key insert-or-add steps commute, so any interleaving of the concurrent `compute` calls gives the same aggregate. `MergeCommutes` shows the same for whole-page merges. Interleavings of the visited-set claims are not modelled.
- Regular-expression matching with `java.util.regex.Pattern`: this is a foreign library. It is the abstract `fullMatch` parameter.
- Page fetching and parsing, and its failures: this is network I/O. It is the total `source` function, so a failing parse is not modelled.
- `WordCounts.sort`: its source is not part of this model, so its ordering and tie-break cannot be checked. It is the abstract `sortCounts` parameter.
- A negative `maxDepth`: the Java depth test `maxDepth == 0` never stops such a crawl. It ends at the deadline, or when no unclaimed reachable URL is left. The model takes `maxDepth` as a natural number.
- `java.time` arithmetic: instants and durations are unbounded integers. The overflow exception of `Instant.plus` is not modelled.
- The `Builder` classes: these are plumbing and carry no behaviour.
- `profiler/ProfilerImpl.java` and `profiler/ProfilingMethodInterceptor.java`: these are reflection-based proxies, wall-clock timing and file output.
- Tally.CountWordsInUrl: counts are unbounded naturals. Java's `Integer` addition wraps around past 2^31 - 1, and that is not modelled.
