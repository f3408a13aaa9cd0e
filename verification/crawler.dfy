/**
 * The dispatcher (`ParallelWebCrawler.crawl`): computes the deadline, launches
 * one root task per seed URL in order until a clock reading is past the
 * deadline, and assembles the result from the shared state.
 */
module ParallelWebCrawler {
  import opened Pages
  import opened Tally
  import opened Seqs
  import opened CrawlerNode

  /** What a crawl reports: the (popular) word counts and the number of distinct URLs visited. */
  datatype CrawlResult = CrawlResult(wordCounts: map<string, nat>, urlsVisited: nat)

  /** The deadline: the first clock reading plus the timeout. */
  function Deadline(cfg: Config): int {
    cfg.clock(0) + cfg.timeout
  }

  /** The shared state before any seed is launched; clock reading 0 was spent on the deadline. */
  function Initial(): State {
    State({}, map[], 1, [])
  }

  /** Launches the seeds in order, each after a clock reading within the deadline, and stops at the first reading past it. */
  function Launch(cfg: Config, deadline: int, seeds: seq<string>, st: State): State
    decreases |seeds|
  {
    if seeds == [] then st
    else if cfg.clock(st.tick) > deadline then st.(tick := st.tick + 1)
    else Launch(cfg, deadline, seeds[1..], Node(cfg, deadline, seeds[0], cfg.maxDepth, st.(tick := st.tick + 1)))
  }

  /** The shared state once every launched seed's task tree has finished. */
  function FinalState(cfg: Config, seeds: seq<string>): State {
    Launch(cfg, Deadline(cfg), seeds, Initial())
  }

  /** The crawl: an empty aggregate is reported as it is, a non-empty one through the popular-word selection. */
  function Crawl(cfg: Config, seeds: seq<string>): CrawlResult {
    var st := FinalState(cfg, seeds);
    if |st.counts| == 0 then CrawlResult(st.counts, |st.visited|)
    else CrawlResult(cfg.sortCounts(st.counts, cfg.popularWordCount), |st.visited|)
  }

  /** Launching one seed after a reading within the deadline keeps the shared state consistent. */
  lemma LaunchOneKeepsConsistent(cfg: Config, deadline: int, seed: string, st: State)
    requires Consistent(cfg, deadline, st)
    ensures Consistent(cfg, deadline, Node(cfg, deadline, seed, cfg.maxDepth, st.(tick := st.tick + 1)))
  {
    TickKeepsConsistent(cfg, deadline, st);
    NodeKeepsConsistent(cfg, deadline, seed, cfg.maxDepth, st.(tick := st.tick + 1));
  }

  /** Launching seeds keeps the shared state consistent. */
  lemma {:induction false} LaunchKeepsConsistent(cfg: Config, deadline: int, seeds: seq<string>, st: State)
    requires Consistent(cfg, deadline, st)
    ensures Consistent(cfg, deadline, Launch(cfg, deadline, seeds, st))
    decreases |seeds|
  {
    if seeds == [] {
    } else if cfg.clock(st.tick) > deadline {
      TickKeepsConsistent(cfg, deadline, st);
      assert Launch(cfg, deadline, seeds, st) == st.(tick := st.tick + 1);
    } else {
      var mid := Node(cfg, deadline, seeds[0], cfg.maxDepth, st.(tick := st.tick + 1));
      LaunchOneKeepsConsistent(cfg, deadline, seeds[0], st);
      LaunchKeepsConsistent(cfg, deadline, seeds[1..], mid);
      assert Launch(cfg, deadline, seeds, st) == Launch(cfg, deadline, seeds[1..], mid);
    }
  }

  /**
   * Launching seeds only adds to the shared state: the visited set and the
   * aggregate's words only grow, the fetch log is only appended to, and the
   * clock only moves forward, by at least one reading per seed check made.
   */
  lemma {:induction false} LaunchGrows(cfg: Config, deadline: int, seeds: seq<string>, st: State)
    ensures var r := Launch(cfg, deadline, seeds, st);
      && st.visited <= r.visited
      && st.fetched <= r.fetched
      && st.counts.Keys <= r.counts.Keys
      && (st.tick < r.tick || seeds == [])
    decreases |seeds|
  {
    if seeds != [] && cfg.clock(st.tick) <= deadline {
      var mid := Node(cfg, deadline, seeds[0], cfg.maxDepth, st.(tick := st.tick + 1));
      LaunchGrows(cfg, deadline, seeds[1..], mid);
      assert Launch(cfg, deadline, seeds, st) == Launch(cfg, deadline, seeds[1..], mid);
    }
  }

  /** The state after a whole crawl is consistent. */
  lemma FinalStateConsistent(cfg: Config, seeds: seq<string>)
    ensures Consistent(cfg, Deadline(cfg), FinalState(cfg, seeds))
  {
    assert Consistent(cfg, Deadline(cfg), Initial());
    LaunchKeepsConsistent(cfg, Deadline(cfg), seeds, Initial());
  }

  /** Every URL newly visited while launching seeds lies fewer than `maxDepth` hops from one of them. */
  lemma {:induction false} LaunchReach(cfg: Config, deadline: int, seeds: seq<string>, st: State)
    ensures var r := Launch(cfg, deadline, seeds, st);
      forall u :: u in r.visited && u !in st.visited ==>
        cfg.maxDepth >= 1 && exists i :: 0 <= i < |seeds| && Within(cfg.source, seeds[i], u, cfg.maxDepth - 1)
    decreases |seeds|
  {
    if seeds != [] && cfg.clock(st.tick) <= deadline {
      var st1 := st.(tick := st.tick + 1);
      var mid := Node(cfg, deadline, seeds[0], cfg.maxDepth, st1);
      NodeReach(cfg, deadline, seeds[0], cfg.maxDepth, st1);
      LaunchReach(cfg, deadline, seeds[1..], mid);
      var r := Launch(cfg, deadline, seeds, st);
      forall u | u in r.visited && u !in st.visited
        ensures cfg.maxDepth >= 1 && exists i :: 0 <= i < |seeds| && Within(cfg.source, seeds[i], u, cfg.maxDepth - 1)
      {
        if u in mid.visited {
          assert Within(cfg.source, seeds[0], u, cfg.maxDepth - 1);
        } else {
          var j :| 0 <= j < |seeds[1..]| && Within(cfg.source, seeds[1..][j], u, cfg.maxDepth - 1);
          assert seeds[j + 1] == seeds[1..][j];
        }
      }
    }
  }

  /**
   * Depth bound of the whole crawl: every visited URL is reachable from some
   * seed by a path of fewer than `maxDepth` links; with `maxDepth == 0`
   * nothing is visited.
   */
  lemma CrawlWithinDepth(cfg: Config, seeds: seq<string>, u: string)
    requires u in FinalState(cfg, seeds).visited
    ensures cfg.maxDepth >= 1
    ensures exists i :: 0 <= i < |seeds| && Within(cfg.source, seeds[i], u, cfg.maxDepth - 1)
  {
    LaunchReach(cfg, Deadline(cfg), seeds, Initial());
  }

  /**
   * Aggregation: for every word, the final count is the sum of that word's
   * occurrences over the pages of the visited set, each page counted once;
   * and a word has an entry exactly when some visited page reported it.
   */
  lemma CrawlCountsAreTotals(cfg: Config, seeds: seq<string>, w: string)
    ensures var st := FinalState(cfg, seeds);
      && Get(st.counts, w) == SetTotal(cfg.source, st.visited, w)
      && (w in st.counts <==> exists u :: u in st.visited && w in cfg.source(u).wordCounts)
  {
    var st := FinalState(cfg, seeds);
    FinalStateConsistent(cfg, seeds);
    var urls := Urls(st.fetched);
    MergeAllCounts(cfg.source, urls, w);
    SeqTotalIsSetTotal(cfg.source, urls, w);
    MergeAllKeys(cfg.source, urls, w);
    if w in st.counts {
      var i :| 0 <= i < |urls| && w in cfg.source(urls[i]).wordCounts;
      assert urls[i] in st.visited;
    }
    if exists u :: u in st.visited && w in cfg.source(u).wordCounts {
      var u :| u in st.visited && w in cfg.source(u).wordCounts;
      var i :| 0 <= i < |urls| && urls[i] == u;
    }
  }

  /**
   * Every page is fetched and merged at most once, `urlsVisited` is the
   * number of fetches, and every fetch was of a URL no pattern ignores and
   * was let through by a clock reading no later than the deadline.
   */
  lemma CrawlFetchesOnce(cfg: Config, seeds: seq<string>)
    ensures var st := FinalState(cfg, seeds);
      && Distinct(Urls(st.fetched))
      && Crawl(cfg, seeds).urlsVisited == |st.fetched|
      && forall i :: 0 <= i < |st.fetched| ==>
           cfg.clock(st.fetched[i].at) <= Deadline(cfg) && !Ignored(cfg, st.fetched[i].url)
  {
    var st := FinalState(cfg, seeds);
    FinalStateConsistent(cfg, seeds);
    DistinctCardinality(Urls(st.fetched));
  }

  /** No URL an ignore pattern matches is visited, so no such page contributes words. */
  lemma CrawlSkipsIgnored(cfg: Config, seeds: seq<string>, u: string)
    requires Ignored(cfg, u)
    ensures u !in FinalState(cfg, seeds).visited
  {
    FinalStateConsistent(cfg, seeds);
  }

  /** A deadline already passed at the first seed check launches nothing: empty counts, zero URLs. */
  lemma CrawlExpiredAtStart(cfg: Config, seeds: seq<string>)
    requires cfg.clock(1) > Deadline(cfg)
    ensures Crawl(cfg, seeds) == CrawlResult(map[], 0)
  {
  }

  /**
   * The result: `urlsVisited` is the size of the visited set and the number
   * of page fetches; when no visited page reported a word the empty map is
   * returned, and when some visited page did, the popular-word selection of
   * the aggregate is.
   */
  lemma CrawlReport(cfg: Config, seeds: seq<string>)
    ensures var st := FinalState(cfg, seeds);
      && Crawl(cfg, seeds).urlsVisited == |st.visited| == |st.fetched|
      && ((forall u :: u in st.visited ==> cfg.source(u).wordCounts == map[]) ==> Crawl(cfg, seeds).wordCounts == map[])
      && ((exists u :: u in st.visited && cfg.source(u).wordCounts != map[]) ==>
            Crawl(cfg, seeds).wordCounts == cfg.sortCounts(st.counts, cfg.popularWordCount))
  {
    var st := FinalState(cfg, seeds);
    CrawlFetchesOnce(cfg, seeds);
    FinalStateConsistent(cfg, seeds);
    DistinctCardinality(Urls(st.fetched));
    forall w
      ensures w in st.counts <==> exists u :: u in st.visited && w in cfg.source(u).wordCounts
    {
      CrawlCountsAreTotals(cfg, seeds, w);
    }
    if exists u :: u in st.visited && cfg.source(u).wordCounts != map[] {
      var u :| u in st.visited && cfg.source(u).wordCounts != map[];
      var w :| w in cfg.source(u).wordCounts;
      assert w in st.counts;
      assert |st.counts| != 0;
    }
  }

  /** The clock readings never decrease. */
  ghost predicate Monotone(clock: nat -> int) {
    forall i, j :: i <= j ==> clock(i) <= clock(j)
  }

  /**
   * With a non-decreasing clock, a seed repeated right after itself changes
   * nothing: the visited set, the aggregate and the fetch log are those of
   * launching it once.
   */
  lemma RepeatedSeedIdle(cfg: Config, a: string)
    requires Monotone(cfg.clock)
    ensures var once := FinalState(cfg, [a]);
      var twice := FinalState(cfg, [a, a]);
      && twice.visited == once.visited
      && twice.counts == once.counts
      && twice.fetched == once.fetched
  {
    var dl := Deadline(cfg);
    var s0 := Initial().(tick := 2);
    if cfg.clock(1) <= dl {
      var n := Node(cfg, dl, a, cfg.maxDepth, s0);
      assert [a][1..] == [] && [a, a][1..] == [a];
      assert FinalState(cfg, [a]) == Launch(cfg, dl, [], n);
      assert FinalState(cfg, [a, a]) == Launch(cfg, dl, [a], n);
      if cfg.clock(n.tick) <= dl && cfg.maxDepth > 0 {
        assert Launch(cfg, dl, [a], n) == Node(cfg, dl, a, cfg.maxDepth, n.(tick := n.tick + 1));
        if a in n.visited {
          NodeAlreadyVisited(cfg, dl, a, cfg.maxDepth, n.(tick := n.tick + 1));
        } else if Ignored(cfg, a) {
          NodeIgnored(cfg, dl, a, cfg.maxDepth, n.(tick := n.tick + 1));
        } else {
          assert false;
        }
      } else {
        assert Launch(cfg, dl, [a], n) == n.(tick := n.tick + 1);
      }
    } else {
      assert FinalState(cfg, [a]) == Initial().(tick := 2);
      assert FinalState(cfg, [a, a]) == Initial().(tick := 2);
    }
  }

  /** Seeds that an ignore pattern matches are launched but claim nothing, so their links are never followed. */
  lemma {:induction false} LaunchIgnoredSeeds(cfg: Config, deadline: int, seeds: seq<string>, st: State)
    requires forall i :: 0 <= i < |seeds| ==> Ignored(cfg, seeds[i])
    ensures var r := Launch(cfg, deadline, seeds, st);
      r.visited == st.visited && r.counts == st.counts && r.fetched == st.fetched
    decreases |seeds|
  {
    if seeds != [] && cfg.clock(st.tick) <= deadline {
      var st1 := st.(tick := st.tick + 1);
      NodeIgnored(cfg, deadline, seeds[0], cfg.maxDepth, st1);
      LaunchIgnoredSeeds(cfg, deadline, seeds[1..], Node(cfg, deadline, seeds[0], cfg.maxDepth, st1));
    }
  }

  /** A crawl whose every seed is ignored visits nothing and counts no words. */
  lemma CrawlAllSeedsIgnored(cfg: Config, seeds: seq<string>)
    requires forall i :: 0 <= i < |seeds| ==> Ignored(cfg, seeds[i])
    ensures Crawl(cfg, seeds) == CrawlResult(map[], 0)
  {
    LaunchIgnoredSeeds(cfg, Deadline(cfg), seeds, Initial());
  }
}
