/**
 * Concrete crawls over small page graphs, with a clock that always reads 0
 * and a zero timeout, so no reading is ever past the deadline.
 */
module Scenarios {
  import opened Pages
  import opened CrawlerNode
  import opened ParallelWebCrawler

  /** A configuration with no ignore patterns and an identity popular-word selection. */
  function Steady(source: string -> Page, maxDepth: nat): Config {
    Config(i => 0, 0, 10, [], (p, u) => false, maxDepth, source, (m, n) => m)
  }

  /** Page A has the word "a" twice and links to B and C; every other page is empty. */
  function TwoLinks(u: string): Page {
    if u == "A" then Page(map["a" := 2], ["B", "C"]) else Page(map[], [])
  }

  /** With `maxDepth == 1`, A's links are visited with no hops left and end without a fetch. */
  lemma SeedWithDepthOne()
    ensures Crawl(Steady(TwoLinks, 1), ["A"]) == CrawlResult(map["a" := 2], 1)
  {
  }

  /** A seed given twice is visited and counted once. */
  lemma DuplicateSeed()
    ensures Crawl(Steady(TwoLinks, 1), ["A", "A"]) == CrawlResult(map["a" := 2], 1)
  {
  }

  /** A links to B and C, B links to C, C links to D. */
  function Diamond(u: string): Page {
    if u == "A" then Page(map[], ["B", "C"])
    else if u == "B" then Page(map[], ["C"])
    else if u == "C" then Page(map[], ["D"])
    else Page(map[], [])
  }

  /** D is two links from A, through C. */
  lemma DiamondReach()
    ensures Within(Diamond, "A", "D", 2)
  {
    assert Diamond("A").links[1] == "C";
    assert Diamond("C").links[0] == "D";
    assert Within(Diamond, "D", "D", 0);
    assert Within(Diamond, "C", "D", 1);
  }

  /**
   * The depth bound is not a reachability guarantee: D is two links from A,
   * within the budget of `maxDepth == 3`, yet C is first claimed through B
   * with one hop left, so the later task for C at two hops stops at the
   * visited check and D is never visited.
   */
  lemma FirstClaimFixesDepth()
    ensures Within(Diamond, "A", "D", 2)
    ensures FinalState(Steady(Diamond, 3), ["A"]).visited == {"A", "B", "C"}
  {
    DiamondReach();
    var cfg := Steady(Diamond, 3);
    var afterB := Node(cfg, 0, "B", 2, Visit(cfg, "A", 2, Initial().(tick := 3)));
    assert afterB.visited == {"A", "B", "C"};
    assert FinalState(cfg, ["A"]) == Node(cfg, 0, "C", 2, afterB);
  }

  /** The same graph with A's links in the other order: A links to C first, then B. */
  function DiamondSwapped(u: string): Page {
    if u == "A" then Page(map[], ["C", "B"]) else Diamond(u)
  }

  /**
   * The schedule decides the visited set: when the task for C with two hops
   * left runs before B's child for C, C is claimed with one hop to spare and
   * D is visited as well.
   */
  lemma OtherScheduleReachesD()
    ensures FinalState(Steady(DiamondSwapped, 3), ["A"]).visited == {"A", "B", "C", "D"}
  {
    var cfg := Steady(DiamondSwapped, 3);
    var afterC := Node(cfg, 0, "C", 2, Visit(cfg, "A", 2, Initial().(tick := 3)));
    assert afterC.visited == {"A", "C", "D"};
    assert FinalState(cfg, ["A"]) == Node(cfg, 0, "B", 2, afterC);
  }
}
