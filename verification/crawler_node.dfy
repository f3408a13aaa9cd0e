/**
 * One crawl task (`InternalCrawlerNode.compute`): the per-URL decision
 * procedure and its recursion over the page's links, as a sequential
 * reference semantics that threads the shared visited set, the word-count
 * aggregate and the clock through the task tree.
 */
module CrawlerNode {
  import opened Pages
  import opened Tally
  import opened Seqs

  /**
   * Everything a crawl is configured with. External collaborators are
   * parameters: `clock(i)` is the i-th reading of the injected clock,
   * `fullMatch(p, url)` says whether ignore pattern `p` matches the whole of
   * `url`, `source` fetches and parses a page, and `sortCounts` is the
   * popular-word selection applied to a non-empty result.
   */
  datatype Config = Config(
    clock: nat -> int,
    timeout: int,
    popularWordCount: int,
    ignoredUrls: seq<string>,
    fullMatch: (string, string) -> bool,
    maxDepth: nat,
    source: string -> Page,
    sortCounts: (map<string, nat>, int) -> map<string, nat>)

  /** A page fetch: the URL and the index of the clock reading that let its task proceed. */
  datatype Fetch = Fetch(url: string, at: nat)

  /**
   * The state shared by every task of one crawl: the visited set, the
   * aggregate word counts, the index of the next clock reading, and the log
   * of page fetches in the order they happened.
   */
  datatype State = State(visited: set<string>, counts: map<string, nat>, tick: nat, fetched: seq<Fetch>)

  /** Some ignore pattern matches the whole URL. */
  predicate Ignored(cfg: Config, url: string) {
    exists k :: 0 <= k < |cfg.ignoredUrls| && cfg.fullMatch(cfg.ignoredUrls[k], url)
  }

  /** Claiming `url`: add it to the visited set, fetch it, and merge its word counts. */
  function Visit(cfg: Config, url: string, at: nat, st: State): State {
    st.(visited := st.visited + {url},
        counts := Merge(st.counts, cfg.source(url).wordCounts),
        fetched := st.fetched + [Fetch(url, at)])
  }

  /**
   * One task for `url` with `depth` hops left. The checks run in the order
   * `InternalCrawlerNode.compute` makes them: depth exhausted (no clock reading is taken then), deadline passed,
   * ignored URL, URL already claimed; only a task passing all four fetches the
   * page and runs one child per link with one hop less.
   */
  function Node(cfg: Config, deadline: int, url: string, depth: nat, st: State): (r: State)
    ensures st.visited <= r.visited
    ensures st.tick <= r.tick
    ensures st.fetched <= r.fetched
    ensures st.counts.Keys <= r.counts.Keys
    decreases depth, 0
  {
    if depth == 0 then st
    else
      var now := cfg.clock(st.tick);
      var st1 := st.(tick := st.tick + 1);
      if now > deadline then st1
      else if Ignored(cfg, url) then st1
      else if url in st1.visited then st1
      else Children(cfg, deadline, cfg.source(url).links, depth - 1, Visit(cfg, url, st.tick, st1))
  }

  /** The children of a task, one per link, each run to completion before the next. */
  function Children(cfg: Config, deadline: int, links: seq<string>, depth: nat, st: State): (r: State)
    ensures st.visited <= r.visited
    ensures st.tick <= r.tick
    ensures st.fetched <= r.fetched
    ensures st.counts.Keys <= r.counts.Keys
    decreases depth, 1, |links|
  {
    if links == [] then st
    else Children(cfg, deadline, links[1..], depth, Node(cfg, deadline, links[0], depth, st))
  }

  /** The URLs of a fetch log, in order. */
  function Urls(log: seq<Fetch>): seq<string> {
    seq(|log|, i requires 0 <= i < |log| => log[i].url)
  }

  /**
   * What the shared state means: every URL was fetched at most once, the
   * visited set is exactly the set of fetched URLs, the aggregate is the merge
   * of the fetched pages, and every fetch was let through by an earlier clock
   * reading no later than the deadline and was of a URL no pattern ignores.
   */
  ghost predicate Consistent(cfg: Config, deadline: int, st: State) {
    && Distinct(Urls(st.fetched))
    && st.visited == Elements(Urls(st.fetched))
    && st.counts == MergeAll(cfg.source, Urls(st.fetched))
    && Admitted(cfg, deadline, st.fetched, st.tick)
  }

  /** Every logged fetch was let through by a reading taken before `tick`, no later than the deadline, of a URL no pattern ignores. */
  ghost predicate Admitted(cfg: Config, deadline: int, log: seq<Fetch>, tick: nat) {
    forall i :: 0 <= i < |log| ==>
      && log[i].at < tick
      && cfg.clock(log[i].at) <= deadline
      && !Ignored(cfg, log[i].url)
  }

  /** Logging one more admitted fetch, with the clock moved past its reading, keeps the log admitted. */
  lemma AdmittedAppend(cfg: Config, deadline: int, log: seq<Fetch>, tick: nat, f: Fetch)
    requires Admitted(cfg, deadline, log, tick)
    requires f.at < tick && cfg.clock(f.at) <= deadline && !Ignored(cfg, f.url)
    ensures Admitted(cfg, deadline, log + [f], tick)
  {
  }

  /** A task with no hops left, or whose clock reading is past the deadline, claims, fetches and merges nothing. */
  lemma NodeInert(cfg: Config, deadline: int, url: string, depth: nat, st: State)
    requires depth == 0 || cfg.clock(st.tick) > deadline
    ensures var r := Node(cfg, deadline, url, depth, st);
      && r.visited == st.visited
      && r.counts == st.counts
      && r.fetched == st.fetched
      && r.tick == (if depth == 0 then st.tick else st.tick + 1)
  {
  }

  /** A live task for an ignored URL only consumes its clock reading. */
  lemma NodeIgnored(cfg: Config, deadline: int, url: string, depth: nat, st: State)
    requires Ignored(cfg, url)
    ensures var r := Node(cfg, deadline, url, depth, st);
      && r.visited == st.visited
      && r.counts == st.counts
      && r.fetched == st.fetched
  {
  }

  /** A task for an already claimed URL only consumes its clock reading: no second fetch, no second merge. */
  lemma NodeAlreadyVisited(cfg: Config, deadline: int, url: string, depth: nat, st: State)
    requires url in st.visited
    requires depth > 0
    ensures Node(cfg, deadline, url, depth, st) == st.(tick := st.tick + 1)
  {
  }

  /** Taking a clock reading keeps the shared state consistent. */
  lemma TickKeepsConsistent(cfg: Config, deadline: int, st: State)
    requires Consistent(cfg, deadline, st)
    ensures Consistent(cfg, deadline, st.(tick := st.tick + 1))
  {
  }

  /** Claiming a URL that is neither visited nor ignored, at a reading within the deadline, keeps the state consistent. */
  lemma VisitKeepsConsistent(cfg: Config, deadline: int, url: string, st: State)
    requires Consistent(cfg, deadline, st)
    requires url !in st.visited && !Ignored(cfg, url)
    requires st.tick > 0 && cfg.clock(st.tick - 1) <= deadline
    ensures Consistent(cfg, deadline, Visit(cfg, url, st.tick - 1, st))
  {
    var st2 := Visit(cfg, url, st.tick - 1, st);
    var urls := Urls(st.fetched);
    assert Urls(st2.fetched) == urls + [url];
    AppendFresh(urls, url);
    MergeAllAppend(cfg.source, urls, url);
    AdmittedAppend(cfg, deadline, st.fetched, st.tick, Fetch(url, st.tick - 1));
  }

  /** Every task keeps the shared state consistent. */
  lemma {:induction false} NodeKeepsConsistent(cfg: Config, deadline: int, url: string, depth: nat, st: State)
    requires Consistent(cfg, deadline, st)
    ensures Consistent(cfg, deadline, Node(cfg, deadline, url, depth, st))
    decreases depth, 0
  {
    if depth > 0 {
      var st1 := st.(tick := st.tick + 1);
      TickKeepsConsistent(cfg, deadline, st);
      if cfg.clock(st.tick) <= deadline && !Ignored(cfg, url) && url !in st.visited {
        var st2 := Visit(cfg, url, st.tick, st1);
        VisitKeepsConsistent(cfg, deadline, url, st1);
        ChildrenKeepConsistent(cfg, deadline, cfg.source(url).links, depth - 1, st2);
        assert Node(cfg, deadline, url, depth, st) == Children(cfg, deadline, cfg.source(url).links, depth - 1, st2);
      } else {
        assert Node(cfg, deadline, url, depth, st) == st1;
      }
    }
  }

  /** Running a task's children keeps the shared state consistent. */
  lemma {:induction false} ChildrenKeepConsistent(cfg: Config, deadline: int, links: seq<string>, depth: nat, st: State)
    requires Consistent(cfg, deadline, st)
    ensures Consistent(cfg, deadline, Children(cfg, deadline, links, depth, st))
    decreases depth, 1, |links|
  {
    if links != [] {
      var mid := Node(cfg, deadline, links[0], depth, st);
      NodeKeepsConsistent(cfg, deadline, links[0], depth, st);
      ChildrenKeepConsistent(cfg, deadline, links[1..], depth, mid);
      assert Children(cfg, deadline, links, depth, st) == Children(cfg, deadline, links[1..], depth, mid);
    }
  }

  /** Every URL a task newly visits is reachable from the task's URL in fewer than `depth` hops. */
  lemma {:induction false} NodeReach(cfg: Config, deadline: int, url: string, depth: nat, st: State)
    ensures var r := Node(cfg, deadline, url, depth, st);
      forall u :: u in r.visited && u !in st.visited ==> depth >= 1 && Within(cfg.source, url, u, depth - 1)
    decreases depth, 0
  {
    var r := Node(cfg, deadline, url, depth, st);
    if depth > 0 && cfg.clock(st.tick) <= deadline && !Ignored(cfg, url) && url !in st.visited {
      var st2 := Visit(cfg, url, st.tick, st.(tick := st.tick + 1));
      var links := cfg.source(url).links;
      ChildrenReach(cfg, deadline, links, depth - 1, st2);
      forall u | u in r.visited && u !in st.visited
        ensures Within(cfg.source, url, u, depth - 1)
      {
        if u != url {
          var i :| 0 <= i < |links| && Within(cfg.source, links[i], u, depth - 2);
        }
      }
    }
  }

  /** Every URL the children newly visit is reachable from one of the links in fewer than `depth` hops. */
  lemma {:induction false} ChildrenReach(cfg: Config, deadline: int, links: seq<string>, depth: nat, st: State)
    ensures var r := Children(cfg, deadline, links, depth, st);
      forall u :: u in r.visited && u !in st.visited ==>
        depth >= 1 && exists i :: 0 <= i < |links| && Within(cfg.source, links[i], u, depth - 1)
    decreases depth, 1, |links|
  {
    if links != [] {
      var mid := Node(cfg, deadline, links[0], depth, st);
      NodeReach(cfg, deadline, links[0], depth, st);
      ChildrenReach(cfg, deadline, links[1..], depth, mid);
      var r := Children(cfg, deadline, links, depth, st);
      forall u | u in r.visited && u !in st.visited
        ensures depth >= 1 && exists i :: 0 <= i < |links| && Within(cfg.source, links[i], u, depth - 1)
      {
        if u in mid.visited {
          assert Within(cfg.source, links[0], u, depth - 1);
        } else {
          var j :| 0 <= j < |links[1..]| && Within(cfg.source, links[1..][j], u, depth - 1);
          assert links[j + 1] == links[1..][j];
        }
      }
    }
  }
}
