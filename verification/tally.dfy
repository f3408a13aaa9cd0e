/**
 * The running word-count aggregate: merging one page's counts into it
 * (`InternalCrawlerNode.countWordsInUrl`), and what the aggregate equals
 * after a whole sequence of pages has been merged.
 */
module Tally {
  import opened Pages
  import opened Seqs

  /** Reference definition of a merge: every word keeps the sum of both sides. */
  function Merge(counts: map<string, nat>, page: map<string, nat>): map<string, nat> {
    map w | w in counts.Keys + page.Keys :: Get(counts, w) + Get(page, w)
  }

  /** One atomic insert-or-add of `n` occurrences of `w`: the `compute` call made per page entry. */
  function Insert(counts: map<string, nat>, w: string, n: nat): map<string, nat> {
    counts[w := if w !in counts then n else counts[w] + n]
  }

  /**
   * Two insert-or-add steps give the same map in either order, whether or not
   * they touch the same word; so any interleaving of the steps of concurrent
   * merges ends in the same aggregate.
   */
  lemma InsertCommutes(counts: map<string, nat>, v: string, m: nat, w: string, n: nat)
    ensures Insert(Insert(counts, v, m), w, n) == Insert(Insert(counts, w, n), v, m)
    ensures Get(Insert(counts, w, n), w) == Get(counts, w) + n
  {
  }

  /**
   * The merge as the crawler performs it: one insert-or-add per entry of the
   * page's word counts, in whatever order the entries are enumerated.
   */
  method CountWordsInUrl(page: map<string, nat>, counts: map<string, nat>) returns (r: map<string, nat>)
    ensures r.Keys == counts.Keys + page.Keys
    ensures forall w :: w in page ==> r[w] == Get(counts, w) + page[w]
    ensures forall w :: w in counts && w !in page ==> r[w] == counts[w]
    ensures r == Merge(counts, page)
  {
    r := counts;
    var todo := page.Keys;
    while todo != {}
      invariant todo <= page.Keys
      invariant r.Keys == counts.Keys + (page.Keys - todo)
      invariant forall w :: w in r ==> r[w] == Get(counts, w) + (if w in page && w !in todo then page[w] else 0)
      decreases todo
    {
      var w :| w in todo;
      r := Insert(r, w, page[w]);
      todo := todo - {w};
    }
    assert forall w :: w in r ==> r[w] == Merge(counts, page)[w];
  }

  /** Merging two pages gives the same aggregate in either order. */
  lemma MergeCommutes(counts: map<string, nat>, p: map<string, nat>, q: map<string, nat>)
    ensures Merge(Merge(counts, p), q) == Merge(Merge(counts, q), p)
  {
    var a := Merge(Merge(counts, p), q);
    var b := Merge(Merge(counts, q), p);
    forall w | w in a
      ensures a[w] == b[w]
    {
      assert a[w] == Get(counts, w) + Get(p, w) + Get(q, w);
    }
  }

  /** The aggregate after merging the pages of `urls` one after the other, starting empty. */
  function MergeAll(source: string -> Page, urls: seq<string>): map<string, nat>
    decreases |urls|
  {
    if urls == [] then map[]
    else Merge(MergeAll(source, urls[..|urls| - 1]), source(urls[|urls| - 1]).wordCounts)
  }

  /** Merging one more page extends the aggregate by that page's counts. */
  lemma MergeAllAppend(source: string -> Page, urls: seq<string>, u: string)
    ensures MergeAll(source, urls + [u]) == Merge(MergeAll(source, urls), source(u).wordCounts)
  {
  }

  /** Total occurrences of `w` over the pages of `urls`, counting repetitions. */
  ghost function SeqTotal(source: string -> Page, urls: seq<string>, w: string): nat
    decreases |urls|
  {
    if urls == [] then 0
    else SeqTotal(source, urls[..|urls| - 1], w) + Occurrences(source(urls[|urls| - 1]), w)
  }

  /** Total occurrences of `w` over the pages of the set `s`, each page once. */
  ghost function SetTotal(source: string -> Page, s: set<string>, w: string): nat
    decreases s
  {
    if s == {} then 0
    else
      var u :| u in s;
      Occurrences(source(u), w) + SetTotal(source, s - {u}, w)
  }

  /** `SetTotal` does not depend on which element is taken out first. */
  lemma SetTotalRemove(source: string -> Page, s: set<string>, x: string, w: string)
    requires x in s
    ensures SetTotal(source, s, w) == Occurrences(source(x), w) + SetTotal(source, s - {x}, w)
    decreases s
  {
    var y :| y in s && SetTotal(source, s, w) == Occurrences(source(y), w) + SetTotal(source, s - {y}, w);
    if y != x {
      SetTotalRemove(source, s - {y}, x, w);
      assert s - {y} - {x} == s - {x} - {y};
      SetTotalRemove(source, s - {x}, y, w);
    }
  }

  /** Over a sequence without repetitions, the sequence total is the total over its elements. */
  lemma {:induction false} SeqTotalIsSetTotal(source: string -> Page, urls: seq<string>, w: string)
    requires Distinct(urls)
    ensures SeqTotal(source, urls, w) == SetTotal(source, Elements(urls), w)
    decreases |urls|
  {
    if urls != [] {
      var init := urls[..|urls| - 1];
      var last := urls[|urls| - 1];
      assert Distinct(init);
      SeqTotalIsSetTotal(source, init, w);
      assert urls == init + [last];
      assert Elements(urls) - {last} == Elements(init);
      SetTotalRemove(source, Elements(urls), last, w);
    }
  }

  /** Each word's aggregate count is its total over the merged pages. */
  lemma {:induction false} MergeAllCounts(source: string -> Page, urls: seq<string>, w: string)
    ensures Get(MergeAll(source, urls), w) == SeqTotal(source, urls, w)
    decreases |urls|
  {
    if urls != [] {
      MergeAllCounts(source, urls[..|urls| - 1], w);
    }
  }

  /** A word has an entry in the aggregate exactly when some merged page reported it. */
  lemma {:induction false} MergeAllKeys(source: string -> Page, urls: seq<string>, w: string)
    ensures w in MergeAll(source, urls) <==> exists i :: 0 <= i < |urls| && w in source(urls[i]).wordCounts
    decreases |urls|
  {
    if urls != [] {
      var init := urls[..|urls| - 1];
      MergeAllKeys(source, init, w);
      if w in MergeAll(source, urls) && w !in source(urls[|urls| - 1]).wordCounts {
        var i :| 0 <= i < |init| && w in source(init[i]).wordCounts;
        assert urls[i] == init[i];
      }
      if exists i :: 0 <= i < |urls| && w in source(urls[i]).wordCounts {
        var i :| 0 <= i < |urls| && w in source(urls[i]).wordCounts;
        if i < |init| {
          assert init[i] == urls[i];
        }
      }
    }
  }
}
