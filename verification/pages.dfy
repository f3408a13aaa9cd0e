/**
 * The web as the crawler sees it. Fetching and parsing a URL is an external
 * collaborator; here it is a total function from a URL to the parsed page:
 * the page's word counts and its outbound links, in document order.
 */
module Pages {

  datatype Page = Page(wordCounts: map<string, nat>, links: seq<string>)

  /** The count recorded for `w`, zero when `w` is absent. */
  function Get(counts: map<string, nat>, w: string): nat {
    if w in counts then counts[w] else 0
  }

  /** How often word `w` occurs on page `p` (zero when the parser did not report it). */
  function Occurrences(p: Page, w: string): nat {
    Get(p.wordCounts, w)
  }

  /** `to` can be reached from `from` by following at most `hops` links of `source`. */
  ghost predicate Within(source: string -> Page, from: string, to: string, hops: nat)
    decreases hops
  {
    || from == to
    || (hops > 0 && exists i :: 0 <= i < |source(from).links| && Within(source, source(from).links[i], to, hops - 1))
  }
}
