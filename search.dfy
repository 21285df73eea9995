/**
 * `search_summaries`: a lexical search over the node summaries.  Candidates
 * are the nodes whose summary contains the query (optionally of one
 * repository), at most `2 * limit` of them in table order.  Each gets a
 * score in tiers of 0.5, written here in half-units (0.5 is 1, 2.5 is 5),
 * and the results are sorted by score, highest first, stably, and cut to
 * `limit`.
 */
module Search {
  import opened Wrappers
  import opened Strings
  import opened StableSort
  import opened Nodes

  datatype SearchResult = SearchResult(path: string, score: nat, snippet: string)

  /** The query words that take part in scoring: those longer than two characters. */
  function LongWords(ws: seq<string>): (r: seq<string>)
    ensures forall k :: 0 <= k < |r| ==> |r[k]| > 2 && r[k] in ws
    ensures forall w :: w in ws && |w| > 2 ==> w in r
  {
    if ws == [] then []
    else (if |ws[0]| > 2 then [ws[0]] else []) + LongWords(ws[1..])
  }

  predicate AllOccur(ws: seq<string>, text: string) {
    forall k :: 0 <= k < |ws| ==> Contains(text, ws[k])
  }

  predicate AnyOccurs(ws: seq<string>, text: string) {
    exists k :: 0 <= k < |ws| && Contains(text, ws[k])
  }

  /** The score tier of a summary: 4 for the whole query, 3 for every long word, 2 for some, else 1. */
  function Tier(summary: string, query: string): (t: nat)
    ensures 1 <= t <= 4
  {
    var q := Lower(query);
    var text := Lower(summary);
    var ws := LongWords(Words(q));
    if Contains(text, q) then 4
    else if AllOccur(ws, text) then 3
    else if AnyOccurs(ws, text) then 2
    else 1
  }

  /** The tier plus one half-unit when the query also occurs in the path. */
  function Score(summary: string, path: string, query: string): (s: nat)
    ensures 1 <= s <= 5
  {
    Tier(summary, query) + (if Contains(Lower(path), Lower(query)) then 1 else 0)
  }

  /** `summary[:300]` */
  function Snippet(summary: string): (r: string)
    ensures |r| <= 300 && |r| <= |summary| && r == summary[..|r|]
    ensures |summary| <= 300 ==> r == summary
  {
    if |summary| <= 300 then summary else summary[..300]
  }

  /** The SQL filter: a summary containing the query, and the repository when one is given. */
  predicate IsCandidate(n: Node, query: string, repoId: Option<nat>) {
    && n.summary.Some?
    && Contains(n.summary.value, query)
    && (repoId.Some? ==> n.repoId == repoId.value)
  }

  function Candidates(nodes: seq<Node>, query: string, repoId: Option<nat>): (r: seq<Node>)
    ensures forall k :: 0 <= k < |r| ==> IsCandidate(r[k], query, repoId)
    ensures forall n :: n in r <==> n in nodes && IsCandidate(n, query, repoId)
  {
    if nodes == [] then []
    else (if IsCandidate(nodes[0], query, repoId) then [nodes[0]] else []) + Candidates(nodes[1..], query, repoId)
  }

  function Take<T>(s: seq<T>, n: nat): (r: seq<T>)
    ensures |r| <= n && |r| <= |s| && r == s[..|r|]
    ensures |s| <= n ==> r == s
  {
    if |s| <= n then s else s[..n]
  }

  function ResultOf(n: Node, query: string): SearchResult
    requires n.summary.Some?
  {
    SearchResult(n.path, Score(n.summary.value, n.path, query), Snippet(n.summary.value))
  }

  /** Sorting key of `results.sort(key=score, reverse=True)`. */
  predicate ScoreGe(a: SearchResult, b: SearchResult) {
    a.score >= b.score
  }

  /** The unsorted results, one per candidate, in candidate order. */
  function Scored(cands: seq<Node>, query: string): (r: seq<SearchResult>)
    requires forall k :: 0 <= k < |cands| ==> cands[k].summary.Some?
    ensures |r| == |cands|
    ensures forall k :: 0 <= k < |r| ==> r[k] == ResultOf(cands[k], query)
  {
    seq(|cands|, k requires 0 <= k < |cands| => ResultOf(cands[k], query))
  }

  /** What `search_summaries` returns. */
  function Ranked(nodes: seq<Node>, query: string, limit: nat, repoId: Option<nat>): seq<SearchResult> {
    var cands := Take(Candidates(nodes, query, repoId), 2 * limit);
    Take(Sort(Scored(cands, query), ScoreGe), limit)
  }

  /** The loop of `search_summaries`: one result per candidate, in candidate order. */
  method ScoreAll(cands: seq<Node>, query: string) returns (scored: seq<SearchResult>)
    requires forall k :: 0 <= k < |cands| ==> cands[k].summary.Some?
    ensures scored == Scored(cands, query)
  {
    scored := [];
    var i := 0;
    while i < |cands|
      invariant 0 <= i <= |cands|
      invariant |scored| == i
      invariant forall k :: 0 <= k < i ==> scored[k] == ResultOf(cands[k], query)
    {
      var n := cands[i];
      var score := Tier(n.summary.value, query);
      if Contains(Lower(n.path), Lower(query)) {
        score := score + 1;
      }
      scored := scored + [SearchResult(n.path, score, Snippet(n.summary.value))];
      i := i + 1;
    }
  }

  /** `search_summaries`: score every candidate, sort by score, keep `limit`. */
  method SearchSummaries(nodes: seq<Node>, query: string, limit: nat, repoId: Option<nat>)
    returns (results: seq<SearchResult>)
    ensures results == Ranked(nodes, query, limit, repoId)
    ensures |results| <= limit
  {
    var cands := Take(Candidates(nodes, query, repoId), 2 * limit);
    var scored := ScoreAll(cands, query);
    results := Take(Sort(scored, ScoreGe), limit);
  }

  /* ---------- properties ---------- */

  lemma ScoreGeTotalPreorder()
    ensures TotalPreorder(ScoreGe)
  {
  }

  /** The results are ordered by score, highest first. */
  lemma RankedSorted(nodes: seq<Node>, query: string, limit: nat, repoId: Option<nat>)
    ensures Sorted(Ranked(nodes, query, limit, repoId), ScoreGe)
  {
    var cands := Take(Candidates(nodes, query, repoId), 2 * limit);
    var sorted := Sort(Scored(cands, query), ScoreGe);
    ScoreGeTotalPreorder();
    SortSorted(Scored(cands, query), ScoreGe);
    SortedPrefix(sorted, |Take(sorted, limit)|, ScoreGe);
  }

  /** Among results of equal score, the retrieval order is kept. */
  lemma RankedStable(nodes: seq<Node>, query: string, limit: nat, repoId: Option<nat>, z: SearchResult)
    ensures var scored := Scored(Take(Candidates(nodes, query, repoId), 2 * limit), query);
      Equivalents(Sort(scored, ScoreGe), z, ScoreGe) == Equivalents(scored, z, ScoreGe)
  {
    ScoreGeTotalPreorder();
    SortStable(Scored(Take(Candidates(nodes, query, repoId), 2 * limit), query), z, ScoreGe);
  }

  /** Every result stands for a candidate node: its path, its score, the start of its summary. */
  lemma RankedFromCandidates(nodes: seq<Node>, query: string, limit: nat, repoId: Option<nat>, r: SearchResult)
    requires r in Ranked(nodes, query, limit, repoId)
    ensures exists n :: n in nodes && IsCandidate(n, query, repoId) && r == ResultOf(n, query)
  {
    var all := Candidates(nodes, query, repoId);
    var cands := Take(all, 2 * limit);
    var scored := Scored(cands, query);
    var sorted := Sort(scored, ScoreGe);
    assert r in sorted;
    assert r in multiset(sorted);
    assert r in multiset(scored);
    var k :| 0 <= k < |scored| && scored[k] == r;
    assert cands[k] == all[k];
    assert all[k] in all;
  }

  /** A summary that contains the query contains it lower-cased too, so it always gets the top tier. */
  lemma CandidatesGetTopTier(n: Node, query: string, repoId: Option<nat>)
    requires IsCandidate(n, query, repoId)
    ensures Tier(n.summary.value, query) == 4
    ensures 4 <= ResultOf(n, query).score <= 5
  {
    LowerKeepsContains(n.summary.value, query);
  }

  /** Hence every score the search returns is 2.0 or 2.5. */
  lemma RankedScoresTopTiers(nodes: seq<Node>, query: string, limit: nat, repoId: Option<nat>, r: SearchResult)
    requires r in Ranked(nodes, query, limit, repoId)
    ensures r.score == 4 || r.score == 5
  {
    RankedFromCandidates(nodes, query, limit, repoId, r);
    var n :| n in nodes && IsCandidate(n, query, repoId) && r == ResultOf(n, query);
    CandidatesGetTopTier(n, query, repoId);
  }

  /** The lowest tier needs at least one long query word, none of which occurs. */
  lemma LowestTier(summary: string, query: string)
    requires Tier(summary, query) == 1
    ensures var ws := LongWords(Words(Lower(query)));
      ws != [] && forall k :: 0 <= k < |ws| ==> !Contains(Lower(summary), ws[k])
  {
  }

  lemma {:induction false} NoLongWords(ws: seq<string>)
    requires forall w :: w in ws ==> |w| <= 2
    ensures LongWords(ws) == []
  {
    if ws != [] {
      NoLongWords(ws[1..]);
    }
  }

  /** A query with no word longer than two characters lands in tier 3 at worst. */
  lemma ShortQueryWordsVacuous(summary: string, query: string)
    requires forall w :: w in Words(Lower(query)) ==> |w| <= 2
    ensures Tier(summary, query) >= 3
  {
    NoLongWords(Words(Lower(query)));
  }

  /** The path bonus is exactly one half-unit, for a path containing the query. */
  lemma PathBonus(summary: string, path: string, query: string)
    ensures Score(summary, path, query) - Tier(summary, query) == (if Contains(Lower(path), Lower(query)) then 1 else 0)
  {
  }

  /** At most `limit` results, drawn from at most `2 * limit` candidates. */
  lemma RankedBounds(nodes: seq<Node>, query: string, limit: nat, repoId: Option<nat>)
    ensures |Ranked(nodes, query, limit, repoId)| <= limit
    ensures |Ranked(nodes, query, limit, repoId)| <= |Take(Candidates(nodes, query, repoId), 2 * limit)| <= 2 * limit
  {
  }

  /** Every result has a score between 0.5 and 2.5 and a snippet of at most 300 characters. */
  lemma RankedResultsWellFormed(nodes: seq<Node>, query: string, limit: nat, repoId: Option<nat>, r: SearchResult)
    requires r in Ranked(nodes, query, limit, repoId)
    ensures 1 <= r.score <= 5 && |r.snippet| <= 300
  {
    RankedFromCandidates(nodes, query, limit, repoId, r);
  }

  /** Without a single candidate the search returns nothing. */
  lemma {:induction false} NoCandidates(nodes: seq<Node>, query: string, repoId: Option<nat>)
    requires forall n :: n in nodes ==> !IsCandidate(n, query, repoId)
    ensures Candidates(nodes, query, repoId) == []
  {
    if nodes != [] {
      NoCandidates(nodes[1..], query, repoId);
    }
  }
}
