/**
 * `answer_question`: the context handed to the language model is built
 * from the first five search hits of the repository, one `## File:`
 * section per hit whose node has a summary, and falls back to the root
 * summary when no hit contributes.  The model's answer is an opaque
 * function of the question and the context.
 */
module QA {
  import opened Wrappers
  import opened Strings
  import opened Nodes
  import opened Search

  datatype Context = Context(sections: seq<string>, sources: seq<string>)

  /** The node a hit is looked up as: the first row of the repository with the hit's path, if it has a summary. */
  function Contributor(nodes: seq<Node>, repo: nat, path: string): (r: Option<Node>)
    ensures r.Some? ==> r.value in nodes && r.value.repoId == repo && r.value.path == path
    ensures r.Some? ==> r.value.summary.Some? && r.value.summary.value != ""
  {
    match FindNode(nodes, repo, path)
    case None => None
    case Some(k) =>
      if nodes[k].summary.Some? && nodes[k].summary.value != "" then Some(nodes[k]) else None
  }

  function FileSection(n: Node): string
    requires n.summary.Some?
  {
    "## File: " + n.path + "\n" + n.summary.value
  }

  /** The sections and sources contributed by the hits, in hit order. */
  function HitSections(nodes: seq<Node>, repo: nat, hits: seq<SearchResult>): (c: Context)
    ensures |c.sections| == |c.sources| <= |hits|
  {
    if hits == [] then Context([], [])
    else
      var front := HitSections(nodes, repo, hits[..|hits| - 1]);
      match Contributor(nodes, repo, hits[|hits| - 1].path)
      case None => front
      case Some(n) => Context(front.sections + [FileSection(n)], front.sources + [n.path])
  }

  /** The root row: the first node of the repository with path "" and no parent. */
  function RootRow(nodes: seq<Node>, repo: nat): (r: Option<Node>)
    ensures r.Some? ==> r.value in nodes && r.value.repoId == repo && r.value.path == "" && r.value.parentId.None?
    ensures r.None? ==> forall n :: n in nodes ==> !(n.repoId == repo && n.path == "" && n.parentId.None?)
  {
    if nodes == [] then None
    else if nodes[0].repoId == repo && nodes[0].path == "" && nodes[0].parentId.None? then Some(nodes[0])
    else RootRow(nodes[1..], repo)
  }

  /** The fallback: the root summary as the repository overview, if there is one. */
  function Fallback(nodes: seq<Node>, repo: nat): Context {
    match RootRow(nodes, repo)
    case Some(root) =>
      if root.summary.Some? && root.summary.value != "" then
        Context(["## Repository Overview\n" + root.summary.value], ["root"])
      else Context([], [])
    case None => Context([], [])
  }

  /** The hits `answer_question` considers: the first five of a search limited to ten. */
  function TopHits(nodes: seq<Node>, repo: nat, question: string): seq<SearchResult> {
    Take(Ranked(nodes, question, 10, Some(repo)), 5)
  }

  function QaContext(nodes: seq<Node>, repo: nat, question: string): Context {
    var top := HitSections(nodes, repo, TopHits(nodes, repo, question));
    if top.sections != [] then top else Fallback(nodes, repo)
  }

  /** The loop over the top hits: look each one up and keep those with a summary. */
  method CollectSections(nodes: seq<Node>, repo: nat, top: seq<SearchResult>)
    returns (sections: seq<string>, sources: seq<string>)
    ensures Context(sections, sources) == HitSections(nodes, repo, top)
  {
    sections, sources := [], [];
    var i := 0;
    while i < |top|
      invariant 0 <= i <= |top|
      invariant Context(sections, sources) == HitSections(nodes, repo, top[..i])
    {
      assert top[..i + 1][..i] == top[..i];
      var found := FindNode(nodes, repo, top[i].path);
      if found.Some? && nodes[found.value].summary.Some? && nodes[found.value].summary.value != "" {
        var n := nodes[found.value];
        sections := sections + ["## File: " + n.path + "\n" + n.summary.value];
        sources := sources + [n.path];
      }
      i := i + 1;
    }
    assert top[..|top|] == top;
  }

  /** `answer_question`: the answer of `llm` for the question and the joined context, and the sources. */
  method AnswerQuestion(nodes: seq<Node>, repo: nat, question: string, llm: (string, string) -> string)
    returns (answer: string, sources: seq<string>)
    ensures sources == QaContext(nodes, repo, question).sources
    ensures answer == llm(question, JoinWith(QaContext(nodes, repo, question).sections, "\n\n"))
    ensures |sources| <= 5
  {
    var results := SearchSummaries(nodes, question, 10, Some(repo));
    var sections;
    sections, sources := CollectSections(nodes, repo, Take(results, 5));
    if sections == [] {
      var root := RootRow(nodes, repo);
      if root.Some? && root.value.summary.Some? && root.value.summary.value != "" {
        sections := sections + ["## Repository Overview\n" + root.value.summary.value];
        // `root_node.path or "root"`: the root row's path is "", so the source is "root"
        sources := sources + ["root"];
      }
    }
    var context := JoinWith(sections, "\n\n");
    answer := llm(question, context);
  }

  /* ---------- properties ---------- */

  /** At most five sources, one per section. */
  lemma ContextBounds(nodes: seq<Node>, repo: nat, question: string)
    ensures var c := QaContext(nodes, repo, question);
      |c.sources| == |c.sections| && |c.sources| <= 5
  {
  }

  /** Each contributing hit adds `## File: <path>` with its node's non-empty summary, and its path. */
  lemma {:induction false} HitSectionsShape(nodes: seq<Node>, repo: nat, hits: seq<SearchResult>, k: nat)
    requires k < |HitSections(nodes, repo, hits).sections|
    ensures var c := HitSections(nodes, repo, hits);
      exists n :: n in nodes && n.repoId == repo && n.path == c.sources[k]
        && n.summary.Some? && n.summary.value != "" && c.sections[k] == FileSection(n)
  {
    var front := HitSections(nodes, repo, hits[..|hits| - 1]);
    if k < |front.sections| {
      HitSectionsShape(nodes, repo, hits[..|hits| - 1], k);
    }
  }

  /** A source comes from a hit, and hits are considered in order: the sources are the contributing hits' paths. */
  lemma {:induction false} HitSectionsSources(nodes: seq<Node>, repo: nat, hits: seq<SearchResult>)
    ensures forall k :: 0 <= k < |HitSections(nodes, repo, hits).sources| ==>
      exists j :: 0 <= j < |hits| && hits[j].path == HitSections(nodes, repo, hits).sources[k]
  {
    if hits != [] {
      var init := hits[..|hits| - 1];
      HitSectionsSources(nodes, repo, init);
      var front := HitSections(nodes, repo, init);
      var c := HitSections(nodes, repo, hits);
      forall k | 0 <= k < |c.sources| ensures exists j :: 0 <= j < |hits| && hits[j].path == c.sources[k] {
        if k < |front.sources| {
          var j :| 0 <= j < |init| && init[j].path == front.sources[k];
          assert hits[j] == init[j];
        } else {
          var n :| Contributor(nodes, repo, hits[|hits| - 1].path) == Some(n);
          assert c.sources == front.sources + [n.path];
          assert c.sources[k] == hits[|hits| - 1].path;
        }
      }
      assert forall k :: 0 <= k < |c.sources| ==> exists j :: 0 <= j < |hits| && hits[j].path == c.sources[k];
    } else {
      assert HitSections(nodes, repo, hits).sources == [];
    }
  }

  /** With no contributing hit and a root summary, the context is the overview and the source is "root". */
  lemma FallbackToRoot(nodes: seq<Node>, repo: nat, question: string, root: Node)
    requires HitSections(nodes, repo, TopHits(nodes, repo, question)).sections == []
    requires RootRow(nodes, repo) == Some(root) && root.summary.Some? && root.summary.value != ""
    ensures QaContext(nodes, repo, question) == Context(["## Repository Overview\n" + root.summary.value], ["root"])
  {
  }

  /** With neither a contributing hit nor a root summary, the context is empty and so are the sources. */
  lemma NothingToSay(nodes: seq<Node>, repo: nat, question: string)
    requires HitSections(nodes, repo, TopHits(nodes, repo, question)).sections == []
    requires forall n :: n in nodes && n.repoId == repo && n.path == "" && n.parentId.None? ==>
               n.summary.None? || n.summary.value == ""
    ensures QaContext(nodes, repo, question) == Context([], [])
    ensures JoinWith(QaContext(nodes, repo, question).sections, "\n\n") == ""
  {
  }

  /** A question no summary of the repository contains gets no hits, so only the fallback can answer. */
  lemma UnmatchedQuestionFallsBack(nodes: seq<Node>, repo: nat, question: string)
    requires forall n :: n in nodes && n.repoId == repo && n.summary.Some? ==> !Contains(n.summary.value, question)
    ensures QaContext(nodes, repo, question) == Fallback(nodes, repo)
  {
    NoCandidates(nodes, question, Some(repo));
  }
}
