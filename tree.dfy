/**
 * The summary tree served to the browser: `build_tree` nests the node rows
 * of one repository by their parent links, and `get_tree` picks the root
 * and answers 404 when there is nothing to show.
 *
 * The recursion follows parent ids and would not terminate on a cycle of
 * parent links, so the model asks for a rank on ids that strictly falls
 * from every parent to each of its children.
 */
module Tree {
  import opened Wrappers
  import opened SummaryFiles
  import opened Nodes
  import opened Sequences

  /** The `RepoNode` response: a node with its summary (or "") and its subtrees. */
  datatype TreeNode = TreeNode(name: string, kind: ItemKind, path: string, summary: string, children: seq<TreeNode>)

  /** Every parent link goes to an id of strictly higher rank. */
  ghost predicate Acyclic(nodes: seq<Node>, rank: nat -> nat) {
    forall n :: n in nodes && n.parentId.Some? ==> rank(n.id) < rank(n.parentId.value)
  }

  /** `[n for n in nodes if n.parent_id == parent_id]` */
  function Children(nodes: seq<Node>, parent: Option<nat>): (r: seq<Node>)
    ensures |r| <= |nodes|
    ensures forall n :: n in r <==> n in nodes && n.parentId == parent
  {
    if nodes == [] then []
    else (if nodes[0].parentId == parent then [nodes[0]] else []) + Children(nodes[1..], parent)
  }

  /** `node.summary or ""` */
  function SummaryText(n: Node): (s: string)
    ensures n.summary.Some? ==> s == n.summary.value
    ensures n.summary.None? ==> s == ""
  {
    match n.summary
    case Some(t) => t
    case None => ""
  }

  /** The measure both functions below decrease: top level first, then rank. */
  function Level(parent: Option<nat>, rank: nat -> nat): nat {
    if parent.Some? then rank(parent.value) else 0
  }

  /** `build_tree(nodes, parent_id)` */
  function BuildTree(nodes: seq<Node>, parent: Option<nat>, rank: nat -> nat): seq<TreeNode>
    requires Acyclic(nodes, rank)
    decreases if parent.None? then 1 else 0, Level(parent, rank), 1, 0
  {
    BuildEach(nodes, Children(nodes, parent), parent, rank)
  }

  /** The loop of `build_tree` over the children of `parent`. */
  function BuildEach(nodes: seq<Node>, cs: seq<Node>, parent: Option<nat>, rank: nat -> nat): (r: seq<TreeNode>)
    requires Acyclic(nodes, rank)
    requires forall c :: c in cs ==> c in nodes && c.parentId == parent
    ensures |r| == |cs|
    decreases if parent.None? then 1 else 0, Level(parent, rank), 0, |cs|
  {
    if cs == [] then []
    else
      var c := cs[0];
      [TreeNode(c.name, c.kind, c.path, SummaryText(c), BuildTree(nodes, Some(c.id), rank))]
        + BuildEach(nodes, cs[1..], parent, rank)
  }

  predicate IsExplicitRoot(n: Node) {
    n.path == "" && n.parentId.None?
  }

  predicate IsTopLevel(n: Node) {
    n.parentId.None?
  }

  /** The root: the first explicit root (path "", no parent), else the first node without a parent. */
  function SelectRoot(rs: seq<Node>): (r: Option<Node>)
    ensures r.Some? ==> r.value in rs && IsTopLevel(r.value)
    ensures r.None? <==> forall n :: n in rs ==> !IsTopLevel(n)
    ensures forall i :: 0 <= i < |rs| && IsExplicitRoot(rs[i]) ==>
              r.Some? && IsExplicitRoot(r.value) && r.value == rs[FirstWhere(rs, IsExplicitRoot).value]
    ensures (forall n :: n in rs ==> !IsExplicitRoot(n)) && r.Some? ==>
              r.value == rs[FirstWhere(rs, IsTopLevel).value]
  {
    match FirstWhere(rs, IsExplicitRoot)
    case Some(i) => Some(rs[i])
    case None =>
      match FirstWhere(rs, IsTopLevel)
      case Some(i) => Some(rs[i])
      case None => None
  }

  /** `get_tree(repo_id)`: the root with its subtrees, or the 404 detail. */
  function GetTree(repos: set<nat>, nodes: seq<Node>, repoId: nat, rank: nat -> nat): Result<TreeNode, string>
    requires Acyclic(nodes, rank)
  {
    if repoId !in repos then Err("Repository not found")
    else
      var rs := NodesOf(nodes, repoId);
      if rs == [] then Err("Repository tree not found")
      else
        match SelectRoot(rs)
        case None => Err("Root node not found")
        case Some(root) =>
          Ok(TreeNode(root.name, root.kind, root.path, SummaryText(root), BuildTree(rs, Some(root.id), rank)))
  }

  /** The rows of one repository keep the rank of the whole table. */
  lemma AcyclicNodesOf(nodes: seq<Node>, repo: nat, rank: nat -> nat)
    requires Acyclic(nodes, rank)
    ensures Acyclic(NodesOf(nodes, repo), rank)
  {
  }

  /** Filtering by parent keeps the input order: it distributes over concatenation. */
  lemma {:induction false} ChildrenAppend(a: seq<Node>, b: seq<Node>, parent: Option<nat>)
    ensures Children(a + b, parent) == Children(a, parent) + Children(b, parent)
  {
    if a == [] {
      assert a + b == b;
    } else {
      var ab := a + b;
      assert ab[0] == a[0] && ab[1..] == a[1..] + b;
      var head := if a[0].parentId == parent then [a[0]] else [];
      assert Children(ab, parent) == head + Children(a[1..] + b, parent);
      ChildrenAppend(a[1..], b, parent);
      assert Children(a, parent) == head + Children(a[1..], parent);
    }
  }

  /**
   * `build_tree(nodes, p)` has one entry per node whose parent is `p`, in
   * table order, carrying that node's fields, its summary or "", and the
   * tree below that node as its children.
   */
  lemma {:induction false} BuildEachShape(nodes: seq<Node>, cs: seq<Node>, parent: Option<nat>, rank: nat -> nat, i: nat)
    requires Acyclic(nodes, rank)
    requires forall c :: c in cs ==> c in nodes && c.parentId == parent
    requires i < |cs|
    ensures var t := BuildEach(nodes, cs, parent, rank)[i];
      && t.name == cs[i].name && t.kind == cs[i].kind && t.path == cs[i].path
      && t.summary == SummaryText(cs[i])
      && t.children == BuildTree(nodes, Some(cs[i].id), rank)
    decreases i
  {
    if i > 0 {
      BuildEachShape(nodes, cs[1..], parent, rank, i - 1);
    }
  }

  lemma BuildTreeShape(nodes: seq<Node>, parent: Option<nat>, rank: nat -> nat, i: nat)
    requires Acyclic(nodes, rank)
    requires i < |Children(nodes, parent)|
    ensures |BuildTree(nodes, parent, rank)| == |Children(nodes, parent)|
    ensures var c := Children(nodes, parent)[i];
      var t := BuildTree(nodes, parent, rank)[i];
      && c.parentId == parent
      && t.name == c.name && t.kind == c.kind && t.path == c.path
      && t.summary == SummaryText(c)
      && t.children == BuildTree(nodes, Some(c.id), rank)
  {
    var cs := Children(nodes, parent);
    assert cs[i] in cs;
    BuildEachShape(nodes, cs, parent, rank, i);
  }

  /** A parent without children gives an empty list. */
  lemma NoChildrenNoTree(nodes: seq<Node>, parent: Option<nat>, rank: nat -> nat)
    requires Acyclic(nodes, rank)
    requires forall n :: n in nodes ==> n.parentId != parent
    ensures BuildTree(nodes, parent, rank) == []
  {
  }

  /** Unknown repository, no rows, or no row without a parent: the three 404s. */
  lemma GetTreeErrors(repos: set<nat>, nodes: seq<Node>, repoId: nat, rank: nat -> nat)
    requires Acyclic(nodes, rank)
    ensures repoId !in repos ==> GetTree(repos, nodes, repoId, rank) == Err("Repository not found")
    ensures repoId in repos && (forall n :: n in nodes ==> n.repoId != repoId) ==>
              GetTree(repos, nodes, repoId, rank) == Err("Repository tree not found")
    ensures GetTree(repos, nodes, repoId, rank).Ok? <==>
              repoId in repos && exists n :: n in nodes && n.repoId == repoId && n.parentId.None?
  {
    var rs := NodesOf(nodes, repoId);
    if rs != [] {
      assert rs[0] in rs;
    }
  }

  /**
   * The tree answered for a known repository is headed by the selected
   * root, and its entries are the repository's rows whose parent is that root.
   */
  lemma GetTreeRoot(repos: set<nat>, nodes: seq<Node>, repoId: nat, rank: nat -> nat)
    requires Acyclic(nodes, rank)
    requires GetTree(repos, nodes, repoId, rank).Ok?
    ensures var rs := NodesOf(nodes, repoId);
      var t := GetTree(repos, nodes, repoId, rank).value;
      && SelectRoot(rs).Some?
      && t.path == SelectRoot(rs).value.path && t.name == SelectRoot(rs).value.name
      && t.summary == SummaryText(SelectRoot(rs).value)
      && |t.children| == |Children(rs, Some(SelectRoot(rs).value.id))|
  {
    var rs := NodesOf(nodes, repoId);
    var root := SelectRoot(rs).value;
    AcyclicNodesOf(nodes, repoId, rank);
    var cs := Children(rs, Some(root.id));
    if cs != [] {
      BuildTreeShape(rs, Some(root.id), rank, 0);
    } else {
      NoChildrenNoTree(rs, Some(root.id), rank);
    }
  }

  /**
   * The analyzer stores every row without a parent link, so the tree of a
   * repository it built is its root alone, with no children.
   */
  lemma FlatTableGivesLeafRoot(repos: set<nat>, nodes: seq<Node>, repoId: nat, rank: nat -> nat)
    requires Acyclic(nodes, rank)
    requires forall n :: n in nodes ==> n.parentId.None?
    requires repoId in repos && exists n :: n in nodes && n.repoId == repoId
    ensures GetTree(repos, nodes, repoId, rank).Ok?
    ensures GetTree(repos, nodes, repoId, rank).value.children == []
  {
    var rs := NodesOf(nodes, repoId);
    var n :| n in nodes && n.repoId == repoId;
    assert n in rs;
    AcyclicNodesOf(nodes, repoId, rank);
    var root := SelectRoot(rs).value;
    NoChildrenNoTree(rs, Some(root.id), rank);
  }
}
