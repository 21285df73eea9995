/**
 * The rows of the node table: one per summarised file, folder and
 * repository root.  The table is a sequence in insertion order, which is
 * the order the queries of the core return rows in.  Ids, which the
 * system draws as random UUIDs, are natural numbers here.
 */
module Nodes {
  import opened Wrappers
  import opened SummaryFiles

  datatype Node = Node(
    id: nat,
    repoId: nat,
    parentId: Option<nat>,
    path: string,
    name: string,
    kind: ItemKind,
    summary: Option<string>)

  /** `db.query(Node).filter(Node.repo_id == repo, Node.path == path).first()` */
  function FindNode(nodes: seq<Node>, repo: nat, path: string): (r: Option<nat>)
    ensures r.Some? ==> r.value < |nodes| && nodes[r.value].repoId == repo && nodes[r.value].path == path
    ensures r.Some? ==> forall k :: 0 <= k < r.value ==> !(nodes[k].repoId == repo && nodes[k].path == path)
    ensures r.None? ==> forall k :: 0 <= k < |nodes| ==> !(nodes[k].repoId == repo && nodes[k].path == path)
  {
    if nodes == [] then None
    else if nodes[0].repoId == repo && nodes[0].path == path then Some(0)
    else
      match FindNode(nodes[1..], repo, path)
      case None => None
      case Some(k) => Some(k + 1)
  }

  /** The nodes of one repository, in table order. */
  function NodesOf(nodes: seq<Node>, repo: nat): (r: seq<Node>)
    ensures |r| <= |nodes|
    ensures forall n :: n in r <==> n in nodes && n.repoId == repo
  {
    if nodes == [] then []
    else (if nodes[0].repoId == repo then [nodes[0]] else []) + NodesOf(nodes[1..], repo)
  }
}
