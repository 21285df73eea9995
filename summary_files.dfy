/**
 * The summary cache: one sidecar `.md` file per summarised item, stored
 * next to the item.  A file `a/b.py` is summarised in `a/b.py.md`, a folder
 * `a/b` in `a/b.md` inside its parent, and the repository root in
 * `<repo_name>.md` at the top (or `README.md` when no name is given).
 * The files on disk are the ground truth the node table mirrors.
 */
module SummaryFiles {
  import opened Wrappers
  import opened Strings
  import opened Paths

  /** The `item_type` argument: "file", or anything else, which is treated as a folder. */
  datatype ItemKind = File | Folder

  /** `x.parent / f"{x.name}.md"`: the sidecar beside `x`. */
  function Sidecar(x: FsPath): FsPath {
    Join(Parent(x), Name(x) + ".md")
  }

  /**
   * `get_summary_file_path(repo_path, item_path, item_type, repo_name)`;
   * `repoName == ""` stands for a missing (None or empty) repository name.
   */
  function SummaryPath(root: FsPath, item: string, kind: ItemKind, repoName: string): FsPath {
    if kind == File then Sidecar(Join(root, item))
    else if item == "" then
      (if repoName != "" then Join(root, repoName + ".md") else Join(root, "README.md"))
    else Sidecar(Join(root, item))
  }

  /** The sidecar of a path with at least one part replaces its last part `n` by `n.md`. */
  lemma SidecarShape(x: FsPath)
    requires WellFormed(x) && x.parts != []
    ensures Sidecar(x) == FsPath(x.absolute, x.parts[..|x.parts| - 1] + [x.parts[|x.parts| - 1] + ".md"])
  {
    var n := x.parts[|x.parts| - 1];
    MdPart(n);
    JoinPart(Parent(x), n + ".md");
  }

  /** A file below the root is summarised in the sibling `<name>.md`. */
  lemma {:induction false} FileKeyIsSibling(root: FsPath, item: string, repoName: string)
    requires WellFormed(root) && !StartsWith(item, "/") && PathParts(item) != []
    ensures var ps := PathParts(item);
      SummaryPath(root, item, File, repoName)
        == FsPath(root.absolute, root.parts + ps[..|ps| - 1] + [ps[|ps| - 1] + ".md"])
  {
    var x := Join(root, item);
    var ps := PathParts(item);
    assert x.parts == root.parts + ps;
    SidecarShape(x);
    assert x.parts[..|x.parts| - 1] == root.parts + ps[..|ps| - 1];
  }

  /** Below the root the key does not depend on whether the item is a file or a folder. */
  lemma KeyIgnoresKindBelowRoot(root: FsPath, item: string, repoName: string)
    requires item != ""
    ensures SummaryPath(root, item, File, repoName) == SummaryPath(root, item, Folder, repoName)
  {
  }

  /** Different paths with at least one part have different sidecars. */
  lemma SidecarInjective(x: FsPath, y: FsPath)
    requires WellFormed(x) && x.parts != [] && WellFormed(y) && y.parts != []
    ensures Sidecar(x) == Sidecar(y) ==> x == y
  {
    if Sidecar(x) == Sidecar(y) {
      SidecarShape(x);
      SidecarShape(y);
      var m, n := x.parts[|x.parts| - 1], y.parts[|y.parts| - 1];
      var ps := Sidecar(x).parts;
      assert |ps| == |x.parts| == |y.parts|;
      assert ps[|ps| - 1] == m + ".md" == n + ".md";
      assert ps[..|ps| - 1] == x.parts[..|x.parts| - 1] == y.parts[..|y.parts| - 1];
      assert m == (m + ".md")[..|m|] && n == (n + ".md")[..|n|];
      assert x.parts == x.parts[..|x.parts| - 1] + [m];
      assert y.parts == y.parts[..|y.parts| - 1] + [n];
    }
  }

  /** Two different items below the root never share a summary file. */
  lemma FileKeysDistinct(root: FsPath, a: string, b: string, repoName: string)
    requires WellFormed(root)
    requires !StartsWith(a, "/") && !StartsWith(b, "/")
    requires PathParts(a) != [] && PathParts(b) != [] && PathParts(a) != PathParts(b)
    ensures SummaryPath(root, a, File, repoName) != SummaryPath(root, b, File, repoName)
  {
    var x, y := Join(root, a), Join(root, b);
    assert x.parts[|root.parts|..] == PathParts(a);
    assert y.parts[|root.parts|..] == PathParts(b);
    SidecarInjective(x, y);
  }

  /** `n` + ".md" is still a single part. */
  lemma MdPart(n: string)
    requires IsPart(n)
    ensures IsPart(n + ".md")
  {
    assert (n + ".md")[|n|..] == ".md";
    assert forall k :: 0 <= k < |n + ".md"| ==> (n + ".md")[k] != '/';
  }

  /** An item directly below the root, file or folder, is summarised in `<n>.md` at the top. */
  lemma TopLevelKey(root: FsPath, n: string, kind: ItemKind, repoName: string)
    requires WellFormed(root) && IsPart(n)
    ensures SummaryPath(root, n, kind, repoName) == FsPath(root.absolute, root.parts + [n + ".md"])
  {
    JoinPart(root, n);
    SidecarShape(Join(root, n));
  }

  /** The root is summarised in `<repo_name>.md` at the top of the repository. */
  lemma RootKeyUsesRepoName(root: FsPath, repoName: string)
    requires IsPart(repoName)
    ensures SummaryPath(root, "", Folder, repoName) == FsPath(root.absolute, root.parts + [repoName + ".md"])
  {
    MdPart(repoName);
    JoinPart(root, repoName + ".md");
  }

  /**
   * Without a repository name the root summary lives where a real top-level
   * README.md lives, and where a top-level folder named README is summarised.
   */
  lemma RootKeyFallbackCollides(root: FsPath, repoName: string)
    requires WellFormed(root)
    ensures SummaryPath(root, "", Folder, "") == Join(root, "README.md")
    ensures SummaryPath(root, "", Folder, "") == SummaryPath(root, "README", Folder, repoName)
  {
    var n := "README";
    assert IsPart(n);
    assert n + ".md" == "README.md";
    TopLevelKey(root, n, Folder, repoName);
    MdPart(n);
    JoinPart(root, n + ".md");
  }

  /** The root summary shares its file with a top-level item named like the repository. */
  lemma RootKeyCollidesWithSameNamedItem(root: FsPath, repoName: string, kind: ItemKind)
    requires WellFormed(root) && IsPart(repoName)
    ensures SummaryPath(root, "", Folder, repoName) == SummaryPath(root, repoName, kind, repoName)
  {
    RootKeyUsesRepoName(root, repoName);
    TopLevelKey(root, repoName, kind, repoName);
  }

  /** The sidecar files, keyed by their full path. */
  class SummaryCache {
    var files: map<FsPath, string>

    constructor (initial: map<FsPath, string>)
      ensures files == initial
    {
      files := initial;
    }

    /** `summary_exists` */
    predicate Exists(root: FsPath, item: string, kind: ItemKind, repoName: string)
      reads this
    {
      SummaryPath(root, item, kind, repoName) in files
    }

    /** `read_summary`: the stored text, or None when no sidecar file exists. */
    function Read(root: FsPath, item: string, kind: ItemKind, repoName: string): (r: Option<string>)
      reads this
      ensures r.Some? <==> Exists(root, item, kind, repoName)
    {
      var key := SummaryPath(root, item, kind, repoName);
      if key in files then Some(files[key]) else None
    }

    /** `write_summary`: creates or overwrites the sidecar file, and nothing else. */
    method Write(root: FsPath, item: string, kind: ItemKind, text: string, repoName: string)
      modifies this
      ensures files == old(files)[SummaryPath(root, item, kind, repoName) := text]
      ensures Read(root, item, kind, repoName) == Some(text)
      ensures Exists(root, item, kind, repoName)
      ensures forall other: string, otherKind: ItemKind ::
                SummaryPath(root, other, otherKind, repoName) != SummaryPath(root, item, kind, repoName)
                ==> Read(root, other, otherKind, repoName) == old(Read(root, other, otherKind, repoName))
    {
      files := files[SummaryPath(root, item, kind, repoName) := text];
    }
  }
}
