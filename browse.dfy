/**
 * The cache browser: a folder of the cached repository is shown as its
 * entries (hidden files and summary sidecars left out), each marked with
 * whether a summary exists for it, headed by a `..` entry below the root,
 * together with the folder's own summary.  Paths asked for are joined onto
 * the cache directory by a guard that refuses `..`, absolute parts and
 * anything that resolves outside the cache.
 *
 * `Path.resolve()` is modelled lexically (no symbolic links): a relative
 * path is taken from the working directory `cwd`, and each `..` drops the
 * part before it.
 */
module Browse {
  import opened Wrappers
  import opened Strings
  import opened Paths
  import opened StableSort
  import opened SummaryFiles
  import opened GitService

  datatype HttpError = HttpError(status: nat, detail: string)

  const InvalidPath := HttpError(400, "Invalid path")
  const OutsideCache := HttpError(403, "Access denied: path outside cache directory")
  const PathNotFound := HttpError(404, "Path not found")

  /* ---------- secure_path_join ---------- */

  /** Walks `ps` onto `acc`, a `..` dropping the last part (and nothing at the top). */
  function Collapse(acc: seq<string>, ps: seq<string>): (r: seq<string>)
    ensures ".." !in acc && ".." !in ps ==> r == acc + ps
    decreases |ps|
  {
    if ps == [] then acc
    else if ps[0] == ".." then Collapse(if acc == [] then [] else acc[..|acc| - 1], ps[1..])
    else
      assert acc + ps == (acc + [ps[0]]) + ps[1..];
      Collapse(acc + [ps[0]], ps[1..])
  }

  lemma {:induction false} CollapseKeepsDotDotOut(acc: seq<string>, ps: seq<string>)
    requires ".." !in acc
    ensures ".." !in Collapse(acc, ps)
    decreases |ps|
  {
    if ps != [] {
      if ps[0] == ".." {
        assert acc != [] ==> forall k :: 0 <= k < |acc| - 1 ==> acc[..|acc| - 1][k] == acc[k];
        CollapseKeepsDotDotOut(if acc == [] then [] else acc[..|acc| - 1], ps[1..]);
      } else {
        CollapseKeepsDotDotOut(acc + [ps[0]], ps[1..]);
      }
    }
  }

  /** `p.resolve()`, without symbolic links. */
  function Resolve(cwd: FsPath, p: FsPath): (r: FsPath)
    ensures r.absolute && ".." !in r.parts
  {
    CollapseKeepsDotDotOut([], (if p.absolute then [] else cwd.parts) + p.parts);
    FsPath(true, Collapse([], (if p.absolute then [] else cwd.parts) + p.parts))
  }

  /** Whether `t.relative_to(b)` succeeds. */
  predicate Under(t: FsPath, b: FsPath) {
    t.absolute == b.absolute && |b.parts| <= |t.parts| && t.parts[..|b.parts|] == b.parts
  }

  /** `t.relative_to(b)` */
  function RelativeTo(t: FsPath, b: FsPath): (r: Option<FsPath>)
    ensures r.Some? <==> Under(t, b)
    ensures r.Some? ==> !r.value.absolute && b.parts + r.value.parts == t.parts
  {
    if Under(t, b) then Some(FsPath(false, t.parts[|b.parts|..])) else None
  }

  /** A part `secure_path_join` refuses outright. */
  predicate BadPart(part: string) {
    part == ".." || StartsWith(part, "/")
  }

  /** `p / parts[0] / parts[1] / ...` */
  function JoinAll(p: FsPath, parts: seq<string>): FsPath {
    if parts == [] then p else Join(JoinAll(p, parts[..|parts| - 1]), parts[|parts| - 1])
  }

  /** What `secure_path_join(base, *parts)` answers. */
  function SecureJoin(cwd: FsPath, base: FsPath, parts: seq<string>): Result<FsPath, HttpError> {
    if exists k :: 0 <= k < |parts| && BadPart(parts[k]) then Err(InvalidPath)
    else
      var b := Resolve(cwd, base);
      var t := Resolve(cwd, JoinAll(b, parts));
      if Under(t, b) then Ok(t) else Err(OutsideCache)
  }

  /** `secure_path_join`: resolve the base, join part by part, resolve, check containment. */
  method SecurePathJoin(cwd: FsPath, base: FsPath, parts: seq<string>) returns (r: Result<FsPath, HttpError>)
    ensures r == SecureJoin(cwd, base, parts)
    ensures r == Err(InvalidPath) <==> exists k :: 0 <= k < |parts| && BadPart(parts[k])
    ensures r.Ok? ==> Under(r.value, Resolve(cwd, base)) && ".." !in r.value.parts
  {
    var b := Resolve(cwd, base);
    var target := b;
    var i := 0;
    while i < |parts|
      invariant 0 <= i <= |parts|
      invariant forall k :: 0 <= k < i ==> !BadPart(parts[k])
      invariant target == JoinAll(b, parts[..i])
    {
      if BadPart(parts[i]) {
        return Err(InvalidPath);
      }
      assert parts[..i + 1][..i] == parts[..i];
      target := Join(target, parts[i]);
      i := i + 1;
    }
    assert parts[..|parts|] == parts;
    target := Resolve(cwd, target);
    if !Under(target, b) {
      return Err(OutsideCache);
    }
    return Ok(target);
  }

  /** Joining plain parts onto an absolute path appends them. */
  lemma {:induction false} JoinAllPlain(b: FsPath, parts: seq<string>)
    requires b.absolute
    requires forall k :: 0 <= k < |parts| ==> IsPart(parts[k])
    ensures JoinAll(b, parts) == FsPath(true, b.parts + parts)
    decreases |parts|
  {
    if parts != [] {
      var front := parts[..|parts| - 1];
      JoinAllPlain(b, front);
      JoinPart(JoinAll(b, front), parts[|parts| - 1]);
      assert b.parts + front + [parts[|parts| - 1]] == b.parts + parts;
    }
  }

  /** The parts a request path gives (no `/`, never empty) cannot leave the cache: no 403. */
  lemma PlainPartsStayInside(cwd: FsPath, base: FsPath, parts: seq<string>)
    requires forall k :: 0 <= k < |parts| ==> IsPart(parts[k]) && parts[k] != ".."
    ensures SecureJoin(cwd, base, parts) == Ok(FsPath(true, Resolve(cwd, base).parts + parts))
  {
    var b := Resolve(cwd, base);
    var t := FsPath(true, b.parts + parts);
    NoBadPart(parts);
    JoinAllPlain(b, parts);
    assert ".." !in parts;
    ResolveIdle(cwd, t);
    assert (b.parts + parts)[..|b.parts|] == b.parts;
  }

  lemma NoBadPart(parts: seq<string>)
    requires forall k :: 0 <= k < |parts| ==> IsPart(parts[k]) && parts[k] != ".."
    ensures !exists k :: 0 <= k < |parts| && BadPart(parts[k])
  {
    forall k | 0 <= k < |parts| ensures !BadPart(parts[k]) {
      assert parts[k][0] != '/';
      assert |parts[k]| >= 1 && parts[k][..1][0] == parts[k][0];
    }
  }

  /** An absolute path without `..` resolves to itself. */
  lemma ResolveIdle(cwd: FsPath, t: FsPath)
    requires t.absolute && ".." !in t.parts
    ensures Resolve(cwd, t) == t
  {
    assert [] + t.parts == t.parts;
  }

  /** Walking two lists of parts in a row is walking their concatenation. */
  lemma {:induction false} CollapseAppend(acc: seq<string>, xs: seq<string>, ys: seq<string>)
    ensures Collapse(acc, xs + ys) == Collapse(Collapse(acc, xs), ys)
    decreases |xs|
  {
    if xs == [] {
      assert xs + ys == ys;
    } else {
      assert (xs + ys)[0] == xs[0] && (xs + ys)[1..] == xs[1..] + ys;
      var next := if xs[0] == ".." then (if acc == [] then [] else acc[..|acc| - 1]) else acc + [xs[0]];
      CollapseAppend(next, xs[1..], ys);
    }
  }

  /**
   * A part that climbs out through an inner `..` passes the first test and
   * is refused with 403: `../x` below `/…/base` resolves to the sibling `x`.
   */
  lemma InnerTraversalRefused(cwd: FsPath, b: FsPath, name: string)
    requires b.absolute && ".." !in b.parts && b.parts != []
    requires IsPart(name) && name != ".." && name != b.parts[|b.parts| - 1]
    ensures SecureJoin(cwd, b, ["../" + name]) == Err(OutsideCache)
  {
    var part := "../" + name;
    var n := |b.parts|;
    assert part[..1] == ".";
    assert !BadPart(part);
    ResolveIdle(cwd, b);
    TraversalJoins(b, name);
    var walked := b.parts[..n - 1] + [name];
    assert Resolve(cwd, JoinAll(b, [part])) == FsPath(true, walked) by {
      ClimbCollapses(b.parts, name);
      assert [] + (b.parts + ["..", name]) == b.parts + ["..", name];
    }
    assert walked[n - 1] != b.parts[n - 1];
  }

  /** `b / "../x"` appends the two parts `..` and `x`. */
  lemma TraversalJoins(b: FsPath, name: string)
    requires b.absolute && IsPart(name) && name != ".."
    ensures JoinAll(b, ["../" + name]) == FsPath(true, b.parts + ["..", name])
  {
    var part := "../" + name;
    assert PathParts(part) == ["..", name] by {
      assert part == ".." + "/" + name;
      SplitAfterPiece("..", name);
      SplitWithoutSep(name, '/');
      assert Split(part, '/') == ["..", name];
      assert ["..", name][1..] == [name] && [name][1..] == [];
      assert DropEmptyAndDot([name]) == [name];
    }
    var none: seq<string> := [];
    assert [part][..0] == none;
    assert part[..1][0] == '.';
    assert !StartsWith(part, "/");
  }

  /** Walking `b`, then `..`, then `x` ends at the sibling `x` of `b`'s last part. */
  lemma ClimbCollapses(bs: seq<string>, name: string)
    requires ".." !in bs && bs != [] && name != ".."
    ensures Collapse([], bs + ["..", name]) == bs[..|bs| - 1] + [name]
  {
    CollapseAppend([], bs, ["..", name]);
    assert Collapse([], bs) == bs;
    assert ["..", name][1..] == [name];
    assert Collapse(bs, ["..", name]) == Collapse(bs[..|bs| - 1], [name]);
    assert ".." !in bs[..|bs| - 1];
  }

  /* ---------- the directory listing ---------- */

  /** A row of the listing: `name`, `type`, `path`, `has_summary`. */
  datatype Item = Item(name: string, kind: ItemKind, path: string, hasSummary: bool)

  /** What the listing needs to know about the request and the disk. */
  datatype Scope = Scope(
    cwd: FsPath,
    cachePath: FsPath,
    path: string,
    target: FsPath,
    files: map<FsPath, string>)

  /** `cache_path.name`, the name the root summary is stored under. */
  function RepoName(sc: Scope): string {
    Name(sc.cachePath)
  }

  /** `sorted(target_path.iterdir())`: entries of one folder compare by name. */
  predicate NameLe(a: DirEntry, b: DirEntry) {
    LexLe(a.name, b.name)
  }

  lemma NameLeTotalPreorder()
    ensures TotalPreorder(NameLe)
  {
    forall a: DirEntry, b: DirEntry ensures NameLe(a, b) || NameLe(b, a) {
      LexLeTotal(a.name, b.name);
    }
    forall a: DirEntry, b: DirEntry, c: DirEntry | NameLe(a, b) && NameLe(b, c) ensures NameLe(a, c) {
      LexLeTransitive(a.name, b.name, c.name);
    }
  }

  /** `x.md` is a file summary when a file `x` lies beside it that is not itself `*.md.md`. */
  predicate IsFileSummary(all: seq<DirEntry>, e: DirEntry)
    requires EndsWith(e.name, ".md")
  {
    exists o :: o in all && o != e && o.kind == RegularFile
      && o.name == e.name[..|e.name| - 3] && !EndsWith(o.name, ".md.md")
  }

  /** `x.md` is a folder summary when a folder `x` lies beside it. */
  predicate IsFolderSummary(all: seq<DirEntry>, e: DirEntry)
    requires EndsWith(e.name, ".md")
  {
    exists o :: o in all && o != e && o.kind == Dir && o.name == e.name[..|e.name| - 3]
  }

  /** The entries the listing skips: dot entries, the root summary and sidecar summaries. */
  predicate Hidden(all: seq<DirEntry>, e: DirEntry, repoName: string) {
    || StartsWith(e.name, ".")
    || (e.kind == RegularFile && EndsWith(e.name, ".md")
        && (e.name == repoName + ".md" || IsFileSummary(all, e) || IsFolderSummary(all, e)))
  }

  /** `"folder" if item.is_dir() else "file"` */
  function KindOf(e: DirEntry): ItemKind {
    if e.kind == Dir then Folder else File
  }

  /** `str(p)` for a relative path. */
  function RelString(p: FsPath): string {
    if p.parts == [] then "." else JoinWith(p.parts, "/")
  }

  /** The row built when the item's path relative to the cache cannot be computed. */
  function FallbackItem(sc: Scope, e: DirEntry): Item {
    Item(e.name, KindOf(e), if sc.path != "" then sc.path + "/" + e.name else e.name, false)
  }

  /** The row built from the item's path relative to the cache. */
  function ItemAt(sc: Scope, e: DirEntry, rel: FsPath): Item {
    var s := RelString(rel);
    Item(e.name, KindOf(e), s, SummaryPath(sc.cachePath, s, KindOf(e), RepoName(sc)) in sc.files)
  }

  /**
   * The row as the code builds it: `item.relative_to(cache_path)` compares the
   * resolved item with the cache path as written, which fails whenever the
   * cache directory is relative and the folder is not the root.
   */
  function ItemAsWritten(sc: Scope, e: DirEntry): Item {
    match RelativeTo(Join(sc.target, e.name), sc.cachePath)
    case Some(rel) => ItemAt(sc, e, rel)
    case None => FallbackItem(sc, e)
  }

  /** The row with both sides resolved before `relative_to`, as evidently intended. */
  function ItemOf(sc: Scope, e: DirEntry): Item {
    match RelativeTo(Resolve(sc.cwd, Join(sc.target, e.name)), Resolve(sc.cwd, sc.cachePath))
    case Some(rel) => ItemAt(sc, e, rel)
    case None => FallbackItem(sc, e)
  }

  /** The entries of `sorted` that are not hidden, in order. */
  function Visible(all: seq<DirEntry>, sorted: seq<DirEntry>, repoName: string): (r: seq<DirEntry>)
    ensures |r| <= |sorted|
    ensures forall e :: e in r <==> e in sorted && !Hidden(all, e, repoName)
  {
    if sorted == [] then []
    else
      var front := sorted[..|sorted| - 1];
      var e := sorted[|sorted| - 1];
      assert sorted == front + [e];
      Visible(all, front, repoName) + (if Hidden(all, e, repoName) then [] else [e])
  }

  /** The rows of the listing: one per visible entry, in order. */
  function Listed(sc: Scope, all: seq<DirEntry>, sorted: seq<DirEntry>): (r: seq<Item>)
    ensures |r| <= |sorted|
  {
    if sorted == [] then []
    else
      var e := sorted[|sorted| - 1];
      Listed(sc, all, sorted[..|sorted| - 1]) + (if Hidden(all, e, RepoName(sc)) then [] else [ItemOf(sc, e)])
  }

  /** The listing loop of `browse_repository` over the sorted entries. */
  method ListFolder(sc: Scope, entries: seq<DirEntry>) returns (items: seq<Item>)
    ensures items == Listed(sc, entries, Sort(entries, NameLe))
  {
    var sorted := Sort(entries, NameLe);
    items := [];
    var i := 0;
    while i < |sorted|
      invariant 0 <= i <= |sorted|
      invariant items == Listed(sc, entries, sorted[..i])
    {
      ListedStep(sc, entries, sorted, i);
      if !Hidden(entries, sorted[i], RepoName(sc)) {
        items := items + [ItemOf(sc, sorted[i])];
      }
      i := i + 1;
    }
    assert sorted[..|sorted|] == sorted;
  }

  /** One more entry of the listing adds its row at the end, unless it is hidden. */
  lemma ListedStep(sc: Scope, all: seq<DirEntry>, sorted: seq<DirEntry>, i: nat)
    requires i < |sorted|
    ensures Listed(sc, all, sorted[..i + 1])
            == Listed(sc, all, sorted[..i]) + (if Hidden(all, sorted[i], RepoName(sc)) then [] else [ItemOf(sc, sorted[i])])
  {
    assert sorted[..i + 1][..i] == sorted[..i];
  }

  /** The `i`-th row is the row of the `i`-th visible entry. */
  lemma {:induction false} ListedIndexed(sc: Scope, all: seq<DirEntry>, sorted: seq<DirEntry>)
    ensures var r := Listed(sc, all, sorted);
      var v := Visible(all, sorted, RepoName(sc));
      |r| == |v| && forall i :: 0 <= i < |r| ==> r[i] == ItemOf(sc, v[i])
    decreases |sorted|
  {
    if sorted != [] {
      ListedIndexed(sc, all, sorted[..|sorted| - 1]);
    }
  }

  /** A row is listed exactly when it comes from an entry that is not hidden. */
  lemma ListedMembers(sc: Scope, all: seq<DirEntry>, sorted: seq<DirEntry>, it: Item)
    ensures it in Listed(sc, all, sorted) <==>
              exists e :: e in sorted && !Hidden(all, e, RepoName(sc)) && it == ItemOf(sc, e)
  {
    var v := Visible(all, sorted, RepoName(sc));
    var r := Listed(sc, all, sorted);
    ListedIndexed(sc, all, sorted);
    if it in r {
      var i :| 0 <= i < |r| && r[i] == it;
      var e := v[i];
      assert e in v && it == ItemOf(sc, e);
      assert e in sorted && !Hidden(all, e, RepoName(sc));
    } else {
      forall e | e in sorted && !Hidden(all, e, RepoName(sc)) ensures it != ItemOf(sc, e) {
        assert e in v;
        var i :| 0 <= i < |v| && v[i] == e;
        assert r[i] == ItemOf(sc, e);
      }
    }
  }

  /** The visible entries of an ordered sequence are ordered. */
  lemma {:induction false} VisibleSorted(all: seq<DirEntry>, sorted: seq<DirEntry>, repoName: string)
    requires Sorted(sorted, NameLe)
    ensures Sorted(Visible(all, sorted, repoName), NameLe)
    decreases |sorted|
  {
    if sorted != [] {
      var front := sorted[..|sorted| - 1];
      var e := sorted[|sorted| - 1];
      SortedPrefix(sorted, |sorted| - 1, NameLe);
      VisibleSorted(all, front, repoName);
      var f := Visible(all, front, repoName);
      if !Hidden(all, e, repoName) {
        var r := f + [e];
        forall i, j | 0 <= i < j < |r| ensures NameLe(r[i], r[j]) {
          if j == |f| {
            assert r[i] in front;
            var k :| 0 <= k < |front| && front[k] == r[i];
            assert NameLe(sorted[k], sorted[|sorted| - 1]);
          }
        }
      }
    }
  }

  /** The rows come in name order. */
  lemma ListedInNameOrder(sc: Scope, all: seq<DirEntry>, entries: seq<DirEntry>)
    ensures var r := Listed(sc, all, Sort(entries, NameLe));
      forall i, j :: 0 <= i < j < |r| ==> LexLe(r[i].name, r[j].name)
  {
    NameLeTotalPreorder();
    SortSorted(entries, NameLe);
    VisibleSorted(all, Sort(entries, NameLe), RepoName(sc));
    ListedIndexed(sc, all, Sort(entries, NameLe));
  }

  /** No dot entry is ever listed. */
  lemma DotEntriesNeverListed(sc: Scope, all: seq<DirEntry>, sorted: seq<DirEntry>, it: Item)
    requires it in Listed(sc, all, sorted)
    ensures !StartsWith(it.name, ".")
  {
    ListedMembers(sc, all, sorted, it);
  }

  /** A listed row named `<repo_name>.md` never comes from a regular file. */
  lemma RootSummaryNeverListed(sc: Scope, all: seq<DirEntry>, sorted: seq<DirEntry>, it: Item)
    requires it in Listed(sc, all, sorted) && it.name == RepoName(sc) + ".md"
    ensures exists e :: e in sorted && e.name == it.name && e.kind != RegularFile
  {
    ListedMembers(sc, all, sorted, it);
    var x :| x in sorted && !Hidden(all, x, RepoName(sc)) && it == ItemOf(sc, x);
    assert x.name == it.name;
    assert EndsWith(x.name, ".md") by {
      assert x.name[|x.name| - 3..] == ".md";
    }
  }

  /** The sidecar `x.md` of a listed file `x` is hidden, and so is the sidecar of a folder. */
  lemma SidecarsHidden(all: seq<DirEntry>, x: DirEntry, repoName: string)
    requires x in all && x.kind != Other && !EndsWith(x.name, ".md.md")
    requires DirEntry(x.name + ".md", RegularFile) in all
    ensures Hidden(all, DirEntry(x.name + ".md", RegularFile), repoName)
  {
    var s := DirEntry(x.name + ".md", RegularFile);
    assert s.name[|s.name| - 3..] == ".md";
    assert s.name[..|s.name| - 3] == x.name;
    assert x != s by {
      if x.kind == RegularFile {
        assert |x.name| != |s.name|;
      }
    }
  }

  /** A Markdown file with no same-named sibling, other than the root summary, is listed. */
  lemma PlainMarkdownShown(all: seq<DirEntry>, e: DirEntry, repoName: string)
    requires e.kind == RegularFile && EndsWith(e.name, ".md") && !StartsWith(e.name, ".")
    requires e.name != repoName + ".md"
    requires forall o :: o in all ==> o.name != e.name[..|e.name| - 3]
    ensures !Hidden(all, e, repoName)
  {
  }

  /** Worked example of `PlainMarkdownShown`: beside `main.py`, a `README.md` is listed. */
  lemma ReadmeListed(repoName: string)
    requires repoName != "README"
    ensures !Hidden([DirEntry("README.md", RegularFile), DirEntry("main.py", RegularFile)],
                    DirEntry("README.md", RegularFile), repoName)
  {
    var e := DirEntry("README.md", RegularFile);
    assert e.name[..|e.name| - 3] == "README";
    assert e.name[..1] == "R";
    assert e.name[|e.name| - 3..] == ".md";
    assert e.name != repoName + ".md";
    PlainMarkdownShown([DirEntry("README.md", RegularFile), DirEntry("main.py", RegularFile)], e, repoName);
  }

  /** `Collapse` distributes over a final plain part. */
  lemma {:induction false} CollapseSnoc(acc: seq<string>, ps: seq<string>, n: string)
    requires n != ".."
    ensures Collapse(acc, ps + [n]) == Collapse(acc, ps) + [n]
    decreases |ps|
  {
    if ps == [] {
      assert [n][1..] == [];
    } else {
      assert (ps + [n])[1..] == ps[1..] + [n];
      if ps[0] == ".." {
        CollapseSnoc(if acc == [] then [] else acc[..|acc| - 1], ps[1..], n);
      } else {
        CollapseSnoc(acc + [ps[0]], ps[1..], n);
      }
    }
  }

  /**
   * When the folder shown is the cache itself or a plain sub-path of its
   * resolved form, the row of an entry carries the path of the entry below
   * the cache and says whether the summary file for that path exists.
   */
  lemma ItemOfHasSummary(sc: Scope, parts: seq<string>, e: DirEntry)
    requires forall k :: 0 <= k < |parts| ==> IsPart(parts[k]) && parts[k] != ".."
    requires sc.target == if parts == [] then sc.cachePath else FsPath(true, Resolve(sc.cwd, sc.cachePath).parts + parts)
    requires IsPart(e.name) && e.name != ".."
    ensures var p := JoinWith(parts + [e.name], "/");
      ItemOf(sc, e) == Item(e.name, KindOf(e), p, SummaryPath(sc.cachePath, p, KindOf(e), RepoName(sc)) in sc.files)
  {
    var rel := FsPath(false, parts + [e.name]);
    RelativeItem(sc, parts, e);
    ItemOfAt(sc, e, rel);
    assert RelString(rel) == JoinWith(parts + [e.name], "/");
  }

  /** The entry's path relative to the resolved cache is the plain parts and its name. */
  lemma RelativeItem(sc: Scope, parts: seq<string>, e: DirEntry)
    requires forall k :: 0 <= k < |parts| ==> IsPart(parts[k]) && parts[k] != ".."
    requires sc.target == if parts == [] then sc.cachePath else FsPath(true, Resolve(sc.cwd, sc.cachePath).parts + parts)
    requires IsPart(e.name) && e.name != ".."
    ensures RelativeTo(Resolve(sc.cwd, Join(sc.target, e.name)), Resolve(sc.cwd, sc.cachePath))
            == Some(FsPath(false, parts + [e.name]))
  {
    ResolvedItem(sc, parts, e);
    RelativeOfAppend(Resolve(sc.cwd, Join(sc.target, e.name)), Resolve(sc.cwd, sc.cachePath), parts + [e.name]);
  }

  /** A path that is `b` followed by more parts is below `b`, by exactly those parts. */
  lemma RelativeOfAppend(t: FsPath, b: FsPath, ps: seq<string>)
    requires t.absolute == b.absolute && t.parts == b.parts + ps
    ensures RelativeTo(t, b) == Some(FsPath(false, ps))
  {
    assert t.parts[..|b.parts|] == b.parts;
    assert t.parts[|b.parts|..] == ps;
  }

  /** Once the relative path is known, the row is built from it. */
  lemma ItemOfAt(sc: Scope, e: DirEntry, rel: FsPath)
    requires RelativeTo(Resolve(sc.cwd, Join(sc.target, e.name)), Resolve(sc.cwd, sc.cachePath)) == Some(rel)
    ensures ItemOf(sc, e) == ItemAt(sc, e, rel)
  {
  }

  /** The resolved entry is the resolved cache, the plain parts, then the entry's name. */
  lemma ResolvedItem(sc: Scope, parts: seq<string>, e: DirEntry)
    requires forall k :: 0 <= k < |parts| ==> IsPart(parts[k]) && parts[k] != ".."
    requires sc.target == if parts == [] then sc.cachePath else FsPath(true, Resolve(sc.cwd, sc.cachePath).parts + parts)
    requires IsPart(e.name) && e.name != ".."
    ensures Resolve(sc.cwd, Join(sc.target, e.name)).parts == Resolve(sc.cwd, sc.cachePath).parts + parts + [e.name]
  {
    var r := Resolve(sc.cwd, sc.cachePath);
    var item := Join(sc.target, e.name);
    JoinPart(sc.target, e.name);
    if parts == [] {
      var pre := (if sc.cachePath.absolute then [] else sc.cwd.parts) + sc.cachePath.parts;
      assert (if item.absolute then [] else sc.cwd.parts) + item.parts == pre + [e.name];
      CollapseSnoc([], pre, e.name);
      assert r.parts + parts + [e.name] == r.parts + [e.name];
    } else {
      assert ".." !in parts;
      assert ".." !in r.parts + parts + [e.name];
      assert [] + item.parts == r.parts + parts + [e.name];
    }
  }

  /**
   * As written: with a relative cache directory, every row of a folder below
   * the root loses its summary flag and falls back to the request path.
   */
  lemma RelativeCacheDropsSummaries(sc: Scope, e: DirEntry)
    requires !sc.cachePath.absolute && sc.target.absolute
    ensures ItemAsWritten(sc, e) == FallbackItem(sc, e)
    ensures !ItemAsWritten(sc, e).hasSummary
  {
  }

  /** At the root the code as written already gives the intended rows. */
  lemma AsWrittenAtRoot(sc: Scope, e: DirEntry)
    requires sc.target == sc.cachePath && IsPart(e.name) && e.name != ".."
    ensures ItemAsWritten(sc, e) == ItemOf(sc, e)
  {
    ItemOfHasSummary(sc, [], e);
    JoinPart(sc.target, e.name);
    var rel := RelativeTo(Join(sc.target, e.name), sc.cachePath);
    assert (sc.cachePath.parts + [e.name])[..|sc.cachePath.parts|] == sc.cachePath.parts;
    assert rel.Some? && rel.value.parts == [e.name];
    assert [] + [e.name] == [e.name];
  }

  /**
   * With a relative cache directory, any file or folder below the root whose
   * summary exists is reported without one by the code as written, and with
   * one once both paths are resolved.
   */
  lemma SummaryLostBelowRoot(sc: Scope, parts: seq<string>, e: DirEntry)
    requires !sc.cachePath.absolute && parts != []
    requires forall k :: 0 <= k < |parts| ==> IsPart(parts[k]) && parts[k] != ".."
    requires sc.target == FsPath(true, Resolve(sc.cwd, sc.cachePath).parts + parts)
    requires IsPart(e.name) && e.name != ".."
    requires SummaryPath(sc.cachePath, JoinWith(parts + [e.name], "/"), KindOf(e), RepoName(sc)) in sc.files
    ensures !ItemAsWritten(sc, e).hasSummary
    ensures ItemOf(sc, e).hasSummary
  {
    RelativeCacheDropsSummaries(sc, e);
    ItemOfHasSummary(sc, parts, e);
  }

  /* ---------- the folder view ---------- */

  /** `[p for p in path.split("/") if p]` */
  function RequestParts(path: string): (r: seq<string>)
    ensures forall k :: 0 <= k < |r| ==> r[k] != "" && '/' !in r[k]
  {
    var r := NonEmpty(Split(path, '/'));
    NonEmptySubset(Split(path, '/'));
    r
  }

  /** The `..` entry's path: the request path without its last segment. */
  function ParentPath(path: string): string {
    var ps := RequestParts(path);
    if ps == [] then "" else JoinWith(ps[..|ps| - 1], "/")
  }

  /** `folder_summary or root_summary`: the folder's summary below the root, the root summary at it. */
  function ShownSummary(cachePath: FsPath, path: string, files: map<FsPath, string>): Option<string> {
    if path != "" then
      var key := SummaryPath(cachePath, path, Folder, Name(cachePath));
      if key in files && files[key] != "" then Some(files[key]) else None
    else
      var key := SummaryPath(cachePath, "", Folder, Name(cachePath));
      if key in files then Some(files[key]) else None
  }

  datatype FolderView = FolderView(path: string, items: seq<Item>, summary: Option<string>)

  /** The page of a folder: `..` first below the root, then the listing, and the summary. */
  function FolderViewOf(sc: Scope, entries: seq<DirEntry>): FolderView {
    var listed := Listed(sc, entries, Sort(entries, NameLe));
    var items := if sc.path != "" then [Item("..", Folder, ParentPath(sc.path), false)] + listed else listed;
    FolderView(if sc.path != "" then sc.path else "/", items, ShownSummary(sc.cachePath, sc.path, sc.files))
  }

  /** What the browser answers for a folder; a file target is outside this model. */
  datatype View = FolderPage(folder: FolderView) | FilePage(target: FsPath)

  /** The folder the request path names, or the guard's refusal. */
  function TargetOf(cwd: FsPath, cachePath: FsPath, path: string): Result<FsPath, HttpError> {
    var parts := if path != "" then RequestParts(path) else [];
    if parts == [] then Ok(cachePath) else SecureJoin(cwd, cachePath, parts)
  }

  /**
   * `browse_repository` once the repository and its cache are found: `dirs`
   * holds the entries of every folder and `others` every other existing path,
   * both by resolved path.
   */
  function BrowsePath(cwd: FsPath, cachePath: FsPath, path: string, dirs: map<FsPath, seq<DirEntry>>,
                      others: set<FsPath>, files: map<FsPath, string>): (r: Result<View, HttpError>)
    ensures TargetOf(cwd, cachePath, path).Err? ==> r == Err(TargetOf(cwd, cachePath, path).error)
    ensures TargetOf(cwd, cachePath, path).Ok? && Resolve(cwd, TargetOf(cwd, cachePath, path).value) in dirs ==>
              var t := TargetOf(cwd, cachePath, path).value;
              r == Ok(FolderPage(FolderViewOf(Scope(cwd, cachePath, path, t, files), dirs[Resolve(cwd, t)])))
  {
    var target := TargetOf(cwd, cachePath, path);
    if target.Err? then Err(target.error)
    else
      var t := target.value;
      var key := Resolve(cwd, t);
      if key in dirs then Ok(FolderPage(FolderViewOf(Scope(cwd, cachePath, path, t, files), dirs[key])))
      else if key in others then Ok(FilePage(t))
      else Err(PathNotFound)
  }

  /** Splitting a join of plain segments on `/` gives the segments back. */
  lemma {:induction false} SplitJoin(ps: seq<string>)
    requires ps != [] && forall k :: 0 <= k < |ps| ==> '/' !in ps[k]
    ensures Split(JoinWith(ps, "/"), '/') == ps
    decreases |ps|
  {
    if |ps| == 1 {
      SplitWithoutSep(ps[0], '/');
    } else {
      SplitJoin(ps[1..]);
      SplitAfterPiece(ps[0], JoinWith(ps[1..], "/"));
      assert JoinWith(ps, "/") == ps[0] + "/" + JoinWith(ps[1..], "/");
      assert ps == [ps[0]] + ps[1..];
    }
  }

  /** A piece without `/`, then `/`, splits into the piece and what follows. */
  lemma {:induction false} SplitAfterPiece(a: string, rest: string)
    requires '/' !in a
    ensures Split(a + "/" + rest, '/') == [a] + Split(rest, '/')
    decreases |a|
  {
    if a == [] {
      assert a + "/" + rest == "/" + rest;
      assert ("/" + rest)[1..] == rest;
    } else {
      SplitAfterPiece(a[1..], rest);
      assert (a + "/" + rest)[1..] == a[1..] + "/" + rest;
      assert [a[0]] + a[1..] == a;
    }
  }

  /** Non-empty segments pass `[p for p in ... if p]` unchanged. */
  lemma {:induction false} NonEmptyKeeps(ps: seq<string>)
    requires forall k :: 0 <= k < |ps| ==> ps[k] != ""
    ensures NonEmpty(ps) == ps
    decreases |ps|
  {
    if ps != [] {
      NonEmptyKeeps(ps[1..]);
    }
  }

  /** The `..` entry of `a/b/c` leads to `a/b`, that of a single segment to the root. */
  lemma ParentDropsLastSegment(ps: seq<string>)
    requires ps != [] && forall k :: 0 <= k < |ps| ==> ps[k] != "" && '/' !in ps[k]
    ensures ParentPath(JoinWith(ps, "/")) == JoinWith(ps[..|ps| - 1], "/")
    ensures |ps| == 1 ==> ParentPath(JoinWith(ps, "/")) == ""
  {
    SplitJoin(ps);
    NonEmptyKeeps(ps);
  }

  /** Neither `.` nor `..` is ever a listed row. */
  lemma NoDotDotListed(sc: Scope, all: seq<DirEntry>, sorted: seq<DirEntry>, it: Item)
    requires it in Listed(sc, all, sorted)
    ensures it.name != ".." && it.name != "."
  {
    DotEntriesNeverListed(sc, all, sorted, it);
    assert ".."[..1] == "." && "."[..1] == ".";
  }

  /**
   * Below the root the page starts with the `..` entry and is otherwise the
   * listing in order; at the root it is the listing alone, without `..`.
   */
  lemma FolderPageShape(sc: Scope, entries: seq<DirEntry>)
    ensures var v := FolderViewOf(sc, entries);
      var listed := Listed(sc, entries, Sort(entries, NameLe));
      && v.summary == ShownSummary(sc.cachePath, sc.path, sc.files)
      && (sc.path != "" ==> v.path == sc.path && v.items == [Item("..", Folder, ParentPath(sc.path), false)] + listed)
      && (sc.path == "" ==> v.path == "/" && v.items == listed && forall it :: it in v.items ==> it.name != "..")
  {
    var listed := Listed(sc, entries, Sort(entries, NameLe));
    forall it | it in listed ensures it.name != ".." {
      NoDotDotListed(sc, entries, Sort(entries, NameLe), it);
    }
  }

  /** Below the root the summary shown is the folder's own, when it is not empty. */
  lemma SummarySelection(cachePath: FsPath, path: string, files: map<FsPath, string>)
    ensures var key := SummaryPath(cachePath, path, Folder, Name(cachePath));
      && (path == "" ==> ShownSummary(cachePath, path, files) == (if key in files then Some(files[key]) else None))
      && (path != "" ==> (ShownSummary(cachePath, path, files).Some? <==> key in files && files[key] != ""))
      && (ShownSummary(cachePath, path, files).Some? ==> ShownSummary(cachePath, path, files).value == files[key])
  {
  }

  /** Any request path with a `..` segment is refused with 400 before the disk is looked at. */
  lemma DotDotRequestRefused(cwd: FsPath, cachePath: FsPath, path: string, dirs: map<FsPath, seq<DirEntry>>,
                             others: set<FsPath>, files: map<FsPath, string>)
    requires exists k :: 0 <= k < |RequestParts(path)| && RequestParts(path)[k] == ".."
    ensures BrowsePath(cwd, cachePath, path, dirs, others, files) == Err(InvalidPath)
  {
    var k :| 0 <= k < |RequestParts(path)| && RequestParts(path)[k] == "..";
    assert BadPart(RequestParts(path)[k]);
  }
}
