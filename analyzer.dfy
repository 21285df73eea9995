/**
 * `start_analysis`, the bottom-up summariser.  After the repository row and
 * the task row are set up and the repository is cloned, every file of the
 * inventory is summarised, then every folder, deepest first, then the root.
 * At each step the summary cache is consulted first: a non-empty cached
 * text is reused and the summariser is not called; otherwise the
 * summariser is called, its text is written to the cache, and the node
 * table is upserted on (repository, path).  Progress runs from 0 through
 * the file phase's share of 80, then 90, then 100.  An error while
 * summarising one file skips that file; any other error fails the task.
 *
 * The pure functions below are the reference meaning of each phase over a
 * `Store`, the part of the world the phases change; the class `Analyzer`
 * runs the same phases step by step and is proved against them.
 *
 * The per-file block of the source (backend/services/analyzer.py:146-158)
 * is damaged: a query that looks up the existing node has lost its first
 * line, the embedding it stores is never computed, and the summariser call
 * sits outside the branch of a cache miss.  The model follows the stated
 * intent of lines 128-136, which is also the shape of the folder step: a
 * cache hit reuses the text and makes no call; a miss calls the summariser
 * and writes the cache; then the node is upserted.  Embeddings are not
 * modelled.
 */
module Analyzer {
  import opened Wrappers
  import opened Strings
  import opened Paths
  import opened Sequences
  import opened StableSort
  import opened SummaryFiles
  import opened Nodes
  import opened GitService
  import opened Passphrases

  /** `RepositoryStatus` and `TaskStatus`, which have the same four values. */
  datatype Status = Pending | Processing | Completed | Failed

  /** The texts the run puts in `status_message`, one constructor per text. */
  datatype Step =
    | GettingRepository            // "Getting repository..."
    | CloningRepository            // "Cloning repository..."
    | ProcessingFiles(total: nat)  // "Processing {total} files..."
    | ProcessingFile(path: string) // "Processing file: {path}"
    | ProcessingFolders(count: nat)// "Processing {count} folders..."
    | ProcessingFolder(shown: string) // "Processing folder: {path or 'root'}"
    | GeneratingSummary            // "Generating repository summary..."
    | AnalysisCompleted            // "Analysis completed!"

  datatype Repository = Repository(id: nat, url: string, status: Status)

  datatype Task = Task(
    id: nat,
    repoId: nat,
    status: Status,
    progress: nat,
    message: Step,
    error: Option<string>,
    resultId: Option<nat>)

  /** One entry of the inventory `get_file_tree` returns. */
  datatype Entry = Entry(path: string, kind: ItemKind)

  /**
   * The summariser: from the number of calls made before, the text to
   * summarise and the item type, a summary or the text of the exception it
   * raised.  Taking the call number lets it answer differently each time.
   */
  type Summariser = (nat, string, ItemKind) -> Result<string, string>

  /**
   * What one run sees besides the tables: the URL, the clone's directory
   * and name, the repository's id, the files of the clone (size and text)
   * and the directory listing of each folder.
   */
  datatype Env = Env(
    url: string,
    root: FsPath,
    repoName: string,
    repoId: nat,
    disk: map<string, FileInfo>,
    listings: map<string, seq<DirEntry>>)

  /** The state the phases change: the cache files, the node table, the id counter, the summariser's call count. */
  datatype Store = Store(files: map<FsPath, string>, nodes: seq<Node>, nextId: nat, calls: nat)

  /* ---------- small pieces ---------- */

  /** Python's truth test on an optional text: kept when present and non-empty. */
  function Truthy(o: Option<string>): (r: Option<string>)
    ensures r.Some? <==> o.Some? && o.value != ""
    ensures r.Some? ==> r == o
  {
    if o.Some? && o.value != "" then o else None
  }

  function Lookup(files: map<FsPath, string>, key: FsPath): (r: Option<string>)
    ensures r.Some? <==> key in files
    ensures r.Some? ==> r.value == files[key]
  {
    if key in files then Some(files[key]) else None
  }

  /** `read_summary(...)` as the run tests it: the cached text when there is a non-empty one. */
  function Cached(env: Env, files: map<FsPath, string>, item: string, kind: ItemKind): Option<string> {
    Truthy(Lookup(files, SummaryPath(env.root, item, kind, env.repoName)))
  }

  /** `read_file_content` on a file of the clone, as the run tests it (`if content:`). */
  function Content(env: Env, path: string): Option<string> {
    Truthy(ReadFileContent(if path in env.disk then Some(env.disk[path]) else None, None))
  }

  /** `get_folder_structure(repo_path, folder)`. */
  function Structure(env: Env, folder: string): string {
    FolderStructure(if folder in env.listings then Some(env.listings[folder]) else None)
  }

  /**
   * The node upsert: the first row of the repository with this path gets
   * the new summary; when there is none, one new row is appended.
   */
  function Upsert(st: Store, repoId: nat, path: string, name: string, kind: ItemKind, summary: string): (r: Store)
    ensures r.files == st.files && r.calls == st.calls
  {
    match FindNode(st.nodes, repoId, path)
    case Some(i) => st.(nodes := st.nodes[i := st.nodes[i].(summary := Some(summary))])
    case None =>
      st.(nodes := st.nodes + [Node(st.nextId, repoId, None, path, name, kind, Some(summary))],
          nextId := st.nextId + 1)
  }

  /** The node upsert replaces the summary of one existing row or appends exactly one row, and changes nothing else. */
  lemma UpsertReplacesOrInserts(st: Store, repoId: nat, path: string, name: string, kind: ItemKind, summary: string)
    ensures var r := Upsert(st, repoId, path, name, kind, summary);
      match FindNode(st.nodes, repoId, path)
      case Some(i) =>
        && |r.nodes| == |st.nodes| && r.nextId == st.nextId
        && r.nodes[i] == st.nodes[i].(summary := Some(summary))
        && (forall k :: 0 <= k < |st.nodes| && k != i ==> r.nodes[k] == st.nodes[k])
      case None =>
        && r.nodes == st.nodes + [Node(st.nextId, repoId, None, path, name, kind, Some(summary))]
        && r.nextId == st.nextId + 1
    ensures var r := Upsert(st, repoId, path, name, kind, summary);
      var j := FindNode(r.nodes, repoId, path);
      j.Some? && r.nodes[j.value].summary == Some(summary)
  {
    var r := Upsert(st, repoId, path, name, kind, summary);
    match FindNode(st.nodes, repoId, path)
    case Some(i) =>
      FindNodeAt(r.nodes, repoId, path, i);
    case None =>
      FindNodeAt(r.nodes, repoId, path, |st.nodes|);
  }

  /** A row that is the first match of a lookup is the one `FindNode` returns. */
  lemma FindNodeAt(nodes: seq<Node>, repo: nat, path: string, i: nat)
    requires i < |nodes| && nodes[i].repoId == repo && nodes[i].path == path
    requires forall k :: 0 <= k < i ==> !(nodes[k].repoId == repo && nodes[k].path == path)
    ensures FindNode(nodes, repo, path) == Some(i)
  {
  }

  /* ---------- the file phase ---------- */

  datatype FileResult = FileResult(st: Store, counted: bool)

  /**
   * One file of the inventory.  A file without content is skipped.  Otherwise
   * a non-empty cached summary is reused; on a miss see `FileMiss`.  A file
   * that was not skipped is upserted and counted.
   */
  function FileStep(env: Env, llm: Summariser, st: Store, path: string): FileResult {
    match Content(env, path)
    case None => FileResult(st, false)
    case Some(content) =>
      match Cached(env, st.files, path, File)
      case Some(s) => FileResult(Upsert(st, env.repoId, path, Basename(path), File, s), true)
      case None => FileMiss(env, llm, st, path, content)
  }

  /**
   * A file with content and no usable cached text: the summariser is called
   * and, when it answers, its text is written to the file's key and the row
   * upserted.  An error from the summariser skips the file.
   */
  function FileMiss(env: Env, llm: Summariser, st: Store, path: string, content: string): FileResult {
    match llm(st.calls, content, File)
    case Err(_) => FileResult(st.(calls := st.calls + 1), false)
    case Ok(s) =>
      var key := SummaryPath(env.root, path, File, env.repoName);
      FileResult(Upsert(st.(files := st.files[key := s], calls := st.calls + 1),
                        env.repoId, path, Basename(path), File, s), true)
  }

  /** The number of files in the inventory. */
  function FileCount(items: seq<Entry>): (n: nat)
    ensures n <= |items|
  {
    if items == [] then 0
    else FileCount(items[..|items| - 1]) + (if items[|items| - 1].kind == File then 1 else 0)
  }

  /** `int((processed / total_files) * 80)`, on exact rationals. */
  function FileProgress(processed: nat, total: nat): nat
    requires total > 0
  {
    processed * 80 / total
  }

  /** The file share of the progress never passes 80 and grows with the number of files processed. */
  lemma FileProgressBounds(a: nat, b: nat, total: nat)
    requires total > 0 && a <= b <= total
    ensures FileProgress(a, total) <= FileProgress(b, total) <= 80
    ensures FileProgress(total, total) == 80 && FileProgress(0, total) == 0
  {
    DivMonotone(a * 80, b * 80, total);
    DivMonotone(b * 80, total * 80, total);
    DivOfMultiple(total, 80);
  }

  lemma DivMonotone(x: nat, y: nat, d: nat)
    requires d > 0 && x <= y
    ensures x / d <= y / d
  {
    var a, b := x / d, y / d;
    assert d * a <= x;
    assert y < d * (b + 1);
    MulCancel(d, a, b + 1);
  }

  lemma MulCancel(d: nat, a: nat, b: nat)
    requires d > 0 && d * a < d * b
    ensures a < b
  {
  }

  lemma DivOfMultiple(d: nat, c: nat)
    requires d > 0
    ensures (d * c) / d == c
  {
    var q := (d * c) / d;
    assert d * c == d * q + (d * c) % d;
    assert d * q <= d * c < d * (q + 1);
    MulCancel(d, q, c + 1);
    MulCancel(d, c, q + 1);
  }

  /** The store after the file loop, how many files were counted, and each progress value the loop wrote. */
  datatype Progressed = Progressed(st: Store, processed: nat, trail: seq<nat>)

  /** One entry of the file loop: folders are passed over, files are stepped and counted. */
  function FileItem(env: Env, llm: Summariser, prev: Progressed, e: Entry, total: nat): (r: Progressed)
    requires total > 0
  {
    if e.kind != File then prev
    else
      var step := FileStep(env, llm, prev.st, e.path);
      if step.counted then
        Progressed(step.st, prev.processed + 1, prev.trail + [FileProgress(prev.processed + 1, total)])
      else Progressed(step.st, prev.processed, prev.trail)
  }

  /** The file loop over the inventory. */
  function FilePhase(env: Env, llm: Summariser, st: Store, items: seq<Entry>, total: nat): (r: Progressed)
    requires total > 0
    ensures r.processed <= FileCount(items)
    ensures |r.trail| == r.processed
    ensures forall k :: 0 <= k < |r.trail| ==> r.trail[k] == FileProgress(k + 1, total)
  {
    if items == [] then Progressed(st, 0, [])
    else FileItem(env, llm, FilePhase(env, llm, st, items[..|items| - 1], total), items[|items| - 1], total)
  }

  /** The file loop after one more entry is the previous loop's result stepped by that entry. */
  lemma FilePhaseStep(env: Env, llm: Summariser, st: Store, items: seq<Entry>, i: nat, total: nat)
    requires total > 0 && i < |items|
    ensures FilePhase(env, llm, st, items[..i + 1], total)
            == FileItem(env, llm, FilePhase(env, llm, st, items[..i], total), items[i], total)
  {
    assert items[..i + 1][..i] == items[..i];
  }

  /* ---------- the folder phase ---------- */

  /** `path.count("/")` */
  function Slashes(s: string): nat {
    if s == [] then 0 else Slashes(s[..|s| - 1]) + (if s[|s| - 1] == '/' then 1 else 0)
  }

  /** The sort key of the folder loop, `reverse=True`: more slashes first. */
  predicate DeeperFirst(a: Entry, b: Entry) {
    Slashes(a.path) >= Slashes(b.path)
  }

  lemma DeeperFirstTotalPreorder()
    ensures TotalPreorder(DeeperFirst)
  {
  }

  /** `[f for f in file_tree if f["type"] == "folder"]` */
  function Folders(items: seq<Entry>): (r: seq<Entry>)
    ensures forall e :: e in r <==> e in items && e.kind == Folder
  {
    if items == [] then []
    else Folders(items[..|items| - 1]) + (if items[|items| - 1].kind == Folder then [items[|items| - 1]] else [])
  }

  /** The folders in the order the loop visits them. */
  function FolderOrder(items: seq<Entry>): seq<Entry> {
    Sort(Folders(items), DeeperFirst)
  }

  /**
   * Folders are visited deepest first, every folder of the inventory
   * exactly as often as it occurs there, and folders with the same number of
   * slashes in the order of the inventory.
   */
  lemma FolderOrderDeepestFirst(items: seq<Entry>)
    ensures var r := FolderOrder(items);
      && multiset(r) == multiset(Folders(items))
      && (forall i, j :: 0 <= i < j < |r| ==> Slashes(r[i].path) >= Slashes(r[j].path))
      && (forall z :: Equivalents(r, z, DeeperFirst) == Equivalents(Folders(items), z, DeeperFirst))
  {
    DeeperFirstTotalPreorder();
    SortSorted(Folders(items), DeeperFirst);
    forall z ensures Equivalents(FolderOrder(items), z, DeeperFirst) == Equivalents(Folders(items), z, DeeperFirst) {
      SortStable(Folders(items), z, DeeperFirst);
    }
  }

  /** `child_nodes`: the repository's rows whose path begins with `folder + "/"`, in table order. */
  function Descendants(nodes: seq<Node>, repoId: nat, folder: string): (r: seq<Node>)
    ensures forall n :: n in r <==> n in nodes && n.repoId == repoId && StartsWith(n.path, folder + "/")
  {
    if nodes == [] then []
    else
      Descendants(nodes[..|nodes| - 1], repoId, folder)
        + (var n := nodes[|nodes| - 1];
           if n.repoId == repoId && StartsWith(n.path, folder + "/") then [n] else [])
  }

  /** A row's summary when it is non-empty, else its non-empty cached text. */
  function NodeText(env: Env, files: map<FsPath, string>, n: Node): Option<string> {
    if Truthy(n.summary).Some? then n.summary else Cached(env, files, n.path, n.kind)
  }

  /** `f"{path}: {summary}"` for each row that has a text. */
  function ChildLines(env: Env, files: map<FsPath, string>, ns: seq<Node>): (r: seq<string>)
    ensures |r| <= |ns|
  {
    if ns == [] then []
    else
      var n := ns[|ns| - 1];
      var t := NodeText(env, files, n);
      ChildLines(env, files, ns[..|ns| - 1]) + (if t.Some? then [n.path + ": " + t.value] else [])
  }

  /** The text the summariser gets for a folder on a cache miss. */
  function FolderContext(structure: string, lines: seq<string>, folder: string): string {
    var parts := (if structure != "" then ["Folder Structure:\n" + structure] else [])
                 + (if lines != [] then ["Child Summaries:\n" + JoinWith(lines, "\n")] else []);
    if parts != [] then JoinWith(parts, "\n\n") else "Folder: " + folder
  }

  /** The two sections in their order, or the one present alone, or the fallback text. */
  lemma FolderContextShape(structure: string, lines: seq<string>, folder: string)
    ensures structure == "" && lines == [] ==> FolderContext(structure, lines, folder) == "Folder: " + folder
    ensures structure != "" && lines == [] ==>
              FolderContext(structure, lines, folder) == "Folder Structure:\n" + structure
    ensures structure == "" && lines != [] ==>
              FolderContext(structure, lines, folder) == "Child Summaries:\n" + JoinWith(lines, "\n")
    ensures structure != "" && lines != [] ==>
              FolderContext(structure, lines, folder)
                == "Folder Structure:\n" + structure + "\n\n" + "Child Summaries:\n" + JoinWith(lines, "\n")
  {
    if structure != "" && lines != [] {
      var parts := ["Folder Structure:\n" + structure] + ["Child Summaries:\n" + JoinWith(lines, "\n")];
      assert parts[1..] == ["Child Summaries:\n" + JoinWith(lines, "\n")];
      assert JoinWith(parts, "\n\n") == parts[0] + "\n\n" + JoinWith(parts[1..], "\n\n");
    }
  }

  /** How a phase ends: with a store, or stopped by an error at an item. */
  datatype Outcome = Done(st: Store) | Stopped(st: Store, error: string, at: string)

  /** `os.path.basename(path) or "root"` */
  function FolderName(path: string): string {
    if Basename(path) != "" then Basename(path) else "root"
  }

  /** One folder: a non-empty cached text is reused and the folder's row upserted; on a miss see `FolderMiss`. */
  function FolderStep(env: Env, llm: Summariser, st: Store, folder: string): Outcome {
    match Cached(env, st.files, folder, Folder)
    case Some(s) => Done(Upsert(st, env.repoId, folder, FolderName(folder), Folder, s))
    case None => FolderMiss(env, llm, st, folder)
  }

  /**
   * A folder without a usable cached text: the context is built from the
   * folder's listing and the texts of the rows below it and summarised; the
   * answer is written to the folder's key and the row upserted.  An error
   * from the summariser stops the run.
   */
  function FolderMiss(env: Env, llm: Summariser, st: Store, folder: string): Outcome {
    match FolderAnswer(env, llm, st, folder)
    case Err(e) => Stopped(st.(calls := st.calls + 1), e, folder)
    case Ok(s) =>
      var key := SummaryPath(env.root, folder, Folder, env.repoName);
      Done(Upsert(st.(files := st.files[key := s], calls := st.calls + 1),
                  env.repoId, folder, FolderName(folder), Folder, s))
  }

  /** The summariser's answer for a folder on a cache miss. */
  function FolderAnswer(env: Env, llm: Summariser, st: Store, folder: string): Result<string, string> {
    var lines := ChildLines(env, st.files, Descendants(st.nodes, env.repoId, folder));
    llm(st.calls, FolderContext(Structure(env, folder), lines, folder), Folder)
  }

  /** The folder loop: each folder in turn, stopping at the first error. */
  function FolderPhase(env: Env, llm: Summariser, st: Store, folders: seq<Entry>): Outcome {
    if folders == [] then Done(st)
    else
      match FolderPhase(env, llm, st, folders[..|folders| - 1])
      case Stopped(s, e, at) => Stopped(s, e, at)
      case Done(s) => FolderStep(env, llm, s, folders[|folders| - 1].path)
  }

  /** The folder loop after one more folder, when it had not stopped before it, is that folder's step. */
  lemma FolderPhaseStep(env: Env, llm: Summariser, st: Store, folders: seq<Entry>, i: nat, s: Store)
    requires i < |folders| && FolderPhase(env, llm, st, folders[..i]) == Done(s)
    ensures FolderPhase(env, llm, st, folders[..i + 1]) == FolderStep(env, llm, s, folders[i].path)
  {
    assert folders[..i + 1][..i] == folders[..i];
  }

  /** A non-empty cached folder text is reused verbatim, the summariser is not called and the cache is not written. */
  lemma FolderCacheHit(env: Env, llm: Summariser, st: Store, folder: string, s: string)
    requires Lookup(st.files, SummaryPath(env.root, folder, Folder, env.repoName)) == Some(s) && s != ""
    ensures var o := FolderStep(env, llm, st, folder);
      && o.Done? && o.st.calls == st.calls && o.st.files == st.files
      && o.st == Upsert(st, env.repoId, folder, FolderName(folder), Folder, s)
  {
  }

  /**
   * A missing or empty cached text is a miss: the summariser is called once;
   * its answer is written to the folder's key and becomes the summary of the
   * folder's row, and an error stops the run with the tables unchanged.
   */
  lemma FolderCacheMiss(env: Env, llm: Summariser, st: Store, folder: string)
    requires Lookup(st.files, SummaryPath(env.root, folder, Folder, env.repoName)) in {None, Some("")}
    ensures var o := FolderStep(env, llm, st, folder);
      var key := SummaryPath(env.root, folder, Folder, env.repoName);
      && o.st.calls == st.calls + 1
      && (o.Stopped? ==> o.st == st.(calls := st.calls + 1) && o.at == folder)
      && (o.Done? ==>
            && o.st.files == st.files[key := o.st.files[key]]
            && var j := FindNode(o.st.nodes, env.repoId, folder);
               j.Some? && o.st.nodes[j.value].summary == Some(o.st.files[key]))
  {
    var o := FolderStep(env, llm, st, folder);
    var key := SummaryPath(env.root, folder, Folder, env.repoName);
    if o.Done? {
      var s := FolderAnswer(env, llm, st, folder).value;
      UpsertReplacesOrInserts(st.(files := st.files[key := s], calls := st.calls + 1),
                              env.repoId, folder, FolderName(folder), Folder, s);
    }
  }

  /* ---------- the root ---------- */

  /** The fixed context used when the root context is blank. */
  const BlankRootContext := "This repository structure and its contents."

  /** `Node.path != ""`: the rows of the repository other than the root. */
  function NonRoot(nodes: seq<Node>, repoId: nat): (r: seq<Node>)
    ensures forall n :: n in r <==> n in nodes && n.repoId == repoId && n.path != ""
  {
    if nodes == [] then []
    else
      NonRoot(nodes[..|nodes| - 1], repoId)
        + (var n := nodes[|nodes| - 1]; if n.repoId == repoId && n.path != "" then [n] else [])
  }

  /** The `## Folder:` or `### File:` section of one row, when the row is of that kind and has a text. */
  function Section(env: Env, files: map<FsPath, string>, n: Node, kind: ItemKind): seq<string> {
    var t := NodeText(env, files, n);
    var header := if kind == Folder then "## Folder: " else "### File: ";
    if t.Some? && n.kind == kind then [header + n.path + "\n" + t.value] else []
  }

  /** The sections, in table order, of the rows of one kind that have a text. */
  function Sections(env: Env, files: map<FsPath, string>, ns: seq<Node>, kind: ItemKind): (r: seq<string>)
    ensures |r| <= |ns|
  {
    if ns == [] then []
    else Sections(env, files, ns[..|ns| - 1], kind) + Section(env, files, ns[|ns| - 1], kind)
  }

  /** The sections after one more row are the previous ones followed by that row's section. */
  lemma SectionsStep(env: Env, files: map<FsPath, string>, ns: seq<Node>, i: nat, kind: ItemKind)
    requires i < |ns|
    ensures Sections(env, files, ns[..i + 1], kind) == Sections(env, files, ns[..i], kind) + Section(env, files, ns[i], kind)
  {
    assert ns[..i + 1][..i] == ns[..i];
  }

  /** The text the summariser gets for the root: structure, folder sections, file sections, or the fixed text. */
  function RootContext(structure: string, folderSections: seq<string>, fileSections: seq<string>): string {
    var parts := (if structure != "" then ["Repository Structure:\n" + structure] else [])
                 + (if folderSections != [] then ["## Folder Summaries:\n" + JoinWith(folderSections, "\n\n")] else [])
                 + (if fileSections != [] then ["## File Summaries:\n" + JoinWith(fileSections, "\n\n")] else []);
    var context := JoinWith(parts, "\n\n");
    if IsBlank(context) then BlankRootContext else context
  }

  /** The root context for the rows as they are. */
  function RootContextOf(env: Env, st: Store): string {
    var ns := NonRoot(st.nodes, env.repoId);
    RootContext(Structure(env, ""), Sections(env, st.files, ns, Folder), Sections(env, st.files, ns, File))
  }

  /** With nothing to say, the summariser gets the fixed text; the context is never blank. */
  lemma RootContextFallback(folderSections: seq<string>, fileSections: seq<string>)
    ensures RootContext("", [], []) == BlankRootContext
    ensures !IsBlank(RootContext("", folderSections, fileSections))
  {
    assert !IsSpace(BlankRootContext[0]);
  }

  /** The root row itself, and any row of another repository, add nothing to the root context. */
  lemma RootContextIgnoresRoot(env: Env, st: Store, n: Node)
    requires n.path == "" || n.repoId != env.repoId
    ensures RootContextOf(env, st.(nodes := st.nodes + [n])) == RootContextOf(env, st)
  {
    var ns := st.nodes + [n];
    assert ns[..|ns| - 1] == st.nodes;
    assert NonRoot(ns, env.repoId) == NonRoot(st.nodes, env.repoId);
  }

  /** `repo_name or os.path.basename(repo_url.rstrip("/")) or "root"` */
  function RootName(env: Env): string {
    if env.repoName != "" then env.repoName else UrlName(env.url)
  }

  /** `os.path.basename(repo_url.rstrip("/")) or "root"` */
  function UrlName(url: string): string {
    if Basename(RStripSlash(url)) != "" then Basename(RStripSlash(url)) else "root"
  }

  predicate IsRootOf(repoId: nat, n: Node) {
    n.repoId == repoId && n.path == "" && n.parentId.None?
  }

  /** `filter(repo_id, path == "", parent_id is None).first()` */
  function FindRoot(nodes: seq<Node>, repoId: nat): Option<nat> {
    FirstWhere(nodes, n => IsRootOf(repoId, n))
  }

  /** The root row is updated in place (summary and name) or appended. */
  function RootUpsert(env: Env, st: Store, summary: string): (r: Store)
    ensures r.files == st.files && r.calls == st.calls
  {
    match FindRoot(st.nodes, env.repoId)
    case Some(i) => st.(nodes := st.nodes[i := st.nodes[i].(summary := Some(summary), name := RootName(env))])
    case None =>
      st.(nodes := st.nodes + [Node(st.nextId, env.repoId, None, "", RootName(env), Folder, Some(summary))],
          nextId := st.nextId + 1)
  }

  /** The root's summary file, `<repo_name>.md` at the top of the clone. */
  function RootKey(env: Env): FsPath {
    SummaryPath(env.root, "", Folder, env.repoName)
  }

  /** The summariser's answer for the root on a cache miss. */
  function RootAnswer(env: Env, llm: Summariser, st: Store): Result<string, string> {
    llm(st.calls, RootContextOf(env, st), Folder)
  }

  /** The root step: reuse the non-empty root text, or see `RootMiss`; then the root row is upserted. */
  function RootStep(env: Env, llm: Summariser, st: Store): Outcome {
    match Truthy(Lookup(st.files, RootKey(env)))
    case Some(s) => Done(RootUpsert(env, st, s))
    case None => RootMiss(env, llm, st)
  }

  /** The root without a usable cached text: the root context is summarised and the answer written to the root key. */
  function RootMiss(env: Env, llm: Summariser, st: Store): Outcome {
    match RootAnswer(env, llm, st)
    case Err(e) => Stopped(st.(calls := st.calls + 1), e, "")
    case Ok(s) =>
      Done(RootUpsert(env, st.(files := st.files[RootKey(env) := s], calls := st.calls + 1), s))
  }

  /** After the root upsert the first root row of the repository carries the summary and the root's name. */
  lemma RootUpsertLeavesRoot(env: Env, st: Store, summary: string)
    ensures var r := RootUpsert(env, st, summary);
      var j := FindRoot(r.nodes, env.repoId);
      j.Some? && r.nodes[j.value].summary == Some(summary) && r.nodes[j.value].name == RootName(env)
  {
    var r := RootUpsert(env, st, summary);
    var p := (n: Node) => IsRootOf(env.repoId, n);
    match FirstWhere(st.nodes, p)
    case Some(i) =>
      FirstWhereAt(r.nodes, p, i);
    case None =>
      FirstWhereAt(r.nodes, p, |st.nodes|);
  }

  /** After the root step the repository has a root row carrying the text cached under the root key. */
  lemma RootStepLeavesRoot(env: Env, llm: Summariser, st: Store)
    requires RootStep(env, llm, st).Done?
    ensures var r := RootStep(env, llm, st).st;
      var j := FindRoot(r.nodes, env.repoId);
      && RootKey(env) in r.files
      && j.Some? && r.nodes[j.value].summary == Some(r.files[RootKey(env)]) && r.nodes[j.value].name == RootName(env)
  {
    match Truthy(Lookup(st.files, RootKey(env)))
    case Some(s) =>
      RootUpsertLeavesRoot(env, st, s);
    case None =>
      var s := RootAnswer(env, llm, st).value;
      RootUpsertLeavesRoot(env, st.(files := st.files[RootKey(env) := s], calls := st.calls + 1), s);
  }

  /* ---------- the whole run ---------- */

  /** The fixed root text of an empty repository. */
  function EmptySummary(url: string): string {
    "This repository (" + url + ") appears to be empty or contains no analyzable files."
  }

  /** The empty-repository branch: write the fixed root text, add a root row (without looking for one). */
  function EmptyRepo(env: Env, st: Store): Store {
    var text := EmptySummary(env.url);
    Store(st.files[SummaryPath(env.root, "", Folder, env.repoName) := text],
          st.nodes + [Node(st.nextId, env.repoId, None, "", UrlName(env.url), Folder, Some(text))],
          st.nextId + 1,
          st.calls)
  }

  /** The task's final status, progress, message, error and result. */
  datatype TaskEnd = TaskEnd(status: Status, progress: nat, message: Step, error: Option<string>, resultId: Option<nat>)

  /**
   * The end of a run: the store, the task's end, and every value written to
   * the task's progress after the task row was created with progress 0, in
   * order.
   */
  datatype Analysis = Analysis(st: Store, end: TaskEnd, trail: seq<nat>)

  /** `"root"` for the root folder's path, the path otherwise. */
  function DisplayPath(path: string): string {
    if path != "" then path else "root"
  }

  /**
   * A run with files, from the end of the file loop: the folder loop's
   * outcome `o`, then the root.  The trail holds the progress values written
   * after the initial 0.
   */
  function Finish(env: Env, llm: Summariser, files: Progressed, total: nat, o: Outcome): Analysis
    requires total > 0
  {
    match o
    case Stopped(s, e, at) =>
      Analysis(s, TaskEnd(Failed, FileProgress(files.processed, total), ProcessingFolder(DisplayPath(at)), Some(e), None),
               files.trail)
    case Done(s) =>
      match RootStep(env, llm, s)
      case Stopped(s2, e, _) => Analysis(s2, TaskEnd(Failed, 90, GeneratingSummary, Some(e), None), files.trail + [90])
      case Done(s2) =>
        Analysis(s2, TaskEnd(Completed, 100, AnalysisCompleted, None, Some(env.repoId)), files.trail + [90, 100])
  }

  /** The run after the repository and task rows exist; `clone` is the inventory, or the text of the clone error. */
  function Analyse(env: Env, llm: Summariser, st: Store, clone: Result<seq<Entry>, string>): Analysis {
    match clone
    case Err(e) => Analysis(st, TaskEnd(Failed, 0, CloningRepository, Some(e), None), [])
    case Ok(items) =>
      var total := FileCount(items);
      if items == [] || total == 0 then
        Analysis(EmptyRepo(env, st), TaskEnd(Completed, 100, CloningRepository, None, Some(env.repoId)), [100])
      else WithFiles(env, llm, st, items, total)
  }

  /** A run whose inventory has files: the file loop, the folder loop, the root. */
  function WithFiles(env: Env, llm: Summariser, st: Store, items: seq<Entry>, total: nat): Analysis
    requires total > 0
  {
    var files := FilePhase(env, llm, st, items, total);
    Finish(env, llm, files, total, FolderPhase(env, llm, files.st, FolderOrder(items)))
  }

  /* ---------- properties of a run ---------- */

  /** A file without content leaves everything as it was and is not counted. */
  lemma FileWithoutContentSkipped(env: Env, llm: Summariser, st: Store, path: string)
    requires Content(env, path).None?
    ensures FileStep(env, llm, st, path) == FileResult(st, false)
  {
  }

  /** A file with a non-empty cached text reuses it: no call, no write, and its row carries that text. */
  lemma FileCacheHit(env: Env, llm: Summariser, st: Store, path: string, s: string)
    requires Content(env, path).Some?
    requires Lookup(st.files, SummaryPath(env.root, path, File, env.repoName)) == Some(s) && s != ""
    ensures var r := FileStep(env, llm, st, path);
      && r.counted && r.st.calls == st.calls && r.st.files == st.files
      && var j := FindNode(r.st.nodes, env.repoId, path);
         j.Some? && r.st.nodes[j.value].summary == Some(s)
  {
    UpsertReplacesOrInserts(st, env.repoId, path, Basename(path), File, s);
  }

  /** A summariser error on a file skips it: only the call is counted, the cache and the rows are untouched. */
  lemma FileErrorSkipped(env: Env, llm: Summariser, st: Store, path: string)
    requires Content(env, path).Some? && Cached(env, st.files, path, File).None?
    requires llm(st.calls, Content(env, path).value, File).Err?
    ensures FileStep(env, llm, st, path) == FileResult(st.(calls := st.calls + 1), false)
  {
  }

  /** Whether `s` never decreases. */
  predicate NonDecreasing(s: seq<nat>) {
    forall i, j :: 0 <= i < j < |s| ==> s[i] <= s[j]
  }

  /** Whether `s` starts at 0, never decreases, stays within 100 and ends at `last`. */
  predicate ProgressTrail(s: seq<nat>, last: nat) {
    && s != [] && s[0] == 0
    && NonDecreasing(s)
    && (forall i :: 0 <= i < |s| ==> s[i] <= 100)
    && s[|s| - 1] == last
  }

  /**
   * The progress values a run writes start at 0, never decrease, stay
   * within 100, and the last one is the task's final progress.
   */
  lemma ProgressNeverDecreases(env: Env, llm: Summariser, st: Store, clone: Result<seq<Entry>, string>)
    ensures var a := Analyse(env, llm, st, clone);
      ProgressTrail([0] + a.trail, a.end.progress)
  {
    if clone.Ok? {
      var items := clone.value;
      var total := FileCount(items);
      if !(items == [] || total == 0) {
        var files := FilePhase(env, llm, st, items, total);
        FinishTrail(env, llm, files, total, FolderPhase(env, llm, files.st, FolderOrder(items)));
      } else {
        assert [0] + Analyse(env, llm, st, clone).trail == [0, 100];
      }
    } else {
      assert [0] + Analyse(env, llm, st, clone).trail == [0];
    }
  }

  /** After the file loop, however the folders and the root end, the whole trail keeps its order. */
  lemma FinishTrail(env: Env, llm: Summariser, files: Progressed, total: nat, o: Outcome)
    requires total > 0 && files.processed <= total && |files.trail| == files.processed
    requires forall k :: 0 <= k < |files.trail| ==> files.trail[k] == FileProgress(k + 1, total)
    ensures var a := Finish(env, llm, files, total, o);
      ProgressTrail([0] + a.trail, a.end.progress)
  {
    var ft := files.trail;
    FileTrail(ft, files.processed, total);
    if o.Done? && RootStep(env, llm, o.st).Stopped? {
      assert [0] + (ft + [90]) == [0] + ft + [90];
    } else if o.Done? {
      assert [0] + (ft + [90, 100]) == [0] + ft + [90, 100];
    }
  }

  /** The file phase's progress values, after the initial 0 and before 90 and 100, keep the order. */
  lemma FileTrail(ft: seq<nat>, processed: nat, total: nat)
    requires total > 0 && processed <= total && |ft| == processed
    requires forall k :: 0 <= k < |ft| ==> ft[k] == FileProgress(k + 1, total)
    ensures ProgressTrail([0] + ft, FileProgress(processed, total))
    ensures ProgressTrail([0] + ft + [90], 90)
    ensures ProgressTrail([0] + ft + [90, 100], 100)
  {
    FileValues(ft, processed, total);
    var t0 := [0] + ft;
    ExtendTrail(t0, 90);
    ExtendTrail(t0 + [90], 100);
    assert t0 + [90, 100] == t0 + [90] + [100];
  }

  /** The file phase's values after the initial 0 never decrease, stay within 80 and end at the last one written. */
  lemma FileValues(ft: seq<nat>, processed: nat, total: nat)
    requires total > 0 && processed <= total && |ft| == processed
    requires forall k :: 0 <= k < |ft| ==> ft[k] == FileProgress(k + 1, total)
    ensures ProgressTrail([0] + ft, FileProgress(processed, total))
    ensures forall i :: 0 <= i < |[0] + ft| ==> ([0] + ft)[i] <= 80
  {
    forall i, j | 0 <= i < j < |ft| ensures ft[i] <= ft[j] {
      FileProgressBounds(i + 1, j + 1, total);
    }
    forall i | 0 <= i < |ft| ensures ft[i] <= 80 {
      FileProgressBounds(i + 1, total, total);
    }
    FileProgressBounds(0, processed, total);
    assert NonDecreasing([0] + ft);
  }

  /** A trail followed by a value no smaller than any before it, within 100, is a trail ending there. */
  lemma ExtendTrail(s: seq<nat>, v: nat)
    requires s != [] && s[0] == 0 && NonDecreasing(s) && v <= 100
    requires forall i :: 0 <= i < |s| ==> s[i] <= v
    ensures ProgressTrail(s + [v], v)
    ensures forall i :: 0 <= i < |s + [v]| ==> (s + [v])[i] <= v
  {
  }

  /** Keys only ever get added to the cache. */
  predicate Grows(a: map<FsPath, string>, b: map<FsPath, string>) {
    forall k :: k in a ==> k in b
  }

  lemma {:induction false} FilePhaseGrows(env: Env, llm: Summariser, st: Store, items: seq<Entry>, total: nat)
    requires total > 0
    ensures Grows(st.files, FilePhase(env, llm, st, items, total).st.files)
    decreases |items|
  {
    if items != [] {
      FilePhaseGrows(env, llm, st, items[..|items| - 1], total);
    }
  }

  lemma {:induction false} FolderPhaseGrows(env: Env, llm: Summariser, st: Store, folders: seq<Entry>)
    ensures Grows(st.files, FolderPhase(env, llm, st, folders).st.files)
    decreases |folders|
  {
    if folders != [] {
      FolderPhaseGrows(env, llm, st, folders[..|folders| - 1]);
    }
  }

  /** The root step only adds to the cache. */
  lemma FinishGrows(env: Env, llm: Summariser, files: Progressed, total: nat, o: Outcome, base: map<FsPath, string>)
    requires total > 0 && Grows(base, o.st.files)
    ensures Grows(base, Finish(env, llm, files, total, o).st.files)
  {
  }

  /**
   * No run removes a cache file: whatever was cached before is still
   * cached afterwards, also when the run fails halfway.
   */
  lemma CacheOnlyGrows(env: Env, llm: Summariser, st: Store, clone: Result<seq<Entry>, string>)
    ensures Grows(st.files, Analyse(env, llm, st, clone).st.files)
  {
    if clone.Ok? {
      var items := clone.value;
      var total := FileCount(items);
      if !(items == [] || total == 0) {
        var files := FilePhase(env, llm, st, items, total);
        var o := FolderPhase(env, llm, files.st, FolderOrder(items));
        FilePhaseGrows(env, llm, st, items, total);
        FolderPhaseGrows(env, llm, files.st, FolderOrder(items));
        FinishGrows(env, llm, files, total, o, st.files);
      }
    }
  }

  /**
   * Every file with content, every folder and the root have a non-empty
   * cached text.
   */
  predicate AllCached(env: Env, files: map<FsPath, string>, items: seq<Entry>) {
    && Cached(env, files, "", Folder).Some?
    && forall e :: e in items ==>
         (e.kind == File && Content(env, e.path).Some? ==> Cached(env, files, e.path, File).Some?)
         && (e.kind == Folder ==> Cached(env, files, e.path, Folder).Some?)
  }

  lemma {:induction false} CachedFilePhase(env: Env, llm: Summariser, st: Store, items: seq<Entry>, total: nat)
    requires total > 0 && AllCached(env, st.files, items)
    ensures var r := FilePhase(env, llm, st, items, total).st;
      r.files == st.files && r.calls == st.calls
    decreases |items|
  {
    if items != [] {
      var front := items[..|items| - 1];
      assert forall e :: e in front ==> e in items;
      CachedFilePhase(env, llm, st, front, total);
      assert items[|items| - 1] in items;
    }
  }

  lemma {:induction false} CachedFolderPhase(env: Env, llm: Summariser, st: Store, folders: seq<Entry>)
    requires forall e :: e in folders ==> Cached(env, st.files, e.path, Folder).Some?
    ensures var o := FolderPhase(env, llm, st, folders);
      o.Done? && o.st.files == st.files && o.st.calls == st.calls
    decreases |folders|
  {
    if folders != [] {
      var front := folders[..|folders| - 1];
      assert forall e :: e in front ==> e in folders;
      CachedFolderPhase(env, llm, st, front);
      assert folders[|folders| - 1] in folders;
    }
  }

  /**
   * Re-analysing a repository whose every item already has a non-empty
   * cached text makes no summariser call and writes no cache file, and
   * the run completes.
   */
  lemma FullyCachedRunMakesNoCall(env: Env, llm: Summariser, st: Store, items: seq<Entry>)
    requires AllCached(env, st.files, items)
    ensures var a := Analyse(env, llm, st, Ok(items));
      a.end.status == Completed && a.st.calls == st.calls
    ensures FileCount(items) > 0 ==> Analyse(env, llm, st, Ok(items)).st.files == st.files
  {
    var total := FileCount(items);
    if !(items == [] || total == 0) {
      CachedFilePhase(env, llm, st, items, total);
      var s1 := FilePhase(env, llm, st, items, total).st;
      FolderOrderDeepestFirst(items);
      forall e | e in FolderOrder(items) ensures Cached(env, s1.files, e.path, Folder).Some? {
        assert e in multiset(FolderOrder(items));
        assert e in Folders(items);
      }
      CachedFolderPhase(env, llm, s1, FolderOrder(items));
    }
  }

  /**
   * An inventory without files ends at once: the fixed text is written to
   * the root key, one root row is added, and the task is completed at 100
   * with the repository as its result.  No summariser call is made.
   */
  lemma EmptyRepositoryOutcome(env: Env, llm: Summariser, st: Store, items: seq<Entry>)
    requires FileCount(items) == 0
    ensures var a := Analyse(env, llm, st, Ok(items));
      && a.end == TaskEnd(Completed, 100, CloningRepository, None, Some(env.repoId))
      && a.st.files == st.files[SummaryPath(env.root, "", Folder, env.repoName) := EmptySummary(env.url)]
      && a.st.nodes == st.nodes + [Node(st.nextId, env.repoId, None, "", UrlName(env.url), Folder, Some(EmptySummary(env.url)))]
      && a.st.calls == st.calls
  {
  }

  /** Whether a task's end is consistent: failed with an error, or completed at 100 with the repository as result. */
  predicate WellEnded(e: TaskEnd, repoId: nat) {
    && (e.status == Failed || e.status == Completed)
    && (e.status == Failed <==> e.error.Some?)
    && (e.status == Completed <==> e.resultId == Some(repoId))
    && (e.status == Completed ==> e.progress == 100)
  }

  /** After the file loop, a run ends consistently. */
  lemma FinishEnds(env: Env, llm: Summariser, files: Progressed, total: nat, o: Outcome)
    requires total > 0
    ensures WellEnded(Finish(env, llm, files, total, o).end, env.repoId)
  {
  }

  /**
   * A run fails exactly when it records an error, and completes exactly
   * when it records the repository as its result, at progress 100.  A
   * failing clone fails the task with the clone's error text.
   */
  lemma RunEnds(env: Env, llm: Summariser, st: Store, clone: Result<seq<Entry>, string>)
    ensures WellEnded(Analyse(env, llm, st, clone).end, env.repoId)
    ensures clone.Err? ==> Analyse(env, llm, st, clone).end == TaskEnd(Failed, 0, CloningRepository, Some(clone.error), None)
  {
    if clone.Ok? {
      var items := clone.value;
      var total := FileCount(items);
      if !(items == [] || total == 0) {
        var files := FilePhase(env, llm, st, items, total);
        FinishEnds(env, llm, files, total, FolderPhase(env, llm, files.st, FolderOrder(items)));
      }
    }
  }

  /**
   * A summariser error on a folder fails the task with that error's text and
   * the folder's status message; later folders and the root are not
   * summarised, so no further call is made.
   */
  lemma {:induction false} FolderErrorStops(env: Env, llm: Summariser, st: Store, folders: seq<Entry>, i: nat)
    requires i < |folders|
    requires FolderPhase(env, llm, st, folders[..i]).Done?
    requires FolderStep(env, llm, FolderPhase(env, llm, st, folders[..i]).st, folders[i].path).Stopped?
    ensures FolderPhase(env, llm, st, folders)
              == FolderStep(env, llm, FolderPhase(env, llm, st, folders[..i]).st, folders[i].path)
    decreases |folders|
  {
    if i < |folders| - 1 {
      var front := folders[..|folders| - 1];
      assert front[..i] == folders[..i] && front[i] == folders[i];
      FolderErrorStops(env, llm, st, front, i);
    } else {
      assert folders[..|folders| - 1] == folders[..i];
    }
  }

  /* ---------- the repository row ---------- */

  /** The repository table after registration, the index of the run's row, and the next free id. */
  datatype Registered = Registered(repos: seq<Repository>, index: nat, nextId: nat)

  predicate HasUrl(url: string, r: Repository) {
    r.url == url
  }

  /** The first row with the URL is set to processing; without one, a row is added under a new id. */
  function Register(repos: seq<Repository>, nextId: nat, url: string): (r: Registered)
    ensures |repos| <= |r.repos| && r.index < |r.repos|
    ensures r.repos[r.index].url == url && r.repos[r.index].status == Processing
    ensures forall k :: 0 <= k < |repos| && k != r.index ==> r.repos[k] == repos[k]
  {
    match FirstWhere(repos, x => HasUrl(url, x))
    case Some(i) => Registered(repos[i := repos[i].(status := Processing)], i, nextId)
    case None => Registered(repos + [Repository(nextId, url, Processing)], |repos|, nextId + 1)
  }

  /**
   * A URL gets one row: registering it again finds the row added or
   * updated the first time, under the same id, and adds none.
   */
  lemma RegisterOnce(repos: seq<Repository>, nextId: nat, url: string, laterId: nat)
    ensures var first := Register(repos, nextId, url);
      var again := Register(first.repos, laterId, url);
      && |again.repos| == |first.repos| && again.index == first.index
      && again.repos[again.index].id == first.repos[first.index].id
      && again.nextId == laterId
      && |first.repos| <= |repos| + 1
  {
    var first := Register(repos, nextId, url);
    var p := (x: Repository) => HasUrl(url, x);
    match FirstWhere(repos, p)
    case Some(i) =>
      FirstWhereAt(first.repos, p, i);
    case None =>
      FirstWhereAt(first.repos, p, |repos|);
  }

  /** The clone's directory and name for a URL, as `get_repo_cache_path` gives them. */
  function RunEnv(cacheDir: string, url: string, repoId: nat,
                  disk: map<string, FileInfo>, listings: map<string, seq<DirEntry>>): Env
  {
    var root := RepoCachePath(cacheDir, url);
    Env(url, root, Name(root), repoId, disk, listings)
  }

  /** The task row during the file loop: the progress of the files processed so far (none: as it was) and a message. */
  function FileRow(t: Task, processed: nat, total: nat, m: Step): Task
    requires total > 0
  {
    t.(progress := if processed > 0 then FileProgress(processed, total) else t.progress, message := m)
  }

  /** The task row of a run once it has ended. */
  function TaskRow(id: nat, repoId: nat, e: TaskEnd): Task {
    Task(id, repoId, e.status, e.progress, e.message, e.error, e.resultId)
  }

  /* ---------- the analyzer ---------- */

  /**
   * The database tables the run works on (the repositories, the task row of
   * the latest run, the nodes), the summary cache, the passphrase usage
   * table, and the summariser, which counts its calls.  `nextId` stands for
   * the fresh identifiers `uuid4` hands out.  `progressLog` records every
   * value written to the task's progress, in order.
   */
  class Analyzer {
    const settings: Settings
    const cache: SummaryCache
    const usage: UsageTable
    const llm: Summariser
    var repos: seq<Repository>
    var task: Task
    var nodes: seq<Node>
    var nextId: nat
    var calls: nat
    ghost var progressLog: seq<nat>

    constructor (settings: Settings, cache: SummaryCache, usage: UsageTable, llm: Summariser)
      ensures this.settings == settings && this.cache == cache && this.usage == usage && this.llm == llm
      ensures repos == [] && nodes == [] && nextId == 0 && calls == 0 && progressLog == []
      ensures task.status == Pending
    {
      this.settings := settings;
      this.cache := cache;
      this.usage := usage;
      this.llm := llm;
      repos := [];
      task := Task(0, 0, Pending, 0, GettingRepository, None, None);
      nodes := [];
      nextId := 0;
      calls := 0;
      progressLog := [];
    }

    /** The part of the state the phases change. */
    function Snapshot(): Store
      reads this, cache
    {
      Store(cache.files, nodes, nextId, calls)
    }

    /** `llm_service.generate_summary(text, item_type=kind)`, counted. */
    method Summarise(text: string, kind: ItemKind) returns (r: Result<string, string>)
      modifies this`calls
      ensures r == llm(old(calls), text, kind) && calls == old(calls) + 1
    {
      r := llm(calls, text, kind);
      calls := calls + 1;
    }

    /** The node upsert on (repository, path). */
    method UpsertNode(repoId: nat, path: string, name: string, kind: ItemKind, summary: string)
      modifies this`nodes, this`nextId
      ensures Snapshot() == Upsert(old(Snapshot()), repoId, path, name, kind, summary)
    {
      var found := FindNode(nodes, repoId, path);
      if found.Some? {
        var i := found.value;
        nodes := nodes[i := nodes[i].(summary := Some(summary))];
      } else {
        nodes := nodes + [Node(nextId, repoId, None, path, name, kind, Some(summary))];
        nextId := nextId + 1;
      }
    }

    /** `task.progress = p` */
    method SetProgress(p: nat)
      modifies this`task, this`progressLog
      ensures task == old(task).(progress := p)
      ensures progressLog == old(progressLog) + [p]
    {
      task := task.(progress := p);
      progressLog := progressLog + [p];
    }

    /** `task.status_message = m` */
    method SetMessage(m: Step)
      modifies this`task
      ensures task == old(task).(message := m)
    {
      task := task.(message := m);
    }

    /** The body of the per-file `try` for a file with content. */
    method SummariseFile(env: Env, path: string, content: string) returns (counted: bool)
      requires Content(env, path) == Some(content)
      modifies this`nodes, this`nextId, this`calls, cache
      ensures FileResult(Snapshot(), counted) == FileStep(env, llm, old(Snapshot()), path)
    {
      var existing := cache.Read(env.root, path, File, env.repoName);
      if existing.Some? && existing.value != "" {
        UpsertNode(env.repoId, path, Basename(path), File, existing.value);
        return true;
      }
      counted := SummariseNewFile(env, path, content);
    }

    /** A file's cache miss: summarise the content, write the answer, upsert the row. */
    method SummariseNewFile(env: Env, path: string, content: string) returns (counted: bool)
      modifies this`nodes, this`nextId, this`calls, cache
      ensures FileResult(Snapshot(), counted) == FileMiss(env, llm, old(Snapshot()), path, content)
    {
      var r := Summarise(content, File);
      if r.Err? {
        return false;
      }
      cache.Write(env.root, path, File, r.value, env.repoName);
      UpsertNode(env.repoId, path, Basename(path), File, r.value);
      return true;
    }

    /** One pass of the file loop: `prev` is what the loop has done so far, `base` the progress log before it. */
    method ProcessEntry(env: Env, e: Entry, total: nat, count: nat,
                        ghost prev: Progressed, ghost base: seq<nat>, ghost row: Task) returns (processed: nat)
      requires total > 0 && count == prev.processed
      requires Snapshot() == prev.st && progressLog == base + prev.trail
      requires task == FileRow(row, count, total, task.message)
      modifies this`nodes, this`nextId, this`calls, this`task, this`progressLog, cache
      ensures var r := FileItem(env, llm, prev, e, total);
        Snapshot() == r.st && processed == r.processed && progressLog == base + r.trail
      ensures task == FileRow(row, processed, total, task.message)
    {
      processed := count;
      var content := Content(env, e.path);
      if e.kind == File && content.Some? {
        SetMessage(ProcessingFile(e.path));
        var counted := SummariseFile(env, e.path, content.value);
        if counted {
          processed := processed + 1;
          SetProgress(FileProgress(processed, total));
        }
      }
    }

    /** The file loop. */
    method RunFiles(env: Env, items: seq<Entry>, total: nat) returns (processed: nat)
      requires total > 0
      modifies this`nodes, this`nextId, this`calls, this`task, this`progressLog, cache
      ensures var r := FilePhase(env, llm, old(Snapshot()), items, total);
        && Snapshot() == r.st && processed == r.processed
        && progressLog == old(progressLog) + r.trail
      ensures task == FileRow(old(task), processed, total, task.message)
    {
      processed := 0;
      ghost var r := Progressed(Snapshot(), 0, []);
      var i := 0;
      while i < |items|
        invariant 0 <= i <= |items|
        invariant r == FilePhase(env, llm, old(Snapshot()), items[..i], total)
        invariant Snapshot() == r.st && processed == r.processed && progressLog == old(progressLog) + r.trail
        invariant task == FileRow(old(task), processed, total, task.message)
      {
        FilePhaseStep(env, llm, old(Snapshot()), items, i, total);
        processed := ProcessEntry(env, items[i], total, processed, r, old(progressLog), old(task));
        r := FileItem(env, llm, r, items[i], total);
        i := i + 1;
      }
      assert items[..|items|] == items;
    }

    /** A row's summary when it is non-empty, else its cached text when that is non-empty. */
    method ReadNodeText(env: Env, n: Node) returns (text: Option<string>)
      ensures text == NodeText(env, cache.files, n)
      ensures text.Some? ==> text.value != ""
    {
      if n.summary.Some? && n.summary.value != "" {
        return n.summary;
      }
      var f := cache.Read(env.root, n.path, n.kind, env.repoName);
      if f.Some? && f.value != "" {
        return f;
      }
      return None;
    }

    /** The child lines of a folder's context, built by the loop over the rows below it. */
    method CollectChildLines(env: Env, ns: seq<Node>) returns (lines: seq<string>)
      ensures lines == ChildLines(env, cache.files, ns)
    {
      lines := [];
      var i := 0;
      while i < |ns|
        invariant 0 <= i <= |ns|
        invariant lines == ChildLines(env, cache.files, ns[..i])
      {
        assert ns[..i + 1][..i] == ns[..i];
        var n := ns[i];
        var text := ReadNodeText(env, n);
        if text.Some? {
          lines := lines + [n.path + ": " + text.value];
        }
        i := i + 1;
      }
      assert ns[..|ns|] == ns;
    }

    /** On a folder's cache miss: its context, built from the listing and the rows below it, summarised. */
    method SummariseFolderContext(env: Env, folder: string) returns (r: Result<string, string>)
      modifies this`calls
      ensures r == FolderAnswer(env, llm, old(Snapshot()), folder)
      ensures calls == old(calls) + 1
    {
      var structure := BuildFolderStructure(if folder in env.listings then Some(env.listings[folder]) else None);
      var lines := CollectChildLines(env, Descendants(nodes, env.repoId, folder));
      r := Summarise(FolderContext(structure, lines, folder), Folder);
    }

    /** The body of the folder loop for one folder; an error is returned, not caught. */
    method SummariseFolder(env: Env, folder: string) returns (error: Option<string>)
      modifies this`nodes, this`nextId, this`calls, cache
      ensures (if error.None? then Done(Snapshot()) else Stopped(Snapshot(), error.value, folder))
              == FolderStep(env, llm, old(Snapshot()), folder)
    {
      var existing := cache.Read(env.root, folder, Folder, env.repoName);
      if existing.Some? && existing.value != "" {
        UpsertNode(env.repoId, folder, FolderName(folder), Folder, existing.value);
        return None;
      }
      error := SummariseNewFolder(env, folder);
    }

    /** A folder's cache miss: summarise its context, write the answer, upsert the row. */
    method SummariseNewFolder(env: Env, folder: string) returns (error: Option<string>)
      modifies this`nodes, this`nextId, this`calls, cache
      ensures (if error.None? then Done(Snapshot()) else Stopped(Snapshot(), error.value, folder))
              == FolderMiss(env, llm, old(Snapshot()), folder)
    {
      var r := SummariseFolderContext(env, folder);
      if r.Err? {
        return Some(r.error);
      }
      cache.Write(env.root, folder, Folder, r.value, env.repoName);
      UpsertNode(env.repoId, folder, FolderName(folder), Folder, r.value);
      return None;
    }

    /** The folder loop, deepest folder first; it stops at the first error. */
    method RunFolders(env: Env, folders: seq<Entry>) returns (error: Option<string>)
      modifies this`nodes, this`nextId, this`calls, this`task, cache
      ensures var o := FolderPhase(env, llm, old(Snapshot()), folders);
        && Snapshot() == o.st
        && (o.Done? <==> error.None?)
        && (o.Stopped? ==> error == Some(o.error) && task.message == ProcessingFolder(DisplayPath(o.at)))
      ensures task == old(task).(message := task.message)
    {
      var i := 0;
      while i < |folders|
        invariant 0 <= i <= |folders|
        invariant FolderPhase(env, llm, old(Snapshot()), folders[..i]) == Done(Snapshot())
        invariant task == old(task).(message := task.message)
      {
        var f := folders[i];
        FolderPhaseStep(env, llm, old(Snapshot()), folders, i, Snapshot());
        SetMessage(ProcessingFolder(DisplayPath(f.path)));
        error := SummariseFolder(env, f.path);
        if error.Some? {
          FolderErrorStops(env, llm, old(Snapshot()), folders, i);
          return;
        }
        i := i + 1;
      }
      assert folders[..|folders|] == folders;
      return None;
    }

    /** The `## Folder:` and `### File:` sections of the root context, built by one loop over the rows. */
    method CollectSections(env: Env, ns: seq<Node>) returns (folderSections: seq<string>, fileSections: seq<string>)
      ensures folderSections == Sections(env, cache.files, ns, Folder)
      ensures fileSections == Sections(env, cache.files, ns, File)
    {
      folderSections, fileSections := [], [];
      var i := 0;
      while i < |ns|
        invariant 0 <= i <= |ns|
        invariant folderSections == Sections(env, cache.files, ns[..i], Folder)
        invariant fileSections == Sections(env, cache.files, ns[..i], File)
      {
        SectionsStep(env, cache.files, ns, i, Folder);
        SectionsStep(env, cache.files, ns, i, File);
        var n := ns[i];
        var text := ReadNodeText(env, n);
        if text.Some? {
          if n.kind == Folder {
            folderSections := folderSections + ["## Folder: " + n.path + "\n" + text.value];
          } else {
            fileSections := fileSections + ["### File: " + n.path + "\n" + text.value];
          }
        }
        i := i + 1;
      }
      assert ns[..|ns|] == ns;
    }

    /** On the root's cache miss: the root context, built from the listing and the repository's rows, summarised. */
    method SummariseRootContext(env: Env) returns (r: Result<string, string>)
      modifies this`calls
      ensures r == RootAnswer(env, llm, old(Snapshot()))
      ensures calls == old(calls) + 1
    {
      var structure := BuildFolderStructure(if "" in env.listings then Some(env.listings[""]) else None);
      var folderSections, fileSections := CollectSections(env, NonRoot(nodes, env.repoId));
      r := Summarise(RootContext(structure, folderSections, fileSections), Folder);
    }

    /** The root row is updated (summary and name) or added. */
    method UpsertRoot(env: Env, summary: string)
      modifies this`nodes, this`nextId
      ensures Snapshot() == RootUpsert(env, old(Snapshot()), summary)
    {
      var found := FindRoot(nodes, env.repoId);
      if found.Some? {
        var i := found.value;
        nodes := nodes[i := nodes[i].(summary := Some(summary), name := RootName(env))];
      } else {
        nodes := nodes + [Node(nextId, env.repoId, None, "", RootName(env), Folder, Some(summary))];
        nextId := nextId + 1;
      }
    }

    /** Root synthesis: reuse the root text when there is a non-empty one, then update or add the root row. */
    method SummariseRoot(env: Env) returns (error: Option<string>)
      modifies this`nodes, this`nextId, this`calls, cache
      ensures (if error.None? then Done(Snapshot()) else Stopped(Snapshot(), error.value, ""))
              == RootStep(env, llm, old(Snapshot()))
    {
      var existing := Lookup(cache.files, RootKey(env));
      if existing.Some? && existing.value != "" {
        UpsertRoot(env, existing.value);
        return None;
      }
      error := SummariseNewRoot(env);
    }

    /** The root's cache miss: summarise the root context, write the answer, update or add the root row. */
    method SummariseNewRoot(env: Env) returns (error: Option<string>)
      modifies this`nodes, this`nextId, this`calls, cache
      ensures (if error.None? then Done(Snapshot()) else Stopped(Snapshot(), error.value, ""))
              == RootMiss(env, llm, old(Snapshot()))
    {
      var r := SummariseRootContext(env);
      if r.Err? {
        return Some(r.error);
      }
      cache.Write(env.root, "", Folder, r.value, env.repoName);
      UpsertRoot(env, r.value);
      return None;
    }

    /** A run with files, from "Processing {total} files..." to its end. */
    method RunInventory(env: Env, items: seq<Entry>, total: nat)
      requires total > 0 && task.progress == 0 && task.error == None && task.resultId == None
      modifies this`nodes, this`nextId, this`calls, this`task, this`progressLog, cache
      ensures var a := WithFiles(env, llm, old(Snapshot()), items, total);
        && Snapshot() == a.st && progressLog == old(progressLog) + a.trail
        && task == TaskRow(old(task.id), old(task.repoId), a.end)
    {
      SetMessage(ProcessingFiles(total));
      ghost var files := FilePhase(env, llm, Snapshot(), items, total);
      var processed := RunFiles(env, items, total);
      FileProgressBounds(0, 0, total);
      var folders := FolderOrder(items);
      SetMessage(ProcessingFolders(|folders|));
      RunFoldersAndRoot(env, files, total, folders, old(progressLog));
    }

    /** After the file loop: the folder loop, then the root, then the task's end. */
    method RunFoldersAndRoot(env: Env, ghost files: Progressed, total: nat, folders: seq<Entry>, ghost base: seq<nat>)
      requires total > 0 && Snapshot() == files.st && progressLog == base + files.trail
      requires task.progress == FileProgress(files.processed, total) && task.error == None && task.resultId == None
      modifies this`nodes, this`nextId, this`calls, this`task, this`progressLog, cache
      ensures var a := Finish(env, llm, files, total, FolderPhase(env, llm, files.st, folders));
        && Snapshot() == a.st && progressLog == base + a.trail
        && task == TaskRow(old(task.id), old(task.repoId), a.end)
    {
      var error := RunFolders(env, folders);
      if error.Some? {
        task := task.(status := Failed, error := error);
        return;
      }
      CompleteRoot(env, files, total, base);
    }

    /** The root and the task's end, once every folder is summarised. */
    method CompleteRoot(env: Env, ghost files: Progressed, total: nat, ghost base: seq<nat>)
      requires total > 0 && progressLog == base + files.trail && task.error == None && task.resultId == None
      modifies this`nodes, this`nextId, this`calls, this`task, this`progressLog, cache
      ensures var a := Finish(env, llm, files, total, Done(old(Snapshot())));
        && Snapshot() == a.st && progressLog == base + a.trail
        && task == TaskRow(old(task.id), old(task.repoId), a.end)
    {
      SetMessage(GeneratingSummary);
      SetProgress(90);
      assert progressLog == base + (files.trail + [90]);
      var error := SummariseRoot(env);
      if error.Some? {
        task := task.(status := Failed, error := error);
        return;
      }
      task := task.(status := Completed, progress := 100, message := AnalysisCompleted, resultId := Some(env.repoId));
      progressLog := progressLog + [100];
      assert progressLog == base + (files.trail + [90, 100]);
    }

    /** An inventory without files: the fixed root text is written and a root row added. */
    method RecordEmptyRepo(env: Env)
      modifies this`nodes, this`nextId, cache
      ensures Snapshot() == EmptyRepo(env, old(Snapshot()))
    {
      var text := EmptySummary(env.url);
      cache.Write(env.root, "", Folder, text, env.repoName);
      nodes := nodes + [Node(nextId, env.repoId, None, "", UrlName(env.url), Folder, Some(text))];
      nextId := nextId + 1;
    }

    /** The task row of the run is created, then the run goes from the clone to the task's end. */
    method AnalyseClone(taskId: nat, env: Env, clone: Result<seq<Entry>, string>)
      modifies this`nodes, this`nextId, this`calls, this`task, this`progressLog, cache
      ensures var a := Analyse(env, llm, old(Snapshot()), clone);
        && Snapshot() == a.st && progressLog == old(progressLog) + [0] + a.trail
        && task == TaskRow(taskId, env.repoId, a.end)
    {
      task := Task(taskId, env.repoId, Processing, 0, GettingRepository, None, None);
      progressLog := progressLog + [0];
      SetMessage(CloningRepository);
      if clone.Err? {
        task := task.(status := Failed, error := Some(clone.error));
        return;
      }
      var items := clone.value;
      var total := FileCount(items);
      if items == [] || total == 0 {
        RecordEmptyRepo(env);
        task := task.(status := Completed, progress := 100, resultId := Some(env.repoId));
        progressLog := progressLog + [100];
      } else {
        RunInventory(env, items, total);
      }
    }

    /**
     * `start_analysis(task_id, repo_url, depth, db, passphrase)`.  `cacheDir`
     * is the clone directory setting; `clone` is what cloning and
     * `get_file_tree` give (the inventory, or the text of the clone's
     * error); `disk` and `listings` are the clone's files and folders.
     * The repository row ends with the task's status, and a completed run
     * records the passphrase's crawl when a passphrase was given.
     */
    method Run(taskId: nat, url: string, passphrase: string, cacheDir: string,
               clone: Result<seq<Entry>, string>,
               disk: map<string, FileInfo>, listings: map<string, seq<DirEntry>>)
      modifies this, cache, usage
      ensures var reg := Register(old(repos), old(nextId), url);
        var env := RunEnv(cacheDir, url, reg.repos[reg.index].id, disk, listings);
        var a := Analyse(env, llm, old(Snapshot()).(nextId := reg.nextId), clone);
        && Snapshot() == a.st
        && progressLog == old(progressLog) + [0] + a.trail
        && task == TaskRow(taskId, env.repoId, a.end)
        && repos == reg.repos[reg.index := reg.repos[reg.index].(status := a.end.status)]
        && usage.rows == (if a.end.status == Completed && passphrase != ""
                          then AfterCrawl(settings, old(usage.rows), old(usage.nextId), passphrase, env.repoId)
                          else old(usage.rows))
    {
      var reg := Register(repos, nextId, url);
      repos, nextId := reg.repos, reg.nextId;
      var env := RunEnv(cacheDir, url, repos[reg.index].id, disk, listings);
      AnalyseClone(taskId, env, clone);
      repos := repos[reg.index := repos[reg.index].(status := task.status)];
      if task.status == Completed && passphrase != "" {
        usage.RecordCrawl(settings, passphrase, env.repoId);
      }
    }
  }
}
