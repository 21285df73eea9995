# Repository context engine: a verified model of its core

The system summarises a Git repository bottom-up. It asks a language-model
summariser for a summary of every file, then of every folder, deepest first,
then of the repository root. Each summary is stored as a sidecar `.md` file
beside the item it describes. That summary cache is the ground truth. A node
table mirrors it and feeds a lexical search, a question-answering context
builder, a tree view and a cache browser. Access is rationed by passphrases.

This project models that core in Dafny and proves what it promises.

- `analyzer.dfy` (module `Analyzer`) models `start_analysis`.
  - The pure functions `FileStep`, `FilePhase`, `FolderStep`, `FolderPhase`,
    `RootStep`, `Finish` and `Analyse` give the reference meaning of each
    phase over a `Store`: the cache files, the node table, the id counter
    and the summariser's call count.
  - The class `Analyzer` runs the same phases imperatively and is proved
    against those functions, method by method. Its fields are the
    repository table, the task row, the node table, the cache and the
    passphrase usage table.
  - The summariser is an oracle. It sees the number of calls made before,
    the text and the item kind, and answers with a summary or an exception
    text.
- `summary_files.dfy` models the sidecar key function and the cache's read,
  write and exists operations over a map from paths to texts.
- `search.dfy` models `search_summaries`. Scores are kept in half-units
  (0.5 is 1, 2.5 is 5). `stable_sort.dfy` is the stable sort that
  `list.sort` and `sorted` perform, with its proofs of order, permutation
  and stability.
- `qa.dfy` models the context and source selection of `answer_question`.
- `tree.dfy` models `build_tree` and the root selection of `get_tree`.
- `git_service.dfy` models:
  - the cache directory name;
  - the folder listing;
  - the size gate of `read_file_content`.
- `github_service.dfy` models `parse_github_url`. Each regular expression is
  modelled by what the backtracking matcher does with it.
- `browse.dfy` models:
  - `secure_path_join`, lexically over path parts;
  - the directory listing filter and the `has_summary` flag;
  - the `..` entry and the choice of summary.
- `passphrase.dfy` models the passphrase rules and the usage table.
- `paths.dfy`, `strings.dfy`, `sequences.dfy`, `wrappers.dfy` and
  `nodes.dfy` hold the shared vocabulary: pathlib paths, string and
  sequence helpers, `Option`/`Result`, and node rows.

Python's `Path.resolve()` is modelled lexically: `..` removes the previous
part and symbolic links are not followed. SQL `LIKE 'p/%'` and `contains`
are modelled as plain prefix and substring tests.

## Model

| member | source | states |
|---|---|---|
| SummaryFiles.FileKeyIsSibling | backend/services/summary_files.py:21-24 | A file `d/n` below the repository root is summarised in `d/n.md`, beside it |
| SummaryFiles.SidecarShape | backend/services/summary_files.py:23-24 | The sidecar of a path replaces its last part `n` by `n.md` and keeps the parent |
| SummaryFiles.KeyIgnoresKindBelowRoot | backend/services/summary_files.py:21-39 | Below the root, a file and a folder with the same path have the same key |
| SummaryFiles.SidecarInjective | backend/services/summary_files.py:23-24 | Different paths have different sidecars |
| SummaryFiles.FileKeysDistinct | backend/services/summary_files.py:21-24 | Two different items below the root never share a summary file |
| SummaryFiles.TopLevelKey | backend/services/summary_files.py:21-39 | A top-level item `n`, file or folder, is summarised in `n.md` at the top |
| SummaryFiles.SummaryPath | backend/services/summary_files.py:19-39 | Definition of `get_summary_file_path`: a file or a sub-folder gets its sidecar, the root `<repo_name>.md` or `README.md`; its properties are the key lemmas of this table |
| SummaryFiles.RootKeyUsesRepoName | backend/services/summary_files.py:27-30 | The root is summarised in `<repo_name>.md` at the top of the repository |
| SummaryFiles.RootKeyFallbackCollides | backend/services/summary_files.py:31-33 | Without a repository name, the root key is `README.md`. That is the file of a real top-level README.md, and also the key of a top-level folder `README` |
| SummaryFiles.RootKeyCollidesWithSameNamedItem | backend/services/summary_files.py:27-39 | The root key is also the key of a top-level item named like the repository |
| SummaryFiles.SummaryCache.Read | backend/services/summary_files.py:48-56 | `read_summary` gives a text exactly when `summary_exists` holds, and None otherwise |
| SummaryFiles.SummaryCache.Write | backend/services/summary_files.py:59-64 | After `write_summary(k, t)`: `read_summary(k)` gives `t` and `summary_exists(k)` holds. Every other key reads as before, and only the map entry at `k` changed |
| Passphrases.IsValidPassphrase | backend/services/passphrase_service.py:8-36 | Valid iff non-empty, and either the admin passphrase or the class repository name followed by one of 1, 2 or 3 |
| Passphrases.WithUsage | backend/services/passphrase_service.py:55-69 | After get-or-create, the passphrase has a usage row |
| Passphrases.GetOrCreateIdempotent | backend/services/passphrase_service.py:55-69 | An existing row is returned unchanged and no row is added; a second get-or-create adds nothing |
| Passphrases.CrawledCount | backend/services/passphrase_service.py:98-101 | The count of the passphrase's rows with a repository; zero exactly when there is none |
| Passphrases.Bumped | backend/services/passphrase_service.py:175-176 | The passphrase's first row gets one more question; every other row is unchanged |
| Passphrases.UsageTable.GetOrCreate | backend/services/passphrase_service.py:44-69 | The table becomes `WithUsage` of the old one; a row is inserted (new id drawn) only when none existed; the returned row belongs to the passphrase |
| Passphrases.UsageTable.CanCrawl | backend/services/passphrase_service.py:72-106 | The verdict is the crawl rule on the table before the call. The evaluator's row is got-or-created; invalid and admin passphrases leave the table alone |
| Passphrases.UsageTable.CanAsk | backend/services/passphrase_service.py:109-137 | The verdict is the question rule on the table before the call. The evaluator's row is got-or-created; invalid and admin passphrases leave the table alone |
| Passphrases.UsageTable.RecordCrawl | backend/services/passphrase_service.py:140-160 | No-op for admin; otherwise one row with the repository and 0 questions is appended |
| Passphrases.UsageTable.RecordQuestion | backend/services/passphrase_service.py:163-177 | No-op for admin; otherwise get-or-create, then that row's question count goes up by one |
| Passphrases.CrawlVerdict | backend/services/passphrase_service.py:72-106 | Definition of the crawl rule: invalid refused, admin allowed, an evaluator allowed while no row of its passphrase has a repository; `UsageTable.CanCrawl` computes it and `EvaluatorCrawlRule` states it |
| Passphrases.AskVerdict | backend/services/passphrase_service.py:109-137 | Definition of the question rule: invalid refused, admin allowed, an evaluator allowed below two questions; `UsageTable.CanAsk` computes it and `EvaluatorAsksTwice` exercises it |
| Passphrases.AfterCrawl | backend/services/passphrase_service.py:140-160 | Definition of the table after a crawl is recorded; `CrawledCountAppend` and `EvaluatorCrawlsOnce` state its effect |
| Passphrases.AfterQuestion | backend/services/passphrase_service.py:163-177 | Definition of the table after a question is recorded; `QuestionCounts` states its effect |
| Passphrases.CreatedRowIsNoCrawl | backend/services/passphrase_service.py:95-101 | The row get-or-create inserts does not count as a crawl |
| Passphrases.CrawledCountAppend | backend/services/passphrase_service.py:153-159 | Appending a crawl row of the passphrase raises its crawl count by exactly one; other rows do not change it |
| Passphrases.UsageOfAppend | backend/services/passphrase_service.py:55-57 | `.first()` still finds the same row after rows are appended |
| Passphrases.CreatedRowHasNoQuestions | backend/services/passphrase_service.py:60-64 | A created row starts at 0 questions, so get-or-create does not change the question count |
| Passphrases.EmptyNeverValid | backend/services/passphrase_service.py:22-23 | The empty passphrase is invalid and gets the invalid-passphrase message |
| Passphrases.DefaultPassphrases | backend/config.py:44-45 | With the default settings, `manthos-owner` is the valid admin passphrase. `ai-dev-tools-zoomcamp1` and `…3` are valid; `…4` and the bare name are not |
| Passphrases.InvalidRefused | backend/services/passphrase_service.py:87-88 | An invalid passphrase gets (false, invalid message) from both checks |
| Passphrases.AdminUnlimited | backend/services/passphrase_service.py:90-92 | Admin always gets (true, "") from both checks, and both recorders leave the table unchanged for admin |
| Passphrases.EvaluatorCrawlRule | backend/services/passphrase_service.py:94-106 | An evaluator may crawl iff no row of its passphrase carries a repository |
| Passphrases.EvaluatorCrawlsOnce | backend/services/passphrase_service.py:103-104 | After an evaluator's crawl is recorded, the next crawl is refused with the one-repository message |
| Passphrases.QuestionCounts | backend/services/passphrase_service.py:171-177 | Recording a non-admin question raises its count by exactly one |
| Passphrases.EvaluatorAsksTwice | backend/services/passphrase_service.py:132-137 | A fresh evaluator may ask, may ask again after one question, and is refused with the two-questions message after two |
| Tree.Children | backend/api/routes/tree.py:15 | The children are exactly the nodes whose parent is `p`, never more than the input |
| Tree.SummaryText | backend/api/routes/tree.py:24 | A missing summary is shown as "" and a present one as is |
| Tree.BuildEach | backend/api/routes/tree.py:18-26 | One tree node per child, in order |
| Tree.BuildEachShape | backend/api/routes/tree.py:18-26 | The i-th tree node copies the i-th child's name, type, path and summary text. Its children are `build_tree(nodes, child.id)` |
| Tree.BuildTreeShape | backend/api/routes/tree.py:13-28 | `build_tree(nodes, p)` has one node per child of `p`, in input order. Each carries the child's fields, and its children are built from the child's id |
| Tree.BuildTree | backend/api/routes/tree.py:13-28 | Definition of `build_tree(nodes, p)`: the tree nodes of the children of `p`; `BuildTreeShape` states its shape |
| Tree.NoChildrenNoTree | backend/api/routes/tree.py:15-28 | A parent without children gives the empty list |
| Tree.AcyclicNodesOf | backend/api/routes/tree.py:40 | Restricting the table to one repository keeps the parent links acyclic, which is what termination needs |
| Tree.SelectRoot | backend/api/routes/tree.py:45-59 | The first node with path "" and no parent; else the first node without parent; None iff no node lacks a parent |
| Tree.GetTreeErrors | backend/api/routes/tree.py:34-59 | 404 "Repository not found" for an unknown repository; "Repository tree not found" when it has no nodes. Success iff the repository exists and has a parentless node |
| Tree.GetTreeRoot | backend/api/routes/tree.py:61-71 | The answer is the selected root's path, name and summary text, with one child per node under the root |
| Tree.GetTree | backend/api/routes/tree.py:31-71 | Definition of `get_tree`: the three 404s in the source's order, else the root with its subtrees; `GetTreeErrors` and `GetTreeRoot` state them |
| Tree.FlatTableGivesLeafRoot | backend/api/routes/tree.py:52-71 | With no parent links at all, the tree is a root without children |
| Nodes.FindNode | backend/services/analyzer.py:267-270 | `.first()` of the rows with this repository and path: the lowest such index, None when there is none |
| Nodes.NodesOf | backend/api/routes/tree.py:40 | The rows of one repository, and only those |
| QA.Contributor | backend/services/qa_service.py:29-33 | A hit contributes a row of the repository with the hit's path, and only one with a non-empty summary |
| QA.HitSections | backend/services/qa_service.py:28-36 | As many sections as sources, and never more than the hits |
| QA.RootRow | backend/services/qa_service.py:40-44 | The first row with path "" and no parent in the repository, None iff there is none |
| QA.CollectSections | backend/services/qa_service.py:25-36 | The loop builds exactly the sections and sources of `HitSections` |
| QA.AnswerQuestion | backend/services/qa_service.py:9-61 | The sources are those of the selected context, never more than 5. The answer is the oracle's on the question and the sections joined by blank lines |
| QA.ContextBounds | backend/services/qa_service.py:28-47 | At most 5 sources, as many as sections |
| QA.QaContext | backend/services/qa_service.py:22-47 | Definition of the context of `answer_question`: the sections of the top five hits, or the root fallback when none contributes; `ContextBounds`, `FallbackToRoot` and `NothingToSay` state it |
| QA.HitSectionsShape | backend/services/qa_service.py:33-36 | Each section is `## File: <path>\n<summary>` of a row of the repository with that path and a non-empty summary |
| QA.HitSectionsSources | backend/services/qa_service.py:28-36 | Every source is the path of one of the hits considered |
| QA.FallbackToRoot | backend/services/qa_service.py:39-47 | With no contributing hit and a root summary, the context is `## Repository Overview\n<summary>` and sources are `["root"]` |
| QA.NothingToSay | backend/services/qa_service.py:39-50 | With neither a contributing hit nor a root summary, the context is "" and there are no sources |
| QA.UnmatchedQuestionFallsBack | backend/services/qa_service.py:22-47 | When no summary contains the question, search finds nothing and the root fallback decides |
| Search.LongWords | backend/services/embedding_service.py:69 | Exactly the query words longer than two characters; words are split at every character Python's `str.split()` treats as whitespace |
| Search.Tier | backend/services/embedding_service.py:66-75 | The score tier lies between 0.5 and 2.0 |
| Search.Score | backend/services/embedding_service.py:77-79 | Every score lies between 0.5 and 2.5 in steps of 0.5 |
| Search.PathBonus | backend/services/embedding_service.py:77-79 | The score exceeds the tier by 0.5 exactly when the lower-cased query occurs in the lower-cased path |
| Search.LowestTier | backend/services/embedding_service.py:72-75 | Tier 0.5 means there are long words and none occurs in the summary |
| Search.NoLongWords | backend/services/embedding_service.py:69 | Words of at most two characters are all dropped |
| Search.ShortQueryWordsVacuous | backend/services/embedding_service.py:69-70 | With no long words, "all words occur" holds vacuously: the tier is at least 1.5 |
| Search.Snippet | backend/services/embedding_service.py:84 | A prefix of the summary, of at most 300 characters, the whole summary when it is short |
| Search.Candidates | backend/services/embedding_service.py:46-53 | Exactly the rows with a summary containing the query, of the repository when one is given, in table order |
| Search.Take | backend/services/embedding_service.py:90 | `s[:n]`: a prefix of at most `n` elements, all of `s` when it is short |
| Search.Scored | backend/services/embedding_service.py:61-85 | One result per candidate, in candidate order |
| Search.ScoreAll | backend/services/embedding_service.py:57-85 | The loop produces exactly the scored candidates |
| Search.SearchSummaries | backend/services/embedding_service.py:31-90 | The results are the ranked candidates, at most `limit` of them |
| Search.ScoreGeTotalPreorder | backend/services/embedding_service.py:88 | "Score at least" is a total preorder, so the sort is well defined |
| Search.RankedSorted | backend/services/embedding_service.py:88 | The results are in descending score order |
| Search.RankedStable | backend/services/embedding_service.py:88 | Results with equal scores keep their retrieval order |
| Search.RankedFromCandidates | backend/services/embedding_service.py:46-85 | Every result is the scored form of a candidate row |
| Search.RankedBounds | backend/services/embedding_service.py:55-90 | At most `limit` results, drawn from at most `2*limit` candidates |
| Search.RankedResultsWellFormed | backend/services/embedding_service.py:64-85 | Each result has a score in 0.5..2.5 and a snippet of at most 300 characters |
| Search.CandidatesGetTopTier | backend/services/embedding_service.py:46-67 | With `contains` read as a literal, case-sensitive substring test, a candidate already contains the query, so its tier is 2.0 and its score 2.0 or 2.5 |
| Search.RankedScoresTopTiers | backend/services/embedding_service.py:46-79 | With `contains` read as a literal, case-sensitive substring test, every returned score is 2.0 or 2.5 and the lower tiers are unreachable |
| Search.NoCandidates | backend/services/embedding_service.py:46-49 | Without a summary containing the query there are no candidates |
| Search.Ranked | backend/services/embedding_service.py:46-90 | Definition of `search_summaries`: the first `2*limit` candidates, scored, sorted by score descending (stably), cut to `limit`; proved about in `RankedResultsWellFormed`, `RankedScoresTopTiers` and the candidate lemmas |
| StableSort.Sort | backend/services/analyzer.py:197 | The sorted list is a permutation of the input |
| StableSort.SortSorted | backend/services/analyzer.py:197 | The result is ordered by the key |
| StableSort.SortStable | backend/services/embedding_service.py:88 | Elements with equal keys keep their input order |
| GitService.UrlPath | backend/services/git_service.py:23 | `urlparse(url).path` never holds `?` or `#` |
| GitService.LastSlash | backend/services/git_service.py:23 | The position of the last `/`; no `/` comes after it |
| GitService.DropParams | backend/services/git_service.py:23 | Cutting `;params` from the last segment keeps a prefix of the path, and changes nothing when that segment has no `;` |
| GitService.HttpsScheme | backend/services/git_service.py:23 | An `https:` URL has the scheme `https` |
| GitService.HttpsUsesParams | backend/services/git_service.py:23 | The `https` scheme is one whose last segment loses its `;params` |
| GitService.LastSlashAt | backend/services/git_service.py:23 | In `a/b` with no `/` in `b`, the last `/` is the one after `a` |
| GitService.ParamsDropped | backend/services/git_service.py:23 | `/owner/repo;params` loses `;params` |
| GitService.TrailingSlashKeepsParams | backend/services/git_service.py:23 | A path ending in `/` keeps every `;` |
| GitService.Segments | backend/services/git_service.py:25 | The non-empty `/`-free pieces of the path |
| GitService.HttpsUrlPath | backend/services/git_service.py:23 | The path of `https://host/…` is `/…` less the `;params` of its last segment, and `/…` itself when that segment has no `;` |
| GitService.SegmentsOfOwnerRepo | backend/services/git_service.py:25 | `/owner/repo` with or without a trailing `/` has the segments owner and repo |
| GitService.UrlOwnerRepoPath | backend/services/git_service.py:23-25 | `https://host/owner/r[/]` has the segments owner and r, for segments free of `/ ? # ;` |
| GitService.ParamsUrlPath | backend/services/git_service.py:23 | `https://host/owner/repo;params` has the path `/owner/repo` |
| GitService.ParamsUrlSegments | backend/services/git_service.py:23-25 | `https://host/owner/repo;params` has the segments owner and repo |
| GitService.SlashParamsUrlSegments | backend/services/git_service.py:23-25 | `https://host/owner/r/`, with `;` allowed in `r`, has the segments owner and r |
| GitService.OwnerRepoSegments | backend/services/git_service.py:23-25 | A `.git` suffix stays on the last segment |
| GitService.CacheNameOfTwoSegments | backend/services/git_service.py:26-32 | Two segments `a`, `b` give `a-b` with `.git` removed |
| GitService.CacheNameUsesLastTwo | backend/services/git_service.py:26-27 | With more segments only the last two are used |
| GitService.CacheNameOfOneSegment | backend/services/git_service.py:28-32 | A single segment gives itself without its `.git` |
| GitService.NoSegmentsUnknown | backend/services/git_service.py:28-32 | No segment gives "unknown" |
| GitService.CacheNameUnknown | backend/services/git_service.py:22-32 | `https://host/` is cached as "unknown" |
| GitService.RepoCacheName | backend/services/git_service.py:22-32 | Definition of the cache directory name: the last two segments joined by `-`, the one segment, or "unknown", with every `.git` removed; proved about in the `CacheName…` lemmas |
| GitService.RepoCachePath | backend/services/git_service.py:34-36 | Definition: the cache directory joined with that name |
| GitService.CacheNameOwnerRepo | backend/services/git_service.py:22-36 | `https://host/owner/repo`, with an optional `.git` and `/`, is cached as `owner-repo` |
| GitService.CacheNameDropsParams | backend/services/git_service.py:22-32 | `https://host/owner/repo;params` is cached as `owner-repo`: the params are dropped |
| GitService.CacheNameKeepsParamsBeforeSlash | backend/services/git_service.py:22-32 | `https://host/owner/repo;params/` is cached as `owner-repo;params`: behind a trailing `/` the params stay |
| GitService.ReplaceAbsent | backend/services/git_service.py:32 | Removing `.git` from a name without it changes nothing |
| GitService.TrailingGitRemoved | backend/services/git_service.py:31-32 | A trailing `.git` is removed |
| GitService.GitSuffixDropped | backend/services/git_service.py:31-32 | A name with or without `.git` appended becomes the bare name |
| GitService.GitRemovedInside | backend/services/git_service.py:32 | `.git` inside the name is removed too, not only as a suffix |
| GitService.GitRemovedInsideExample | backend/services/git_service.py:32 | Worked example of `GitRemovedInside`: `my.github.io` becomes `myhub.io` |
| GitService.GitRemovalCanLeaveGit | backend/services/git_service.py:31-32 | One pass can leave `.git` behind: `x.g.gitit` becomes `x.git` |
| GitService.KeyLeTotalPreorder | backend/services/git_service.py:99 | The key `(is_file, name.lower())` is a total preorder |
| GitService.KeyLe | backend/services/git_service.py:99 | Definition of the order of the key `(is_file, name.lower())`: non-files first, then by lower-cased name; `KeyLeTotalPreorder` proves it a total preorder |
| GitService.Lines | backend/services/git_service.py:101-109 | At most one line per entry |
| GitService.ShownEntries | backend/services/git_service.py:101-104 | Only entries not starting with `.` and not ending with `.md` are shown |
| GitService.ShownEntriesMembers | backend/services/git_service.py:101-104 | Exactly the listed entries that are shown |
| GitService.LinesAreShownEntries | backend/services/git_service.py:106-109 | One line per shown entry: `├── name`, with `/` after a directory name |
| GitService.ShownEntriesSorted | backend/services/git_service.py:99-104 | Filtering keeps the sort order |
| GitService.ShownSortedMembers | backend/services/git_service.py:99-104 | The shown entries are the filtered listing, directories first, each group by lower-cased name |
| GitService.FinalLinesShape | backend/services/git_service.py:113-116 | Every line but the last is its shown entry's line, and the last one starts with `└── ` |
| GitService.LastLineCorner | backend/services/git_service.py:116 | Replacing `├──` in a listing line makes it start with `└── ` |
| GitService.FolderLinesShape | backend/services/git_service.py:99-116 | The lines are the shown entries in sorted order; all but the last start with `├──`, the last with `└──` |
| GitService.BuildFolderStructure | backend/services/git_service.py:90-118 | The loop builds exactly the folder structure text that `FolderLinesShape` and `FolderStructureEmpty` describe |
| GitService.FolderStructureEmpty | backend/services/git_service.py:92-118 | The text is "" iff the folder is missing or nothing in it is shown |
| GitService.FolderStructure | backend/services/git_service.py:90-118 | Definition of `get_folder_structure`: "" for a missing folder, else the sorted, filtered lines with the last corner rewritten, joined by newlines; `BuildFolderStructure` computes it and `FolderLinesShape` and `FolderStructureEmpty` describe it |
| GitService.ReadFileContent | backend/services/git_service.py:151-175 | A text is returned only when the file exists and reads as that text |
| GitService.SizeGate | backend/services/git_service.py:166-168 | A file larger than the cap gives None; one of exactly the cap's size is read |
| GitService.OversizedFileExample | backend/tests/unit/test_git_service.py:21-31 | Worked example of `SizeGate`, the repository's own test case: a 2 MB file with a 1 MB cap gives None. With no cap, 1,000,000 bytes is the limit |
| GitService.CapMonotone | backend/services/git_service.py:162-168 | Raising the cap never turns a successful read into None |
| GithubService.LazyRepo | backend/services/github_service.py:19 | The lazy group: a non-empty `/`-free prefix, followed by an allowed tail |
| GithubService.MatchHere | backend/services/github_service.py:19 | A match gives a non-empty owner and repository without `/` |
| GithubService.Search | backend/services/github_service.py:24 | `re.search` gives the same guarantees |
| GithubService.ParseGithubUrl | backend/services/github_service.py:7-30 | A returned owner or repository is non-empty and has no `/` |
| GithubService.SearchFinds | backend/services/github_service.py:24 | A match at some position means the search succeeds |
| GithubService.SearchWitness | backend/services/github_service.py:24 | A successful search is the match at some position |
| GithubService.FirstWebMatch | backend/services/github_service.py:23-28 | The parse is the leftmost match of the first pattern |
| GithubService.ParseFromWeb | backend/services/github_service.py:23-28 | When the first pattern matches, its groups are returned |
| GithubService.RStripWithoutSlash | backend/services/github_service.py:27 | `rstrip('/')` leaves a `/`-free repository name unchanged |
| GithubService.WebMatchHere | backend/services/github_service.py:19 | `github.com[:/]owner/repo` plus an allowed suffix matches as (owner, repo) |
| GithubService.LazyFindsName | backend/services/github_service.py:19 | The lazy group stops right before `.git`, `/` or the end |
| GithubService.HttpsHostMatch | backend/services/github_service.py:19 | In `https://github.com/owner/repo…` the match starts at the host |
| GithubService.HttpsMatchParsed | backend/services/github_service.py:23-28 | Nothing before the host matches, so the host match is the answer |
| GithubService.NoMatchInHttpsPrefix | backend/services/github_service.py:19 | No match starts inside `https://github.com/` except at the host |
| GithubService.HttpsRoundTrip | backend/services/github_service.py:18-28 | `https://github.com/owner/repo`, optionally with `.git` and/or `/`, parses to (owner, repo) |
| GithubService.ScpHostMatch | backend/services/github_service.py:19 | `git@github.com:owner/repo…` is matched by the first pattern at the host |
| GithubService.ScpMatchParsed | backend/services/github_service.py:23-28 | Nothing before the host matches, so the host match is the answer |
| GithubService.NoMatchAtScpUser | backend/services/github_service.py:19 | No match starts inside `git@` |
| GithubService.ScpRoundTrip | backend/services/github_service.py:18-28 | `git@github.com:owner/repo[.git]` parses to (owner, repo) |
| GithubService.LazyRepoSshToWeb | backend/services/github_service.py:19-20 | Every tail the second pattern accepts the first accepts too |
| GithubService.SshMatchGivesWebMatch | backend/services/github_service.py:19-20 | Where the second pattern matches, the first matches 4 characters later |
| GithubService.SshPatternIsDead | backend/services/github_service.py:18-28 | The second pattern never decides a result: any parse comes from the first |
| GithubService.SearchWithoutHost | backend/services/github_service.py:19 | Without `github.com` the first pattern matches nowhere |
| GithubService.NoHostNoResult | backend/services/github_service.py:19-30 | A URL without `github.com` gives None |
| GithubService.NotTail | backend/services/github_service.py:19 | A non-empty name before a URL suffix is not itself an allowed tail |
| GithubService.NotTailWithSlash | backend/services/github_service.py:19 | A tail holding `/` plus a name is not allowed |
| GithubService.LazyStopsAtSlash | backend/services/github_service.py:19 | The repository group cannot run into a third segment |
| GithubService.NoMatchAtHost | backend/services/github_service.py:19 | `github.com/a/b/c` does not match at the host |
| GithubService.NoMatchAtNonG | backend/services/github_service.py:19 | No match starts at a character other than `g` |
| GithubService.NoMatchInside | backend/services/github_service.py:19 | No match starts inside text without `github.com` |
| GithubService.NoMatchInTail | backend/services/github_service.py:19 | No match starts in a path tail without `github.com` |
| GithubService.NoMatchAtHttpsHost | backend/services/github_service.py:19 | Three segments after the host defeat the match at the host |
| GithubService.NoWebMatchInThreeSegments | backend/services/github_service.py:19 | `https://github.com/a/b/c` matches nowhere |
| GithubService.NoWebMatchRejected | backend/services/github_service.py:23-30 | When the first pattern matches nowhere, the result is None |
| GithubService.ThreeSegmentsRejected | backend/services/github_service.py:18-30 | More than two segments after the host gives None |
| Browse.Collapse | backend/api/routes/browse.py:36 | Without `..` resolving only appends the parts |
| Browse.CollapseKeepsDotDotOut | backend/api/routes/browse.py:36 | A resolved path never contains `..` |
| Browse.Resolve | backend/api/routes/browse.py:26 | `resolve()` gives an absolute path without `..` |
| Browse.ResolveIdle | backend/api/routes/browse.py:36 | Resolving a resolved path changes nothing |
| Browse.RelativeTo | backend/api/routes/browse.py:39-42 | `relative_to` succeeds iff the target lies under the base, and then base + relative = target |
| Browse.SecurePathJoin | backend/api/routes/browse.py:14-44 | 400 iff some part is `..` or starts with `/`. Otherwise, a result is under the resolved base and free of `..` |
| Browse.SecureJoin | backend/api/routes/browse.py:14-44 | Definition of what `secure_path_join` answers: 400 for a bad part, else the resolved join when it lies under the resolved base, else 403; `SecurePathJoin` computes it |
| Browse.JoinAllPlain | backend/api/routes/browse.py:29-33 | Joining plain parts appends them |
| Browse.NoBadPart | backend/api/routes/browse.py:30-32 | Plain parts never trigger the 400 |
| Browse.PlainPartsStayInside | backend/api/routes/browse.py:14-44 | Plain parts join to the resolved base followed by the parts |
| Browse.TraversalJoins | backend/api/routes/browse.py:33 | A part `../name` passes the part check and is joined as `..`, `name` |
| Browse.ClimbCollapses | backend/api/routes/browse.py:36 | Resolving `…/b/../name` gives `…/name` |
| Browse.InnerTraversalRefused | backend/api/routes/browse.py:36-42 | `../sibling` escapes the base and is refused with 403 |
| Browse.DotDotRequestRefused | backend/api/routes/browse.py:78-81 | A request path with a `..` segment is refused with 400 |
| Browse.NameLeTotalPreorder | backend/api/routes/browse.py:105 | Ordering entries by name is a total preorder |
| Browse.Visible | backend/api/routes/browse.py:105-154 | Exactly the entries that are not hidden |
| Browse.Listed | backend/api/routes/browse.py:105-199 | At most one row per entry. Rows are built by `ItemOf`, the corrected row builder of the finding below, not by lines 156-176 as written |
| Browse.ListFolder | backend/api/routes/browse.py:100-199 | The loop builds exactly the rows of the visible entries in name order, each by the corrected `ItemOf` |
| Browse.ListedIndexed | backend/api/routes/browse.py:105-176 | The i-th row is built from the i-th visible entry |
| Browse.ListedMembers | backend/api/routes/browse.py:105-176 | A row is listed iff it comes from a visible entry |
| Browse.VisibleSorted | backend/api/routes/browse.py:105 | Filtering keeps the name order |
| Browse.ListedInNameOrder | backend/api/routes/browse.py:105 | Rows come in name order |
| Browse.DotEntriesNeverListed | backend/api/routes/browse.py:106-111 | No listed name starts with `.` |
| Browse.NoDotDotListed | backend/api/routes/browse.py:106-111 | The listing itself never holds `.` or `..` |
| Browse.RootSummaryNeverListed | backend/api/routes/browse.py:119-123 | A listed `<repo_name>.md` can only be a folder, never the root summary file |
| Browse.SidecarsHidden | backend/api/routes/browse.py:126-154 | `X.md` is hidden when a file `X` (not `*.md.md`) or a folder `X` lies beside it |
| Browse.PlainMarkdownShown | backend/api/routes/browse.py:118-154 | A `.md` file without such a sibling, and not the root summary, is listed |
| Browse.ReadmeListed | backend/api/routes/browse.py:113-154 | Worked example of `PlainMarkdownShown`: a plain README.md beside `main.py` is listed |
| Browse.RelativeItem | backend/api/routes/browse.py:157 | `relative_to` of an item of the requested folder gives the folder's parts followed by the item's name |
| Browse.ResolvedItem | backend/api/routes/browse.py:157 | The resolved item is the resolved cache path, the folder parts and the name |
| Browse.ItemOfHasSummary | backend/api/routes/browse.py:156-176 | A row's `path` is its path in the repository and `has_summary` is the existence of its summary key |
| Browse.ItemOf | backend/api/routes/browse.py:156-176 | The corrected row builder of the finding below: both sides resolved before `relative_to`; `ItemOfHasSummary` states its row |
| Browse.ItemAsWritten | backend/api/routes/browse.py:156-195 | The row builder as written: the resolved item against the cache path as given, with the fallback row on failure; `AsWrittenAtRoot` and `RelativeCacheDropsSummaries` state it |
| Browse.AsWrittenAtRoot | backend/api/routes/browse.py:156-176 | At the root, the code as written gives the intended rows |
| Browse.RelativeCacheDropsSummaries | backend/api/routes/browse.py:156-195 | As written, with a relative cache directory every row below the root takes the fallback with `has_summary` false |
| Browse.SummaryLostBelowRoot | backend/api/routes/browse.py:156-195 | Below the root, an item whose summary exists is flagged false as written and true once both paths are resolved |
| Browse.RequestParts | backend/api/routes/browse.py:80 | The non-empty `/`-free pieces of the request path |
| Browse.ParentDropsLastSegment | backend/api/routes/browse.py:236-243 | The `..` entry's path drops the last segment; "" for a single segment |
| Browse.ParentPath | backend/api/routes/browse.py:236-243 | Definition of the `..` entry's path; `ParentDropsLastSegment` states it |
| Browse.SummarySelection | backend/api/routes/browse.py:209-233 | Below the root the folder's own non-empty summary, at the root the root summary |
| Browse.ShownSummary | backend/api/routes/browse.py:209-233 | Definition of `folder_summary or root_summary`; `SummarySelection` states it |
| Browse.FolderPageShape | backend/api/routes/browse.py:235-258 | Below the root `..` comes first, then the listing in order; at the root the path is `/` and there is no `..` |
| Browse.FolderViewOf | backend/api/routes/browse.py:235-258 | Definition of the folder page; `FolderPageShape` states it |
| Browse.BrowsePath | backend/api/routes/browse.py:76-258 | A refused path gives the guard's error; a folder gives its page, whose rows come from the corrected `ItemOf` |
| Analyzer.Truthy | backend/services/analyzer.py:132 | A cached text counts only when present and non-empty |
| Analyzer.Lookup | backend/services/analyzer.py:293-299 | A cache lookup is present exactly when the key is cached, and then gives the cached text |
| Analyzer.Upsert | backend/services/analyzer.py:266-286 | The upsert touches neither the cache nor the call count |
| Analyzer.UpsertReplacesOrInserts | backend/services/analyzer.py:266-286 | The first row with (repo, path) gets the new summary and nothing else changes, or exactly one new row is appended. Afterwards the row found has the summary |
| Analyzer.FindNodeAt | backend/services/analyzer.py:267-270 | The query finds the first matching row |
| Analyzer.FileCount | backend/services/analyzer.py:75 | `total_files` never exceeds the inventory |
| Analyzer.FileProgressBounds | backend/services/analyzer.py:180-185 | File progress `processed*80 div total` is monotone in `processed` and at most 80; 0 at the start and 80 at the end |
| Analyzer.FileProgress | backend/services/analyzer.py:180-184 | Definition of the file progress `processed*80 div total`; `FileProgressBounds` states its bounds |
| Analyzer.FileStep | backend/services/analyzer.py:116-193 | Reference meaning of one file of the loop: skipped without content, a non-empty cached text reused, else summarised and written; the `File…` lemmas state each case |
| Analyzer.FilePhase | backend/services/analyzer.py:116-193 | At most `total_files` counted; one progress value per counted file, the k-th being `k*80 div total` |
| Analyzer.FilePhaseStep | backend/services/analyzer.py:116-193 | The loop after one more entry is that entry's step |
| Analyzer.FileWithoutContentSkipped | backend/services/analyzer.py:120-122 | A file without content changes nothing and is not counted |
| Analyzer.FileCacheHit | backend/services/analyzer.py:128-135 | A non-empty cached file text is reused, with no call and no write, and the file's row gets it |
| Analyzer.FileErrorSkipped | backend/services/analyzer.py:189-193 | A summariser error on a file uses one call, changes nothing else and is not counted |
| Analyzer.CachedFilePhase | backend/services/analyzer.py:128-135 | With every file cached, the file loop neither writes nor calls |
| Analyzer.DeeperFirstTotalPreorder | backend/services/analyzer.py:197 | "At least as many slashes" is a total preorder |
| Analyzer.Folders | backend/services/analyzer.py:196 | Exactly the folder entries |
| Analyzer.FolderOrderDeepestFirst | backend/services/analyzer.py:196-197 | Folders are visited by descending `/` count, each as often as in the inventory, and equal depths keep inventory order |
| Analyzer.FolderOrder | backend/services/analyzer.py:196-197 | Definition of the folder order: the folders stably sorted deepest first; `FolderOrderDeepestFirst` states it |
| Analyzer.Descendants | backend/services/analyzer.py:220-223 | The rows of the repository whose path starts with `folder/` |
| Analyzer.ChildLines | backend/services/analyzer.py:232-240 | At most one line per child row |
| Analyzer.FolderContextShape | backend/services/analyzer.py:226-245 | Structure and child sections in this order, joined by a blank line, or the one present alone. `Folder: <path>` when both are empty |
| Analyzer.FolderContext | backend/services/analyzer.py:226-245 | Definition of the folder context; `FolderContextShape` states it |
| Analyzer.FolderStep | backend/services/analyzer.py:208-286 | Reference meaning of one folder: a non-empty cached text reused, else summarised, written and upserted, or the error; `FolderCacheHit`, `FolderCacheMiss` and `FolderErrorStops` state it |
| Analyzer.FolderPhaseStep | backend/services/analyzer.py:202-286 | The folder loop after one more folder is that folder's step |
| Analyzer.FolderCacheHit | backend/services/analyzer.py:210-214 | A non-empty cached folder text is reused verbatim, with no call and no write, then upserted |
| Analyzer.FolderCacheMiss | backend/services/analyzer.py:215-286 | A missing or empty cached folder text costs one call. On success the text is written to the folder's key only, and the folder's row carries it; on error the run stops at this folder |
| Analyzer.CachedFolderPhase | backend/services/analyzer.py:210-214 | With every folder cached, the folder loop finishes without writes or calls |
| Analyzer.FolderErrorStops | backend/services/analyzer.py:255-264 | The first folder error ends the folder loop there |
| Analyzer.NonRoot | backend/services/analyzer.py:308-311 | The rows of the repository except those with path "" |
| Analyzer.Sections | backend/services/analyzer.py:317-329 | At most one section per row |
| Analyzer.SectionsStep | backend/services/analyzer.py:317-329 | The sections of one more row add that row's section |
| Analyzer.RootContextFallback | backend/services/analyzer.py:343-347 | With nothing to say the fixed text is used, and the root context is never blank |
| Analyzer.RootContextIgnoresRoot | backend/services/analyzer.py:308-311 | Root rows and other repositories' rows do not affect the root context |
| Analyzer.RootContext | backend/services/analyzer.py:331-347 | Definition of the root context; `RootContextFallback` proves it never blank |
| Analyzer.RootUpsert | backend/services/analyzer.py:368-389 | The root upsert touches neither the cache nor the call count |
| Analyzer.RootUpsertLeavesRoot | backend/services/analyzer.py:368-389 | Afterwards the first root row carries the summary and the root's name |
| Analyzer.RootStepLeavesRoot | backend/services/analyzer.py:293-389 | After the root step the root key is cached and the root row carries exactly that text |
| Analyzer.RootStep | backend/services/analyzer.py:293-389 | Reference meaning of the root step: a non-empty cached root text reused, else the root context summarised and written; `RootStepLeavesRoot` states its result |
| Analyzer.EmptyRepo | backend/services/analyzer.py:78-96 | Definition of the empty-repository writes; `EmptyRepositoryOutcome` states them |
| Analyzer.Finish | backend/services/analyzer.py:288-421 | Reference meaning of the end of a run with files: a folder or root error fails the task with its message, else it completes at 100; `FinishEnds` and `FinishTrail` state it |
| Analyzer.Analyse | backend/services/analyzer.py:51-421 | Reference meaning of a whole run from task creation: a clone error, an empty repository, or the file, folder and root phases; `ProgressNeverDecreases`, `CacheOnlyGrows`, `RunEnds` and `FullyCachedRunMakesNoCall` are proved about it and `Analyzer.AnalyseClone` computes it |
| Analyzer.FileTrail | backend/services/analyzer.py:180-186 | The file phase's values, then 90, then 100, never decrease and stay at most 100 |
| Analyzer.FileValues | backend/services/analyzer.py:180-186 | The file phase's values never decrease and stay at most 80 |
| Analyzer.FinishTrail | backend/services/analyzer.py:288-396 | From the file loop to the end, progress never decreases |
| Analyzer.ProgressNeverDecreases | backend/services/analyzer.py:56-396 | Every progress value of a run, from the initial 0, is non-decreasing and at most 100, and the last is the task's final progress |
| Analyzer.CacheOnlyGrows | backend/services/analyzer.py:403-427 | No cache file is ever removed, even by a failed run |
| Analyzer.FullyCachedRunMakesNoCall | backend/services/analyzer.py:109-396 | With every file, folder and the root cached, the run completes with no call. With at least one file, the cache is left unchanged |
| Analyzer.EmptyRepositoryOutcome | backend/services/analyzer.py:78-107 | An inventory without files writes the fixed root text and adds one root row. The task completes at 100 with result the repository, and no call is made |
| Analyzer.FinishEnds | backend/services/analyzer.py:391-421 | A run with files ends completed (100, result set, no error) or failed (error set, no result) |
| Analyzer.RunEnds | backend/services/analyzer.py:403-421 | Every run ends consistently; a clone error fails it at 0 with the error text |
| Analyzer.Register | backend/services/analyzer.py:38-49 | The table only grows. The row with the URL is set to processing, and other rows are unchanged |
| Analyzer.RegisterOnce | backend/services/analyzer.py:38-49 | Registering the same URL again reuses the row and its id |
| Analyzer.Analyzer.Summarise | backend/services/analyzer.py:148-150 | The oracle's answer for this call number; the count goes up by one |
| Analyzer.Analyzer.UpsertNode | backend/services/analyzer.py:266-286 | The node table becomes the upsert of the old one |
| Analyzer.Analyzer.SetProgress | backend/services/analyzer.py:185 | Only the task's progress changes, and the value is logged |
| Analyzer.Analyzer.SummariseFile | backend/services/analyzer.py:122-178 | One file with content: the state and whether it counts are the file step's |
| Analyzer.Analyzer.SummariseNewFile | backend/services/analyzer.py:136-178 | A cache miss: summarise, write, upsert, as the file miss says |
| Analyzer.Analyzer.ProcessEntry | backend/services/analyzer.py:116-193 | One entry of the loop: the state, the count and the logged progress are the reference step's |
| Analyzer.Analyzer.RunFiles | backend/services/analyzer.py:109-193 | The file loop reaches the file phase's state, count and progress values; the task's progress is that of the last counted file |
| Analyzer.Analyzer.ReadNodeText | backend/services/analyzer.py:318-323 | A row's summary, or its cached text, and never an empty one |
| Analyzer.Analyzer.CollectChildLines | backend/services/analyzer.py:232-240 | The loop builds exactly the child lines |
| Analyzer.Analyzer.SummariseFolderContext | backend/services/analyzer.py:216-261 | The oracle's answer on the folder context, one call |
| Analyzer.Analyzer.SummariseFolder | backend/services/analyzer.py:208-286 | One folder: state and error are the folder step's |
| Analyzer.Analyzer.SummariseNewFolder | backend/services/analyzer.py:215-286 | A folder cache miss: state and error are the folder miss's |
| Analyzer.Analyzer.RunFolders | backend/services/analyzer.py:202-286 | The folder loop reaches the folder phase's outcome. On error the message names the failing folder; only the task's message changes |
| Analyzer.Analyzer.CollectSections | backend/services/analyzer.py:314-329 | The loop builds exactly the folder and file sections |
| Analyzer.Analyzer.SummariseRootContext | backend/services/analyzer.py:304-362 | The oracle's answer on the root context, one call |
| Analyzer.Analyzer.UpsertRoot | backend/services/analyzer.py:368-389 | The node table becomes the root upsert of the old one |
| Analyzer.Analyzer.SummariseRoot | backend/services/analyzer.py:293-389 | The root: state and error are the root step's |
| Analyzer.Analyzer.SummariseNewRoot | backend/services/analyzer.py:303-389 | A root cache miss: state and error are the root miss's |
| Analyzer.Analyzer.RecordEmptyRepo | backend/services/analyzer.py:80-96 | The empty-repository writes: the fixed root text and a new root row |
| Analyzer.Analyzer.CompleteRoot | backend/services/analyzer.py:288-401 | From the end of the folder loop: the store, the logged progress and the task row are those of `Finish` |
| Analyzer.Analyzer.RunFoldersAndRoot | backend/services/analyzer.py:195-401 | From the end of the file loop: the store, progress log and task row are those of `Finish` on the folder phase |
| Analyzer.Analyzer.RunInventory | backend/services/analyzer.py:109-401 | A non-empty inventory: the store, progress log and task row are those of the reference run |
| Analyzer.Analyzer.AnalyseClone | backend/services/analyzer.py:51-421 | From task creation on, the store, the logged progress (0 first) and the task row are those of `Analyse` |
| Analyzer.Analyzer.Run | backend/services/analyzer.py:25-427 | A whole run: the repository is registered and ends with the task's status. The store, progress and task are those of `Analyse`, and a completed run with a passphrase records a crawl |

## Left out

- The language-model client, prompts and call logging are left out. The summariser is an oracle that counts its calls; the final answer of `answer_question` is an oracle too.
- `create_embedding` and every `embedding` column are left out. They use MD5 and floats, and the analyzer's use of them is in the damaged block.
- Cloning and `get_file_tree` are git I/O. A run takes the inventory, or the clone's error text, as input. When an update fails, `clone_repository` may delete the cached directory and clone again. The model takes the cache as it stands after the clone.
- `get_repository_size` and the API route layer (analyze, qa, search, status, cache, main) are left out. They are plumbing around the core.
- Database sessions, commits and rollbacks are not modelled; the tables are sequences updated in place. A rollback in the failure path of `start_analysis` could drop the uncommitted node rows of the phase that failed. The model keeps them.
- Analyzer.Analyzer.Run: the task table is modelled as the row of the latest run (`task`). Earlier runs' rows are not kept.
- Analyzer.Analyzer.Run: the repository's final status is set from the task's status at the end. The source sets it at several points of the same run.
- Analyzer.FileProgress: progress is `processed*80 div total` in integers. The source computes `int((processed / total_files) * 80)` in floating point, which can come out one lower when rounding puts the product just below a whole number.
- Analyzer.Analyse: any exception other than the clone's and the summariser's is not modelled. Examples are a failing cache write or a database error. Exceptions from `read_text` inside `read_summary` count as a missing summary, as the source does.
- Analyzer.Analyzer.SummariseFile: the damaged per-file block (backend/services/analyzer.py:146-158) is modelled as its stated intent. That is: reuse a cached text without a call, and summarise and write on a miss.
- The `depth` argument of `start_analysis` is not modelled; the source never reads it.
- `LIKE 'p/%'` and `contains` are plain prefix and substring tests. Their wildcard and case rules are not modelled.
- Search.CandidatesGetTopTier: the source's `contains` is SQL `LIKE '%query%'` without escaping. With the default SQLite database `_` and `%` in the query are wildcards and ASCII letters match either case. A candidate may then miss the literal, lower-cased test of the scorer: the query `a_c` selects a summary `abc`, which scores 0.5. The model's candidates contain the query literally, so it promises the top tier only for them.
- Search.RankedScoresTopTiers: for the same reason the source can return the lower tiers 0.5, 1.0 and 1.5 (before the path bonus); the model's search returns only 2.0 and 2.5.
- GitService.UrlPath: `urlsplit` first strips leading control characters and spaces and removes every tab and newline; the model takes the URL as given.
- Strings.Lower: Python's `str.lower()` lower-cases every Unicode letter, the model only `A`..`Z`. `Search.LongWords`, `Search.PathBonus`, `Search.CandidatesGetTopTier`, `Search.RankedScoresTopTiers`, `GitService.KeyLe` and `GitService.ShownSortedMembers` use that ASCII `lower()`, so they differ from the source on non-ASCII letters, as the lines below say.
- Search.LongWords: words are split at Python's whitespace set, but the query is lower-cased first with the ASCII `lower()` of `Strings.Lower`.
- Search.PathBonus: `Über` in the query does not match `über` in the path, as the source's `lower()` would have it.
- Search.CandidatesGetTopTier: also, under Python's `lower()` a literal match can be lost: `ΑΣ` contains `Σ`, but they lower-case to `ας` (a final sigma) and `σ`, so the source gives that candidate a lower tier. The model's ASCII `lower()` keeps every literal match.
- GitService.KeyLe: names are compared by their ASCII-lower-cased text, so `Éz` sorts before `éa`, where the source's key puts `éa` first.
- GitService.ShownSortedMembers: the group order is that of `GitService.KeyLe`, with the same ASCII-only lower-casing.
- `Path.resolve()` is modelled lexically: symbolic links and the file-existence check are left out.
- Browse.BrowsePath: the file page (file content and its summary) is outside this model, and so are the 404s for an unknown repository or cache.
- Concurrency, asyncio event loops and background tasks are left out.
- Ids are drawn from a counter instead of `uuid4`.
- Tree.BuildEach: termination is proved for acyclic parent links (a rank that decreases toward the root). On a cycle the source recurses until Python raises `RecursionError`; the model has no such outcome.

## Findings

| source | as written | input that shows it | evidently intended | confidence | as-written member | corrected member |
|---|---|---|---|---|---|---|
| backend/api/routes/browse.py:156-195 | `item.relative_to(cache_path)` compares a resolved, absolute item with the cache path as written. With the default relative `cache_dir` ("cache") it raises for every folder below the root, and the fallback row reports `has_summary` false | `GET /browse/{id}?path=src` with `cache_dir = "cache"` and a file `src/a.py` beside its summary `src/a.py.md` | resolve both sides, so the row's `has_summary` reflects the existence of its summary key | not executed | Browse.RelativeCacheDropsSummaries | Browse.SummaryLostBelowRoot |
