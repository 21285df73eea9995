/**
 * The pure parts of the git service: the name of a repository's cache
 * directory, the tree-like listing of one folder that goes into a folder
 * prompt, and the size gate applied before a file is read.
 */
module GitService {
  import opened Wrappers
  import opened Strings
  import opened Paths
  import opened StableSort

  /* ---------- cache directory naming ---------- */

  predicate IsAsciiAlpha(c: char) {
    ('a' <= c <= 'z') || ('A' <= c <= 'Z')
  }

  /** The characters `urlsplit` accepts in a scheme. */
  predicate IsSchemeChar(c: char) {
    IsAsciiAlpha(c) || ('0' <= c <= '9') || c == '+' || c == '-' || c == '.'
  }

  /** The text before the first `:` of `url` is a scheme `urlsplit` accepts. */
  predicate HasScheme(url: string) {
    var i := FirstIndex(url, ':');
    0 < i < |url| && IsAsciiAlpha(url[0]) && (forall k :: 0 <= k < i ==> IsSchemeChar(url[k]))
  }

  /** `urlsplit` drops `scheme:` when the text before the first `:` is a scheme. */
  function AfterScheme(url: string): string {
    if HasScheme(url) then url[FirstIndex(url, ':') + 1..] else url
  }

  /** The scheme `urlsplit` reports, lower-cased; "" when there is none. */
  function Scheme(url: string): string {
    if HasScheme(url) then Lower(url[..FirstIndex(url, ':')]) else ""
  }

  /** The schemes for which `urlparse` splits `;params` off the path (`uses_params`). */
  const UsesParams: set<string> := {"", "ftp", "hdl", "prospero", "http", "imap", "https", "shttp",
                                    "rtsp", "rtsps", "rtspu", "sip", "sips", "mms", "sftp", "tel"}

  /** The index of the last `/` of `s`, or 0 when there is none. */
  function LastSlash(s: string): (i: nat)
    ensures i <= |s|
    ensures i < |s| && '/' in s ==> s[i] == '/'
    ensures forall k :: i < k < |s| ==> s[k] != '/'
  {
    if s == [] then 0
    else if s[|s| - 1] == '/' then |s| - 1
    else LastSlash(s[..|s| - 1])
  }

  /**
   * `urlparse`'s `_splitparams`: the path loses everything from the first
   * `;` of its last segment on (of the whole path when it has no `/`).
   */
  function DropParams(p: string): (r: string)
    ensures |r| <= |p| && r == p[..|r|]
    ensures ';' !in p[LastSlash(p)..] ==> r == p
  {
    var i := LastSlash(p);
    assert p == p[..i] + p[i..];
    p[..i] + CutAt(p[i..], ';')
  }

  /** `urlparse(url).path`: after the scheme and `//netloc`, up to the first `#`, then the first `?`, without `;params`. */
  function UrlPath(url: string): (path: string)
    ensures '#' !in path && '?' !in path
  {
    var p := CutAt(CutAt(AfterNetloc(AfterScheme(url)), '#'), '?');
    if Scheme(url) in UsesParams then DropParams(p) else p
  }

  /** Drops a leading `//netloc`, which ends before the first `/`, `?` or `#`. */
  function AfterNetloc(rest: string): string {
    if StartsWith(rest, "//") then rest[2..][FirstIndexIn(rest[2..], {'/', '?', '#'})..] else rest
  }

  /** The text before the first `c`. */
  function CutAt(s: string, c: char): (r: string)
    ensures c !in r
    ensures c !in s ==> r == s
  {
    s[..FirstIndex(s, c)]
  }

  function LStripSlash(s: string): string {
    if s != [] && s[0] == '/' then LStripSlash(s[1..]) else s
  }

  /** `[p for p in path.strip('/').split('/') if p]` */
  function Segments(path: string): (r: seq<string>)
    ensures forall k :: 0 <= k < |r| ==> r[k] != "" && '/' !in r[k]
  {
    var ps := Split(RStripSlash(LStripSlash(path)), '/');
    var r := NonEmpty(ps);
    assert forall k :: 0 <= k < |r| ==> r[k] in ps by { NonEmptySubset(ps); }
    r
  }

  /** The directory name `get_repo_cache_path` derives from a URL. */
  function RepoCacheName(url: string): string {
    var ps := Segments(UrlPath(url));
    var raw := if |ps| >= 2 then ps[|ps| - 2] + "-" + ps[|ps| - 1]
               else if |ps| == 1 then ps[0]
               else "unknown";
    ReplaceAll(raw, ".git", "")
  }

  /** `get_repo_cache_path`: `Path(cache_dir) / name`. */
  function RepoCachePath(cacheDir: string, url: string): FsPath {
    Join(Parse(cacheDir), RepoCacheName(url))
  }

  /** Replacing a pattern that does not occur changes nothing. */
  lemma {:induction false} ReplaceAbsent(s: string, pat: string, rep: string)
    requires pat != "" && !Contains(s, pat)
    ensures ReplaceAll(s, pat, rep) == s
    decreases |s|
  {
    if s != [] {
      ReplaceAbsent(s[1..], pat, rep);
    }
  }

  /** ".git" cannot overlap itself, so a trailing ".git" after text free of it is removed alone. */
  lemma {:induction false} TrailingGitRemoved(s: string)
    requires !Contains(s, ".git")
    ensures ReplaceAll(s + ".git", ".git", "") == s
    decreases |s|
  {
    var t := s + ".git";
    if s == [] {
      assert t == ".git" && StartsWith(t, ".git");
      assert t[4..] == "";
    } else {
      if |s| >= 4 {
        assert t[..4] == s[..4];
        assert !StartsWith(s, ".git");
      } else {
        assert t[|s|] == '.';
      }
      assert !StartsWith(t, ".git");
      assert t[1..] == s[1..] + ".git";
      TrailingGitRemoved(s[1..]);
    }
  }

  /**
   * A path string without `#` or `?` past an "https://host" prefix is the
   * URL's path, less the `;params` of its last segment.
   */
  lemma HttpsUrlPath(host: string, path: string)
    requires '/' !in host && '?' !in host && '#' !in host
    requires StartsWith(path, "/") && '?' !in path && '#' !in path
    ensures UrlPath("https://" + host + path) == DropParams(path)
    ensures ';' !in path[LastSlash(path)..] ==> UrlPath("https://" + host + path) == path
  {
    var url := "https://" + host + path;
    HttpsCutPath(host, path);
    HttpsUsesParams(url);
    UrlPathWithParams(url);
  }

  /** Past the scheme and the host, cutting at `#` and `?` leaves such a path whole. */
  lemma HttpsCutPath(host: string, path: string)
    requires '/' !in host && '?' !in host && '#' !in host
    requires StartsWith(path, "/") && '?' !in path && '#' !in path
    ensures CutAt(CutAt(AfterNetloc(AfterScheme("https://" + host + path)), '#'), '?') == path
  {
    var url := "https://" + host + path;
    assert AfterScheme(url) == "//" + host + path by {
      HttpsScheme(url);
      assert url[6..] == "//" + host + path;
    }
    assert AfterNetloc("//" + host + path) == path by {
      var rest := "//" + host + path;
      assert rest[..2] == "//" && rest[2..] == host + path;
      NetlocEnds(host, path);
    }
  }

  /** For a scheme that uses params, the path is the cut text less its params. */
  lemma UrlPathWithParams(url: string)
    requires Scheme(url) in UsesParams
    ensures UrlPath(url) == DropParams(CutAt(CutAt(AfterNetloc(AfterScheme(url)), '#'), '?'))
  {
  }

  /** "https" is among the schemes whose paths lose their params. */
  lemma HttpsUsesParams(url: string)
    requires StartsWith(url, "https:")
    ensures Scheme(url) in UsesParams
  {
    HttpsScheme(url);
  }

  /** The scheme of an "https:" URL is "https", dropped with its colon. */
  lemma HttpsScheme(url: string)
    requires StartsWith(url, "https:")
    ensures AfterScheme(url) == url[6..]
    ensures Scheme(url) == "https"
  {
    assert url[..6] == "https:";
    FirstIndexAt(url, ':', 5);
    assert url[..5] == "https";
    assert Lower("https") == "https";
  }

  /** The last `/` of `a + "/" + b` is the one after `a` when `b` has none. */
  lemma {:induction false} LastSlashAt(a: string, b: string)
    requires '/' !in b
    ensures LastSlash(a + "/" + b) == |a|
    decreases |b|
  {
    var s := a + "/" + b;
    if b != [] {
      assert s[..|s| - 1] == a + "/" + b[..|b| - 1];
      assert s[|s| - 1] == b[|b| - 1];
      LastSlashAt(a, b[..|b| - 1]);
    }
  }

  /** The network location ends at the first `/` of the path. */
  lemma NetlocEnds(host: string, path: string)
    requires '/' !in host && '?' !in host && '#' !in host && StartsWith(path, "/")
    ensures FirstIndexIn(host + path, {'/', '?', '#'}) == |host|
  {
    var r2 := host + path;
    assert r2[|host|] == path[0] == '/';
    assert forall k :: 0 <= k < |host| ==> r2[k] == host[k];
    FirstIndexInAt(r2, {'/', '?', '#'}, |host|);
  }

  /** A path segment that `urlparse` passes through whole: no `/`, `?`, `#` or `;`. */
  predicate PlainSegment(s: string) {
    s != "" && '/' !in s && '?' !in s && '#' !in s && ';' !in s
  }

  /** The path "/owner/repo", with or without a trailing "/", has the segments owner and repo. */
  lemma {:induction false} SegmentsOfOwnerRepo(owner: string, repo: string, slash: bool)
    requires owner != "" && repo != "" && '/' !in owner && '/' !in repo
    ensures Segments("/" + owner + "/" + repo + (if slash then "/" else "")) == [owner, repo]
  {
    var tail := if slash then "/" else "";
    var path := "/" + owner + "/" + repo + tail;
    assert LStripSlash(path) == owner + "/" + repo + tail by {
      assert path[1..] == owner + "/" + repo + tail;
    }
    assert RStripSlash(owner + "/" + repo + tail) == owner + "/" + repo by {
      if slash {
        assert (owner + "/" + repo + tail)[..|owner + "/" + repo|] == owner + "/" + repo;
      }
    }
    SplitTwo(owner, repo);
    assert NonEmpty([owner, repo]) == [owner, repo] by {
      assert [owner, repo][1..] == [repo];
      assert NonEmpty([repo]) == [repo] + NonEmpty([repo][1..]);
      assert [repo][1..] == [];
    }
  }

  lemma CacheNameOfTwoSegments(url: string, a: string, b: string)
    requires Segments(UrlPath(url)) == [a, b]
    ensures RepoCacheName(url) == ReplaceAll(a + "-" + b, ".git", "")
  {
  }

  /** With more than two segments only the last two name the cache ("…/owner/repo/tree/main" gives "tree-main"). */
  lemma CacheNameUsesLastTwo(url: string, front: seq<string>, a: string, b: string)
    requires Segments(UrlPath(url)) == front + [a, b]
    ensures RepoCacheName(url) == ReplaceAll(a + "-" + b, ".git", "")
  {
    var ps := front + [a, b];
    assert ps[|ps| - 2] == a && ps[|ps| - 1] == b;
  }

  /** A single segment names the cache by itself, without its ".git". */
  lemma CacheNameOfOneSegment(url: string, name: string, gitSuffix: bool)
    requires !Contains(name, ".git")
    requires Segments(UrlPath(url)) == [name + (if gitSuffix then ".git" else "")]
    ensures RepoCacheName(url) == name
  {
    GitSuffixDropped(name, name + (if gitSuffix then ".git" else ""), gitSuffix);
  }

  /** "https://host/owner/repo", optionally followed by ".git" and/or "/", is cached as "owner-repo". */
  lemma {:induction false} CacheNameOwnerRepo(url: string, host: string, owner: string, repo: string, gitSuffix: bool, slash: bool)
    requires '/' !in host && '?' !in host && '#' !in host
    requires PlainSegment(owner) && PlainSegment(repo)
    requires !Contains(owner + "-" + repo, ".git")
    requires url == "https://" + host + "/" + owner + "/" + repo + (if gitSuffix then ".git" else "") + (if slash then "/" else "")
    ensures RepoCacheName(url) == owner + "-" + repo
  {
    var r := repo + (if gitSuffix then ".git" else "");
    var name := owner + "-" + repo;
    var raw := owner + "-" + r;
    assert ReplaceAll(raw, ".git", "") == name by {
      GitSuffixDropped(name, raw, gitSuffix);
    }
    OwnerRepoSegments(url, host, owner, repo, gitSuffix, slash);
    CacheNameOfTwoSegments(url, owner, r);
  }

  lemma OwnerRepoSegments(url: string, host: string, owner: string, repo: string, gitSuffix: bool, slash: bool)
    requires '/' !in host && '?' !in host && '#' !in host
    requires PlainSegment(owner) && PlainSegment(repo)
    requires url == "https://" + host + "/" + owner + "/" + repo + (if gitSuffix then ".git" else "") + (if slash then "/" else "")
    ensures Segments(UrlPath(url)) == [owner, repo + (if gitSuffix then ".git" else "")]
  {
    var suffix := if gitSuffix then ".git" else "";
    var r := repo + suffix;
    assert '/' !in suffix && '?' !in suffix && '#' !in suffix;
    assert url == "https://" + host + "/" + owner + "/" + r + (if slash then "/" else "");
    UrlOwnerRepoPath(url, host, owner, r, slash);
  }

  lemma GitSuffixDropped(name: string, raw: string, gitSuffix: bool)
    requires !Contains(name, ".git")
    requires raw == name + (if gitSuffix then ".git" else "")
    ensures ReplaceAll(raw, ".git", "") == name
  {
    if gitSuffix {
      TrailingGitRemoved(name);
    } else {
      ReplaceAbsent(name, ".git", "");
    }
  }

  lemma UrlOwnerRepoPath(url: string, host: string, owner: string, r: string, slash: bool)
    requires '/' !in host && '?' !in host && '#' !in host
    requires PlainSegment(owner) && PlainSegment(r)
    requires url == "https://" + host + "/" + owner + "/" + r + (if slash then "/" else "")
    ensures Segments(UrlPath(url)) == [owner, r]
  {
    var path := "/" + owner + "/" + r + (if slash then "/" else "");
    assert url == "https://" + host + path;
    assert ';' !in path;
    HttpsUrlPath(host, path);
    SegmentsOfOwnerRepo(owner, r, slash);
  }

  /** "https://host/owner/repo;params" is cached as "owner-repo": `urlparse` drops the params. */
  lemma CacheNameDropsParams(url: string, host: string, owner: string, repo: string, params: string)
    requires '/' !in host && '?' !in host && '#' !in host
    requires PlainSegment(owner) && PlainSegment(repo)
    requires '/' !in params && '?' !in params && '#' !in params
    requires !Contains(owner + "-" + repo, ".git")
    requires url == "https://" + host + "/" + owner + "/" + repo + ";" + params
    ensures RepoCacheName(url) == owner + "-" + repo
  {
    ParamsUrlSegments(url, host, owner, repo, params);
    GitSuffixDropped(owner + "-" + repo, owner + "-" + repo, false);
    CacheNameOfTwoSegments(url, owner, repo);
  }

  lemma ParamsUrlSegments(url: string, host: string, owner: string, repo: string, params: string)
    requires '/' !in host && '?' !in host && '#' !in host
    requires PlainSegment(owner) && PlainSegment(repo)
    requires '/' !in params && '?' !in params && '#' !in params
    requires url == "https://" + host + "/" + owner + "/" + repo + ";" + params
    ensures Segments(UrlPath(url)) == [owner, repo]
  {
    ParamsUrlPath(url, host, owner, repo, params);
    SegmentsOfOwnerRepo(owner, repo, false);
    assert "/" + owner + "/" + repo + "" == "/" + owner + "/" + repo;
  }

  lemma ParamsUrlPath(url: string, host: string, owner: string, repo: string, params: string)
    requires '/' !in host && '?' !in host && '#' !in host
    requires PlainSegment(owner) && PlainSegment(repo)
    requires '/' !in params && '?' !in params && '#' !in params
    requires url == "https://" + host + "/" + owner + "/" + repo + ";" + params
    ensures UrlPath(url) == "/" + owner + "/" + repo
  {
    var path := "/" + owner + "/" + repo + ";" + params;
    assert url == "https://" + host + path;
    HttpsUrlPath(host, path);
    ParamsDropped(owner, repo, params);
  }

  /** `_splitparams` on "/owner/repo;params" leaves "/owner/repo". */
  lemma ParamsDropped(owner: string, repo: string, params: string)
    requires '/' !in repo && ';' !in repo && '/' !in params
    ensures DropParams("/" + owner + "/" + repo + ";" + params) == "/" + owner + "/" + repo
  {
    var path := "/" + owner + "/" + repo + ";" + params;
    LastSlashAt("/" + owner, repo + ";" + params);
    assert path == ("/" + owner) + "/" + (repo + ";" + params);
    var last := "/" + repo + ";" + params;
    assert path[|"/" + owner|..] == last;
    FirstIndexAt(last, ';', |repo| + 1);
    assert last[..|repo| + 1] == "/" + repo;
    assert path[..|"/" + owner|] == "/" + owner;
  }

  /** A path ending in "/" has an empty last segment, so it keeps its params. */
  lemma TrailingSlashKeepsParams(front: string)
    ensures DropParams(front + "/") == front + "/"
  {
    LastSlashAt(front, "");
    assert front + "/" == front + "/" + "";
    assert (front + "/")[|front|..] == "/";
  }

  /**
   * With a trailing "/" the last segment is empty and the params stay:
   * "https://host/owner/repo;params/" is cached as "owner-repo;params".
   */
  lemma CacheNameKeepsParamsBeforeSlash(url: string, host: string, owner: string, repo: string, params: string)
    requires '/' !in host && '?' !in host && '#' !in host
    requires PlainSegment(owner) && PlainSegment(repo)
    requires '/' !in params && '?' !in params && '#' !in params
    requires !Contains(owner + "-" + (repo + ";" + params), ".git")
    requires url == "https://" + host + "/" + owner + "/" + (repo + ";" + params) + "/"
    ensures RepoCacheName(url) == owner + "-" + (repo + ";" + params)
  {
    var r := repo + ";" + params;
    SlashParamsUrlSegments(url, host, owner, r);
    GitSuffixDropped(owner + "-" + r, owner + "-" + r, false);
    CacheNameOfTwoSegments(url, owner, r);
  }

  lemma SlashParamsUrlSegments(url: string, host: string, owner: string, r: string)
    requires '/' !in host && '?' !in host && '#' !in host
    requires PlainSegment(owner) && r != "" && '/' !in r && '?' !in r && '#' !in r
    requires url == "https://" + host + "/" + owner + "/" + r + "/"
    ensures Segments(UrlPath(url)) == [owner, r]
  {
    var path := "/" + owner + "/" + r + "/";
    assert url == "https://" + host + path;
    HttpsUrlPath(host, path);
    TrailingSlashKeepsParams("/" + owner + "/" + r);
    SegmentsOfOwnerRepo(owner, r, true);
  }

  /** Splitting `a/b` at `/`, with neither side holding a `/`, gives `[a, b]`. */
  lemma {:induction false} SplitTwo(a: string, b: string)
    requires '/' !in a && '/' !in b
    ensures Split(a + "/" + b, '/') == [a, b]
    decreases |a|
  {
    if a == [] {
      assert ("/" + b)[1..] == b;
      SplitWithoutSep(b, '/');
    } else {
      SplitTwo(a[1..], b);
      assert (a + "/" + b)[1..] == a[1..] + "/" + b;
      assert [a[0]] + a[1..] == a;
    }
  }

  /** A string lacking one character of `sub` does not contain `sub`. */
  lemma {:induction false} MissingChar(s: string, sub: string, i: nat)
    requires i < |sub| && sub[i] !in s
    ensures !Contains(s, sub)
    decreases |s|
  {
    if |sub| <= |s| {
      assert s[..|sub|][i] != sub[i];
    }
    if s != [] {
      MissingChar(s[1..], sub, i);
    }
  }

  /** A URL with no path at all is cached as "unknown". */
  lemma CacheNameUnknown(host: string)
    requires '/' !in host && '?' !in host && '#' !in host
    ensures RepoCacheName("https://" + host + "/") == "unknown"
  {
    HttpsUrlPath(host, "/");
    assert Segments("/") == [] by {
      assert LStripSlash("/") == "";
      assert Split("", '/') == [""];
      assert [""][1..] == [];
    }
    NoSegmentsUnknown("https://" + host + "/");
  }

  /** A URL whose path has no segment is cached as "unknown". */
  lemma NoSegmentsUnknown(url: string)
    requires Segments(UrlPath(url)) == []
    ensures RepoCacheName(url) == "unknown"
  {
    MissingChar("unknown", ".git", 0);
    ReplaceAbsent("unknown", ".git", "");
  }

  lemma ReplaceSkip(c: char, s: string, pat: string, rep: string)
    requires pat != "" && pat[0] != c
    ensures ReplaceAll([c] + s, pat, rep) == [c] + ReplaceAll(s, pat, rep)
  {
    FirstCharDiffers([c] + s, pat);
    assert ([c] + s)[1..] == s;
  }

  lemma ReplaceHit(s: string, pat: string, rep: string)
    requires pat != ""
    ensures ReplaceAll(pat + s, pat, rep) == rep + ReplaceAll(s, pat, rep)
  {
    assert (pat + s)[..|pat|] == pat;
    assert (pat + s)[|pat|..] == s;
  }

  /** Every ".git" is removed, not only a suffix: one in the middle of a name goes too. */
  lemma {:induction false} GitRemovedInside(pre: string, tail: string)
    requires '.' !in pre && !Contains(tail, ".git")
    ensures ReplaceAll(pre + ".git" + tail, ".git", "") == pre + tail
    decreases |pre|
  {
    if pre == [] {
      assert pre + ".git" + tail == ".git" + tail;
      ReplaceHit(tail, ".git", "");
      ReplaceAbsent(tail, ".git", "");
    } else {
      GitRemovedInside(pre[1..], tail);
      assert pre + ".git" + tail == [pre[0]] + (pre[1..] + ".git" + tail);
      ReplaceSkip(pre[0], pre[1..] + ".git" + tail, ".git", "");
      assert pre + tail == [pre[0]] + (pre[1..] + tail);
    }
  }

  /** Worked example of `GitRemovedInside`: "https://github.com/my.github.io" is cached under "myhub.io". */
  lemma GitRemovedInsideExample()
    ensures ReplaceAll("my" + ".git" + "hub.io", ".git", "") == "my" + "hub.io"
  {
    MissingChar("hub.io", ".git", 1);
    GitRemovedInside("my", "hub.io");
  }

  /** Removing ".git" can leave a ".git" behind: "x.g.gitit" is cached under "x.git". */
  lemma GitRemovalCanLeaveGit()
    ensures ReplaceAll("x.g" + ".git" + "it", ".git", "") == "x.git"
    ensures Contains("x.git", ".git")
  {
    var t := "." + ("g" + (".git" + "it"));
    GitRemovalDot();
    ReplaceSkip('x', t, ".git", "");
    assert "x.g" + ".git" + "it" == ['x'] + t;
    ContainsAt("x.git", ".git", 1);
  }

  /** The middle of the example: ".g.gitit" becomes ".git". */
  lemma GitRemovalDot()
    ensures ReplaceAll("." + ("g" + (".git" + "it")), ".git", "") == ".git"
  {
    var t := "g" + (".git" + "it");
    GitRemovalInner();
    assert ("." + t)[..4][2] == '.';
    assert !StartsWith("." + t, ".git");
    assert ("." + t)[1..] == t;
  }

  /** The inner part of the example: "g.gitit" becomes "git". */
  lemma GitRemovalInner()
    ensures ReplaceAll("g" + (".git" + "it"), ".git", "") == "git"
  {
    assert ReplaceAll(".git" + "it", ".git", "") == "it" by {
      MissingChar("it", ".git", 0);
      ReplaceAbsent("it", ".git", "");
      ReplaceHit("it", ".git", "");
    }
    ReplaceSkip('g', ".git" + "it", ".git", "");
  }

  /* ---------- folder listing ---------- */

  /** What `is_file()` / `is_dir()` say about a directory entry. */
  datatype EntryKind = Dir | RegularFile | Other

  datatype DirEntry = DirEntry(name: string, kind: EntryKind)

  /** The sort key `(is_file, name.lower())`: directories (and other entries) before files. */
  predicate KeyLe(a: DirEntry, b: DirEntry) {
    var fa, fb := a.kind == RegularFile, b.kind == RegularFile;
    (!fa && fb) || (fa == fb && LexLe(Lower(a.name), Lower(b.name)))
  }

  lemma KeyLeTotalPreorder()
    ensures TotalPreorder(KeyLe)
  {
    forall a: DirEntry, b: DirEntry ensures KeyLe(a, b) || KeyLe(b, a) {
      LexLeTotal(Lower(a.name), Lower(b.name));
    }
    forall a: DirEntry, b: DirEntry, c: DirEntry | KeyLe(a, b) && KeyLe(b, c) ensures KeyLe(a, c) {
      if a.kind == RegularFile <==> c.kind == RegularFile {
        LexLeTransitive(Lower(a.name), Lower(b.name), Lower(c.name));
      }
    }
  }

  /** Hidden entries and summary files are left out of the listing. */
  predicate Shown(e: DirEntry) {
    !StartsWith(e.name, ".") && !EndsWith(e.name, ".md")
  }

  const Branch := "├──"
  const Corner := "└──"

  function Line(e: DirEntry): string {
    Branch + " " + e.name + (if e.kind == Dir then "/" else "")
  }

  /** The lines of the listing before the last one is rewritten. */
  function Lines(sorted: seq<DirEntry>): (r: seq<string>)
    ensures |r| <= |sorted|
  {
    if sorted == [] then []
    else
      var front := Lines(sorted[..|sorted| - 1]);
      var e := sorted[|sorted| - 1];
      if Shown(e) then front + [Line(e)] else front
  }

  /** The shown entries, in listing order. */
  function ShownEntries(sorted: seq<DirEntry>): (r: seq<DirEntry>)
    ensures forall k :: 0 <= k < |r| ==> Shown(r[k])
  {
    if sorted == [] then []
    else
      var front := ShownEntries(sorted[..|sorted| - 1]);
      var e := sorted[|sorted| - 1];
      if Shown(e) then front + [e] else front
  }

  /** The lines as the listing prints them: the last `├──` becomes `└──`. */
  function FinalLines(lines: seq<string>): seq<string> {
    if lines == [] then []
    else lines[..|lines| - 1] + [ReplaceAll(lines[|lines| - 1], Branch, Corner)]
  }

  /** `get_folder_structure` over the listing of the folder, None when it is missing or not a directory. */
  function FolderStructure(listing: Option<seq<DirEntry>>): string {
    if listing.None? then ""
    else JoinWith(FinalLines(Lines(Sort(listing.value, KeyLe))), "\n")
  }

  /** The loop of `get_folder_structure`: sort, filter, format, rewrite the last line, join. */
  method BuildFolderStructure(listing: Option<seq<DirEntry>>) returns (text: string)
    ensures text == FolderStructure(listing)
  {
    if listing.None? {
      return "";
    }
    var items := Sort(listing.value, KeyLe);
    var lines: seq<string> := [];
    var i := 0;
    while i < |items|
      invariant 0 <= i <= |items|
      invariant lines == Lines(items[..i])
    {
      assert items[..i + 1][..i] == items[..i];
      if Shown(items[i]) {
        lines := lines + [Line(items[i])];
      }
      i := i + 1;
    }
    assert items[..|items|] == items;
    if lines != [] {
      lines := lines[|lines| - 1 := ReplaceAll(lines[|lines| - 1], Branch, Corner)];
      assert lines == FinalLines(Lines(items));
    }
    text := JoinWith(lines, "\n");
  }

  /** The lines are exactly the shown entries, each formatted as one line. */
  lemma {:induction false} LinesAreShownEntries(sorted: seq<DirEntry>)
    ensures |Lines(sorted)| == |ShownEntries(sorted)|
    ensures forall k :: 0 <= k < |Lines(sorted)| ==> Lines(sorted)[k] == Line(ShownEntries(sorted)[k])
  {
    if sorted != [] {
      LinesAreShownEntries(sorted[..|sorted| - 1]);
    }
  }

  /** An entry is shown exactly when it is in the listing and not hidden. */
  lemma {:induction false} ShownEntriesMembers(sorted: seq<DirEntry>)
    ensures forall e :: e in ShownEntries(sorted) <==> e in sorted && Shown(e)
  {
    if sorted != [] {
      ShownEntriesMembers(sorted[..|sorted| - 1]);
      assert sorted == sorted[..|sorted| - 1] + [sorted[|sorted| - 1]];
    }
  }

  /** Filtering keeps the order: directories (and other entries) first, then files, each by lower-cased name. */
  lemma {:induction false} ShownEntriesSorted(sorted: seq<DirEntry>)
    requires Sorted(sorted, KeyLe)
    ensures Sorted(ShownEntries(sorted), KeyLe)
  {
    if sorted != [] {
      var front := sorted[..|sorted| - 1];
      var e := sorted[|sorted| - 1];
      ShownEntriesSorted(front);
      ShownEntriesMembers(front);
      var f := ShownEntries(front);
      if Shown(e) {
        forall i | 0 <= i < |f| ensures KeyLe(f[i], e) {
          var k :| 0 <= k < |front| && front[k] == f[i];
        }
      }
    }
  }

  /** The lines of a listing: one per shown entry in sorted order, the last one drawn with `└──`. */
  lemma FolderLinesShape(items: seq<DirEntry>)
    ensures var shown := ShownEntries(Sort(items, KeyLe));
      var lines := FinalLines(Lines(Sort(items, KeyLe)));
      && |lines| == |shown|
      && (forall k :: 0 <= k < |lines| - 1 ==> lines[k] == Line(shown[k]))
      && (lines != [] ==> StartsWith(lines[|lines| - 1], Corner + " "))
      && Sorted(shown, KeyLe)
      && (forall e :: e in shown <==> e in items && Shown(e))
  {
    FinalLinesShape(Sort(items, KeyLe));
    ShownSortedMembers(items);
  }

  /** Whatever the order, there is one line per shown entry and the last is drawn with `└──`. */
  lemma FinalLinesShape(sorted: seq<DirEntry>)
    ensures var shown := ShownEntries(sorted);
      var lines := FinalLines(Lines(sorted));
      && |lines| == |shown|
      && (forall k :: 0 <= k < |lines| - 1 ==> lines[k] == Line(shown[k]))
      && (lines != [] ==> StartsWith(lines[|lines| - 1], Corner + " "))
  {
    LinesAreShownEntries(sorted);
    var raw := Lines(sorted);
    if raw != [] {
      LastLineCorner(ShownEntries(sorted)[|raw| - 1]);
    }
  }

  /** The shown entries of the sorted listing are in key order and are the shown entries of the folder. */
  lemma ShownSortedMembers(items: seq<DirEntry>)
    ensures var shown := ShownEntries(Sort(items, KeyLe));
      && Sorted(shown, KeyLe)
      && (forall e :: e in shown <==> e in items && Shown(e))
  {
    var sorted := Sort(items, KeyLe);
    KeyLeTotalPreorder();
    SortSorted(items, KeyLe);
    ShownEntriesSorted(sorted);
    ShownEntriesMembers(sorted);
    assert forall e :: e in sorted <==> e in items by {
      assert forall e :: e in sorted <==> e in multiset(sorted);
    }
  }

  /** Rewriting a line turns its leading `├──` into `└──`. */
  lemma LastLineCorner(e: DirEntry)
    ensures StartsWith(ReplaceAll(Line(e), Branch, Corner), Corner + " ")
  {
    var rest := " " + e.name + (if e.kind == Dir then "/" else "");
    assert Line(e) == Branch + rest;
    ReplaceHit(rest, Branch, Corner);
    assert rest == [' '] + rest[1..];
    ReplaceSkip(' ', rest[1..], Branch, Corner);
    assert (Corner + ReplaceAll(rest, Branch, Corner))[..|Corner + " "|] == Corner + " ";
  }

  /** Joining non-empty lines gives the empty text only when there are no lines. */
  lemma {:induction false} JoinEmpty(lines: seq<string>, sep: string)
    requires forall k :: 0 <= k < |lines| ==> lines[k] != ""
    ensures JoinWith(lines, sep) == "" <==> lines == []
  {
    if |lines| > 1 {
      assert |JoinWith(lines, sep)| >= |lines[0]|;
    }
  }

  /** The listing is empty exactly when the folder is missing or every entry is hidden. */
  lemma FolderStructureEmpty(listing: Option<seq<DirEntry>>)
    ensures FolderStructure(listing) == "" <==> listing.None? || forall e :: e in listing.value ==> !Shown(e)
  {
    if listing.Some? {
      var items := listing.value;
      FolderLinesShape(items);
      var shown := ShownEntries(Sort(items, KeyLe));
      var lines := FinalLines(Lines(Sort(items, KeyLe)));
      assert forall k :: 0 <= k < |lines| ==> lines[k] != "" by {
        forall k | 0 <= k < |lines| ensures lines[k] != "" {
          if k < |lines| - 1 {
            assert lines[k][0] == Branch[0];
          } else {
            assert lines[k][..|Corner + " "|] == Corner + " ";
          }
        }
      }
      JoinEmpty(lines, "\n");
      if lines == [] {
        assert shown == [];
      } else {
        assert shown[0] in shown;
      }
    }
  }

  /* ---------- size gate ---------- */

  /** `settings.max_file_size`, the default cap. */
  const MaxFileSize: nat := 1_000_000

  /** What `os.stat` and reading the file give: its size, and its text unless reading fails. */
  datatype FileInfo = FileInfo(size: nat, text: Option<string>)

  /** `read_file_content`: None for a missing, oversized or unreadable file; `maxSize` None means the default cap. */
  function ReadFileContent(file: Option<FileInfo>, maxSize: Option<nat>): (r: Option<string>)
    ensures r.Some? ==> file.Some? && file.value.text == r
  {
    var cap := if maxSize.Some? then maxSize.value else MaxFileSize;
    if file.None? || file.value.size > cap then None else file.value.text
  }

  /** A file over the cap is never read; one of exactly the cap's size is. */
  lemma SizeGate(file: FileInfo, cap: nat)
    ensures file.size > cap ==> ReadFileContent(Some(file), Some(cap)) == None
    ensures file.size <= cap ==> ReadFileContent(Some(file), Some(cap)) == file.text
  {
  }

  /** Worked example of `SizeGate`: a 2 MB file under a 1 MB cap gives None; with no cap given, 1 MB is the limit. */
  lemma OversizedFileExample(text: string)
    ensures ReadFileContent(Some(FileInfo(2_000_000, Some(text))), Some(1_000_000)) == None
    ensures ReadFileContent(Some(FileInfo(1_000_000, Some(text))), None) == Some(text)
    ensures ReadFileContent(Some(FileInfo(1_000_001, Some(text))), None) == None
  {
  }

  /** Raising the cap never turns a successful read into None. */
  lemma CapMonotone(file: Option<FileInfo>, small: nat, large: nat)
    requires small <= large
    ensures ReadFileContent(file, Some(small)).Some? ==> ReadFileContent(file, Some(large)) == ReadFileContent(file, Some(small))
  {
  }
}
