/**
 * `parse_github_url`: owner and repository name from a GitHub URL, found
 * with `re.search` over two patterns in turn.  The regular expressions are
 * modelled by what the backtracking matcher does with them:
 *
 *   `github\.com[:/]([^/]+)/([^/]+?)(?:\.git)?/?$`      (Web)
 *   `git@github\.com:([^/]+)/([^/]+?)(?:\.git)?$`       (Ssh)
 *
 * The search tries every start position from the left.  At a position, the
 * greedy `[^/]+` takes the whole run of characters up to the next `/`
 * (a shorter owner could never be followed by `/`), and the lazy `[^/]+?`
 * takes the fewest characters, at least one, after which the optional
 * suffixes and `$` can match.  `$` matches at the end of the text or just
 * before a final newline.
 */
module GithubService {
  import opened Wrappers
  import opened Strings
  import Paths

  datatype Pattern = Web | Ssh

  datatype OwnerRepo = OwnerRepo(owner: string, repo: string)

  /** The literal text each pattern starts with, its separator included. */
  function Lead(p: Pattern): string {
    if p == Web then "github.com" else "git@github.com:"
  }

  /** What may follow the repository group for `$` to match. */
  predicate IsTail(p: Pattern, t: string) {
    if p == Web then
      t in {"", "\n", "/", "/\n", ".git", ".git\n", ".git/", ".git/\n"}
    else
      t in {"", "\n", ".git", ".git\n"}
  }

  /** The lazy repository group: the shortest `R[..k]`, `k >= 1`, free of `/`, whose tail matches. */
  function LazyRepo(p: Pattern, r: string, k: nat): (res: Option<string>)
    requires 1 <= k <= |r| + 1 && '/' !in r[..k - 1]
    ensures res.Some? ==> res.value != "" && '/' !in res.value
    ensures res.Some? ==> exists j :: k <= j <= |r| && res.value == r[..j] && IsTail(p, r[j..])
    decreases |r| - k
  {
    if k > |r| || r[k - 1] == '/' then None
    else if IsTail(p, r[k..]) then Some(r[..k])
    else
      assert r[..k] == r[..k - 1] + [r[k - 1]];
      LazyRepo(p, r, k + 1)
  }

  /** The text after the pattern's lead and separator, when the lead matches at the start of `s`. */
  function AfterLead(p: Pattern, s: string): Option<string> {
    if p == Web then
      (if StartsWith(s, "github.com") && |s| > 10 && (s[10] == ':' || s[10] == '/') then Some(s[11..]) else None)
    else
      (if StartsWith(s, "git@github.com:") then Some(s[15..]) else None)
  }

  /** The match of pattern `p` starting exactly at the start of `s`. */
  function MatchHere(p: Pattern, s: string): (res: Option<OwnerRepo>)
    ensures res.Some? ==> res.value.owner != "" && '/' !in res.value.owner
    ensures res.Some? ==> res.value.repo != "" && '/' !in res.value.repo
  {
    match AfterLead(p, s)
    case None => None
    case Some(rest) =>
      var n := FirstIndex(rest, '/');
      if n == 0 || n == |rest| then None
      else
        match LazyRepo(p, rest[n + 1..], 1)
        case None => None
        case Some(repo) =>
          assert '/' !in rest[..n];
          Some(OwnerRepo(rest[..n], repo))
  }

  /** `re.search`: the match at the leftmost start position `>= i` where there is one. */
  function Search(p: Pattern, url: string, i: nat): (res: Option<OwnerRepo>)
    requires i <= |url| + 1
    ensures res.Some? ==> res.value.owner != "" && '/' !in res.value.owner
    ensures res.Some? ==> res.value.repo != "" && '/' !in res.value.repo
    decreases |url| + 1 - i
  {
    if i > |url| then None
    else
      var here := MatchHere(p, url[i..]);
      if here.Some? then here else Search(p, url, i + 1)
  }

  /** `parse_github_url` */
  function ParseGithubUrl(url: string): (res: Option<OwnerRepo>)
    ensures res.Some? ==> res.value.owner != "" && '/' !in res.value.owner
    ensures res.Some? ==> res.value.repo != "" && '/' !in res.value.repo
  {
    match Search(Web, url, 0)
    case Some(m) =>
      RStripWithoutSlash(m.repo); Some(OwnerRepo(m.owner, Paths.RStripSlash(m.repo)))
    case None => Search(Ssh, url, 0)
  }

  /** `.rstrip('/')` on a group that cannot contain `/` changes nothing. */
  lemma {:induction false} RStripWithoutSlash(s: string)
    requires '/' !in s
    ensures Paths.RStripSlash(s) == s
  {
  }

  /* ---------- the Ssh pattern never decides the result ---------- */

  lemma {:induction false} LazyRepoSshToWeb(r: string, k: nat)
    requires 1 <= k <= |r| + 1 && '/' !in r[..k - 1]
    ensures LazyRepo(Ssh, r, k).Some? ==> LazyRepo(Web, r, k).Some?
    decreases |r| - k
  {
    if !(k > |r| || r[k - 1] == '/') && !IsTail(Web, r[k..]) {
      assert r[..k] == r[..k - 1] + [r[k - 1]];
      LazyRepoSshToWeb(r, k + 1);
    }
  }

  /** Wherever the Ssh pattern matches, the Web pattern matches four characters later. */
  lemma SshMatchGivesWebMatch(s: string)
    requires MatchHere(Ssh, s).Some?
    ensures |s| >= 4 && MatchHere(Web, s[4..]).Some?
  {
    assert s[..15] == "git@github.com:";
    var t := s[4..];
    assert AfterLead(Web, t) == Some(t[11..]) by {
      assert t[..10] == s[..15][4..14];
      assert "git@github.com:"[4..14] == "github.com";
      assert t[10] == s[..15][14];
    }
    assert t[11..] == s[15..];
    var rest := s[15..];
    var n := FirstIndex(rest, '/');
    LazyRepoSshToWeb(rest[n + 1..], 1);
  }

  lemma {:induction false} SearchFinds(p: Pattern, url: string, i: nat, q: nat)
    requires i <= q <= |url| && MatchHere(p, url[q..]).Some?
    ensures Search(p, url, i).Some?
    decreases q - i
  {
    if i < q && MatchHere(p, url[i..]).None? {
      SearchFinds(p, url, i + 1, q);
    }
  }

  lemma {:induction false} SearchWitness(p: Pattern, url: string, i: nat) returns (q: nat)
    requires i <= |url| + 1 && Search(p, url, i).Some?
    ensures i <= q <= |url| && MatchHere(p, url[q..]) == Search(p, url, i)
    decreases |url| + 1 - i
  {
    if MatchHere(p, url[i..]).Some? {
      q := i;
    } else {
      q := SearchWitness(p, url, i + 1);
    }
  }

  /**
   * The second pattern is dead: whenever it would match, the first one has
   * already matched, so every result comes from the first pattern.
   */
  lemma SshPatternIsDead(url: string)
    ensures Search(Ssh, url, 0).Some? ==> Search(Web, url, 0).Some?
    ensures ParseGithubUrl(url).Some? ==> Search(Web, url, 0).Some?
  {
    if Search(Ssh, url, 0).Some? {
      var q := SearchWitness(Ssh, url, 0);
      SshMatchGivesWebMatch(url[q..]);
      assert url[q..][4..] == url[q + 4..];
      SearchFinds(Web, url, 0, q + 4);
    }
  }

  /* ---------- no host, no result ---------- */

  lemma {:induction false} SearchWithoutHost(url: string, i: nat)
    requires i <= |url| + 1 && !Contains(url, "github.com")
    ensures Search(Web, url, i).None?
    decreases |url| + 1 - i
  {
    if i <= |url| {
      if StartsWith(url[i..], "github.com") {
        assert url[i..][..10] == url[i..i + 10];
        ContainsAt(url, "github.com", i);
      }
      SearchWithoutHost(url, i + 1);
    }
  }

  /** A URL that does not mention "github.com" is rejected. */
  lemma NoHostNoResult(url: string)
    requires !Contains(url, "github.com")
    ensures ParseGithubUrl(url) == None
  {
    SearchWithoutHost(url, 0);
    SshPatternIsDead(url);
  }

  /* ---------- the usual forms ---------- */

  /** A name that can stand for an owner or repository in a URL. */
  predicate PlainName(s: string) {
    s != "" && '/' !in s && '\n' !in s
  }

  /** What may follow the repository name in a well-formed URL. */
  predicate IsUrlSuffix(suffix: string) {
    suffix == "" || suffix == "/" || suffix == ".git" || suffix == ".git/"
  }

  /** A proper tail of a plain name followed by a suffix is never what `$` accepts. */
  lemma NotTail(x: string, suffix: string)
    requires PlainName(x) && x != ".git" && IsUrlSuffix(suffix)
    ensures !IsTail(Web, x + suffix)
  {
    var t := x + suffix;
    if suffix == "" {
      assert t == x;
    } else if suffix == "/" {
      assert x == t[..|t| - 1] && t[|t| - 1] == '/' && |t| >= 2;
      assert t[0] == x[0] && x[0] != '/' && x[0] != '\n';
      assert |t| == 5 ==> t[..4] == x;
    } else if suffix == ".git" {
      assert t[|t| - 1] == 't' && |t| >= 5;
    } else {
      assert t[|t| - 1] == '/' && |t| >= 6;
    }
  }

  lemma {:induction false} LazyFindsName(r: string, suffix: string, k: nat)
    requires PlainName(r) && !EndsWith(r, ".git") && IsUrlSuffix(suffix)
    requires 1 <= k <= |r|
    ensures LazyRepo(Web, r + suffix, k) == Some(r)
    decreases |r| - k
  {
    var rs := r + suffix;
    assert rs[..k - 1] == r[..k - 1];
    assert rs[k - 1] == r[k - 1];
    if k == |r| {
      assert rs[k..] == suffix;
      assert rs[..k] == r;
    } else {
      assert rs[k..] == r[k..] + suffix;
      assert |r[k..]| == 4 ==> r[|r| - 4..] == r[k..];
      NotTail(r[k..], suffix);
      LazyFindsName(r, suffix, k + 1);
    }
  }

  /** The Web pattern at a position holding "github.com", a separator, owner, "/", repository and suffix. */
  lemma WebMatchHere(s: string, sep: char, owner: string, repo: string, suffix: string)
    requires sep == ':' || sep == '/'
    requires PlainName(owner) && PlainName(repo) && !EndsWith(repo, ".git") && IsUrlSuffix(suffix)
    requires s == "github.com" + [sep] + owner + "/" + repo + suffix
    ensures MatchHere(Web, s) == Some(OwnerRepo(owner, repo))
  {
    var rest := s[11..];
    assert AfterLead(Web, s) == Some(rest) by {
      assert s[..10] == "github.com" && s[10] == sep;
    }
    assert rest == owner + "/" + (repo + suffix);
    LazyFindsName(repo, suffix, 1);
    MatchAfterOwner(Web, s, owner, repo + suffix);
  }

  /** After the lead, the owner runs to the first `/` and the lazy group starts after it. */
  lemma MatchAfterOwner(p: Pattern, s: string, owner: string, r: string)
    requires AfterLead(p, s) == Some(owner + "/" + r) && owner != "" && '/' !in owner
    ensures MatchHere(p, s) == match LazyRepo(p, r, 1)
                               case None => None
                               case Some(repo) => Some(OwnerRepo(owner, repo))
  {
    var rest := owner + "/" + r;
    FirstIndexAt(rest, '/', |owner|);
    assert rest[|owner| + 1..] == r;
    assert rest[..|owner|] == owner;
  }

  lemma {:induction false} SearchSkips(p: Pattern, url: string, i: nat, j: nat)
    requires i <= j <= |url| + 1
    requires forall m :: i <= m < j ==> MatchHere(p, url[m..]).None?
    ensures Search(p, url, i) == Search(p, url, j)
    decreases j - i
  {
    if i < j {
      SearchSkips(p, url, i + 1, j);
    }
  }

  /** No match can start inside a leading text free of `g`, at a character other than `g`. */
  lemma NoMatchAtNonG(url: string, m: nat)
    requires m < |url| && url[m] != 'g'
    ensures MatchHere(Web, url[m..]).None?
  {
    FirstCharDiffers(url[m..], "github.com");
  }

  /** The result comes from the leftmost Web match. */
  lemma ParseFromWeb(url: string, m: OwnerRepo)
    requires Search(Web, url, 0) == Some(m)
    ensures ParseGithubUrl(url) == Some(m)
  {
    RStripWithoutSlash(m.repo);
  }

  /** A Web match at `at`, with no match starting before it, is what parsing returns. */
  lemma FirstWebMatch(url: string, at: nat, m: OwnerRepo)
    requires at <= |url|
    requires forall k :: 0 <= k < at ==> MatchHere(Web, url[k..]).None?
    requires MatchHere(Web, url[at..]) == Some(m)
    ensures ParseGithubUrl(url) == Some(m)
  {
    SearchSkips(Web, url, 0, at);
    ParseFromWeb(url, m);
  }

  /** "https://github.com/owner/repo", with ".git" and/or "/" after it, parses to (owner, repo). */
  lemma HttpsRoundTrip(url: string, owner: string, repo: string, suffix: string)
    requires PlainName(owner) && PlainName(repo) && !EndsWith(repo, ".git") && IsUrlSuffix(suffix)
    requires url == "https://github.com/" + owner + "/" + repo + suffix
    ensures ParseGithubUrl(url) == Some(OwnerRepo(owner, repo))
  {
    assert StartsWith(url, "https://github.com/") by {
      assert url[..19] == "https://github.com/";
    }
    HttpsHostMatch(url, owner, repo, suffix);
    HttpsMatchParsed(url, OwnerRepo(owner, repo));
  }

  lemma HttpsHostMatch(url: string, owner: string, repo: string, suffix: string)
    requires PlainName(owner) && PlainName(repo) && !EndsWith(repo, ".git") && IsUrlSuffix(suffix)
    requires url == "https://github.com/" + owner + "/" + repo + suffix
    ensures |url| >= 8 && MatchHere(Web, url[8..]) == Some(OwnerRepo(owner, repo))
  {
    var s := "github.com" + ['/'] + owner + "/" + repo + suffix;
    assert url[8..] == s;
    WebMatchHere(s, '/', owner, repo, suffix);
  }

  /** Below "https://", the match at the host is the first one. */
  lemma HttpsMatchParsed(url: string, m: OwnerRepo)
    requires StartsWith(url, "https://github.com/") && MatchHere(Web, url[8..]) == Some(m)
    ensures ParseGithubUrl(url) == Some(m)
  {
    NoMatchInHttpsPrefix(url);
    FirstWebMatch(url, 8, m);
  }

  lemma NoMatchAtScpUser(s: string)
    requires |s| >= 4 && s[3] == '@'
    ensures MatchHere(Web, s).None?
  {
    if |s| >= 10 {
      assert s[..10][3] != "github.com"[3];
    }
  }

  /** "git@github.com:owner/repo.git" (or without ".git") parses to (owner, repo). */
  lemma ScpRoundTrip(url: string, owner: string, repo: string, suffix: string)
    requires PlainName(owner) && PlainName(repo) && !EndsWith(repo, ".git") && IsUrlSuffix(suffix)
    requires url == "git@github.com:" + owner + "/" + repo + suffix
    ensures ParseGithubUrl(url) == Some(OwnerRepo(owner, repo))
  {
    assert StartsWith(url, "git@") by {
      assert url[..4] == "git@";
    }
    ScpHostMatch(url, owner, repo, suffix);
    ScpMatchParsed(url, OwnerRepo(owner, repo));
  }

  lemma ScpHostMatch(url: string, owner: string, repo: string, suffix: string)
    requires PlainName(owner) && PlainName(repo) && !EndsWith(repo, ".git") && IsUrlSuffix(suffix)
    requires url == "git@github.com:" + owner + "/" + repo + suffix
    ensures |url| >= 4 && MatchHere(Web, url[4..]) == Some(OwnerRepo(owner, repo))
  {
    var s := "github.com" + [':'] + owner + "/" + repo + suffix;
    assert url[4..] == s;
    WebMatchHere(s, ':', owner, repo, suffix);
  }

  /** After "git@", the match at the host is the first one. */
  lemma ScpMatchParsed(url: string, m: OwnerRepo)
    requires StartsWith(url, "git@") && MatchHere(Web, url[4..]) == Some(m)
    ensures ParseGithubUrl(url) == Some(m)
  {
    assert url[3] == url[..4][3];
    forall k | 0 <= k < 4 ensures MatchHere(Web, url[k..]).None? {
      if k == 0 {
        NoMatchAtScpUser(url);
      } else {
        assert url[k] == url[..4][k];
        NoMatchAtNonG(url, k);
      }
    }
    FirstWebMatch(url, 4, m);
  }

  /* ---------- more than two segments ---------- */

  /** After the repository group, a `/` may only be followed by nothing or a final newline. */
  lemma NotTailWithSlash(x: string, c: string)
    requires '/' !in x && PlainName(c)
    ensures !IsTail(Web, x + "/" + c)
  {
    var t := x + "/" + c;
    assert t[..|x|] == x && t[|x|] == '/' && t[|x| + 1..] == c;
    assert forall i :: 0 <= i < |x| ==> t[i] != '/';
    assert c[0] != '\n' && t[|x| + 1] == c[0];
  }

  lemma {:induction false} LazyStopsAtSlash(b: string, c: string, k: nat)
    requires '/' !in b && PlainName(c) && 1 <= k <= |b| + 1
    ensures LazyRepo(Web, b + "/" + c, k).None?
    decreases |b| + 1 - k
  {
    var r := b + "/" + c;
    assert r[..k - 1] == b[..k - 1];
    if k <= |b| {
      assert r[k - 1] == b[k - 1];
      assert r[k..] == b[k..] + "/" + c;
      NotTailWithSlash(b[k..], c);
      LazyStopsAtSlash(b, c, k + 1);
    } else {
      assert r[k - 1] == '/';
    }
  }

  /** The match at the host: owner `a`, then no repository group fits before the next `/`. */
  lemma NoMatchAtHost(s: string, a: string, b: string, c: string)
    requires PlainName(a) && PlainName(b) && PlainName(c)
    requires s == "github.com/" + a + "/" + b + "/" + c
    ensures MatchHere(Web, s).None?
  {
    assert s[..10] == "github.com" && s[10] == '/';
    var rest := s[11..];
    assert rest == a + "/" + (b + "/" + c);
    FirstIndexAt(rest, '/', |a|);
    assert rest[|a| + 1..] == b + "/" + c;
    LazyStopsAtSlash(b, c, 1);
  }

  /** No match starts inside a text that does not mention the host. */
  lemma NoMatchInside(t: string, j: nat)
    requires j <= |t| && !Contains(t, "github.com")
    ensures MatchHere(Web, t[j..]).None?
  {
    if StartsWith(t[j..], "github.com") {
      assert t[j..][..10] == t[j..j + 10];
      ContainsAt(t, "github.com", j);
    }
  }

  /** No match starts in "https://github.com/" except at its host. */
  lemma NoMatchInHttpsPrefix(url: string)
    requires StartsWith(url, "https://github.com/")
    ensures forall k :: 0 <= k < 19 && k != 8 ==> MatchHere(Web, url[k..]).None?
  {
    forall k | 0 <= k < 19 && k != 8 ensures MatchHere(Web, url[k..]).None? {
      assert url[k] == url[..19][k];
      NoMatchAtNonG(url, k);
    }
  }

  /** "https://github.com/a/b/c" is rejected: the repository group cannot swallow a `/`. */
  lemma ThreeSegmentsRejected(url: string, a: string, b: string, c: string)
    requires PlainName(a) && PlainName(b) && PlainName(c)
    requires !Contains(a + "/" + b + "/" + c, "github.com")
    requires url == "https://github.com/" + a + "/" + b + "/" + c
    ensures ParseGithubUrl(url) == None
  {
    assert StartsWith(url, "https://github.com/") && url[19..] == a + "/" + b + "/" + c by {
      assert url[..19] == "https://github.com/";
    }
    NoWebMatchInThreeSegments(url, a, b, c);
    NoWebMatchRejected(url);
  }

  /** Without a Web match at any position, the URL is rejected. */
  lemma NoWebMatchRejected(url: string)
    requires forall k :: 0 <= k <= |url| ==> MatchHere(Web, url[k..]).None?
    ensures ParseGithubUrl(url) == None
  {
    SearchSkips(Web, url, 0, |url| + 1);
    SshPatternIsDead(url);
  }

  lemma NoWebMatchInThreeSegments(url: string, a: string, b: string, c: string)
    requires PlainName(a) && PlainName(b) && PlainName(c)
    requires !Contains(a + "/" + b + "/" + c, "github.com")
    requires StartsWith(url, "https://github.com/") && url[19..] == a + "/" + b + "/" + c
    ensures forall k :: 0 <= k <= |url| ==> MatchHere(Web, url[k..]).None?
  {
    NoMatchInHttpsPrefix(url);
    NoMatchAtHttpsHost(url, a, b, c);
    NoMatchInTail(url, url[19..]);
    NoMatchAnywhere(url);
  }

  lemma NoMatchAtHttpsHost(url: string, a: string, b: string, c: string)
    requires PlainName(a) && PlainName(b) && PlainName(c)
    requires StartsWith(url, "https://github.com/") && url[19..] == a + "/" + b + "/" + c
    ensures MatchHere(Web, url[8..]).None?
  {
    var s := url[8..];
    assert s == "github.com/" + a + "/" + b + "/" + c by {
      assert url[8..19] == url[..19][8..];
      assert "https://github.com/"[8..] == "github.com/";
      assert url[8..] == url[8..19] + url[19..];
    }
    NoMatchAtHost(s, a, b, c);
  }

  /** The three stretches of the URL together leave no start position with a match. */
  lemma NoMatchAnywhere(url: string)
    requires |url| >= 19
    requires forall k :: 0 <= k < 19 && k != 8 ==> MatchHere(Web, url[k..]).None?
    requires MatchHere(Web, url[8..]).None?
    requires forall k :: 19 <= k <= |url| ==> MatchHere(Web, url[k..]).None?
    ensures forall k :: 0 <= k <= |url| ==> MatchHere(Web, url[k..]).None?
  {
  }

  lemma NoMatchInTail(url: string, tail: string)
    requires |url| >= 19 && url[19..] == tail && !Contains(tail, "github.com")
    ensures forall k :: 19 <= k <= |url| ==> MatchHere(Web, url[k..]).None?
  {
    forall k | 19 <= k <= |url| ensures MatchHere(Web, url[k..]).None? {
      NoMatchInTailAt(url, tail, k);
    }
  }

  lemma NoMatchInTailAt(url: string, tail: string, k: nat)
    requires |url| >= 19 && url[19..] == tail && !Contains(tail, "github.com") && 19 <= k <= |url|
    ensures MatchHere(Web, url[k..]).None?
  {
    if StartsWith(url[k..], "github.com") {
      assert tail[k - 19..k - 9] == url[k..][..10];
      ContainsAt(tail, "github.com", k - 19);
    }
    NoLeadNoMatch(url[k..]);
  }

  /** Without the host at its start, no match starts there. */
  lemma NoLeadNoMatch(s: string)
    requires !StartsWith(s, "github.com")
    ensures MatchHere(Web, s).None?
  {
  }
}
