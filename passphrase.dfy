/**
 * Access quotas.  A passphrase is valid when it is the administrator's or
 * the class repository name followed by 1, 2 or 3 (an evaluator).  The
 * administrator is unlimited; an evaluator may crawl one repository and
 * ask two questions.  Usage is kept in a table of rows, one per crawl and
 * one per passphrase for questions, which the checks and the recorders
 * read and update.
 */
module Passphrases {
  import opened Wrappers
  import opened Strings
  import opened Sequences

  /** The two configurable settings the rules read. */
  datatype Settings = Settings(adminPassphrase: string, classRepoName: string)

  const Defaults := Settings("manthos-owner", "ai-dev-tools-zoomcamp")

  const InvalidMessage := "Invalid passphrase. Please use your assigned evaluator passphrase."
  const CrawlLimitMessage := "You have already crawled 1 repository. Each evaluator can crawl only 1 repository."
  const QuestionLimitMessage := "You have already asked 2 questions. Each evaluator can ask only 2 questions."

  /** `(allowed, error_message)` as the checks return it. */
  datatype Verdict = Verdict(allowed: bool, message: string)

  /** A `passphrase_usage` row; `repoId` is set on rows that record a crawl. */
  datatype UsageRow = UsageRow(id: nat, passphrase: string, repoId: Option<nat>, questionsAsked: nat)

  /** `is_valid_passphrase` */
  function IsValidPassphrase(s: Settings, p: string): (b: bool)
    ensures b <==>
      (p != "" && (p == s.adminPassphrase ||
                   (|p| == |s.classRepoName| + 1 && StartsWith(p, s.classRepoName) && p[|p| - 1] in {'1', '2', '3'})))
  {
    if p == "" then false
    else if p == s.adminPassphrase then true
    else
      var c := s.classRepoName;
      assert forall d :: (c + [d])[..|c|] == c && (c + [d])[|c|] == d;
      assert |p| == |c| + 1 && StartsWith(p, c) ==> p == c + [p[|p| - 1]];
      p in [c + "1", c + "2", c + "3"]
  }

  /** `is_admin_passphrase` */
  predicate IsAdminPassphrase(s: Settings, p: string) {
    p == s.adminPassphrase
  }

  predicate Owns(p: string, row: UsageRow) {
    row.passphrase == p
  }

  /** The row `get_or_create_passphrase_usage` finds: the first one for `p`. */
  function UsageOf(rows: seq<UsageRow>, p: string): Option<nat> {
    FirstWhere(rows, row => Owns(p, row))
  }

  /** The table after `get_or_create_passphrase_usage(p)`, inserting with id `newId` when needed. */
  function WithUsage(rows: seq<UsageRow>, newId: nat, p: string): (r: seq<UsageRow>)
    ensures UsageOf(r, p).Some?
  {
    if UsageOf(rows, p).Some? then rows
    else
      var r := rows + [UsageRow(newId, p, None, 0)];
      assert Owns(p, r[|rows|]);
      assert UsageOf(r, p).Some?;
      r
  }

  /** How many rows record a crawl by `p`. */
  function CrawledCount(rows: seq<UsageRow>, p: string): (n: nat)
    ensures n <= |rows|
    ensures n == 0 <==> forall k :: 0 <= k < |rows| ==> !(rows[k].passphrase == p && rows[k].repoId.Some?)
  {
    if rows == [] then 0
    else
      var rest := CrawledCount(rows[1..], p);
      assert forall k :: 1 <= k < |rows| ==> rows[k] == rows[1..][k - 1];
      (if rows[0].passphrase == p && rows[0].repoId.Some? then 1 else 0) + rest
  }

  /** The questions counted for `p`: those on its first row, 0 when it has none. */
  function QuestionsOf(rows: seq<UsageRow>, p: string): nat {
    match UsageOf(rows, p)
    case Some(i) => rows[i].questionsAsked
    case None => 0
  }

  /** `can_crawl_repository`, on the table as it stands before the call. */
  function CrawlVerdict(s: Settings, rows: seq<UsageRow>, p: string): Verdict {
    if !IsValidPassphrase(s, p) then Verdict(false, InvalidMessage)
    else if IsAdminPassphrase(s, p) then Verdict(true, "")
    else if CrawledCount(rows, p) >= 1 then Verdict(false, CrawlLimitMessage)
    else Verdict(true, "")
  }

  /** `can_ask_question`, on the table as it stands before the call. */
  function AskVerdict(s: Settings, rows: seq<UsageRow>, p: string): Verdict {
    if !IsValidPassphrase(s, p) then Verdict(false, InvalidMessage)
    else if IsAdminPassphrase(s, p) then Verdict(true, "")
    else if QuestionsOf(rows, p) >= 2 then Verdict(false, QuestionLimitMessage)
    else Verdict(true, "")
  }

  /** The first row of `p` with one more question; `p` must have a row. */
  function Bumped(rows: seq<UsageRow>, p: string): (r: seq<UsageRow>)
    requires UsageOf(rows, p).Some?
    ensures |r| == |rows|
    ensures var i := UsageOf(rows, p).value;
      && r[i] == rows[i].(questionsAsked := rows[i].questionsAsked + 1)
      && forall k :: 0 <= k < |rows| && k != i ==> r[k] == rows[k]
  {
    var i := UsageOf(rows, p).value;
    rows[i := rows[i].(questionsAsked := rows[i].questionsAsked + 1)]
  }

  /** The table after `record_question_asked(p)`. */
  function AfterQuestion(s: Settings, rows: seq<UsageRow>, newId: nat, p: string): seq<UsageRow> {
    if IsAdminPassphrase(s, p) then rows else Bumped(WithUsage(rows, newId, p), p)
  }

  /** The table after `record_repository_crawl(p, repo)`. */
  function AfterCrawl(s: Settings, rows: seq<UsageRow>, newId: nat, p: string, repo: nat): seq<UsageRow> {
    if IsAdminPassphrase(s, p) then rows else rows + [UsageRow(newId, p, Some(repo), 0)]
  }

  /** The `passphrase_usage` table; ids are drawn from a counter. */
  class UsageTable {
    var rows: seq<UsageRow>
    var nextId: nat

    constructor ()
      ensures rows == [] && nextId == 0
    {
      rows := [];
      nextId := 0;
    }

    /** `get_or_create_passphrase_usage`: the index of the row for `p`. */
    method GetOrCreate(p: string) returns (i: nat)
      modifies this
      ensures rows == WithUsage(old(rows), old(nextId), p)
      ensures nextId == if old(UsageOf(rows, p)).Some? then old(nextId) else old(nextId) + 1
      ensures i < |rows| && rows[i].passphrase == p && UsageOf(rows, p) == Some(i)
    {
      var found := UsageOf(rows, p);
      if found.Some? {
        i := found.value;
      } else {
        rows := rows + [UsageRow(nextId, p, None, 0)];
        nextId := nextId + 1;
        i := |rows| - 1;
      }
    }

    /** `can_crawl_repository`: an evaluator's check also creates its row. */
    method CanCrawl(s: Settings, p: string) returns (v: Verdict)
      modifies this
      ensures v == CrawlVerdict(s, old(rows), p)
      ensures IsValidPassphrase(s, p) && !IsAdminPassphrase(s, p) ==> rows == WithUsage(old(rows), old(nextId), p)
      ensures !IsValidPassphrase(s, p) || IsAdminPassphrase(s, p) ==> rows == old(rows)
    {
      if !IsValidPassphrase(s, p) {
        return Verdict(false, InvalidMessage);
      }
      if IsAdminPassphrase(s, p) {
        return Verdict(true, "");
      }
      var _ := GetOrCreate(p);
      CreatedRowIsNoCrawl(old(rows), old(nextId), p);
      var crawled := CrawledCount(rows, p);
      if crawled >= 1 {
        return Verdict(false, CrawlLimitMessage);
      }
      return Verdict(true, "");
    }

    /** `can_ask_question`: an evaluator's check also creates its row. */
    method CanAsk(s: Settings, p: string) returns (v: Verdict)
      modifies this
      ensures v == AskVerdict(s, old(rows), p)
      ensures IsValidPassphrase(s, p) && !IsAdminPassphrase(s, p) ==> rows == WithUsage(old(rows), old(nextId), p)
      ensures !IsValidPassphrase(s, p) || IsAdminPassphrase(s, p) ==> rows == old(rows)
    {
      if !IsValidPassphrase(s, p) {
        return Verdict(false, InvalidMessage);
      }
      if IsAdminPassphrase(s, p) {
        return Verdict(true, "");
      }
      var i := GetOrCreate(p);
      CreatedRowHasNoQuestions(old(rows), old(nextId), p);
      if rows[i].questionsAsked >= 2 {
        return Verdict(false, QuestionLimitMessage);
      }
      return Verdict(true, "");
    }

    /** `record_repository_crawl` */
    method RecordCrawl(s: Settings, p: string, repo: nat)
      modifies this
      ensures rows == AfterCrawl(s, old(rows), old(nextId), p, repo)
    {
      if IsAdminPassphrase(s, p) {
        return;
      }
      rows := rows + [UsageRow(nextId, p, Some(repo), 0)];
      nextId := nextId + 1;
    }

    /** `record_question_asked` */
    method RecordQuestion(s: Settings, p: string)
      modifies this
      ensures rows == AfterQuestion(s, old(rows), old(nextId), p)
    {
      if IsAdminPassphrase(s, p) {
        return;
      }
      var i := GetOrCreate(p);
      rows := rows[i := rows[i].(questionsAsked := rows[i].questionsAsked + 1)];
    }
  }

  /** The row `get_or_create` adds records no crawl. */
  lemma CreatedRowIsNoCrawl(rows: seq<UsageRow>, newId: nat, p: string)
    ensures CrawledCount(WithUsage(rows, newId, p), p) == CrawledCount(rows, p)
  {
    if UsageOf(rows, p).None? {
      CrawledCountAppend(rows, UsageRow(newId, p, None, 0), p);
    }
  }

  lemma {:induction false} CrawledCountAppend(rows: seq<UsageRow>, row: UsageRow, p: string)
    ensures CrawledCount(rows + [row], p)
         == CrawledCount(rows, p) + (if row.passphrase == p && row.repoId.Some? then 1 else 0)
  {
    if rows != [] {
      assert (rows + [row])[1..] == rows[1..] + [row];
      CrawledCountAppend(rows[1..], row, p);
    } else {
      assert [row][1..] == [];
    }
  }

  /** Rows before the first row of `p` are untouched by an append, so the first row stays first. */
  lemma UsageOfAppend(rows: seq<UsageRow>, row: UsageRow, p: string)
    requires UsageOf(rows, p).Some?
    ensures UsageOf(rows + [row], p) == UsageOf(rows, p)
  {
    var i := UsageOf(rows, p).value;
    var r := rows + [row];
    assert Owns(p, r[i]);
    assert forall k :: 0 <= k < i ==> r[k] == rows[k];
    FirstWhereAt(r, (x: UsageRow) => Owns(p, x), i);
  }

  /** The row `get_or_create` adds for `p` has no questions on it. */
  lemma CreatedRowHasNoQuestions(rows: seq<UsageRow>, newId: nat, p: string)
    ensures QuestionsOf(WithUsage(rows, newId, p), p) == QuestionsOf(rows, p)
  {
    if UsageOf(rows, p).None? {
      var r := rows + [UsageRow(newId, p, None, 0)];
      FirstWhereAt(r, (x: UsageRow) => Owns(p, x), |rows|);
    }
  }

  /** An empty passphrase is never valid, whatever the settings say. */
  lemma EmptyNeverValid(s: Settings)
    ensures !IsValidPassphrase(s, "")
    ensures CrawlVerdict(s, [], "") == Verdict(false, InvalidMessage)
  {
  }

  /** With the default settings: the administrator and the three evaluators, and nobody else. */
  lemma DefaultPassphrases()
    ensures IsValidPassphrase(Defaults, "manthos-owner") && IsAdminPassphrase(Defaults, "manthos-owner")
    ensures IsValidPassphrase(Defaults, "ai-dev-tools-zoomcamp1")
    ensures IsValidPassphrase(Defaults, "ai-dev-tools-zoomcamp3")
    ensures !IsValidPassphrase(Defaults, "ai-dev-tools-zoomcamp4")
    ensures !IsValidPassphrase(Defaults, "ai-dev-tools-zoomcamp")
  {
    var c := Defaults.classRepoName;
    assert "ai-dev-tools-zoomcamp1" == c + "1";
    assert "ai-dev-tools-zoomcamp3" == c + "3";
    assert "ai-dev-tools-zoomcamp4"[|"ai-dev-tools-zoomcamp4"| - 1] == '4';
  }

  /** An invalid passphrase is refused by both checks with the same message. */
  lemma InvalidRefused(s: Settings, rows: seq<UsageRow>, p: string)
    requires !IsValidPassphrase(s, p)
    ensures CrawlVerdict(s, rows, p) == Verdict(false, InvalidMessage)
    ensures AskVerdict(s, rows, p) == Verdict(false, InvalidMessage)
  {
  }

  /** The administrator is allowed everything and is never tracked. */
  lemma AdminUnlimited(s: Settings, rows: seq<UsageRow>, newId: nat, repo: nat)
    requires s.adminPassphrase != ""
    ensures CrawlVerdict(s, rows, s.adminPassphrase) == Verdict(true, "")
    ensures AskVerdict(s, rows, s.adminPassphrase) == Verdict(true, "")
    ensures AfterCrawl(s, rows, newId, s.adminPassphrase, repo) == rows
    ensures AfterQuestion(s, rows, newId, s.adminPassphrase) == rows
  {
  }

  /** An evaluator may crawl exactly while no crawl of theirs is recorded. */
  lemma EvaluatorCrawlRule(s: Settings, rows: seq<UsageRow>, p: string)
    requires IsValidPassphrase(s, p) && !IsAdminPassphrase(s, p)
    ensures CrawlVerdict(s, rows, p).allowed <==>
              forall k :: 0 <= k < |rows| ==> !(rows[k].passphrase == p && rows[k].repoId.Some?)
  {
  }

  /** After one recorded crawl an evaluator is refused any further crawl. */
  lemma EvaluatorCrawlsOnce(s: Settings, rows: seq<UsageRow>, newId: nat, p: string, repo: nat)
    requires IsValidPassphrase(s, p) && !IsAdminPassphrase(s, p)
    ensures CrawlVerdict(s, AfterCrawl(s, rows, newId, p, repo), p) == Verdict(false, CrawlLimitMessage)
  {
    CrawledCountAppend(rows, UsageRow(newId, p, Some(repo), 0), p);
  }

  /** Each recorded question adds exactly one to the count the check reads. */
  lemma QuestionCounts(s: Settings, rows: seq<UsageRow>, newId: nat, p: string)
    requires !IsAdminPassphrase(s, p)
    ensures QuestionsOf(AfterQuestion(s, rows, newId, p), p) == QuestionsOf(rows, p) + 1
  {
    CreatedRowHasNoQuestions(rows, newId, p);
    var w := WithUsage(rows, newId, p);
    var i := UsageOf(w, p).value;
    var b := Bumped(w, p);
    assert Owns(p, b[i]);
    FirstWhereAt(b, (x: UsageRow) => Owns(p, x), i);
  }

  /** A new evaluator may ask twice, and is refused the third time. */
  lemma EvaluatorAsksTwice(s: Settings, rows: seq<UsageRow>, f1: nat, f2: nat, p: string)
    requires IsValidPassphrase(s, p) && !IsAdminPassphrase(s, p)
    requires UsageOf(rows, p).None?
    ensures AskVerdict(s, rows, p).allowed
    ensures var r1 := AfterQuestion(s, rows, f1, p);
      && AskVerdict(s, r1, p).allowed
      && AskVerdict(s, AfterQuestion(s, r1, f2, p), p) == Verdict(false, QuestionLimitMessage)
  {
    var r1 := AfterQuestion(s, rows, f1, p);
    QuestionCounts(s, rows, f1, p);
    QuestionCounts(s, r1, f2, p);
  }

  /** `get_or_create` on a table that already has the row changes nothing. */
  lemma GetOrCreateIdempotent(rows: seq<UsageRow>, f1: nat, f2: nat, p: string)
    ensures WithUsage(WithUsage(rows, f1, p), f2, p) == WithUsage(rows, f1, p)
    ensures UsageOf(rows, p).Some? ==> WithUsage(rows, f1, p) == rows
  {
  }
}
