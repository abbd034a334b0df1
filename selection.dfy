/**
 * Which tasks a downloader run works on: the stage/subject/version
 * filter with its teacher-book exclusion and limit, and the selection
 * made in retry mode.
 */
module Selection {
  import opened Strings
  import opened Tasks
  import opened Sequences

  const TeacherBook := "教师用书"
  const TeachingGuide := "教学指南"

  /** `normalize_string`: `s.strip().lower()`. */
  function NormalizeString(s: string): (r: string)
    ensures |r| <= |s|
    ensures forall i :: 0 <= i < |r| ==> !('A' <= r[i] <= 'Z')
  {
    Lower(Strip(s, Whitespace))
  }

  /**
   * The options of `filter_tasks`; an empty string is an option that was
   * not given, and a `limit` of 0 is no limit (both are falsy in Python).
   */
  datatype Filter = Filter(stage: string, subject: string, version: string, limit: int, excludeTeacherBooks: bool)

  /** A teacher's book by its grade or by its save path. */
  predicate IsTeacherBook(t: Task)
  {
    t.metadata.grade == TeacherBook || Contains(t.savePath, TeacherBook)
  }

  /** The stage condition; the teaching-guide stage also selects tasks without a stage. */
  predicate StageMatches(f: Filter, t: Task)
  {
    f.stage == ""
    || (NormalizeString(f.stage) == TeachingGuide && t.metadata.stage == "")
    || NormalizeString(t.metadata.stage) == NormalizeString(f.stage)
  }

  /** All conditions of `filter_tasks` except the limit. */
  predicate Selected(f: Filter, t: Task)
  {
    !(f.excludeTeacherBooks && IsTeacherBook(t))
    && StageMatches(f, t)
    && (f.subject == "" || NormalizeString(t.metadata.subject) == NormalizeString(f.subject))
    && (f.version == "" || NormalizeString(t.metadata.version) == NormalizeString(f.version))
  }

  /** The selected tasks, in their order. */
  function Matching(tasks: seq<Task>, f: Filter): seq<Task>
  {
    Keep(tasks, t => Selected(f, t))
  }

  /**
   * How many selected tasks a limit keeps: the loop stops once the result
   * has at least `limit` elements, so a negative limit keeps one.
   */
  function Cap(limit: int): nat
    requires limit != 0
  {
    if limit > 0 then limit else 1
  }

  function Take<T>(s: seq<T>, n: nat): seq<T>
  {
    if n < |s| then s[..n] else s
  }

  /** The list `filter_tasks` returns. */
  function Filtered(tasks: seq<Task>, f: Filter): seq<Task>
  {
    if f.limit == 0 then Matching(tasks, f) else Take(Matching(tasks, f), Cap(f.limit))
  }

  /**
   * `filter_tasks` returns an order-preserving subsequence of the tasks, of
   * selected tasks only; a positive limit bounds its length, a negative one
   * keeps at most one task, and without a limit every selected task is kept.
   */
  lemma FilteredProperties(tasks: seq<Task>, f: Filter)
    ensures var r := Filtered(tasks, f);
            && IsSubsequence(r, tasks)
            && (forall t :: t in r ==> Selected(f, t))
            && (f.limit > 0 ==> |r| <= f.limit)
            && (f.limit < 0 ==> |r| <= 1)
            && (f.limit == 0 ==> forall t :: t in tasks && Selected(f, t) ==> t in r)
  {
    KeepIsSubsequence(tasks, t => Selected(f, t));
    var m := Matching(tasks, f);
    var r := Filtered(tasks, f);
    forall t | t in tasks
      ensures t in m <==> Selected(f, t)
    {
      KeepMembers(tasks, t => Selected(f, t), t);
    }
    forall t | t in r
      ensures t in m && Selected(f, t)
    {
      KeepMembers(tasks, t => Selected(f, t), t);
    }
    if f.limit != 0 && Cap(f.limit) < |m| {
      SubsequencePrefix(m, tasks, Cap(f.limit));
    }
  }

  /** With teacher books excluded, no kept task is one by grade or by save path. */
  lemma FilteredExcludesTeacherBooks(tasks: seq<Task>, f: Filter)
    requires f.excludeTeacherBooks
    ensures forall t :: t in Filtered(tasks, f) ==>
              t.metadata.grade != TeacherBook && !Contains(t.savePath, TeacherBook)
  {
    FilteredProperties(tasks, f);
  }

  /** Asking for the teaching-guide stage also keeps the tasks whose stage is empty. */
  lemma TeachingGuideSelectsEmptyStage(f: Filter, t: Task)
    requires NormalizeString(f.stage) == TeachingGuide && t.metadata.stage == ""
    ensures StageMatches(f, t)
  {
  }

  /** A filter without any option keeps every task. */
  lemma {:induction false} EmptyFilterKeepsAll(tasks: seq<Task>)
    ensures Filtered(tasks, Filter("", "", "", 0, false)) == tasks
    decreases |tasks|
  {
    if tasks != [] {
      EmptyFilterKeepsAll(tasks[..|tasks| - 1]);
      assert tasks[..|tasks| - 1] + [tasks[|tasks| - 1]] == tasks;
    }
  }

  /** Python's `s[:n]` for any integer `n`: a negative `n` drops that many from the end. */
  function PySlice<T>(s: seq<T>, n: int): (r: seq<T>)
    ensures n >= 0 ==> r == s[..if n < |s| then n else |s|]
    ensures n < 0 ==> r == s[..if |s| + n > 0 then |s| + n else 0]
  {
    if n >= |s| then s else if n >= 0 then s[..n] else if |s| + n > 0 then s[..|s| + n] else []
  }

  /** The tasks `run` passes on to `download_batch`. */
  function TasksToDownload(retryFailed: bool, tasks: seq<Task>, f: Filter): seq<Task>
  {
    if retryFailed then (if f.limit != 0 then PySlice(tasks, f.limit) else tasks)
    else if f.stage != "" || f.subject != "" || f.version != "" || f.limit != 0 || f.excludeTeacherBooks then
      Filtered(tasks, f)
    else tasks
  }

  /**
   * In retry mode the stage, subject and version options are ignored; a
   * limit takes a prefix. Otherwise the run works on exactly the filtered tasks.
   */
  lemma TasksToDownloadProperties(retryFailed: bool, tasks: seq<Task>, f: Filter)
    ensures retryFailed ==>
              TasksToDownload(retryFailed, tasks, f) == TasksToDownload(retryFailed, tasks, f.(stage := "", subject := "", version := ""))
    ensures retryFailed ==> exists k :: 0 <= k <= |tasks| && TasksToDownload(retryFailed, tasks, f) == tasks[..k]
    ensures !retryFailed ==> TasksToDownload(retryFailed, tasks, f) == Filtered(tasks, f)
  {
    if retryFailed {
      var r := TasksToDownload(retryFailed, tasks, f);
      if f.limit == 0 {
        assert r == tasks[..|tasks|];
      } else {
        var k := if f.limit >= 0 then (if f.limit < |tasks| then f.limit else |tasks|)
                 else (if |tasks| + f.limit > 0 then |tasks| + f.limit else 0);
        assert r == tasks[..k];
      }
    } else if !(f.stage != "" || f.subject != "" || f.version != "" || f.limit != 0 || f.excludeTeacherBooks) {
      EmptyFilterKeepsAll(tasks);
      assert f == Filter("", "", "", 0, false);
    }
  }
}
