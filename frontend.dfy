/**
 * The front-end data generator: it keeps the PDF tasks of the task list,
 * numbers them from 1, picks the network-disk share of each book's stage,
 * labels its size, and counts the books of each stage.
 */
module Frontend {
  import opened Strings
  import opened Counting
  import opened Sequences
  import opened Tasks
  import opened TaskGen

  /** A network-disk share: its link and its extraction code. */
  datatype Share = Share(link: string, pwd: string)

  /** `baidu_shares`: one share per root directory of the disk. */
  const BaiduShares: map<string, Share> := map[
    "小学" := Share("https://pan.baidu.com/s/1RwgeLrJ8U7x1Pg0PrwS15g?pwd=sd2g", "sd2g"),
    "初中" := Share("https://pan.baidu.com/s/1hodX8Fej65IRIhA0a_nudg?pwd=956v", "956v"),
    "高中" := Share("https://pan.baidu.com/s/1OY-f2nFD3uTKv23AY_BcNA?pwd=tars", "tars"),
    "特教" := Share("https://pan.baidu.com/s/1o0ISWapr3fiqn5cZM0IQEw?pwd=tq4d", "tq4d"),
    "教师用书" := Share("https://pan.baidu.com/s/13LaRQ0QypzJDJfsLf7YINg?pwd=eiua", "eiua"),
    "小学54" := Share("https://pan.baidu.com/s/1BgEK1XzEZBRvRNarhnmH2A?pwd=md5q", "md5q"),
    "初中54" := Share("https://pan.baidu.com/s/1ouYCt1pBosgiXDRVIJk8GA?pwd=ynpr", "ynpr")
  ]

  /** The file name of a task names a PDF. */
  predicate IsPdfTask(t: Task)
  {
    |t.fileName| >= 4 && t.fileName[|t.fileName| - 4..] == ".pdf"
  }

  /** `pdf_tasks`: the tasks whose file name ends with `.pdf`, in their order. */
  function PdfTasks(tasks: seq<Task>): seq<Task>
  {
    Keep(tasks, IsPdfTask)
  }

  /** The kept tasks are exactly the PDF tasks, in their original order. */
  lemma PdfTasksKept(tasks: seq<Task>, t: Task)
    ensures IsSubsequence(PdfTasks(tasks), tasks)
    ensures t in PdfTasks(tasks) <==> t in tasks && IsPdfTask(t)
  {
    KeepIsSubsequence(tasks, IsPdfTask);
    KeepMembers(tasks, IsPdfTask, t);
  }

  /** A task the generator builds names a PDF. */
  lemma TaskOfIsPdf(p: Pending, k: nat)
    ensures IsPdfTask(TaskAt(p, k))
  {
    var meta := ParseCatalogPath(p.book.path);
    GenerateFileNameSafe(meta, TitleOf(p.book));
  }

  /** The filter keeps every task the generator writes. */
  lemma GeneratedTasksKept(ps: seq<Pending>, n: nat)
    ensures PdfTasks(TasksFrom(ps, n)) == TasksFrom(ps, n)
  {
    var ts := TasksFrom(ps, n);
    forall i | 0 <= i < |ts| ensures IsPdfTask(ts[i]) {
      TaskOfIsPdf(ps[i], n + i + 1);
    }
    KeepAll(ts, IsPdfTask);
  }

  /** The share directory a stage's books are in. */
  function ShareKey(stage: string): string
  {
    if Contains(stage, "五•四学制") then
      if Contains(stage, "小学") then "小学54"
      else if Contains(stage, "初中") then "初中54"
      else Replace(stage, "（五•四学制）", "")
    else if stage == "特殊教育" then "特教"
    else stage
  }

  /** `baidu_shares.get(share_key, baidu_shares.get('小学'))` */
  function ShareFor(key: string): (r: Share)
    ensures r in BaiduShares.Values
    ensures key in BaiduShares ==> r == BaiduShares[key]
    ensures key !in BaiduShares ==> r == BaiduShares["小学"]
  {
    if key in BaiduShares then BaiduShares[key] else BaiduShares["小学"]
  }

  /**
   * Every stage the catalog names, apart from the unknown stage, has a
   * share of its own; the unknown stage falls back to the primary-school
   * share.
   */
  lemma ShareKeysOfStages()
    ensures forall s :: s in StageMap && s != "" && s != "未知学段" ==> ShareKey(s) in BaiduShares
  {
    forall s | s in StageMap && s != "" && s != "未知学段" ensures ShareKey(s) in BaiduShares {
      StageHasShare(s);
    }
  }

  /** The unknown stage has no share of its own and falls back to the primary-school share. */
  lemma UnknownStageShare()
    ensures ShareKey("未知学段") == "未知学段" && "未知学段" !in BaiduShares
    ensures ShareFor(ShareKey("未知学段")) == BaiduShares["小学"]
  {
    ShareKeyPlain("未知学段");
  }

  lemma StageHasShare(s: string)
    requires s in StageMap && s != "" && s != "未知学段"
    ensures ShareKey(s) in BaiduShares
  {
    assert s in {"小学", "初中", "高中", "小学（五•四学制）", "初中（五•四学制）", "特殊教育"};
    if s == "小学（五•四学制）" {
      ShareKeyPrimary54();
    } else if s == "初中（五•四学制）" {
      ShareKeyMiddle54();
    } else {
      ShareKeyPlain(s);
    }
  }

  /** A stage too short to name the five-four system keeps its name, unless it is 特殊教育. */
  lemma ShareKeyPlain(stage: string)
    requires |stage| < 5
    ensures ShareKey(stage) == if stage == "特殊教育" then "特教" else stage
  {
    ContainsTooLong(stage, "五•四学制");
  }

  lemma ShareKeyPrimary54()
    ensures ShareKey("小学（五•四学制）") == "小学54"
  {
    var s := "小学（五•四学制）";
    ContainsAt(s, "五•四学制", 3);
    ContainsAt(s, "小学", 0);
  }

  lemma ShareKeyMiddle54()
    ensures ShareKey("初中（五•四学制）") == "初中54"
  {
    var s := "初中（五•四学制）";
    ContainsAt(s, "五•四学制", 3);
    ContainsAt(s, "初中", 0);
    NoPrimaryInMiddle();
  }

  lemma NoPrimaryInMiddle()
    ensures !Contains("初中（五•四学制）", "小学")
  {
    ContainsNeedsFirst("初中（五•四学制）", "小学");
  }

  /** `size_map`: the usual size range of a stage's books. */
  const SizeMap: map<string, string> := map[
    "小学" := "10-50MB",
    "初中" := "20-80MB",
    "高中" := "50-100MB",
    "特殊教育" := "10-30MB"
  ]

  /** `size_map.get(stage.split('（')[0], '10-50MB')` */
  function DefaultSize(stage: string): (r: string)
    ensures r in {"10-50MB", "20-80MB", "50-100MB", "10-30MB"}
  {
    var prefix := Split(stage, '（')[0];
    if prefix in SizeMap then SizeMap[prefix] else "10-50MB"
  }

  /**
   * The default size of a stage is looked up by the part of the stage
   * before its first full-width parenthesis, the whole stage when it has
   * none.
   */
  lemma DefaultSizeByPrefix(a: string, b: string)
    requires '（' !in a
    ensures DefaultSize(a) == DefaultSize(a + "（" + b)
    ensures DefaultSize(a) == if a in SizeMap then SizeMap[a] else "10-50MB"
  {
    SplitNoSeparator(a, '（');
    SplitAtSeparator(a, '（', b);
    assert a + "（" + b == a + ['（'] + b;
  }

  /** The default size of each stage the catalog names. */
  lemma DefaultSizeOfStages()
    ensures DefaultSize("小学") == "10-50MB" && DefaultSize("小学（五•四学制）") == "10-50MB"
    ensures DefaultSize("初中") == "20-80MB" && DefaultSize("初中（五•四学制）") == "20-80MB"
    ensures DefaultSize("高中") == "50-100MB" && DefaultSize("特殊教育") == "10-30MB"
    ensures DefaultSize("未知学段") == "10-50MB"
  {
    DefaultSizePrimary();
    DefaultSizeMiddle();
    DefaultSizeOthers();
  }

  lemma DefaultSizePrimary()
    ensures DefaultSize("小学") == "10-50MB" && DefaultSize("小学（五•四学制）") == "10-50MB"
  {
    SizeMapEntries();
    DefaultSize54("小学");
  }

  lemma DefaultSizeMiddle()
    ensures DefaultSize("初中") == "20-80MB" && DefaultSize("初中（五•四学制）") == "20-80MB"
  {
    SizeMapEntries();
    DefaultSize54("初中");
  }

  lemma DefaultSizeOthers()
    ensures DefaultSize("高中") == "50-100MB" && DefaultSize("特殊教育") == "10-30MB"
    ensures DefaultSize("未知学段") == "10-50MB"
  {
    SizeMapEntries();
    DefaultSizePlain("高中");
    DefaultSizePlain("特殊教育");
    DefaultSizePlain("未知学段");
  }

  lemma SizeMapEntries()
    ensures SizeMap["小学"] == "10-50MB" && SizeMap["初中"] == "20-80MB"
    ensures SizeMap["高中"] == "50-100MB" && SizeMap["特殊教育"] == "10-30MB"
    ensures "未知学段" !in SizeMap
  {
  }

  lemma DefaultSizePlain(a: string)
    requires '（' !in a
    ensures DefaultSize(a) == if a in SizeMap then SizeMap[a] else "10-50MB"
  {
    SplitNoSeparator(a, '（');
  }

  lemma DefaultSize54(a: string)
    requires a == "小学" || a == "初中"
    ensures DefaultSize(a) == SizeMap[a]
    ensures DefaultSize(a + "（五•四学制）") == SizeMap[a]
  {
    DefaultSizeByPrefix(a, "五•四学制）");
    assert a + "（" + "五•四学制）" == a + "（五•四学制）";
  }

  /**
   * The size shown for a book: the stage's usual range, or the measured
   * size in bytes, which the page shows in megabytes.
   */
  datatype Size = Range(range: string) | Measured(bytes: int)

  /** The size of a task's book. */
  function SizeOf(t: Task): (r: Size)
    ensures r.Measured? <==> t.sizeBytes > 0
    ensures r.Range? ==> r.range in {"10-50MB", "20-80MB", "50-100MB", "10-30MB"}
  {
    if t.sizeBytes > 0 then Measured(t.sizeBytes) else Range(DefaultSize(t.metadata.stage))
  }

  /** A book as the front end lists it. */
  datatype Textbook = Textbook(
    id: nat,
    name: string,
    stage: string,
    subject: string,
    gradeStr: string,
    term: string,
    publisher: string,
    size: Size,
    pathInDisk: string,
    fileName: string,
    sizeBytes: int)

  /**
   * The entry of task `t`, numbered `idx`. Task metadata has no `term`
   * key, so the term is always empty.
   */
  function TextbookOf(t: Task, idx: nat): Textbook
  {
    Textbook(idx, t.originalTitle, t.metadata.stage, t.metadata.subject, t.metadata.grade, "",
             t.metadata.version, SizeOf(t), t.savePath, t.fileName, t.sizeBytes)
  }

  /** The entries of `pdf`, numbered from 1. */
  function Textbooks(pdf: seq<Task>): seq<Textbook>
  {
    Numbered(pdf, 0, TextbookOf)
  }

  /** Entry `i` comes from task `i` and has id `i + 1`: the ids are exactly 1..n, in order. */
  lemma TextbooksNumbered(pdf: seq<Task>)
    ensures |Textbooks(pdf)| == |pdf|
    ensures forall i :: 0 <= i < |pdf| ==> Textbooks(pdf)[i] == TextbookOf(pdf[i], i + 1)
    ensures forall i :: 0 <= i < |pdf| ==> Textbooks(pdf)[i].id == i + 1
  {
  }

  /** The stage of every entry, in order. */
  function Stages(books: seq<Textbook>): (r: seq<string>)
    ensures |r| == |books|
    ensures forall i :: 0 <= i < |books| ==> r[i] == books[i].stage
  {
    if books == [] then [] else Stages(books[..|books| - 1]) + [books[|books| - 1].stage]
  }

  /** The non-empty values of a field over the entries. */
  function StageSet(books: seq<Textbook>): set<string>
  {
    set i | 0 <= i < |books| && books[i].stage != "" :: books[i].stage
  }

  function SubjectSet(books: seq<Textbook>): set<string>
  {
    set i | 0 <= i < |books| && books[i].subject != "" :: books[i].subject
  }

  function PublisherSet(books: seq<Textbook>): set<string>
  {
    set i | 0 <= i < |books| && books[i].publisher != "" :: books[i].publisher
  }

  function GradeSet(books: seq<Textbook>): set<string>
  {
    set i | 0 <= i < |books| && books[i].gradeStr != "" :: books[i].gradeStr
  }

  /** The `meta` object, with its lists as sets. */
  datatype Meta = Meta(total: nat, stages: set<string>, subjects: set<string>, publishers: set<string>, grades: set<string>)

  function MetaOf(books: seq<Textbook>): Meta
  {
    Meta(|books|, StageSet(books), SubjectSet(books), PublisherSet(books), GradeSet(books))
  }

  /** The stages counted are the stages of the entries. */
  lemma TallyKeysStages(books: seq<Textbook>)
    ensures Tally(Stages(books)).Keys == set i | 0 <= i < |books| :: books[i].stage
  {
    TallyKeys(Stages(books));
    StagesOccur(books, Stages(books));
  }

  lemma StagesOccur(books: seq<Textbook>, ss: seq<string>)
    requires |ss| == |books| && forall i :: 0 <= i < |books| ==> ss[i] == books[i].stage
    ensures (set x | x in ss) == set i | 0 <= i < |books| :: books[i].stage
  {
    var lhs := set x | x in ss;
    var rhs := set i | 0 <= i < |books| :: books[i].stage;
    forall x | x in lhs ensures x in rhs {
      var i :| 0 <= i < |ss| && ss[i] == x;
      assert books[i].stage == x;
    }
    forall x | x in rhs ensures x in lhs {
      var i :| 0 <= i < |books| && books[i].stage == x;
      assert ss[i] == x;
    }
  }

  /**
   * The stages listed in the meta object are the stages counted in the
   * statistics, apart from the empty stage.
   */
  lemma MetaStagesCounted(books: seq<Textbook>)
    ensures MetaOf(books).stages == Tally(Stages(books)).Keys - {""}
  {
    TallyKeysStages(books);
  }

  /**
   * `generate_frontend_data` once the task list is read: the entries of
   * the PDF tasks numbered from 1, the meta object, and the number of
   * entries of each stage, which add up to the number of entries.
   */
  method GenerateFrontendData(tasks: seq<Task>) returns (textbooks: seq<Textbook>, meta: Meta, stageCount: map<string, nat>)
    ensures textbooks == Textbooks(PdfTasks(tasks))
    ensures meta == MetaOf(textbooks) && meta.total == |textbooks|
    ensures stageCount == Tally(Stages(textbooks))
    ensures Sum(stageCount) == |textbooks|
  {
    var pdf := PdfTasks(tasks);
    textbooks := BuildTextbooks(pdf);
    meta := Meta(|textbooks|, StageSet(textbooks), SubjectSet(textbooks), PublisherSet(textbooks), GradeSet(textbooks));
    stageCount := CountStages(textbooks);
  }

  /** The loop over `enumerate(pdf_tasks, 1)`. */
  method BuildTextbooks(pdf: seq<Task>) returns (textbooks: seq<Textbook>)
    ensures textbooks == Textbooks(pdf)
  {
    textbooks := [];
    for idx := 1 to |pdf| + 1
      invariant textbooks == Textbooks(pdf[..idx - 1])
    {
      var task := pdf[idx - 1];
      assert pdf[..idx] == pdf[..idx - 1] + [task];
      NumberedStep(pdf[..idx - 1], task, 0, TextbookOf);
      var stage := task.metadata.stage;
      var shareInfo := ShareFor(ShareKey(stage));
      var size: Size;
      if task.sizeBytes > 0 {
        size := Measured(task.sizeBytes);
      } else {
        size := Range(DefaultSize(stage));
      }
      var textbook := Textbook(idx, task.originalTitle, stage, task.metadata.subject, task.metadata.grade, "",
                               task.metadata.version, size, task.savePath, task.fileName, task.sizeBytes);
      textbooks := textbooks + [textbook];
    }
    assert pdf[..|pdf|] == pdf;
  }

  /** The `stage_count` loop: the entries of each stage, adding up to the number of entries. */
  method CountStages(textbooks: seq<Textbook>) returns (stageCount: map<string, nat>)
    ensures stageCount == Tally(Stages(textbooks))
    ensures Sum(stageCount) == |textbooks|
  {
    stageCount := map[];
    for i := 0 to |textbooks|
      invariant stageCount == Tally(Stages(textbooks[..i]))
    {
      assert textbooks[..i + 1][..i] == textbooks[..i];
      var stage := textbooks[i].stage;
      stageCount := Add(stageCount, stage, 1);
    }
    assert textbooks[..|textbooks|] == textbooks;
    TallySum(Stages(textbooks));
  }
}
