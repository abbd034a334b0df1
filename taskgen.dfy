/**
 * The download-task generator: it reads the download lists the catalog
 * analyser writes, parses each book's `' > '`-joined catalog path back
 * into five fields, standardises them through fixed abbreviation maps,
 * cleans the title, and builds the file name and save path of a task.
 */
module TaskGen {
  import opened Wrappers
  import opened Strings
  import opened Counting
  import opened Sequences
  import opened Paths
  import opened Catalog
  import opened Tasks
  import opened CatalogTree
  import opened Analyzer

  /** `stage_map` */
  const StageMap: map<string, string> := map[
    "小学" := "小学",
    "初中" := "初中",
    "高中" := "高中",
    "小学（五•四学制）" := "小学54",
    "初中（五•四学制）" := "初中54",
    "特殊教育" := "特教",
    "未知学段" := "其他",
    "" := "教学指南"
  ]

  /** `subject_map` */
  const SubjectMap: map<string, string> := map[
    "语文" := "语文",
    "数学" := "数学",
    "英语" := "英语",
    "物理" := "物理",
    "化学" := "化学",
    "生物学" := "生物",
    "历史" := "历史",
    "地理" := "地理",
    "道德与法治" := "道法",
    "思想政治" := "政治",
    "体育与健康" := "体育",
    "艺术" := "艺术",
    "艺术·音乐" := "音乐",
    "艺术·美术" := "美术",
    "艺术·舞蹈/影视/戏剧" := "艺术综合",
    "音乐" := "音乐",
    "美术" := "美术",
    "信息技术" := "信息",
    "信息科技" := "信息",
    "通用技术" := "通技",
    "科学" := "科学",
    "语文·书法练习指导" := "书法",
    "地理图册" := "地理图",
    "生活语文" := "生活语文",
    "生活数学" := "生活数学",
    "生活适应" := "生活适应",
    "沟通与交往" := "沟通交往",
    "日语" := "日语",
    "俄语" := "俄语",
    "法语" := "法语",
    "德语" := "德语",
    "西班牙语" := "西语",
    "英语（三年级起点）" := "英语"
  ]

  /** `version_map` */
  const VersionMap: map<string, string> := map[
    "人教版" := "人教",
    "人民教育出版社" := "人教",
    "北师大版" := "北师",
    "北京师范大学出版社" := "北师",
    "统编版" := "统编",
    "部编版" := "部编",
    "苏教版" := "苏教",
    "江苏凤凰教育出版社" := "苏教",
    "沪教版" := "沪教",
    "上海教育出版社" := "沪教",
    "冀教版" := "冀教",
    "河北教育出版社" := "冀教",
    "外研版" := "外研",
    "外语教学与研究出版社" := "外研",
    "华东师大版" := "华师",
    "华东师范大学出版社" := "华师",
    "华中师大版" := "华中师",
    "华中师范大学出版社" := "华中师",
    "教科版" := "教科",
    "教育科学出版社" := "教科",
    "北京版" := "京版",
    "北京出版社" := "京版",
    "粤教版" := "粤教",
    "广东教育出版社" := "粤教",
    "译林版" := "译林",
    "译林出版社" := "译林",
    "湘教版" := "湘教",
    "湖南教育出版社" := "湘教",
    "科学社版" := "科学",
    "科学出版社" := "科学",
    "地质社版" := "地质",
    "地质出版社" := "地质",
    "未来社版" := "未来",
    "未来出版社" := "未来",
    "智慧中小学" := "智慧",
    "" := "通用"
  ]

  /** `semester_map` */
  const SemesterMap: map<string, string> := map[
    "上册" := "上",
    "下册" := "下",
    "全一册" := "全",
    "必修" := "必修",
    "选修" := "选修",
    "选择性必修" := "选必",
    "必修1" := "必修1",
    "必修2" := "必修2",
    "必修3" := "必修3",
    "选修1" := "选修1",
    "选修2" := "选修2",
    "选修3" := "选修3"
  ]

  /** `grade_map`: Chinese numerals to digits, and the two book kinds. */
  const GradeMap: map<string, string> := map[
    "一年级" := "1年级",
    "二年级" := "2年级",
    "三年级" := "3年级",
    "四年级" := "4年级",
    "五年级" := "5年级",
    "六年级" := "6年级",
    "七年级" := "7年级",
    "八年级" := "8年级",
    "九年级" := "9年级",
    "高一" := "高1",
    "高二" := "高2",
    "高三" := "高3",
    "教师用书" := "教师",
    "学生用书" := "学生"
  ]

  /** `standardize_path_component`: empty stays empty, a key is mapped, anything else is kept. */
  function Standardize(component: string, mapping: map<string, string>): (r: string)
  {
    if component == "" then "" else if component in mapping then mapping[component] else component
  }

  /**
   * Standardisation empties exactly the empty component (so the `""`
   * entries of the stage and version maps are never used), returns the
   * mapped value of a key and keeps any other component.
   */
  lemma StandardizeCases(component: string, mapping: map<string, string>)
    requires forall k :: k in mapping && k != "" ==> mapping[k] != ""
    ensures Standardize(component, mapping) == "" <==> component == ""
    ensures component != "" && component in mapping ==> Standardize(component, mapping) == mapping[component]
    ensures component !in mapping ==> Standardize(component, mapping) == component
  {
  }

  lemma StageMapValuesNonEmpty()
    ensures forall k :: k in StageMap && k != "" ==> StageMap[k] != ""
  {
  }

  lemma SubjectMapValuesNonEmpty()
    ensures forall k :: k in SubjectMap && k != "" ==> SubjectMap[k] != ""
  {
  }

  lemma VersionMapValuesNonEmpty()
    ensures forall k :: k in VersionMap && k != "" ==> VersionMap[k] != ""
  {
  }

  lemma SemesterMapValuesNonEmpty()
    ensures forall k :: k in SemesterMap && k != "" ==> SemesterMap[k] != ""
  {
  }

  lemma GradeMapValuesNonEmpty()
    ensures forall k :: k in GradeMap && k != "" ==> GradeMap[k] != ""
  {
  }

  /** No map gives an empty abbreviation for a non-empty name, so standardising empties only `""`. */
  lemma MapsHaveNonEmptyValues()
    ensures forall k :: k in StageMap && k != "" ==> StageMap[k] != ""
    ensures forall k :: k in SubjectMap && k != "" ==> SubjectMap[k] != ""
    ensures forall k :: k in VersionMap && k != "" ==> VersionMap[k] != ""
    ensures forall k :: k in SemesterMap && k != "" ==> SemesterMap[k] != ""
    ensures forall k :: k in GradeMap && k != "" ==> GradeMap[k] != ""
  {
    StageMapValuesNonEmpty();
    SubjectMapValuesNonEmpty();
    VersionMapValuesNonEmpty();
    SemesterMapValuesNonEmpty();
    GradeMapValuesNonEmpty();
  }

  /** The fields of a catalog path: the `>`-separated parts, each stripped. */
  function StripAll(ps: seq<string>): (r: seq<string>)
    ensures |r| == |ps|
    ensures forall i :: 0 <= i < |ps| ==> r[i] == Strip(ps[i], Whitespace)
  {
    Map(ps, StripBlank)
  }

  /** `s.strip()` */
  function StripBlank(s: string): string
  {
    Strip(s, Whitespace)
  }

  /** `parts[i] if len(parts) > i else ""` */
  function At(parts: seq<string>, i: nat): string
  {
    if i < |parts| then parts[i] else ""
  }

  /** The first five of `xs` as catalog fields, `""` where `xs` is shorter. */
  function Fields(xs: seq<string>): CatalogInfo
  {
    CatalogInfo(At(xs, 0), At(xs, 1), At(xs, 2), At(xs, 3), At(xs, 4))
  }

  /** `parse_catalog_path`: five empty fields for an empty path. */
  function ParseCatalogPath(path: string): (c: CatalogInfo)
    ensures path == "" ==> c == EmptyCatalog
  {
    if path == "" then EmptyCatalog else Fields(StripAll(Split(path, '>')))
  }

  /** Parts after the fifth do not change the parsed fields. */
  lemma ParseIgnoresExtraParts(x: string, y: string)
    requires |Split(x, '>')| >= 5
    ensures ParseCatalogPath(x + ">" + y) == ParseCatalogPath(x)
  {
    assert x != "";
    assert x + ">" + y == x + ['>'] + y;
    SplitAppend(x, '>', y);
    var a := StripAll(Split(x, '>'));
    var b := StripAll(Split(x + ">" + y, '>'));
    forall i | 0 <= i < 5 ensures b[i] == a[i] {
      assert Split(x + ">" + y, '>')[i] == Split(x, '>')[i];
    }
  }

  /** A field the catalog path can carry unchanged: no `>` and no whitespace at either end. */
  predicate WellFormedField(x: string)
  {
    '>' !in x && (x == "" || (x[0] !in Whitespace && x[|x| - 1] !in Whitespace))
  }

  /** A well-formed field after a space or nothing is one stripped part. */
  lemma StripSplitLast(w: string, x: string)
    requires w == "" || w == " "
    requires x != "" && WellFormedField(x)
    ensures StripAll(Split(w + x, '>')) == [x]
  {
    assert '>' !in w + x;
    SplitNoSeparator(w + x, '>');
    assert w + x + "" == w + x;
    StripPadded(w, x, "", Whitespace);
    StripAllCons(w + x, []);
    assert [w + x] + [] == [w + x];
  }

  /** Moving the separator of `x + " > " + rest` between its blanks. */
  lemma Regroup<T>(w: seq<T>, x: seq<T>, sp: T, g: T, rest: seq<T>)
    ensures w + (x + [sp, g, sp] + rest) == (w + x + [sp]) + [g] + ([sp] + rest)
  {
  }

  /** The first field of a joined path, with the blank next to its `>`, is one stripped part. */
  lemma StripSplitFirst(w: string, x: string, rest: string)
    requires w == "" || w == " "
    requires x != "" && WellFormedField(x)
    ensures Split(w + (x + " > " + rest), '>') == [w + x + " "] + Split(" " + rest, '>')
    ensures Strip(w + x + " ", Whitespace) == x
  {
    Regroup(w, x, ' ', '>', rest);
    assert '>' !in w + x + " ";
    SplitAtSeparator(w + x + " ", '>', " " + rest);
    StripPadded(w, x, " ", Whitespace);
  }

  /** Splitting `w` and the joined fields at `>` and stripping the parts gives the fields back. */
  predicate StripsBack(w: string, xs: seq<string>)
  {
    StripAll(Split(w + Join(" > ", xs), '>')) == xs
  }

  lemma {:induction false} StripSplitJoin(w: string, xs: seq<string>)
    requires w == "" || w == " "
    requires xs != [] && forall i :: 0 <= i < |xs| ==> xs[i] != "" && WellFormedField(xs[i])
    ensures StripsBack(w, xs)
    decreases |xs|
  {
    if |xs| == 1 {
      StripSplitLast(w, xs[0]);
    } else {
      StripSplitJoin(" ", xs[1..]);
      StripsBackStep(w, xs);
    }
  }

  lemma StripsBackStep(w: string, xs: seq<string>)
    requires w == "" || w == " "
    requires |xs| >= 2 && xs[0] != "" && WellFormedField(xs[0])
    requires StripsBack(" ", xs[1..])
    ensures StripsBack(w, xs)
  {
    var x, ys := xs[0], xs[1..];
    var rest := Join(" > ", ys);
    JoinCons(xs);
    StripSplitFirst(w, x, rest);
    var tail := Split(" " + rest, '>');
    StripAllCons(w + x + " ", tail);
    ConsBack(xs, x, ys, StripAll(Split(w + Join(" > ", xs), '>')));
  }

  lemma JoinCons(xs: seq<string>)
    requires |xs| >= 2
    ensures Join(" > ", xs) == xs[0] + " > " + Join(" > ", xs[1..])
  {
  }

  lemma StripAllCons(a: string, tail: seq<string>)
    ensures StripAll([a] + tail) == [Strip(a, Whitespace)] + StripAll(tail)
  {
    MapCons(a, tail, StripBlank);
  }

  lemma ConsBack<T>(xs: seq<T>, x: T, ys: seq<T>, r: seq<T>)
    requires |xs| >= 1 && x == xs[0] && ys == xs[1..] && r == [x] + ys
    ensures r == xs
  {
  }

  /** The non-empty fields of a catalog with well-formed fields are non-empty and well formed. */
  lemma NonEmptyFieldsWellFormed(c: CatalogInfo)
    requires WellFormedField(c.stage) && WellFormedField(c.subject) && WellFormedField(c.version)
    requires WellFormedField(c.grade) && WellFormedField(c.semester)
    ensures var xs := NonEmpty(FieldValues(c));
            forall i :: 0 <= i < |xs| ==> xs[i] != "" && WellFormedField(xs[i])
  {
    var xs := NonEmpty(FieldValues(c));
    forall i | 0 <= i < |xs| ensures xs[i] != "" && WellFormedField(xs[i]) {
      KeepMembers(FieldValues(c), IsSet, xs[i]);
    }
  }

  /**
   * Parsing the catalog path the analyser writes gives back its non-empty
   * fields in order, moved forward over the empty ones and padded with
   * `""`.
   */
  lemma ParseCatalogPathRoundTrip(c: CatalogInfo)
    requires WellFormedField(c.stage) && WellFormedField(c.subject) && WellFormedField(c.version)
    requires WellFormedField(c.grade) && WellFormedField(c.semester)
    ensures ParseCatalogPath(CatalogPath(c)) == Fields(NonEmpty(FieldValues(c)))
  {
    var xs := NonEmpty(FieldValues(c));
    if xs != [] {
      NonEmptyFieldsWellFormed(c);
      StripSplitJoin("", xs);
      assert "" + Join(" > ", xs) == CatalogPath(c);
      assert CatalogPath(c) != "" by {
        if CatalogPath(c) == "" {
          SplitNoSeparator("", '>');
        }
      }
    }
  }

  /** A catalog whose five fields are all set and well formed survives the path round trip unchanged. */
  lemma ParseCatalogPathFull(c: CatalogInfo)
    requires WellFormedField(c.stage) && WellFormedField(c.subject) && WellFormedField(c.version)
    requires WellFormedField(c.grade) && WellFormedField(c.semester)
    requires c.stage != "" && c.subject != "" && c.version != "" && c.grade != "" && c.semester != ""
    ensures ParseCatalogPath(CatalogPath(c)) == c
  {
    var v := FieldValues(c);
    assert IsSet(v[0]) && IsSet(v[1]) && IsSet(v[2]) && IsSet(v[3]) && IsSet(v[4]);
    KeepAll(v, IsSet);
    assert Fields(v) == c;
    ParseCatalogPathRoundTrip(c);
  }

  /** The prefixes `clean_title` removes, in the order it removes them. */
  const Prefixes: seq<string> := [
    "义务教育教科书",
    "义务教育",
    "教科书",
    "普通高中教科书",
    "普通高中",
    "高中教科书",
    "（根据2022年版课程标准修订）",
    "（根据2017年版课程标准修订）"
  ]

  /** The middle dots `clean_title` turns into a blank. */
  const Dots: set<char> := {'·', '•'}

  /** `title` after every occurrence of each prefix of `ps` has been removed, one prefix after another. */
  function RemovePrefixes(title: string, ps: seq<string>): string
  {
    if ps == [] then title else Replace(RemovePrefixes(title, ps[..|ps| - 1]), ps[|ps| - 1], "")
  }

  /** Runs of dots become a blank, runs of whitespace one blank, and the ends are stripped. */
  function Tidy(s: string): string
  {
    Strip(CollapseRuns(CollapseRuns(s, Dots, ' '), Whitespace, ' '), Whitespace)
  }

  /** The title `clean_title` returns. */
  function CleanedTitle(title: string): string
  {
    Tidy(RemovePrefixes(title, Prefixes))
  }

  /** `clean_title` */
  method CleanTitle(title: string) returns (cleaned: string)
    ensures cleaned == CleanedTitle(title)
  {
    cleaned := title;
    for i := 0 to |Prefixes|
      invariant cleaned == RemovePrefixes(title, Prefixes[..i])
    {
      assert Prefixes[..i + 1][..i] == Prefixes[..i];
      cleaned := Replace(cleaned, Prefixes[i], "");
    }
    assert Prefixes[..|Prefixes|] == Prefixes;
    cleaned := CollapseRuns(cleaned, Dots, ' ');
    cleaned := CollapseRuns(cleaned, Whitespace, ' ');
    cleaned := Strip(cleaned, Whitespace);
  }

  /**
   * A cleaned title has no middle dot, no line break, no two whitespace
   * characters side by side, and no whitespace at either end.
   */
  lemma TidyShape(s: string)
    ensures var r := Tidy(s);
            '·' !in r && '•' !in r && '\n' !in r && NoAdjacentIn(r, Whitespace)
            && (r == [] || (r[0] !in Whitespace && r[|r| - 1] !in Whitespace))
  {
    var t1 := CollapseRuns(s, Dots, ' ');
    CollapseRunsRemoves(s, Dots, ' ', '·');
    CollapseRunsRemoves(s, Dots, ' ', '•');
    var t2 := CollapseRuns(t1, Whitespace, ' ');
    CollapseRunsKeeps(t1, Whitespace, ' ', '·');
    CollapseRunsKeeps(t1, Whitespace, ' ', '•');
    CollapseRunsRemoves(t1, Whitespace, ' ', '\n');
    CollapseRunsNoPair(t1, Whitespace, ' ');
    StripKeeps(t2, Whitespace, Whitespace, '·');
    StripKeeps(t2, Whitespace, Whitespace, '•');
    StripKeeps(t2, Whitespace, Whitespace, '\n');
    StripShape(t2, Whitespace);
  }

  lemma CleanedTitleShape(title: string)
    ensures var r := CleanedTitle(title);
            '·' !in r && '•' !in r && '\n' !in r && NoAdjacentIn(r, Whitespace)
            && (r == [] || (r[0] !in Whitespace && r[|r| - 1] !in Whitespace))
  {
    TidyShape(RemovePrefixes(title, Prefixes));
  }

  /**
   * A match of `([^（]+)（(.+)）` starting at `p`: the first group is
   * `s[p..j]`, the full-width opening parenthesis is at `j`, the second
   * group is `s[j + 1..k]` and the closing one is at `k`.
   */
  predicate Matches(s: string, p: int, j: int, k: int)
  {
    0 <= p < j && j + 2 <= k < |s| && s[j] == '（' && s[k] == '）'
    && forall i :: p <= i < j ==> s[i] != '（'
  }

  /** Where a match and the place of its parts in the title. */
  datatype Span = Span(p: nat, j: nat, k: nat)

  /** The first index at or after `p` holding `c`, or `|s|`. */
  function IndexFrom(s: string, c: char, p: nat): (r: nat)
    requires p <= |s|
    ensures p <= r <= |s| && (r < |s| ==> s[r] == c)
    ensures forall i :: p <= i < r ==> s[i] != c
    decreases |s| - p
  {
    if p == |s| then |s| else if s[p] == c then p else IndexFrom(s, c, p + 1)
  }

  /** The match starting at `p`: the first group runs up to the next `（`, the second to the last `）`. */
  function MatchAt(s: string, p: nat): (r: Option<Span>)
    requires p < |s|
    ensures r.Some? ==> r.value.p == p && Matches(s, p, r.value.j, r.value.k)
  {
    if s[p] == '（' then None
    else
      var j := IndexFrom(s, '（', p);
      var k := RFind(s, '）');
      if j < |s| && k >= j + 2 then Some(Span(p, j, k)) else None
  }

  /** `re.search`: the match at the first position where one starts. */
  function SearchFrom(s: string, p: nat): (r: Option<Span>)
    requires p <= |s|
    ensures r.Some? ==> Matches(s, r.value.p, r.value.j, r.value.k)
    decreases |s| - p
  {
    if p == |s| then None
    else match MatchAt(s, p)
      case Some(m) => Some(m)
      case None => SearchFrom(s, p + 1)
  }

  /** At one start the first group cannot be shortened and the second is as long as it can be. */
  lemma MatchAtSpec(s: string, p: nat)
    requires p < |s|
    ensures match MatchAt(s, p)
            case Some(m) =>
              m.p == p && Matches(s, p, m.j, m.k)
              && forall j, k :: Matches(s, p, j, k) ==> j == m.j && k <= m.k
            case None => forall j, k :: !Matches(s, p, j, k)
  {
    var j0 := IndexFrom(s, '（', p);
    var k0 := RFind(s, '）');
    forall j, k | Matches(s, p, j, k) ensures j == j0 && k <= k0 {
    }
  }

  /**
   * The search finds the leftmost match, with its second group as long as
   * possible, and finds none exactly when there is no match.
   */
  lemma {:induction false} SearchFromSpec(s: string, p: nat)
    requires p <= |s|
    ensures match SearchFrom(s, p)
            case Some(m) =>
              p <= m.p && Matches(s, m.p, m.j, m.k)
              && (forall q, j, k :: p <= q < m.p ==> !Matches(s, q, j, k))
              && (forall j, k :: Matches(s, m.p, j, k) ==> j == m.j && k <= m.k)
            case None => forall q, j, k :: p <= q ==> !Matches(s, q, j, k)
    decreases |s| - p
  {
    if p < |s| {
      MatchAtSpec(s, p);
      if MatchAt(s, p).None? {
        SearchFromSpec(s, p + 1);
      }
    }
  }

  /** The second group of the teacher-book pattern in a cleaned title, if it matches. */
  function SpecialGroup(s: string): Option<string>
  {
    match SearchFrom(s, 0)
    case None => None
    case Some(m) => Some(s[m.j + 1..m.k])
  }

  /**
   * The name of the special edition of a teacher's book: the bracketed
   * part of the cleaned title without `全一册`, or else the cleaned title
   * without the subject, stripped.
   */
  function TeacherSpecial(title: string, subject: string): string
  {
    var cleaned := CleanedTitle(title);
    match SpecialGroup(cleaned)
    case Some(g) => Replace(g, "全一册", "")
    case None => Strip(Replace(cleaned, subject, ""), Whitespace)
  }

  /** The characters a file name may not contain. */
  const Illegal: set<char> := {'<', '>', ':', '"', '/', '\\', '|', '?', '*'}

  const Underscore: set<char> := {'_'}

  /** `re.sub(r'[<>:"/\\|?*]', '_', s)` */
  function ReplaceIllegal(s: string): (r: string)
    ensures |r| == |s|
    ensures forall i :: 0 <= i < |s| ==> r[i] == if s[i] in Illegal then '_' else s[i]
  {
    if s == [] then [] else [if s[0] in Illegal then '_' else s[0]] + ReplaceIllegal(s[1..])
  }

  /** The clean-up of a file name: illegal characters become `_`, runs of `_` one `_`, outer `_` go. */
  function CleanFileName(name: string): string
  {
    Strip(CollapseRuns(ReplaceIllegal(name), Underscore, '_'), Underscore)
  }

  /** The file name before the clean-up, without its `.pdf`. */
  function FileBase(meta: CatalogInfo, title: string): string
  {
    var subject := Standardize(meta.subject, SubjectMap);
    var grade := Standardize(meta.grade, GradeMap);
    var semester := Standardize(meta.semester, SemesterMap);
    var version := Standardize(meta.version, VersionMap);
    if Contains(meta.grade, "教师") then
      var special := TeacherSpecial(title, subject);
      if special != "" then subject + "_教师_" + special + "_" + version
      else subject + "_教师_" + version
    else
      Join("_", NonEmpty([subject, grade, semester, version]))
  }

  /** `generate_file_name` */
  function GenerateFileName(meta: CatalogInfo, title: string): string
  {
    CleanFileName(FileBase(meta, title) + ".pdf")
  }

  /** The clean-up of a name ending in `.pdf` keeps that ending. */
  lemma CleanFileNameEnding(base: string)
    ensures var c := CollapseRuns(ReplaceIllegal(base), Underscore, '_');
            CleanFileName(base + ".pdf") == TrimLeft(c, Underscore) + ".pdf"
  {
    ReplaceIllegalPdf(base);
    CollapseRunsAppend(ReplaceIllegal(base), ".pdf", Underscore, '_');
    PdfPlain();
    CollapseRunsNone(".pdf", Underscore, '_');
    var c := CollapseRuns(ReplaceIllegal(base), Underscore, '_');
    TrimLeftAppend(c, ".pdf", Underscore);
    var l := TrimLeft(c, Underscore) + ".pdf";
    assert l[|l| - 1] == 'f';
  }

  /** The `.pdf` ending has neither an illegal character nor `_`. */
  lemma PdfPlain()
    ensures forall i :: 0 <= i < |".pdf"| ==> ".pdf"[i] !in Illegal && ".pdf"[i] !in Underscore
  {
    var p := ".pdf";
    assert |p| == 4 && p[0] == '.' && p[1] == 'p' && p[2] == 'd' && p[3] == 'f';
    forall i | 0 <= i < 4 ensures p[i] !in Illegal && p[i] !in Underscore {
      assert i == 0 || i == 1 || i == 2 || i == 3;
    }
  }

  lemma ReplaceIllegalPdf(base: string)
    ensures ReplaceIllegal(base + ".pdf") == ReplaceIllegal(base) + ".pdf"
  {
    PdfPlain();
    var s := base + ".pdf";
    var l := ReplaceIllegal(s);
    var r := ReplaceIllegal(base) + ".pdf";
    forall i | 0 <= i < |l| ensures l[i] == r[i] {
      if i < |base| {
        assert s[i] == base[i];
      } else {
        assert s[i] == ".pdf"[i - |base|] == r[i];
      }
    }
  }

  /**
   * A cleaned-up name has none of the illegal characters, no `__`, no `_`
   * at either end, and ends with `.pdf`.
   */
  lemma CleanFileNameSafe(base: string)
    ensures var r := CleanFileName(base + ".pdf");
            (forall i :: 0 <= i < |r| ==> r[i] !in Illegal)
            && NoAdjacentIn(r, Underscore)
            && |r| >= 4 && r[|r| - 4..] == ".pdf" && r[0] != '_' && r[|r| - 1] != '_'
  {
    CleanFileNameLegal(base + ".pdf");
    CleanFileNameShape(base);
  }

  /** A cleaned-up name has none of the illegal characters. */
  lemma CleanFileNameLegal(name: string)
    ensures var r := CleanFileName(name);
            forall i :: 0 <= i < |r| ==> r[i] !in Illegal
  {
    var t1 := ReplaceIllegal(name);
    var t2 := CollapseRuns(t1, Underscore, '_');
    var r := CleanFileName(name);
    CollapseRunsNoPair(t1, Underscore, '_');
    forall ch | ch in Illegal ensures ch !in r {
      CollapseRunsKeeps(t1, Underscore, '_', ch);
      StripKeeps(t2, Underscore, Underscore, ch);
    }
  }

  /** A cleaned-up `.pdf` name has no `__`, no `_` at either end, and keeps its `.pdf`. */
  lemma CleanFileNameShape(base: string)
    ensures var r := CleanFileName(base + ".pdf");
            NoAdjacentIn(r, Underscore)
            && |r| >= 4 && r[|r| - 4..] == ".pdf" && r[0] != '_' && r[|r| - 1] != '_'
  {
    var t1 := ReplaceIllegal(base + ".pdf");
    var t2 := CollapseRuns(t1, Underscore, '_');
    CollapseRunsNoPair(t1, Underscore, '_');
    CollapseRunsKeeps(t1, Underscore, '_', '<');
    StripKeeps(t2, Underscore, Underscore, '<');
    StripShape(t2, Underscore);
    CleanFileNameEnding(base);
  }

  /**
   * `generate_file_name` gives a name ending in `.pdf` that is safe on
   * every file system the tools target, and is one path component.
   */
  lemma GenerateFileNameSafe(meta: CatalogInfo, title: string)
    ensures var r := GenerateFileName(meta, title);
            (forall i :: 0 <= i < |r| ==> r[i] !in Illegal)
            && NoAdjacentIn(r, Underscore)
            && |r| >= 4 && r[|r| - 4..] == ".pdf" && r[0] != '_' && r[|r| - 1] != '_'
            && Parts(r) == [r]
  {
    var r := GenerateFileName(meta, title);
    CleanFileNameSafe(FileBase(meta, title));
    assert '/' in Illegal;
    PartsOfName(r);
  }

  /** One step of `os.path.join`: an absolute part restarts the path, otherwise a `/` separates. */
  function JoinStep(path: string, b: string): string
  {
    if b != "" && b[0] == '/' then b
    else if path == "" || path[|path| - 1] == '/' then path + b
    else path + "/" + b
  }

  /** `os.path.join(*parts)` */
  function OsPathJoin(parts: seq<string>): string
    requires parts != []
  {
    if |parts| == 1 then parts[0] else JoinStep(OsPathJoin(parts[..|parts| - 1]), parts[|parts| - 1])
  }

  /** One join step with a relative part appends that part's components. */
  lemma JoinStepParts(p: string, b: string)
    requires !IsAbsolute(b)
    ensures Parts(JoinStep(p, b)) == Parts(p) + Parts(b)
  {
    if p == "" {
      assert p + b == b;
      PartsEmpty();
    } else if p[|p| - 1] == '/' {
      var q := p[..|p| - 1];
      assert p == q + "/";
      assert p + b == q + "/" + b;
      if q == "" {
        PartsRootSlash(b);
        PartsRootSlash("");
        PartsEmpty();
        assert "/" + "" == p;
      } else {
        PartsSlash(q, b);
        PartsTrailingSlash(q);
      }
    } else {
      PartsSlash(p, b);
    }
  }

  /** Joining relative parts gives a path whose components are those of the parts, in order. */
  lemma {:induction false} OsPathJoinParts(parts: seq<string>)
    requires parts != [] && forall i :: 0 <= i < |parts| ==> !IsAbsolute(parts[i])
    ensures Parts(OsPathJoin(parts)) == PartsAll(parts)
    decreases |parts|
  {
    if |parts| == 1 {
      assert parts[..0] == [];
    } else {
      var init := parts[..|parts| - 1];
      OsPathJoinParts(init);
      JoinStepParts(OsPathJoin(init), parts[|parts| - 1]);
    }
  }

  /** An absolute part throws away everything joined before it. */
  lemma OsPathJoinRestarts(parts: seq<string>, b: string)
    requires parts != [] && b != "" && b[0] == '/'
    ensures OsPathJoin(parts + [b]) == b
  {
    assert (parts + [b])[..|parts|] == parts;
  }

  /** The directories of a save path (`path_parts`), from the standardised fields. */
  function SaveDirs(stage: string, subject: string, version: string, grade: string, semester: string): (r: seq<string>)
    ensures r != [] && r[0] == "教材库"
  {
    if Contains(grade, "教师") then ["教材库", "教师用书", subject, version]
    else if stage == "" then ["教材库", "教学指南"]
    else
      ["教材库", stage, subject, version]
      + (if grade != "" && !Contains(grade, "教师") then [grade] else [])
      + (if semester != "" then [semester] else [])
  }

  function SaveDirectories(meta: CatalogInfo): seq<string>
  {
    SaveDirs(Standardize(meta.stage, StageMap), Standardize(meta.subject, SubjectMap),
             Standardize(meta.version, VersionMap), Standardize(meta.grade, GradeMap),
             Standardize(meta.semester, SemesterMap))
  }

  /** `generate_save_path` */
  function GenerateSavePath(meta: CatalogInfo, fileName: string): string
  {
    OsPathJoin(SaveDirectories(meta) + [fileName])
  }

  /** None of the standardised fields of `meta` starts with `/`. */
  predicate RelativeFields(meta: CatalogInfo)
  {
    !IsAbsolute(Standardize(meta.stage, StageMap)) && !IsAbsolute(Standardize(meta.subject, SubjectMap))
    && !IsAbsolute(Standardize(meta.version, VersionMap)) && !IsAbsolute(Standardize(meta.grade, GradeMap))
    && !IsAbsolute(Standardize(meta.semester, SemesterMap))
  }

  /** The components of `a + b` are those of `a` followed by those of `b`. */
  predicate PartsAllSplits(a: seq<string>, b: seq<string>)
  {
    PartsAll(a + b) == PartsAll(a) + PartsAll(b)
  }

  lemma PartsAllAppend(a: seq<string>, b: seq<string>)
    ensures PartsAll(a + b) == PartsAll(a) + PartsAll(b)
  {
    PartsAllSplitsAll(a, b);
  }

  lemma {:induction false} PartsAllSplitsAll(a: seq<string>, b: seq<string>)
    ensures PartsAllSplits(a, b)
    decreases |b|
  {
    if b == [] {
      assert a + b == a;
    } else {
      PartsAllSplitsAll(a, b[..|b| - 1]);
      PartsAllSplitsStep(a, b);
    }
  }

  lemma PartsAllSplitsStep(a: seq<string>, b: seq<string>)
    requires b != [] && PartsAllSplits(a, b[..|b| - 1])
    ensures PartsAllSplits(a, b)
  {
    var init, x := b[..|b| - 1], b[|b| - 1];
    var ab := a + b;
    assert ab[..|ab| - 1] == a + init && ab[|ab| - 1] == x;
    assert PartsAll(ab) == PartsAll(a + init) + Parts(x);
    assert PartsAll(b) == PartsAll(init) + Parts(x);
    AppendAssoc(PartsAll(a), PartsAll(init), Parts(x));
  }

  /** The components of a list of parts, written out for up to six parts. */
  lemma PartsAllSmall(a: string, b: string, c: string, d: string, e: string, f: string)
    ensures PartsAll([a]) == Parts(a)
    ensures PartsAll([a, b]) == Parts(a) + Parts(b)
    ensures PartsAll([a, b, c]) == Parts(a) + Parts(b) + Parts(c)
    ensures PartsAll([a, b, c, d]) == Parts(a) + Parts(b) + Parts(c) + Parts(d)
  {
    assert [a, b][..1] == [a];
    assert [a, b, c][..2] == [a, b];
    assert [a, b, c, d][..3] == [a, b, c];
  }

  /** The file name is the last component of the joined path. */
  lemma JoinedParts(dirs: seq<string>, fileName: string)
    requires dirs != [] && forall i :: 0 <= i < |dirs| ==> !IsAbsolute(dirs[i])
    requires fileName != "" && fileName != "." && '/' !in fileName
    ensures Parts(OsPathJoin(dirs + [fileName])) == PartsAll(dirs) + [fileName]
  {
    OsPathJoinParts(dirs);
    OsPathJoinLast(dirs, fileName);
    PartsOfName(fileName);
  }

  /** Joining one more relative part appends that part's components. */
  lemma OsPathJoinLast(dirs: seq<string>, b: string)
    requires dirs != [] && !IsAbsolute(b)
    ensures Parts(OsPathJoin(dirs + [b])) == Parts(OsPathJoin(dirs)) + Parts(b)
  {
    assert (dirs + [b])[..|dirs|] == dirs;
    JoinStepParts(OsPathJoin(dirs), b);
  }

  lemma SaveDirsTeacher(stage: string, subject: string, version: string, grade: string, semester: string)
    requires Contains(grade, "教师")
    ensures PartsAll(SaveDirs(stage, subject, version, grade, semester)) == ["教材库", "教师用书"] + Parts(subject) + Parts(version)
  {
    assert SaveDirs(stage, subject, version, grade, semester) == ["教材库", "教师用书", subject, version];
    PartsOfName("教材库");
    PartsOfName("教师用书");
    PartsAllTwoNames("教材库", "教师用书", subject, version);
  }

  /** Two names, then two parts. */
  lemma PartsAllTwoNames(x: string, y: string, c: string, d: string)
    requires Parts(x) == [x] && Parts(y) == [y]
    ensures PartsAll([x, y, c, d]) == [x, y] + Parts(c) + Parts(d)
  {
    PartsAllSmall(x, y, c, d, "", "");
    assert [x] + [y] == [x, y];
  }

  lemma SaveDirsGuide(stage: string, subject: string, version: string, grade: string, semester: string)
    requires !Contains(grade, "教师") && stage == ""
    ensures PartsAll(SaveDirs(stage, subject, version, grade, semester)) == ["教材库", "教学指南"]
  {
    assert SaveDirs(stage, subject, version, grade, semester) == ["教材库", "教学指南"];
    PartsOfName("教材库");
    PartsOfName("教学指南");
    PartsAllPair("教材库", "教学指南");
  }

  lemma PartsAllPair(x: string, y: string)
    requires Parts(x) == [x] && Parts(y) == [y]
    ensures PartsAll([x, y]) == [x, y]
  {
    PartsAllSmall(x, y, "", "", "", "");
  }

  lemma PartsAllOptional(x: string)
    ensures PartsAll(if x != "" then [x] else []) == Parts(x)
  {
    PartsEmpty();
    PartsAllSmall(x, "", "", "", "", "");
  }

  lemma SaveDirsBook(stage: string, subject: string, version: string, grade: string, semester: string)
    requires !Contains(grade, "教师") && stage != ""
    ensures PartsAll(SaveDirs(stage, subject, version, grade, semester))
            == ["教材库"] + Parts(stage) + Parts(subject) + Parts(version) + Parts(grade) + Parts(semester)
  {
    var g: seq<string> := if grade != "" then [grade] else [];
    var m: seq<string> := if semester != "" then [semester] else [];
    var base := ["教材库", stage, subject, version];
    assert SaveDirs(stage, subject, version, grade, semester) == base + g + m;
    PartsOfName("教材库");
    PartsAllSmall("教材库", stage, subject, version, "", "");
    PartsAllAppend(base + g, m);
    PartsAllAppend(base, g);
    PartsAllOptional(grade);
    PartsAllOptional(semester);
  }

  lemma SaveDirsRelative(stage: string, subject: string, version: string, grade: string, semester: string)
    requires !IsAbsolute(stage) && !IsAbsolute(subject) && !IsAbsolute(version) && !IsAbsolute(grade) && !IsAbsolute(semester)
    ensures var d := SaveDirs(stage, subject, version, grade, semester);
            forall i :: 0 <= i < |d| ==> !IsAbsolute(d[i])
  {
  }

  /**
   * Save paths: a teacher's book (its standardised grade names 教师) is
   * filed under 教材库/教师用书/subject/version, a book without a stage
   * under 教材库/教学指南, and any other book under
   * 教材库/stage/subject/version with its grade and semester when they are
   * set; the file name is the last component. Empty fields add nothing.
   */
  lemma SavePathParts(meta: CatalogInfo, fileName: string)
    requires RelativeFields(meta)
    requires fileName != "" && fileName != "." && '/' !in fileName
    ensures var stage := Standardize(meta.stage, StageMap);
            var subject := Standardize(meta.subject, SubjectMap);
            var version := Standardize(meta.version, VersionMap);
            var grade := Standardize(meta.grade, GradeMap);
            var semester := Standardize(meta.semester, SemesterMap);
            var p := Parts(GenerateSavePath(meta, fileName));
            (Contains(grade, "教师") ==> p == ["教材库", "教师用书"] + Parts(subject) + Parts(version) + [fileName])
            && (!Contains(grade, "教师") && stage == "" ==> p == ["教材库", "教学指南", fileName])
            && (!Contains(grade, "教师") && stage != "" ==>
                  p == ["教材库"] + Parts(stage) + Parts(subject) + Parts(version) + Parts(grade) + Parts(semester) + [fileName])
  {
    var stage := Standardize(meta.stage, StageMap);
    var subject := Standardize(meta.subject, SubjectMap);
    var version := Standardize(meta.version, VersionMap);
    var grade := Standardize(meta.grade, GradeMap);
    var semester := Standardize(meta.semester, SemesterMap);
    var dirs := SaveDirs(stage, subject, version, grade, semester);
    SaveDirsRelative(stage, subject, version, grade, semester);
    JoinedParts(dirs, fileName);
    if Contains(grade, "教师") {
      SaveDirsTeacher(stage, subject, version, grade, semester);
    } else if stage == "" {
      SaveDirsGuide(stage, subject, version, grade, semester);
    } else {
      SaveDirsBook(stage, subject, version, grade, semester);
    }
  }

  /** `generate_task_id` for counter value `n`: `task_` and `n` with at least four digits. */
  function TaskId(n: nat): (r: string)
    ensures |r| >= 9 && r[..5] == "task_"
  {
    "task_" + ZeroPad(n, 4)
  }

  /** Different counter values give different task ids. */
  lemma TaskIdInjective(a: nat, b: nat)
    ensures TaskId(a) == TaskId(b) <==> a == b
  {
    if TaskId(a) == TaskId(b) {
      assert TaskId(a)[5..] == ZeroPad(a, 4);
      assert TaskId(b)[5..] == ZeroPad(b, 4);
      ParseZeroPad(a, 4);
      ParseZeroPad(b, 4);
    }
  }

  /** A task list numbered from 1 has pairwise different ids. */
  lemma NumberedIdsDistinct(tasks: seq<Task>)
    requires forall i :: 0 <= i < |tasks| ==> tasks[i].id == TaskId(i + 1)
    ensures forall i, j :: 0 <= i < j < |tasks| ==> tasks[i].id != tasks[j].id
  {
    forall i, j | 0 <= i < j < |tasks| ensures tasks[i].id != tasks[j].id {
      TaskIdInjective(i + 1, j + 1);
    }
  }

  /**
   * A book of a download list after JSON parsing: `title` is `None` when
   * the key is missing; a missing path, url or publisher is `""`.
   */
  datatype ListBook = ListBook(id: string, title: Option<string>, path: string, url: string, publisher: string)

  /** A `download_list_*.json` file: its stem, its `group` key if present, and its books. */
  datatype ListFile = ListFile(stem: string, group: Option<string>, books: seq<ListBook>)

  /** The book of a download list as the analyser writes it; it writes no publisher. */
  function FromListEntry(e: ListEntry): ListBook
  {
    ListBook(e.id, Some(e.title), e.path, e.url, "")
  }

  /** The detail document of a book, which the downloader fetches. */
  function ApiUrl(id: string): string
  {
    "https://s-file-1.ykt.cbern.com.cn/zxx/ndrv2/resources/tch_material/details/" + id + ".json"
  }

  function TitleOf(book: ListBook): string
  {
    match book.title
    case None => "未知教材"
    case Some(t) => t
  }

  /** The task `process_book` builds for `book` of group `group`, with task id `id`. */
  function TaskOf(book: ListBook, group: string, id: string): Task
  {
    var meta := ParseCatalogPath(book.path);
    var title := TitleOf(book);
    var fileName := GenerateFileName(meta, title);
    Task(
      id, book.id, "assets_document", title, fileName, GenerateSavePath(meta, fileName),
      book.url, ApiUrl(book.id), book.path,
      Metadata(meta.stage, meta.subject, meta.version, meta.grade, meta.semester, book.publisher, group),
      0)
  }

  /**
   * The save path of a task lies under 教材库 and ends with the task's
   * file name, so the downloader always has a file to write.
   */
  lemma TaskSavePath(meta: CatalogInfo, title: string)
    requires RelativeFields(meta)
    ensures var fileName := GenerateFileName(meta, title);
            var p := Parts(GenerateSavePath(meta, fileName));
            |p| >= 2 && p[0] == "教材库" && p[|p| - 1] == fileName
  {
    FileNameIsComponent(meta, title);
    SavePathEnds(meta, GenerateFileName(meta, title));
  }

  lemma FileNameIsComponent(meta: CatalogInfo, title: string)
    ensures var r := GenerateFileName(meta, title);
            r != "" && r != "." && '/' !in r
  {
    GenerateFileNameSafe(meta, title);
    assert '/' in Illegal;
  }

  /** A save path lies under 教材库 and ends with its file name. */
  lemma SavePathEnds(meta: CatalogInfo, fileName: string)
    requires RelativeFields(meta)
    requires fileName != "" && fileName != "." && '/' !in fileName
    ensures var p := Parts(GenerateSavePath(meta, fileName));
            |p| >= 2 && p[0] == "教材库" && p[|p| - 1] == fileName
  {
    SavePathParts(meta, fileName);
  }

  /**
   * A book the analyser listed becomes a task whose metadata holds the
   * book's non-empty catalog fields in order, its title and id, and no
   * publisher.
   */
  lemma ListedBookTask(b: Book, group: string, id: string)
    requires WellFormedField(b.catalog.stage) && WellFormedField(b.catalog.subject)
    requires WellFormedField(b.catalog.version) && WellFormedField(b.catalog.grade)
    requires WellFormedField(b.catalog.semester)
    ensures var t := TaskOf(FromListEntry(ListEntryOf(b)), group, id);
            var m := Fields(NonEmpty(FieldValues(b.catalog)));
            t.metadata == Metadata(m.stage, m.subject, m.version, m.grade, m.semester, "", group)
            && t.contentId == b.id && t.originalTitle == b.title && t.catalogPath == CatalogPath(b.catalog)
  {
    ParseCatalogPathRoundTrip(b.catalog);
  }

  /** The group of a download list: its `group` key, or its stem without `download_list_`. */
  function GroupName(f: ListFile): string
  {
    match f.group
    case Some(g) => g
    case None => Replace(f.stem, "download_list_", "")
  }

  /**
   * For a list file written by the analyser, the group taken from the file
   * name is the file-name form of the group key.
   */
  lemma DefaultGroupName(key: string)
    requires !Contains(SafeFileName(key), "download_list_")
    ensures Replace(Stem(DownloadListFileName(key)), "download_list_", "") == SafeFileName(key)
  {
    var x := SafeFileName(key);
    var name := DownloadListFileName(key);
    var pat := "download_list_";
    assert name == pat + x + ".json";
    assert name[|name| - 5] == '.';
    assert forall j :: |name| - 5 < j < |name| ==> name[j] != '.';
    assert RFind(name, '.') == |name| - 5;
    assert Stem(name) == pat + x;
    assert OccursAt(pat + x, pat, 0);
    ReplaceAtLeftmost(pat + x, pat, "", 0);
    assert (pat + x)[|pat|..] == x;
    ReplaceAbsent(x, pat, "");
  }

  /** A book waiting to become a task, with the group of its list. */
  datatype Pending = Pending(book: ListBook, group: string)

  /** The books of one list with its group. */
  function PendingOf(books: seq<ListBook>, group: string): (r: seq<Pending>)
    ensures |r| == |books|
  {
    seq(|books|, i requires 0 <= i < |books| => Pending(books[i], group))
  }

  /** The books of all lists, list after list. */
  function AllPending(files: seq<ListFile>): seq<Pending>
  {
    FlatMap(files, FilePending)
  }

  /** The books of one list with its group. */
  function FilePending(f: ListFile): seq<Pending>
  {
    PendingOf(f.books, GroupName(f))
  }

  /** The task of `p`, numbered `k`. */
  function TaskAt(p: Pending, k: nat): (t: Task)
    ensures t.id == TaskId(k)
  {
    TaskOf(p.book, p.group, TaskId(k))
  }

  /** The tasks made from `ps` after `n` earlier tasks, in order, numbered on from `n + 1`. */
  function TasksFrom(ps: seq<Pending>, n: nat): seq<Task>
  {
    Numbered(ps, n, TaskAt)
  }

  /** One more book of a list. */
  lemma PendingStep(books: seq<ListBook>, j: nat, group: string)
    requires j < |books|
    ensures PendingOf(books[..j + 1], group) == PendingOf(books[..j], group) + [Pending(books[j], group)]
  {
    assert books[..j + 1][..j] == books[..j];
  }

  /** One more list: its books follow the earlier ones. */
  lemma LoadFileStep(files: seq<ListFile>, i: nat)
    requires i < |files|
    ensures AllPending(files[..i + 1]) == AllPending(files[..i]) + FilePending(files[i])
  {
    assert files[..i + 1] == files[..i] + [files[i]];
    FlatMapStep(files[..i], files[i], FilePending);
  }

  /** After the books of list `i`, the tasks are those of the first `i + 1` lists. */
  lemma LoadFileDone(t0: seq<Task>, files: seq<ListFile>, i: nat, before: seq<Task>, after: seq<Task>, f: (Pending, nat) -> Task)
    requires i < |files|
    requires before == t0 + Numbered(AllPending(files[..i]), |t0|, f)
    requires after == before + Numbered(PendingOf(files[i].books, GroupName(files[i])), |before|, f)
    ensures after == t0 + Numbered(AllPending(files[..i + 1]), |t0|, f)
  {
    var done := AllPending(files[..i]);
    NumberedExtend(t0, done, FilePending(files[i]), |t0|, f, after);
    LoadFileStep(files, i);
  }

  /** After book `j` of a list, the tasks are those of its first `j + 1` books. */
  lemma LoadBookDone(t0: seq<Task>, books: seq<ListBook>, j: nat, group: string, before: seq<Task>, task: Task, f: (Pending, nat) -> Task)
    requires j < |books|
    requires before == t0 + Numbered(PendingOf(books[..j], group), |t0|, f)
    requires task == f(Pending(books[j], group), |before| + 1)
    ensures before + [task] == t0 + Numbered(PendingOf(books[..j + 1], group), |t0|, f)
  {
    NumberedExtend(t0, PendingOf(books[..j], group), [Pending(books[j], group)], |t0|, f, before + [task]);
    PendingStep(books, j, group);
  }

  /** The key a statistic counts a task under. */
  function StageKey(t: Task): string
  {
    var s := Standardize(t.metadata.stage, StageMap); if s != "" then s else "其他"
  }

  function SubjectKey(t: Task): string
  {
    var s := Standardize(t.metadata.subject, SubjectMap); if s != "" then s else "其他"
  }

  function VersionKey(t: Task): string
  {
    var s := Standardize(t.metadata.version, VersionMap); if s != "" then s else "通用"
  }

  function GroupKeyOf(t: Task): string
  {
    t.metadata.group
  }

  /** The key of every task, in order. */
  function TaskKeys(tasks: seq<Task>, key: Task -> string): (r: seq<string>)
    ensures |r| == |tasks|
  {
    if tasks == [] then [] else TaskKeys(tasks[..|tasks| - 1], key) + [key(tasks[|tasks| - 1])]
  }

  lemma TallyStep(tasks: seq<Task>, i: nat, key: Task -> string)
    requires i < |tasks|
    ensures Tally(TaskKeys(tasks[..i + 1], key)) == Add(Tally(TaskKeys(tasks[..i], key)), key(tasks[i]), 1)
  {
    assert tasks[..i + 1][..i] == tasks[..i];
  }

  /** Every statistic counts each task once. */
  lemma StatisticsSums(tasks: seq<Task>)
    ensures Sum(Tally(TaskKeys(tasks, StageKey))) == |tasks| && Sum(Tally(TaskKeys(tasks, SubjectKey))) == |tasks|
    ensures Sum(Tally(TaskKeys(tasks, VersionKey))) == |tasks| && Sum(Tally(TaskKeys(tasks, GroupKeyOf))) == |tasks|
  {
    TallySum(TaskKeys(tasks, StageKey));
    TallySum(TaskKeys(tasks, SubjectKey));
    TallySum(TaskKeys(tasks, VersionKey));
    TallySum(TaskKeys(tasks, GroupKeyOf));
  }

  /** A task is counted under 其他 exactly when its stage is empty, unknown, or itself 其他. */
  lemma StageKeyOther(t: Task)
    ensures StageKey(t) == "其他" <==> t.metadata.stage in {"", "未知学段", "其他"}
  {
    var st := t.metadata.stage;
    if st != "" && st in StageMap && st != "未知学段" {
      assert StageMap[st] != "其他";
    }
  }

  /** The `statistics` object. */
  datatype TaskStats = TaskStats(
    total: nat,
    byStage: map<string, nat>,
    bySubject: map<string, nat>,
    byVersion: map<string, nat>,
    byGroup: map<string, nat>)

  class DownloadTaskGenerator {
    var taskCounter: nat
    var tasks: seq<Task>

    /** Every task was numbered by the counter, in order. */
    predicate Valid()
      reads this
    {
      taskCounter == |tasks| && forall i :: 0 <= i < |tasks| ==> tasks[i].id == TaskId(i + 1)
    }

    constructor()
      ensures taskCounter == 0 && tasks == [] && Valid()
    {
      taskCounter := 0;
      tasks := [];
    }

    /** `generate_task_id`: the counter goes up by one and names the new id. */
    method GenerateTaskId() returns (id: string)
      modifies this
      ensures taskCounter == old(taskCounter) + 1 && tasks == old(tasks)
      ensures id == TaskId(taskCounter)
    {
      taskCounter := taskCounter + 1;
      id := "task_" + ZeroPad(taskCounter, 4);
    }

    /** `process_book`: the task of one book, numbered by the next counter value. */
    method ProcessBook(book: ListBook, group: string) returns (task: Task)
      modifies this
      ensures taskCounter == old(taskCounter) + 1 && tasks == old(tasks)
      ensures task == TaskAt(Pending(book, group), taskCounter)
    {
      var meta := ParseCatalogPath(book.path);
      var title := TitleOf(book);
      var fileName := GenerateFileName(meta, title);
      var savePath := GenerateSavePath(meta, fileName);
      var id := GenerateTaskId();
      task := Task(
        id, book.id, "assets_document", title, fileName, savePath,
        book.url, ApiUrl(book.id), book.path,
        Metadata(meta.stage, meta.subject, meta.version, meta.grade, meta.semester, book.publisher, group),
        0);
    }

    /** `self.tasks.append(task)` for the task numbered next. */
    method AppendTask(task: Task)
      requires taskCounter == |tasks| + 1 && task.id == TaskId(taskCounter)
      requires forall i :: 0 <= i < |tasks| ==> tasks[i].id == TaskId(i + 1)
      modifies this
      ensures Valid() && tasks == old(tasks) + [task]
    {
      tasks := tasks + [task];
    }

    /**
     * `load_catalog_data` over the list files in the order they are found:
     * one task per book, list after list, numbered on from the tasks
     * already there.
     */
    method LoadCatalogData(files: seq<ListFile>)
      requires Valid()
      modifies this
      ensures Valid()
      ensures tasks == old(tasks) + TasksFrom(AllPending(files), old(|tasks|))
    {
      ghost var t0 := tasks;
      for i := 0 to |files|
        invariant Valid() && tasks == t0 + TasksFrom(AllPending(files[..i]), |t0|)
      {
        var file := files[i];
        var group := GroupName(file);
        ghost var before := tasks;
        LoadBooks(file.books, group);
        LoadFileDone(t0, files, i, before, tasks, TaskAt);
      }
      assert files[..|files|] == files;
    }

    /** The inner loop of `load_catalog_data`: the tasks of one list's books, in order. */
    method LoadBooks(books: seq<ListBook>, group: string)
      requires Valid()
      modifies this
      ensures Valid()
      ensures tasks == old(tasks) + TasksFrom(PendingOf(books, group), old(|tasks|))
    {
      ghost var t0 := tasks;
      for j := 0 to |books|
        invariant Valid() && tasks == t0 + TasksFrom(PendingOf(books[..j], group), |t0|)
      {
        ghost var before := tasks;
        var task := ProcessBook(books[j], group);
        LoadBookDone(t0, books, j, group, before, task, TaskAt);
        AppendTask(task);
      }
      assert books[..|books|] == books;
    }

    /**
     * `generate_statistics`: the tasks counted by standardised stage,
     * subject and version (with their defaults) and by group; each count
     * adds up to the number of tasks.
     */
    method GenerateStatistics() returns (stats: TaskStats)
      ensures stats.total == |tasks|
      ensures stats.byStage == Tally(TaskKeys(tasks, StageKey))
      ensures stats.bySubject == Tally(TaskKeys(tasks, SubjectKey))
      ensures stats.byVersion == Tally(TaskKeys(tasks, VersionKey))
      ensures stats.byGroup == Tally(TaskKeys(tasks, GroupKeyOf))
      ensures Sum(stats.byStage) == |tasks| && Sum(stats.bySubject) == |tasks|
      ensures Sum(stats.byVersion) == |tasks| && Sum(stats.byGroup) == |tasks|
    {
      var byStage: map<string, nat> := map[];
      var bySubject: map<string, nat> := map[];
      var byVersion: map<string, nat> := map[];
      var byGroup: map<string, nat> := map[];
      for i := 0 to |tasks|
        invariant byStage == Tally(TaskKeys(tasks[..i], StageKey))
        invariant bySubject == Tally(TaskKeys(tasks[..i], SubjectKey))
        invariant byVersion == Tally(TaskKeys(tasks[..i], VersionKey))
        invariant byGroup == Tally(TaskKeys(tasks[..i], GroupKeyOf))
      {
        var t := tasks[i];
        TallyStep(tasks, i, StageKey);
        TallyStep(tasks, i, SubjectKey);
        TallyStep(tasks, i, VersionKey);
        TallyStep(tasks, i, GroupKeyOf);
        byStage := Add(byStage, StageKey(t), 1);
        bySubject := Add(bySubject, SubjectKey(t), 1);
        byVersion := Add(byVersion, VersionKey(t), 1);
        byGroup := Add(byGroup, t.metadata.group, 1);
      }
      assert tasks[..|tasks|] == tasks;
      StatisticsSums(tasks);
      stats := TaskStats(|tasks|, byStage, bySubject, byVersion, byGroup);
    }
  }
}
