/**
 * The catalog record of a textbook: the platform tags each book with
 * dimension ids for its stage, subject, version, grade and semester.
 * This module reads those tags into the five catalog fields, orders
 * grades, and builds the `' > '`-joined catalog path, the group key and
 * the name of the download-list file a book is written to.
 */
module Catalog {
  import opened Strings
  import opened Wrappers
  import opened Sequences

  /** The five catalog fields, in path order. */
  datatype Field = Stage | Subject | Version | Grade | Semester

  /** The `catalog` dictionary; a field that no tag set is `""`. */
  datatype CatalogInfo = CatalogInfo(stage: string, subject: string, version: string, grade: string, semester: string)

  const EmptyCatalog := CatalogInfo("", "", "", "", "")

  function FieldOf(c: CatalogInfo, f: Field): string
  {
    match f
    case Stage => c.stage
    case Subject => c.subject
    case Version => c.version
    case Grade => c.grade
    case Semester => c.semester
  }

  /** `catalog[f] = v` */
  function WithField(c: CatalogInfo, f: Field, v: string): (r: CatalogInfo)
    ensures FieldOf(r, f) == v
    ensures forall g :: g != f ==> FieldOf(r, g) == FieldOf(c, g)
  {
    match f
    case Stage => c.(stage := v)
    case Subject => c.(subject := v)
    case Version => c.(version := v)
    case Grade => c.(grade := v)
    case Semester => c.(semester := v)
  }

  /** The field values in path order. */
  function FieldValues(c: CatalogInfo): (r: seq<string>)
  {
    [c.stage, c.subject, c.version, c.grade, c.semester]
  }

  /** `dimension_map`: tag dimension id to catalog field. */
  const DimensionMap: map<string, Field> := map[
    "zxxxd" := Stage,
    "zxxxk" := Subject,
    "zxxbb" := Version,
    "zxxnj" := Grade,
    "zxxcc" := Semester
  ]

  /** One entry of a book's `tag_list`; a missing id or name is `""`. */
  datatype Tag = Tag(dimensionId: string, name: string)

  /** The tag sets field `f`: its dimension is known, maps to `f`, and it has a name. */
  predicate Sets(t: Tag, f: Field)
  {
    t.dimensionId in DimensionMap && DimensionMap[t.dimensionId] == f && t.name != ""
  }

  /** One iteration of the tag loop. */
  function ApplyTag(c: CatalogInfo, t: Tag): CatalogInfo
  {
    if t.dimensionId in DimensionMap && t.name != "" then WithField(c, DimensionMap[t.dimensionId], t.name) else c
  }

  /** The catalog the tag loop ends with. */
  function CatalogFromTags(tags: seq<Tag>): CatalogInfo
  {
    if tags == [] then EmptyCatalog else ApplyTag(CatalogFromTags(tags[..|tags| - 1]), tags[|tags| - 1])
  }

  /** `extract_catalog_from_tags`: start with five empty fields, let each tag overwrite its field. */
  method ExtractCatalogFromTags(tags: seq<Tag>) returns (catalog: CatalogInfo)
    ensures catalog == CatalogFromTags(tags)
  {
    catalog := EmptyCatalog;
    for i := 0 to |tags|
      invariant catalog == CatalogFromTags(tags[..i])
    {
      assert tags[..i + 1][..i] == tags[..i];
      var tag := tags[i];
      if tag.dimensionId in DimensionMap && tag.name != "" {
        catalog := WithField(catalog, DimensionMap[tag.dimensionId], tag.name);
      }
    }
    assert tags[..|tags|] == tags;
  }

  /** The index of the last tag that sets field `f`, if any. */
  function LastSetting(tags: seq<Tag>, f: Field): (r: Option<nat>)
    ensures r.Some? ==> r.value < |tags| && Sets(tags[r.value], f)
    ensures r.Some? ==> forall j :: r.value < j < |tags| ==> !Sets(tags[j], f)
    ensures r.None? ==> forall j :: 0 <= j < |tags| ==> !Sets(tags[j], f)
  {
    if tags == [] then None
    else if Sets(tags[|tags| - 1], f) then Some(|tags| - 1)
    else LastSetting(tags[..|tags| - 1], f)
  }

  /**
   * Each field holds the name of the last tag that sets it, and is empty
   * when no tag sets it: unknown dimensions and empty names are ignored
   * and later tags overwrite earlier ones.
   */
  lemma {:induction false} LastTagWins(tags: seq<Tag>, f: Field)
    ensures FieldOf(CatalogFromTags(tags), f) ==
              match LastSetting(tags, f)
              case None => ""
              case Some(i) => tags[i].name
    decreases |tags|
  {
    if tags != [] {
      var init := tags[..|tags| - 1];
      LastTagWins(init, f);
    }
  }

  /** `grade_order` of `sort_grade`. */
  const GradeOrder: map<string, int> := map[
    "一年级" := 1, "二年级" := 2, "三年级" := 3,
    "四年级" := 4, "五年级" := 5, "六年级" := 6,
    "七年级" := 7, "八年级" := 8, "九年级" := 9,
    "高一" := 10, "高二" := 11, "高三" := 12,
    "学生读本" := 20
  ]

  /** `sort_grade`: the rank a grade is sorted by; unknown grades come last. */
  function SortGrade(grade: string): (r: int)
    ensures 1 <= r <= 99
  {
    if grade in GradeOrder then GradeOrder[grade] else 99
  }

  /** The school grades in teaching order. */
  const SchoolGrades: seq<string> := [
    "一年级", "二年级", "三年级", "四年级", "五年级", "六年级",
    "七年级", "八年级", "九年级", "高一", "高二", "高三"
  ]

  /**
   * The school grades rank 1 to 12 in teaching order, student readers
   * rank 20, and every other grade ranks 99, after all of them.
   */
  lemma SortGradeRanks(g: string)
    ensures forall i :: 0 <= i < |SchoolGrades| ==> SortGrade(SchoolGrades[i]) == i + 1
    ensures SortGrade("学生读本") == 20
    ensures g !in SchoolGrades && g != "学生读本" ==> SortGrade(g) == 99
    ensures SortGrade(g) < 99 <==> g in SchoolGrades || g == "学生读本"
  {
    if g in GradeOrder && g != "学生读本" {
      assert g in SchoolGrades by {
        assert g == SchoolGrades[0] || g == SchoolGrades[1] || g == SchoolGrades[2] || g == SchoolGrades[3]
            || g == SchoolGrades[4] || g == SchoolGrades[5] || g == SchoolGrades[6] || g == SchoolGrades[7]
            || g == SchoolGrades[8] || g == SchoolGrades[9] || g == SchoolGrades[10] || g == SchoolGrades[11];
      }
    }
  }

  /** A string Python treats as true. */
  predicate IsSet(x: string)
  {
    x != ""
  }

  /** Keeps the non-empty strings, as `filter(None, ...)` does. */
  function NonEmpty(xs: seq<string>): seq<string>
  {
    Keep(xs, IsSet)
  }

  /** The catalog path: the non-empty fields in path order, joined by `" > "`. */
  function CatalogPath(c: CatalogInfo): string
  {
    Join(" > ", NonEmpty(FieldValues(c)))
  }

  /** The characters `generate_download_list` turns into `_` in a group key. */
  function GroupPart(s: string): (r: string)
    ensures |r| == |s| && '/' !in r && '·' !in r
    ensures forall i :: 0 <= i < |s| ==> r[i] == if s[i] == '/' || s[i] == '·' then '_' else s[i]
  {
    ReplaceChar(ReplaceChar(s, '/', '_'), '·', '_')
  }

  /** The group a book is listed in: its stage and subject, joined by `_`. */
  function GroupKey(c: CatalogInfo): (r: string)
    ensures '/' !in r && '·' !in r
  {
    GroupPart(c.stage) + "_" + GroupPart(c.subject)
  }

  /** The group key with spaces and full-width parentheses made safe for a file name. */
  function SafeFileName(key: string): (r: string)
    ensures |r| == |key|
    ensures forall i :: 0 <= i < |key| ==>
              r[i] == if key[i] == ' ' then '_' else if key[i] == '（' then '(' else if key[i] == '）' then ')' else key[i]
  {
    ReplaceChar(ReplaceChar(ReplaceChar(key, ' ', '_'), '（', '('), '）', ')')
  }

  /** The download-list file a group is written to. */
  function DownloadListFileName(key: string): string
  {
    "download_list_" + SafeFileName(key) + ".json"
  }

  /**
   * A group key is the stage and the subject with every `/` and `·` made
   * `_`, separated by `_`.
   */
  lemma GroupKeyShape(c: CatalogInfo)
    ensures var k := GroupKey(c);
            |k| == |c.stage| + 1 + |c.subject|
            && k[|c.stage|] == '_'
            && '/' !in k && '·' !in k
            && (forall i :: 0 <= i < |c.stage| ==> k[i] == if c.stage[i] == '/' || c.stage[i] == '·' then '_' else c.stage[i])
            && (forall i :: 0 <= i < |c.subject| ==>
                  k[|c.stage| + 1 + i] == if c.subject[i] == '/' || c.subject[i] == '·' then '_' else c.subject[i])
  {
    var k := GroupKey(c);
    var a := GroupPart(c.stage);
    var b := GroupPart(c.subject);
    assert k == a + "_" + b;
    forall i | 0 <= i < |c.subject| ensures k[|c.stage| + 1 + i] == b[i] { }
  }

  /** The download list of a group is one file: its name has no `/`, space or full-width parenthesis. */
  lemma DownloadListFileNameSafe(c: CatalogInfo)
    ensures var n := DownloadListFileName(GroupKey(c));
            '/' !in n && ' ' !in n && '（' !in n && '）' !in n
  {
    var k := GroupKey(c);
    var s := SafeFileName(k);
    var n := DownloadListFileName(k);
    assert n == "download_list_" + s + ".json";
    forall i | 0 <= i < |s| ensures s[i] != '/' && s[i] != ' ' && s[i] != '（' && s[i] != '）' {
      assert k[i] != '/';
    }
    forall i | 0 <= i < |n| ensures n[i] != '/' && n[i] != ' ' && n[i] != '（' && n[i] != '）' {
      if 14 <= i < 14 + |s| {
        assert n[i] == s[i - 14];
      }
    }
  }
}
