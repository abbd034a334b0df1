/**
 * The catalog analyser: it keeps the list of processed books and the
 * five-level tree, writes the counted tree with its statistics, and
 * groups the books by catalog path and by download group.
 */
module Analyzer {
  import opened Wrappers
  import opened Counting
  import opened Sequences
  import opened Catalog
  import opened CatalogTree
  import opened SubjectTally

  /** A book record of the platform after JSON parsing; a missing string is `""`. */
  datatype RawBook = RawBook(
    id: string,
    title: string,
    tiTitle: string,
    tags: seq<Tag>,
    providerNames: seq<string>,
    createTime: string,
    resourceTypeCode: Option<string>)

  /** The `book_info` record `process_single_book` builds from a raw book and its catalog. */
  function BookInfo(raw: RawBook, catalog: CatalogInfo): (b: Book)
    ensures b.title == (if raw.title != "" then raw.title else raw.tiTitle)
    ensures b.publisher == (if raw.providerNames == [] then "" else raw.providerNames[0])
    ensures raw.resourceTypeCode.None? ==> b.resourceType == "assets_document"
  {
    Book(
      raw.id,
      if raw.title != "" then raw.title else raw.tiTitle,
      catalog,
      if raw.providerNames == [] then "" else raw.providerNames[0],
      raw.createTime,
      match raw.resourceTypeCode case None => "assets_document" case Some(c) => c)
  }

  /** The detail page of a book on the platform. */
  function DetailUrl(b: Book): string
  {
    "https://basic.smartedu.cn/tchMaterial/detail?contentType=" + b.resourceType + "&contentId=" + b.id
    + "&catalogType=tchMaterial&subCatalog=tchMaterial"
  }

  /** An entry of `catalog_by_path.json`. */
  datatype PathEntry = PathEntry(id: string, title: string, publisher: string, url: string)

  /** An entry of a download list. */
  datatype ListEntry = ListEntry(id: string, title: string, path: string, url: string)

  function PathEntryOf(b: Book): PathEntry
  {
    PathEntry(b.id, b.title, b.publisher, DetailUrl(b))
  }

  function ListEntryOf(b: Book): ListEntry
  {
    ListEntry(b.id, b.title, CatalogPath(b.catalog), DetailUrl(b))
  }

  function PathOf(b: Book): string
  {
    CatalogPath(b.catalog)
  }

  function GroupOf(b: Book): string
  {
    GroupKey(b.catalog)
  }

  /** `groups[key(b)].append(entry(b))` for every book, with `groups` a `defaultdict(list)`. */
  function GroupBy<E>(books: seq<Book>, key: Book -> string, entry: Book -> E): map<string, seq<E>>
  {
    if books == [] then map[]
    else
      var m := GroupBy(books[..|books| - 1], key, entry);
      var b := books[|books| - 1];
      m[key(b) := (if key(b) in m then m[key(b)] else []) + [entry(b)]]
  }

  /** The entries under `k`, or none. */
  function GroupLookup<E>(m: map<string, seq<E>>, k: string): seq<E>
  {
    if k in m then m[k] else []
  }

  /** One more book appends its entry to the group of its key. */
  lemma GroupByStep<E>(books: seq<Book>, i: nat, key: Book -> string, entry: Book -> E)
    requires i < |books|
    ensures var m := GroupBy(books[..i], key, entry);
            var b := books[i];
            GroupBy(books[..i + 1], key, entry) == m[key(b) := (if key(b) in m then m[key(b)] else []) + [entry(b)]]
  {
    assert books[..i + 1][..i] == books[..i];
  }

  /**
   * A key has a group exactly when some book has that key, and its group
   * lists the entries of exactly those books, in their order.
   */
  lemma {:induction false} GroupByContents<E>(books: seq<Book>, key: Book -> string, entry: Book -> E, k: string)
    ensures k in GroupBy(books, key, entry) <==> exists i :: 0 <= i < |books| && key(books[i]) == k
    ensures GroupLookup(GroupBy(books, key, entry), k) == Map(Keep(books, (b: Book) => key(b) == k), entry)
    decreases |books|
  {
    if books != [] {
      var init := books[..|books| - 1];
      var b := books[|books| - 1];
      GroupByContents(init, key, entry, k);
      var p := (x: Book) => key(x) == k;
      if key(b) == k {
        assert Keep(books, p) == Keep(init, p) + [b];
        assert Map(Keep(books, p), entry) == Map(Keep(init, p), entry) + [entry(b)];
      } else {
        assert Keep(books, p) == Keep(init, p);
      }
      if exists i :: 0 <= i < |init| && key(init[i]) == k {
        var i :| 0 <= i < |init| && key(init[i]) == k;
        assert key(books[i]) == k;
      }
      if exists i :: 0 <= i < |books| && key(books[i]) == k {
        var i :| 0 <= i < |books| && key(books[i]) == k;
        if i < |init| {
          assert key(init[i]) == k;
        }
      }
    }
  }

  /** The number of entries of each group. */
  function Lengths<E>(m: map<string, seq<E>>): map<string, nat>
  {
    map k | k in m :: |m[k]|
  }

  lemma {:induction false} GroupByLengths<E>(books: seq<Book>, key: Book -> string, entry: Book -> E)
    ensures Lengths(GroupBy(books, key, entry)) == Tally(Map(books, key))
    decreases |books|
  {
    if books != [] {
      var init := books[..|books| - 1];
      GroupByLengths(init, key, entry);
      assert Map(books, key)[..|books| - 1] == Map(init, key);
      var m := GroupBy(init, key, entry);
      var k := key(books[|books| - 1]);
      var t := Tally(Map(init, key));
      assert Lengths(GroupBy(books, key, entry)) == Add(t, k, 1);
    }
  }

  /** Across all groups there is one entry per book. */
  lemma GroupByTotal<E>(books: seq<Book>, key: Book -> string, entry: Book -> E)
    ensures Sum(Lengths(GroupBy(books, key, entry))) == |books|
  {
    GroupByLengths(books, key, entry);
    TallySum(Map(books, key));
  }

  /** The statistics of `catalog_tree.json`. */
  datatype TreeStats = TreeStats(total: nat, byStage: map<string, nat>, bySubject: map<string, nat>, byPublisher: map<string, nat>)

  function PublisherOf(b: Book): string
  {
    b.publisher
  }

  /** The sum of the counts of the nodes of `s` at level `d`, after `SumCounts` of a prefix. */
  lemma SumCountsSnoc(ns: seq<TreeNode>, n: TreeNode)
    ensures SumCounts(ns + [n]) == SumCounts(ns) + n.count
  {
    assert (ns + [n])[..|ns|] == ns;
  }

  /**
   * The stage counters after the first `i` stages: each of their nodes is
   * named by its stage and counted, and no later stage is counted yet.
   */
  predicate StagesCounted(stages: seq<Entry>, i: nat, nodes: seq<TreeNode>, byStage: map<string, nat>)
    requires i <= |stages| && |nodes| == i
  {
    && (forall k :: i <= k < |stages| ==> stages[k].key !in byStage)
    && (forall k :: 0 <= k < i ==> nodes[k].name == stages[k].key)
    && (forall k :: 0 <= k < i ==> nodes[k].name in byStage && byStage[nodes[k].name] == nodes[k].count)
  }

  /** Recording the count of the next stage, whose key no earlier stage has. */
  lemma RecordStage(stages: seq<Entry>, i: nat, nodes: seq<TreeNode>, byStage: map<string, nat>, node: TreeNode)
    requires i < |stages| && |nodes| == i && DistinctKeys(stages) && node.name == stages[i].key
    requires StagesCounted(stages, i, nodes, byStage)
    ensures var m := byStage[node.name := node.count];
            Sum(m) == Sum(byStage) + node.count && StagesCounted(stages, i + 1, nodes + [node], m)
  {
    var m := byStage[node.name := node.count];
    var ns := nodes + [node];
    assert m == Add(byStage, node.name, node.count);
    SumAdd(byStage, node.name, node.count);
    forall k | i + 1 <= k < |stages| ensures stages[k].key !in m {
      assert stages[k].key != stages[i].key;
    }
    forall k | 0 <= k < i + 1 ensures ns[k].name == stages[k].key && ns[k].name in m && m[ns[k].name] == ns[k].count {
      if k < i {
        assert ns[k] == nodes[k] && nodes[k].name != node.name;
      }
    }
  }

  /** `by_subject[n.name] = by_subject.get(n.name, 0) + n.count` for every node `n`, in order. */
  function AddCounts(m: map<string, nat>, ns: seq<TreeNode>): map<string, nat>
  {
    if ns == [] then m else Add(AddCounts(m, ns[..|ns| - 1]), ns[|ns| - 1].name, ns[|ns| - 1].count)
  }

  /** The total count of the nodes named `s`. */
  function NamedCount(ns: seq<TreeNode>, s: string): nat
  {
    if ns == [] then 0
    else NamedCount(ns[..|ns| - 1], s) + (if ns[|ns| - 1].name == s then ns[|ns| - 1].count else 0)
  }

  /** The names of some nodes. */
  function Names(ns: seq<TreeNode>): set<string>
  {
    set i | 0 <= i < |ns| :: ns[i].name
  }

  lemma AddCountsSnoc(m: map<string, nat>, ns: seq<TreeNode>, n: TreeNode)
    ensures AddCounts(m, ns + [n]) == Add(AddCounts(m, ns), n.name, n.count)
  {
    assert (ns + [n])[..|ns|] == ns;
  }

  /** After the fold, the counter of `s` has grown by the counts of the nodes named `s` and by nothing else. */
  lemma {:induction false} AddCountsGet(m: map<string, nat>, ns: seq<TreeNode>, s: string)
    ensures Get(AddCounts(m, ns), s) == Get(m, s) + NamedCount(ns, s)
    decreases |ns|
  {
    if ns != [] {
      AddCountsGet(m, ns[..|ns| - 1], s);
    }
  }

  /** The fold has a counter for each earlier key and each node's name, and no other. */
  lemma {:induction false} AddCountsKeys(m: map<string, nat>, ns: seq<TreeNode>)
    ensures AddCounts(m, ns).Keys == m.Keys + Names(ns)
    decreases |ns|
  {
    if ns != [] {
      var init := ns[..|ns| - 1];
      AddCountsKeys(m, init);
      assert Names(ns) == Names(init) + {ns[|ns| - 1].name} by {
        forall x | x in Names(ns) ensures x in Names(init) + {ns[|ns| - 1].name} {
          var i :| 0 <= i < |ns| && ns[i].name == x;
          if i < |init| {
            assert init[i] == ns[i];
          }
        }
        forall x | x in Names(init) ensures x in Names(ns) {
          var i :| 0 <= i < |init| && init[i].name == x;
          assert ns[i] == init[i];
        }
      }
    }
  }

  /** The fold adds the sum of the counts to the total. */
  lemma {:induction false} AddCountsSum(m: map<string, nat>, ns: seq<TreeNode>)
    ensures Sum(AddCounts(m, ns)) == Sum(m) + SumCounts(ns)
    decreases |ns|
  {
    if ns != [] {
      var init := ns[..|ns| - 1];
      AddCountsSum(m, init);
      SumAdd(AddCounts(m, init), ns[|ns| - 1].name, ns[|ns| - 1].count);
    }
  }

  /** The per-subject counters of some stage nodes: the subject nodes of each stage added, stage after stage. */
  function SubjectTotals(stages: seq<TreeNode>): map<string, nat>
  {
    if stages == [] then map[] else AddCounts(SubjectTotals(stages[..|stages| - 1]), stages[|stages| - 1].children)
  }

  lemma SubjectTotalsSnoc(stages: seq<TreeNode>, n: TreeNode)
    ensures SubjectTotals(stages + [n]) == AddCounts(SubjectTotals(stages), n.children)
  {
    assert (stages + [n])[..|stages|] == stages;
  }

  /** The total count of the subject nodes named `s` over all stages. */
  function SubjectCount(stages: seq<TreeNode>, s: string): nat
  {
    if stages == [] then 0 else SubjectCount(stages[..|stages| - 1], s) + NamedCount(stages[|stages| - 1].children, s)
  }

  /** The counter of a subject is the total of its subject nodes over the stages. */
  lemma {:induction false} SubjectTotalsGet(stages: seq<TreeNode>, s: string)
    ensures Get(SubjectTotals(stages), s) == SubjectCount(stages, s)
    decreases |stages|
  {
    if stages != [] {
      var init := stages[..|stages| - 1];
      SubjectTotalsGet(init, s);
      AddCountsGet(SubjectTotals(init), stages[|stages| - 1].children, s);
    }
  }

  lemma NamedCountSnoc(ns: seq<TreeNode>, n: TreeNode, s: string)
    ensures NamedCount(ns + [n], s) == NamedCount(ns, s) + (if n.name == s then n.count else 0)
  {
    assert (ns + [n])[..|ns|] == ns;
  }

  lemma SubjectCountSnoc(stages: seq<TreeNode>, n: TreeNode, s: string)
    ensures SubjectCount(stages + [n], s) == SubjectCount(stages, s) + NamedCount(n.children, s)
  {
    assert (stages + [n])[..|stages|] == stages;
  }

  lemma SumByPrefix(es: seq<Entry>, n: nat, f: Entry -> nat)
    requires 0 < n <= |es|
    ensures SumBy(es[..n], f) == SumBy(es[..n - 1], f) + f(es[n - 1])
  {
    assert es[..n][..n - 1] == es[..n - 1];
  }

  /** The nodes named `s` of a row count the books of its entries keyed `s`. */
  lemma {:induction false} RowNamed(d: nat, srt: seq<Entry>, n: nat, s: string)
    requires d < Depth && n <= |srt| && forall i :: 0 <= i < |srt| ==> Shape(srt[i].sub, Depth - 1 - d)
    ensures NamedCount(Row(d, srt, n), s) == SumBy(srt[..n], KeyedBooks(s))
    decreases n
  {
    if n > 0 {
      RowNamed(d, srt, n - 1, s);
      var x := NodeOf(d, srt[n - 1]);
      assert x.name == srt[n - 1].key && x.count == BookCount(srt[n - 1].sub) by {
        NodeOfProperties(d, srt[n - 1]);
      }
      NamedCountSnoc(Row(d, srt, n - 1), x, s);
      SumByPrefix(srt, n, KeyedBooks(s));
    }
  }

  /** The entries of a level sorted for output are the level's entries. */
  lemma SortLevelShape(d: nat, es: seq<Entry>, depth: nat)
    requires forall i :: 0 <= i < |es| ==> Shape(es[i].sub, depth)
    ensures forall i :: 0 <= i < |SortLevel(d, es)| ==> Shape(SortLevel(d, es)[i].sub, depth)
  {
    var srt := SortLevel(d, es);
    SortLevelContents(d, es);
    forall i | 0 <= i < |srt| ensures Shape(srt[i].sub, depth) {
      assert srt[i] in multiset(es);
    }
  }

  /** The nodes named `s` of a level count the books of its entry keyed `s`. */
  lemma NodesNamed(d: nat, es: seq<Entry>, s: string)
    requires d < Depth && forall i :: 0 <= i < |es| ==> Shape(es[i].sub, Depth - 1 - d)
    ensures NamedCount(NodesOf(d, es), s) == SumBy(es, KeyedBooks(s))
  {
    var srt := SortLevel(d, es);
    SortLevelShape(d, es, Depth - 1 - d);
    RowNamed(d, srt, |srt|, s);
    assert srt[..|srt|] == srt;
    SortLevelSumBy(d, es, KeyedBooks(s));
  }

  /** The subject nodes named `s` of a row of stages count the books filed under subject `s`. */
  lemma {:induction false} RowSubjects(srt: seq<Entry>, n: nat, s: string)
    requires n <= |srt| && forall i :: 0 <= i < |srt| ==> Shape(srt[i].sub, Depth - 1)
    ensures SubjectCount(Row(0, srt, n), s) == SumBy(srt[..n], SubjectBooks(s))
    decreases n
  {
    if n > 0 {
      RowSubjects(srt, n - 1, s);
      var e := srt[n - 1];
      NodesNamed(1, EntriesOf(e.sub), s);
      SubjectCountSnoc(Row(0, srt, n - 1), NodeOf(0, e), s);
      SumByPrefix(srt, n, SubjectBooks(s));
    }
  }

  /** Summed over the stages, the subject nodes named `s` count the books whose subject key is `s`. */
  lemma TreeSubjectTotals(books: seq<Book>, s: string)
    ensures Get(SubjectTotals(NodesOf(0, EntriesOf(TreeOf(books)))), s) == Get(Tally(Map(books, BookSubject)), s)
  {
    TreeOfCount(books);
    var es := EntriesOf(TreeOf(books));
    var srt := SortLevel(0, es);
    SortLevelShape(0, es, Depth - 1);
    RowSubjects(srt, |srt|, s);
    assert srt[..|srt|] == srt;
    SortLevelSumBy(0, es, SubjectBooks(s));
    TreeSubjects(books, s);
    SubjectTotalsGet(NodesOf(0, es), s);
  }

  /** What `build_tree_structure` has after the first `i` stages of the sorted level. */
  ghost predicate StagesBuilt(stages: seq<Entry>, i: nat, nodes: seq<TreeNode>, byStage: map<string, nat>, bySubject: map<string, nat>)
  {
    && i <= |stages| && nodes == Row(0, stages, i)
    && Sum(byStage) == SumCounts(nodes) && Sum(bySubject) == SumCounts(nodes)
    && bySubject == SubjectTotals(nodes)
    && StagesCounted(stages, i, nodes, byStage)
  }

  /** One more stage: its node appended, its count recorded, its subjects' counts added. */
  lemma StagesStep(stages: seq<Entry>, i: nat, nodes: seq<TreeNode>, byStage: map<string, nat>, bySubject: map<string, nat>,
                   node: TreeNode, bySubject': map<string, nat>)
    requires DistinctKeys(stages) && i < |stages| && StagesBuilt(stages, i, nodes, byStage, bySubject)
    requires node == NodeOf(0, stages[i]) && node.name == stages[i].key
    requires bySubject' == AddCounts(bySubject, node.children) && Sum(bySubject') == Sum(bySubject) + node.count
    ensures StagesBuilt(stages, i + 1, nodes + [node], byStage[stages[i].key := node.count], bySubject')
  {
    var nodes' := nodes + [node];
    var byStage' := byStage[stages[i].key := node.count];
    assert nodes' == Row(0, stages, i + 1);
    RecordStage(stages, i, nodes, byStage, node);
    assert StagesCounted(stages, i + 1, nodes', byStage');
    SumCountsSnoc(nodes, node);
    assert Sum(byStage') == SumCounts(nodes') && Sum(bySubject') == SumCounts(nodes');
    SubjectTotalsSnoc(nodes, node);
  }

  class SmartEduAnalyzer {
    var books: seq<Book>
    var tree: Trie

    /** The tree holds exactly the processed books. */
    predicate Valid()
      reads this
    {
      tree == TreeOf(books)
    }

    constructor()
      ensures books == [] && tree == EmptyTrie && Valid()
    {
      books := [];
      tree := EmptyTrie;
    }

    /**
     * `process_single_book`: the book is appended to the list and filed in
     * the tree under its catalog fields, an empty field under its
     * placeholder.
     */
    method ProcessSingleBook(raw: RawBook) returns (b: Book)
      requires Valid()
      modifies this
      ensures Valid()
      ensures b == BookInfo(raw, CatalogFromTags(raw.tags))
      ensures books == old(books) + [b]
      ensures Lookup(tree, TreeKeys(b.catalog)) == old(Lookup(tree, TreeKeys(b.catalog))) + [b]
    {
      var catalog := ExtractCatalogFromTags(raw.tags);
      b := BookInfo(raw, catalog);
      var keys := TreeKeys(catalog);
      InsertLookup(tree, keys, b);
      books := books + [b];
      tree := Insert(tree, keys, b);
      assert books[..|books| - 1] == old(books);
    }

    /** The nodes of one level and the sum of their counts, the levels below built by recursion. */
    static method BuildLevel(d: nat, es: seq<Entry>) returns (nodes: seq<TreeNode>, count: nat)
      requires d < Depth
      ensures nodes == NodesOf(d, es) && count == SumCounts(nodes)
      decreases Depth - d
    {
      var sorted := SortLevel(d, es);
      nodes := [];
      count := 0;
      for i := 0 to |sorted|
        invariant nodes == Row(d, sorted, i)
        invariant count == SumCounts(nodes)
      {
        var e := sorted[i];
        var node;
        if d == Depth - 1 {
          var bs := LeafBooks(e.sub);
          node := TreeNode(e.key, Kinds[d], [], |bs|, RefsOf(bs));
        } else {
          var children, c := BuildLevel(d + 1, EntriesOf(e.sub));
          node := TreeNode(e.key, Kinds[d], children, c, []);
        }
        assert node == NodeOf(d, e);
        SumCountsSnoc(nodes, node);
        nodes := nodes + [node];
        count := count + node.count;
      }
    }

    /** The subject nodes of one stage; each subject's count is added to `bySubject`. */
    static method BuildSubjects(subjects: seq<Entry>, bySubject: map<string, nat>)
      returns (nodes: seq<TreeNode>, count: nat, bySubject': map<string, nat>)
      ensures nodes == NodesOf(1, subjects) && count == SumCounts(nodes)
      ensures bySubject' == AddCounts(bySubject, nodes)
      ensures Sum(bySubject') == Sum(bySubject) + count
    {
      var sorted := SortLevel(1, subjects);
      nodes := [];
      count := 0;
      bySubject' := bySubject;
      for i := 0 to |sorted|
        invariant nodes == Row(1, sorted, i)
        invariant count == SumCounts(nodes)
        invariant bySubject' == AddCounts(bySubject, nodes)
        invariant Sum(bySubject') == Sum(bySubject) + count
      {
        var e := sorted[i];
        var versions, versionCount := BuildLevel(2, EntriesOf(e.sub));
        var node := TreeNode(e.key, Kinds[1], versions, versionCount, []);
        assert node == NodeOf(1, e);
        SumCountsSnoc(nodes, node);
        SumAdd(bySubject', e.key, versionCount);
        AddCountsSnoc(bySubject, nodes, node);
        nodes := nodes + [node];
        count := count + versionCount;
        bySubject' := Add(bySubject', e.key, versionCount);
      }
    }

    /** The node of one stage; each of its subjects' counts is added to `bySubject`. */
    static method BuildStage(e: Entry, bySubject: map<string, nat>) returns (node: TreeNode, bySubject': map<string, nat>)
      ensures node == NodeOf(0, e) && node.name == e.key
      ensures bySubject' == AddCounts(bySubject, node.children)
      ensures Sum(bySubject') == Sum(bySubject) + node.count
    {
      var subjects, stageCount;
      subjects, stageCount, bySubject' := BuildSubjects(EntriesOf(e.sub), bySubject);
      node := TreeNode(e.key, Kinds[0], subjects, stageCount, []);
    }

    /**
     * The stage nodes of the sorted stage level, with the count of every
     * stage and the per-subject counts summed over the stages.
     */
    static method BuildStages(es: seq<Entry>)
      returns (nodes: seq<TreeNode>, byStage: map<string, nat>, bySubject: map<string, nat>)
      requires DistinctKeys(es)
      ensures nodes == NodesOf(0, es)
      ensures Sum(byStage) == SumCounts(nodes) && Sum(bySubject) == SumCounts(nodes)
      ensures bySubject == SubjectTotals(nodes)
      ensures forall i :: 0 <= i < |nodes| ==> nodes[i].name in byStage && byStage[nodes[i].name] == nodes[i].count
    {
      var stages := SortLevel(0, es);
      SortLevelKeys(0, es);
      byStage := map[];
      bySubject := map[];
      nodes := [];
      for i := 0 to |stages|
        invariant StagesBuilt(stages, i, nodes, byStage, bySubject)
      {
        var e := stages[i];
        var node, bySubject' := BuildStage(e, bySubject);
        StagesStep(stages, i, nodes, byStage, bySubject, node, bySubject');
        byStage := byStage[e.key := node.count];
        bySubject := bySubject';
        nodes := nodes + [node];
      }
    }

    /** The number of books of every publisher. */
    method CountPublishers() returns (byPublisher: map<string, nat>)
      ensures byPublisher == Tally(Map(books, PublisherOf)) && Sum(byPublisher) == |books|
    {
      byPublisher := map[];
      for i := 0 to |books|
        invariant byPublisher == Tally(Map(books[..i], PublisherOf))
      {
        MapPrefixStep(books, i, PublisherOf);
        TallySnoc(Map(books[..i], PublisherOf), PublisherOf(books[i]));
        byPublisher := Add(byPublisher, books[i].publisher, 1);
      }
      assert books[..|books|] == books;
      TallySum(Map(books, PublisherOf));
    }

    /**
     * `build_tree_structure`: the counted tree and its statistics. Every
     * node's count is its number of books or the sum of its children's,
     * and the stage, subject and publisher counts each add up to the
     * number of books.
     */
    method BuildTreeStructure() returns (nodes: seq<TreeNode>, stats: TreeStats)
      requires Valid()
      ensures nodes == NodesOf(0, EntriesOf(tree))
      ensures forall i :: 0 <= i < |nodes| ==> Consistent(nodes[i], 0)
      ensures stats.total == |books|
      ensures forall i :: 0 <= i < |nodes| ==> nodes[i].name in stats.byStage && stats.byStage[nodes[i].name] == nodes[i].count
      ensures Sum(stats.byStage) == |books| && Sum(stats.bySubject) == |books|
      ensures stats.bySubject == SubjectTotals(nodes)
      ensures forall s :: Get(stats.bySubject, s) == Get(Tally(Map(books, BookSubject)), s)
      ensures stats.byPublisher == Tally(Map(books, PublisherOf)) && Sum(stats.byPublisher) == |books|
    {
      TreeCounts(books);
      TreeOfCount(books);
      var byStage, bySubject;
      nodes, byStage, bySubject := BuildStages(EntriesOf(tree));
      var byPublisher := CountPublishers();
      stats := TreeStats(|books|, byStage, bySubject, byPublisher);
      forall s ensures Get(stats.bySubject, s) == Get(Tally(Map(books, BookSubject)), s) {
        TreeSubjectTotals(books, s);
      }
    }

    /** `generate_catalog_by_path`: the books grouped by their catalog path. */
    method GenerateCatalogByPath() returns (byPath: map<string, seq<PathEntry>>)
      ensures byPath == GroupBy(books, PathOf, PathEntryOf)
    {
      byPath := map[];
      for i := 0 to |books|
        invariant byPath == GroupBy(books[..i], PathOf, PathEntryOf)
      {
        GroupByStep(books, i, PathOf, PathEntryOf);
        var b := books[i];
        var path := CatalogPath(b.catalog);
        byPath := byPath[path := (if path in byPath then byPath[path] else []) + [PathEntryOf(b)]];
      }
      assert books[..|books|] == books;
    }

    /** `generate_download_list`: the books grouped by stage and subject, each entry with its catalog path. */
    method GenerateDownloadList() returns (groups: map<string, seq<ListEntry>>)
      ensures groups == GroupBy(books, GroupOf, ListEntryOf)
    {
      groups := map[];
      for i := 0 to |books|
        invariant groups == GroupBy(books[..i], GroupOf, ListEntryOf)
      {
        GroupByStep(books, i, GroupOf, ListEntryOf);
        var b := books[i];
        var key := GroupKey(b.catalog);
        groups := groups[key := (if key in groups then groups[key] else []) + [ListEntryOf(b)]];
      }
      assert books[..|books|] == books;
    }
  }
}
