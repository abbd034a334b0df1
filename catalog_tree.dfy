/**
 * The catalog tree: books filed under stage, subject, version, grade and
 * semester (a five-level `defaultdict` ending in lists), and the tree of
 * counted nodes that is written out, each level sorted (grades by their
 * rank, the other levels by name).
 */
module CatalogTree {
  import opened Wrappers
  import opened Counting
  import opened Sequences
  import opened Catalog

  /** A book as the analyser stores it. */
  datatype Book = Book(
    id: string,
    title: string,
    catalog: CatalogInfo,
    publisher: string,
    createTime: string,
    resourceType: string)

  /** One level of nested dictionaries, keys in insertion order, or the list of books at the bottom. */
  datatype Trie = Leaf(books: seq<Book>) | Node(entries: seq<Entry>)
  datatype Entry = Entry(key: string, sub: Trie)

  /** A level that has not been created yet. */
  const EmptyTrie := Node([])

  /** The number of tree levels above the book lists. */
  const Depth := 5

  function LeafBooks(t: Trie): seq<Book>
  {
    if t.Leaf? then t.books else []
  }

  function EntriesOf(t: Trie): seq<Entry>
  {
    if t.Node? then t.entries else []
  }

  /** The index of the entry with key `k`, if any. */
  function Find(es: seq<Entry>, k: string): (r: Option<nat>)
    ensures r.Some? ==> r.value < |es| && es[r.value].key == k
    ensures r.Some? ==> forall j :: 0 <= j < r.value ==> es[j].key != k
    ensures r.None? ==> forall j :: 0 <= j < |es| ==> es[j].key != k
  {
    if es == [] then None
    else if es[0].key == k then Some(0)
    else match Find(es[1..], k)
      case None => None
      case Some(i) => Some(i + 1)
  }

  /** `tree[k1][k2]...[kn].append(b)`, creating missing levels on the way. */
  function Insert(t: Trie, keys: seq<string>, b: Book): Trie
    decreases |keys|, 1
  {
    if keys == [] then Leaf(LeafBooks(t) + [b])
    else Node(Upsert(EntriesOf(t), keys[0], keys[1..], b))
  }

  /** Inserts below the entry with key `k`, appending a new entry when there is none. */
  function Upsert(es: seq<Entry>, k: string, rest: seq<string>, b: Book): seq<Entry>
    decreases |rest| + 1, 0, |es|
  {
    if es == [] then [Entry(k, Insert(EmptyTrie, rest, b))]
    else if es[0].key == k then [Entry(k, Insert(es[0].sub, rest, b))] + es[1..]
    else [es[0]] + Upsert(es[1..], k, rest, b)
  }

  /** The books under the key path `keys`. */
  function Lookup(t: Trie, keys: seq<string>): seq<Book>
    decreases |keys|
  {
    if keys == [] then LeafBooks(t)
    else match Find(EntriesOf(t), keys[0])
      case None => []
      case Some(i) => Lookup(EntriesOf(t)[i].sub, keys[1..])
  }

  predicate DistinctKeys(es: seq<Entry>)
  {
    forall i, j :: 0 <= i < j < |es| ==> es[i].key != es[j].key
  }

  function KeySet(es: seq<Entry>): set<string>
  {
    set i | 0 <= i < |es| :: es[i].key
  }

  lemma KeySetCons(e: Entry, es: seq<Entry>)
    ensures KeySet([e] + es) == {e.key} + KeySet(es)
  {
    var s := [e] + es;
    forall x | x in KeySet(s) ensures x in {e.key} + KeySet(es) {
      var i :| 0 <= i < |s| && s[i].key == x;
      if i > 0 {
        assert es[i - 1].key == x;
      }
    }
    forall x | x in KeySet(es) ensures x in KeySet(s) {
      var i :| 0 <= i < |es| && es[i].key == x;
      assert s[i + 1].key == x;
    }
    assert s[0].key == e.key;
  }

  lemma DistinctKeysCons(e: Entry, es: seq<Entry>)
    ensures DistinctKeys([e] + es) <==> DistinctKeys(es) && e.key !in KeySet(es)
  {
    var s := [e] + es;
    if DistinctKeys(s) {
      forall i, j | 0 <= i < j < |es| ensures es[i].key != es[j].key {
        assert s[i + 1] == es[i] && s[j + 1] == es[j];
      }
      forall i | 0 <= i < |es| ensures es[i].key != e.key {
        assert s[0] == e && s[i + 1] == es[i];
      }
    }
    if DistinctKeys(es) && e.key !in KeySet(es) {
      forall i, j | 0 <= i < j < |s| ensures s[i].key != s[j].key {
        if i == 0 {
          assert s[j] == es[j - 1];
        } else {
          assert s[i] == es[i - 1] && s[j] == es[j - 1];
        }
      }
    }
  }

  /** `t` has `d` levels of dictionaries with distinct keys above its lists. */
  predicate Shape(t: Trie, d: nat)
  {
    if d == 0 then t.Leaf? || t == EmptyTrie
    else t.Node? && DistinctKeys(t.entries) && forall i :: 0 <= i < |t.entries| ==> Shape(t.entries[i].sub, d - 1)
  }

  /** The number of books in the lists of `t`. */
  function BookCount(t: Trie): nat
  {
    match t
    case Leaf(bs) => |bs|
    case Node(es) => EntriesCount(es)
  }

  function EntriesCount(es: seq<Entry>): nat
  {
    if es == [] then 0 else EntriesCount(es[..|es| - 1]) + BookCount(es[|es| - 1].sub)
  }

  lemma {:induction false} EntriesCountAppend(a: seq<Entry>, b: seq<Entry>)
    ensures EntriesCount(a + b) == EntriesCount(a) + EntriesCount(b)
    decreases |b|
  {
    if b == [] {
      assert a + b == a;
    } else {
      assert (a + b)[..|a + b| - 1] == a + b[..|b| - 1];
      EntriesCountAppend(a, b[..|b| - 1]);
    }
  }

  lemma EntriesCountCons(e: Entry, es: seq<Entry>)
    ensures EntriesCount([e] + es) == BookCount(e.sub) + EntriesCount(es)
  {
    EntriesCountAppend([e], es);
    assert [e][..0] == [];
  }

  /** Inserting a book adds one book to the count and keeps the shape of the tree. */
  lemma {:induction false} InsertCount(t: Trie, keys: seq<string>, b: Book)
    requires Shape(t, |keys|)
    ensures BookCount(Insert(t, keys, b)) == BookCount(t) + 1
    ensures Shape(Insert(t, keys, b), |keys|)
    decreases |keys|, 1
  {
    if keys != [] {
      UpsertKeys(EntriesOf(t), keys[0], keys[1..], b);
      UpsertCount(EntriesOf(t), keys[0], keys[1..], b);
    }
  }

  /** An upsert adds its key once to a level whose keys are distinct. */
  lemma {:induction false} UpsertKeys(es: seq<Entry>, k: string, rest: seq<string>, b: Book)
    requires DistinctKeys(es)
    ensures var r := Upsert(es, k, rest, b);
            DistinctKeys(r) && KeySet(r) == KeySet(es) + {k}
    decreases |es|
  {
    var r := Upsert(es, k, rest, b);
    if es == [] {
      assert r == [Entry(k, Insert(EmptyTrie, rest, b))];
      assert r[0].key == k;
    } else if es[0].key == k {
      assert KeySet(r) == KeySet(es) by {
        assert forall i :: 0 <= i < |r| ==> r[i].key == es[i].key;
      }
    } else {
      var tail := es[1..];
      UpsertKeys(tail, k, rest, b);
      var rt := Upsert(tail, k, rest, b);
      assert r == [es[0]] + rt;
      assert es == [es[0]] + tail;
      KeySetCons(es[0], tail);
      KeySetCons(es[0], rt);
      DistinctKeysCons(es[0], tail);
      DistinctKeysCons(es[0], rt);
    }
  }

  /** The upsert adds one book and keeps every entry `|rest|` levels deep. */
  predicate UpsertCounted(es: seq<Entry>, k: string, rest: seq<string>, b: Book)
  {
    var r := Upsert(es, k, rest, b);
    EntriesCount(r) == EntriesCount(es) + 1 && forall i :: 0 <= i < |r| ==> Shape(r[i].sub, |rest|)
  }

  lemma {:induction false} UpsertCount(es: seq<Entry>, k: string, rest: seq<string>, b: Book)
    requires forall i :: 0 <= i < |es| ==> Shape(es[i].sub, |rest|)
    ensures UpsertCounted(es, k, rest, b)
    decreases |rest| + 1, 0, |es|
  {
    if es == [] {
      InsertCount(EmptyTrie, rest, b);
      EntriesCountCons(Upsert(es, k, rest, b)[0], []);
    } else if es[0].key == k {
      InsertCount(es[0].sub, rest, b);
      UpsertCountHere(es, k, rest, b);
    } else {
      UpsertCount(es[1..], k, rest, b);
      UpsertCountCons(es, k, rest, b);
    }
  }

  lemma UpsertCountHere(es: seq<Entry>, k: string, rest: seq<string>, b: Book)
    requires es != [] && es[0].key == k && forall i :: 0 <= i < |es| ==> Shape(es[i].sub, |rest|)
    requires BookCount(Insert(es[0].sub, rest, b)) == BookCount(es[0].sub) + 1
    requires Shape(Insert(es[0].sub, rest, b), |rest|)
    ensures UpsertCounted(es, k, rest, b)
  {
    var r := Upsert(es, k, rest, b);
    assert r == [Entry(k, Insert(es[0].sub, rest, b))] + es[1..];
    EntriesCountCons(r[0], es[1..]);
    EntriesCountCons(es[0], es[1..]);
    assert es == [es[0]] + es[1..];
  }

  lemma UpsertCountCons(es: seq<Entry>, k: string, rest: seq<string>, b: Book)
    requires es != [] && es[0].key != k && Shape(es[0].sub, |rest|)
    requires UpsertCounted(es[1..], k, rest, b)
    ensures UpsertCounted(es, k, rest, b)
  {
    var r := Upsert(es, k, rest, b);
    var tail := es[1..];
    var rt := Upsert(tail, k, rest, b);
    assert r == [es[0]] + rt;
    EntriesCountCons(es[0], rt);
    EntriesCountCons(es[0], tail);
    assert es == [es[0]] + tail;
    forall i | 0 <= i < |r| ensures Shape(r[i].sub, |rest|) {
      if i > 0 {
        assert r[i] == rt[i - 1];
      }
    }
  }

  /** After the insertion the key path ends with the inserted book. */
  lemma {:induction false} InsertLookup(t: Trie, keys: seq<string>, b: Book)
    ensures Lookup(Insert(t, keys, b), keys) == Lookup(t, keys) + [b]
    decreases |keys|, 1
  {
    if keys != [] {
      UpsertLookup(EntriesOf(t), keys[0], keys[1..], b);
    }
  }

  lemma {:induction false} UpsertLookup(es: seq<Entry>, k: string, rest: seq<string>, b: Book)
    ensures var r := Upsert(es, k, rest, b);
            Find(r, k).Some?
            && Lookup(r[Find(r, k).value].sub, rest)
               == (match Find(es, k) case None => [] case Some(i) => Lookup(es[i].sub, rest)) + [b]
    decreases |rest| + 1, 0, |es|
  {
    var r := Upsert(es, k, rest, b);
    if es == [] {
      InsertLookup(EmptyTrie, rest, b);
      assert Lookup(EmptyTrie, rest) == [];
    } else if es[0].key == k {
      InsertLookup(es[0].sub, rest, b);
    } else {
      UpsertLookup(es[1..], k, rest, b);
      var rt := Upsert(es[1..], k, rest, b);
      assert r == [es[0]] + rt;
      assert r[1..] == rt;
    }
  }

  /** Inserting along one key path leaves every other key path of the same length as it was. */
  lemma {:induction false} InsertLookupOther(t: Trie, keys: seq<string>, other: seq<string>, b: Book)
    requires |other| == |keys| && other != keys
    ensures Lookup(Insert(t, keys, b), other) == Lookup(t, other)
    decreases |keys|, 1
  {
    var es := EntriesOf(t);
    var r := Upsert(es, keys[0], keys[1..], b);
    assert Insert(t, keys, b) == Node(r);
    if other[0] == keys[0] {
      assert other[1..] != keys[1..] by {
        assert other == [other[0]] + other[1..] && keys == [keys[0]] + keys[1..];
      }
      UpsertLookupOther(es, keys[0], keys[1..], other[1..], b);
    } else {
      UpsertKeepsOthers(es, keys[0], keys[1..], other[0], b);
    }
  }

  /** After the upsert, the entry for `k` has the books the old one had under `other`. */
  predicate UpsertKeepsPath(es: seq<Entry>, k: string, rest: seq<string>, other: seq<string>, b: Book)
  {
    var r := Upsert(es, k, rest, b);
    Find(r, k).Some?
    && Lookup(r[Find(r, k).value].sub, other)
       == (match Find(es, k) case None => [] case Some(i) => Lookup(es[i].sub, other))
  }

  /** Below the key `k`, a different path of the same length is unchanged. */
  lemma {:induction false} UpsertLookupOther(es: seq<Entry>, k: string, rest: seq<string>, other: seq<string>, b: Book)
    requires |other| == |rest| && other != rest
    ensures UpsertKeepsPath(es, k, rest, other, b)
    decreases |rest| + 1, 0, |es|
  {
    if es == [] {
      InsertLookupOther(EmptyTrie, rest, other, b);
      assert Lookup(EmptyTrie, other) == [];
    } else if es[0].key == k {
      InsertLookupOther(es[0].sub, rest, other, b);
    } else {
      UpsertLookupOther(es[1..], k, rest, other, b);
      UpsertKeepsPathCons(es, k, rest, other, b);
    }
  }

  lemma UpsertKeepsPathCons(es: seq<Entry>, k: string, rest: seq<string>, other: seq<string>, b: Book)
    requires es != [] && es[0].key != k && UpsertKeepsPath(es[1..], k, rest, other, b)
    ensures UpsertKeepsPath(es, k, rest, other, b)
  {
    var r := Upsert(es, k, rest, b);
    var rt := Upsert(es[1..], k, rest, b);
    assert r == [es[0]] + rt;
    assert r[1..] == rt;
  }

  /** After the upsert, the entry for `k'` is where and what it was. */
  predicate UpsertKeepsEntry(es: seq<Entry>, k: string, rest: seq<string>, k': string, b: Book)
  {
    var r := Upsert(es, k, rest, b);
    match Find(es, k')
    case None => Find(r, k').None?
    case Some(i) => Find(r, k').Some? && r[Find(r, k').value] == es[i]
  }

  /** The entries for keys other than `k` are untouched. */
  lemma {:induction false} UpsertKeepsOthers(es: seq<Entry>, k: string, rest: seq<string>, k': string, b: Book)
    requires k' != k
    ensures UpsertKeepsEntry(es, k, rest, k', b)
    decreases |es|
  {
    if es == [] {
    } else if es[0].key == k {
      UpsertKeepsHere(es, k, rest, k', b);
    } else if es[0].key != k' {
      UpsertKeepsOthers(es[1..], k, rest, k', b);
      UpsertKeepsCons(es, k, rest, k', b);
    }
  }

  lemma UpsertKeepsHere(es: seq<Entry>, k: string, rest: seq<string>, k': string, b: Book)
    requires k' != k && es != [] && es[0].key == k
    ensures UpsertKeepsEntry(es, k, rest, k', b)
  {
    var r := Upsert(es, k, rest, b);
    assert r[1..] == es[1..];
    var f := Find(es[1..], k');
    assert Find(es, k') == (match f case None => None case Some(i) => Some(i + 1));
  }

  lemma UpsertKeepsCons(es: seq<Entry>, k: string, rest: seq<string>, k': string, b: Book)
    requires es != [] && es[0].key != k && es[0].key != k'
    requires UpsertKeepsEntry(es[1..], k, rest, k', b)
    ensures UpsertKeepsEntry(es, k, rest, k', b)
  {
    var r := Upsert(es, k, rest, b);
    var rt := Upsert(es[1..], k, rest, b);
    assert r == [es[0]] + rt;
    assert r[1..] == rt;
  }

  /** The key path of a book: its catalog fields, each empty one replaced by its placeholder. */
  function TreeKeys(c: CatalogInfo): (r: seq<string>)
    ensures |r| == Depth
    ensures forall i :: 0 <= i < Depth ==> r[i] != ""
    ensures forall i :: 0 <= i < Depth ==> FieldValues(c)[i] != "" ==> r[i] == FieldValues(c)[i]
  {
    [
      if c.stage != "" then c.stage else "未知学段",
      if c.subject != "" then c.subject else "未知学科",
      if c.version != "" then c.version else "未知版本",
      if c.grade != "" then c.grade else "未知年级",
      if c.semester != "" then c.semester else "未分册"
    ]
  }

  /** The tree after every book of `books` was inserted, in order. */
  function TreeOf(books: seq<Book>): Trie
  {
    if books == [] then EmptyTrie
    else var b := books[|books| - 1]; Insert(TreeOf(books[..|books| - 1]), TreeKeys(b.catalog), b)
  }

  /** The tree holds each book once: five levels deep, the counts adding up to the number of books. */
  lemma {:induction false} TreeOfCount(books: seq<Book>)
    ensures Shape(TreeOf(books), Depth) && BookCount(TreeOf(books)) == |books|
    decreases |books|
  {
    if books != [] {
      var b := books[|books| - 1];
      TreeOfCount(books[..|books| - 1]);
      InsertCount(TreeOf(books[..|books| - 1]), TreeKeys(b.catalog), b);
    }
  }

  /** Every book is filed under its own key path; each key path lists exactly its books, in order. */
  lemma {:induction false} TreeOfLookup(books: seq<Book>, keys: seq<string>)
    requires |keys| == Depth
    ensures Lookup(TreeOf(books), keys) == Keep(books, (b: Book) => TreeKeys(b.catalog) == keys)
    decreases |books|
  {
    if books == [] {
      assert Lookup(EmptyTrie, keys) == [];
    } else {
      var init := books[..|books| - 1];
      var b := books[|books| - 1];
      TreeOfLookup(init, keys);
      if TreeKeys(b.catalog) == keys {
        InsertLookup(TreeOf(init), keys, b);
      } else {
        InsertLookupOther(TreeOf(init), TreeKeys(b.catalog), keys, b);
      }
    }
  }

  /** Python's `a < b` on strings: code points compared left to right, a proper prefix first. */
  predicate StrLess(a: string, b: string)
    decreases |a|
  {
    if a == [] then b != []
    else if b == [] then false
    else if a[0] != b[0] then a[0] < b[0]
    else StrLess(a[1..], b[1..])
  }

  lemma {:induction false} StrLessAsymmetric(a: string, b: string)
    ensures StrLess(a, b) ==> !StrLess(b, a)
    decreases |a|
  {
    if a != [] && b != [] && a[0] == b[0] {
      StrLessAsymmetric(a[1..], b[1..]);
    }
  }

  /** The `sort_grade` key is used at this level (stage 0, subject 1, version 2, grade 3, semester 4). */
  const GradeLevel := 3

  /** At level `d`, a key `x` may stay before a key `y`: grades by rank, other levels by name. */
  predicate InOrder(d: nat, x: string, y: string)
  {
    if d == GradeLevel then SortGrade(x) <= SortGrade(y) else !StrLess(y, x)
  }

  /** Two keys out of order at level `d` are in order the other way round. */
  lemma InOrderTotal(d: nat, x: string, y: string)
    ensures !InOrder(d, x, y) ==> InOrder(d, y, x)
  {
    StrLessAsymmetric(y, x);
  }

  /** Inserts `x` after the last element it does not sort before, so equal keys keep their order. */
  function InsertSorted(d: nat, s: seq<Entry>, x: Entry): seq<Entry>
  {
    if s == [] then [x]
    else if InOrder(d, s[|s| - 1].key, x.key) then s + [x]
    else InsertSorted(d, s[..|s| - 1], x) + [s[|s| - 1]]
  }

  /** `sorted(level.items())` (for grades with `key=sort_grade`): a stable insertion sort. */
  function SortLevel(d: nat, es: seq<Entry>): seq<Entry>
  {
    if es == [] then [] else InsertSorted(d, SortLevel(d, es[..|es| - 1]), es[|es| - 1])
  }

  predicate Sorted(d: nat, s: seq<Entry>)
  {
    forall i :: 0 <= i < |s| - 1 ==> InOrder(d, s[i].key, s[i + 1].key)
  }

  /** Insertion keeps a level sorted; the new last entry is `x` or the old last one. */
  lemma {:induction false} InsertSortedSorted(d: nat, s: seq<Entry>, x: Entry)
    requires Sorted(d, s)
    ensures var r := InsertSorted(d, s, x);
            Sorted(d, r) && r != [] && (r[|r| - 1] == x || (s != [] && r[|r| - 1] == s[|s| - 1]))
    decreases |s|
  {
    var r := InsertSorted(d, s, x);
    if s != [] && !InOrder(d, s[|s| - 1].key, x.key) {
      var init := s[..|s| - 1];
      var last := s[|s| - 1];
      InsertSortedSorted(d, init, x);
      var r' := InsertSorted(d, init, x);
      assert r == r' + [last];
      InOrderTotal(d, last.key, x.key);
      assert InOrder(d, r'[|r'| - 1].key, last.key) by {
        if r'[|r'| - 1] != x {
          assert r'[|r'| - 1] == s[|s| - 2];
        }
      }
      forall i | 0 <= i < |r| - 1 ensures InOrder(d, r[i].key, r[i + 1].key) {
        if i < |r| - 2 {
          assert r[i] == r'[i] && r[i + 1] == r'[i + 1];
        }
      }
    }
  }

  /** Inserting `x` into `s` adds exactly `x` and its books. */
  predicate InsertKeeps(d: nat, s: seq<Entry>, x: Entry)
  {
    var r := InsertSorted(d, s, x);
    multiset(r) == multiset(s) + multiset{x} && EntriesCount(r) == EntriesCount(s) + BookCount(x.sub)
  }

  /** Insertion adds exactly the inserted entry and its books. */
  lemma {:induction false} InsertSortedContents(d: nat, s: seq<Entry>, x: Entry)
    ensures InsertKeeps(d, s, x)
    decreases |s|
  {
    if s == [] {
      EntriesCountCons(x, []);
    } else if InOrder(d, s[|s| - 1].key, x.key) {
      EntriesCountAppend(s, [x]);
      EntriesCountCons(x, []);
    } else {
      InsertSortedContents(d, s[..|s| - 1], x);
      InsertKeepsStep(d, s, x);
    }
  }

  /** Insertion before the last entry, from insertion into the others. */
  lemma InsertKeepsStep(d: nat, s: seq<Entry>, x: Entry)
    requires s != [] && !InOrder(d, s[|s| - 1].key, x.key)
    requires InsertKeeps(d, s[..|s| - 1], x)
    ensures InsertKeeps(d, s, x)
  {
    var init := s[..|s| - 1];
    var last := s[|s| - 1];
    var r' := InsertSorted(d, init, x);
    var r := InsertSorted(d, s, x);
    assert r == r' + [last];
    assert r[..|r| - 1] == r';
    assert s == init + [last];
  }

  /** Sorting a level puts its entries in order. */
  lemma {:induction false} SortLevelSorted(d: nat, es: seq<Entry>)
    ensures Sorted(d, SortLevel(d, es))
    decreases |es|
  {
    if es != [] {
      SortLevelSorted(d, es[..|es| - 1]);
      InsertSortedSorted(d, SortLevel(d, es[..|es| - 1]), es[|es| - 1]);
    }
  }

  /** Sorting level `d` permutes `es` and keeps its book count. */
  predicate SortKeeps(d: nat, es: seq<Entry>)
  {
    var r := SortLevel(d, es);
    multiset(r) == multiset(es) && |r| == |es| && EntriesCount(r) == EntriesCount(es)
  }

  /** Sorting a level permutes its entries and keeps its book count. */
  lemma {:induction false} SortLevelContents(d: nat, es: seq<Entry>)
    ensures SortKeeps(d, es)
    decreases |es|
  {
    if es != [] {
      var init := es[..|es| - 1];
      SortLevelContents(d, init);
      InsertSortedContents(d, SortLevel(d, init), es[|es| - 1]);
      SortKeepsStep(d, es);
    }
  }

  lemma SortKeepsStep(d: nat, es: seq<Entry>)
    requires es != [] && SortKeeps(d, es[..|es| - 1])
    requires InsertKeeps(d, SortLevel(d, es[..|es| - 1]), es[|es| - 1])
    ensures SortKeeps(d, es)
  {
    var init := es[..|es| - 1];
    var last := es[|es| - 1];
    var sorted := SortLevel(d, init);
    assert SortLevel(d, es) == InsertSorted(d, sorted, last);
    SameContents(es, init, last, sorted, InsertSorted(d, sorted, last));
  }

  /** Inserting the last entry into a permutation of the others gives a permutation of all. */
  lemma SameContents(es: seq<Entry>, init: seq<Entry>, last: Entry, sorted: seq<Entry>, r: seq<Entry>)
    requires es == init + [last]
    requires multiset(sorted) == multiset(init) && EntriesCount(sorted) == EntriesCount(init)
    requires multiset(r) == multiset(sorted) + multiset{last} && EntriesCount(r) == EntriesCount(sorted) + BookCount(last.sub)
    ensures multiset(r) == multiset(es) && |r| == |es| && EntriesCount(r) == EntriesCount(es)
  {
    EntriesCountAppend(init, [last]);
    EntriesCountCons(last, []);
    assert multiset(es) == multiset(init) + multiset{last};
    assert |r| == |multiset(r)| == |multiset(es)| == |es|;
  }

  /** Appending an entry adds its key; the keys stay distinct when it is new. */
  lemma KeysSnoc(s: seq<Entry>, e: Entry)
    ensures KeySet(s + [e]) == KeySet(s) + {e.key}
    ensures DistinctKeys(s + [e]) <==> DistinctKeys(s) && e.key !in KeySet(s)
  {
    var t := s + [e];
    forall x | x in KeySet(t) ensures x in KeySet(s) + {e.key} {
      var i :| 0 <= i < |t| && t[i].key == x;
      if i < |s| {
        assert s[i].key == x;
      }
    }
    assert t[|s|].key == e.key;
    forall x | x in KeySet(s) ensures x in KeySet(t) {
      var i :| 0 <= i < |s| && s[i].key == x;
      assert t[i].key == x;
    }
    if DistinctKeys(t) {
      forall i, j | 0 <= i < j < |s| ensures s[i].key != s[j].key {
        assert t[i] == s[i] && t[j] == s[j];
      }
      forall i | 0 <= i < |s| ensures s[i].key != e.key {
        assert t[i] == s[i] && t[|s|] == e;
      }
    }
  }

  /** Inserting an entry with a new key into a level with distinct keys keeps them distinct. */
  lemma {:induction false} InsertSortedKeys(d: nat, s: seq<Entry>, x: Entry)
    requires DistinctKeys(s) && x.key !in KeySet(s)
    ensures var r := InsertSorted(d, s, x);
            DistinctKeys(r) && KeySet(r) == KeySet(s) + {x.key}
    decreases |s|
  {
    if s == [] {
      KeysSnoc([], x);
      assert [] + [x] == [x];
    } else if InOrder(d, s[|s| - 1].key, x.key) {
      KeysSnoc(s, x);
    } else {
      var init := s[..|s| - 1];
      var last := s[|s| - 1];
      assert s == init + [last];
      KeysSnoc(init, last);
      InsertSortedKeys(d, init, x);
      KeysSnoc(InsertSorted(d, init, x), last);
    }
  }

  /** A sorted level has the same keys as the level, still distinct. */
  lemma {:induction false} SortLevelKeys(d: nat, es: seq<Entry>)
    requires DistinctKeys(es)
    ensures DistinctKeys(SortLevel(d, es)) && KeySet(SortLevel(d, es)) == KeySet(es)
    decreases |es|
  {
    if es != [] {
      var init := es[..|es| - 1];
      var last := es[|es| - 1];
      assert es == init + [last];
      KeysSnoc(init, last);
      SortLevelKeys(d, init);
      InsertSortedKeys(d, SortLevel(d, init), last);
    }
  }

  /** The entries of `s` whose key has `sort_grade` rank `k`, in their order in `s`. */
  function WithRank(s: seq<Entry>, k: int): seq<Entry>
  {
    if s == [] then []
    else WithRank(s[..|s| - 1], k) + (if SortGrade(s[|s| - 1].key) == k then [s[|s| - 1]] else [])
  }

  /** Inserting a grade places it after every grade of the same rank. */
  lemma {:induction false} InsertSortedStable(s: seq<Entry>, x: Entry, k: int)
    ensures WithRank(InsertSorted(GradeLevel, s, x), k) == WithRank(s, k) + (if SortGrade(x.key) == k then [x] else [])
    decreases |s|
  {
    var r := InsertSorted(GradeLevel, s, x);
    if s == [] {
      assert r == [x] && r[..0] == [];
    } else if InOrder(GradeLevel, s[|s| - 1].key, x.key) {
      assert r == s + [x] && r[..|r| - 1] == s;
    } else {
      InsertSortedStable(s[..|s| - 1], x, k);
      InsertBeforeStable(s, x, k);
    }
  }

  /** The step of `InsertSortedStable` where `x` goes before the last grade, which ranks higher. */
  lemma InsertBeforeStable(s: seq<Entry>, x: Entry, k: int)
    requires s != [] && SortGrade(s[|s| - 1].key) > SortGrade(x.key)
    requires WithRank(InsertSorted(GradeLevel, s[..|s| - 1], x), k)
             == WithRank(s[..|s| - 1], k) + (if SortGrade(x.key) == k then [x] else [])
    ensures WithRank(InsertSorted(GradeLevel, s[..|s| - 1], x) + [s[|s| - 1]], k)
            == WithRank(s, k) + (if SortGrade(x.key) == k then [x] else [])
  {
    var init := s[..|s| - 1];
    var last := s[|s| - 1];
    var r' := InsertSorted(GradeLevel, init, x);
    var r := r' + [last];
    var xs := if SortGrade(x.key) == k then [x] else [];
    var ls := if SortGrade(last.key) == k then [last] else [];
    assert r[..|r| - 1] == r';
    assert WithRank(r, k) == WithRank(init, k) + xs + ls;
    assert WithRank(s, k) == WithRank(init, k) + ls;
    assert xs == [] || ls == [];
  }

  /** Sorting the grades is stable: grades of equal `sort_grade` rank keep their order. */
  lemma {:induction false} SortLevelStable(es: seq<Entry>, k: int)
    ensures WithRank(SortLevel(GradeLevel, es), k) == WithRank(es, k)
    decreases |es|
  {
    if es != [] {
      var init := es[..|es| - 1];
      SortLevelStable(init, k);
      InsertSortedStable(SortLevel(GradeLevel, init), es[|es| - 1], k);
    }
  }

  /** An entry of the written tree: a book's id, title and publisher. */
  datatype BookRef = BookRef(id: string, title: string, publisher: string)

  /** A node of `catalog_tree.json`; only semester nodes carry books, the others carry children. */
  datatype TreeNode = TreeNode(name: string, kind: string, children: seq<TreeNode>, count: nat, books: seq<BookRef>)

  const Kinds: seq<string> := ["stage", "subject", "version", "grade", "semester"]

  function RefsOf(bs: seq<Book>): (r: seq<BookRef>)
    ensures |r| == |bs|
  {
    seq(|bs|, i requires 0 <= i < |bs| => BookRef(bs[i].id, bs[i].title, bs[i].publisher))
  }

  /** The total of the counts of some nodes. */
  function SumCounts(ns: seq<TreeNode>): nat
  {
    if ns == [] then 0 else SumCounts(ns[..|ns| - 1]) + ns[|ns| - 1].count
  }

  /** The node written for entry `e` of level `d`: a semester counts its books; any other level sums its children. */
  function NodeOf(d: nat, e: Entry): TreeNode
    requires d < Depth
    decreases Depth - d, 0
  {
    if d == Depth - 1 then
      TreeNode(e.key, Kinds[d], [], |LeafBooks(e.sub)|, RefsOf(LeafBooks(e.sub)))
    else
      var cs := NodesOf(d + 1, EntriesOf(e.sub));
      TreeNode(e.key, Kinds[d], cs, SumCounts(cs), [])
  }

  /** The nodes of a level, in sorted order. */
  function NodesOf(d: nat, es: seq<Entry>): (r: seq<TreeNode>)
    requires d < Depth
    decreases Depth - d, 2
  {
    var s := SortLevel(d, es);
    Row(d, s, |s|)
  }

  /** The nodes of the first `n` entries of `s`. */
  function Row(d: nat, s: seq<Entry>, n: nat): (r: seq<TreeNode>)
    requires d < Depth && n <= |s|
    ensures |r| == n
    decreases Depth - d, 1, n
  {
    if n == 0 then [] else Row(d, s, n - 1) + [NodeOf(d, s[n - 1])]
  }

  /** Every node's count is its number of books (semesters) or the sum of its children's counts. */
  predicate Consistent(n: TreeNode, d: nat)
    decreases n
  {
    if d >= Depth - 1 then n.children == [] && n.count == |n.books|
    else n.books == [] && n.count == SumCounts(n.children)
         && forall i :: 0 <= i < |n.children| ==> Consistent(n.children[i], d + 1)
  }

  /** The node of entry `e` at level `d` is named by its key, has its level's kind, is consistent and counts its books. */
  predicate NodeGood(d: nat, e: Entry)
    requires d < Depth
  {
    var n := NodeOf(d, e);
    n.name == e.key && n.kind == Kinds[d] && Consistent(n, d) && n.count == BookCount(e.sub)
  }

  /** The nodes of a level count the books of all its entries, and each is consistent. */
  predicate NodesGood(d: nat, es: seq<Entry>)
    requires d < Depth
  {
    var ns := NodesOf(d, es);
    SumCounts(ns) == EntriesCount(es) && forall i :: 0 <= i < |ns| ==> Consistent(ns[i], d)
  }

  lemma {:induction false} NodeOfProperties(d: nat, e: Entry)
    requires d < Depth && Shape(e.sub, Depth - 1 - d)
    ensures NodeGood(d, e)
    decreases Depth - d, 0
  {
    if d == Depth - 1 {
      assert BookCount(e.sub) == |LeafBooks(e.sub)|;
    } else {
      var es := EntriesOf(e.sub);
      assert e.sub.Node? && es == e.sub.entries;
      assert forall i :: 0 <= i < |es| ==> Shape(es[i].sub, Depth - 1 - (d + 1));
      NodesOfProperties(d + 1, es);
      NodeStep(d, e);
    }
  }

  /** An inner node is good when the nodes of its children are. */
  lemma NodeStep(d: nat, e: Entry)
    requires d < Depth - 1 && e.sub.Node? && NodesGood(d + 1, e.sub.entries)
    ensures NodeGood(d, e)
  {
    var es := e.sub.entries;
    var cs := NodesOf(d + 1, es);
    var n := NodeOf(d, e);
    assert n == TreeNode(e.key, Kinds[d], cs, SumCounts(cs), []);
    assert BookCount(e.sub) == EntriesCount(es);
  }

  lemma {:induction false} NodesOfProperties(d: nat, es: seq<Entry>)
    requires d < Depth && forall i :: 0 <= i < |es| ==> Shape(es[i].sub, Depth - 1 - d)
    ensures NodesGood(d, es)
    decreases Depth - d, 1
  {
    var s := SortLevel(d, es);
    SortLevelContents(d, es);
    forall i | 0 <= i < |s| ensures NodeGood(d, s[i]) {
      assert s[i] in multiset(es);
      NodeOfProperties(d, s[i]);
    }
    RowAt(d, s, |s|);
    NodesStep(d, es);
  }

  /** A level's nodes are good when the node of each of its entries is. */
  lemma NodesStep(d: nat, es: seq<Entry>)
    requires d < Depth && SortKeeps(d, es)
    requires RowHolds(d, SortLevel(d, es), |SortLevel(d, es)|)
    requires forall i :: 0 <= i < |SortLevel(d, es)| ==> NodeGood(d, SortLevel(d, es)[i])
    ensures NodesGood(d, es)
  {
    var s := SortLevel(d, es);
    var ns := Row(d, s, |s|);
    assert NodesOf(d, es) == ns;
    SumNodeCounts(ns, s);
  }

  /** The first `n` nodes of row `d` of `s` are the nodes of the first `n` entries. */
  predicate RowHolds(d: nat, s: seq<Entry>, n: nat)
    requires d < Depth && n <= |s|
  {
    forall i :: 0 <= i < n ==> Row(d, s, n)[i] == NodeOf(d, s[i])
  }

  /** The row holds the node of each entry, in order. */
  lemma {:induction false} RowAt(d: nat, s: seq<Entry>, n: nat)
    requires d < Depth && n <= |s|
    ensures RowHolds(d, s, n)
    decreases n
  {
    if n > 0 {
      RowAt(d, s, n - 1);
      RowStep(d, s, n);
    }
  }

  lemma RowStep(d: nat, s: seq<Entry>, n: nat)
    requires d < Depth && 0 < n <= |s| && RowHolds(d, s, n - 1)
    ensures RowHolds(d, s, n)
  {
    var r0 := Row(d, s, n - 1);
    var x := NodeOf(d, s[n - 1]);
    assert Row(d, s, n) == r0 + [x];
  }

  /** Nodes counting the books of their entries, one by one, add up to the books of all the entries. */
  lemma {:induction false} SumNodeCounts(ns: seq<TreeNode>, es: seq<Entry>)
    requires |ns| == |es| && forall i :: 0 <= i < |es| ==> ns[i].count == BookCount(es[i].sub)
    ensures SumCounts(ns) == EntriesCount(es)
    decreases |es|
  {
    if es != [] {
      var k := |es| - 1;
      SumNodeCounts(ns[..k], es[..k]);
    }
  }

  /** The written tree: its stage nodes, each node counted consistently, the counts adding up to the number of books. */
  lemma TreeCounts(books: seq<Book>)
    ensures var ns := NodesOf(0, EntriesOf(TreeOf(books)));
            SumCounts(ns) == |books| && forall i :: 0 <= i < |ns| ==> Consistent(ns[i], 0)
  {
    TreeOfCount(books);
    NodesOfProperties(0, EntriesOf(TreeOf(books)));
  }
}
