/**
 * How many books of the catalog tree sit under each subject: the
 * second-level keys of the tree, summed over the stages, count the books
 * whose subject key they are.
 */
module SubjectTally {
  import opened Counting
  import opened Sequences
  import opened CatalogTree

  /** The total of `f` over some entries. */
  function SumBy(es: seq<Entry>, f: Entry -> nat): nat
  {
    if es == [] then 0 else SumBy(es[..|es| - 1], f) + f(es[|es| - 1])
  }

  lemma {:induction false} SumByAppend(a: seq<Entry>, b: seq<Entry>, f: Entry -> nat)
    ensures SumBy(a + b, f) == SumBy(a, f) + SumBy(b, f)
    decreases |b|
  {
    if b == [] {
      assert a + b == a;
    } else {
      assert (a + b)[..|a + b| - 1] == a + b[..|b| - 1];
      SumByAppend(a, b[..|b| - 1], f);
    }
  }

  lemma SumByCons(e: Entry, es: seq<Entry>, f: Entry -> nat)
    ensures SumBy([e] + es, f) == f(e) + SumBy(es, f)
  {
    SumByAppend([e], es, f);
    assert [e][..0] == [];
  }

  /** Inserting an entry into a sorted level adds its value to the total. */
  lemma {:induction false} InsertSortedSumBy(d: nat, s: seq<Entry>, x: Entry, f: Entry -> nat)
    ensures SumBy(InsertSorted(d, s, x), f) == SumBy(s, f) + f(x)
    decreases |s|
  {
    if s == [] {
      assert [x][..0] == [];
    } else if InOrder(d, s[|s| - 1].key, x.key) {
      assert (s + [x])[..|s|] == s;
    } else {
      var init := s[..|s| - 1];
      InsertSortedSumBy(d, init, x, f);
      var r' := InsertSorted(d, init, x);
      assert (r' + [s[|s| - 1]])[..|r'|] == r';
    }
  }

  /** Sorting a level does not change any total over its entries. */
  lemma {:induction false} SortLevelSumBy(d: nat, es: seq<Entry>, f: Entry -> nat)
    ensures SumBy(SortLevel(d, es), f) == SumBy(es, f)
    decreases |es|
  {
    if es != [] {
      SortLevelSumBy(d, es[..|es| - 1], f);
      InsertSortedSumBy(d, SortLevel(d, es[..|es| - 1]), es[|es| - 1], f);
    }
  }

  /** The books of an entry keyed `s`; none for an entry with another key. */
  function KeyedBooks(s: string): Entry -> nat
  {
    (e: Entry) => if e.key == s then BookCount(e.sub) else 0
  }

  /** The books of a stage entry that are filed under the subject `s`. */
  function SubjectBooks(s: string): Entry -> nat
  {
    (e: Entry) => SumBy(EntriesOf(e.sub), KeyedBooks(s))
  }

  /** The subject key of a book: its subject, or the placeholder of an empty one. */
  function BookSubject(b: Book): string
  {
    TreeKeys(b.catalog)[1]
  }

  /** Filing one more book below a level adds it to the entry of its key and to no other. */
  lemma {:induction false} UpsertKeyed(es: seq<Entry>, k: string, rest: seq<string>, b: Book, s: string)
    requires forall i :: 0 <= i < |es| ==> Shape(es[i].sub, |rest|)
    ensures SumBy(Upsert(es, k, rest, b), KeyedBooks(s)) == SumBy(es, KeyedBooks(s)) + (if k == s then 1 else 0)
    decreases |es|
  {
    var f := KeyedBooks(s);
    var r := Upsert(es, k, rest, b);
    if es == [] {
      InsertCount(EmptyTrie, rest, b);
      SumByCons(r[0], [], f);
      assert r == [r[0]] + [];
    } else {
      var tail := es[1..];
      assert es == [es[0]] + tail;
      SumByCons(es[0], tail, f);
      if es[0].key == k {
        InsertCount(es[0].sub, rest, b);
        SumByCons(r[0], tail, f);
        assert r == [r[0]] + tail;
      } else {
        UpsertKeyed(tail, k, rest, b, s);
        SumByCons(es[0], Upsert(tail, k, rest, b), f);
      }
    }
  }

  /** Filing one more book below a stage adds it under its subject. */
  lemma InsertSubject(t: Trie, rest: seq<string>, b: Book, s: string)
    requires rest != [] && Shape(t, |rest|)
    ensures SumBy(EntriesOf(Insert(t, rest, b)), KeyedBooks(s)) == SumBy(EntriesOf(t), KeyedBooks(s)) + (if rest[0] == s then 1 else 0)
  {
    UpsertKeyed(EntriesOf(t), rest[0], rest[1..], b, s);
  }

  /** Filing one more book below the stage level adds it under its subject. */
  lemma {:induction false} UpsertSubject(es: seq<Entry>, k: string, rest: seq<string>, b: Book, s: string)
    requires rest != [] && forall i :: 0 <= i < |es| ==> Shape(es[i].sub, |rest|)
    ensures SumBy(Upsert(es, k, rest, b), SubjectBooks(s)) == SumBy(es, SubjectBooks(s)) + (if rest[0] == s then 1 else 0)
    decreases |es|
  {
    var g := SubjectBooks(s);
    var r := Upsert(es, k, rest, b);
    if es == [] {
      InsertSubject(EmptyTrie, rest, b, s);
      SumByCons(r[0], [], g);
      assert r == [r[0]] + [];
    } else {
      var tail := es[1..];
      assert es == [es[0]] + tail;
      SumByCons(es[0], tail, g);
      if es[0].key == k {
        InsertSubject(es[0].sub, rest, b, s);
        SumByCons(r[0], tail, g);
        assert r == [r[0]] + tail;
      } else {
        UpsertSubject(tail, k, rest, b, s);
        SumByCons(es[0], Upsert(tail, k, rest, b), g);
      }
    }
  }

  /** Over all stages of the tree, the entries of subject `s` hold as many books as have that subject key. */
  lemma {:induction false} TreeSubjects(books: seq<Book>, s: string)
    ensures SumBy(EntriesOf(TreeOf(books)), SubjectBooks(s)) == Get(Tally(Map(books, BookSubject)), s)
    decreases |books|
  {
    if books != [] {
      var n := |books| - 1;
      var init := books[..n];
      var b := books[n];
      TreeSubjects(init, s);
      assert TreeOf(books) == Insert(TreeOf(init), TreeKeys(b.catalog), b);
      TreeOfCount(init);
      InsertBookSubject(TreeOf(init), b, s);
      assert Map(books, BookSubject) == Map(init, BookSubject) + [BookSubject(b)] by {
        MapPrefixStep(books, n, BookSubject);
        assert books[..n + 1] == books;
      }
      TallySnoc(Map(init, BookSubject), BookSubject(b));
    }
  }

  /** Filing one more book in the tree adds it under its subject and under no other. */
  lemma InsertBookSubject(t: Trie, b: Book, s: string)
    requires Shape(t, Depth)
    ensures SumBy(EntriesOf(Insert(t, TreeKeys(b.catalog), b)), SubjectBooks(s))
            == SumBy(EntriesOf(t), SubjectBooks(s)) + (if BookSubject(b) == s then 1 else 0)
  {
    var keys := TreeKeys(b.catalog);
    UpsertSubject(EntriesOf(t), keys[0], keys[1..], b, s);
  }
}
