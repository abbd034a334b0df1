/**
 * Text helpers with the semantics of the Python string operations the
 * catalog, task and download tools rely on: `in`, `str.replace`,
 * `str.strip`, `str.split`, `str.join`, `str.lower`, the regular
 * expression substitutions `re.sub(r'X+', c, s)` and decimal formatting.
 * Strings are sequences of Unicode code points.
 */
module Strings {

  /** Concatenation is associative. */
  lemma AppendAssoc<T>(x: seq<T>, y: seq<T>, z: seq<T>)
    ensures x + (y + z) == (x + y) + z
  {
  }

  /** Python's `sub in s`, for any element type (also used on byte strings). */
  predicate Contains<T(==)>(s: seq<T>, sub: seq<T>)
    decreases |s|
  {
    (|sub| <= |s| && s[..|sub|] == sub) || (|s| > 0 && Contains(s[1..], sub))
  }

  /** `sub` occurs in `s` starting at index `i`. */
  predicate OccursAt<T(==)>(s: seq<T>, sub: seq<T>, i: int)
  {
    0 <= i && i + |sub| <= |s| && s[i..i + |sub|] == sub
  }

  /** `Contains` holds exactly when the pattern occurs at some index. */
  lemma {:induction false} ContainsIff<T>(s: seq<T>, sub: seq<T>)
    ensures Contains(s, sub) <==> exists i :: OccursAt(s, sub, i)
    decreases |s|
  {
    if |sub| <= |s| && s[..|sub|] == sub {
      assert OccursAt(s, sub, 0);
    } else if |s| > 0 {
      ContainsIff(s[1..], sub);
      forall i | OccursAt(s[1..], sub, i) ensures OccursAt(s, sub, i + 1) {
        OccursAtTail(s, sub, i);
      }
      forall i | OccursAt(s, sub, i) ensures OccursAt(s[1..], sub, i - 1) {
        OccursAtTail(s, sub, i - 1);
      }
    }
  }

  /** Occurrences in the tail of `s` are the occurrences in `s` shifted by one. */
  lemma OccursAtTail<T>(s: seq<T>, sub: seq<T>, j: int)
    requires |s| > 0 && j >= 0
    ensures OccursAt(s[1..], sub, j) <==> OccursAt(s, sub, j + 1)
  {
    if 0 <= j && j + |sub| <= |s| - 1 {
      assert s[1..][j..j + |sub|] == s[j + 1..j + 1 + |sub|];
    }
  }

  /** A pattern longer than the text does not occur in it. */
  lemma ContainsTooLong<T>(s: seq<T>, sub: seq<T>)
    requires |s| < |sub|
    ensures !Contains(s, sub)
  {
    ContainsIff(s, sub);
  }

  /** A pattern whose first element is not in the text does not occur in it. */
  lemma ContainsNeedsFirst<T>(s: seq<T>, sub: seq<T>)
    requires sub != [] && sub[0] !in s
    ensures !Contains(s, sub)
  {
    ContainsIff(s, sub);
    forall i ensures !OccursAt(s, sub, i) {
      if 0 <= i && i + |sub| <= |s| {
        assert s[i..i + |sub|][0] == s[i];
      }
    }
  }

  /** An occurrence at some index makes the text contain the pattern. */
  lemma ContainsAt<T>(s: seq<T>, sub: seq<T>, i: int)
    requires OccursAt(s, sub, i)
    ensures Contains(s, sub)
  {
    ContainsIff(s, sub);
  }

  /** A window of a window is a window. */
  lemma SliceOfSlice<T>(s: seq<T>, lo: int, hi: int, a: int, b: int)
    requires 0 <= lo <= hi <= |s| && 0 <= a <= b <= hi - lo
    ensures s[lo..hi][a..b] == s[lo + a..lo + b]
  {
    var t := s[lo..hi];
    forall k | 0 <= k < b - a ensures t[a..b][k] == s[lo + a..lo + b][k] {
      assert t[a..b][k] == t[a + k];
      assert t[a + k] == s[lo + a + k];
    }
  }

  /** An occurrence inside a window of `s` is an occurrence in `s`. */
  lemma ContainsSlice<T>(s: seq<T>, lo: int, hi: int, sub: seq<T>)
    requires 0 <= lo <= hi <= |s|
    requires Contains(s[lo..hi], sub)
    ensures Contains(s, sub)
  {
    ContainsIff(s[lo..hi], sub);
    var w := s[lo..hi];
    var i :| OccursAt(w, sub, i);
    SliceOfSlice(s, lo, hi, i, i + |sub|);
    assert OccursAt(s, sub, lo + i);
    ContainsIff(s, sub);
  }

  /**
   * Python's `s.replace(pat, rep)`: occurrences are found left to right
   * and do not overlap; an empty pattern inserts `rep` around every element.
   */
  function Replace<T(==)>(s: seq<T>, pat: seq<T>, rep: seq<T>): seq<T>
    decreases |s|
  {
    if pat == [] then
      (if s == [] then rep else rep + [s[0]] + Replace(s[1..], pat, rep))
    else if |s| < |pat| then s
    else if s[..|pat|] == pat then rep + Replace(s[|pat|..], pat, rep)
    else [s[0]] + Replace(s[1..], pat, rep)
  }

  /** Without an occurrence of a non-empty pattern, replacing changes nothing. */
  lemma {:induction false} ReplaceAbsent<T>(s: seq<T>, pat: seq<T>, rep: seq<T>)
    requires pat != [] && !Contains(s, pat)
    ensures Replace(s, pat, rep) == s
    decreases |s|
  {
    if |s| >= |pat| {
      ReplaceAbsent(s[1..], pat, rep);
      assert [s[0]] + s[1..] == s;
    }
  }

  /** Replacing in `s` keeps the text before `i` and turns the occurrence at `i` into `rep`. */
  predicate SplitsAt<T(==)>(s: seq<T>, pat: seq<T>, rep: seq<T>, i: nat)
    requires i + |pat| <= |s|
  {
    Replace(s, pat, rep) == s[..i] + rep + Replace(s[i + |pat|..], pat, rep)
  }

  /**
   * When the leftmost occurrence of a non-empty pattern starts at `i`,
   * the text before `i` is kept and that occurrence becomes `rep`.
   */
  lemma ReplaceAtLeftmost<T>(s: seq<T>, pat: seq<T>, rep: seq<T>, i: nat)
    requires pat != [] && OccursAt(s, pat, i)
    requires forall j :: 0 <= j < i ==> !OccursAt(s, pat, j)
    ensures Replace(s, pat, rep) == s[..i] + rep + Replace(s[i + |pat|..], pat, rep)
  {
    LeftmostSplits(s, pat, rep, i);
  }

  lemma {:induction false} LeftmostSplits<T>(s: seq<T>, pat: seq<T>, rep: seq<T>, i: nat)
    requires pat != [] && OccursAt(s, pat, i)
    requires forall j :: 0 <= j < i ==> !OccursAt(s, pat, j)
    ensures SplitsAt(s, pat, rep, i)
    decreases i
  {
    if i == 0 {
      assert s[..|pat|] == pat;
    } else {
      LeftmostInTail(s, pat, i);
      LeftmostSplits(s[1..], pat, rep, i - 1);
      SplitsAtStep(s, pat, rep, i);
    }
  }

  /** The leftmost occurrence in `s`, if not at the front, is the leftmost one of its tail. */
  lemma LeftmostInTail<T>(s: seq<T>, pat: seq<T>, i: nat)
    requires 1 <= i && OccursAt(s, pat, i)
    requires forall j :: 0 <= j < i ==> !OccursAt(s, pat, j)
    ensures !OccursAt(s, pat, 0) && OccursAt(s[1..], pat, i - 1)
    ensures forall j :: 0 <= j < i - 1 ==> !OccursAt(s[1..], pat, j)
  {
    OccursAtTail(s, pat, i - 1);
    forall j | 0 <= j < i - 1 ensures !OccursAt(s[1..], pat, j) {
      OccursAtTail(s, pat, j);
    }
  }

  /** A split of the tail, with the first element copied in front, is a split of `s`. */
  lemma SplitsAtStep<T>(s: seq<T>, pat: seq<T>, rep: seq<T>, i: nat)
    requires pat != [] && 1 <= i && i + |pat| <= |s| && !OccursAt(s, pat, 0)
    requires SplitsAt(s[1..], pat, rep, i - 1)
    ensures SplitsAt(s, pat, rep, i)
  {
    var t := s[1..];
    ReplaceStep(s, pat, rep);
    ReplaceSameTail(s, i, |pat|, pat, rep);
    var x := Replace(s, pat, rep);
    var y := Replace(t, pat, rep);
    var r0 := Replace(t[i - 1 + |pat|..], pat, rep);
    var r := Replace(s[i + |pat|..], pat, rep);
    ConsPrefix(s, i, rep, x, y, r0, r);
  }

  /** The text after an occurrence is the same seen from `s` and from its tail. */
  lemma ReplaceSameTail<T>(s: seq<T>, i: nat, k: nat, pat: seq<T>, rep: seq<T>)
    requires 1 <= i && i + k <= |s|
    ensures Replace(s[1..][i - 1 + k..], pat, rep) == Replace(s[i + k..], pat, rep)
  {
    assert s[1..][i - 1 + k..] == s[i + k..];
  }

  /** Putting the first element back in front of a split of the tail splits `s`. */
  lemma ConsPrefix<T>(s: seq<T>, i: nat, m: seq<T>, x: seq<T>, y: seq<T>, r0: seq<T>, r: seq<T>)
    requires 1 <= i <= |s|
    requires x == [s[0]] + y
    requires y == s[1..][..i - 1] + m + r0 && r0 == r
    ensures x == s[..i] + m + r
  {
    var p := s[1..][..i - 1];
    AppendAssoc([s[0]], p + m, r);
    AppendAssoc([s[0]], p, m);
    assert [s[0]] + p == s[..i];
  }

  /** Where the pattern does not start, the first element is copied. */
  lemma ReplaceStep<T>(s: seq<T>, pat: seq<T>, rep: seq<T>)
    requires pat != [] && |s| >= |pat| && !OccursAt(s, pat, 0)
    ensures Replace(s, pat, rep) == [s[0]] + Replace(s[1..], pat, rep)
  {
  }

  /** `Replace` of one element by another, element by element (`s.replace(c, d)`). */
  function ReplaceChar(s: string, c: char, d: char): (r: string)
    ensures |r| == |s|
    ensures forall i :: 0 <= i < |s| ==> r[i] == if s[i] == c then d else s[i]
  {
    if s == [] then [] else [if s[0] == c then d else s[0]] + ReplaceChar(s[1..], c, d)
  }

  /** The whitespace characters of Python's `str.isspace` (and of `\s` in `re`). */
  const Whitespace: set<char> := {
    '\t', '\n', '\U{000B}', '\U{000C}', '\r', '\U{001C}', '\U{001D}', '\U{001E}', '\U{001F}',
    ' ', '\U{0085}', '\U{00A0}', '\U{1680}',
    '\U{2000}', '\U{2001}', '\U{2002}', '\U{2003}', '\U{2004}', '\U{2005}', '\U{2006}',
    '\U{2007}', '\U{2008}', '\U{2009}', '\U{200A}',
    '\U{2028}', '\U{2029}', '\U{202F}', '\U{205F}', '\U{3000}'
  }

  /** Python's `s.lstrip(cs)`. */
  function TrimLeft(s: string, cs: set<char>): (r: string)
    ensures |r| <= |s| && r == s[|s| - |r|..]
    ensures forall i :: 0 <= i < |s| - |r| ==> s[i] in cs
    ensures r == [] || r[0] !in cs
    decreases |s|
  {
    if s != [] && s[0] in cs then TrimLeft(s[1..], cs) else s
  }

  /** Python's `s.rstrip(cs)`. */
  function TrimRight(s: string, cs: set<char>): (r: string)
    ensures |r| <= |s| && r == s[..|r|]
    ensures forall i :: |r| <= i < |s| ==> s[i] in cs
    ensures r == [] || r[|r| - 1] !in cs
    decreases |s|
  {
    if s != [] && s[|s| - 1] in cs then TrimRight(s[..|s| - 1], cs) else s
  }

  /** Python's `s.strip(cs)`; `Strip(s, Whitespace)` is `s.strip()`. */
  function Strip(s: string, cs: set<char>): string
  {
    TrimRight(TrimLeft(s, cs), cs)
  }

  /** The result of `Strip` is a window of the input with no stripped character at either end. */
  lemma StripShape(s: string, cs: set<char>)
    ensures var r := Strip(s, cs);
      r == [] || (r[0] !in cs && r[|r| - 1] !in cs)
    ensures exists lo, hi :: 0 <= lo <= hi <= |s| && Strip(s, cs) == s[lo..hi]
  {
    var l := TrimLeft(s, cs);
    var r := TrimRight(l, cs);
    var lo := |s| - |l|;
    assert r == s[lo..lo + |r|];
  }

  /** Left-trimming stops at the first character that is not stripped. */
  lemma {:induction false} TrimLeftPadded(w: string, x: string, cs: set<char>)
    requires forall i :: 0 <= i < |w| ==> w[i] in cs
    requires x != [] && x[0] !in cs
    ensures TrimLeft(w + x, cs) == x
    decreases |w|
  {
    if w == [] {
      assert w + x == x;
    } else {
      assert (w + x)[0] == w[0];
      assert (w + x)[1..] == w[1..] + x;
      TrimLeftPadded(w[1..], x, cs);
    }
  }

  /** Right-trimming stops at the last character that is not stripped. */
  lemma {:induction false} TrimRightPadded(x: string, w: string, cs: set<char>)
    requires forall i :: 0 <= i < |w| ==> w[i] in cs
    requires x != [] && x[|x| - 1] !in cs
    ensures TrimRight(x + w, cs) == x
    decreases |w|
  {
    if w == [] {
      assert x + w == x;
    } else {
      var s := x + w;
      assert s[|s| - 1] == w[|w| - 1];
      assert s[..|s| - 1] == x + w[..|w| - 1];
      TrimRightPadded(x, w[..|w| - 1], cs);
    }
  }

  /** Stripping padding made of stripped characters gives back a core whose ends are not stripped. */
  lemma StripPadded(w: string, x: string, w': string, cs: set<char>)
    requires forall i :: 0 <= i < |w| ==> w[i] in cs
    requires forall i :: 0 <= i < |w'| ==> w'[i] in cs
    requires x != [] && x[0] !in cs && x[|x| - 1] !in cs
    ensures Strip(w + x + w', cs) == x
  {
    assert w + x + w' == w + (x + w');
    TrimLeftPadded(w, x + w', cs);
    TrimRightPadded(x, w', cs);
  }

  /** Python's `sep.join(parts)`. */
  function Join(sep: string, parts: seq<string>): string
  {
    if |parts| == 0 then ""
    else if |parts| == 1 then parts[0]
    else parts[0] + sep + Join(sep, parts[1..])
  }

  /** Python's `s.split(c)` for a one-character separator. */
  function Split(s: string, c: char): (r: seq<string>)
    ensures |r| >= 1
    decreases |s|
  {
    if s == [] then [""]
    else if s[0] == c then [""] + Split(s[1..], c)
    else var rest := Split(s[1..], c); [[s[0]] + rest[0]] + rest[1..]
  }

  /** Text without the separator is a single field. */
  lemma {:induction false} SplitNoSeparator(s: string, c: char)
    requires c !in s
    ensures Split(s, c) == [s]
    decreases |s|
  {
    if s != [] {
      SplitNoSeparator(s[1..], c);
      assert [s[0]] + s[1..] == s;
    }
  }

  /** The first separator ends the first field. */
  lemma {:induction false} SplitAtSeparator(a: string, c: char, b: string)
    requires c !in a
    ensures Split(a + [c] + b, c) == [a] + Split(b, c)
    decreases |a|
  {
    var s := a + [c] + b;
    if a == [] {
      assert s[1..] == b;
    } else {
      assert s[1..] == a[1..] + [c] + b;
      SplitAtSeparator(a[1..], c, b);
      assert [a[0]] + a[1..] == a;
    }
  }

  /** Splitting at a separator between two strings splits each of them. */
  lemma {:induction false} SplitAppend(a: string, c: char, b: string)
    ensures Split(a + [c] + b, c) == Split(a, c) + Split(b, c)
    decreases |a|
  {
    var s := a + [c] + b;
    if a == [] {
      assert s[1..] == b;
    } else {
      assert s[0] == a[0] && s[1..] == a[1..] + [c] + b;
      SplitAppend(a[1..], c, b);
    }
  }

  /** Python's `s.split(c)` followed by re-joining with `c` gives `s` back. */
  lemma {:induction false} JoinSplit(s: string, c: char)
    ensures Join([c], Split(s, c)) == s
    ensures forall i :: 0 <= i < |Split(s, c)| ==> c !in Split(s, c)[i]
    decreases |s|
  {
    if s != [] {
      JoinSplit(s[1..], c);
      var rest := Split(s[1..], c);
      if s[0] == c {
        assert Split(s, c) == [""] + rest;
        assert s == [c] + s[1..];
      } else {
        var r := Split(s, c);
        assert r == [[s[0]] + rest[0]] + rest[1..];
        if |rest| == 1 {
          assert Join([c], r) == [s[0]] + rest[0];
        } else {
          assert Join([c], rest) == rest[0] + [c] + Join([c], rest[1..]);
          assert r[1..] == rest[1..];
          assert Join([c], r) == ([s[0]] + rest[0]) + [c] + Join([c], rest[1..]);
        }
        assert s == [s[0]] + s[1..];
        forall i | 0 <= i < |r| ensures c !in r[i] {
          if i > 0 { assert r[i] == rest[i]; } else { assert c !in rest[0]; }
        }
      }
    }
  }

  /** ASCII upper case to lower case, as Python's `str.lower` does for ASCII letters. */
  function LowerChar(c: char): char
  {
    if 'A' <= c <= 'Z' then (c as int + 32) as char else c
  }

  /** Python's `s.lower()` (on the ASCII letters; see README). */
  function Lower(s: string): (r: string)
    ensures |r| == |s|
    ensures forall i :: 0 <= i < |s| ==> r[i] == LowerChar(s[i])
  {
    if s == [] then [] else [LowerChar(s[0])] + Lower(s[1..])
  }

  /** `s` with every leading element of `cs` removed. */
  function DropWhileIn(s: string, cs: set<char>): (r: string)
    ensures |r| <= |s| && r == s[|s| - |r|..]
    ensures r == [] || r[0] !in cs
    decreases |s|
  {
    if s != [] && s[0] in cs then DropWhileIn(s[1..], cs) else s
  }

  /** `re.sub('[cs]+', d, s)`: every maximal run of characters of `cs` becomes one `d`. */
  function CollapseRuns(s: string, cs: set<char>, d: char): (r: string)
    ensures r == [] || s != []
    ensures s != [] && s[0] !in cs ==> r != [] && r[0] == s[0]
    ensures s != [] && s[0] in cs ==> r != [] && r[0] == d
    decreases |s|
  {
    if s == [] then []
    else if s[0] in cs then [d] + CollapseRuns(DropWhileIn(s[1..], cs), cs, d)
    else [s[0]] + CollapseRuns(s[1..], cs, d)
  }

  /** No character of `cs` survives `CollapseRuns` unless it is the replacement. */
  lemma {:induction false} CollapseRunsRemoves(s: string, cs: set<char>, d: char, c: char)
    requires c in cs && c != d
    ensures c !in CollapseRuns(s, cs, d)
    decreases |s|
  {
    if s != [] {
      if s[0] in cs {
        CollapseRunsRemoves(DropWhileIn(s[1..], cs), cs, d, c);
      } else {
        CollapseRunsRemoves(s[1..], cs, d, c);
      }
    }
  }

  /** `CollapseRuns` only ever writes characters that were not in `cs`, and `d`. */
  lemma {:induction false} CollapseRunsKeeps(s: string, cs: set<char>, d: char, c: char)
    requires c !in s && c != d
    ensures c !in CollapseRuns(s, cs, d)
    decreases |s|
  {
    if s != [] {
      if s[0] in cs {
        var t := DropWhileIn(s[1..], cs);
        assert forall i :: 0 <= i < |t| ==> t[i] == s[|s| - |t| + i];
        CollapseRunsKeeps(t, cs, d, c);
      } else {
        CollapseRunsKeeps(s[1..], cs, d, c);
      }
    }
  }

  /** No two neighbours of `r` both belong to `cs`. */
  predicate NoAdjacentIn(r: string, cs: set<char>)
  {
    forall i :: 0 <= i < |r| - 1 ==> !(r[i] in cs && r[i + 1] in cs)
  }

  /** After `CollapseRuns` with a replacement from `cs`, no two neighbours are both in `cs`. */
  lemma {:induction false} CollapseRunsNoPair(s: string, cs: set<char>, d: char)
    requires d in cs
    ensures NoAdjacentIn(CollapseRuns(s, cs, d), cs)
    decreases |s|
  {
    if s != [] {
      var r := CollapseRuns(s, cs, d);
      var t := if s[0] in cs then DropWhileIn(s[1..], cs) else s[1..];
      CollapseRunsNoPair(t, cs, d);
      var rt := CollapseRuns(t, cs, d);
      assert r == [r[0]] + rt;
      assert s[0] in cs ==> rt == [] || rt[0] !in cs;
      forall i | 0 <= i < |r| - 1 ensures !(r[i] in cs && r[i + 1] in cs) {
        if i > 0 {
          assert r[i] == rt[i - 1] && r[i + 1] == rt[i];
        } else {
          assert r[1] == rt[0];
        }
      }
    }
  }

  /** A window of a string keeps the absence of two neighbours in `cs`. */
  lemma NoAdjacentInSlice(s: string, cs: set<char>, lo: int, hi: int)
    requires 0 <= lo <= hi <= |s| && NoAdjacentIn(s, cs)
    ensures NoAdjacentIn(s[lo..hi], cs)
  {
    var w := s[lo..hi];
    forall i | 0 <= i < |w| - 1 ensures !(w[i] in cs && w[i + 1] in cs) {
      assert w[i] == s[lo + i] && w[i + 1] == s[lo + i + 1];
    }
  }

  /** Stripping keeps the absence of a character and of two neighbours in `ds`. */
  lemma StripKeeps(s: string, cs: set<char>, ds: set<char>, c: char)
    requires c !in s && NoAdjacentIn(s, ds)
    ensures c !in Strip(s, cs) && NoAdjacentIn(Strip(s, cs), ds)
  {
    StripShape(s, cs);
    var lo, hi :| 0 <= lo <= hi <= |s| && Strip(s, cs) == s[lo..hi];
    NoAdjacentInSlice(s, ds, lo, hi);
    assert forall i :: 0 <= i < hi - lo ==> s[lo..hi][i] == s[lo + i];
  }

  /** Dropping a leading run stops before a suffix that starts outside `cs`. */
  lemma {:induction false} DropWhileInAppend(a: string, b: string, cs: set<char>)
    requires b != [] && b[0] !in cs
    ensures DropWhileIn(a + b, cs) == DropWhileIn(a, cs) + b
    decreases |a|
  {
    if a == [] {
      assert a + b == b;
    } else {
      assert (a + b)[0] == a[0] && (a + b)[1..] == a[1..] + b;
      DropWhileInAppend(a[1..], b, cs);
    }
  }

  /** Runs do not cross into a suffix that starts outside `cs`. */
  lemma {:induction false} CollapseRunsAppend(a: string, b: string, cs: set<char>, d: char)
    requires b != [] && b[0] !in cs
    ensures CollapseRuns(a + b, cs, d) == CollapseRuns(a, cs, d) + CollapseRuns(b, cs, d)
    decreases |a|
  {
    if a == [] {
      assert a + b == b;
    } else {
      var s := a + b;
      assert s[0] == a[0] && s[1..] == a[1..] + b;
      if a[0] in cs {
        var t := DropWhileIn(a[1..], cs);
        DropWhileInAppend(a[1..], b, cs);
        assert DropWhileIn(s[1..], cs) == t + b;
        CollapseRunsAppend(t, b, cs, d);
        CollapseRunsRun(s, cs, d);
        CollapseRunsRun(a, cs, d);
        AppendAssoc([d], CollapseRuns(t, cs, d), CollapseRuns(b, cs, d));
      } else {
        CollapseRunsAppend(a[1..], b, cs, d);
        CollapseRunsCopy(s, cs, d);
        CollapseRunsCopy(a, cs, d);
        AppendAssoc([a[0]], CollapseRuns(a[1..], cs, d), CollapseRuns(b, cs, d));
      }
    }
  }

  /** A run at the front becomes one replacement character. */
  lemma CollapseRunsRun(s: string, cs: set<char>, d: char)
    requires s != [] && s[0] in cs
    ensures CollapseRuns(s, cs, d) == [d] + CollapseRuns(DropWhileIn(s[1..], cs), cs, d)
  {
  }

  /** A character outside `cs` at the front is copied. */
  lemma CollapseRunsCopy(s: string, cs: set<char>, d: char)
    requires s != [] && s[0] !in cs
    ensures CollapseRuns(s, cs, d) == [s[0]] + CollapseRuns(s[1..], cs, d)
  {
  }

  /** Text without characters of `cs` is left alone by `CollapseRuns`. */
  lemma {:induction false} CollapseRunsNone(s: string, cs: set<char>, d: char)
    requires forall i :: 0 <= i < |s| ==> s[i] !in cs
    ensures CollapseRuns(s, cs, d) == s
    decreases |s|
  {
    if s != [] {
      CollapseRunsNone(s[1..], cs, d);
    }
  }

  /** Left-trimming stops at a suffix that starts outside `cs`. */
  lemma {:induction false} TrimLeftAppend(a: string, b: string, cs: set<char>)
    requires b != [] && b[0] !in cs
    ensures TrimLeft(a + b, cs) == TrimLeft(a, cs) + b
    decreases |a|
  {
    if a == [] {
      assert a + b == b;
    } else {
      assert (a + b)[0] == a[0] && (a + b)[1..] == a[1..] + b;
      TrimLeftAppend(a[1..], b, cs);
    }
  }

  /** The decimal digit for `d < 10`. */
  function DigitChar(d: nat): char
    requires d < 10
  {
    ('0' as int + d) as char
  }

  /** Python's `str(n)` for a natural number. */
  function NatToString(n: nat): (r: string)
    ensures |r| >= 1
    ensures forall i :: 0 <= i < |r| ==> '0' <= r[i] <= '9'
    ensures n > 0 ==> r[0] != '0'
  {
    if n < 10 then [DigitChar(n)] else NatToString(n / 10) + [DigitChar(n % 10)]
  }

  /** `n` copies of `c`. */
  function Repeat(c: char, n: nat): (r: string)
    ensures |r| == n && forall i :: 0 <= i < n ==> r[i] == c
  {
    if n == 0 then [] else [c] + Repeat(c, n - 1)
  }

  /** Python's `f"{n:0{width}d}"`: at least `width` digits, padded with zeros on the left. */
  function ZeroPad(n: nat, width: nat): (r: string)
    ensures |r| >= width
    ensures forall i :: 0 <= i < |r| ==> '0' <= r[i] <= '9'
  {
    var digits := NatToString(n);
    (if |digits| < width then Repeat('0', width - |digits|) else "") + digits
  }

  /** The value of a string of decimal digits (the inverse of the formatting above). */
  function ParseNat(s: string): nat
    decreases |s|
  {
    if s == [] then 0
    else ParseNat(s[..|s| - 1]) * 10 + (if '0' <= s[|s| - 1] <= '9' then s[|s| - 1] as int - '0' as int else 0)
  }

  /** A leading zero does not change the value of a digit string. */
  lemma {:induction false} ParseNatLeadingZero(s: string)
    ensures ParseNat("0" + s) == ParseNat(s)
    decreases |s|
  {
    if s != [] {
      var t := "0" + s;
      assert t[..|t| - 1] == "0" + s[..|s| - 1];
      ParseNatLeadingZero(s[..|s| - 1]);
    }
  }

  /** Reading back a formatted number gives the number. */
  lemma {:induction false} ParseNatToString(n: nat)
    ensures ParseNat(NatToString(n)) == n
  {
    if n >= 10 {
      ParseNatToString(n / 10);
      var s := NatToString(n);
      assert s[..|s| - 1] == NatToString(n / 10);
    }
  }

  /** Leading zeros of any number do not change the value. */
  lemma {:induction false} ParseNatZeros(k: nat, s: string)
    ensures ParseNat(Repeat('0', k) + s) == ParseNat(s)
  {
    if k > 0 {
      var t := Repeat('0', k - 1) + s;
      assert Repeat('0', k) + s == "0" + t;
      ParseNatLeadingZero(t);
      ParseNatZeros(k - 1, s);
    } else {
      assert Repeat('0', k) + s == s;
    }
  }

  /** Zero padding followed by parsing is the identity, so padding is injective. */
  lemma ParseZeroPad(n: nat, width: nat)
    ensures ParseNat(ZeroPad(n, width)) == n
  {
    var digits := NatToString(n);
    ParseNatToString(n);
    if |digits| < width {
      ParseNatZeros(width - |digits|, digits);
    } else {
      assert ZeroPad(n, width) == digits;
    }
  }
}
