/**
 * Orderings and sequence helpers shared by the SQL `order by` clauses and the
 * JavaScript `Array.prototype.sort` calls of the lib code.
 */
module Collections {

  /**
   * Three-way comparison of strings by character code, shortest-prefix first:
   * JavaScript's `<` on strings, and the byte-wise collation used for text keys.
   */
  function Compare(a: string, b: string): (r: int)
    ensures -1 <= r <= 1
    ensures r == 0 <==> a == b
  {
    if a == [] && b == [] then 0
    else if a == [] then -1
    else if b == [] then 1
    else if a[0] < b[0] then -1
    else if a[0] > b[0] then 1
    else
      var r := Compare(a[1..], b[1..]);
      assert r == 0 ==> a == [a[0]] + a[1..] == [b[0]] + b[1..] == b;
      r
  }

  lemma {:induction false} CompareFlip(a: string, b: string)
    ensures Compare(a, b) == -Compare(b, a)
  {
    if a != [] && b != [] && a[0] == b[0] {
      CompareFlip(a[1..], b[1..]);
    }
  }

  lemma {:induction false} CompareTransitive(a: string, b: string, c: string)
    requires Compare(a, b) <= 0 && Compare(b, c) <= 0
    ensures Compare(a, c) <= 0
  {
    if a != [] && b != [] && c != [] && a[0] == b[0] == c[0] {
      CompareTransitive(a[1..], b[1..], c[1..]);
    }
  }

  /** `le` orders every pair and is transitive: a comparator `Array.prototype.sort` can rely on. */
  ghost predicate TotalPreorder<T(!new)>(le: (T, T) -> bool) {
    && (forall a, b :: le(a, b) || le(b, a))
    && (forall a, b, c :: le(a, b) && le(b, c) ==> le(a, c))
  }

  ghost predicate SortedBy<T>(s: seq<T>, le: (T, T) -> bool) {
    forall i, j :: 0 <= i < j < |s| ==> le(s[i], s[j])
  }

  /** Places `x` before the first element it does not follow. */
  function Insert<T(!new)>(x: T, s: seq<T>, le: (T, T) -> bool): (r: seq<T>)
    ensures multiset(r) == multiset(s) + multiset{x}
    ensures TotalPreorder(le) && SortedBy(s, le) ==> SortedBy(r, le)
  {
    if s == [] || le(x, s[0]) then
      [x] + s
    else
      var t := Insert(x, s[1..], le);
      var r := [s[0]] + t;
      InsertStep(x, s, le, t, r);
      r
  }

  /** Inserting past `s[0]`: the head stays in front, the rest is the recursive insert. */
  lemma InsertStep<T(!new)>(x: T, s: seq<T>, le: (T, T) -> bool, t: seq<T>, r: seq<T>)
    requires s != [] && !le(x, s[0]) && r == [s[0]] + t
    requires multiset(t) == multiset(s[1..]) + multiset{x}
    requires TotalPreorder(le) && SortedBy(s[1..], le) ==> SortedBy(t, le)
    ensures multiset(r) == multiset(s) + multiset{x}
    ensures TotalPreorder(le) && SortedBy(s, le) ==> SortedBy(r, le)
  {
    assert s == [s[0]] + s[1..];
    if TotalPreorder(le) && SortedBy(s, le) {
      assert SortedBy(s[1..], le) by {
        forall i, j | 0 <= i < j < |s[1..]| ensures le(s[1..][i], s[1..][j]) {
          assert s[1..][i] == s[i + 1] && s[1..][j] == s[j + 1];
        }
      }
      assert le(s[0], x);
      forall j | 0 < j < |r| ensures le(r[0], r[j]) {
        assert r[j] == t[j - 1];
        assert t[j - 1] in multiset(s[1..]) + multiset{x};
        if t[j - 1] != x {
          var i :| 0 <= i < |s[1..]| && s[1..][i] == t[j - 1];
          assert s[1..][i] == s[i + 1];
        }
      }
      forall i, j | 0 <= i < j < |r| ensures le(r[i], r[j]) {
        if i > 0 {
          assert r[i] == t[i - 1] && r[j] == t[j - 1];
        }
      }
    }
  }

  /**
   * A stable insertion sort: `Array.prototype.sort` with a consistent comparator,
   * and a SQL `order by` over the given keys.
   */
  function Sort<T(!new)>(s: seq<T>, le: (T, T) -> bool): (r: seq<T>)
    ensures multiset(r) == multiset(s)
    ensures |r| == |s|
    ensures TotalPreorder(le) ==> SortedBy(r, le)
  {
    if s == [] then []
    else
      assert s == [s[0]] + s[1..];
      var r := Insert(s[0], Sort(s[1..], le), le);
      assert |r| == |multiset(r)|;
      r
  }

  /** `s.filter(p)`: the elements satisfying `p`, in their original order. */
  function Filter<T(!new)>(s: seq<T>, p: T -> bool): (r: seq<T>)
    ensures |r| <= |s|
    ensures forall i :: 0 <= i < |r| ==> r[i] in s && p(r[i])
    ensures forall i :: 0 <= i < |s| && p(s[i]) ==> s[i] in r
    ensures multiset(r) <= multiset(s)
    ensures forall x :: multiset(r)[x] == if p(x) then multiset(s)[x] else 0
  {
    if s == [] then []
    else
      var rest := Filter(s[1..], p);
      var r := if p(s[0]) then [s[0]] + rest else rest;
      FilterStepCounts(s, p, rest, r);
      FilterStepKeeps(s, p, rest, r);
      FilterStepCovers(s, p, rest, r);
      r
  }

  /** The filter's step on `s[0]` keeps the multiplicities right. */
  lemma FilterStepCounts<T>(s: seq<T>, p: T -> bool, rest: seq<T>, r: seq<T>)
    requires s != [] && r == if p(s[0]) then [s[0]] + rest else rest
    requires forall x :: multiset(rest)[x] == if p(x) then multiset(s[1..])[x] else 0
    ensures forall x :: multiset(r)[x] == if p(x) then multiset(s)[x] else 0
    ensures multiset(r) <= multiset(s)
  {
    assert s == [s[0]] + s[1..];
  }

  /** The filter's step on `s[0]` keeps only elements of `s` that satisfy `p`. */
  lemma FilterStepKeeps<T>(s: seq<T>, p: T -> bool, rest: seq<T>, r: seq<T>)
    requires s != [] && r == if p(s[0]) then [s[0]] + rest else rest
    requires forall i :: 0 <= i < |rest| ==> rest[i] in s[1..] && p(rest[i])
    ensures forall i :: 0 <= i < |r| ==> r[i] in s && p(r[i])
  {
    assert s == [s[0]] + s[1..];
  }

  /** The filter's step on `s[0]` drops no element of `s` that satisfies `p`. */
  lemma FilterStepCovers<T>(s: seq<T>, p: T -> bool, rest: seq<T>, r: seq<T>)
    requires s != [] && r == if p(s[0]) then [s[0]] + rest else rest
    requires forall i :: 0 <= i < |s[1..]| && p(s[1..][i]) ==> s[1..][i] in rest
    ensures forall i :: 0 <= i < |s| && p(s[i]) ==> s[i] in r
  {
    forall i | 0 < i < |s| && p(s[i]) ensures s[i] in r {
      assert s[i] == s[1..][i - 1];
    }
  }

  /** Filtering distributes over concatenation. */
  lemma {:induction false} FilterAppend<T(!new)>(a: seq<T>, b: seq<T>, p: T -> bool)
    ensures Filter(a + b, p) == Filter(a, p) + Filter(b, p)
  {
    if a == [] {
      assert a + b == b;
    } else {
      assert (a + b)[1..] == a[1..] + b;
      FilterAppend(a[1..], b, p);
    }
  }

  /** A filter that keeps every element changes nothing. */
  lemma {:induction false} FilterKeepsAll<T(!new)>(s: seq<T>, p: T -> bool)
    requires forall i :: 0 <= i < |s| ==> p(s[i])
    ensures Filter(s, p) == s
  {
    if s != [] {
      FilterKeepsAll(s[1..], p);
    }
  }

  /** `s.slice(0, n)` with the clamping of SQL `limit`. */
  function Take<T>(s: seq<T>, n: nat): (r: seq<T>)
    ensures |r| == if n < |s| then n else |s|
    ensures r <= s
  {
    if n < |s| then s[..n] else s
  }
}
