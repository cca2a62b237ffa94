/**
 What the read queries share: `ORDER BY ... DESC` as a sort by a total
 preorder, `LIMIT` and `OFFSET` with SQLite's treatment of negative values,
 and the rows of an unordered table as a sequence in some scan order.
 */
module Sorting {

  /** `ge(a, b)`: `a` may be listed before `b`. */
  ghost predicate TotalPreorder<T(!new)>(ge: (T, T) -> bool)
  {
    && (forall a, b :: ge(a, b) || ge(b, a))
    && (forall a, b, c :: ge(a, b) && ge(b, c) ==> ge(a, c))
  }

  ghost predicate SortedBy<T>(s: seq<T>, ge: (T, T) -> bool)
  {
    forall i, j :: 0 <= i < j < |s| ==> ge(s[i], s[j])
  }

  ghost predicate Distinct<T>(s: seq<T>)
  {
    forall i, j :: 0 <= i < j < |s| ==> s[i] != s[j]
  }

  function Insert<T(!new)>(x: T, s: seq<T>, ge: (T, T) -> bool): (r: seq<T>)
    requires TotalPreorder(ge) && SortedBy(s, ge)
    ensures SortedBy(r, ge)
    ensures multiset(r) == multiset(s) + multiset{x}
  {
    if s == [] then [x]
    else if ge(x, s[0]) then
      InsertFront(x, s, ge);
      [x] + s
    else
      var t := Insert(x, s[1..], ge);
      InsertBehind(x, s, t, ge);
      [s[0]] + t
  }

  lemma InsertFront<T(!new)>(x: T, s: seq<T>, ge: (T, T) -> bool)
    requires TotalPreorder(ge) && SortedBy(s, ge) && s != [] && ge(x, s[0])
    ensures SortedBy([x] + s, ge)
  {
    forall j | 0 <= j < |s| ensures ge(x, s[j]) {
      if j > 0 {
        assert ge(s[0], s[j]);
      }
    }
    forall i, j | 0 <= i < j < |[x] + s| ensures ge(([x] + s)[i], ([x] + s)[j]) {
      if i > 0 {
        assert ([x] + s)[i] == s[i - 1] && ([x] + s)[j] == s[j - 1];
      }
    }
  }

  lemma InsertBehind<T(!new)>(x: T, s: seq<T>, t: seq<T>, ge: (T, T) -> bool)
    requires TotalPreorder(ge) && SortedBy(s, ge) && s != [] && !ge(x, s[0])
    requires SortedBy(t, ge) && multiset(t) == multiset(s[1..]) + multiset{x}
    ensures SortedBy([s[0]] + t, ge)
    ensures multiset([s[0]] + t) == multiset(s) + multiset{x}
  {
    assert s == [s[0]] + s[1..];
    assert ge(s[0], x);
    forall k | 0 <= k < |t| ensures ge(s[0], t[k]) {
      assert t[k] in multiset(t);
      if t[k] != x {
        assert t[k] in s[1..];
        var m :| 0 <= m < |s[1..]| && s[1..][m] == t[k];
        assert s[m + 1] == t[k];
      }
    }
    forall i, j | 0 <= i < j < |[s[0]] + t| ensures ge(([s[0]] + t)[i], ([s[0]] + t)[j]) {
      if i > 0 {
        assert ([s[0]] + t)[i] == t[i - 1] && ([s[0]] + t)[j] == t[j - 1];
      } else {
        assert ([s[0]] + t)[j] == t[j - 1];
      }
    }
  }

  /** Rows in an order allowed by `ORDER BY ge`; ties are left in whatever order results. */
  function Sort<T(!new)>(s: seq<T>, ge: (T, T) -> bool): (r: seq<T>)
    requires TotalPreorder(ge)
    ensures SortedBy(r, ge)
    ensures multiset(r) == multiset(s)
  {
    if s == [] then []
    else
      assert s == [s[0]] + s[1..];
      Insert(s[0], Sort(s[1..], ge), ge)
  }

  /** `LIMIT n`: a negative `n` means no limit. */
  function Limit<T>(s: seq<T>, n: int): (r: seq<T>)
    ensures r <= s
    ensures |r| == if 0 <= n < |s| then n else |s|
  {
    if 0 <= n < |s| then s[..n] else s
  }

  /** `OFFSET k`: a negative `k` acts as 0. */
  function Offset<T>(s: seq<T>, k: int): (r: seq<T>)
    ensures |r| == if k <= 0 then |s| else if k < |s| then |s| - k else 0
    ensures forall i :: 0 <= i < |r| ==> r[i] == s[|s| - |r| + i]
  {
    if k <= 0 then s else if k < |s| then s[k..] else []
  }

  /** How many rows `OFFSET k` skips out of `n`. */
  function Skipped(n: nat, k: int): nat
  {
    if k <= 0 then 0 else if k < n then k else n
  }

  /** How many rows `LIMIT n OFFSET k` keeps out of `count`. */
  function PageSize(count: nat, n: int, k: int): nat
  {
    var rest := count - Skipped(count, k);
    if 0 <= n < rest then n else rest
  }

  /** `LIMIT n OFFSET k`: the `PageSize` rows that follow the first `Skipped` ones. */
  function Window<T>(s: seq<T>, n: int, k: int): (r: seq<T>)
    ensures |r| == PageSize(|s|, n, k)
    ensures Skipped(|s|, k) + |r| <= |s|
    ensures r == s[Skipped(|s|, k)..Skipped(|s|, k) + |r|]
  {
    var rest := Offset(s, k);
    assert rest == s[Skipped(|s|, k)..];
    Limit(rest, n)
  }

  /** Reading `LIMIT a OFFSET k` and then `LIMIT b OFFSET k + a` reads `LIMIT a + b OFFSET k`. */
  lemma WindowsConcatenate<T>(s: seq<T>, a: nat, b: nat, k: nat)
    ensures Window(s, a, k) + Window(s, b, k + a) == Window(s, a + b, k)
  {
    var w1, w2, w := Window(s, a, k), Window(s, b, k + a), Window(s, a + b, k);
    var lo, mid := Skipped(|s|, k), Skipped(|s|, k + a);
    var hi := mid + |w2|;
    PagesAdd(|s|, a, b, k);
    JoinSlices(s, w1, w2, w, lo, mid, hi);
  }

  lemma JoinSlices<T>(s: seq<T>, u: seq<T>, v: seq<T>, w: seq<T>, lo: nat, mid: nat, hi: nat)
    requires lo <= mid <= hi <= |s|
    requires u == s[lo..mid] && v == s[mid..hi] && w == s[lo..hi]
    ensures u + v == w
  {
    SlicesJoin(s, lo, mid, hi);
  }

  /** The arithmetic of consecutive pages: the second starts where the first ends, and together they are one page. */
  lemma PagesAdd(n: nat, a: nat, b: nat, k: nat)
    ensures Skipped(n, k + a) == Skipped(n, k) + PageSize(n, a, k)
    ensures PageSize(n, a + b, k) == PageSize(n, a, k) + PageSize(n, b, k + a)
  {
  }

  lemma SlicesJoin<T>(s: seq<T>, lo: nat, mid: nat, hi: nat)
    requires lo <= mid <= hi <= |s|
    ensures s[lo..mid] + s[mid..hi] == s[lo..hi]
  {
  }

  /** The elements of a finite set, in some order, each once. */
  ghost function SeqOfSet<T(!new)>(s: set<T>): (r: seq<T>)
    ensures |r| == |s|
    ensures forall x :: x in r <==> x in s
    ensures Distinct(r)
    decreases |s|
  {
    if s == {} then []
    else
      var x :| x in s;
      [x] + SeqOfSet(s - {x})
  }

  lemma {:induction false} DistinctAtMostOnce<T>(s: seq<T>, x: T)
    requires Distinct(s)
    ensures multiset(s)[x] <= 1
  {
    if s != [] {
      assert s == [s[0]] + s[1..];
      assert Distinct(s[1..]) by {
        forall i, j | 0 <= i < j < |s[1..]| ensures s[1..][i] != s[1..][j] {
          assert s[1..][i] == s[i + 1] && s[1..][j] == s[j + 1];
        }
      }
      DistinctAtMostOnce(s[1..], x);
      if s[0] == x {
        assert x !in s[1..];
      }
    }
  }

  /** Dropping the element at `j` drops one occurrence of it. */
  lemma RemoveOne<T>(s: seq<T>, j: nat)
    requires j < |s|
    ensures multiset(s[..j] + s[j + 1..]) == multiset(s) - multiset{s[j]}
    ensures s[j] in multiset(s)
  {
    assert s == s[..j] + [s[j]] + s[j + 1..];
  }

  /** A permutation of a sequence without duplicates has none either. */
  lemma PermutationKeepsDistinct<T>(s: seq<T>, t: seq<T>)
    requires Distinct(s) && multiset(s) == multiset(t)
    ensures Distinct(t)
  {
    forall i, j | 0 <= i < j < |t| ensures t[i] != t[j] {
      if t[i] == t[j] {
        assert t == t[..i] + [t[i]] + t[i + 1..j] + [t[j]] + t[j + 1..];
        assert multiset(t)[t[i]] >= 2;
        DistinctAtMostOnce(s, t[i]);
        assert false;
      }
    }
  }

  /** `ge(a, b)` of `ORDER BY score DESC` on (key, score) rows. */
  predicate ScoreGe<K>(a: (K, int), b: (K, int))
  {
    a.1 >= b.1
  }

  ghost predicate DistinctKeys<K, V>(s: seq<(K, V)>)
  {
    forall i, j :: 0 <= i < j < |s| ==> s[i].0 != s[j].0
  }

  lemma ScoreGeIsTotalPreorder<K(!new)>()
    ensures TotalPreorder(ScoreGe<K>)
  {
    assert forall a: (K, int), b: (K, int) :: ScoreGe(a, b) || ScoreGe(b, a);
    assert forall a: (K, int), b: (K, int), c: (K, int) :: ScoreGe(a, b) && ScoreGe(b, c) ==> ScoreGe(a, c);
  }

  /**
   `ORDER BY score DESC LIMIT n` over rows with distinct keys: at most `n` rows,
   highest score first, each one of the input rows, the keys still
   distinct, and no row left out scores higher than a row kept.
   */
  function TopByScore<K(!new)>(rows: seq<(K, int)>, n: int): (r: seq<(K, int)>)
    requires DistinctKeys(rows)
    ensures |r| == if 0 <= n < |rows| then n else |rows|
    ensures forall i, j :: 0 <= i < j < |r| ==> r[i].1 >= r[j].1
    ensures forall i :: 0 <= i < |r| ==> r[i] in rows
    ensures forall e, i :: e in rows && e !in r && 0 <= i < |r| ==> r[i].1 >= e.1
    ensures DistinctKeys(r)
  {
    ScoreGeIsTotalPreorder<K>();
    var all := Sort(rows, ScoreGe);
    var top := Limit(all, n);
    assert |all| == |multiset(all)| == |multiset(rows)| == |rows|;
    assert top == all[..|top|];
    TopOfSorted(rows, all, |top|);
    top
  }

  lemma TopOfSorted<K(!new)>(rows: seq<(K, int)>, all: seq<(K, int)>, k: nat)
    requires SortedBy(all, ScoreGe) && multiset(all) == multiset(rows) && k <= |all|
    ensures forall i, j :: 0 <= i < j < k ==> all[..k][i].1 >= all[..k][j].1
    ensures forall i :: 0 <= i < k ==> all[..k][i] in rows
    ensures forall e, i :: e in rows && e !in all[..k] && 0 <= i < k ==> all[..k][i].1 >= e.1
    ensures DistinctKeys(rows) ==> DistinctKeys(all[..k])
  {
    var top := all[..k];
    forall i, j | 0 <= i < j < k ensures top[i].1 >= top[j].1 {
      assert ScoreGe(all[i], all[j]);
    }
    forall i | 0 <= i < k ensures top[i] in rows {
      assert all[i] in multiset(all);
    }
    TopLeavesNoHigher(rows, all, k);
    if DistinctKeys(rows) {
      TopKeepsKeysDistinct(rows, all, k);
    }
  }

  lemma TopLeavesNoHigher<K(!new)>(rows: seq<(K, int)>, all: seq<(K, int)>, k: nat)
    requires SortedBy(all, ScoreGe) && multiset(all) == multiset(rows) && k <= |all|
    ensures forall e, i :: e in rows && e !in all[..k] && 0 <= i < k ==> all[..k][i].1 >= e.1
  {
    forall e, i | e in rows && e !in all[..k] && 0 <= i < k ensures all[..k][i].1 >= e.1 {
      assert e in multiset(all);
      var j :| 0 <= j < |all| && all[j] == e;
      assert all[..k][i] == all[i];
      assert ScoreGe(all[i], all[j]);
    }
  }

  lemma TopKeepsKeysDistinct<K, V>(rows: seq<(K, V)>, all: seq<(K, V)>, k: nat)
    requires multiset(all) == multiset(rows) && k <= |all| && DistinctKeys(rows)
    ensures DistinctKeys(all[..k])
  {
    assert Distinct(rows) by {
      forall i, j | 0 <= i < j < |rows| ensures rows[i] != rows[j] {
        assert rows[i].0 != rows[j].0;
      }
    }
    PermutationKeepsDistinct(rows, all);
    forall i, j | 0 <= i < j < k ensures all[..k][i].0 != all[..k][j].0 {
      assert all[i] in multiset(rows) && all[j] in multiset(rows);
      var a :| 0 <= a < |rows| && rows[a] == all[i];
      var b :| 0 <= b < |rows| && rows[b] == all[j];
      assert all[i] != all[j];
      assert a != b;
    }
  }
}
