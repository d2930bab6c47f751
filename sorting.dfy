/** The `sort` and `limit` stages of the store's queries, re-expressed over an
    in-memory sequence: a stable insertion sort by a comparison `le`
    ("`a` may come before `b`") and taking a prefix. Ties keep the order the
    records had before sorting (the store's natural order). */
module Sorting {

  /** `le` relates every pair one way or the other and is transitive,
      as a comparison of sort keys is. */
  ghost predicate TotalPreorder<T(!new)>(le: (T, T) -> bool) {
    && (forall x, y :: le(x, y) || le(y, x))
    && (forall x, y, z :: le(x, y) && le(y, z) ==> le(x, z))
  }

  predicate SortedBy<T>(s: seq<T>, le: (T, T) -> bool) {
    forall i, j :: 0 <= i < j < |s| ==> le(s[i], s[j])
  }

  /** Puts `x` in front of the first element it may precede. */
  function Insert<T>(x: T, s: seq<T>, le: (T, T) -> bool): (r: seq<T>)
    ensures |r| == |s| + 1
    ensures multiset(r) == multiset(s) + multiset{x}
  {
    if s == [] || le(x, s[0]) then [x] + s
    else
      assert s == [s[0]] + s[1..];
      [s[0]] + Insert(x, s[1..], le)
  }

  function Sort<T>(s: seq<T>, le: (T, T) -> bool): (r: seq<T>)
    ensures |r| == |s|
    ensures multiset(r) == multiset(s)
  {
    if s == [] then []
    else
      assert s == [s[0]] + s[1..];
      Insert(s[0], Sort(s[1..], le), le)
  }

  lemma {:induction false} InsertSorted<T(!new)>(x: T, s: seq<T>, le: (T, T) -> bool)
    requires TotalPreorder(le)
    requires SortedBy(s, le)
    ensures SortedBy(Insert(x, s, le), le)
  {
    if s == [] || le(x, s[0]) {
      var r := [x] + s;
      forall i, j | 0 <= i < j < |r| ensures le(r[i], r[j]) {
        if i == 0 && j > 1 {
          assert le(s[0], s[j - 1]);
        }
      }
    } else {
      var t := Insert(x, s[1..], le);
      InsertSorted(x, s[1..], le);
      assert le(s[0], x);
      forall k | 0 <= k < |t| ensures le(s[0], t[k]) {
        assert t[k] in multiset(t);
        if t[k] != x {
          assert t[k] in multiset(s[1..]);
          var m :| 0 <= m < |s[1..]| && s[1..][m] == t[k];
          assert le(s[0], s[m + 1]);
        }
      }
      var r := [s[0]] + t;
      forall i, j | 0 <= i < j < |r| ensures le(r[i], r[j]) {
        if i > 0 {
          assert r[i] == t[i - 1] && r[j] == t[j - 1];
        }
      }
    }
  }

  /** The sort orders its output and is a permutation of its input. */
  lemma {:induction false} SortSorted<T(!new)>(s: seq<T>, le: (T, T) -> bool)
    requires TotalPreorder(le)
    ensures SortedBy(Sort(s, le), le)
    ensures multiset(Sort(s, le)) == multiset(s)
  {
    if s != [] {
      SortSorted(s[1..], le);
      InsertSorted(s[0], Sort(s[1..], le), le);
    }
  }

  /** `.limit(n)` */
  function Take<T>(s: seq<T>, n: nat): (r: seq<T>)
    ensures |r| == if n < |s| then n else |s|
    ensures r == s[..|r|]
  {
    if n < |s| then s[..n] else s
  }

  /** The first `n` of a sorted sequence may precede everything left out. */
  lemma TakeIsTop<T(!new)>(s: seq<T>, le: (T, T) -> bool, n: nat)
    requires SortedBy(s, le)
    ensures SortedBy(Take(s, n), le)
    ensures forall x, y :: x in Take(s, n) && y in s[|Take(s, n)|..] ==> le(x, y)
  {
    var t := Take(s, n);
    forall x, y | x in t && y in s[|t|..] ensures le(x, y) {
      var i :| 0 <= i < |t| && t[i] == x;
      var j :| 0 <= j < |s[|t|..]| && s[|t|..][j] == y;
      assert s[i] == x && s[|t| + j] == y;
    }
  }

  /** Sorting and keeping the first `n` yields the `n` best records, in
      order: each comes from the input, and none left out may precede one
      that is kept. */
  lemma TopOfSort<T(!new)>(all: seq<T>, le: (T, T) -> bool, n: nat)
    requires TotalPreorder(le)
    ensures SortedBy(Take(Sort(all, le), n), le)
    ensures forall i :: 0 <= i < |Take(Sort(all, le), n)| ==> Take(Sort(all, le), n)[i] in all
    ensures forall x, y :: x in all && x !in Take(Sort(all, le), n) && y in Take(Sort(all, le), n) ==> le(y, x)
  {
    var s := Sort(all, le);
    var top := Take(s, n);
    SortSorted(all, le);
    TakeIsTop(s, le, n);
    forall i | 0 <= i < |top| ensures top[i] in all {
      assert top[i] == s[i] && s[i] in multiset(all);
    }
    assert s == top + s[|top|..];
    forall x, y | x in all && x !in top && y in top ensures le(y, x) {
      assert x in multiset(s);
      assert x in s[|top|..];
    }
  }

  // ---------------------------------------------------------------- sort keys

  /** The store's order on strings (`sort({ name: 1 })`): character by
      character by code point, a proper prefix first. */
  predicate LexLe(a: string, b: string)
    decreases |a|
  {
    a == [] || (b != [] && (a[0] < b[0] || (a[0] == b[0] && LexLe(a[1..], b[1..]))))
  }

  lemma {:induction false} LexLeTotal(a: string, b: string)
    ensures LexLe(a, b) || LexLe(b, a)
    decreases |a|
  {
    if a != [] && b != [] && a[0] == b[0] {
      LexLeTotal(a[1..], b[1..]);
    }
  }

  lemma {:induction false} LexLeTransitive(a: string, b: string, c: string)
    requires LexLe(a, b) && LexLe(b, c)
    ensures LexLe(a, c)
    decreases |a|
  {
    if a != [] && a[0] == b[0] && b[0] == c[0] {
      LexLeTransitive(a[1..], b[1..], c[1..]);
    }
  }

  lemma {:induction false} LexLeAntisymmetric(a: string, b: string)
    requires LexLe(a, b) && LexLe(b, a)
    ensures a == b
    decreases |a|
  {
    if a != [] {
      LexLeAntisymmetric(a[1..], b[1..]);
      assert a == [a[0]] + a[1..] && b == [b[0]] + b[1..];
    }
  }

  /** Ascending by a text key. */
  function AscendingText<T>(key: T -> string): (T, T) -> bool {
    (x: T, y: T) => LexLe(key(x), key(y))
  }

  /** Ascending by a number key (`sort({ k: 1 })`). */
  function Ascending<T>(key: T -> int): (T, T) -> bool {
    (x: T, y: T) => key(x) <= key(y)
  }

  /** Descending by a number key (`sort({ k: -1 })`). */
  function Descending<T>(key: T -> int): (T, T) -> bool {
    (x: T, y: T) => key(x) >= key(y)
  }

  /** Descending by a rational key. */
  function DescendingReal<T>(key: T -> real): (T, T) -> bool {
    (x: T, y: T) => key(x) >= key(y)
  }

  lemma AscendingTextIsTotal<T(!new)>(key: T -> string)
    ensures TotalPreorder(AscendingText(key))
  {
    forall x: T, y: T ensures LexLe(key(x), key(y)) || LexLe(key(y), key(x)) {
      LexLeTotal(key(x), key(y));
    }
    forall x: T, y: T, z: T | LexLe(key(x), key(y)) && LexLe(key(y), key(z))
      ensures LexLe(key(x), key(z))
    {
      LexLeTransitive(key(x), key(y), key(z));
    }
  }

  lemma NumberOrdersAreTotal<T(!new)>(key: T -> int, rkey: T -> real)
    ensures TotalPreorder(Ascending(key)) && TotalPreorder(Descending(key))
    ensures TotalPreorder(DescendingReal(rkey))
  {
  }
}
