/** Queries over an in-memory table: keeping the records that match a
    condition (a `find`/`deleteMany` filter) and relations every pair of
    records satisfies (a unique index). */
module Seqs {
  import opened Common

  /** Every earlier record stands in relation `p` to every later one. */
  predicate Pairwise<T>(s: seq<T>, p: (T, T) -> bool) {
    forall i, j :: 0 <= i < j < |s| ==> p(s[i], s[j])
  }

  /** The records that satisfy `keep`, in table order. */
  function Filter<T(==)>(s: seq<T>, keep: T -> bool): (r: seq<T>)
    ensures |r| <= |s|
    ensures forall i :: 0 <= i < |r| ==> r[i] in s && keep(r[i])
    ensures forall i :: 0 <= i < |s| && keep(s[i]) ==> s[i] in r
  {
    if s == [] then []
    else
      assert s == [s[0]] + s[1..];
      if keep(s[0]) then [s[0]] + Filter(s[1..], keep) else Filter(s[1..], keep)
  }

  /** Position of the first record that satisfies `p` (`findOne`), if any. */
  function IndexWhere<T>(s: seq<T>, p: T -> bool): (r: Option<nat>)
    ensures r.Some? ==> r.value < |s| && p(s[r.value])
    ensures r.Some? ==> forall j :: 0 <= j < r.value ==> !p(s[j])
    ensures r.None? <==> forall j :: 0 <= j < |s| ==> !p(s[j])
  {
    if s == [] then None
    else if p(s[0]) then Some(0)
    else match IndexWhere(s[1..], p)
      case None => None
      case Some(k) => Some(k + 1)
  }

  /** How many records satisfy `keep` (`countDocuments`). */
  function Count<T(==)>(s: seq<T>, keep: T -> bool): nat {
    |Filter(s, keep)|
  }

  /** Removing records never breaks a relation that held between all pairs. */
  lemma {:induction false} FilterPairwise<T>(s: seq<T>, keep: T -> bool, p: (T, T) -> bool)
    requires Pairwise(s, p)
    ensures Pairwise(Filter(s, keep), p)
  {
    if s != [] {
      FilterPairwise(s[1..], keep, p);
      var t := Filter(s[1..], keep);
      if keep(s[0]) {
        var r := [s[0]] + t;
        forall i, j | 0 <= i < j < |r| ensures p(r[i], r[j]) {
          if i == 0 {
            assert t[j - 1] in s[1..];
            var m :| 0 <= m < |s[1..]| && s[1..][m] == r[j];
            assert s[m + 1] == r[j];
          } else {
            assert r[i] == t[i - 1] && r[j] == t[j - 1];
          }
        }
      }
    }
  }

  /** A filter that every record passes keeps the whole table. */
  lemma {:induction false} FilterKeepsAll<T>(s: seq<T>, keep: T -> bool)
    requires forall i :: 0 <= i < |s| ==> keep(s[i])
    ensures Filter(s, keep) == s
  {
    if s != [] {
      FilterKeepsAll(s[1..], keep);
    }
  }

  /** Filtering distributes over appending records. */
  lemma {:induction false} FilterAppend<T>(a: seq<T>, b: seq<T>, keep: T -> bool)
    ensures Filter(a + b, keep) == Filter(a, keep) + Filter(b, keep)
  {
    if a == [] {
      assert a + b == b;
    } else {
      assert (a + b)[1..] == a[1..] + b;
      FilterAppend(a[1..], b, keep);
    }
  }

  /** Appending a record that stands in relation `p` to all others keeps the relation. */
  lemma PairwiseSnoc<T>(s: seq<T>, y: T, p: (T, T) -> bool)
    requires Pairwise(s, p)
    requires forall i :: 0 <= i < |s| ==> p(s[i], y)
    ensures Pairwise(s + [y], p)
  {
    var r := s + [y];
    forall i, j | 0 <= i < j < |r| ensures p(r[i], r[j]) {
      if j < |s| {
        assert r[i] == s[i] && r[j] == s[j];
      } else {
        assert r[i] == s[i] && r[j] == y;
      }
    }
  }

  /** A condition and its negation split the table between them. */
  lemma {:induction false} FilterComplement<T>(s: seq<T>, keep: T -> bool, drop: T -> bool)
    requires forall i :: 0 <= i < |s| ==> (drop(s[i]) <==> !keep(s[i]))
    ensures |Filter(s, keep)| + |Filter(s, drop)| == |s|
  {
    if s != [] {
      FilterComplement(s[1..], keep, drop);
    }
  }

  /** When no two records allowed side by side both match `keep`, at most one record matches. */
  lemma FilterAtMostOne<T>(s: seq<T>, keep: T -> bool, p: (T, T) -> bool)
    requires Pairwise(s, p)
    requires forall x, y :: keep(x) && keep(y) ==> !p(x, y)
    ensures |Filter(s, keep)| <= 1
  {
    FilterPairwise(s, keep, p);
    PairwiseFirstTwo(Filter(s, keep), p);
  }

  lemma PairwiseFirstTwo<T>(s: seq<T>, p: (T, T) -> bool)
    requires Pairwise(s, p)
    ensures |s| >= 2 ==> p(s[0], s[1])
  {
  }

  /** A narrower condition never matches more records. */
  lemma {:induction false} FilterNarrower<T>(s: seq<T>, narrow: T -> bool, wide: T -> bool)
    requires forall i :: 0 <= i < |s| && narrow(s[i]) ==> wide(s[i])
    ensures |Filter(s, narrow)| <= |Filter(s, wide)|
  {
    if s != [] {
      FilterNarrower(s[1..], narrow, wide);
    }
  }
}
