/** The `$group` stage of the store's aggregation pipelines, re-expressed over
    an in-memory sequence: the distinct values of a key, in order of first
    appearance, and for each value the records that carry it. */
module Grouping {
  import opened Seqs

  predicate NoDuplicates<K(==)>(s: seq<K>) {
    forall i, j :: 0 <= i < j < |s| ==> s[i] != s[j]
  }

  /** No duplicates means no value is counted twice. */
  lemma {:induction false} NoDuplicatesCounts<K>(s: seq<K>)
    ensures NoDuplicates(s) <==> forall x :: multiset(s)[x] <= 1
  {
    if s != [] {
      var t := s[1..];
      assert s == [s[0]] + t;
      NoDuplicatesCounts(t);
      if NoDuplicates(s) {
        assert NoDuplicates(t) by {
          forall i, j | 0 <= i < j < |t| ensures t[i] != t[j] {
            assert t[i] == s[i + 1] && t[j] == s[j + 1];
          }
        }
        assert s[0] !in t by {
          forall j | 0 <= j < |t| ensures t[j] != s[0] {
            assert t[j] == s[j + 1];
          }
        }
      }
      if forall x :: multiset(s)[x] <= 1 {
        forall x ensures multiset(t)[x] <= 1 {
          assert multiset(s)[x] == multiset([s[0]])[x] + multiset(t)[x];
        }
        assert multiset(s)[s[0]] == 1 + multiset(t)[s[0]];
        forall i, j | 0 <= i < j < |s| ensures s[i] != s[j] {
          if i == 0 {
            assert s[j] == t[j - 1];
            assert s[j] in t;
          } else {
            assert s[i] == t[i - 1] && s[j] == t[j - 1];
          }
        }
      }
    }
  }

  /** A permutation of a sequence without duplicates has none either. */
  lemma NoDuplicatesPermutation<K>(a: seq<K>, b: seq<K>)
    requires multiset(a) == multiset(b) && NoDuplicates(a)
    ensures NoDuplicates(b)
  {
    NoDuplicatesCounts(a);
    NoDuplicatesCounts(b);
  }

  /** The distinct elements of `ks`, in order of first appearance. */
  function Distinct<K(==)>(ks: seq<K>): (r: seq<K>)
    ensures forall i :: 0 <= i < |ks| ==> ks[i] in r
    ensures forall i :: 0 <= i < |r| ==> r[i] in ks
    ensures NoDuplicates(r)
    ensures |r| <= |ks|
  {
    if ks == [] then []
    else
      var d := Distinct(ks[..|ks| - 1]);
      var last := ks[|ks| - 1];
      assert ks == ks[..|ks| - 1] + [last];
      if last in d then d else d + [last]
  }

  /** The `_id`s a `$group` on `key` produces: each key that some record
      carries, once. */
  function GroupKeys<T, K(==)>(s: seq<T>, key: T -> K): (r: seq<K>)
    ensures NoDuplicates(r)
    ensures forall i :: 0 <= i < |s| ==> key(s[i]) in r
    ensures forall j :: 0 <= j < |r| ==> exists i :: 0 <= i < |s| && key(s[i]) == r[j]
  {
    var ks := seq(|s|, i requires 0 <= i < |s| => key(s[i]));
    var r := Distinct(ks);
    assert forall j :: 0 <= j < |r| ==> exists i :: 0 <= i < |s| && key(s[i]) == r[j] by {
      forall j | 0 <= j < |r| ensures exists i :: 0 <= i < |s| && key(s[i]) == r[j] {
        var i :| 0 <= i < |ks| && ks[i] == r[j];
        assert key(s[i]) == r[j];
      }
    }
    assert forall i :: 0 <= i < |s| ==> ks[i] == key(s[i]);
    r
  }

  /** The condition "the key is `k`". */
  function KeyIs<T, K(==)>(key: T -> K, k: K): T -> bool { (x: T) => key(x) == k }

  /** The records of group `k`, in record order. */
  function Members<T(==), K(==)>(s: seq<T>, key: T -> K, k: K): seq<T> {
    Filter(s, KeyIs(key, k))
  }

  /** Total size of the groups named in `ks`. */
  function SumSizes<T(==), K(==)>(s: seq<T>, key: T -> K, ks: seq<K>): nat
  {
    if ks == [] then 0 else |Members(s, key, ks[0])| + SumSizes(s, key, ks[1..])
  }

  lemma {:induction false} SumSizesEmpty<T, K>(key: T -> K, ks: seq<K>)
    ensures SumSizes([], key, ks) == 0
  {
    if ks != [] {
      SumSizesEmpty(key, ks[1..]);
    }
  }

  /** How often `x` occurs in `ks`. */
  function Occurrences<K(==)>(ks: seq<K>, x: K): nat
  {
    if ks == [] then 0 else (if ks[0] == x then 1 else 0) + Occurrences(ks[1..], x)
  }

  lemma {:induction false} OccursOnce<K>(ks: seq<K>, x: K)
    requires NoDuplicates(ks)
    ensures Occurrences(ks, x) == if x in ks then 1 else 0
  {
    if ks != [] {
      OccursOnce(ks[1..], x);
      if ks[0] == x {
        forall j | 0 <= j < |ks[1..]| ensures ks[1..][j] != x {
          assert ks[0] != ks[j + 1];
        }
      }
    }
  }

  /** Appending a record grows exactly the group of its key, by one. */
  lemma {:induction false} SumSizesSnoc<T, K>(s: seq<T>, x: T, key: T -> K, ks: seq<K>)
    ensures SumSizes(s + [x], key, ks) == SumSizes(s, key, ks) + Occurrences(ks, key(x))
  {
    if ks != [] {
      FilterAppend(s, [x], KeyIs(key, ks[0]));
      SumSizesSnoc(s, x, key, ks[1..]);
    }
  }

  /** Groups over keys that name every record once add up to all records. */
  lemma {:induction false} SumSizesCover<T, K>(s: seq<T>, key: T -> K, ks: seq<K>)
    requires NoDuplicates(ks)
    requires forall i :: 0 <= i < |s| ==> key(s[i]) in ks
    ensures SumSizes(s, key, ks) == |s|
  {
    if s == [] {
      SumSizesEmpty(key, ks);
    } else {
      var init, last := s[..|s| - 1], s[|s| - 1];
      assert s == init + [last];
      SumSizesCover(init, key, ks);
      SumSizesSnoc(init, last, key, ks);
      OccursOnce(ks, key(last));
    }
  }

  /** The groups partition the records: their sizes add up to the number of
      records, whatever order the groups are listed in. */
  lemma GroupsPartition<T, K>(s: seq<T>, key: T -> K, ks: seq<K>)
    requires multiset(ks) == multiset(GroupKeys(s, key))
    ensures NoDuplicates(ks)
    ensures SumSizes(s, key, ks) == |s|
  {
    NoDuplicatesPermutation(GroupKeys(s, key), ks);
    forall i | 0 <= i < |s| ensures key(s[i]) in ks {
      assert key(s[i]) in multiset(GroupKeys(s, key));
    }
    SumSizesCover(s, key, ks);
  }

  /** Every group a `$group` stage produces is non-empty, and holds exactly
      the records with its key. */
  lemma GroupsNonEmpty<T, K>(s: seq<T>, key: T -> K, k: K)
    requires k in GroupKeys(s, key)
    ensures |Members(s, key, k)| > 0
    ensures forall i :: 0 <= i < |Members(s, key, k)| ==> key(Members(s, key, k)[i]) == k
  {
    var ks := GroupKeys(s, key);
    var j :| 0 <= j < |ks| && ks[j] == k;
    var i :| 0 <= i < |s| && key(s[i]) == ks[j];
    assert s[i] in Members(s, key, k);
  }

  /** `$lookup` followed by `$unwind` from group keys into a table: for each
      key in turn, the first row whose id is that key; a key without a row
      is dropped. */
  function Lookup<R(==), K(==)>(keys: seq<K>, table: seq<R>, idOf: R -> K): (r: seq<R>)
    ensures |r| <= |keys|
    ensures forall i :: 0 <= i < |r| ==> r[i] in table && idOf(r[i]) in keys
  {
    if keys == [] then []
    else
      var rest := Lookup(keys[1..], table, idOf);
      match IndexWhere(table, KeyIs(idOf, keys[0]))
      case None => rest
      case Some(j) => [table[j]] + rest
  }

  /** The ids of a sequence of rows. */
  function Ids<R, K>(rows: seq<R>, idOf: R -> K): (r: seq<K>)
    ensures |r| == |rows| && forall i :: 0 <= i < |rows| ==> r[i] == idOf(rows[i])
  {
    seq(|rows|, i requires 0 <= i < |rows| => idOf(rows[i]))
  }

  /** The rows found are those of distinct keys, in key order: when the keys
      have no duplicates, neither have the ids of the rows found. */
  lemma {:induction false} LookupDistinct<R, K>(keys: seq<K>, table: seq<R>, idOf: R -> K)
    requires NoDuplicates(keys)
    ensures NoDuplicates(Ids(Lookup(keys, table, idOf), idOf))
  {
    if keys != [] {
      var tail := keys[1..];
      assert NoDuplicates(tail) by {
        forall i, j | 0 <= i < j < |tail| ensures tail[i] != tail[j] {
          assert tail[i] == keys[i + 1] && tail[j] == keys[j + 1];
        }
      }
      LookupDistinct(tail, table, idOf);
      var rest := Lookup(tail, table, idOf);
      assert keys[0] !in tail by {
        forall j | 0 <= j < |tail| ensures tail[j] != keys[0] {
          assert tail[j] == keys[j + 1];
        }
      }
      assert forall i :: 0 <= i < |rest| ==> idOf(rest[i]) != keys[0];
      var found := IndexWhere(table, KeyIs(idOf, keys[0]));
      if found.Some? {
        var r := Lookup(keys, table, idOf);
        assert r == [table[found.value]] + rest;
        var ids, restIds := Ids(r, idOf), Ids(rest, idOf);
        forall i, j | 0 <= i < j < |ids| ensures ids[i] != ids[j] {
          assert ids[j] == restIds[j - 1];
          if i > 0 {
            assert ids[i] == restIds[i - 1];
          }
        }
      }
    }
  }

  /** Every key that has a row in the table is found. */
  lemma {:induction false} LookupFinds<R, K>(keys: seq<K>, table: seq<R>, idOf: R -> K, k: K, j: nat)
    requires k in keys && j < |table| && idOf(table[j]) == k
    ensures exists i :: 0 <= i < |Lookup(keys, table, idOf)| && idOf(Lookup(keys, table, idOf)[i]) == k
  {
    var rest := Lookup(keys[1..], table, idOf);
    if keys[0] == k {
      var found := IndexWhere(table, KeyIs(idOf, keys[0]));
      assert found.Some?;
      assert Lookup(keys, table, idOf)[0] == table[found.value];
    } else {
      assert k in keys[1..];
      LookupFinds(keys[1..], table, idOf, k, j);
      var i :| 0 <= i < |rest| && idOf(rest[i]) == k;
      var r := Lookup(keys, table, idOf);
      assert r == rest || r[i + 1] == rest[i];
    }
  }

  /** `$group` by `key`, then `$lookup` and `$unwind` into `table`: the row of
      each group whose key names one, in group order. Each row found has a
      non-empty group. */
  function GroupRows<T(==), R(==), K(==)>(s: seq<T>, key: T -> K, table: seq<R>, idOf: R -> K): (r: seq<R>)
    ensures forall i :: 0 <= i < |r| ==> r[i] in table && |Members(s, key, idOf(r[i]))| > 0
  {
    var r := Lookup(GroupKeys(s, key), table, idOf);
    assert forall i :: 0 <= i < |r| ==> |Members(s, key, idOf(r[i]))| > 0 by {
      forall i | 0 <= i < |r| ensures |Members(s, key, idOf(r[i]))| > 0 {
        GroupsNonEmpty(s, key, idOf(r[i]));
      }
    }
    r
  }

  /** Every record whose key names a row in the table has its group's row
      found, and no row is found for two groups. */
  lemma GroupRowsComplete<T, R, K>(s: seq<T>, key: T -> K, table: seq<R>, idOf: R -> K, i: nat, j: nat)
    requires i < |s| && j < |table| && idOf(table[j]) == key(s[i])
    ensures exists k :: 0 <= k < |GroupRows(s, key, table, idOf)| && idOf(GroupRows(s, key, table, idOf)[k]) == key(s[i])
    ensures NoDuplicates(Ids(GroupRows(s, key, table, idOf), idOf))
  {
    var keys := GroupKeys(s, key);
    LookupFinds(keys, table, idOf, key(s[i]), j);
    LookupDistinct(keys, table, idOf);
    assert GroupRows(s, key, table, idOf) == Lookup(keys, table, idOf);
  }
}
