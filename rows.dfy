/** The primitives the queries are built from, over a sequence of rows of any type: counting the
    rows a predicate selects, the largest value of a column, selecting rows in order, and a
    stable ordering by an integer key. */
module Rows {
  import opened Wrappers

  // ---------------------------------------------------------------------------------------
  // Counting

  /** `SELECT COUNT(..) WHERE p`: the number of rows that satisfy `p`. */
  function Count<T>(rows: seq<T>, p: T -> bool): (n: nat)
    ensures n <= |rows|
  {
    if |rows| == 0 then 0
    else (if p(rows[0]) then 1 else 0) + Count(rows[1..], p)
  }

  /** No row is counted exactly when no row satisfies `p`. */
  lemma {:induction false} CountZero<T>(rows: seq<T>, p: T -> bool)
    ensures Count(rows, p) == 0 <==> forall i :: 0 <= i < |rows| ==> !p(rows[i])
  {
    if |rows| > 0 {
      assert forall i :: 1 <= i < |rows| ==> rows[1..][i - 1] == rows[i];
      CountZero(rows[1..], p);
    }
  }

  /** The positions of the rows that satisfy `p`. */
  function Matching<T>(rows: seq<T>, p: T -> bool): set<int> {
    set i | 0 <= i < |rows| && p(rows[i])
  }

  /** Appending a row adds its position when it matches. */
  lemma MatchingSnoc<T>(prefix: seq<T>, x: T, p: T -> bool)
    ensures Matching(prefix + [x], p)
      == Matching(prefix, p) + (if p(x) then {|prefix|} else {})
    ensures |prefix| !in Matching(prefix, p)
  {
    var rows := prefix + [x];
    assert forall i :: 0 <= i < |prefix| ==> rows[i] == prefix[i];
    assert rows[|prefix|] == x;
  }

  /** The count is the number of matching positions. */
  lemma {:induction false} CountIsCardinality<T>(rows: seq<T>, p: T -> bool)
    ensures Count(rows, p) == |Matching(rows, p)|
  {
    if |rows| > 0 {
      var n := |rows| - 1;
      var prefix := rows[..n];
      assert rows == prefix + [rows[n]];
      CountIsCardinality(prefix, p);
      CountAppend(prefix, [rows[n]], p);
      assert [rows[n]][1..] == [];
      MatchingSnoc(prefix, rows[n], p);
    }
  }

  /** A predicate that holds on every row counts them all. */
  lemma {:induction false} CountEvery<T>(rows: seq<T>, p: T -> bool)
    requires forall k :: 0 <= k < |rows| ==> p(rows[k])
    ensures Count(rows, p) == |rows|
  {
    if |rows| > 0 {
      assert forall k :: 1 <= k < |rows| ==> rows[1..][k - 1] == rows[k];
      CountEvery(rows[1..], p);
    }
  }

  /** Predicates that agree on every row count alike. */
  lemma {:induction false} CountCongruent<T>(rows: seq<T>, p: T -> bool, q: T -> bool)
    requires forall r :: p(r) == q(r)
    ensures Count(rows, p) == Count(rows, q)
  {
    if |rows| > 0 {
      CountCongruent(rows[1..], p, q);
    }
  }

  /** Counting over two tables in turn adds up. */
  lemma {:induction false} CountAppend<T>(t1: seq<T>, t2: seq<T>, p: T -> bool)
    ensures Count(t1 + t2, p) == Count(t1, p) + Count(t2, p)
  {
    if |t1| > 0 {
      assert (t1 + t2)[1..] == t1[1..] + t2;
      CountAppend(t1[1..], t2, p);
    } else {
      assert t1 + t2 == t2;
    }
  }

  /** A row the predicate rejects changes no count, wherever it stands. */
  lemma CountSkips<T>(t1: seq<T>, x: T, t2: seq<T>, p: T -> bool)
    requires !p(x)
    ensures Count(t1 + [x] + t2, p) == Count(t1 + t2, p)
  {
    assert Count([x], p) == 0;
    CountAppend(t1 + [x], t2, p);
    CountAppend(t1, [x], p);
    CountAppend(t1, t2, p);
  }

  /** A weaker predicate counts at least as many rows. */
  lemma {:induction false} CountMonotone<T>(rows: seq<T>, p: T -> bool, q: T -> bool)
    requires forall r :: p(r) ==> q(r)
    ensures Count(rows, p) <= Count(rows, q)
  {
    if |rows| > 0 {
      CountMonotone(rows[1..], p, q);
    }
  }

  /** Inclusion and exclusion: a row satisfying both predicates is counted once in the
      disjunction and twice in the two separate counts. */
  lemma {:induction false} CountInclusionExclusion<T>(rows: seq<T>, p: T -> bool, q: T -> bool,
      either: T -> bool, both: T -> bool)
    requires forall r :: either(r) == (p(r) || q(r))
    requires forall r :: both(r) == (p(r) && q(r))
    ensures Count(rows, p) + Count(rows, q) == Count(rows, either) + Count(rows, both)
  {
    if |rows| > 0 {
      CountInclusionExclusion(rows[1..], p, q, either, both);
    }
  }

  /** Splitting the rows of `p` by a second predicate `s` partitions the count. */
  lemma CountPartition<T>(rows: seq<T>, p: T -> bool, yes: T -> bool, no: T -> bool, s: T -> bool)
    requires forall r :: yes(r) == (p(r) && s(r))
    requires forall r :: no(r) == (p(r) && !s(r))
    ensures Count(rows, yes) + Count(rows, no) == Count(rows, p)
  {
    var never := (r: T) => false;
    CountInclusionExclusion(rows, yes, no, p, never);
  }

  // ---------------------------------------------------------------------------------------
  // The largest value of a column

  /** `SELECT max(column) WHERE p`: the largest non-null value over the matching rows; `None`
      when no matching row has a value. */
  function MaxOf<T>(rows: seq<T>, column: T -> Option<int>, p: T -> bool): (m: Option<int>)
    ensures m.None? <==> forall i :: 0 <= i < |rows| && p(rows[i]) ==> column(rows[i]).None?
    ensures m.Some? ==> exists i :: 0 <= i < |rows| && p(rows[i]) && column(rows[i]) == m
    ensures m.Some? ==>
              forall i :: 0 <= i < |rows| && p(rows[i]) && column(rows[i]).Some?
                ==> column(rows[i]).value <= m.value
  {
    if |rows| == 0 then None
    else
      var rest := MaxOf(rows[1..], column, p);
      assert forall i :: 1 <= i < |rows| ==> rows[1..][i - 1] == rows[i];
      var here := if p(rows[0]) then column(rows[0]) else None;
      if here.None? then rest
      else if rest.None? || rest.value <= here.value then here
      else rest
  }

  /** A row that does not match never moves the maximum, wherever it stands. */
  lemma {:induction false} MaxOfSkips<T>(t1: seq<T>, x: T, t2: seq<T>, column: T -> Option<int>,
      p: T -> bool)
    requires !p(x)
    ensures MaxOf(t1 + [x] + t2, column, p) == MaxOf(t1 + t2, column, p)
  {
    var a, b := t1 + [x] + t2, t1 + t2;
    if |t1| == 0 {
      assert a[0] == x && a[1..] == t2 == b;
    } else {
      assert a[0] == b[0] == t1[0];
      assert a[1..] == t1[1..] + [x] + t2 && b[1..] == t1[1..] + t2;
      MaxOfSkips(t1[1..], x, t2, column, p);
    }
  }

  // ---------------------------------------------------------------------------------------
  // Selecting rows

  /** The rows that satisfy `p`, in their order. */
  function Filter<T>(rows: seq<T>, p: T -> bool): (r: seq<T>)
    ensures |r| == Count(rows, p)
    ensures forall k :: 0 <= k < |r| ==> p(r[k])
    ensures forall k :: 0 <= k < |r| ==> r[k] in rows
    ensures forall k :: 0 <= k < |rows| && p(rows[k]) ==> rows[k] in r
  {
    if |rows| == 0 then []
    else (if p(rows[0]) then [rows[0]] else []) + Filter(rows[1..], p)
  }

  lemma {:induction false} FilterCongruent<T>(rows: seq<T>, p: T -> bool, q: T -> bool)
    requires forall r :: p(r) == q(r)
    ensures Filter(rows, p) == Filter(rows, q)
  {
    if |rows| > 0 {
      FilterCongruent(rows[1..], p, q);
    }
  }

  lemma FilterCons<T>(x: T, rows: seq<T>, p: T -> bool)
    ensures Filter([x] + rows, p) == (if p(x) then [x] else []) + Filter(rows, p)
  {
    assert ([x] + rows)[1..] == rows;
  }

  lemma {:induction false} FilterAppend<T>(t1: seq<T>, t2: seq<T>, p: T -> bool)
    ensures Filter(t1 + t2, p) == Filter(t1, p) + Filter(t2, p)
  {
    if |t1| > 0 {
      assert (t1 + t2)[1..] == t1[1..] + t2;
      FilterAppend(t1[1..], t2, p);
    } else {
      assert t1 + t2 == t2;
    }
  }

  /** Selecting twice is selecting by both predicates. */
  lemma {:induction false} FilterFilter<T>(rows: seq<T>, p: T -> bool, q: T -> bool, both: T -> bool)
    requires forall r :: both(r) == (p(r) && q(r))
    ensures Filter(Filter(rows, p), q) == Filter(rows, both)
  {
    if |rows| > 0 {
      FilterFilter(rows[1..], p, q, both);
      var h := if p(rows[0]) then [rows[0]] else [];
      FilterAppend(h, Filter(rows[1..], p), q);
      if p(rows[0]) {
        assert h[1..] == [];
      }
    }
  }

  /** Counting among the selected rows is counting by both predicates. */
  lemma {:induction false} FilterCount<T>(rows: seq<T>, p: T -> bool, q: T -> bool, both: T -> bool)
    requires forall r :: both(r) == (p(r) && q(r))
    ensures Count(Filter(rows, p), q) == Count(rows, both)
  {
    if |rows| > 0 {
      FilterCount(rows[1..], p, q, both);
      var h := if p(rows[0]) then [rows[0]] else [];
      CountAppend(h, Filter(rows[1..], p), q);
      if p(rows[0]) {
        assert h[1..] == [];
      }
    }
  }

  // ---------------------------------------------------------------------------------------
  // Ordering by a key

  /** Ascending by `key`. */
  predicate Sorted<T>(rows: seq<T>, key: T -> int) {
    forall i, j :: 0 <= i < j < |rows| ==> key(rows[i]) <= key(rows[j])
  }

  /** Insert a row before the first row whose key is not smaller. */
  function Insert<T>(x: T, rows: seq<T>, key: T -> int): (r: seq<T>)
    ensures multiset(r) == multiset(rows) + multiset{x}
  {
    if |rows| == 0 || key(x) <= key(rows[0]) then [x] + rows
    else
      assert rows == [rows[0]] + rows[1..];
      [rows[0]] + Insert(x, rows[1..], key)
  }

  lemma SortedTail<T>(rows: seq<T>, key: T -> int)
    requires Sorted(rows, key) && |rows| > 0
    ensures Sorted(rows[1..], key)
  {
    forall i, j | 0 <= i < j < |rows| - 1 ensures key(rows[1..][i]) <= key(rows[1..][j]) {
      assert rows[1..][i] == rows[i + 1] && rows[1..][j] == rows[j + 1];
    }
  }

  /** A row whose key is at most every key of an ordered sequence can go in front of it. */
  lemma PrependSorted<T>(x: T, rows: seq<T>, key: T -> int)
    requires Sorted(rows, key)
    requires forall k :: 0 <= k < |rows| ==> key(x) <= key(rows[k])
    ensures Sorted([x] + rows, key)
  {
    var r := [x] + rows;
    forall i, j | 0 <= i < j < |r| ensures key(r[i]) <= key(r[j]) {
      assert r[j] == rows[j - 1];
      if i > 0 {
        assert r[i] == rows[i - 1];
      }
    }
  }

  /** Inserting into an ordered sequence keeps it ordered. */
  lemma {:induction false} InsertSorted<T>(x: T, rows: seq<T>, key: T -> int)
    requires Sorted(rows, key)
    ensures Sorted(Insert(x, rows, key), key)
  {
    if |rows| == 0 || key(x) <= key(rows[0]) {
      assert forall k :: 0 <= k < |rows| ==> key(rows[0]) <= key(rows[k]);
      PrependSorted(x, rows, key);
    } else {
      var y, tail := rows[0], rows[1..];
      SortedTail(rows, key);
      InsertSorted(x, tail, key);
      var t := Insert(x, tail, key);
      forall k | 0 <= k < |t| ensures key(y) <= key(t[k]) {
        var z := t[k];
        assert z in multiset(t);
        if z != x {
          assert z in multiset(tail);
          var m :| 0 <= m < |tail| && tail[m] == z;
          assert tail[m] == rows[m + 1];
        }
      }
      PrependSorted(y, t, key);
    }
  }

  /** `ORDER BY key ASC`, as a stable insertion sort: rows with equal keys keep their order. */
  function Sort<T>(rows: seq<T>, key: T -> int): (r: seq<T>)
    ensures multiset(r) == multiset(rows)
    ensures |r| == |rows|
    ensures Sorted(r, key)
  {
    if |rows| == 0 then []
    else
      assert rows == [rows[0]] + rows[1..];
      InsertSorted(rows[0], Sort(rows[1..], key), key);
      Insert(rows[0], Sort(rows[1..], key), key)
  }

  /** Inserting before every row whose key is not smaller is prepending. */
  lemma InsertFront<T>(x: T, rows: seq<T>, key: T -> int)
    requires |rows| == 0 || key(x) <= key(rows[0])
    ensures Insert(x, rows, key) == [x] + rows
  {
  }

  /** The first selected row of an ordered sequence has a key no smaller than the first row. */
  lemma FilterHeadKey<T>(rows: seq<T>, key: T -> int, p: T -> bool)
    requires Sorted(rows, key) && |Filter(rows, p)| > 0
    ensures |rows| > 0 && key(rows[0]) <= key(Filter(rows, p)[0])
  {
    var fr := Filter(rows, p);
    assert fr[0] in rows;
    var k :| 0 <= k < |rows| && rows[k] == fr[0];
  }

  lemma FilterInsertFront<T>(x: T, rows: seq<T>, key: T -> int, p: T -> bool)
    requires Sorted(rows, key)
    requires |rows| == 0 || key(x) <= key(rows[0])
    ensures Filter(Insert(x, rows, key), p)
      == if p(x) then Insert(x, Filter(rows, p), key) else Filter(rows, p)
  {
    var fr := Filter(rows, p);
    InsertFront(x, rows, key);
    FilterCons(x, rows, p);
    if p(x) {
      if |fr| > 0 {
        FilterHeadKey(rows, key, p);
      }
      InsertFront(x, fr, key);
    } else {
      assert [] + fr == fr;
    }
  }

  /** Selecting commutes with inserting into an ordered sequence. */
  lemma {:induction false} FilterInsert<T>(x: T, rows: seq<T>, key: T -> int, p: T -> bool)
    requires Sorted(rows, key)
    ensures Filter(Insert(x, rows, key), p)
      == if p(x) then Insert(x, Filter(rows, p), key) else Filter(rows, p)
  {
    if |rows| == 0 || key(x) <= key(rows[0]) {
      FilterInsertFront(x, rows, key, p);
    } else {
      var y, tail := rows[0], rows[1..];
      assert rows == [y] + tail;
      var it := Insert(x, tail, key);
      assert Insert(x, rows, key) == [y] + it;
      SortedTail(rows, key);
      FilterInsert(x, tail, key, p);
      FilterCons(y, it, p);
      FilterCons(y, tail, p);
      var ft := Filter(tail, p);
      var hy := if p(y) then [y] else [];
      assert Filter(rows, p) == hy + ft;
      assert Filter(Insert(x, rows, key), p) == hy + Filter(it, p);
      if p(x) {
        if p(y) {
          assert ([y] + ft)[1..] == ft;
          assert Insert(x, [y] + ft, key) == [y] + Insert(x, ft, key);
        } else {
          assert hy + ft == ft;
        }
      } else {
        assert hy + ft == Filter(rows, p);
      }
    }
  }

  /** Selecting commutes with the stable ordering. */
  lemma {:induction false} FilterSort<T>(rows: seq<T>, key: T -> int, p: T -> bool)
    ensures Filter(Sort(rows, key), p) == Sort(Filter(rows, p), key)
  {
    if |rows| > 0 {
      var x, tail := rows[0], rows[1..];
      assert rows == [x] + tail;
      var st := Sort(tail, key);
      assert Sort(rows, key) == Insert(x, st, key);
      FilterSort(tail, key, p);
      FilterInsert(x, st, key, p);
      FilterCons(x, tail, p);
      var ft := Filter(tail, p);
      if p(x) {
        assert Filter(rows, p) == [x] + ft;
        assert ([x] + ft)[1..] == ft;
        assert Sort(Filter(rows, p), key) == Insert(x, Sort(ft, key), key);
      } else {
        assert Filter(rows, p) == [] + ft;
        assert [] + ft == ft;
      }
    }
  }

  // ---------------------------------------------------------------------------------------
  // Grouping by a key

  /** The distinct keys of the rows, in order of first appearance from the end. */
  function Keys<T(!new), K(==)>(rows: seq<T>, key: T -> K): (ks: seq<K>)
    ensures forall i, j :: 0 <= i < j < |ks| ==> ks[i] != ks[j]
    ensures forall k :: 0 <= k < |ks| ==> exists j :: 0 <= j < |rows| && key(rows[j]) == ks[k]
    ensures forall j :: 0 <= j < |rows| ==> key(rows[j]) in ks
  {
    if |rows| == 0 then []
    else
      var rest := Keys(rows[1..], key);
      assert forall j :: 1 <= j < |rows| ==> rows[1..][j - 1] == rows[j];
      if key(rows[0]) in rest then rest else [key(rows[0])] + rest
  }

  /** `key = c`. */
  function Has<T(!new), K(==)>(key: T -> K, c: K): (p: T -> bool)
    ensures forall r :: p(r) == (key(r) == c)
  {
    (r: T) => key(r) == c
  }

  /** `GROUP BY key` over the listed keys: one (key, count) pair per key. */
  function Groups<T(!new), K(==)>(rows: seq<T>, key: T -> K, ks: seq<K>): (groups: seq<(K, nat)>)
    ensures |groups| == |ks|
    ensures forall k :: 0 <= k < |groups| ==>
              groups[k].0 == ks[k] && groups[k].1 == Count(rows, Has(key, ks[k]))
  {
    if |ks| == 0 then []
    else [(ks[0], Count(rows, Has(key, ks[0])))] + Groups(rows, key, ks[1..])
  }

  /** The sum of the counts. */
  function GroupTotal<K>(groups: seq<(K, nat)>): (total: nat) {
    if |groups| == 0 then 0 else groups[0].1 + GroupTotal(groups[1..])
  }

  lemma {:induction false} GroupTotalEmpty<T(!new), K>(key: T -> K, ks: seq<K>)
    ensures GroupTotal(Groups([], key, ks)) == 0
  {
    if |ks| > 0 {
      GroupTotalEmpty(key, ks[1..]);
    }
  }

  lemma {:induction false} GroupTotalCons<T(!new), K>(x: T, rows: seq<T>, key: T -> K, ks: seq<K>)
    requires forall i, j :: 0 <= i < j < |ks| ==> ks[i] != ks[j]
    ensures GroupTotal(Groups([x] + rows, key, ks))
      == GroupTotal(Groups(rows, key, ks)) + (if key(x) in ks then 1 else 0)
  {
    if |ks| > 0 {
      GroupTotalCons(x, rows, key, ks[1..]);
      assert ([x] + rows)[1..] == rows;
      if key(x) == ks[0] {
        assert key(x) !in ks[1..];
      }
    }
  }

  /** Groups over keys that cover every row, none listed twice, count every row once. */
  lemma {:induction false} GroupTotalCovers<T(!new), K>(rows: seq<T>, key: T -> K, ks: seq<K>)
    requires forall i, j :: 0 <= i < j < |ks| ==> ks[i] != ks[j]
    requires forall j :: 0 <= j < |rows| ==> key(rows[j]) in ks
    ensures GroupTotal(Groups(rows, key, ks)) == |rows|
  {
    if |rows| == 0 {
      GroupTotalEmpty(key, ks);
    } else {
      assert rows == [rows[0]] + rows[1..];
      GroupTotalCovers(rows[1..], key, ks);
      GroupTotalCons(rows[0], rows[1..], key, ks);
    }
  }

  /** Grouping by the distinct keys: one group per key that occurs, one for each key that
      occurs, none empty, and the counts add up to the number of rows. */
  lemma GroupsPartition<T(!new), K>(rows: seq<T>, key: T -> K)
    ensures var groups := Groups(rows, key, Keys(rows, key));
            forall i, j :: 0 <= i < j < |groups| ==> groups[i].0 != groups[j].0
    ensures var groups := Groups(rows, key, Keys(rows, key));
            forall k :: 0 <= k < |groups| ==>
              exists j :: 0 <= j < |rows| && key(rows[j]) == groups[k].0
    ensures var groups := Groups(rows, key, Keys(rows, key));
            forall j :: 0 <= j < |rows| ==>
              exists k :: 0 <= k < |groups| && groups[k].0 == key(rows[j])
    ensures var groups := Groups(rows, key, Keys(rows, key));
            forall k :: 0 <= k < |groups| ==> groups[k].1 > 0
    ensures GroupTotal(Groups(rows, key, Keys(rows, key))) == |rows|
  {
    var ks := Keys(rows, key);
    var groups := Groups(rows, key, ks);
    forall k | 0 <= k < |groups| ensures groups[k].1 > 0 {
      GroupNonEmpty(rows, key, ks, k);
    }
    forall j | 0 <= j < |rows|
      ensures exists k :: 0 <= k < |groups| && groups[k].0 == key(rows[j])
    {
      var k := IndexOf(ks, key(rows[j]));
      assert groups[k].0 == key(rows[j]);
    }
    GroupTotalCovers(rows, key, ks);
  }

  /** A group of a key that occurs is not empty. */
  lemma GroupNonEmpty<T(!new), K>(rows: seq<T>, key: T -> K, ks: seq<K>, k: int)
    requires 0 <= k < |ks|
    requires exists j :: 0 <= j < |rows| && key(rows[j]) == ks[k]
    ensures Groups(rows, key, ks)[k].1 > 0
  {
    var j :| 0 <= j < |rows| && key(rows[j]) == ks[k];
    assert Has(key, ks[k])(rows[j]);
    CountZero(rows, Has(key, ks[k]));
  }

  /** An index at which a member of a sequence stands. */
  lemma IndexOf<K>(ks: seq<K>, c: K) returns (k: int)
    requires c in ks
    ensures 0 <= k < |ks| && ks[k] == c
  {
    k :| 0 <= k < |ks| && ks[k] == c;
  }
}
