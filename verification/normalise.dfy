/**
 * The `select` option of the board query (src/views/Board/Board.tsx): the
 * board as rendered has its columns sorted by `order` and each column's
 * tasks sorted by `order`. `Array.prototype.sort` is stable, so the sort is
 * modelled by a stable insertion sort, and `StableSortUnique` shows that any
 * stable sort by the same key gives the same sequence.
 */
module Normalise {
  import opened Entities

  predicate SortedBy<T>(s: seq<T>, key: T -> int) {
    forall i, j :: 0 <= i < j < |s| ==> key(s[i]) <= key(s[j])
  }

  /** The elements whose key is k, in their order of appearance. */
  function KeyFilter<T>(s: seq<T>, key: T -> int, k: int): (r: seq<T>)
  {
    if s == [] then []
    else (if key(s[0]) == k then [s[0]] else []) + KeyFilter(s[1..], key, k)
  }

  /** Puts x before the first element whose key is not smaller than its own. */
  function Insert<T>(x: T, s: seq<T>, key: T -> int): seq<T> {
    if s == [] || key(x) <= key(s[0]) then [x] + s
    else [s[0]] + Insert(x, s[1..], key)
  }

  /** Inserting into a sorted sequence keeps it sorted; the head is x or the old head. */
  lemma {:induction false} InsertSorted<T>(x: T, s: seq<T>, key: T -> int)
    requires SortedBy(s, key)
    ensures var r := Insert(x, s, key);
      |r| == |s| + 1 && (r[0] == x || (s != [] && r[0] == s[0])) && SortedBy(r, key)
  {
    if s != [] && key(x) > key(s[0]) {
      var tail := Insert(x, s[1..], key);
      InsertSorted(x, s[1..], key);
      var r := [s[0]] + tail;
      assert key(s[0]) <= key(tail[0]);
      forall i, j | 0 <= i < j < |r| ensures key(r[i]) <= key(r[j]) {
        assert r[j] == tail[j - 1];
        if i == 0 {
          assert key(tail[0]) <= key(tail[j - 1]);
        } else {
          assert r[i] == tail[i - 1];
        }
      }
    }
  }

  /** Inserting adds exactly x. */
  lemma {:induction false} InsertPermutes<T>(x: T, s: seq<T>, key: T -> int)
    ensures multiset(Insert(x, s, key)) == multiset(s) + multiset{x}
  {
    if s != [] && key(x) > key(s[0]) {
      InsertPermutes(x, s[1..], key);
      assert s == [s[0]] + s[1..];
    }
  }

  /** The stable sort `[...s].sort((a, b) => key(a) - key(b))`. */
  function SortBy<T>(s: seq<T>, key: T -> int): (r: seq<T>)
    ensures SortedBy(r, key)
    ensures multiset(r) == multiset(s)
    ensures |r| == |s|
  {
    if s == [] then []
    else
      var t := SortBy(s[1..], key);
      var r := Insert(s[0], t, key);
      InsertSorted(s[0], t, key);
      InsertPermutes(s[0], t, key);
      assert s == [s[0]] + s[1..];
      r
  }

  lemma FilterCons<T>(x: T, s: seq<T>, key: T -> int, k: int)
    ensures KeyFilter([x] + s, key, k) == (if key(x) == k then [x] else []) + KeyFilter(s, key, k)
  {
    assert ([x] + s)[0] == x && ([x] + s)[1..] == s;
  }

  /** Inserting x adds it to the elements of its key, in front of them. */
  lemma {:induction false} InsertFilter<T>(x: T, s: seq<T>, key: T -> int, k: int)
    ensures KeyFilter(Insert(x, s, key), key, k) == (if key(x) == k then [x] else []) + KeyFilter(s, key, k)
  {
    if s == [] || key(x) <= key(s[0]) {
      FilterCons(x, s, key, k);
    } else {
      InsertFilter(x, s[1..], key, k);
      FilterCons(s[0], Insert(x, s[1..], key), key, k);
      FilterCons(s[0], s[1..], key, k);
      assert s == [s[0]] + s[1..];
    }
  }

  /** Stability: for every key, the elements with that key keep their input order. */
  lemma {:induction false} SortStable<T>(s: seq<T>, key: T -> int, k: int)
    ensures KeyFilter(SortBy(s, key), key, k) == KeyFilter(s, key, k)
  {
    if s != [] {
      SortStable(s[1..], key, k);
      InsertFilter(s[0], SortBy(s[1..], key), key, k);
    }
  }

  /** Sorting data that is already sorted leaves it as it is. */
  lemma {:induction false} SortOfSorted<T>(s: seq<T>, key: T -> int)
    requires SortedBy(s, key)
    ensures SortBy(s, key) == s
  {
    if s != [] {
      SortOfSorted(s[1..], key);
      assert [s[0]] + s[1..] == s;
    }
  }

  /** The filter for the key of the first element holds that element first. */
  lemma FilterOfHeadKey<T>(s: seq<T>, key: T -> int)
    requires s != []
    ensures KeyFilter(s, key, key(s[0])) != [] && KeyFilter(s, key, key(s[0]))[0] == s[0]
  {
  }

  /** Every element of a filter is an element of the sequence with that key. */
  lemma {:induction false} FilterMember<T>(s: seq<T>, key: T -> int, k: int, i: nat)
    requires i < |KeyFilter(s, key, k)|
    ensures exists j :: 0 <= j < |s| && s[j] == KeyFilter(s, key, k)[i] && key(s[j]) == k
  {
    if s != [] {
      FilterCons(s[0], s[1..], key, k);
      assert s == [s[0]] + s[1..];
      if key(s[0]) == k {
        if i > 0 {
          FilterMember(s[1..], key, k, i - 1);
          var j :| 0 <= j < |s[1..]| && s[1..][j] == KeyFilter(s[1..], key, k)[i - 1] && key(s[1..][j]) == k;
          assert s[j + 1] == KeyFilter(s, key, k)[i];
        }
      } else {
        FilterMember(s[1..], key, k, i);
        var j :| 0 <= j < |s[1..]| && s[1..][j] == KeyFilter(s[1..], key, k)[i] && key(s[1..][j]) == k;
        assert s[j + 1] == KeyFilter(s, key, k)[i];
      }
    }
  }

  /** The smallest key of a sorted sequence is at most that of any sequence with the same filters. */
  lemma HeadKeyAtMost<T>(a: seq<T>, b: seq<T>, key: T -> int)
    requires SortedBy(a, key) && a != [] && b != []
    requires KeyFilter(a, key, key(b[0])) == KeyFilter(b, key, key(b[0]))
    ensures key(a[0]) <= key(b[0])
  {
    var kb := key(b[0]);
    FilterCons(b[0], b[1..], key, kb);
    assert b == [b[0]] + b[1..];
    var fa := KeyFilter(a, key, kb);
    assert fa[0] == b[0];
    FilterMember(a, key, kb, 0);
    var ia :| 0 <= ia < |a| && a[ia] == fa[0];
    if ia > 0 {
      assert key(a[0]) <= key(a[ia]);
    }
  }

  /** Two sorted sequences with the same elements per key, in the same order, are equal. */
  lemma {:induction false} SortedFiltersDetermine<T>(a: seq<T>, b: seq<T>, key: T -> int)
    requires SortedBy(a, key) && SortedBy(b, key)
    requires forall k :: KeyFilter(a, key, k) == KeyFilter(b, key, k)
    ensures a == b
    decreases |a|
  {
    if a == [] || b == [] {
      var c := if a == [] then b else a;
      if c != [] {
        FilterOfHeadKey(c, key);
      }
    } else {
      HeadKeyAtMost(a, b, key);
      HeadKeyAtMost(b, a, key);
      var ka := key(a[0]);
      assert key(b[0]) == ka;
      assert KeyFilter(a, key, ka) == [a[0]] + KeyFilter(a[1..], key, ka);
      assert KeyFilter(b, key, ka) == [b[0]] + KeyFilter(b[1..], key, ka);
      assert KeyFilter(a, key, ka) == KeyFilter(b, key, ka);
      assert a[0] == KeyFilter(a, key, ka)[0] == KeyFilter(b, key, ka)[0] == b[0];
      forall k ensures KeyFilter(a[1..], key, k) == KeyFilter(b[1..], key, k) {
        assert KeyFilter(a, key, k) == KeyFilter(b, key, k);
        var pa := if key(a[0]) == k then [a[0]] else [];
        assert KeyFilter(a, key, k) == pa + KeyFilter(a[1..], key, k);
        assert KeyFilter(b, key, k) == pa + KeyFilter(b[1..], key, k);
        assert KeyFilter(a[1..], key, k) == (pa + KeyFilter(a[1..], key, k))[|pa|..];
        assert KeyFilter(b[1..], key, k) == (pa + KeyFilter(b[1..], key, k))[|pa|..];
      }
      SortedFiltersDetermine(a[1..], b[1..], key);
    }
  }

  /**
   * Any sorted sequence that lists the elements of each key in their input
   * order is exactly `SortBy(s, key)`: the model agrees with every stable
   * sort, `Array.prototype.sort` included.
   */
  lemma StableSortUnique<T>(s: seq<T>, t: seq<T>, key: T -> int)
    requires SortedBy(t, key)
    requires forall k :: KeyFilter(t, key, k) == KeyFilter(s, key, k)
    ensures t == SortBy(s, key)
  {
    forall k ensures KeyFilter(t, key, k) == KeyFilter(SortBy(s, key), key, k) {
      SortStable(s, key, k);
    }
    SortedFiltersDetermine(t, SortBy(s, key), key);
  }

  function TaskKey(t: Task): int { t.order }

  function ColumnKey(c: Column): int { c.order }

  /** `{ ...column, tasks: [...column.tasks].sort(byOrder) }` */
  function WithSortedTasks(c: Column): (r: Column)
    ensures r.(tasks := c.tasks) == c
    ensures SortedBy(r.tasks, TaskKey) && multiset(r.tasks) == multiset(c.tasks)
  {
    c.(tasks := SortBy(c.tasks, TaskKey))
  }

  function SortEachColumn(cs: seq<Column>): (r: seq<Column>)
    ensures |r| == |cs| && forall i :: 0 <= i < |cs| ==> r[i] == WithSortedTasks(cs[i])
  {
    seq(|cs|, i requires 0 <= i < |cs| => WithSortedTasks(cs[i]))
  }

  /** True when the board is already in the order `Select` produces. */
  predicate Normalised(b: Board) {
    SortedBy(b.columns, ColumnKey) && forall i :: 0 <= i < |b.columns| ==> SortedBy(b.columns[i].tasks, TaskKey)
  }

  /**
   * The board as rendered: columns sorted by order, each column's tasks
   * sorted by order, nothing added or dropped, id, title and description
   * kept.
   */
  function Select(b: Board): (r: Board)
    ensures r.(columns := b.columns) == b
    ensures |r.columns| == |b.columns|
    ensures multiset(r.columns) == multiset(SortEachColumn(b.columns))
    ensures Normalised(r)
  {
    var cols := SortBy(SortEachColumn(b.columns), ColumnKey);
    assert forall i :: 0 <= i < |cols| ==> SortedBy(cols[i].tasks, TaskKey) by {
      forall i | 0 <= i < |cols| ensures SortedBy(cols[i].tasks, TaskKey) {
        assert cols[i] in multiset(SortEachColumn(b.columns));
      }
    }
    b.(columns := cols)
  }

  /** Each rendered column is some input column with its tasks sorted. */
  lemma SelectColumnOrigin(b: Board, i: nat)
    requires i < |b.columns|
    ensures exists j :: 0 <= j < |b.columns| && Select(b).columns[i] == WithSortedTasks(b.columns[j])
  {
    var r := Select(b);
    assert r.columns[i] in multiset(SortEachColumn(b.columns));
    var j :| 0 <= j < |b.columns| && SortEachColumn(b.columns)[j] == r.columns[i];
  }

  /** Columns that share an order, and tasks of a column that share an order, keep their input order. */
  lemma SelectStable(b: Board, k: int)
    ensures KeyFilter(Select(b).columns, ColumnKey, k) == KeyFilter(SortEachColumn(b.columns), ColumnKey, k)
    ensures forall i :: 0 <= i < |b.columns| ==>
      KeyFilter(WithSortedTasks(b.columns[i]).tasks, TaskKey, k) == KeyFilter(b.columns[i].tasks, TaskKey, k)
  {
    SortStable(SortEachColumn(b.columns), ColumnKey, k);
    forall i | 0 <= i < |b.columns|
      ensures KeyFilter(WithSortedTasks(b.columns[i]).tasks, TaskKey, k) == KeyFilter(b.columns[i].tasks, TaskKey, k)
    {
      SortStable(b.columns[i].tasks, TaskKey, k);
    }
  }

  /** Selecting data that is already sorted returns it unchanged. */
  lemma SelectOfNormalised(b: Board)
    requires Normalised(b)
    ensures Select(b) == b
  {
    forall i | 0 <= i < |b.columns| ensures WithSortedTasks(b.columns[i]) == b.columns[i] {
      SortOfSorted(b.columns[i].tasks, TaskKey);
    }
    assert SortEachColumn(b.columns) == b.columns;
    SortOfSorted(b.columns, ColumnKey);
  }

  /** Selecting twice is selecting once. */
  lemma SelectIdempotent(b: Board)
    ensures Select(Select(b)) == Select(b)
  {
    SelectOfNormalised(Select(b));
  }
}
