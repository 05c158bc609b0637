/** The array operations the store and the views apply to rows:
    `filter`, `find` by a key, `map` replacing the rows a key selects, and a
    sort by an integer key. */
module Rows {
  import opened JsValues

  /** `row[key] === v` */
  predicate HasKey(row: Obj, key: string, v: Val)
  {
    StrictEq(Get(row, key), v)
  }

  /** `rows.filter(keep)`: the rows `keep` accepts, in their order. */
  function Filter(rows: seq<Obj>, keep: Obj -> bool): (r: seq<Obj>)
    ensures |r| <= |rows|
  {
    if rows == [] then []
    else (if keep(rows[0]) then [rows[0]] else []) + Filter(rows[1..], keep)
  }

  /** The rows kept are exactly the rows `keep` accepts. */
  lemma {:induction false} FilterMembers(rows: seq<Obj>, keep: Obj -> bool)
    ensures forall x :: x in Filter(rows, keep) <==> x in rows && keep(x)
  {
    if rows != [] {
      FilterMembers(rows[1..], keep);
      assert rows == [rows[0]] + rows[1..];
    }
  }

  /** Filtering a concatenation filters each part: the order of the kept
      rows is their order in the input. */
  lemma {:induction false} FilterAppend(a: seq<Obj>, b: seq<Obj>, keep: Obj -> bool)
    ensures Filter(a + b, keep) == Filter(a, keep) + Filter(b, keep)
  {
    if a != [] {
      FilterAppend(a[1..], b, keep);
      assert (a + b)[0] == a[0] && (a + b)[1..] == a[1..] + b;
      var head := if keep(a[0]) then [a[0]] else [];
      assert Filter(a + b, keep) == head + Filter(a[1..] + b, keep) by {
        assert a + b != [];
      }
      assert Filter(a, keep) == head + Filter(a[1..], keep);
      assert head + (Filter(a[1..], keep) + Filter(b, keep)) == (head + Filter(a[1..], keep)) + Filter(b, keep);
    } else {
      assert a + b == b;
    }
  }

  /** Each row is kept as often as it occurs, or dropped altogether. */
  lemma {:induction false} FilterCount(rows: seq<Obj>, keep: Obj -> bool, x: Obj)
    ensures multiset(Filter(rows, keep))[x] == if keep(x) then multiset(rows)[x] else 0
  {
    if rows != [] {
      FilterCount(rows[1..], keep, x);
      MultisetCons(rows);
      var head := if keep(rows[0]) then [rows[0]] else [];
      assert multiset(Filter(rows, keep)) == multiset(head) + multiset(Filter(rows[1..], keep));
    }
  }

  /** Filtering only drops rows: no row occurs more often than before. */
  lemma FilterSubMultiset(rows: seq<Obj>, keep: Obj -> bool)
    ensures multiset(Filter(rows, keep)) <= multiset(rows)
  {
    forall x ensures multiset(Filter(rows, keep))[x] <= multiset(rows)[x] {
      FilterCount(rows, keep, x);
    }
  }

  lemma MultisetCons(rows: seq<Obj>)
    requires rows != []
    ensures multiset(rows) == multiset{rows[0]} + multiset(rows[1..])
  {
    assert rows == [rows[0]] + rows[1..];
  }

  /** A filter that rejects nothing returns its input. */
  lemma {:induction false} FilterKeepsAll(rows: seq<Obj>, keep: Obj -> bool)
    requires forall i :: 0 <= i < |rows| ==> keep(rows[i])
    ensures Filter(rows, keep) == rows
  {
    if rows != [] {
      FilterKeepsAll(rows[1..], keep);
      assert rows == [rows[0]] + rows[1..];
    }
  }

  /** The position of the first row whose `key` is `v`. */
  function FirstIndex(rows: seq<Obj>, key: string, v: Val): (r: Option<nat>)
    ensures r.Some? ==> r.value < |rows| && HasKey(rows[r.value], key, v)
    ensures r.Some? ==> forall j :: 0 <= j < r.value ==> !HasKey(rows[j], key, v)
    ensures r.None? ==> forall j :: 0 <= j < |rows| ==> !HasKey(rows[j], key, v)
  {
    if rows == [] then None
    else if HasKey(rows[0], key, v) then Some(0)
    else match FirstIndex(rows[1..], key, v)
      case None => None
      case Some(i) => Some(i + 1)
  }

  /** Row `j` is the first whose `key` is `v`. */
  predicate IsFirst(rows: seq<Obj>, key: string, v: Val, j: int)
  {
    && 0 <= j < |rows| && HasKey(rows[j], key, v)
    && forall i :: 0 <= i < j ==> !HasKey(rows[i], key, v)
  }

  /** The first match is the one `FirstIndex` reports. */
  lemma FirstIndexIsFirst(rows: seq<Obj>, key: string, v: Val, j: int)
    requires IsFirst(rows, key, v, j)
    ensures FirstIndex(rows, key, v) == Some(j)
  {
    var r := FirstIndex(rows, key, v);
    assert r.Some?;
    assert !(r.value < j);
  }

  /** `rows.find(r => r[key] === v)`: the first such row, `None` for
      `undefined`. */
  function Find(rows: seq<Obj>, key: string, v: Val): (r: Option<Obj>)
    ensures r.None? <==> forall j :: 0 <= j < |rows| ==> !HasKey(rows[j], key, v)
    ensures r.Some? ==> r.value in rows && HasKey(r.value, key, v)
    ensures r.Some? ==> exists j :: IsFirst(rows, key, v, j) && r.value == rows[j]
  {
    match FirstIndex(rows, key, v)
    case None => None
    case Some(i) => Some(rows[i])
  }

  /** `rows.map(r => r[key] === v ? replace(r) : r)`: the same number of
      rows; each selected one is replaced, each other one stays in place. */
  function ReplaceWhere(rows: seq<Obj>, key: string, v: Val, replace: Obj -> Obj): (r: seq<Obj>)
    ensures |r| == |rows|
    ensures forall i :: 0 <= i < |rows| && HasKey(rows[i], key, v) ==> r[i] == replace(rows[i])
    ensures forall i :: 0 <= i < |rows| && !HasKey(rows[i], key, v) ==> r[i] == rows[i]
  {
    if rows == [] then []
    else
      var first := if HasKey(rows[0], key, v) then replace(rows[0]) else rows[0];
      [first] + ReplaceWhere(rows[1..], key, v, replace)
  }

  /** Replacing where no row is selected changes nothing. */
  lemma ReplaceNothing(rows: seq<Obj>, key: string, v: Val, replace: Obj -> Obj)
    requires forall i :: 0 <= i < |rows| ==> !HasKey(rows[i], key, v)
    ensures ReplaceWhere(rows, key, v, replace) == rows
  {
  }

  ghost predicate SortedBy(rows: seq<Obj>, key: Obj -> int)
  {
    forall i, j :: 0 <= i < j < |rows| ==> key(rows[i]) <= key(rows[j])
  }

  /** Places `x` before the first row whose key is not below its own. */
  function InsertBy(x: Obj, rows: seq<Obj>, key: Obj -> int): (r: seq<Obj>)
    ensures multiset(r) == multiset(rows) + multiset{x}
  {
    if rows == [] then [x]
    else if key(x) <= key(rows[0]) then [x] + rows
    else
      assert rows == [rows[0]] + rows[1..];
      [rows[0]] + InsertBy(x, rows[1..], key)
  }

  lemma {:induction false} InsertBySorted(x: Obj, rows: seq<Obj>, key: Obj -> int)
    requires SortedBy(rows, key)
    ensures SortedBy(InsertBy(x, rows, key), key)
  {
    if rows != [] && key(x) > key(rows[0]) {
      InsertBySorted(x, rows[1..], key);
      InsertByLowerBound(x, rows[1..], key, key(rows[0]));
      ConsSortedBy(rows[0], InsertBy(x, rows[1..], key), key);
    }
  }

  /** A lower bound of the keys of `x` and of `rows` bounds the keys after
      the insertion. */
  lemma InsertByLowerBound(x: Obj, rows: seq<Obj>, key: Obj -> int, lo: int)
    requires lo <= key(x) && forall j :: 0 <= j < |rows| ==> lo <= key(rows[j])
    ensures forall j :: 0 <= j < |InsertBy(x, rows, key)| ==> lo <= key(InsertBy(x, rows, key)[j])
  {
    var r := InsertBy(x, rows, key);
    forall j | 0 <= j < |r| ensures lo <= key(r[j]) {
      assert r[j] in multiset(r);
      if r[j] != x {
        assert r[j] in multiset(rows);
        var k :| 0 <= k < |rows| && rows[k] == r[j];
      }
    }
  }

  lemma ConsSortedBy(first: Obj, rest: seq<Obj>, key: Obj -> int)
    requires SortedBy(rest, key) && forall j :: 0 <= j < |rest| ==> key(first) <= key(rest[j])
    ensures SortedBy([first] + rest, key)
  {
    var r := [first] + rest;
    forall i, j | 0 <= i < j < |r| ensures key(r[i]) <= key(r[j]) {
      assert r[j] == rest[j - 1];
      if i > 0 {
        assert r[i] == rest[i - 1];
      }
    }
  }

  /** `rows.sort((a, b) => key(a) - key(b))`: the rows of the input, each as
      often as it occurs, with keys in ascending order. */
  function SortBy(rows: seq<Obj>, key: Obj -> int): (r: seq<Obj>)
    ensures multiset(r) == multiset(rows)
    ensures SortedBy(r, key)
  {
    if rows == [] then []
    else
      assert rows == [rows[0]] + rows[1..];
      var rest := SortBy(rows[1..], key);
      InsertBySorted(rows[0], rest, key);
      InsertBy(rows[0], rest, key)
  }

  /** Inserting `x` leaves the rows of any one key in their order: the rows
      it is placed after all have smaller keys, so none of them shares its key. */
  lemma {:induction false} InsertByFilter(x: Obj, rows: seq<Obj>, key: Obj -> int, same: Obj -> bool, v: int)
    requires forall p :: same(p) <==> key(p) == v
    ensures Filter(InsertBy(x, rows, key), same) == (if same(x) then [x] else []) + Filter(rows, same)
  {
    var hx := if same(x) then [x] else [];
    if rows == [] {
      assert Filter([x], same) == hx + Filter([x][1..], same);
      assert [x][1..] == [];
    } else if key(x) <= key(rows[0]) {
      assert ([x] + rows)[1..] == rows;
      assert Filter([x] + rows, same) == hx + Filter(rows, same);
    } else {
      InsertByFilter(x, rows[1..], key, same, v);
      var h0 := if same(rows[0]) then [rows[0]] else [];
      var r := [rows[0]] + InsertBy(x, rows[1..], key);
      assert r[1..] == InsertBy(x, rows[1..], key);
      assert Filter(r, same) == h0 + (hx + Filter(rows[1..], same));
      assert Filter(rows, same) == h0 + Filter(rows[1..], same);
      assert h0 == [] || hx == [];
    }
  }

  /** The sort is stable: the rows sharing one key come out in the order
      they went in, as `Array.prototype.sort` promises. */
  lemma {:induction false} SortByStable(rows: seq<Obj>, key: Obj -> int, same: Obj -> bool, v: int)
    requires forall p :: same(p) <==> key(p) == v
    ensures Filter(SortBy(rows, key), same) == Filter(rows, same)
  {
    if rows != [] {
      SortByStable(rows[1..], key, same, v);
      InsertByFilter(rows[0], SortBy(rows[1..], key), key, same, v);
    }
  }

  /** Filtering twice is filtering once by both tests. */
  lemma {:induction false} FilterFilter(rows: seq<Obj>, first: Obj -> bool, second: Obj -> bool, both: Obj -> bool)
    requires forall p :: both(p) <==> first(p) && second(p)
    ensures Filter(Filter(rows, first), second) == Filter(rows, both)
  {
    if rows != [] {
      FilterFilter(rows[1..], first, second, both);
      var h := if first(rows[0]) then [rows[0]] else [];
      FilterAppend(h, Filter(rows[1..], first), second);
      if first(rows[0]) {
        assert Filter(h, second) == (if second(rows[0]) then [rows[0]] else []) + Filter(h[1..], second);
        assert h[1..] == [];
      }
    }
  }

  /** Sorting keeps exactly the rows it was given. */
  lemma SortByMembers(rows: seq<Obj>, key: Obj -> int)
    ensures forall p :: p in SortBy(rows, key) <==> p in rows
  {
    var r := SortBy(rows, key);
    forall p ensures p in r <==> p in rows {
      assert p in r <==> p in multiset(r);
      assert p in rows <==> p in multiset(rows);
    }
  }
}
