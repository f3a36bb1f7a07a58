/** The relational queries every model file runs, over a table held as a map
    from auto-increment id to row: WHERE filters (in both id orders), SQL SUM
    with its NULL rules, ORDER BY as a stable sort on a lexicographic key, and
    the order-preserving filter the handlers apply in JavaScript. */
module Tables {
  import opened Common
  import opened Text

  predicate Ascending(s: seq<nat>) {
    forall i, j :: 0 <= i < j < |s| ==> s[i] < s[j]
  }

  predicate Descending(s: seq<nat>) {
    forall i, j :: 0 <= i < j < |s| ==> s[i] > s[j]
  }

  /** `SELECT id ... WHERE keep ORDER BY id`: the ids below n whose row
      satisfies keep, smallest first. */
  function Ids<R>(rows: map<nat, R>, n: nat, keep: (nat, R) -> bool): (r: seq<nat>)
    ensures forall k :: k in r <==> k < n && k in rows && keep(k, rows[k])
    ensures Ascending(r)
    ensures |r| <= n
    decreases n
  {
    if n == 0 then []
    else
      var prev := Ids(rows, n - 1, keep);
      forall i | 0 <= i < |prev| ensures prev[i] < n - 1 {
        assert prev[i] in prev;
      }
      if n - 1 in rows && keep(n - 1, rows[n - 1]) then prev + [n - 1] else prev
  }

  /** The same selection, newest (largest id) first. */
  function IdsDesc<R>(rows: map<nat, R>, n: nat, keep: (nat, R) -> bool): (r: seq<nat>)
    ensures forall k :: k in r <==> k < n && k in rows && keep(k, rows[k])
    ensures Descending(r)
    ensures |r| <= n
    decreases n
  {
    if n == 0 then []
    else
      var prev := IdsDesc(rows, n - 1, keep);
      forall i | 0 <= i < |prev| ensures prev[i] < n - 1 {
        assert prev[i] in prev;
      }
      if n - 1 in rows && keep(n - 1, rows[n - 1]) then [n - 1] + prev else prev
  }

  /** The selected column of each listed row, in the order of the ids. */
  function Column<R, T(!new)>(rows: map<nat, R>, ids: seq<nat>, f: (nat, R) -> T): (r: seq<T>)
    requires forall k :: k in ids ==> k in rows
    ensures |r| == |ids|
    ensures forall i :: 0 <= i < |ids| ==> r[i] == f(ids[i], rows[ids[i]])
    ensures forall x :: x in r <==> exists k :: k in ids && x == f(k, rows[k])
  {
    var r := seq(|ids|, i requires 0 <= i < |ids| => f(ids[i], rows[ids[i]]));
    assert forall x :: x in r ==> exists k :: k in ids && x == f(k, rows[k]) by {
      forall x | x in r ensures exists k :: k in ids && x == f(k, rows[k]) {
        var i :| 0 <= i < |r| && r[i] == x;
        assert ids[i] in ids;
      }
    }
    assert forall k :: k in ids ==> f(k, rows[k]) in r by {
      forall k | k in ids ensures f(k, rows[k]) in r {
        var i :| 0 <= i < |ids| && ids[i] == k;
        assert r[i] == f(k, rows[k]);
      }
    }
    r
  }

  /** The distinct values of a column over a selection are the set that
      describes them row by row. */
  lemma ColumnSet<R, T(!new)>(rows: map<nat, R>, n: nat, keep: (nat, R) -> bool, f: (nat, R) -> T, values: set<T>)
    requires forall k :: k in rows ==> k < n
    requires forall x :: x in values <==> exists k :: k in rows && keep(k, rows[k]) && x == f(k, rows[k])
    ensures forall x :: x in Column(rows, Ids(rows, n, keep), f) <==> x in values
  {
    var ids := Ids(rows, n, keep);
    var col := Column(rows, ids, f);
    forall x | x in values ensures x in col {
      var k :| k in rows && keep(k, rows[k]) && x == f(k, rows[k]);
      assert k in ids;
    }
  }

  /** COUNT(DISTINCT f) over a selection is the size of the set that
      describes the values row by row. */
  lemma DistinctColumnCount<R, T(!new)>(rows: map<nat, R>, n: nat, keep: (nat, R) -> bool, f: (nat, R) -> T,
                                        values: set<T>)
    requires forall k :: k in rows ==> k < n
    requires forall x :: x in values <==> exists k :: k in rows && keep(k, rows[k]) && x == f(k, rows[k])
    ensures |Dedup(Column(rows, Ids(rows, n, keep), f))| == |values|
  {
    var col := Column(rows, Ids(rows, n, keep), f);
    DedupCount(col);
    ColumnSet(rows, n, keep, f, values);
    assert Elements(col) == values;
  }

  /** `SELECT ... WHERE keep LIMIT 1` on a key that at most one row matches:
      the matching row with the smallest id, or nothing. */
  function First<R>(rows: map<nat, R>, n: nat, keep: (nat, R) -> bool): (r: Option<nat>)
    ensures r.Some? ==> r.value < n && r.value in rows && keep(r.value, rows[r.value])
    ensures r.Some? ==> forall k :: k < r.value && k in rows ==> !keep(k, rows[k])
    ensures r.None? <==> forall k :: k < n && k in rows ==> !keep(k, rows[k])
  {
    var ids := Ids(rows, n, keep);
    if ids == [] then None
    else
      assert forall k :: k in ids ==> ids[0] <= k by {
        forall k | k in ids ensures ids[0] <= k {
          var i :| 0 <= i < |ids| && ids[i] == k;
          assert i == 0 || ids[0] < ids[i];
        }
      }
      assert ids[0] in ids;
      Some(ids[0])
  }

  /** A multi-row INSERT: xs[i] gets the id n + i, the existing rows stay. */
  function Append<R>(rows: map<nat, R>, n: nat, xs: seq<R>): (r: map<nat, R>)
    requires forall k :: k in rows ==> k < n
    ensures forall k :: k in r <==> k in rows || n <= k < n + |xs|
    ensures forall k :: k in rows ==> r[k] == rows[k]
    ensures forall k :: n <= k < n + |xs| ==> r[k] == xs[k - n]
  {
    map k | k in rows.Keys + Range(n, n + |xs|) :: if k in rows then rows[k] else xs[k - n]
  }

  /** The ids lo, ..., hi - 1. */
  function Range(lo: nat, hi: nat): (r: set<nat>)
    ensures forall k :: k in r <==> lo <= k < hi
    decreases hi
  {
    if hi <= lo then {} else Range(lo, hi - 1) + {hi - 1}
  }

  /** When, below m, exactly the ids from n on are present and kept, the
      selection is n, ..., m - 1: the rows just appended. */
  lemma {:induction false} IdsFrom<R>(rows: map<nat, R>, n: nat, m: nat, keep: (nat, R) -> bool)
    requires n <= m
    requires forall k :: k < n && k in rows ==> !keep(k, rows[k])
    requires forall k :: n <= k < m ==> k in rows && keep(k, rows[k])
    ensures var r := Ids(rows, m, keep);
      |r| == m - n && forall i :: 0 <= i < |r| ==> r[i] == n + i
    decreases m
  {
    if m == n {
      NoneBelow(rows, n, keep);
    } else {
      IdsFrom(rows, n, m - 1, keep);
      IdsExtend(rows, m, keep);
      CountingUp(Ids(rows, m - 1, keep), n, m - 1);
    }
  }

  /** A kept row at id m - 1 closes the selection below m. */
  lemma IdsExtend<R>(rows: map<nat, R>, m: nat, keep: (nat, R) -> bool)
    requires m > 0 && m - 1 in rows && keep(m - 1, rows[m - 1])
    ensures Ids(rows, m, keep) == Ids(rows, m - 1, keep) + [m - 1]
  {
  }

  /** n, ..., m - 1 followed by m is n, ..., m. */
  lemma CountingUp(s: seq<nat>, n: nat, m: nat)
    requires |s| == m - n && forall i :: 0 <= i < |s| ==> s[i] == n + i
    ensures var r := s + [m];
      |r| == m + 1 - n && forall i :: 0 <= i < |r| ==> r[i] == n + i
  {
  }

  /** When exactly the rows n .. m-1 are kept, the column lists their
      values in id order. */
  lemma ColumnFrom<R, T(!new)>(rows: map<nat, R>, n: nat, m: nat, keep: (nat, R) -> bool, f: (nat, R) -> T,
                               xs: seq<T>)
    requires n <= m && |xs| == m - n
    requires forall k :: k < n && k in rows ==> !keep(k, rows[k])
    requires forall k :: n <= k < m ==> k in rows && keep(k, rows[k]) && f(k, rows[k]) == xs[k - n]
    ensures Column(rows, Ids(rows, m, keep), f) == xs
  {
    IdsFrom(rows, n, m, keep);
    var ids := Ids(rows, m, keep);
    var r := Column(rows, ids, f);
    forall i | 0 <= i < |xs| ensures r[i] == xs[i] {
      assert ids[i] == n + i;
    }
  }

  /** A selection lists each selected id once. */
  lemma IdsCount<R>(rows: map<nat, R>, n: nat, keep: (nat, R) -> bool, selected: set<nat>)
    requires forall k :: k in rows ==> k < n
    requires forall k :: k in selected <==> k in rows && keep(k, rows[k])
    ensures |Ids(rows, n, keep)| == |selected|
  {
    var ids := Ids(rows, n, keep);
    assert NoDuplicates(ids);
    DistinctCount(ids);
    assert Elements(ids) == selected;
  }

  /** The selection is empty when no row below n is kept. */
  lemma {:induction false} NoneBelow<R>(rows: map<nat, R>, n: nat, keep: (nat, R) -> bool)
    requires forall k :: k < n && k in rows ==> !keep(k, rows[k])
    ensures Ids(rows, n, keep) == []
    decreases n
  {
    if n > 0 {
      NoneBelow(rows, n - 1, keep);
    }
  }

  /** A stricter WHERE clause selects no more rows. */
  lemma {:induction false} IdsMono<R>(rows: map<nat, R>, n: nat, keep: (nat, R) -> bool, wider: (nat, R) -> bool)
    requires forall k, r :: keep(k, r) ==> wider(k, r)
    ensures |Ids(rows, n, keep)| <= |Ids(rows, n, wider)|
    decreases n
  {
    if n > 0 {
      IdsMono(rows, n - 1, keep, wider);
    }
  }

  /** SQL addition inside SUM: NULL contributions are skipped, and a sum of
      nothing but NULLs is NULL. */
  function Plus(a: Option<real>, b: Option<real>): (r: Option<real>)
    ensures r.None? <==> a.None? && b.None?
  {
    match (a, b)
    case (None, None) => None
    case (Some(x), None) => Some(x)
    case (None, Some(y)) => Some(y)
    case (Some(x), Some(y)) => Some(x + y)
  }

  /** COALESCE(x, 0), or `x || 0` in JavaScript. */
  function OrZero(a: Option<real>): real {
    a.GetOr(0.0)
  }

  /** `SELECT SUM(val) ...` over the rows with id below n; val is None for a
      row outside the WHERE clause or whose expression is NULL. */
  function Sum<R>(rows: map<nat, R>, n: nat, val: (nat, R) -> Option<real>): (r: Option<real>)
    decreases n
  {
    if n == 0 then None
    else Plus(Sum(rows, n - 1, val), if n - 1 in rows then val(n - 1, rows[n - 1]) else None)
  }

  /** A SUM reads only the rows with id below n. */
  lemma {:induction false} SumAgree<R>(rows: map<nat, R>, other: map<nat, R>, n: nat, val: (nat, R) -> Option<real>)
    requires forall k :: k < n ==> (k in rows <==> k in other)
    requires forall k :: k < n && k in rows ==> rows[k] == other[k]
    ensures Sum(rows, n, val) == Sum(other, n, val)
    decreases n
  {
    if n > 0 {
      SumAgree(rows, other, n - 1, val);
    }
  }

  /** A SUM is NULL exactly when no row contributes a value. */
  lemma {:induction false} SumNull<R>(rows: map<nat, R>, n: nat, val: (nat, R) -> Option<real>)
    ensures Sum(rows, n, val).None? <==> forall k :: k < n && k in rows ==> val(k, rows[k]).None?
  {
    if n > 0 {
      SumNull(rows, n - 1, val);
    }
  }

  /** SUM distributes over a row-wise split of its expression, reading NULL as 0:
      `SUM(CASE WHEN p THEN x ELSE 0 END) + SUM(CASE WHEN NOT p THEN x ELSE 0 END) = SUM(x)`. */
  lemma {:induction false} SumSplit<R>(rows: map<nat, R>, n: nat,
                                       val: (nat, R) -> Option<real>,
                                       v1: (nat, R) -> Option<real>,
                                       v2: (nat, R) -> Option<real>)
    requires forall k, r :: OrZero(val(k, r)) == OrZero(v1(k, r)) + OrZero(v2(k, r))
    ensures OrZero(Sum(rows, n, val)) == OrZero(Sum(rows, n, v1)) + OrZero(Sum(rows, n, v2))
  {
    if n > 0 {
      SumSplit(rows, n - 1, val, v1, v2);
      var e := if n - 1 in rows then val(n - 1, rows[n - 1]) else None;
      var e1 := if n - 1 in rows then v1(n - 1, rows[n - 1]) else None;
      var e2 := if n - 1 in rows then v2(n - 1, rows[n - 1]) else None;
      assert OrZero(e) == OrZero(e1) + OrZero(e2);
      PlusOrZero(Sum(rows, n - 1, val), e);
      PlusOrZero(Sum(rows, n - 1, v1), e1);
      PlusOrZero(Sum(rows, n - 1, v2), e2);
    }
  }

  /** `SUM(CASE WHEN keep THEN 1 ELSE 0 END)` counts the matching rows (rows
      outside the WHERE clause contribute NULL, the others 0). */
  lemma {:induction false} SumCount<R>(rows: map<nat, R>, n: nat, keep: (nat, R) -> bool,
                                       val: (nat, R) -> Option<real>)
    requires forall k, r :: OrZero(val(k, r)) == if keep(k, r) then 1.0 else 0.0
    ensures OrZero(Sum(rows, n, val)) == |Ids(rows, n, keep)| as real
  {
    if n > 0 {
      SumCount(rows, n - 1, keep, val);
      var e := if n - 1 in rows then val(n - 1, rows[n - 1]) else None;
      PlusOrZero(Sum(rows, n - 1, val), e);
    }
  }

  lemma PlusOrZero(a: Option<real>, b: Option<real>)
    ensures OrZero(Plus(a, b)) == OrZero(a) + OrZero(b)
  {
  }

  /** The sum of a list of values (JavaScript `reduce((s, x) => s + x, 0)`). */
  function SumSeq(s: seq<real>): real {
    if s == [] then 0.0 else SumSeq(s[..|s| - 1]) + s[|s| - 1]
  }

  /** The last element of a non-empty list is added last. */
  lemma SumSeqLast(s: seq<real>)
    requires s != []
    ensures SumSeq(s) == SumSeq(s[..|s| - 1]) + s[|s| - 1]
  {
  }

  /** Adding n copies of c gives n * c. */
  lemma {:induction false} SumSeqConstant(s: seq<real>, c: real)
    requires forall i :: 0 <= i < |s| ==> s[i] == c
    ensures SumSeq(s) == |s| as real * c
  {
    if s != [] {
      SumSeqConstant(s[..|s| - 1], c);
    }
  }

  /** `xs.slice(0, k)` / `LIMIT k`. */
  function Take<T>(s: seq<T>, k: nat): (r: seq<T>)
    ensures |r| == if |s| < k then |s| else k
    ensures r == s[..|r|]
  {
    if |s| <= k then s else s[..k]
  }

  // ---------------------------------------------------------------- filters

  /** `b` can be obtained from `a` by deleting elements, keeping the order. */
  predicate IsSubsequence<T(==)>(b: seq<T>, a: seq<T>)
    decreases |a|
  {
    if b == [] then true
    else if a == [] then false
    else if b[|b| - 1] == a[|a| - 1] then IsSubsequence(b[..|b| - 1], a[..|a| - 1])
    else IsSubsequence(b, a[..|a| - 1])
  }

  /** `items.filter(p)`. */
  function Filter<T(==)>(s: seq<T>, p: T -> bool): (r: seq<T>)
    ensures forall i :: 0 <= i < |r| ==> r[i] in s && p(r[i])
    ensures forall i :: 0 <= i < |s| && p(s[i]) ==> s[i] in r
    ensures IsSubsequence(r, s)
    ensures |r| <= |s|
    decreases |s|
  {
    if s == [] then []
    else
      var prev := Filter(s[..|s| - 1], p);
      var last := s[|s| - 1];
      assert s[..|s| - 1] + [last] == s;
      if p(last) then prev + [last] else prev
  }

  /** Filtering one more element at the end. */
  lemma FilterSnoc<T>(s: seq<T>, x: T, p: T -> bool)
    ensures Filter(s + [x], p) == if p(x) then Filter(s, p) + [x] else Filter(s, p)
  {
    assert (s + [x])[..|s + [x]| - 1] == s;
  }

  /** A filter that rejects nothing returns its input. */
  lemma {:induction false} FilterAll<T>(s: seq<T>, p: T -> bool)
    requires forall i :: 0 <= i < |s| ==> p(s[i])
    ensures Filter(s, p) == s
  {
    if s != [] {
      FilterAll(s[..|s| - 1], p);
      assert s[..|s| - 1] + [s[|s| - 1]] == s;
    }
  }

  // ---------------------------------------------------------------- ORDER BY

  /** Lexicographic order on sort keys; ORDER BY a DESC, b DESC sorts by the
      key [-a, -b]. */
  predicate LexLe(a: seq<real>, b: seq<real>)
    decreases |a|
  {
    |a| == 0 || (|b| > 0 && (a[0] < b[0] || (a[0] == b[0] && LexLe(a[1..], b[1..]))))
  }

  lemma {:induction false} LexTotal(a: seq<real>, b: seq<real>)
    ensures LexLe(a, b) || LexLe(b, a)
    decreases |a|
  {
    if |a| > 0 && |b| > 0 && a[0] == b[0] {
      LexTotal(a[1..], b[1..]);
    }
  }

  lemma {:induction false} LexTrans(a: seq<real>, b: seq<real>, c: seq<real>)
    requires LexLe(a, b) && LexLe(b, c)
    ensures LexLe(a, c)
    decreases |a|
  {
    if |a| > 0 && a[0] == b[0] && b[0] == c[0] {
      LexTrans(a[1..], b[1..], c[1..]);
    }
  }

  /** Equal keys differ nowhere: LexLe both ways on keys of equal length means equality. */
  lemma {:induction false} LexAntisym(a: seq<real>, b: seq<real>)
    requires |a| == |b| && LexLe(a, b) && LexLe(b, a)
    ensures a == b
    decreases |a|
  {
    if |a| > 0 {
      LexAntisym(a[1..], b[1..]);
      assert a == [a[0]] + a[1..] && b == [b[0]] + b[1..];
    }
  }

  /** On one-column keys the order is the order of the values. */
  lemma LexLeSingle(a: real, b: real)
    ensures LexLe([a], [b]) <==> a <= b
  {
    assert [a][1..] == [] && [b][1..] == [];
  }

  predicate SortedBy<T>(s: seq<T>, key: T -> seq<real>) {
    forall i, j :: 0 <= i < j < |s| ==> LexLe(key(s[i]), key(s[j]))
  }

  /** Inserts x into a sorted list after every element whose key is not
      greater than x's (so equal keys keep their arrival order). */
  function Insert<T>(x: T, s: seq<T>, key: T -> seq<real>): (r: seq<T>)
    requires SortedBy(s, key)
    ensures multiset(r) == multiset(s) + multiset{x}
    ensures SortedBy(r, key)
    decreases |s|
  {
    if s == [] then [x]
    else if LexLe(key(s[0]), key(x)) then
      var rest := Insert(x, s[1..], key);
      assert SortedBy(s[1..], key);
      InsertHead(s[0], x, s[1..], rest, key);
      assert s == [s[0]] + s[1..];
      [s[0]] + rest
    else
      InsertFront(x, s, key);
      [x] + s
  }

  lemma InsertFront<T>(x: T, s: seq<T>, key: T -> seq<real>)
    requires SortedBy(s, key) && s != [] && !LexLe(key(s[0]), key(x))
    ensures SortedBy([x] + s, key)
  {
    LexTotal(key(s[0]), key(x));
    forall j | 0 <= j < |s| ensures LexLe(key(x), key(s[j])) {
      if j > 0 { LexTrans(key(x), key(s[0]), key(s[j])); }
    }
    var r := [x] + s;
    forall i, j | 0 <= i < j < |r| ensures LexLe(key(r[i]), key(r[j])) {
      if i > 0 { assert r[i] == s[i - 1] && r[j] == s[j - 1]; }
    }
  }

  lemma InsertHead<T>(h: T, x: T, s: seq<T>, rest: seq<T>, key: T -> seq<real>)
    requires SortedBy([h] + s, key) && LexLe(key(h), key(x))
    requires multiset(rest) == multiset(s) + multiset{x} && SortedBy(rest, key)
    ensures SortedBy([h] + rest, key)
  {
    forall j | 0 <= j < |rest| ensures LexLe(key(h), key(rest[j])) {
      assert rest[j] in multiset(rest);
      if rest[j] != x {
        assert rest[j] in multiset(s);
        var i :| 0 <= i < |s| && s[i] == rest[j];
        var hs := [h] + s;
        assert hs[0] == h && hs[i + 1] == s[i];
        assert LexLe(key(hs[0]), key(hs[i + 1]));
      }
    }
    var r := [h] + rest;
    forall i, j | 0 <= i < j < |r| ensures LexLe(key(r[i]), key(r[j])) {
      if i > 0 { assert r[i] == rest[i - 1] && r[j] == rest[j - 1]; }
    }
  }

  /** `ORDER BY key` made definite: a stable insertion sort. */
  function SortBy<T>(s: seq<T>, key: T -> seq<real>): (r: seq<T>)
    ensures multiset(r) == multiset(s)
    ensures SortedBy(r, key)
    ensures |r| == |s|
    decreases |s|
  {
    if s == [] then []
    else
      var init := SortBy(s[..|s| - 1], key);
      assert s == s[..|s| - 1] + [s[|s| - 1]];
      var r := Insert(s[|s| - 1], init, key);
      assert |r| == |multiset(r)|;
      r
  }

  /** A list without repeats holds each value at most once. */
  lemma {:induction false} NoDuplicatesCount<T>(s: seq<T>, x: T)
    requires NoDuplicates(s)
    ensures multiset(s)[x] <= 1
    decreases |s|
  {
    if s != [] {
      var tail := s[1..];
      assert s == [s[0]] + tail;
      assert NoDuplicates(tail) by {
        forall i, j | 0 <= i < j < |tail| ensures tail[i] != tail[j] {
          assert tail[i] == s[i + 1] && tail[j] == s[j + 1];
        }
      }
      NoDuplicatesCount(tail, x);
      if s[0] == x {
        assert x !in tail by {
          forall i | 0 <= i < |tail| ensures tail[i] != x {
            assert tail[i] == s[i + 1];
          }
        }
      }
    }
  }

  /** Two positions holding the same value count it twice. */
  lemma PairCount<T>(r: seq<T>, i: nat, j: nat)
    requires i < j < |r|
    ensures multiset(r)[r[i]] >= if r[j] == r[i] then 2 else 1
  {
    assert r == r[..j] + r[j..];
    assert r[..j][i] == r[i];
    assert r[j..][0] == r[j];
  }

  /** Sorting a list without repeats gives a list without repeats. */
  lemma SortByNoDuplicates<T>(s: seq<T>, key: T -> seq<real>)
    requires NoDuplicates(s)
    ensures NoDuplicates(SortBy(s, key))
  {
    var r := SortBy(s, key);
    forall i, j | 0 <= i < j < |r| ensures r[i] != r[j] {
      PairCount(r, i, j);
      NoDuplicatesCount(s, r[i]);
    }
  }

  /** Every element of a sorted permutation comes from the input. */
  lemma SortByMembers<T>(s: seq<T>, key: T -> seq<real>, x: T)
    ensures x in SortBy(s, key) <==> x in s
  {
    var r := SortBy(s, key);
    assert x in r <==> x in multiset(r);
    assert x in s <==> x in multiset(s);
  }

  /** The elements whose sort key is k. */
  function SameKey<T>(key: T -> seq<real>, k: seq<real>): T -> bool {
    (y: T) => key(y) == k
  }

  /** Filtering a concatenation filters each part. */
  lemma {:induction false} FilterConcat<T>(a: seq<T>, b: seq<T>, p: T -> bool)
    ensures Filter(a + b, p) == Filter(a, p) + Filter(b, p)
    decreases |b|
  {
    if b == [] {
      assert a + b == a;
    } else {
      var init, last := b[..|b| - 1], b[|b| - 1];
      assert b == init + [last];
      assert a + b == (a + init) + [last];
      FilterConcat(a, init, p);
      FilterSnoc(a + init, last, p);
      FilterSnoc(init, last, p);
    }
  }

  /** A filter that no element passes leaves nothing. */
  lemma FilterNone<T>(s: seq<T>, p: T -> bool)
    requires forall i :: 0 <= i < |s| ==> !p(s[i])
    ensures Filter(s, p) == []
  {
  }

  /** Filtering a one-element list. */
  lemma FilterSingle<T>(x: T, p: T -> bool)
    ensures Filter([x], p) == if p(x) then [x] else []
  {
    FilterSnoc([], x, p);
    assert [] + [x] == [x];
  }

  /** Insert places x after every element whose key equals x's, so among
      the elements of one key x comes last. */
  lemma {:induction false} InsertFilter<T>(x: T, s: seq<T>, key: T -> seq<real>, k: seq<real>)
    requires SortedBy(s, key)
    ensures Filter(Insert(x, s, key), SameKey(key, k)) == Filter(s, SameKey(key, k)) + if key(x) == k then [x] else []
    decreases |s|
  {
    if s == [] {
      FilterSingle(x, SameKey(key, k));
    } else if LexLe(key(s[0]), key(x)) {
      assert SortedBy(s[1..], key);
      InsertFilter(x, s[1..], key, k);
      FilterCons(s[0], s[1..], Insert(x, s[1..], key), SameKey(key, k), if key(x) == k then [x] else []);
      assert Insert(x, s, key) == [s[0]] + Insert(x, s[1..], key);
      assert s == [s[0]] + s[1..];
    } else {
      InsertFilterBefore(x, s, key, k);
    }
  }

  /** Putting the same element in front of two lists keeps what a filter
      adds to the second. */
  lemma FilterCons<T>(h: T, t: seq<T>, rest: seq<T>, p: T -> bool, e: seq<T>)
    requires Filter(rest, p) == Filter(t, p) + e
    ensures Filter([h] + rest, p) == Filter([h] + t, p) + e
  {
    calc {
      Filter([h] + rest, p);
      == { FilterConcat([h], rest, p); }
      Filter([h], p) + Filter(rest, p);
      ==
      Filter([h], p) + (Filter(t, p) + e);
      ==
      (Filter([h], p) + Filter(t, p)) + e;
      == { FilterConcat([h], t, p); }
      Filter([h] + t, p) + e;
    }
  }

  /** The step of InsertFilter where x goes first: no element of s has x's
      key. */
  lemma InsertFilterBefore<T>(x: T, s: seq<T>, key: T -> seq<real>, k: seq<real>)
    requires SortedBy(s, key) && s != [] && !LexLe(key(s[0]), key(x))
    ensures Filter(Insert(x, s, key), SameKey(key, k)) == Filter(s, SameKey(key, k)) + if key(x) == k then [x] else []
  {
    var p := SameKey(key, k);
    assert Insert(x, s, key) == [x] + s;
    FilterConcat([x], s, p);
    FilterSingle(x, p);
    if key(x) == k {
      forall i | 0 <= i < |s| ensures !p(s[i]) {
        if i > 0 {
          assert LexLe(key(s[0]), key(s[i]));
        }
        LexTotal(key(x), key(x));
      }
      FilterNone(s, p);
    }
  }

  /** SortBy is stable: the elements of any one key come out in the order
      they went in. */
  lemma {:induction false} SortByStable<T>(s: seq<T>, key: T -> seq<real>, k: seq<real>)
    ensures Filter(SortBy(s, key), SameKey(key, k)) == Filter(s, SameKey(key, k))
    decreases |s|
  {
    if s != [] {
      var init, last := s[..|s| - 1], s[|s| - 1];
      assert s == init + [last];
      FilterSnoc(init, last, SameKey(key, k));
      assert SortBy(s, key) == Insert(last, SortBy(init, key), key);
      SortByStable(init, key, k);
      InsertFilter(last, SortBy(init, key), key, k);
    }
  }
}
