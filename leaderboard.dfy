/** The leaderboard: every row of the table, ordered by overall average
    ascending, rows without an overall average last, ties in the order the
    table returned them. */
module Leaderboard {
  import opened Wrappers
  import opened Scores

  /** The sort key order: a missing average counts as positive infinity. */
  predicate KeyLe(a: Option<real>, b: Option<real>) {
    b.None? || (a.Some? && a.value <= b.value)
  }

  /** Row `x` may come before row `y`. */
  predicate Before(x: Record, y: Record) {
    KeyLe(x.overallAvg, y.overallAvg)
  }

  /** The key order is a total preorder on rows, antisymmetric on keys. */
  lemma KeyOrder(x: Record, y: Record, z: Record)
    ensures Before(x, x)
    ensures Before(x, y) || Before(y, x)
    ensures Before(x, y) && Before(y, z) ==> Before(x, z)
    ensures Before(x, y) && Before(y, x) ==> x.overallAvg == y.overallAvg
  {
  }

  predicate Sorted(s: seq<Record>) {
    forall i, j :: 0 <= i < j < |s| ==> Before(s[i], s[j])
  }

  /** The rows of `s` whose overall average is `k`, in their order in `s`. */
  function WithKey(s: seq<Record>, k: Option<real>): seq<Record> {
    if s == [] then []
    else WithKey(s[..|s| - 1], k) + (if s[|s| - 1].overallAvg == k then [s[|s| - 1]] else [])
  }

  /** Insert `x` into the sorted `t` after every row that may come before it. */
  function Insert(t: seq<Record>, x: Record): (r: seq<Record>)
    ensures |r| == |t| + 1
  {
    if t == [] || Before(t[|t| - 1], x) then t + [x]
    else Insert(t[..|t| - 1], x) + [t[|t| - 1]]
  }

  /** The reference stable sort: insert the rows one by one in input order. */
  function InsertionSort(s: seq<Record>): (r: seq<Record>)
    ensures |r| == |s|
  {
    if s == [] then [] else Insert(InsertionSort(s[..|s| - 1]), s[|s| - 1])
  }

  lemma WithKeyAppend(s: seq<Record>, x: Record, k: Option<real>)
    ensures WithKey(s + [x], k) == WithKey(s, k) + (if x.overallAvg == k then [x] else [])
  {
    assert (s + [x])[..|s|] == s;
  }

  /** Every row picked for key `k` is a row of `s` with key `k`. */
  lemma {:induction false} WithKeyMembers(s: seq<Record>, k: Option<real>, e: Record)
    requires e in WithKey(s, k)
    ensures e in s && e.overallAvg == k
  {
    if s != [] {
      var s' := s[..|s| - 1];
      if e in WithKey(s', k) {
        WithKeyMembers(s', k, e);
        assert s == s' + [s[|s| - 1]];
      }
    }
  }

  lemma {:induction false} InsertPermutes(t: seq<Record>, x: Record)
    ensures multiset(Insert(t, x)) == multiset(t) + multiset{x}
  {
    if t != [] && !Before(t[|t| - 1], x) {
      var t' := t[..|t| - 1];
      InsertPermutes(t', x);
      assert t == t' + [t[|t| - 1]];
    }
  }

  /** Appending a row that every row may come before keeps a sequence sorted. */
  lemma SortedSnoc(s: seq<Record>, y: Record)
    requires Sorted(s)
    requires forall e :: e in multiset(s) ==> Before(e, y)
    ensures Sorted(s + [y])
  {
    forall i, j | 0 <= i < j < |s| + 1
      ensures Before((s + [y])[i], (s + [y])[j])
    {
      if j == |s| {
        assert s[i] in multiset(s);
      }
    }
  }

  lemma {:induction false} InsertSorted(t: seq<Record>, x: Record)
    requires Sorted(t)
    ensures Sorted(Insert(t, x))
  {
    if t == [] {
    } else if Before(t[|t| - 1], x) {
      forall e | e in multiset(t)
        ensures Before(e, x)
      {
        var i :| 0 <= i < |t| && t[i] == e;
        KeyOrder(e, t[|t| - 1], x);
      }
      SortedSnoc(t, x);
    } else {
      var t', y := t[..|t| - 1], t[|t| - 1];
      InsertSorted(t', x);
      InsertPermutes(t', x);
      forall e | e in multiset(Insert(t', x))
        ensures Before(e, y)
      {
        if e == x {
          KeyOrder(x, y, x);
        } else {
          assert e in multiset(t');
          var i :| 0 <= i < |t'| && t'[i] == e;
        }
      }
      SortedSnoc(Insert(t', x), y);
    }
  }

  /** Inserting moves `x` only past rows with a strictly greater key, so the
      rows of every key keep their relative order. */
  lemma {:induction false} InsertWithKey(t: seq<Record>, x: Record, k: Option<real>)
    ensures WithKey(Insert(t, x), k) == WithKey(t, k) + (if x.overallAvg == k then [x] else [])
  {
    if t == [] || Before(t[|t| - 1], x) {
      WithKeyAppend(t, x, k);
    } else {
      var t', y := t[..|t| - 1], t[|t| - 1];
      InsertWithKey(t', x, k);
      WithKeyAppend(Insert(t', x), y, k);
      assert t == t' + [y];
      WithKeyAppend(t', y, k);
      KeyOrder(x, y, x);
      assert y.overallAvg != x.overallAvg;
    }
  }

  /** The reference sort returns a permutation of its input. */
  lemma {:induction false} SortPermutes(s: seq<Record>)
    ensures multiset(InsertionSort(s)) == multiset(s)
  {
    if s != [] {
      var s' := s[..|s| - 1];
      SortPermutes(s');
      InsertPermutes(InsertionSort(s'), s[|s| - 1]);
      assert s == s' + [s[|s| - 1]];
    }
  }

  /** The reference sort returns a sequence sorted by the key. */
  lemma {:induction false} SortSorts(s: seq<Record>)
    ensures Sorted(InsertionSort(s))
  {
    if s != [] {
      SortSorts(s[..|s| - 1]);
      InsertSorted(InsertionSort(s[..|s| - 1]), s[|s| - 1]);
    }
  }

  /** The reference sort is stable: rows with equal keys keep their input order. */
  lemma {:induction false} SortStable(s: seq<Record>, k: Option<real>)
    ensures WithKey(InsertionSort(s), k) == WithKey(s, k)
  {
    if s != [] {
      SortStable(s[..|s| - 1], k);
      InsertWithKey(InsertionSort(s[..|s| - 1]), s[|s| - 1], k);
    }
  }

  /** The last row of a sorted sequence may follow every row of it. */
  lemma SortedLast(s: seq<Record>, e: Record)
    requires Sorted(s) && e in s
    ensures Before(e, s[|s| - 1])
  {
    var i :| 0 <= i < |s| && s[i] == e;
    if i < |s| - 1 {
    } else {
      KeyOrder(e, e, e);
    }
  }

  /** The key of the last row picks out at least that row. */
  lemma LastKeyPresent(s: seq<Record>)
    requires s != []
    ensures WithKey(s, s[|s| - 1].overallAvg) != []
  {
  }

  /** Two sorted sequences that agree on the rows of every key, in order, are
      equal: a stable sort has one possible result. */
  lemma {:induction false} SortedStableUnique(a: seq<Record>, b: seq<Record>)
    requires Sorted(a) && Sorted(b)
    requires forall k :: WithKey(a, k) == WithKey(b, k)
    ensures a == b
    decreases |a| + |b|
  {
    if a == [] || b == [] {
      if a != [] {
        LastKeyPresent(a);
        assert false;
      } else if b != [] {
        LastKeyPresent(b);
        assert false;
      }
    } else {
      var a', x := a[..|a| - 1], a[|a| - 1];
      var b', y := b[..|b| - 1], b[|b| - 1];
      // the largest keys of the two sequences are equal
      assert x in WithKey(b, x.overallAvg) by {
        assert x in WithKey(a, x.overallAvg);
      }
      WithKeyMembers(b, x.overallAvg, x);
      SortedLast(b, x);
      assert y in WithKey(a, y.overallAvg) by {
        assert y in WithKey(b, y.overallAvg);
      }
      WithKeyMembers(a, y.overallAvg, y);
      SortedLast(a, y);
      KeyOrder(x, y, x);
      var k := x.overallAvg;
      assert y.overallAvg == k;
      // so the two last rows are the last rows of the same key group
      var wa, wb := WithKey(a', k) + [x], WithKey(b', k) + [y];
      assert wa == wb;
      assert wa[|wa| - 1] == x && wb[|wb| - 1] == y;
      assert WithKey(a', k) == WithKey(b', k) by {
        assert WithKey(a', k) == (WithKey(a', k) + [x])[..|WithKey(a', k)|];
      }
      forall k' ensures WithKey(a', k') == WithKey(b', k') {
        if k' != k {
          assert WithKey(a, k') == WithKey(a', k');
          assert WithKey(b, k') == WithKey(b', k');
        }
      }
      SortedStableUnique(a', b');
      assert a == a' + [x] && b == b' + [y];
    }
  }

  /** Any stable sort by the key (Python's `list.sort` among them) returns
      exactly what the reference sort returns. */
  lemma StableSortIsInsertionSort(s: seq<Record>, r: seq<Record>)
    requires Sorted(r)
    requires forall k :: WithKey(r, k) == WithKey(s, k)
    ensures r == InsertionSort(s)
  {
    SortSorts(s);
    forall k ensures WithKey(r, k) == WithKey(InsertionSort(s), k) {
      SortStable(s, k);
    }
    SortedStableUnique(r, InsertionSort(s));
  }

  /** Insertion puts `x` right after the last row that may come before it:
      when every row from index `j` on may not, and the row before `j` (if
      any) may, `x` lands at index `j`. */
  lemma {:induction false} InsertSplit(t: seq<Record>, j: nat, x: Record)
    requires j <= |t|
    requires j == 0 || Before(t[j - 1], x)
    requires forall k :: j <= k < |t| ==> !Before(t[k], x)
    ensures Insert(t, x) == t[..j] + [x] + t[j..]
  {
    if j == |t| {
      assert t[..j] == t && t[j..] == [];
    } else {
      var t' := t[..|t| - 1];
      assert !Before(t[|t| - 1], x);
      InsertSplit(t', j, x);
      assert t'[..j] == t[..j];
      assert t'[j..] + [t[|t| - 1]] == t[j..];
    }
  }

  /** One step of the in-place sort: the row at index `i` is moved left past
      the rows of `a[..i]` that may not come before it. */
  method InsertAt(a: array<Record>, i: nat)
    requires i < a.Length
    modifies a
    ensures a[..i + 1] == Insert(old(a[..i]), old(a[i]))
    ensures a[i + 1..] == old(a[i + 1..])
  {
    var x := a[i];
    ghost var t := a[..i];
    ghost var rest := a[i + 1..];
    var j := i;
    while j > 0 && !Before(a[j - 1], x)
      invariant 0 <= j <= i
      invariant a[..j] == t[..j]
      invariant a[j + 1..i + 1] == t[j..i]
      invariant a[i + 1..] == rest
      invariant forall k :: j <= k < i ==> !Before(t[k], x)
    {
      assert a[j - 1] == t[j - 1];
      a[j] := a[j - 1];
      assert a[..j - 1] == t[..j - 1];
      assert a[j..i + 1] == [t[j - 1]] + t[j..i] == t[j - 1..i];
      j := j - 1;
    }
    assert j > 0 ==> a[j - 1] == t[j - 1];
    InsertSplit(t, j, x);
    a[j] := x;
    assert a[..i + 1] == a[..j] + [a[j]] + a[j + 1..i + 1];
  }

  /** Sorts the rows in place by overall average, stably, rows without an
      average last (app.py line 76). */
  method SortRows(a: array<Record>)
    modifies a
    ensures a[..] == InsertionSort(old(a[..]))
  {
    ghost var orig := a[..];
    var i := 0;
    while i < a.Length
      invariant 0 <= i <= a.Length
      invariant a[..i] == InsertionSort(orig[..i])
      invariant a[i..] == orig[i..]
    {
      ghost var before := a[..];
      assert before[..i] == InsertionSort(orig[..i]);
      assert before[i] == orig[i];
      assert before[i + 1..] == orig[i + 1..];
      InsertAt(a, i);
      assert a[..i + 1] == Insert(before[..i], before[i]);
      assert orig[..i + 1][..i] == orig[..i];
      assert a[..i + 1] == InsertionSort(orig[..i + 1]);
      assert a[i + 1..] == orig[i + 1..];
      i := i + 1;
    }
    assert a[..] == a[..a.Length];
    assert orig == orig[..a.Length];
  }

  /** The leaderboard endpoint (app.py lines 71-78) on the rows the table
      returned: None (no data) gives the empty board; otherwise the board is a
      permutation of the rows, sorted by overall average with missing averages
      last, rows of equal average in their original order. */
  method GetLeaderboard(data: Option<seq<Record>>) returns (board: seq<Record>)
    ensures var rows := data.GetOr([]);
      && board == InsertionSort(rows)
      && multiset(board) == multiset(rows)
      && Sorted(board)
      && (forall i, j :: 0 <= i < j < |board| && board[i].overallAvg.None? ==> board[j].overallAvg.None?)
      && (forall k :: WithKey(board, k) == WithKey(rows, k))
    ensures data.None? ==> board == []
  {
    var rows := data.GetOr([]);
    var a := new Record[|rows|](i requires 0 <= i < |rows| => rows[i]);
    assert a[..] == rows;
    SortRows(a);
    board := a[..];
    SortPermutes(rows);
    SortSorts(rows);
    forall k ensures WithKey(board, k) == WithKey(rows, k) {
      SortStable(rows, k);
    }
  }

  /** Example: players with overall averages 30 and 17.5, returned
      in that order by the table, are listed 17.5 first. */
  lemma LeaderboardExample(p: Record, q: Record)
    requires p.overallAvg == Some(30.0) && q.overallAvg == Some(17.5)
    ensures InsertionSort([p, q]) == [q, p]
  {
    assert [p, q][..1] == [p];
    assert InsertionSort([p]) == Insert([], p) == [p];
    assert !Before(p, q);
    assert Insert([p], q) == Insert([], q) + [p];
  }

  /** A row without an average goes after a row with one, even when the table
      returned it first. */
  lemma LeaderboardNullLast(z: Record, p: Record)
    requires z.overallAvg.None? && p.overallAvg.Some?
    ensures InsertionSort([z, p]) == [p, z]
  {
    var s := [z, p];
    assert s[..1] == [z];
    assert InsertionSort(s) == Insert(InsertionSort([z]), p);
    assert [z][..0] == [];
    assert InsertionSort([z]) == Insert([], z) == [z];
    assert !Before(z, p);
    assert Insert([z], p) == Insert([], p) + [z];
  }
}
