/** The rows `load_chapters` (scripts/make_lemmas.py) returns, and the final
    `sorted(chapters, key=...)`: Python's sort is stable, so rows with the same
    chapter number keep the order in which they were found. */
module Records {

  /** One row: `{"chapter": idx, "marker": marker, "text": body}`. */
  datatype Record = Record(chapter: nat, marker: seq<char>, text: seq<char>)

  /** Non-decreasing chapter numbers, comparing every pair. */
  predicate Sorted(rs: seq<Record>) {
    forall i, j :: 0 <= i < j < |rs| ==> rs[i].chapter <= rs[j].chapter
  }

  /** The rows with chapter number `k`, in order. */
  function Keep(k: nat, rs: seq<Record>): (r: seq<Record>)
    ensures |r| <= |rs|
    ensures forall i :: 0 <= i < |r| ==> r[i].chapter == k
    decreases |rs|
  {
    if |rs| == 0 then []
    else (if rs[0].chapter == k then [rs[0]] else []) + Keep(k, rs[1..])
  }

  /** Put `x` in front of the first row whose number is not smaller. */
  function Insert(x: Record, ys: seq<Record>): (r: seq<Record>)
    ensures multiset(r) == multiset(ys) + multiset{x}
    ensures Sorted(ys) ==> Sorted(r)
    decreases |ys|
  {
    if |ys| == 0 || x.chapter <= ys[0].chapter then [x] + ys
    else
      var rest := Insert(x, ys[1..]);
      assert ys == [ys[0]] + ys[1..];
      assert ys[0] in multiset(ys);
      InsertHead(x, ys, rest);
      [ys[0]] + rest
  }

  lemma {:induction false} InsertHead(x: Record, ys: seq<Record>, rest: seq<Record>)
    requires |ys| > 0 && ys[0].chapter < x.chapter
    requires multiset(rest) == multiset(ys[1..]) + multiset{x}
    requires Sorted(ys[1..]) ==> Sorted(rest)
    ensures Sorted(ys) ==> Sorted([ys[0]] + rest)
  {
    if Sorted(ys) {
      var r := [ys[0]] + rest;
      forall j | 0 < j < |r| ensures ys[0].chapter <= r[j].chapter {
        assert r[j] in multiset(rest);
        if r[j] != x {
          assert r[j] in multiset(ys[1..]);
          var i :| 0 <= i < |ys[1..]| && ys[1..][i] == r[j];
          assert ys[i + 1] == r[j];
        }
      }
      assert Sorted(ys[1..]) by {
        forall i, j | 0 <= i < j < |ys[1..]| ensures ys[1..][i].chapter <= ys[1..][j].chapter {
          assert ys[1..][i] == ys[i + 1] && ys[1..][j] == ys[j + 1];
        }
      }
      forall i, j | 0 <= i < j < |r| ensures r[i].chapter <= r[j].chapter {
        if i > 0 { assert r[i] == rest[i - 1] && r[j] == rest[j - 1]; }
      }
    }
  }

  /** `sorted(rows, key=lambda r: r["chapter"])`, as an insertion sort. */
  function SortRecords(xs: seq<Record>): (r: seq<Record>)
    ensures Sorted(r)
    ensures multiset(r) == multiset(xs)
    decreases |xs|
  {
    if |xs| == 0 then []
    else
      assert xs == [xs[0]] + xs[1..];
      Insert(xs[0], SortRecords(xs[1..]))
  }

  /** A row no larger than the first goes in front. */
  lemma {:induction false} InsertFront(x: Record, ys: seq<Record>)
    requires |ys| == 0 || x.chapter <= ys[0].chapter
    ensures Insert(x, ys) == [x] + ys
  {
  }

  // ---------------------------------------------------------------------
  // Stability.

  /** Keeping one number commutes with concatenation. */
  lemma {:induction false} KeepAppend(k: nat, a: seq<Record>, b: seq<Record>)
    ensures Keep(k, a + b) == Keep(k, a) + Keep(k, b)
    decreases |a|
  {
    if |a| == 0 {
      assert a + b == b;
    } else {
      assert (a + b)[1..] == a[1..] + b;
      KeepAppend(k, a[1..], b);
    }
  }

  /** Rows with other numbers contribute nothing. */
  lemma {:induction false} KeepNone(k: nat, rs: seq<Record>)
    requires forall i :: 0 <= i < |rs| ==> rs[i].chapter != k
    ensures Keep(k, rs) == []
    decreases |rs|
  {
    if |rs| > 0 { KeepNone(k, rs[1..]); }
  }

  /** Inserting `x` into a sorted list places it after every row with a
      smaller number and before every other one, so among the rows with its
      own number it comes first. */
  lemma {:induction false} KeepInsert(k: nat, x: Record, ys: seq<Record>)
    ensures Keep(k, Insert(x, ys)) == Keep(k, [x] + ys)
    decreases |ys|
  {
    if |ys| > 0 && ys[0].chapter < x.chapter {
      KeepInsert(k, x, ys[1..]);
      KeepInsertStep(k, x, ys);
    }
  }

  lemma {:induction false} KeepInsertStep(k: nat, x: Record, ys: seq<Record>)
    requires |ys| > 0 && ys[0].chapter < x.chapter
    requires Keep(k, Insert(x, ys[1..])) == Keep(k, [x] + ys[1..])
    ensures Keep(k, Insert(x, ys)) == Keep(k, [x] + ys)
  {
    var y := ys[0];
    var rest := Insert(x, ys[1..]);
    assert Insert(x, ys) == [y] + rest;
    KeepAppend(k, [y], rest);
    KeepAppend(k, [x], ys[1..]);
    KeepCons(k, x, ys);
    KeepSingle(k, x);
    KeepSingle(k, y);
    SwapEmpty(Keep(k, [x]), Keep(k, [y]), Keep(k, ys[1..]));
  }

  lemma {:induction false} KeepSingle(k: nat, r: Record)
    ensures Keep(k, [r]) == if r.chapter == k then [r] else []
  {
    assert [r][1..] == [];
  }

  lemma {:induction false} KeepCons(k: nat, x: Record, ys: seq<Record>)
    requires |ys| > 0
    ensures Keep(k, [x] + ys) == Keep(k, [x]) + (Keep(k, [ys[0]]) + Keep(k, ys[1..]))
  {
    assert ys == [ys[0]] + ys[1..];
    KeepAppend(k, [x], ys);
    KeepAppend(k, [ys[0]], ys[1..]);
  }

  /** Two pieces commute when one of them is empty. */
  lemma {:induction false} SwapEmpty(a: seq<Record>, b: seq<Record>, c: seq<Record>)
    requires a == [] || b == []
    ensures b + (a + c) == a + (b + c)
  {
  }

  /** The sort is stable: the rows of each chapter number keep their relative order. */
  lemma {:induction false} SortStable(k: nat, xs: seq<Record>)
    ensures Keep(k, SortRecords(xs)) == Keep(k, xs)
    decreases |xs|
  {
    if |xs| > 0 {
      SortStable(k, xs[1..]);
      KeepInsert(k, xs[0], SortRecords(xs[1..]));
      KeepAppend(k, [xs[0]], SortRecords(xs[1..]));
      assert xs == [xs[0]] + xs[1..];
      KeepAppend(k, [xs[0]], xs[1..]);
    }
  }

  /** Already sorted rows are left as they are. */
  lemma {:induction false} SortSorted(xs: seq<Record>)
    requires Sorted(xs)
    ensures SortRecords(xs) == xs
    decreases |xs|
  {
    if |xs| > 0 {
      SortedTail(xs);
      SortSorted(xs[1..]);
      if |xs| > 1 { assert xs[0].chapter <= xs[1].chapter; }
      InsertFront(xs[0], xs[1..]);
      assert xs == [xs[0]] + xs[1..];
    }
  }

  // ---------------------------------------------------------------------
  // The sorted, stable arrangement is unique.

  /** Dropping the first row removes it from its own chapter's rows only. */
  lemma {:induction false} KeepTail(k: nat, rs: seq<Record>)
    requires |rs| > 0
    ensures Keep(k, rs) == (if rs[0].chapter == k then [rs[0]] else []) + Keep(k, rs[1..])
  {
  }

  /** A chapter number with rows occurs in the list. */
  lemma {:induction false} KeepSome(k: nat, rs: seq<Record>) returns (i: nat)
    requires Keep(k, rs) != []
    ensures i < |rs| && rs[i].chapter == k
    decreases |rs|
  {
    if rs[0].chapter == k {
      i := 0;
    } else {
      var j := KeepSome(k, rs[1..]);
      i := j + 1;
    }
  }

  lemma {:induction false} SortedTail(rs: seq<Record>)
    requires Sorted(rs) && |rs| > 0
    ensures Sorted(rs[1..])
  {
    forall i, j | 0 <= i < j < |rs[1..]| ensures rs[1..][i].chapter <= rs[1..][j].chapter {
      assert rs[1..][i] == rs[i + 1] && rs[1..][j] == rs[j + 1];
    }
  }

  /** Two sorted lists that agree on the rows of every chapter number are the same list. */
  lemma {:induction false} SortedUnique(a: seq<Record>, b: seq<Record>)
    requires Sorted(a) && Sorted(b)
    requires forall k :: Keep(k, a) == Keep(k, b)
    ensures a == b
    decreases |a|
  {
    if |a| == 0 || |b| == 0 {
      if |a| > 0 { KeepTail(a[0].chapter, a); assert false; }
      if |b| > 0 { KeepTail(b[0].chapter, b); assert false; }
    } else {
      var ka, kb := a[0].chapter, b[0].chapter;
      KeepTail(kb, b);
      var i := KeepSome(kb, a);
      KeepTail(ka, a);
      var j := KeepSome(ka, b);
      assert ka <= a[i].chapter == kb;
      assert kb <= b[j].chapter == ka;
      KeepTail(ka, b);
      assert a[0] == Keep(ka, a)[0] == Keep(ka, b)[0] == b[0];
      forall k ensures Keep(k, a[1..]) == Keep(k, b[1..]) {
        TailsAgree(k, a, b);
      }
      SortedTail(a);
      SortedTail(b);
      SortedUnique(a[1..], b[1..]);
      assert a == [a[0]] + a[1..] && b == [b[0]] + b[1..];
    }
  }

  lemma {:induction false} TailsAgree(k: nat, a: seq<Record>, b: seq<Record>)
    requires |a| > 0 && |b| > 0 && a[0] == b[0]
    requires Keep(k, a) == Keep(k, b)
    ensures Keep(k, a[1..]) == Keep(k, b[1..])
  {
    KeepTail(k, a);
    KeepTail(k, b);
    var h := if a[0].chapter == k then [a[0]] else [];
    assert Keep(k, a[1..]) == (h + Keep(k, a[1..]))[|h|..];
    assert Keep(k, b[1..]) == (h + Keep(k, b[1..]))[|h|..];
  }

  /** The sort is the one Python's `sorted` defines: any sorted arrangement
      that keeps every chapter's rows in their original order is the result. */
  lemma {:induction false} SortIsStableSort(xs: seq<Record>, ys: seq<Record>)
    requires Sorted(ys)
    requires forall k :: Keep(k, ys) == Keep(k, xs)
    ensures ys == SortRecords(xs)
  {
    forall k ensures Keep(k, SortRecords(xs)) == Keep(k, ys) {
      SortStable(k, xs);
    }
    SortedUnique(SortRecords(xs), ys);
  }
}
