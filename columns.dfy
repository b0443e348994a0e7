/**
 * The column order of a generated parameter table: `sort_columns`
 * (scripts/generate_docs.py:126-145). The fixed columns `name`, `required`,
 * `type` and `description` are taken out of the list in that order; the
 * other columns, sorted, are then inserted one by one just before the last
 * element of the result, so they end up before the last fixed column found
 * (or, with no fixed column, rotated by one).
 */
module Columns {
  import opened Builtins

  /** The columns `sort_columns` moves to the front, in that order. */
  const FixedColumns: seq<string> := ["name", "required", "type", "description"]

  /** A list in which no string occurs twice. */
  predicate NoDup(s: seq<string>) {
    forall i, j :: 0 <= i < j < |s| ==> s[i] != s[j]
  }

  /** The list `l` that `sort_columns` takes apart in place. */
  class ColumnList {
    var items: seq<string>

    constructor(items: seq<string>)
      ensures this.items == items
    {
      this.items := items;
    }

    /** `l.remove(x)`, which the source only calls when `x` is in the list. */
    method Remove(x: string)
      requires x in items
      modifies this
      ensures items == RemoveFirst(old(items), x)
    {
      items := RemoveFirst(items, x);
    }
  }

  // ---------------------------------------------------------------------------
  // The specification
  // ---------------------------------------------------------------------------

  /** The fixed columns that occur in `cols`, in the order of `fixed`: exactly the names both hold. */
  function Present(cols: seq<string>, fixed: seq<string>): (r: seq<string>)
    ensures |r| <= |fixed|
    ensures forall x :: x in r ==> x in fixed && x in cols
    ensures forall i :: 0 <= i < |fixed| ==> (fixed[i] in r <==> fixed[i] in cols)
    decreases |fixed|
  {
    if fixed == [] then []
    else (if fixed[0] in cols then [fixed[0]] else []) + Present(cols, fixed[1..])
  }

  /**
   * One step of the first phase: when the list `left` holds the fixed name
   * `c`, it is appended to `taken` and its first occurrence is removed; the
   * two lists together keep their length.
   */
  function TakeOne(taken: seq<string>, left: seq<string>, c: string): (r: (seq<string>, seq<string>))
    ensures |r.0| + |r.1| == |taken| + |left|
  {
    if c in left then (taken + [c], RemoveFirst(left, c)) else (taken, left)
  }

  /**
   * The first phase: `TakeOne` for each name of `fixed` in turn. Returns what
   * was taken and what is left; again the two lists together keep their
   * length.
   */
  function TakeFixed(taken: seq<string>, left: seq<string>, fixed: seq<string>): (r: (seq<string>, seq<string>))
    ensures |r.0| + |r.1| == |taken| + |left|
    decreases |fixed|
  {
    if fixed == [] then (taken, left)
    else
      var next := TakeOne(taken, left, fixed[0]);
      TakeFixed(next.0, next.1, fixed[1..])
  }

  /**
   * The second phase: starting from the fixed columns `front`, each of the
   * sorted columns `xs` inserted in turn just before the last element. No
   * column is lost or added.
   */
  function Placed(front: seq<string>, xs: seq<string>): (r: seq<string>)
    ensures multiset(r) == multiset(front) + multiset(xs)
  {
    if front == [] then
      if xs == [] then []
      else
        assert xs == [xs[0]] + xs[1..];
        xs[1..] + [xs[0]]
    else
      assert front == front[..|front| - 1] + [front[|front| - 1]];
      front[..|front| - 1] + xs + [front[|front| - 1]]
  }

  /** What `sort_columns(cols)` returns: a permutation of `cols`. */
  function ColumnOrder(cols: seq<string>): (r: seq<string>)
    ensures multiset(r) == multiset(cols)
  {
    var phase := TakeFixed([], cols, FixedColumns);
    FixedColumnsDistinct();
    TakeFixedTaken([], cols, FixedColumns);
    TakeFixedLeft([], cols, FixedColumns);
    assert phase.0 == Present(cols, FixedColumns);
    Placed(phase.0, Sort(phase.1))
  }

  // ---------------------------------------------------------------------------
  // The imperative version
  // ---------------------------------------------------------------------------

  /** One of the four `if c in l` blocks of `sort_columns`, for the fixed name `c`. */
  method TakeColumn(l: ColumnList, ret: seq<string>, c: string) returns (ret': seq<string>)
    modifies l
    ensures (ret', l.items) == TakeOne(ret, old(l.items), c)
  {
    ret' := ret;
    if c in l.items {
      ret' := ret' + [c];
      l.Remove(c);
    }
  }

  /**
   * The `if len(l) > 0` block of `sort_columns`: each column left, in sorted
   * order, is inserted just before the last element of `ret` and removed
   * from `l`.
   */
  method InsertSortedColumns(l: ColumnList, front: seq<string>) returns (ret: seq<string>)
    modifies l
    ensures ret == Placed(front, Sort(old(l.items)))
    ensures l.items == []
  {
    ret := front;
    if |l.items| > 0 {
      var s := Sort(l.items);
      for j := 0 to |s|
        invariant ret == Placed(front, s[..j])
        invariant multiset(l.items) == multiset(s[j..])
      {
        InsertNext(front, s, j);
        RemoveNext(s, j, l.items);
        ret := InsertAt(ret, |ret| - 1, s[j]);
        l.Remove(s[j]);
      }
      assert s[..|s|] == s;
      assert |multiset(l.items)| == 0;
    } else {
      PlacedNothing(front);
    }
  }

  /** One turn of the loop of `InsertSortedColumns`: the next sorted column goes in just before the last element. */
  lemma {:induction false} InsertNext(front: seq<string>, s: seq<string>, j: nat)
    requires j < |s|
    ensures InsertAt(Placed(front, s[..j]), |Placed(front, s[..j])| - 1, s[j]) == Placed(front, s[..j + 1])
  {
    var xs, x := s[..j], s[j];
    assert s[..j + 1] == xs + [x];
    PlacedInsert(front, xs, x);
  }

  /** ... and is removed from the columns left, which then hold the sorted columns after it. */
  lemma {:induction false} RemoveNext(s: seq<string>, j: nat, items: seq<string>)
    requires j < |s| && multiset(items) == multiset(s[j..])
    ensures s[j] in items
    ensures multiset(RemoveFirst(items, s[j])) == multiset(s[j + 1..])
  {
    assert s[j..] == [s[j]] + s[j + 1..];
    assert s[j] in multiset(s[j..]);
  }

  /** With nothing to insert, the fixed columns stay as they are. */
  lemma {:induction false} PlacedNothing(front: seq<string>)
    ensures Placed(front, Sort([])) == front
  {
    assert Sort([]) == [];
    if front != [] {
      assert front == front[..|front| - 1] + [front[|front| - 1]];
    }
  }

  /** `sort_columns(l)`: returns the ordered columns and leaves `l` empty. */
  method SortColumns(l: ColumnList) returns (ret: seq<string>)
    modifies l
    ensures ret == ColumnOrder(old(l.items))
    ensures l.items == []
  {
    ghost var spec := TakeFixed([], l.items, FixedColumns);
    assert spec == TakeFixed([], l.items, ["name", "required", "type", "description"]);
    ret := [];
    ret := TakeColumn(l, ret, "name");
    assert spec == TakeFixed(ret, l.items, ["required", "type", "description"]);
    ret := TakeColumn(l, ret, "required");
    assert spec == TakeFixed(ret, l.items, ["type", "description"]);
    ret := TakeColumn(l, ret, "type");
    assert spec == TakeFixed(ret, l.items, ["description"]);
    ret := TakeColumn(l, ret, "description");
    assert spec == TakeFixed(ret, l.items, []);
    ret := InsertSortedColumns(l, ret);
  }

  /** Inserting just before the last element extends the sorted part by one column. */
  lemma {:induction false} PlacedInsert(front: seq<string>, xs: seq<string>, x: string)
    ensures InsertAt(Placed(front, xs), |Placed(front, xs)| - 1, x) == Placed(front, xs + [x])
  {
    var p := Placed(front, xs);
    var ys := xs + [x];
    if front == [] {
      if xs == [] {
        assert InsertAt(p, -1, x) == [x];
      } else {
        assert |p| == |xs|;
        assert p[..|p| - 1] == xs[1..] && p[|p| - 1..] == [xs[0]];
        assert ys[1..] == xs[1..] + [x];
      }
    } else {
      var init := front[..|front| - 1] + xs;
      assert p == init + [front[|front| - 1]];
      assert p[..|p| - 1] == init && p[|p| - 1..] == [front[|front| - 1]];
    }
  }

  // ---------------------------------------------------------------------------
  // What `sort_columns` promises
  // ---------------------------------------------------------------------------

  lemma {:induction false} PresentIgnoresOthers(cols: seq<string>, x: string, fixed: seq<string>)
    requires x in cols && x !in fixed
    ensures Present(RemoveFirst(cols, x), fixed) == Present(cols, fixed)
    decreases |fixed|
  {
    if fixed != [] {
      var r := RemoveFirst(cols, x);
      assert fixed[0] in r <==> fixed[0] in cols by {
        assert multiset(r)[fixed[0]] == multiset(cols)[fixed[0]];
      }
      PresentIgnoresOthers(cols, x, fixed[1..]);
    }
  }

  /** With distinct fixed names, the first phase takes exactly the fixed columns present, in the fixed order. */
  lemma {:induction false} TakeFixedTaken(taken: seq<string>, left: seq<string>, fixed: seq<string>)
    requires NoDup(fixed)
    ensures TakeFixed(taken, left, fixed).0 == taken + Present(left, fixed)
    decreases |fixed|
  {
    if fixed != [] {
      NoDupTail(fixed);
      var next := TakeOne(taken, left, fixed[0]);
      TakeFixedTaken(next.0, next.1, fixed[1..]);
      TakeFixedTakenStep(taken, left, fixed);
    }
  }

  /** The step of `TakeFixedTaken`: one fixed name taken, the rest as before. */
  lemma {:induction false} TakeFixedTakenStep(taken: seq<string>, left: seq<string>, fixed: seq<string>)
    requires fixed != [] && fixed[0] !in fixed[1..]
    requires
      var next := TakeOne(taken, left, fixed[0]);
      TakeFixed(next.0, next.1, fixed[1..]).0 == next.0 + Present(next.1, fixed[1..])
    ensures TakeFixed(taken, left, fixed).0 == taken + Present(left, fixed)
  {
    var c, rest := fixed[0], fixed[1..];
    var next := TakeOne(taken, left, c);
    assert TakeFixed(taken, left, fixed) == TakeFixed(next.0, next.1, rest);
    var later := Present(left, rest);
    if c in left {
      assert Present(next.1, rest) == later by {
        PresentIgnoresOthers(left, c, rest);
      }
      assert Present(left, fixed) == [c] + later;
      assert next.0 + later == taken + ([c] + later);
    } else {
      assert Present(left, fixed) == later;
    }
  }

  /** ... and leaves every other occurrence. */
  lemma {:induction false} TakeFixedLeft(taken: seq<string>, left: seq<string>, fixed: seq<string>)
    requires NoDup(fixed)
    ensures multiset(TakeFixed(taken, left, fixed).1) + multiset(Present(left, fixed)) == multiset(left)
    decreases |fixed|
  {
    if fixed != [] {
      NoDupTail(fixed);
      var next := TakeOne(taken, left, fixed[0]);
      TakeFixedLeft(next.0, next.1, fixed[1..]);
      if fixed[0] in left {
        TakeFixedLeftFound(taken, left, fixed);
      }
    }
  }

  /** The step of `TakeFixedLeft` where the first fixed name is among the columns. */
  lemma {:induction false} TakeFixedLeftFound(taken: seq<string>, left: seq<string>, fixed: seq<string>)
    requires fixed != [] && fixed[0] in left && fixed[0] !in fixed[1..]
    requires
      var next := TakeOne(taken, left, fixed[0]);
      multiset(TakeFixed(next.0, next.1, fixed[1..]).1) + multiset(Present(next.1, fixed[1..])) == multiset(next.1)
    ensures multiset(TakeFixed(taken, left, fixed).1) + multiset(Present(left, fixed)) == multiset(left)
  {
    var c, rest := fixed[0], fixed[1..];
    var next := TakeOne(taken, left, c);
    var t, p := multiset(TakeFixed(next.0, next.1, rest).1), multiset(Present(left, rest));
    assert TakeFixed(taken, left, fixed) == TakeFixed(next.0, next.1, rest);
    assert Present(next.1, rest) == Present(left, rest) by {
      PresentIgnoresOthers(left, c, rest);
    }
    assert multiset(Present(left, fixed)) == multiset{c} + p;
    assert multiset(next.1) + multiset{c} == multiset(left);
    calc {
      t + (multiset{c} + p);
      (t + p) + multiset{c};
      multiset(next.1) + multiset{c};
    }
  }

  /** The tail of a list without duplicates has none and does not hold the head. */
  lemma {:induction false} NoDupTail(s: seq<string>)
    requires NoDup(s) && s != []
    ensures NoDup(s[1..]) && s[0] !in s[1..]
  {
    var rest := s[1..];
    forall i, j | 0 <= i < j < |rest| ensures rest[i] != rest[j] {
      assert rest[i] == s[i + 1] && rest[j] == s[j + 1];
    }
    forall i | 0 <= i < |rest| ensures rest[i] != s[0] {
      assert rest[i] == s[i + 1];
    }
  }

  lemma FixedColumnsDistinct()
    ensures NoDup(FixedColumns)
  {
  }

  /** The columns other than the first occurrence of each fixed column present, sorted. */
  function SortedOthers(cols: seq<string>): seq<string> {
    Sort(TakeFixed([], cols, FixedColumns).1)
  }

  /**
   * The result is made of the fixed columns present, in the order `name`,
   * `required`, `type`, `description`, and of the other columns sorted; the
   * sorted ones come just before the last fixed column found.
   */
  lemma {:induction false} ColumnOrderShape(cols: seq<string>)
    ensures var fixed, others := Present(cols, FixedColumns), SortedOthers(cols);
      && IsSorted(others)
      && multiset(others) + multiset(fixed) == multiset(cols)
      && ColumnOrder(cols) == Placed(fixed, others)
      && (fixed != [] ==> ColumnOrder(cols) == fixed[..|fixed| - 1] + others + [fixed[|fixed| - 1]])
  {
    FixedColumnsDistinct();
    var phase := TakeFixed([], cols, FixedColumns);
    TakeFixedTaken([], cols, FixedColumns);
    TakeFixedLeft([], cols, FixedColumns);
    assert phase.0 == Present(cols, FixedColumns);
    assert ColumnOrder(cols) == Placed(phase.0, SortedOthers(cols));
  }

  /** With no fixed column present, the sorted columns come out rotated: the smallest one last. */
  lemma {:induction false} NoFixedRotates(cols: seq<string>)
    requires Present(cols, FixedColumns) == [] && cols != []
    ensures var s := Sort(cols); ColumnOrder(cols) == s[1..] + [s[0]]
  {
    ColumnOrderShape(cols);
    var others := SortedOthers(cols);
    assert multiset(others) == multiset(cols);
    SortedUnique(others, Sort(cols));
    assert |Sort(cols)| == |cols| by {
      assert |multiset(Sort(cols))| == |multiset(cols)|;
    }
  }

  /** Only which columns occur, and how often, matters: not the order they come in. */
  lemma {:induction false} ColumnOrderIgnoresOrder(a: seq<string>, b: seq<string>)
    requires multiset(a) == multiset(b)
    ensures ColumnOrder(a) == ColumnOrder(b)
  {
    PresentSameElements(a, b, FixedColumns);
    ColumnOrderShape(a);
    ColumnOrderShape(b);
    MultisetCancel(multiset(SortedOthers(a)), multiset(SortedOthers(b)), multiset(Present(a, FixedColumns)), multiset(a));
    SortedUnique(SortedOthers(a), SortedOthers(b));
  }

  lemma MultisetCancel(x: multiset<string>, y: multiset<string>, z: multiset<string>, w: multiset<string>)
    requires x + z == w && y + z == w
    ensures x == y
  {
    assert x == w - z;
  }

  lemma {:induction false} PresentSameElements(a: seq<string>, b: seq<string>, fixed: seq<string>)
    requires multiset(a) == multiset(b)
    ensures Present(a, fixed) == Present(b, fixed)
    decreases |fixed|
  {
    if fixed != [] {
      assert fixed[0] in a <==> fixed[0] in multiset(b);
      PresentSameElements(a, b, fixed[1..]);
    }
  }

  /** Distinct columns stay distinct. */
  lemma {:induction false} ColumnOrderNoDup(cols: seq<string>)
    requires NoDup(cols)
    ensures NoDup(ColumnOrder(cols))
  {
    var r := ColumnOrder(cols);
    forall i, j | 0 <= i < j < |r| ensures r[i] != r[j] {
      if r[i] == r[j] {
        MultisetCountsTwo(r, i, j);
        NoDupCountsOne(cols, r[i]);
        assert false;
      }
    }
  }

  lemma {:induction false} MultisetCountsTwo(s: seq<string>, i: nat, j: nat)
    requires i < j < |s| && s[i] == s[j]
    ensures multiset(s)[s[i]] >= 2
  {
    assert s == s[..i] + [s[i]] + s[i + 1..j] + [s[j]] + s[j + 1..];
  }

  lemma {:induction false} NoDupCountsOne(s: seq<string>, x: string)
    requires NoDup(s)
    ensures multiset(s)[x] <= 1
    decreases |s|
  {
    if s != [] {
      var rest := s[1..];
      assert s == [s[0]] + rest;
      assert NoDup(rest) by {
        forall i, j | 0 <= i < j < |rest| ensures rest[i] != rest[j] {
          assert rest[i] == s[i + 1] && rest[j] == s[j + 1];
        }
      }
      NoDupCountsOne(rest, x);
      if s[0] == x {
        assert x !in rest by {
          forall i | 0 <= i < |rest| ensures rest[i] != x {
            assert rest[i] == s[i + 1];
          }
        }
      }
    }
  }
}
