/**
 * The Python string and list built-ins that the documentation generator relies on,
 * written out so that the rest of the model can state exactly what they do:
 * `str.strip()`, `str.split(sep)`, `str.startswith`, `sep.join`, slicing,
 * list comprehensions that drop one value, `list.remove`, `list.insert` and `sorted`.
 */
module Builtins {

  datatype Option<T> = None | Some(value: T)

  // ---------------------------------------------------------------------------
  // Whitespace and str.strip()
  // ---------------------------------------------------------------------------

  /** Python's `str.isspace()` on one character: the characters `str.strip()` removes. */
  predicate IsSpace(c: char) {
    || ('\t' <= c <= '\r')
    || ('\U{1C}' <= c <= ' ')
    || c == '\U{85}' || c == '\U{A0}' || c == '\U{1680}'
    || ('\U{2000}' <= c <= '\U{200A}')
    || c == '\U{2028}' || c == '\U{2029}' || c == '\U{202F}' || c == '\U{205F}' || c == '\U{3000}'
  }

  predicate AllSpace(s: string) {
    forall i :: 0 <= i < |s| ==> IsSpace(s[i])
  }

  /** A string with no whitespace at either end, i.e. one that `strip()` leaves alone. */
  predicate Trimmed(s: string) {
    s == [] || (!IsSpace(s[0]) && !IsSpace(s[|s| - 1]))
  }

  /** The first index from `n` on that does not hold whitespace (`|s|` if there is none). */
  function LeftEnd(s: string, n: nat): (k: nat)
    requires n <= |s|
    ensures n <= k <= |s|
    decreases |s| - n
  {
    if n < |s| && IsSpace(s[n]) then LeftEnd(s, n + 1) else n
  }

  /** Just past the last index before `n` that does not hold whitespace (0 if there is none). */
  function RightEnd(s: string, n: nat): (k: nat)
    requires n <= |s|
    ensures k <= n
  {
    if n > 0 && IsSpace(s[n - 1]) then RightEnd(s, n - 1) else n
  }

  /** Python's `str.lstrip()`. */
  function StripLeft(s: string): string {
    s[LeftEnd(s, 0)..]
  }

  /** Python's `str.rstrip()`. */
  function StripRight(s: string): string {
    s[..RightEnd(s, |s|)]
  }

  /** Python's `str.strip()`: the result has no whitespace at either end. */
  function Strip(s: string): (r: string)
    ensures Trimmed(r) && |r| <= |s|
  {
    var l := StripLeft(s);
    LeftEndStops(s, 0);
    RightEndStops(l, |l|);
    StripRight(l)
  }

  /** `LeftEnd` skips a run of whitespace and stops at a non-space or at the end. */
  lemma {:induction false} LeftEndStops(s: string, n: nat)
    requires n <= |s|
    ensures forall i :: n <= i < LeftEnd(s, n) ==> IsSpace(s[i])
    ensures LeftEnd(s, n) == |s| || !IsSpace(s[LeftEnd(s, n)])
    decreases |s| - n
  {
    if n < |s| && IsSpace(s[n]) {
      LeftEndStops(s, n + 1);
    }
  }

  /** Any index that ends a run of whitespace from `n` at a non-space or at the end is `LeftEnd(s, n)`. */
  lemma {:induction false} LeftEndUnique(s: string, n: nat, k: nat)
    requires n <= k <= |s|
    requires forall i :: n <= i < k ==> IsSpace(s[i])
    requires k == |s| || !IsSpace(s[k])
    ensures LeftEnd(s, n) == k
    decreases k - n
  {
    if n < k {
      assert IsSpace(s[n]);
      LeftEndUnique(s, n + 1, k);
    }
  }

  /** `RightEnd` skips a run of whitespace backwards and stops after a non-space or at the start. */
  lemma {:induction false} RightEndStops(s: string, n: nat)
    requires n <= |s|
    ensures forall i :: RightEnd(s, n) <= i < n ==> IsSpace(s[i])
    ensures RightEnd(s, n) == 0 || !IsSpace(s[RightEnd(s, n) - 1])
  {
    if n > 0 && IsSpace(s[n - 1]) {
      RightEndStops(s, n - 1);
    }
  }

  /** Any index that starts a run of whitespace up to `n` after a non-space or at the start is `RightEnd(s, n)`. */
  lemma {:induction false} RightEndUnique(s: string, n: nat, k: nat)
    requires k <= n <= |s|
    requires forall i :: k <= i < n ==> IsSpace(s[i])
    requires k == 0 || !IsSpace(s[k - 1])
    ensures RightEnd(s, n) == k
  {
    if k < n {
      assert IsSpace(s[n - 1]);
      RightEndUnique(s, n - 1, k);
    }
  }

  /**
   * `strip()` cuts its input into leading whitespace, a trimmed text and
   * trailing whitespace, and returns the text.
   */
  lemma {:induction false} StripSplits(s: string)
    ensures var lead, t := LeftEnd(s, 0), Strip(s);
      && lead + |t| <= |s| && t == s[lead..lead + |t|]
      && AllSpace(s[..lead]) && AllSpace(s[lead + |t|..]) && Trimmed(t)
  {
    var lead := LeftEnd(s, 0);
    var l := s[lead..];
    LeftEndStops(s, 0);
    var k := RightEnd(l, |l|);
    RightEndStops(l, |l|);
    assert Strip(s) == l[..k] == s[lead..lead + k];
    var rest := s[lead + k..];
    forall i | 0 <= i < |rest| ensures IsSpace(rest[i]) {
      assert rest[i] == l[k + i];
    }
  }

  /**
   * `strip()` is determined by what it keeps: whitespace around a trimmed text
   * is removed and the text itself is returned unchanged.
   */
  lemma {:induction false} StripSurrounded(a: string, t: string, b: string)
    requires AllSpace(a) && AllSpace(b) && Trimmed(t)
    ensures Strip(a + t + b) == t
  {
    var s := a + t + b;
    if t == [] {
      forall i | 0 <= i < |s| ensures IsSpace(s[i]) {
        if i < |a| { assert s[i] == a[i]; } else { assert s[i] == b[i - |a|]; }
      }
      LeftEndUnique(s, 0, |s|);
    } else {
      forall i | 0 <= i < |a| ensures IsSpace(s[i]) {
        assert s[i] == a[i];
      }
      assert s[|a|] == t[0];
      LeftEndUnique(s, 0, |a|);
      var l := s[|a|..];
      assert l == t + b;
      forall i | |t| <= i < |l| ensures IsSpace(l[i]) {
        assert l[i] == b[i - |t|];
      }
      assert l[|t| - 1] == t[|t| - 1];
      RightEndUnique(l, |l|, |t|);
      assert l[..|t|] == t;
    }
  }

  lemma {:induction false} StripLeading(a: string, t: string)
    requires AllSpace(a) && Trimmed(t)
    ensures Strip(a + t) == t
  {
    StripSurrounded(a, t, "");
    assert a + t + "" == a + t;
  }

  // ---------------------------------------------------------------------------
  // Prefixes, suffixes, split and join
  // ---------------------------------------------------------------------------

  /** Python's `s.startswith(prefix)`. */
  predicate StartsWith(s: string, prefix: string) {
    |prefix| <= |s| && s[..|prefix|] == prefix
  }

  /** Python's `s.endswith(suffix)`. */
  predicate EndsWith(s: string, suffix: string) {
    |suffix| <= |s| && s[|s| - |suffix|..] == suffix
  }

  /** Python's `s.split(sep)` with a one-character separator: never empty, and `""` gives `[""]`. */
  function Split(s: string, sep: char): (parts: seq<string>)
    ensures |parts| >= 1
    ensures forall i :: 0 <= i < |parts| ==> sep !in parts[i]
  {
    if s == [] then [""]
    else
      var rest := Split(s[1..], sep);
      if s[0] == sep then [""] + rest
      else
        assert forall c :: c in [s[0]] + rest[0] ==> c == s[0] || c in rest[0];
        [[s[0]] + rest[0]] + rest[1..]
  }

  /** Python's `sep.join(parts)`. */
  function Join(parts: seq<string>, sep: string): string {
    if |parts| == 0 then ""
    else if |parts| == 1 then parts[0]
    else parts[0] + sep + Join(parts[1..], sep)
  }

  lemma {:induction false} JoinConsHead(c: char, p: string, ps: seq<string>, sep: string)
    ensures Join([[c] + p] + ps, sep) == [c] + Join([p] + ps, sep)
  {
    assert ([[c] + p] + ps)[1..] == ps;
    assert ([p] + ps)[1..] == ps;
  }

  /** Joining the pieces of a split with the same separator gives the input back. */
  lemma {:induction false} SplitJoin(s: string, sep: char)
    ensures Join(Split(s, sep), [sep]) == s
  {
    if s != [] {
      var rest := Split(s[1..], sep);
      SplitJoin(s[1..], sep);
      if s[0] == sep {
        assert ([""] + rest)[1..] == rest;
      } else {
        JoinConsHead(s[0], rest[0], rest[1..], [sep]);
        assert [rest[0]] + rest[1..] == rest;
      }
    }
  }

  /** Conversely, pieces free of the separator are exactly what splitting their join returns. */
  lemma {:induction false} JoinSplit(parts: seq<string>, sep: char)
    requires |parts| >= 1
    requires forall i :: 0 <= i < |parts| ==> sep !in parts[i]
    ensures Split(Join(parts, [sep]), sep) == parts
    decreases |parts|, |parts[0]|
  {
    var p := parts[0];
    var ps := parts[1..];
    assert parts == [p] + ps;
    if p == [] {
      if ps != [] {
        JoinSplit(ps, sep);
        assert Join(parts, [sep]) == [sep] + Join(ps, [sep]);
        assert ([sep] + Join(ps, [sep]))[1..] == Join(ps, [sep]);
      }
    } else {
      var tail := [p[1..]] + ps;
      assert p == [p[0]] + p[1..];
      assert sep != p[0] by { assert p[0] in p; }
      forall i | 0 <= i < |tail| ensures sep !in tail[i] {
        if i == 0 {
          assert forall c :: c in p[1..] ==> c in p;
        } else {
          assert tail[i] == parts[i];
        }
      }
      JoinSplit(tail, sep);
      JoinConsHead(p[0], p[1..], ps, [sep]);
      var s := Join(parts, [sep]);
      assert s == [p[0]] + Join(tail, [sep]);
      assert s[1..] == Join(tail, [sep]);
      assert tail[1..] == ps;
    }
  }

  /** A join of two or more parts: the first two, the separator between them, then the rest. */
  lemma {:induction false} JoinFirstTwo(parts: seq<string>, sep: string)
    requires |parts| >= 2
    ensures |parts| == 2 ==> Join(parts, sep) == parts[0] + sep + parts[1]
    ensures |parts| > 2 ==> Join(parts, sep) == parts[0] + sep + parts[1] + sep + Join(parts[2..], sep)
  {
    var rest := parts[1..];
    assert Join(parts, sep) == parts[0] + sep + Join(rest, sep);
    if |parts| == 2 {
      assert Join(rest, sep) == rest[0];
    } else {
      assert Join(rest, sep) == rest[0] + sep + Join(rest[1..], sep);
      assert rest[1..] == parts[2..];
    }
  }

  lemma {:induction false} JoinStartsWithFirstTwo(parts: seq<string>, sep: string)
    requires |parts| >= 2
    ensures StartsWith(Join(parts, sep), parts[0] + sep + parts[1])
  {
    JoinFirstTwo(parts, sep);
    if |parts| > 2 {
      var head := parts[0] + sep + parts[1];
      assert Join(parts, sep) == head + (sep + Join(parts[2..], sep));
    }
  }

  /** A string without the separator is a single piece. */
  lemma {:induction false} SplitNone(s: string, sep: char)
    requires sep !in s
    ensures Split(s, sep) == [s]
  {
    JoinSplit([s], sep);
  }

  /** Two separator-free pieces joined by the separator split back into the two. */
  lemma {:induction false} SplitPair(a: string, b: string, sep: char)
    requires sep !in a && sep !in b
    ensures Split(a + [sep] + b, sep) == [a, b]
  {
    JoinFirstTwo([a, b], [sep]);
    JoinSplit([a, b], sep);
  }

  /** One piece more than there are separators. */
  lemma {:induction false} SplitCount(s: string, sep: char)
    ensures |Split(s, sep)| == 1 + multiset(s)[sep]
  {
    if s != [] {
      SplitCount(s[1..], sep);
      assert s == [s[0]] + s[1..];
    }
  }

  // ---------------------------------------------------------------------------
  // Sequences and lists
  // ---------------------------------------------------------------------------

  /** Python's `s[lo:hi]` for non-negative bounds: clamped to the length, empty when `lo >= hi`. */
  function Slice<T>(s: seq<T>, lo: nat, hi: nat): (r: seq<T>)
    ensures |r| == if lo < hi && lo < |s| then (if hi < |s| then hi else |s|) - lo else 0
    ensures forall i :: 0 <= i < |r| ==> r[i] == s[lo + i]
  {
    var h := if hi < |s| then hi else |s|;
    if lo < h then s[lo..h] else []
  }

  /** The list comprehension `[y for y in xs if y != x]`. */
  function Without(xs: seq<string>, x: string): (r: seq<string>)
    ensures multiset(r) == multiset(xs)[x := 0]
    ensures |r| <= |xs|
  {
    if xs == [] then []
    else
      assert xs == [xs[0]] + xs[1..];
      if xs[0] == x then Without(xs[1..], x) else [xs[0]] + Without(xs[1..], x)
  }

  /** The position `l.index(x)` reports: the first occurrence. */
  function IndexOf<T(==)>(s: seq<T>, x: T): (i: nat)
    requires x in s
    ensures i < |s| && s[i] == x && x !in s[..i]
  {
    if s[0] == x then 0
    else
      assert s == [s[0]] + s[1..];
      var j := IndexOf(s[1..], x);
      assert s[..j + 1] == [s[0]] + s[1..][..j];
      j + 1
  }

  /** The first position of `x` is the one that holds `x` with no `x` before it. */
  lemma {:induction false} IndexOfIs<T>(s: seq<T>, x: T, i: nat)
    requires i < |s| && s[i] == x && x !in s[..i]
    ensures IndexOf(s, x) == i
  {
    if i > 0 {
      assert s[..i][0] == s[0];
      assert s[1..][..i - 1] == s[1..i];
      assert s[1..i] == s[..i][1..];
      IndexOfIs(s[1..], x, i - 1);
    }
  }

  /** Python's `l.remove(x)` on a list that holds `x`: drops its first occurrence. */
  function RemoveFirst<T(==)>(s: seq<T>, x: T): (r: seq<T>)
    requires x in s
    ensures multiset(r) == multiset(s) - multiset{x}
    ensures |r| == |s| - 1
  {
    var i := IndexOf(s, x);
    assert s == s[..i] + [x] + s[i + 1..];
    s[..i] + s[i + 1..]
  }

  /** Python's `l.insert(i, x)`: a negative index counts from the end; the position is clamped to `0..len(l)`. */
  function InsertAt<T>(s: seq<T>, i: int, x: T): (r: seq<T>)
    ensures |r| == |s| + 1
    ensures 0 <= i <= |s| ==> r == s[..i] + [x] + s[i..]
    ensures -|s| <= i < 0 ==> r == s[..|s| + i] + [x] + s[|s| + i..]
  {
    var j := if i < 0 then (if i + |s| < 0 then 0 else i + |s|) else if i > |s| then |s| else i;
    assert s == s[..j] + s[j..];
    s[..j] + [x] + s[j..]
  }

  // ---------------------------------------------------------------------------
  // String order and sorted()
  // ---------------------------------------------------------------------------

  /** Python's `a <= b` on `str`: lexicographic by code point, a proper prefix first. */
  predicate StrLe(a: string, b: string)
    ensures StartsWith(b, a) ==> StrLe(a, b)
  {
    assert StartsWith(b, a) && |a| > 0 ==> StartsWith(b[1..], a[1..]) by {
      if StartsWith(b, a) && |a| > 0 {
        assert b[1..][..|a| - 1] == b[..|a|][1..];
      }
    }
    |a| == 0 || (|b| > 0 && (a[0] < b[0] || (a[0] == b[0] && StrLe(a[1..], b[1..]))))
  }

  lemma {:induction false} StrLeTotal(a: string, b: string)
    ensures StrLe(a, b) || StrLe(b, a)
  {
    if |a| > 0 && |b| > 0 && a[0] == b[0] {
      StrLeTotal(a[1..], b[1..]);
    }
  }

  lemma {:induction false} StrLeTransitive(a: string, b: string, c: string)
    requires StrLe(a, b) && StrLe(b, c)
    ensures StrLe(a, c)
  {
    if |a| > 0 && a[0] == b[0] && b[0] == c[0] {
      StrLeTransitive(a[1..], b[1..], c[1..]);
    }
  }

  lemma {:induction false} StrLeAntisymmetric(a: string, b: string)
    requires StrLe(a, b) && StrLe(b, a)
    ensures a == b
  {
    if |a| > 0 {
      StrLeAntisymmetric(a[1..], b[1..]);
      assert a == [a[0]] + a[1..];
      assert b == [b[0]] + b[1..];
    }
  }

  predicate IsSorted(s: seq<string>) {
    forall i, j :: 0 <= i < j < |s| ==> StrLe(s[i], s[j])
  }

  /** Inserts `x` into a list before its first element that `x` does not follow. */
  function InsertSorted(x: string, s: seq<string>): seq<string> {
    if s == [] || StrLe(x, s[0]) then [x] + s else [s[0]] + InsertSorted(x, s[1..])
  }

  /**
   * Python's `sorted(l)` on a list of strings, as an insertion sort (equal
   * strings are identical, so the stability of Python's sort cannot show).
   */
  function Sort(s: seq<string>): (r: seq<string>)
    ensures IsSorted(r)
    ensures multiset(r) == multiset(s)
  {
    if s == [] then []
    else
      var rest := Sort(s[1..]);
      InsertSortedSorted(s[0], rest);
      InsertSortedPermutes(s[0], rest);
      assert s == [s[0]] + s[1..];
      InsertSorted(s[0], rest)
  }

  lemma {:induction false} InsertSortedPermutes(x: string, s: seq<string>)
    ensures multiset(InsertSorted(x, s)) == multiset(s) + multiset{x}
  {
    if s != [] && !StrLe(x, s[0]) {
      InsertSortedPermutes(x, s[1..]);
      assert s == [s[0]] + s[1..];
    }
  }

  lemma {:induction false} SortedTail(s: seq<string>)
    requires IsSorted(s) && s != []
    ensures IsSorted(s[1..])
  {
    forall i, j | 0 <= i < j < |s| - 1 ensures StrLe(s[1..][i], s[1..][j]) {
      assert s[1..][i] == s[i + 1] && s[1..][j] == s[j + 1];
    }
  }

  lemma {:induction false} SortedCons(x: string, s: seq<string>)
    requires IsSorted(s)
    requires forall y :: y in multiset(s) ==> StrLe(x, y)
    ensures IsSorted([x] + s)
  {
    var r := [x] + s;
    forall i, j | 0 <= i < j < |r| ensures StrLe(r[i], r[j]) {
      assert r[j] == s[j - 1];
      if i == 0 {
        assert s[j - 1] in multiset(s);
      } else {
        assert r[i] == s[i - 1];
      }
    }
  }

  lemma {:induction false} InsertSortedSorted(x: string, s: seq<string>)
    requires IsSorted(s)
    ensures IsSorted(InsertSorted(x, s))
  {
    if s == [] {
      SortedCons(x, s);
    } else if StrLe(x, s[0]) {
      forall y | y in multiset(s) ensures StrLe(x, y) {
        SortedHeadLeast(s, y);
        StrLeTransitive(x, s[0], y);
      }
      SortedCons(x, s);
    } else {
      var t := InsertSorted(x, s[1..]);
      SortedTail(s);
      InsertSortedSorted(x, s[1..]);
      InsertSortedPermutes(x, s[1..]);
      StrLeTotal(x, s[0]);
      assert s == [s[0]] + s[1..];
      forall y | y in multiset(t) ensures StrLe(s[0], y) {
        if y != x {
          assert y in multiset(s[1..]);
          SortedHeadLeast(s, y);
        }
      }
      SortedCons(s[0], t);
    }
  }

  /** The head of a sorted list is at most every element of it. */
  lemma {:induction false} SortedHeadLeast(a: seq<string>, x: string)
    requires IsSorted(a) && x in multiset(a)
    ensures StrLe(a[0], x)
  {
    var i :| 0 <= i < |a| && a[i] == x;
    if i == 0 {
      StrLeTotal(x, x);
    }
  }

  /** A sorted list is determined by its elements: two sorted permutations of each other are equal. */
  lemma {:induction false} SortedUnique(a: seq<string>, b: seq<string>)
    requires IsSorted(a) && IsSorted(b)
    requires multiset(a) == multiset(b)
    ensures a == b
  {
    if a != [] {
      assert a[0] in multiset(b);
      assert b != [];
      assert b[0] in multiset(a);
      SortedHeadLeast(a, b[0]);
      SortedHeadLeast(b, a[0]);
      StrLeAntisymmetric(a[0], b[0]);
      var a', b' := a[1..], b[1..];
      assert a == [a[0]] + a';
      assert b == [b[0]] + b';
      assert multiset(a') == multiset(a) - multiset{a[0]};
      assert multiset(b') == multiset(b) - multiset{b[0]};
      SortedTail(a);
      SortedTail(b);
      SortedUnique(a', b');
    }
  }
}
