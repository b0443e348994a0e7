/**
 * Searching a file's lines for the first line after a position, or the last
 * line before one, that satisfies a test. The generator's scanning loops
 * (scripts/generate_docs.py:50-110) are specified in these terms.
 */
module Lines {
  import opened Builtins

  /** No line at an index in `[lo, hi)` passes `p`. */
  predicate NoneIn(lines: seq<string>, p: string -> bool, lo: int, hi: int) {
    forall j :: lo <= j < hi && 0 <= j < |lines| ==> !p(lines[j])
  }

  /**
   * The first index from `lo` on whose line passes `p`; an index at or past the
   * end of `lines` when there is none.
   */
  function First(lines: seq<string>, p: string -> bool, lo: nat): (k: nat)
    ensures lo <= k
    ensures k < |lines| ==> p(lines[k])
    decreases |lines| - lo
  {
    if lo >= |lines| || p(lines[lo]) then lo else First(lines, p, lo + 1)
  }

  /** `First` skips only lines that fail `p`. */
  lemma {:induction false} FirstSkips(lines: seq<string>, p: string -> bool, lo: nat)
    ensures NoneIn(lines, p, lo, First(lines, p, lo))
    decreases |lines| - lo
  {
    if lo < |lines| && !p(lines[lo]) {
      FirstSkips(lines, p, lo + 1);
    }
  }

  /** An index that passes `p` with no passing line before it (from `lo`) is `First`. */
  lemma {:induction false} FirstIs(lines: seq<string>, p: string -> bool, lo: nat, k: nat)
    requires lo <= k < |lines| && p(lines[k])
    requires NoneIn(lines, p, lo, k)
    ensures First(lines, p, lo) == k
    decreases k - lo
  {
    if lo < k {
      assert !p(lines[lo]);
      FirstIs(lines, p, lo + 1, k);
    }
  }

  /** With no passing line from `lo` on, `First` runs off the end. */
  lemma {:induction false} FirstNone(lines: seq<string>, p: string -> bool, lo: nat)
    requires NoneIn(lines, p, lo, |lines|)
    ensures First(lines, p, lo) >= |lines|
    decreases |lines| - lo
  {
    if lo < |lines| {
      assert !p(lines[lo]);
      FirstNone(lines, p, lo + 1);
    }
  }

  /** The last index below `hi` whose line passes `p`, if there is one. */
  function Last(lines: seq<string>, p: string -> bool, hi: nat): (r: Option<nat>)
    requires hi <= |lines|
    ensures r.Some? ==> r.value < hi && p(lines[r.value])
  {
    if hi == 0 then None else if p(lines[hi - 1]) then Some(hi - 1) else Last(lines, p, hi - 1)
  }

  /** `Last` skips only lines that fail `p`, and finds nothing only when no line below `hi` passes. */
  lemma {:induction false} LastSkips(lines: seq<string>, p: string -> bool, hi: nat)
    requires hi <= |lines|
    ensures Last(lines, p, hi).Some? ==> NoneIn(lines, p, Last(lines, p, hi).value + 1, hi)
    ensures Last(lines, p, hi).None? ==> NoneIn(lines, p, 0, hi)
  {
    if hi > 0 && !p(lines[hi - 1]) {
      LastSkips(lines, p, hi - 1);
    }
  }

  /** An index below `hi` that passes `p` with no passing line after it (below `hi`) is `Last`. */
  lemma {:induction false} LastIs(lines: seq<string>, p: string -> bool, hi: nat, k: nat)
    requires k < hi <= |lines| && p(lines[k])
    requires NoneIn(lines, p, k + 1, hi)
    ensures Last(lines, p, hi) == Some(k)
  {
    if k < hi - 1 {
      assert !p(lines[hi - 1]);
      LastIs(lines, p, hi - 1, k);
    }
  }

  /** With no passing line below `hi`, `Last` finds nothing. */
  lemma {:induction false} LastNone(lines: seq<string>, p: string -> bool, hi: nat)
    requires hi <= |lines|
    requires NoneIn(lines, p, 0, hi)
    ensures Last(lines, p, hi) == None
  {
    if hi > 0 {
      assert !p(lines[hi - 1]);
      LastNone(lines, p, hi - 1);
    }
  }

  // ---------------------------------------------------------------------------
  // Blocks: an opening line and the first closing line after it
  // ---------------------------------------------------------------------------

  /** The indices of an opening line and of the closing line that ends its block. */
  datatype Span = Span(open: nat, close: nat)

  /**
   * The blocks found from `lo` on: the first opening line, then the first
   * closing line after it (opening lines in between are ignored), then the
   * search resumes after that closing line. An opening line with no closing
   * line after it starts no block.
   */
  function SpansFrom(lines: seq<string>, isOpen: string -> bool, isClose: string -> bool, lo: nat): seq<Span>
    decreases |lines| - lo
  {
    var open := First(lines, isOpen, lo);
    if open >= |lines| then []
    else
      var close := First(lines, isClose, open + 1);
      if close >= |lines| then [] else [Span(open, close)] + SpansFrom(lines, isOpen, isClose, close + 1)
  }

  /** The first block from `lo` on, if there is one: the first opening line and the first closing line after it. */
  function FirstSpan(lines: seq<string>, isOpen: string -> bool, isClose: string -> bool, lo: nat): (r: Option<Span>)
    ensures r.Some? ==> lo <= r.value.open < r.value.close < |lines|
  {
    var open := First(lines, isOpen, lo);
    if open >= |lines| then None
    else
      var close := First(lines, isClose, open + 1);
      if close >= |lines| then None else Some(Span(open, close))
  }

  /** A block that `Delimits` describes from `lo` is the first block from `lo` on, and conversely. */
  lemma {:induction false} FirstSpanDelimits(lines: seq<string>, isOpen: string -> bool, isClose: string -> bool, lo: nat, sp: Span)
    ensures FirstSpan(lines, isOpen, isClose, lo) == Some(sp) <==> Delimits(lines, isOpen, isClose, lo, sp)
  {
    var open := First(lines, isOpen, lo);
    FirstSkips(lines, isOpen, lo);
    if Delimits(lines, isOpen, isClose, lo, sp) {
      FirstIs(lines, isOpen, lo, sp.open);
      FirstIs(lines, isClose, sp.open + 1, sp.close);
    }
    if open < |lines| {
      FirstSkips(lines, isClose, open + 1);
    }
  }

  /** The search finds no block exactly when there is no first block, and otherwise starts with it. */
  lemma {:induction false} SpansFromFirst(lines: seq<string>, isOpen: string -> bool, isClose: string -> bool, lo: nat)
    ensures var spans := SpansFrom(lines, isOpen, isClose, lo);
      match FirstSpan(lines, isOpen, isClose, lo)
      case None => spans == []
      case Some(sp) => spans != [] && spans[0] == sp
  {
  }

  /** A closing line after the first opening line from `lo` on, with none in between, ends the first block. */
  lemma {:induction false} CloseStep(lines: seq<string>, isOpen: string -> bool, isClose: string -> bool,
                                     lo: nat, open: nat, close: nat)
    requires lo <= open < close < |lines|
    requires open == First(lines, isOpen, lo)
    requires NoneIn(lines, isClose, open + 1, close) && isClose(lines[close])
    ensures SpansFrom(lines, isOpen, isClose, lo) == [Span(open, close)] + SpansFrom(lines, isOpen, isClose, close + 1)
  {
    FirstIs(lines, isClose, open + 1, close);
  }

  /** Two lists of the same length that hold the same lines from `lo` on. */
  predicate AgreeFrom(a: seq<string>, b: seq<string>, lo: nat) {
    |a| == |b| && forall i :: lo <= i < |a| ==> a[i] == b[i]
  }

  /** `First` from `lo` only looks at the lines from `lo` on. */
  lemma {:induction false} FirstAgree(a: seq<string>, b: seq<string>, p: string -> bool, lo: nat)
    requires AgreeFrom(a, b, lo)
    ensures First(a, p, lo) == First(b, p, lo)
    decreases |a| - lo
  {
    if lo < |a| {
      FirstAgree(a, b, p, lo + 1);
    }
  }

  /** The search from `lo` only looks at the lines from `lo` on. */
  lemma {:induction false} SpansFromAgree(a: seq<string>, b: seq<string>, isOpen: string -> bool, isClose: string -> bool, lo: nat)
    requires AgreeFrom(a, b, lo)
    ensures SpansFrom(a, isOpen, isClose, lo) == SpansFrom(b, isOpen, isClose, lo)
    decreases |a| - lo
  {
    FirstAgree(a, b, isOpen, lo);
    var open := First(a, isOpen, lo);
    if open < |a| {
      FirstAgree(a, b, isClose, open + 1);
      var close := First(a, isClose, open + 1);
      if close < |a| {
        SpansFromAgree(a, b, isOpen, isClose, close + 1);
        assert SpansFrom(a, isOpen, isClose, lo) == [Span(open, close)] + SpansFrom(a, isOpen, isClose, close + 1);
        assert SpansFrom(b, isOpen, isClose, lo) == [Span(open, close)] + SpansFrom(b, isOpen, isClose, close + 1);
      }
    }
  }

  /** The first block from `lo` on only depends on the lines from `lo` on. */
  lemma {:induction false} FirstSpanAgree(a: seq<string>, b: seq<string>, isOpen: string -> bool, isClose: string -> bool, lo: nat)
    requires AgreeFrom(a, b, lo)
    ensures FirstSpan(a, isOpen, isClose, lo) == FirstSpan(b, isOpen, isClose, lo)
  {
    FirstAgree(a, b, isOpen, lo);
    var open := First(a, isOpen, lo);
    if open < |a| {
      FirstAgree(a, b, isClose, open + 1);
    }
  }

  // ---------------------------------------------------------------------------
  // The same search as a single pass over the lines
  // ---------------------------------------------------------------------------

  /**
   * The state of a single pass that has read the lines before `i`: `done` holds
   * the blocks completed so far and the rest of the search resumes at `lo`;
   * `start` is the open block's opening line, or 0 when no block is open.
   * Index 0 doubles as "no block open", so an opening line at index 0 is
   * never recorded.
   */
  predicate PassState(lines: seq<string>, isOpen: string -> bool, isClose: string -> bool,
                      i: nat, start: nat, lo: nat, done: seq<Span>)
  {
    && i <= |lines| && lo >= 1 && (lo <= i || lo == 1)
    && done + SpansFrom(lines, isOpen, isClose, lo) == SpansFrom(lines, isOpen, isClose, 1)
    && (start == 0 ==> NoneIn(lines, isOpen, lo, i))
    && (start != 0 ==> lo <= start < i && start == First(lines, isOpen, lo) && NoneIn(lines, isClose, start + 1, i))
  }

  lemma {:induction false} PassBegin(lines: seq<string>, isOpen: string -> bool, isClose: string -> bool)
    ensures PassState(lines, isOpen, isClose, 0, 0, 1, [])
  {
    assert [] + SpansFrom(lines, isOpen, isClose, 1) == SpansFrom(lines, isOpen, isClose, 1);
  }

  /** A line that neither opens a block (when none is open) nor closes one (when one is) changes nothing. */
  lemma {:induction false} PassSkip(lines: seq<string>, isOpen: string -> bool, isClose: string -> bool,
                                    i: nat, start: nat, lo: nat, done: seq<Span>)
    requires PassState(lines, isOpen, isClose, i, start, lo, done) && i < |lines|
    requires start == 0 ==> !isOpen(lines[i])
    requires start != 0 ==> !isClose(lines[i])
    ensures PassState(lines, isOpen, isClose, i + 1, start, lo, done)
  {
  }

  /** An opening line while no block is open opens one (index 0 excepted, as it means "none"). */
  lemma {:induction false} PassOpen(lines: seq<string>, isOpen: string -> bool, isClose: string -> bool,
                                    i: nat, lo: nat, done: seq<Span>)
    requires PassState(lines, isOpen, isClose, i, 0, lo, done) && i < |lines| && isOpen(lines[i])
    ensures PassState(lines, isOpen, isClose, i + 1, i, lo, done)
  {
    if i != 0 {
      FirstIs(lines, isOpen, lo, i);
    }
  }

  /** A closing line while a block is open completes that block. */
  lemma {:induction false} PassClose(lines: seq<string>, isOpen: string -> bool, isClose: string -> bool,
                                     i: nat, start: nat, lo: nat, done: seq<Span>)
    requires PassState(lines, isOpen, isClose, i, start, lo, done) && i < |lines|
    requires start != 0 && isClose(lines[i])
    ensures 1 <= start < i && isOpen(lines[start])
    ensures PassState(lines, isOpen, isClose, i + 1, 0, i + 1, done + [Span(start, i)])
  {
    CloseStep(lines, isOpen, isClose, lo, start, i);
    var rest := SpansFrom(lines, isOpen, isClose, i + 1);
    assert (done + [Span(start, i)]) + rest == done + ([Span(start, i)] + rest);
  }

  /** At the end of the lines the pass has found every block. */
  lemma {:induction false} PassEnd(lines: seq<string>, isOpen: string -> bool, isClose: string -> bool,
                                   start: nat, lo: nat, done: seq<Span>)
    requires PassState(lines, isOpen, isClose, |lines|, start, lo, done)
    ensures done == SpansFrom(lines, isOpen, isClose, 1)
  {
    if start == 0 {
      FirstNone(lines, isOpen, lo);
    } else {
      FirstNone(lines, isClose, start + 1);
    }
    assert SpansFrom(lines, isOpen, isClose, lo) == [];
    assert done + [] == done;
  }

  /** The variables of the single pass: the open block's opening line (0 for none), where the search resumes, the blocks so far. */
  datatype Pass = Pass(start: nat, lo: nat, done: seq<Span>)

  /** One step of the single pass, reading the line at index `i`. */
  function PassStep(lines: seq<string>, isOpen: string -> bool, isClose: string -> bool, i: nat, v: Pass): Pass
    requires i < |lines|
  {
    if v.start == 0 then
      if isOpen(lines[i]) then Pass(i, v.lo, v.done) else v
    else if isClose(lines[i]) then Pass(0, i + 1, v.done + [Span(v.start, i)])
    else v
  }

  /** The variables of the single pass after it has read the lines before index `i`. */
  function PassAfter(lines: seq<string>, isOpen: string -> bool, isClose: string -> bool, i: nat): Pass
    requires i <= |lines|
  {
    if i == 0 then Pass(0, 1, []) else PassStep(lines, isOpen, isClose, i - 1, PassAfter(lines, isOpen, isClose, i - 1))
  }

  /** The single pass keeps `PassState`. */
  lemma {:induction false} PassAfterState(lines: seq<string>, isOpen: string -> bool, isClose: string -> bool, i: nat)
    requires i <= |lines|
    ensures var v := PassAfter(lines, isOpen, isClose, i);
      PassState(lines, isOpen, isClose, i, v.start, v.lo, v.done)
  {
    if i == 0 {
      PassBegin(lines, isOpen, isClose);
    } else {
      var j := i - 1;
      PassAfterState(lines, isOpen, isClose, j);
      var v := PassAfter(lines, isOpen, isClose, j);
      if v.start == 0 && isOpen(lines[j]) {
        PassOpen(lines, isOpen, isClose, j, v.lo, v.done);
        assert PassAfter(lines, isOpen, isClose, i) == Pass(j, v.lo, v.done);
      } else if v.start != 0 && isClose(lines[j]) {
        PassClose(lines, isOpen, isClose, j, v.start, v.lo, v.done);
        assert PassAfter(lines, isOpen, isClose, i) == Pass(0, j + 1, v.done + [Span(v.start, j)]);
      } else {
        PassSkip(lines, isOpen, isClose, j, v.start, v.lo, v.done);
        assert PassAfter(lines, isOpen, isClose, i) == v;
      }
    }
  }

  /**
   * Blocks that lie within the lines, after `lo`, each starting at an opening
   * line and ending at a closing line, and each ending before the next starts.
   */
  predicate SpansPlaced(lines: seq<string>, isOpen: string -> bool, isClose: string -> bool, lo: nat, spans: seq<Span>) {
    && (forall k :: 0 <= k < |spans| ==>
          lo <= spans[k].open < spans[k].close < |lines| && isOpen(lines[spans[k].open]) && isClose(lines[spans[k].close]))
    && (forall k :: 0 < k < |spans| ==> spans[k - 1].close < spans[k].open)
  }

  /** The blocks the search finds from `lo` on are placed so. */
  lemma {:induction false} SpansFromBounds(lines: seq<string>, isOpen: string -> bool, isClose: string -> bool, lo: nat)
    ensures SpansPlaced(lines, isOpen, isClose, lo, SpansFrom(lines, isOpen, isClose, lo))
    decreases |lines| - lo
  {
    var spans := SpansFrom(lines, isOpen, isClose, lo);
    if spans != [] {
      var open := First(lines, isOpen, lo);
      var close := First(lines, isClose, open + 1);
      SpansFromBounds(lines, isOpen, isClose, close + 1);
      var rest := SpansFrom(lines, isOpen, isClose, close + 1);
      assert spans == [Span(open, close)] + rest;
      forall k | 0 <= k < |spans|
        ensures lo <= spans[k].open < spans[k].close < |lines| && isOpen(lines[spans[k].open]) && isClose(lines[spans[k].close])
      {
        if k > 0 { assert spans[k] == rest[k - 1]; }
      }
      forall k | 0 < k < |spans| ensures spans[k - 1].close < spans[k].open {
        assert spans[k] == rest[k - 1];
        if k > 1 { assert spans[k - 1] == rest[k - 2]; }
      }
    }
  }

  /** After the last line, the single pass has found exactly the blocks of the search. */
  lemma {:induction false} PassFindsSpans(lines: seq<string>, isOpen: string -> bool, isClose: string -> bool)
    ensures PassAfter(lines, isOpen, isClose, |lines|).done == SpansFrom(lines, isOpen, isClose, 1)
  {
    PassAfterState(lines, isOpen, isClose, |lines|);
    var v := PassAfter(lines, isOpen, isClose, |lines|);
    PassEnd(lines, isOpen, isClose, v.start, v.lo, v.done);
  }

  /**
   * `sp` is the block the search finds from `from` on: an opening line with no
   * opening line before it (from `from`), a closing line with no closing line
   * between the two.
   */
  predicate Delimits(lines: seq<string>, isOpen: string -> bool, isClose: string -> bool, from: nat, sp: Span) {
    && from <= sp.open < sp.close < |lines|
    && isOpen(lines[sp.open]) && isClose(lines[sp.close])
    && NoneIn(lines, isOpen, from, sp.open) && NoneIn(lines, isClose, sp.open + 1, sp.close)
  }

  /** No opening line from `from` on has a closing line after it. */
  predicate NoBlock(lines: seq<string>, isOpen: string -> bool, isClose: string -> bool, from: nat) {
    forall a, b :: from <= a < b < |lines| && isOpen(lines[a]) ==> !isClose(lines[b])
  }

  /**
   * `spans` cut the lines from `lo` on into blocks: the first block is the one
   * that `Delimits` describes from `lo`, each later one likewise from just past
   * the previous block, and after the last block no opening line is followed
   * by a closing line.
   */
  predicate Tiles(lines: seq<string>, isOpen: string -> bool, isClose: string -> bool, lo: nat, spans: seq<Span>)
    decreases |spans|
  {
    if spans == [] then NoBlock(lines, isOpen, isClose, lo)
    else Delimits(lines, isOpen, isClose, lo, spans[0]) && Tiles(lines, isOpen, isClose, spans[0].close + 1, spans[1..])
  }

  /** Without a closing line after the first opening line from `lo` on, there is no block from `lo` on. */
  lemma {:induction false} NoCloseNoBlock(lines: seq<string>, isOpen: string -> bool, isClose: string -> bool, lo: nat)
    requires First(lines, isClose, First(lines, isOpen, lo) + 1) >= |lines|
    ensures NoBlock(lines, isOpen, isClose, lo)
  {
    var open := First(lines, isOpen, lo);
    FirstSkips(lines, isOpen, lo);
    FirstSkips(lines, isClose, open + 1);
    forall a, b | lo <= a < b < |lines| && isOpen(lines[a]) ensures !isClose(lines[b]) {
      assert open <= a;
    }
  }

  /** The first opening line from `lo` on and the first closing line after it delimit a block. */
  lemma {:induction false} FirstDelimits(lines: seq<string>, isOpen: string -> bool, isClose: string -> bool, lo: nat)
    requires First(lines, isClose, First(lines, isOpen, lo) + 1) < |lines|
    ensures var open := First(lines, isOpen, lo);
      Delimits(lines, isOpen, isClose, lo, Span(open, First(lines, isClose, open + 1)))
  {
    var open := First(lines, isOpen, lo);
    FirstSkips(lines, isOpen, lo);
    FirstSkips(lines, isClose, open + 1);
  }

  lemma {:induction false} TilesCons(lines: seq<string>, isOpen: string -> bool, isClose: string -> bool,
                                     lo: nat, sp: Span, rest: seq<Span>)
    requires Delimits(lines, isOpen, isClose, lo, sp) && Tiles(lines, isOpen, isClose, sp.close + 1, rest)
    ensures Tiles(lines, isOpen, isClose, lo, [sp] + rest)
  {
    assert ([sp] + rest)[1..] == rest;
  }

  /** The search tiles the lines from `lo` on. */
  lemma {:induction false} SpansFromTiles(lines: seq<string>, isOpen: string -> bool, isClose: string -> bool, lo: nat)
    ensures Tiles(lines, isOpen, isClose, lo, SpansFrom(lines, isOpen, isClose, lo))
    decreases |lines| - lo
  {
    var open := First(lines, isOpen, lo);
    if open >= |lines| {
      FirstNone(lines, isClose, open + 1);
      NoCloseNoBlock(lines, isOpen, isClose, lo);
    } else {
      var close := First(lines, isClose, open + 1);
      if close >= |lines| {
        NoCloseNoBlock(lines, isOpen, isClose, lo);
      } else {
        FirstDelimits(lines, isOpen, isClose, lo);
        FirstSkips(lines, isClose, open + 1);
        CloseStep(lines, isOpen, isClose, lo, open, close);
        SpansFromTiles(lines, isOpen, isClose, close + 1);
        TilesCons(lines, isOpen, isClose, lo, Span(open, close), SpansFrom(lines, isOpen, isClose, close + 1));
      }
    }
  }

  /** The search is the only way to tile the lines from `lo` on. */
  lemma {:induction false} TilesUnique(lines: seq<string>, isOpen: string -> bool, isClose: string -> bool,
                                       lo: nat, spans: seq<Span>)
    requires Tiles(lines, isOpen, isClose, lo, spans)
    ensures spans == SpansFrom(lines, isOpen, isClose, lo)
    decreases |spans|
  {
    if spans == [] {
      var open := First(lines, isOpen, lo);
      if open < |lines| {
        var close := First(lines, isClose, open + 1);
        assert isOpen(lines[open]);
        assert NoneIn(lines, isClose, open + 1, |lines|);
        FirstNone(lines, isClose, open + 1);
      }
    } else {
      var sp := spans[0];
      FirstIs(lines, isOpen, lo, sp.open);
      CloseStep(lines, isOpen, isClose, lo, sp.open, sp.close);
      TilesUnique(lines, isOpen, isClose, sp.close + 1, spans[1..]);
      assert spans == [sp] + spans[1..];
    }
  }
}
