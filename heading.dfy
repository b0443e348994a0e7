/**
 * The heading `create_markdown_doc` writes for each pipeline method
 * (scripts/generate_docs.py:213-220): the helper methods `getStageName` and
 * `tests` get none; the others get a level-3 heading with the name stripped
 * of single quotes, marked when the method is deprecated.
 */
module Heading {
  import opened Builtins
  import opened Extractor

  /** The methods the documentation leaves out. */
  const SkippedMethods: seq<string> := ["getStageName", "tests"]

  /** The first index from `k` on that does not hold a single quote. */
  function QuoteStart(s: string, k: nat): (i: nat)
    requires k <= |s|
    ensures k <= i <= |s| && (i < |s| ==> s[i] != '\'')
    ensures forall j :: k <= j < i ==> s[j] == '\''
    decreases |s| - k
  {
    if k == |s| || s[k] != '\'' then k else QuoteStart(s, k + 1)
  }

  /** The end of `s[lo..k]` once the single quotes at its end are dropped. */
  function QuoteEnd(s: string, lo: nat, k: nat): (i: nat)
    requires lo <= k <= |s|
    ensures lo <= i <= k && (i > lo ==> s[i - 1] != '\'')
    ensures forall j :: i <= j < k ==> s[j] == '\''
    decreases k
  {
    if k == lo || s[k - 1] != '\'' then k else QuoteEnd(s, lo, k - 1)
  }

  /**
   * `s.strip("'")`: `s` without the single quotes at either end. What is
   * left neither starts nor ends with one, and only quotes were cut off.
   */
  function StripQuotes(s: string): (r: string)
    ensures r == [] || (r[0] != '\'' && r[|r| - 1] != '\'')
    ensures exists i, j ::
      && 0 <= i <= j <= |s| && r == s[i..j]
      && (forall k :: 0 <= k < i ==> s[k] == '\'')
      && (forall k :: j <= k < |s| ==> s[k] == '\'')
  {
    var i := QuoteStart(s, 0);
    var j := QuoteEnd(s, i, |s|);
    s[i..j]
  }

  /** A name with no single quote at either end is left as it is. */
  lemma {:induction false} StripQuotesKeeps(s: string)
    requires s == [] || (s[0] != '\'' && s[|s| - 1] != '\'')
    ensures StripQuotes(s) == s
  {
    assert QuoteStart(s, 0) == 0;
    if s != [] {
      assert QuoteEnd(s, 0, |s|) == |s|;
    }
    assert s[0..|s|] == s;
  }

  /** So stripping twice is stripping once. */
  lemma {:induction false} StripQuotesIdempotent(s: string)
    ensures StripQuotes(StripQuotes(s)) == StripQuotes(s)
  {
    StripQuotesKeeps(StripQuotes(s));
  }

  /** A quoted name loses its quotes. */
  lemma {:induction false} StripQuotesQuoted(s: string)
    requires s == [] || (s[0] != '\'' && s[|s| - 1] != '\'')
    ensures StripQuotes("'" + s + "'") == s
  {
    var q := "'" + s + "'";
    if s == [] {
      assert QuoteStart(q, 2) == 2 && QuoteStart(q, 0) == 2;
      assert QuoteEnd(q, 2, 2) == 2;
    } else {
      assert QuoteStart(q, 1) == 1 && QuoteStart(q, 0) == 1;
      assert q[|q| - 2] == s[|s| - 1];
      assert QuoteEnd(q, 1, |q| - 1) == |q| - 1;
      assert QuoteEnd(q, 1, |q|) == |q| - 1;
      assert q[1..|q| - 1] == s;
    }
  }

  /**
   * The heading line written for method `m`, or `None` when `m` is skipped:
   * exactly the two helper methods have none, and every other heading is a
   * level-3 heading.
   */
  function MethodHeading(m: Method): (r: Option<string>)
    ensures r.None? <==> m.name == "getStageName" || m.name == "tests"
    ensures r.Some? ==> |r.value| >= 5 && r.value[..5] == "\n### "
  {
    if m.name in SkippedMethods then None
    else
      var h := "\n### " + StripQuotes(m.name) + (if m.deprecated then " (DEPRECATED)" else "");
      assert h[..5] == "\n### ";
      Some(h)
  }

  /**
   * The heading names the method, followed by the deprecation mark when the
   * method is deprecated and by nothing otherwise.
   */
  lemma {:induction false} HeadingShape(m: Method)
    ensures MethodHeading(m).Some? ==>
      var h := MethodHeading(m).value;
      && StartsWith(h, "\n### ")
      && (m.deprecated ==> h == "\n### " + StripQuotes(m.name) + " (DEPRECATED)" && EndsWith(h, " (DEPRECATED)"))
      && (!m.deprecated ==> h[5..] == StripQuotes(m.name))
  {
    if MethodHeading(m).Some? {
      var h := MethodHeading(m).value;
      var n := StripQuotes(m.name);
      if m.deprecated {
        assert h == "\n### " + (n + " (DEPRECATED)");
        assert h[|h| - 13..] == " (DEPRECATED)";
      } else {
        assert h == "\n### " + n;
      }
      assert h[..5] == "\n### ";
    }
  }
}
