/**
 * The workflow-level documentation of a Groovy workflow file:
 * `get_workflow_doc` (scripts/generate_docs.py:97-110). The documentation is
 * a triple-quoted string assigned to `workflowDoc`; its lines, without the
 * empty ones, are later read as YAML.
 */
module WorkflowDoc {
  import opened Builtins
  import opened Lines

  /** A line that opens the documentation string. */
  predicate IsDocStart(line: string) {
    StartsWith(line, "workflowDoc = '''")
  }

  /** A line that closes it: the closing quotes, up to whitespace. */
  predicate IsDocEnd(line: string) {
    Strip(line) == "'''"
  }

  /** An opening line never also closes the documentation. */
  lemma {:induction false} DocStartIsNotEnd(line: string)
    requires IsDocStart(line)
    ensures !IsDocEnd(line)
  {
    if IsDocEnd(line) {
      StripIsQuotes(line);
      assert false;
    }
  }

  /** A closing line is exactly the closing quotes with nothing but whitespace around them. */
  lemma {:induction false} StripIsQuotes(line: string)
    ensures Strip(line) == "'''" <==> exists a, b :: AllSpace(a) && AllSpace(b) && line == a + "'''" + b
  {
    if Strip(line) == "'''" {
      StripSplits(line);
      var lead := LeftEnd(line, 0);
      var a, b := line[..lead], line[lead + 3..];
      assert line == a + "'''" + b;
    }
    forall a, b | AllSpace(a) && AllSpace(b) && line == a + "'''" + b ensures Strip(line) == "'''" {
      StripSurrounded(a, "'''", b);
    }
  }

  /**
   * What `get_workflow_doc(lines)` returns: the non-empty lines strictly
   * between the first opening line after line 0 and the first closing line
   * after that, or `None` when either is missing. As in `parse_file`, index 0
   * stands for "not found", so an opening line at index 0 is never seen.
   */
  function WorkflowDocOf(lines: seq<string>): (r: Option<seq<string>>)
    ensures r.Some? ==> "" !in r.value
  {
    match FirstSpan(lines, IsDocStart, IsDocEnd, 1)
    case None => None
    case Some(sp) =>
      var doc := Without(lines[sp.open + 1..sp.close], "");
      assert multiset(doc)[""] == 0;
      Some(doc)
  }

  /** `get_workflow_doc(lines)`. */
  method GetWorkflowDoc(lines: seq<string>) returns (doc: Option<seq<string>>)
    ensures doc == WorkflowDocOf(lines)
  {
    var start := 0;
    var end := 0;
    for i := 0 to |lines|
      invariant start == 0 ==> NoneIn(lines, IsDocStart, 1, i)
      invariant start != 0 ==> 1 <= start < i && IsDocStart(lines[start]) && NoneIn(lines, IsDocStart, 1, start)
      invariant start != 0 ==> NoneIn(lines, IsDocEnd, start + 1, i)
      invariant end == 0
    {
      if start == 0 {
        if IsDocStart(lines[i]) {
          start := i;
        }
      } else if IsDocEnd(lines[i]) {
        end := i;
        break;
      }
    }
    if start != 0 && end != 0 {
      FirstSpanDelimits(lines, IsDocStart, IsDocEnd, 1, Span(start, end));
      doc := Some(Without(lines[start + 1..end], ""));
    } else {
      if start == 0 {
        FirstNone(lines, IsDocStart, 1);
      } else {
        FirstIs(lines, IsDocStart, 1, start);
        FirstNone(lines, IsDocEnd, start + 1);
      }
      assert FirstSpan(lines, IsDocStart, IsDocEnd, 1) == None;
      doc := None;
    }
  }

  /**
   * The documentation, when there is some, is delimited by an opening line
   * after line 0 with no opening line before it (after line 0), and a closing
   * line after it with none in between; it is their inner lines without the
   * empty ones. Conversely, any two such lines delimit the documentation.
   */
  lemma {:induction false} DocBetween(lines: seq<string>, s: nat, e: nat)
    ensures Delimits(lines, IsDocStart, IsDocEnd, 1, Span(s, e)) <==> FirstSpan(lines, IsDocStart, IsDocEnd, 1) == Some(Span(s, e))
    ensures Delimits(lines, IsDocStart, IsDocEnd, 1, Span(s, e)) ==> WorkflowDocOf(lines) == Some(Without(lines[s + 1..e], ""))
  {
    FirstSpanDelimits(lines, IsDocStart, IsDocEnd, 1, Span(s, e));
    if Delimits(lines, IsDocStart, IsDocEnd, 1, Span(s, e)) {
      assert FirstSpan(lines, IsDocStart, IsDocEnd, 1) == Some(Span(s, e));
    }
  }

  /** There is no documentation exactly when no opening line after line 0 is followed by a closing line. */
  lemma {:induction false} NoDoc(lines: seq<string>)
    ensures WorkflowDocOf(lines).None? <==> NoBlock(lines, IsDocStart, IsDocEnd, 1)
  {
    match FirstSpan(lines, IsDocStart, IsDocEnd, 1)
    case Some(sp) =>
      FirstDelimits(lines, IsDocStart, IsDocEnd, 1);
      assert IsDocStart(lines[sp.open]) && IsDocEnd(lines[sp.close]);
    case None =>
      var s := First(lines, IsDocStart, 1);
      if s >= |lines| {
        FirstNone(lines, IsDocEnd, s + 1);
      }
      NoCloseNoBlock(lines, IsDocStart, IsDocEnd, 1);
  }

  /** The documentation comes from the first block the line search finds from line 1 on. */
  lemma {:induction false} DocIsFirstBlock(lines: seq<string>)
    ensures var spans := SpansFrom(lines, IsDocStart, IsDocEnd, 1);
      && (WorkflowDocOf(lines).None? <==> spans == [])
      && (spans != [] ==> WorkflowDocOf(lines) == Some(Without(lines[spans[0].open + 1..spans[0].close], "")))
  {
    SpansFromFirst(lines, IsDocStart, IsDocEnd, 1);
  }

  /** Only the lines after line 0 are searched and returned. */
  lemma {:induction false} DocAgree(a: seq<string>, b: seq<string>)
    requires AgreeFrom(a, b, 1)
    ensures WorkflowDocOf(a) == WorkflowDocOf(b)
  {
    FirstSpanAgree(a, b, IsDocStart, IsDocEnd, 1);
    DocOfSpan(a);
    DocOfSpan(b);
    if FirstSpan(a, IsDocStart, IsDocEnd, 1).Some? {
      var sp := FirstSpan(a, IsDocStart, IsDocEnd, 1).value;
      assert a[sp.open + 1..sp.close] == b[sp.open + 1..sp.close];
    }
  }

  /** The documentation in terms of the first span alone. */
  lemma {:induction false} DocOfSpan(lines: seq<string>)
    ensures var sp := FirstSpan(lines, IsDocStart, IsDocEnd, 1);
      WorkflowDocOf(lines) == if sp.None? then None else Some(Without(lines[sp.value.open + 1..sp.value.close], ""))
  {
  }

  /** So what line 0 holds never matters. */
  lemma {:induction false} FirstLineNeverOpensDoc(x: string, y: string, rest: seq<string>)
    ensures WorkflowDocOf([x] + rest) == WorkflowDocOf([y] + rest)
  {
    var a, b := [x] + rest, [y] + rest;
    assert forall i :: 1 <= i < |a| ==> a[i] == rest[i - 1] == b[i];
    DocAgree(a, b);
  }
}
