/**
 * Extracting the pipeline methods of a Groovy workflow file: the `Method`
 * record (scripts/generate_docs.py:38-44) and `parse_file` (lines 50-94).
 *
 * A file is a list of lines. A method starts at a declaration line and ends
 * at the next closing-brace line; the line just above the declaration
 * decides its documentation (a block comment) or its deprecation (an
 * `@Deprecated` annotation).
 */
module Extractor {
  import opened Builtins
  import opened Lines
  import opened Arguments
  import opened Declarations

  /** One extracted pipeline method. */
  datatype Method = Method(name: string, args: seq<Arg>, body: seq<string>, doc: string, deprecated: bool)

  /**
   * The comment-open line: exactly a slash and an asterisk, which opens a
   * documentation block. The comment end is an asterisk and a slash.
   */
  predicate IsCommentOpen(line: string) {
    line == "/*"
  }

  // ---------------------------------------------------------------------------
  // The specification: which line pairs make methods, and what each holds
  // ---------------------------------------------------------------------------

  /**
   * The lines strictly between the nearest comment-open line before index
   * `hi - 1` and that index (none if there is no such line): the block comment
   * that ends on line `hi - 1`. None of them opens a comment.
   */
  function CommentBlock(lines: seq<string>, hi: nat): (r: seq<string>)
    requires 1 <= hi <= |lines|
    ensures |r| < hi
    ensures forall k :: 0 <= k < |r| ==> !IsCommentOpen(r[k])
  {
    LastSkips(lines, IsCommentOpen, hi);
    match Last(lines, IsCommentOpen, hi)
    case None => []
    case Some(j) =>
      var r := Slice(lines, j + 1, hi - 1);
      assert forall k :: 0 <= k < |r| ==> r[k] == lines[j + 1 + k] && j + 1 <= j + 1 + k < hi;
      r
  }

  /**
   * The lines of the documentation of a declaration at `open`: the block
   * comment above it when the line above strips to the comment end, none
   * otherwise. Documentation is always the run of lines between some
   * comment-open line and the comment-end line above the declaration.
   */
  function DocLines(lines: seq<string>, open: nat): (r: seq<string>)
    requires 1 <= open < |lines|
    ensures forall k :: 0 <= k < |r| ==> !IsCommentOpen(r[k])
    ensures r != [] ==> && Strip(lines[open - 1]) == "*/"
                        && exists j :: 0 <= j && j + 1 < open && IsCommentOpen(lines[j]) && r == lines[j + 1..open - 1]
  {
    if Strip(lines[open - 1]) != "*/" then []
    else
      var r := CommentBlock(lines, open);
      assert r != [] ==> exists j :: 0 <= j && j + 1 < open && IsCommentOpen(lines[j]) && r == lines[j + 1..open - 1] by {
        if r != [] {
          var j := Last(lines, IsCommentOpen, open).value;
          assert r == lines[j + 1..open - 1];
        }
      }
      r
  }

  /**
   * Whether the line above a declaration at `open` marks it deprecated: it
   * strips to text starting with `@Deprecated` (the check for the comment end
   * that comes first never excludes such a line).
   */
  predicate Deprecated(lines: seq<string>, open: nat)
    requires 1 <= open < |lines|
    ensures Deprecated(lines, open) <==> StartsWith(Strip(lines[open - 1]), "@Deprecated")
  {
    var above := Strip(lines[open - 1]);
    above != "*/" && StartsWith(above, "@Deprecated")
  }

  /**
   * The method that the declaration at `open` and the closing brace at `close`
   * delimit: it has a name and at least one argument, and a deprecated method
   * has no documentation.
   */
  function MethodAt(lines: seq<string>, open: nat, close: nat): (m: Method)
    requires 1 <= open < close < |lines| && IsDecl(lines[open])
    ensures |m.name| >= 1 && m.args != []
    ensures m.deprecated <==> StartsWith(Strip(lines[open - 1]), "@Deprecated")
    ensures m.deprecated ==> m.doc == ""
    ensures |m.body| == if close > open + 2 then close - open - 2 else 0
  {
    var groups := MatchDecl(lines[open]).value;
    var doc := DocLines(lines, open);
    assert Deprecated(lines, open) ==> doc == [] && Join(Without(doc, "\n"), "\n") == "";
    Method(
      groups.0,
      ParsedArgs(groups.1),
      Slice(lines, open + 1, close - 1),
      Join(Without(doc, "\n"), "\n"),
      Deprecated(lines, open))
  }

  /** A span whose declaration line can be read back: it lies after line 0 and before its closing brace. */
  predicate SpanOk(lines: seq<string>, sp: Span) {
    1 <= sp.open < sp.close < |lines| && IsDecl(lines[sp.open])
  }

  predicate AllOk(lines: seq<string>, spans: seq<Span>) {
    forall k :: 0 <= k < |spans| ==> SpanOk(lines, spans[k])
  }

  /** The methods the spans delimit, in order. */
  function MethodsOf(lines: seq<string>, spans: seq<Span>): (ms: seq<Method>)
    requires AllOk(lines, spans)
    ensures |ms| == |spans|
  {
    if spans == [] then []
    else [MethodAt(lines, spans[0].open, spans[0].close)] + MethodsOf(lines, spans[1..])
  }

  /** The method at position `k` is the one of the `k`-th span. */
  lemma {:induction false} MethodsOfAt(lines: seq<string>, spans: seq<Span>, k: nat)
    requires AllOk(lines, spans) && k < |spans|
    ensures MethodsOf(lines, spans)[k] == MethodAt(lines, spans[k].open, spans[k].close)
  {
    if k > 0 {
      MethodsOfAt(lines, spans[1..], k - 1);
    }
  }

  /**
   * The spans of `parse_file(lines)`, from line 1 on: each opens on a
   * declaration and closes on a closing brace, and each ends before the next
   * one starts.
   */
  function Spans(lines: seq<string>): (spans: seq<Span>)
    ensures forall k :: 0 <= k < |spans| ==>
      1 <= spans[k].open < spans[k].close < |lines| && IsDecl(lines[spans[k].open]) && IsClose(lines[spans[k].close])
    ensures forall k :: 0 < k < |spans| ==> spans[k - 1].close < spans[k].open
  {
    SpansFromBounds(lines, IsDecl, IsClose, 1);
    SpansFrom(lines, IsDecl, IsClose, 1)
  }

  /**
   * What `parse_file(lines)` returns: the method of each span, in order. Line
   * 0 is the "no method open" sentinel of the source, so the search starts at
   * line 1: a declaration on line 0 never opens a method.
   */
  function ParsedFile(lines: seq<string>): (ms: seq<Method>)
    ensures |ms| == |Spans(lines)|
    ensures forall k :: 0 <= k < |ms| ==> ms[k] == MethodAt(lines, Spans(lines)[k].open, Spans(lines)[k].close)
  {
    var spans := Spans(lines);
    assert AllOk(lines, spans) by {
      forall k | 0 <= k < |spans| ensures SpanOk(lines, spans[k]) {
      }
    }
    var ms := MethodsOf(lines, spans);
    assert forall k :: 0 <= k < |ms| ==> ms[k] == MethodAt(lines, spans[k].open, spans[k].close) by {
      forall k | 0 <= k < |ms| ensures ms[k] == MethodAt(lines, spans[k].open, spans[k].close) {
        MethodsOfAt(lines, spans, k);
      }
    }
    ms
  }

  // ---------------------------------------------------------------------------
  // The imperative extraction
  // ---------------------------------------------------------------------------

  /** `Method(...)`: the record holds the parsed parameter list and the other values as given. */
  method NewMethod(name: string, body: seq<string>, args: string, doc: string, deprecated: bool)
    returns (m: Method)
    ensures m == Method(name, ParsedArgs(args), body, doc, deprecated)
  {
    var parsed := Parse(args);
    assert parsed == ParsedArgs(args);
    m := Method(name, parsed, body, doc, deprecated);
  }

  /**
   * The backwards walk of `parse_file` from the line above a declaration to
   * the nearest comment-open line, returning the lines strictly between.
   */
  method DocBlock(lines: seq<string>, docEnd: nat) returns (docLines: seq<string>)
    requires docEnd < |lines|
    ensures docLines == CommentBlock(lines, docEnd + 1)
  {
    docLines := [];
    var i := 0;
    while i <= docEnd
      invariant i <= docEnd + 1
      invariant NoneIn(lines, IsCommentOpen, docEnd + 1 - i, docEnd + 1)
    {
      if lines[docEnd - i] == "/*" {
        var docStart := docEnd - i;
        docLines := Slice(lines, docStart + 1, docEnd);
        LastIs(lines, IsCommentOpen, docEnd + 1, docStart);
        return;
      }
      i := i + 1;
    }
    LastNone(lines, IsCommentOpen, docEnd + 1);
  }

  /**
   * What `parse_file` reads from the line above a declaration at `start`: the
   * documentation block when that line strips to the comment end, otherwise
   * whether it marks the method deprecated.
   */
  method ReadAbove(lines: seq<string>, start: nat) returns (docLines: seq<string>, deprecated: bool)
    requires 1 <= start < |lines|
    ensures docLines == DocLines(lines, start)
    ensures deprecated == Deprecated(lines, start)
  {
    deprecated := false;
    docLines := [];
    var above := Strip(lines[start - 1]);
    if above == "*/" {
      docLines := DocBlock(lines, start - 1);
      assert start - 1 + 1 == start;
    } else if StartsWith(above, "@Deprecated") {
      deprecated := true;
    }
  }

  /**
   * The body of `parse_file`'s loop at a closing brace on line `end` while the
   * declaration on line `start` (with captured groups `groups`) is open.
   */
  method MethodAtClose(lines: seq<string>, start: nat, end: nat, groups: (string, string))
    returns (m: Method)
    requires 1 <= start < end < |lines| && MatchDecl(lines[start]) == Some(groups)
    ensures m == MethodAt(lines, start, end)
  {
    var docLines, deprecated := ReadAbove(lines, start);
    m := NewMethod(groups.0, Slice(lines, start + 1, end - 1), groups.1,
                   Join(Without(docLines, "\n"), "\n"), deprecated);
  }

  /**
   * What `parse_file` holds after reading the lines before `i`: `v` is the
   * state of the single pass, `start` its open declaration line (0 for none)
   * with captured `groups`, and `functions` the methods of the completed spans.
   */
  ghost predicate Scanned(lines: seq<string>, i: nat, v: Pass, start: nat, groups: (string, string), functions: seq<Method>) {
    && i <= |lines|
    && v == PassAfter(lines, IsDecl, IsClose, i) && v.start == start
    && (start != 0 ==> start < i && MatchDecl(lines[start]) == Some(groups))
    && AllOk(lines, v.done) && |functions| == |v.done|
    && forall k :: 0 <= k < |v.done| ==> functions[k] == MethodAt(lines, v.done[k].open, v.done[k].close)
  }

  /** One turn of `parse_file`'s loop, reading line `i`. */
  method ScanLine(lines: seq<string>, i: nat, start: nat, groups: (string, string), functions: seq<Method>, ghost v: Pass)
    returns (start': nat, groups': (string, string), functions': seq<Method>, ghost v': Pass)
    requires i < |lines| && Scanned(lines, i, v, start, groups, functions)
    ensures Scanned(lines, i + 1, v', start', groups', functions')
  {
    start', groups', functions' := start, groups, functions;
    v' := PassStep(lines, IsDecl, IsClose, i, v);
    if lines[i] == "\n" {
      NewlineIsInert();
      return;
    }
    var isDecl := MatchDecl(lines[i]);
    if start != 0 {
      if IsClose(lines[i]) {
        var m := MethodAtClose(lines, start, i, groups);
        functions' := functions + [m];
        start' := 0;
      }
    } else if isDecl.Some? {
      start' := i;
      groups' := isDecl.value;
    }
  }

  /** `parse_file(lines)`. */
  method ParseFile(lines: seq<string>) returns (functions: seq<Method>)
    ensures functions == ParsedFile(lines)
  {
    functions := [];
    var groups := ("", "");
    var start: nat := 0;
    ghost var v := Pass(0, 1, []);
    for i := 0 to |lines|
      invariant Scanned(lines, i, v, start, groups, functions)
    {
      start, groups, functions, v := ScanLine(lines, i, start, groups, functions, v);
    }
    PassFindsSpans(lines, IsDecl, IsClose);
    assert functions == ParsedFile(lines);
  }

  // ---------------------------------------------------------------------------
  // What `parse_file` promises
  // ---------------------------------------------------------------------------

  /**
   * The methods of a file, in order, are those of the spans that tile it from
   * line 1 on: each starts at the first declaration after the previous method
   * (declarations before its closing brace are ignored), ends at the first
   * closing brace after that, and after the last one no declaration is
   * followed by a closing brace. No other list of spans tiles the file.
   */
  lemma {:induction false} SpansAreTiling(lines: seq<string>, spans: seq<Span>)
    ensures Tiles(lines, IsDecl, IsClose, 1, spans) <==> spans == Spans(lines)
  {
    SpansFromTiles(lines, IsDecl, IsClose, 1);
    if Tiles(lines, IsDecl, IsClose, 1, spans) {
      TilesUnique(lines, IsDecl, IsClose, 1, spans);
    }
  }

  /** A file yields no method exactly when no declaration from line 1 on is followed by a closing brace. */
  lemma {:induction false} NoMethods(lines: seq<string>)
    ensures ParsedFile(lines) == [] <==> NoBlock(lines, IsDecl, IsClose, 1)
  {
    SpansAreTiling(lines, Spans(lines));
    SpansAreTiling(lines, []);
  }

  /** Line 0 is only the "no method open" sentinel: what it holds never changes which spans are found. */
  lemma {:induction false} FirstLineNeverOpens(x: string, y: string, rest: seq<string>)
    ensures Spans([x] + rest) == Spans([y] + rest)
  {
    var a, b := [x] + rest, [y] + rest;
    assert forall i :: 1 <= i < |a| ==> a[i] == rest[i - 1] == b[i];
    SpansFromAgree(a, b, IsDecl, IsClose, 1);
  }

  /** A declaration on the first line of a file is not recognised, even when a closing brace follows it. */
  lemma {:induction false} DeclarationOnLineZero()
    ensures IsDecl("public run(String a) {")
    ensures ParsedFile(["public run(String a) {", "}"]) == []
  {
    var name, args := "run", "String a";
    assert forall i :: 1 <= i < |name| ==> name[i] != '(';
    MatchDeclLine(name, args, false);
    assert DeclLine(name, args, false) == "public run(String a) {";
    var lines := ["public run(String a) {", "}"];
    assert !IsDecl(lines[1]);
    assert First(lines, IsDecl, 1) == 2;
  }

  /**
   * The body of a method is every line strictly between its declaration and
   * its closing brace except the last one: the line just before the closing
   * brace is dropped.
   */
  lemma {:induction false} BodyDropsLastLine(lines: seq<string>, open: nat, close: nat)
    requires SpanOk(lines, Span(open, close))
    ensures var body := MethodAt(lines, open, close).body;
      && (close == open + 1 ==> body == [])
      && (close >= open + 2 ==> body + [lines[close - 1]] == lines[open + 1..close])
  {
    var body := MethodAt(lines, open, close).body;
    if close >= open + 2 {
      assert body == lines[open + 1..close - 1];
    }
  }

  /** The comment-open line does not strip to the comment end. */
  lemma CommentOpenIsNotEnd(line: string)
    requires Strip(line) == "*/"
    ensures !IsCommentOpen(line)
  {
    assert Trimmed("/*");
    StripSurrounded("", "/*", "");
    assert "" + "/*" + "" == "/*";
  }

  /**
   * Under a block comment, the documentation is the lines strictly between
   * the nearest comment-open line above the declaration and the line above
   * it, whose strip is the comment end; such a method is never deprecated.
   */
  lemma {:induction false} DocFromComment(lines: seq<string>, open: nat, j: nat)
    requires 1 <= open < |lines| && j < open
    requires lines[j] == "/*" && NoneIn(lines, IsCommentOpen, j + 1, open)
    requires Strip(lines[open - 1]) == "*/"
    ensures j + 1 < open && DocLines(lines, open) == lines[j + 1..open - 1]
    ensures !Deprecated(lines, open)
  {
    CommentOpenIsNotEnd(lines[open - 1]);
    LastIs(lines, IsCommentOpen, open, j);
  }

  /** Without a comment-open line above the declaration, the documentation is empty. */
  lemma {:induction false} NoCommentNoDoc(lines: seq<string>, open: nat)
    requires 1 <= open < |lines| && NoneIn(lines, IsCommentOpen, 0, open)
    ensures DocLines(lines, open) == []
  {
    LastNone(lines, IsCommentOpen, open);
  }

  /** A deprecated method has no documentation, and a documented one is not deprecated. */
  lemma {:induction false} DeprecatedNoDoc(lines: seq<string>, open: nat)
    requires 1 <= open < |lines|
    ensures Deprecated(lines, open) ==> DocLines(lines, open) == []
  {
    var above := Strip(lines[open - 1]);
    if above == "*/" {
      assert !StartsWith(above, "@Deprecated");
    }
  }

  /** The name and parameters of a method are those its declaration line was written with. */
  lemma {:induction false} NameAndArgs(lines: seq<string>, open: nat, close: nat, name: string, args: seq<Arg>, newline: bool)
    requires 1 <= open < close < |lines|
    requires args != [] && forall i :: 0 <= i < |args| ==> PlainToken(args[i].argType) && PlainToken(args[i].name)
    requires DeclParts(name, RenderArgs(args)) && lines[open] == DeclLine(name, RenderArgs(args), newline)
    ensures SpanOk(lines, Span(open, close))
    ensures MethodAt(lines, open, close).name == name && MethodAt(lines, open, close).args == args
  {
    MatchDeclLine(name, RenderArgs(args), newline);
    ParseRendered(args);
  }

  /** A file that holds one method: a line above, a declaration, body lines and a closing brace. */
  function OneMethodFile(above: string, name: string, args: string, newline: bool, body: seq<string>): seq<string> {
    [above, DeclLine(name, args, newline)] + body + ["}"]
  }

  /**
   * A file that holds one method, with no closing brace among its body lines.
   * It yields that one method, with the last body line dropped, no
   * documentation (the line above cannot both end and open a comment), and
   * deprecated exactly when the line above says so.
   */
  lemma {:induction false} OneMethod(above: string, name: string, args: string, newline: bool, body: seq<string>)
    requires DeclParts(name, args)
    requires forall i :: 0 <= i < |body| ==> !IsClose(body[i])
    ensures ParsedFile(OneMethodFile(above, name, args, newline, body)) ==
      [Method(name, ParsedArgs(args), if body == [] then [] else body[..|body| - 1], "",
              StartsWith(Strip(above), "@Deprecated"))]
  {
    var lines := OneMethodFile(above, name, args, newline, body);
    OneMethodSpans(above, name, args, newline, body);
    OneMethodFields(above, name, args, newline, body);
    assert ParsedFile(lines)[0] == MethodAt(lines, 1, |lines| - 1);
  }

  /** The one declaration and the closing brace are the only span of such a file. */
  lemma {:induction false} OneMethodSpans(above: string, name: string, args: string, newline: bool, body: seq<string>)
    requires DeclParts(name, args)
    requires forall i :: 0 <= i < |body| ==> !IsClose(body[i])
    ensures var lines := OneMethodFile(above, name, args, newline, body);
      Spans(lines) == [Span(1, |lines| - 1)]
  {
    var lines := OneMethodFile(above, name, args, newline, body);
    var close := |lines| - 1;
    MatchDeclLine(name, args, newline);
    assert lines[1] == DeclLine(name, args, newline);
    assert NoneIn(lines, IsClose, 2, close) by {
      forall j | 2 <= j < close ensures !IsClose(lines[j]) {
        assert lines[j] == body[j - 2];
      }
    }
    var sp := Span(1, close);
    assert Delimits(lines, IsDecl, IsClose, 1, sp);
    assert Tiles(lines, IsDecl, IsClose, 1, [sp]);
    SpansAreTiling(lines, [sp]);
  }

  /** The method of that span has the declared name and arguments, the body, no documentation and the mark. */
  lemma {:induction false} OneMethodFields(above: string, name: string, args: string, newline: bool, body: seq<string>)
    requires DeclParts(name, args)
    ensures var lines := OneMethodFile(above, name, args, newline, body);
      && IsDecl(lines[1])
      && MethodAt(lines, 1, |lines| - 1) ==
        Method(name, ParsedArgs(args), if body == [] then [] else body[..|body| - 1], "",
               StartsWith(Strip(above), "@Deprecated"))
  {
    var lines := OneMethodFile(above, name, args, newline, body);
    var close := |lines| - 1;
    MatchDeclLine(name, args, newline);
    assert lines[1] == DeclLine(name, args, newline);
    if Strip(above) == "*/" {
      CommentOpenIsNotEnd(above);
      LastNone(lines, IsCommentOpen, 1);
    }
    assert Join(Without([], "\n"), "\n") == "";
    if body != [] {
      assert Slice(lines, 2, close - 1) == body[..|body| - 1];
    }
  }
}
