/**
 * The two regular expressions that recognise a pipeline method in a Groovy
 * workflow file (scripts/generate_docs.py:9-10): a declaration line
 * `public name(args) {` and a closing line `}`.
 *
 * Python's `re.match` anchors at the start; `$` matches at the end of the
 * line or just before a final newline; `.` matches anything but a newline;
 * `.+?` is lazy, so the method name ends at the first `(` that still leaves a
 * non-empty argument list before the closing `) {`.
 */
module Declarations {
  import opened Builtins

  /**
   * The first index from `k` on that holds `(` and is followed by at least one
   * more character; an index with `j + 1 >= |m|` when there is none.
   */
  function NameEnd(m: string, k: nat): (j: nat)
    ensures k <= j
    ensures j + 1 < |m| ==> m[j] == '('
    decreases |m| - k
  {
    if k + 1 >= |m| || m[k] == '(' then k else NameEnd(m, k + 1)
  }

  lemma {:induction false} NameEndSkips(m: string, k: nat)
    ensures forall i :: k <= i < NameEnd(m, k) && i < |m| ==> m[i] != '('
    decreases |m| - k
  {
    if k + 1 < |m| && m[k] != '(' {
      NameEndSkips(m, k + 1);
    }
  }

  lemma {:induction false} NameEndIs(m: string, k: nat, j: nat)
    requires k <= j && j + 1 < |m| && m[j] == '('
    requires forall i :: k <= i < j ==> m[i] != '('
    ensures NameEnd(m, k) == j
    decreases j - k
  {
    if k < j {
      NameEndIs(m, k + 1, j);
    }
  }

  /**
   * What lies between `public ` and the closing `) {` of a declaration line,
   * if the line has that frame: the text right after `public `, followed by
   * at least the three characters `) {`.
   */
  function DeclMiddle(line: string): (r: Option<string>)
    ensures r.Some? ==> StartsWith(line, "public ") && |line| >= |r.value| + 10 && line[7..7 + |r.value|] == r.value
  {
    if !StartsWith(line, "public ") then None
    else
      var rest := line[7..];
      if EndsWith(rest, ") {") then Some(rest[..|rest| - 3])
      else if EndsWith(rest, ") {\n") then Some(rest[..|rest| - 4])
      else None
  }

  /**
   * `METHOD_DEF_REGEX.match(line)`: the groups `method_name` and `method_args`
   * when the line declares a method, `None` otherwise.
   */
  function MatchDecl(line: string): (r: Option<(string, string)>)
    ensures r.Some? ==> |r.value.0| >= 1 && |r.value.1| >= 1
  {
    match DeclMiddle(line)
    case None => None
    case Some(m) =>
      if '\n' in m then None
      else
        var k := NameEnd(m, 1);
        if k + 1 < |m| then Some((m[..k], m[k + 1..])) else None
  }

  /** A line the declaration regex matches: it starts with `public `, so it never closes a method. */
  predicate IsDecl(line: string)
    ensures IsDecl(line) ==> StartsWith(line, "public ") && !IsClose(line)
  {
    MatchDecl(line).Some?
  }

  /**
   * `METHOD_END_REGEX.match(line)`: a lone closing brace, with or without a
   * final newline; such a line strips to the brace.
   */
  predicate IsClose(line: string)
    ensures IsClose(line) ==> Strip(line) == "}"
  {
    BraceStrips();
    line == "}" || line == "}\n"
  }

  /** The two spellings of a closing line both strip to the brace alone. */
  lemma BraceStrips()
    ensures Strip("}") == "}" && Strip("}\n") == "}"
  {
    StripSurrounded("", "}", "");
    assert "" + "}" + "" == "}";
    assert IsSpace('\n');
    StripSurrounded("", "}", "\n");
    assert "" + "}" + "\n" == "}\n";
  }

  /** A line framed as a declaration around `middle`, with or without a final newline. */
  function DeclFrame(middle: string, newline: bool): string {
    "public " + middle + ") {" + (if newline then "\n" else "")
  }

  /** The declaration line of method `name` with parameter text `args`. */
  function DeclLine(name: string, args: string, newline: bool): string {
    DeclFrame(name + "(" + args, newline)
  }

  /**
   * The name and parameter text the lazy groups capture: both non-empty, no
   * newline, and no `(` in the name after its first character.
   */
  predicate DeclParts(name: string, args: string) {
    && |name| >= 1 && |args| >= 1
    && '\n' !in name && '\n' !in args
    && forall i :: 1 <= i < |name| ==> name[i] != '('
  }

  lemma {:induction false} DeclFrameMiddle(m: string, newline: bool)
    ensures DeclMiddle(DeclFrame(m, newline)) == Some(m)
  {
    var line := DeclFrame(m, newline);
    var rest := m + ") {" + (if newline then "\n" else "");
    assert line == "public " + rest;
    assert line[..7] == "public " && line[7..] == rest;
    if newline {
      assert rest[|rest| - 1] == '\n';
      assert rest[|rest| - 4..] == ") {\n";
      assert rest[..|rest| - 4] == m;
    } else {
      assert rest[|rest| - 3..] == ") {";
      assert rest[..|rest| - 3] == m;
    }
  }

  /** The declaration regex captures exactly the name and parameter text the line was built from. */
  lemma {:induction false} MatchDeclLine(name: string, args: string, newline: bool)
    requires DeclParts(name, args)
    ensures MatchDecl(DeclLine(name, args, newline)) == Some((name, args))
  {
    DeclFrameMiddle(name + "(" + args, newline);
    var m := name + "(" + args;
    assert m[..|name|] == name && m[|name|] == '(' && m[|name| + 1..] == args;
    assert '\n' !in m by {
      forall i | 0 <= i < |m| ensures m[i] != '\n' {
        if i < |name| { assert m[i] == name[i]; }
        else if i > |name| { assert m[i] == args[i - |name| - 1]; }
      }
    }
    forall i | 1 <= i < |name| ensures m[i] != '(' {
      assert m[i] == name[i];
    }
    NameEndIs(m, 1, |name|);
  }

  lemma {:induction false} DeclMiddleShape(line: string)
    requires DeclMiddle(line).Some?
    ensures line == DeclFrame(DeclMiddle(line).value, false) || line == DeclFrame(DeclMiddle(line).value, true)
  {
    var rest := line[7..];
    assert line == line[..7] + rest;
    if EndsWith(rest, ") {") {
      var m := rest[..|rest| - 3];
      assert rest == m + ") {";
      assert DeclFrame(m, false) == "public " + (m + ") {");
    } else {
      var m := rest[..|rest| - 4];
      assert rest == m + ") {\n";
      assert DeclFrame(m, true) == "public " + (m + ") {\n");
    }
  }

  /** Every match of the declaration regex is a declaration line built from the captured groups. */
  lemma {:induction false} MatchDeclShape(line: string)
    requires IsDecl(line)
    ensures var (name, args) := MatchDecl(line).value;
      && DeclParts(name, args)
      && (line == DeclLine(name, args, false) || line == DeclLine(name, args, true))
  {
    DeclMiddleShape(line);
    var m := DeclMiddle(line).value;
    var k := NameEnd(m, 1);
    NameEndSkips(m, 1);
    var name, args := m[..k], m[k + 1..];
    assert m == name + "(" + args;
    forall i | 1 <= i < |name| ensures name[i] != '(' {
      assert name[i] == m[i];
    }
  }

  /** A blank line `"\n"` is neither a declaration nor a closing brace, so skipping it changes nothing. */
  lemma NewlineIsInert()
    ensures !IsDecl("\n") && !IsClose("\n")
  {
  }
}
