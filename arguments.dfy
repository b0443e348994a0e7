/**
 * Parameter lists of pipeline methods: the `Arg` record and `Arg.parse`
 * (scripts/generate_docs.py:14-35).
 */
module Arguments {
  import opened Builtins

  /** One declared parameter: its type and its name. */
  datatype Arg = Arg(argType: string, name: string)

  /**
   * The `Arg` one comma-separated entry stands for: the entry is stripped and
   * split on single spaces; two or more tokens give type and name (later tokens
   * are ignored), a single token is the name of an `Object`.
   */
  function EntryArg(entry: string): (a: Arg)
    ensures ' ' !in a.argType && ' ' !in a.name
  {
    var tokens := Split(Strip(entry), ' ');
    if |tokens| > 1 then Arg(tokens[0], tokens[1]) else Arg("Object", tokens[0])
  }

  /** What `Arg.parse(data)` returns: one `Arg` per comma-separated entry, in input order. */
  function ParsedArgs(data: string): (args: seq<Arg>)
    ensures |args| == |Split(data, ',')|
  {
    var entries := Split(data, ',');
    seq(|entries|, i requires 0 <= i < |entries| => EntryArg(entries[i]))
  }

  /** `Arg.parse(data)`. */
  method Parse(data: string) returns (args: seq<Arg>)
    ensures |args| == |Split(data, ',')|
    ensures forall i :: 0 <= i < |args| ==> args[i] == EntryArg(Split(data, ',')[i])
  {
    var entries := Split(data, ',');
    args := [];
    for i := 0 to |entries|
      invariant |args| == i
      invariant forall k :: 0 <= k < i ==> args[k] == EntryArg(entries[k])
    {
      var argDef := Split(Strip(entries[i]), ' ');
      var argType, argName;
      if |argDef| > 1 {
        argType := argDef[0];
        argName := argDef[1];
      } else {
        argType := "Object";
        argName := argDef[0];
      }
      args := args + [Arg(argType, argName)];
    }
  }

  /** There is one argument more than there are commas: `Arg.parse` never returns an empty list. */
  lemma {:induction false} ParsedArgsCount(data: string)
    ensures |ParsedArgs(data)| == 1 + multiset(data)[',']
    ensures ParsedArgs(data) != []
  {
    SplitCount(data, ',');
  }

  /** An entry without an inner space is the name of an `Object`: the whole stripped entry. */
  lemma {:induction false} EntryArgSingleToken(entry: string)
    requires ' ' !in Strip(entry)
    ensures EntryArg(entry) == Arg("Object", Strip(entry))
  {
    var t := Strip(entry);
    SplitCount(t, ' ');
    assert multiset(t)[' '] == 0;
    SplitJoin(t, ' ');
  }

  /**
   * An entry with an inner space gives its first two space-separated tokens:
   * the stripped entry starts with `type + " " + name`, neither holds a space,
   * and what follows them (if anything) starts with a space.
   */
  lemma {:induction false} EntryArgTwoTokens(entry: string)
    requires ' ' in Strip(entry)
    ensures var t, a := Strip(entry), EntryArg(entry);
      && ' ' !in a.argType && ' ' !in a.name
      && StartsWith(t, a.argType + " " + a.name)
      && (|t| == |a.argType| + 1 + |a.name| || t[|a.argType| + 1 + |a.name|] == ' ')
  {
    var t := Strip(entry);
    var tokens := Split(t, ' ');
    SplitCount(t, ' ');
    assert multiset(t)[' '] > 0;
    SplitJoin(t, ' ');
    JoinFirstTwo(tokens, " ");
    JoinStartsWithFirstTwo(tokens, " ");
  }

  /** The text `Type name` a declaration carries for one argument. */
  function RenderArg(a: Arg): string {
    a.argType + " " + a.name
  }

  /** The parameter-list text a declaration carries for `args`: `Type name, Type name`. */
  function RenderArgs(args: seq<Arg>): string {
    Join(seq(|args|, i requires 0 <= i < |args| => (if i == 0 then "" else " ") + RenderArg(args[i])), ",")
  }

  /** A type or name that a parameter list can carry back unchanged. */
  predicate PlainToken(s: string) {
    s != [] && ',' !in s && forall i :: 0 <= i < |s| ==> !IsSpace(s[i])
  }

  lemma {:induction false} PlainTokenHasNoSpace(s: string)
    requires PlainToken(s)
    ensures ' ' !in s && !IsSpace(s[0]) && !IsSpace(s[|s| - 1])
  {
    assert IsSpace(' ');
  }

  lemma {:induction false} EntryOfRendered(lead: string, a: Arg)
    requires AllSpace(lead)
    requires PlainToken(a.argType) && PlainToken(a.name)
    ensures EntryArg(lead + RenderArg(a)) == a
  {
    var t, n := a.argType, a.name;
    PlainTokenHasNoSpace(t);
    PlainTokenHasNoSpace(n);
    var core := RenderArg(a);
    assert core == t + [' '] + n;
    assert core[0] == t[0] && core[|core| - 1] == n[|n| - 1];
    StripLeading(lead, core);
    SplitPair(t, n, ' ');
  }

  /** Parsing the rendered parameter list of plain, non-empty arguments gives them back. */
  lemma {:induction false} ParseRendered(args: seq<Arg>)
    requires args != []
    requires forall i :: 0 <= i < |args| ==> PlainToken(args[i].argType) && PlainToken(args[i].name)
    ensures ParsedArgs(RenderArgs(args)) == args
  {
    var entries := seq(|args|, i requires 0 <= i < |args| => (if i == 0 then "" else " ") + RenderArg(args[i]));
    forall i | 0 <= i < |entries| ensures ',' !in entries[i] {
      assert PlainToken(args[i].argType) && PlainToken(args[i].name);
    }
    JoinSplit(entries, ',');
    assert Split(RenderArgs(args), ',') == entries;
    forall i | 0 <= i < |args| ensures ParsedArgs(RenderArgs(args))[i] == args[i] {
      var lead := if i == 0 then "" else " ";
      assert AllSpace(lead);
      EntryOfRendered(lead, args[i]);
    }
  }

  /** A lone entry `Type name` is a parameter `name` of type `Type`. */
  lemma {:induction false} TypedEntry(t: string, n: string)
    requires PlainToken(t) && PlainToken(n)
    ensures ParsedArgs(t + " " + n) == [Arg(t, n)]
  {
    var a := Arg(t, n);
    ParseRendered([a]);
    var entries := seq(1, i requires 0 <= i < 1 => (if i == 0 then "" else " ") + RenderArg([a][i]));
    assert entries == ["" + RenderArg(a)];
    assert RenderArgs([a]) == Join(entries, ",");
    assert "" + RenderArg(a) == t + " " + n;
  }

  /** A lone entry `name` is a parameter `name` of the default type `Object`. */
  lemma {:induction false} UntypedEntry(n: string)
    requires PlainToken(n)
    ensures ParsedArgs(n) == [Arg("Object", n)]
  {
    SplitNone(n, ',');
    PlainTokenHasNoSpace(n);
    StripLeading("", n);
    assert "" + n == n;
    SplitNone(n, ' ');
  }

  /** An empty parameter list is not special-cased: it yields one `Object` named `""`. */
  lemma {:induction false} EmptyListExample()
    ensures ParsedArgs("") == [Arg("Object", "")]
  {
  }
}
