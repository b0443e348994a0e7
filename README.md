# A verified model of the Groovy workflow documentation extractor

`scripts/generate_docs.py` turns Groovy workflow files into Markdown pages.
It reads each file's lines and does five things:

- It finds every pipeline method: a line `public name(args) {` up to the next
  line `}`.
- It reads the `/* ... */` documentation block or the `@Deprecated` mark above
  each method.
- It reads the file-level documentation held in a `workflowDoc = '''` string.
- It lays out the parameters of a method as a table, with the columns in a
  fixed order.
- It writes a level-3 heading for each method.

This project models that core in Dafny and proves what it does.

The modules follow the script:

- `Builtins`: the Python string and list operations the script relies on.
  These are `strip`, `split`, `join`, `startswith`, slicing with clamped
  bounds, `list.remove`, `list.insert` with a negative index, and `sorted` on
  strings.
- `Arguments`: `Arg.parse`, which turns the text between the parentheses of a
  declaration into typed arguments.
- `Declarations`: the two regular expressions, `^public (.+?)\((.+?)\) \{$`
  and `^\}$`.
- `Lines`: a search for the first or last line that passes a test, and the
  blocks that an opening line and a closing line delimit. Both scanning loops
  are specified with it.
- `Extractor`: `Method` and `parse_file`.
- `WorkflowDoc`: `get_workflow_doc`.
- `Columns`: `sort_columns`. The list it empties in place is modelled as a
  class.
- `Table`: the rows and columns that `create_markdown_table` hands to the
  layout.
- `Heading`: the method heading of `create_markdown_doc`.

Each loop of the modelled functions is a Dafny `method` with its loop
invariants. Each method is proved equal to a specification function, and the
properties are proved about that function.

The model keeps the behaviour of the code as written:

- Index 0 doubles as "not found". A declaration or a `workflowDoc` opener on
  the first line is never seen.
- A method body is the lines strictly between the declaration and the
  closing brace, except the last of them: the slice stops one line short.
- The skip of `"\n"` lines has no effect. A line from `splitlines()` never
  equals `"\n"`, and a declaration or a closing brace is never `"\n"`. The
  backward search for `/*` skips nothing.
- `sort_columns` takes the fixed columns present in the order `name`,
  `required`, `type`, `description`. It then inserts each other column, in
  sorted order, just before the last element of the result. So the other
  columns end up before the last fixed column found. With no fixed column
  present, the sorted list comes out with its smallest column moved to the
  end.
- The `required` cell tests `== True`. Python's integer 1 equals `True`, so a
  value of 1 also gives `Required`.
- The declaration regex needs at least one character between the
  parentheses, so `public f() {` is never a method. Called directly on `""`,
  `Arg.parse` gives one argument `Object` with an empty name.

## Model

| member | source | states |
|---|---|---|
| Builtins.LeftEnd | scripts/generate_docs.py:25 | the first non-space index from a position |
| Builtins.IsSpace | scripts/generate_docs.py:25 | definition: the characters `str.isspace()` accepts, which `strip()` removes |
| Builtins.RightEnd | scripts/generate_docs.py:25 | just past the last non-space index before a position |
| Builtins.Strip | scripts/generate_docs.py:25 | `strip()` leaves no whitespace at either end and never lengthens the text |
| Builtins.LeftEndStops | scripts/generate_docs.py:25 | the leading whitespace run ends at a non-space or at the end |
| Builtins.LeftEndUnique | scripts/generate_docs.py:25 | any index that ends the leading whitespace run is that end |
| Builtins.RightEndStops | scripts/generate_docs.py:25 | the trailing whitespace run starts after a non-space or at the start |
| Builtins.RightEndUnique | scripts/generate_docs.py:25 | any index that starts the trailing whitespace run is that start |
| Builtins.StripSplits | scripts/generate_docs.py:25 | a text is its leading whitespace, its strip and its trailing whitespace |
| Builtins.StripSurrounded | scripts/generate_docs.py:25 | stripping whitespace from around a trimmed text gives that text |
| Builtins.StripLeading | scripts/generate_docs.py:25 | stripping leading whitespace from a trimmed text gives that text |
| Builtins.Split | scripts/generate_docs.py:25-26 | `split(sep)` gives at least one piece, none holding the separator |
| Builtins.SplitJoin | scripts/generate_docs.py:25-26 | joining the pieces of a split with the separator gives the text back |
| Builtins.JoinSplit | scripts/generate_docs.py:25-26 | separator-free pieces are exactly what splitting their join returns |
| Builtins.SplitNone | scripts/generate_docs.py:25-26 | a text without the separator is one piece |
| Builtins.SplitPair | scripts/generate_docs.py:26 | two separator-free pieces joined by the separator split back into the two |
| Builtins.SplitCount | scripts/generate_docs.py:25 | there is one piece more than there are separators |
| Builtins.JoinFirstTwo | scripts/generate_docs.py:26 | a join of two or more parts is the first two with the separator between them, then the rest |
| Builtins.JoinStartsWithFirstTwo | scripts/generate_docs.py:26 | such a join starts with the first two parts and the separator between them |
| Builtins.Join | scripts/generate_docs.py:83-84 | definition: `sep.join(parts)` |
| Builtins.StartsWith | scripts/generate_docs.py:75 | definition: `s.startswith(prefix)` |
| Builtins.Slice | scripts/generate_docs.py:72-73 | `s[lo:hi]` is clamped to the length and holds the elements from `lo` on |
| Builtins.Without | scripts/generate_docs.py:83-84 | the comprehension drops every copy of one value and keeps every other element |
| Builtins.RemoveFirst | scripts/generate_docs.py:130 | `remove(x)` on a list holding `x` drops exactly one `x` |
| Builtins.InsertAt | scripts/generate_docs.py:142 | `insert(i, x)` puts `x` at index `i`, counted from the end when `i` is negative |
| Builtins.StrLe | scripts/generate_docs.py:141 | a prefix comes no later than the text it starts |
| Builtins.StrLeTotal | scripts/generate_docs.py:141 | any two strings are ordered one way or the other |
| Builtins.StrLeTransitive | scripts/generate_docs.py:141 | the order is transitive |
| Builtins.StrLeAntisymmetric | scripts/generate_docs.py:141 | two strings ordered both ways are equal |
| Builtins.Sort | scripts/generate_docs.py:141 | `sorted` returns a sorted permutation of its input |
| Builtins.SortedUnique | scripts/generate_docs.py:141 | two sorted permutations of each other are equal, so `sorted` depends only on the elements |
| Arguments.ParsedArgs | scripts/generate_docs.py:23-35 | one argument per comma-separated entry |
| Arguments.EntryArg | scripts/generate_docs.py:26-32 | an entry gives a type and a name, neither with a space in it |
| Arguments.Parse | scripts/generate_docs.py:23-35 | the loop returns, entry by entry, the argument of each stripped entry |
| Arguments.ParsedArgsCount | scripts/generate_docs.py:25 | the number of arguments is one more than the number of commas, so never zero |
| Arguments.EntryArgSingleToken | scripts/generate_docs.py:30-32 | an entry without an inner space is an `Object` argument named by the stripped entry |
| Arguments.EntryArgTwoTokens | scripts/generate_docs.py:26-29 | an entry with a space gives its first two space-separated tokens as type and name; the entry starts with them |
| Arguments.PlainTokenHasNoSpace | scripts/generate_docs.py:26 | a plain token holds no separator space and no surrounding whitespace |
| Arguments.EntryOfRendered | scripts/generate_docs.py:25-34 | an entry written as `type name` after any whitespace parses back to that argument |
| Arguments.ParseRendered | scripts/generate_docs.py:23-35 | round trip: a written parameter list of plain tokens parses back to the same arguments |
| Arguments.TypedEntry | scripts/generate_docs.py:27-29 | `Thing foo` parses to type `Thing`, name `foo` |
| Arguments.UntypedEntry | scripts/generate_docs.py:30-32 | `foo` parses to type `Object`, name `foo` |
| Arguments.EmptyListExample | scripts/generate_docs.py:25-32 | the empty text parses to one `Object` argument with an empty name |
| Declarations.NameEnd | scripts/generate_docs.py:9 | the lazy name group ends at the first `(` that leaves argument text after it |
| Declarations.NameEndSkips | scripts/generate_docs.py:9 | no `(` lies between the start of the search and the end of the name |
| Declarations.NameEndIs | scripts/generate_docs.py:9 | the first such `(` is where the name ends |
| Declarations.MatchDecl | scripts/generate_docs.py:9 | a match captures a non-empty name and non-empty arguments |
| Declarations.DeclMiddle | scripts/generate_docs.py:9 | a line in the declaration frame starts with `public `, and the middle is the text right after it |
| Declarations.IsDecl | scripts/generate_docs.py:9 | a declaration starts with `public ` and is never a closing brace |
| Declarations.IsClose | scripts/generate_docs.py:10 | a closing-brace line strips to `}` alone |
| Declarations.BraceStrips | scripts/generate_docs.py:10 | both spellings of the closing-brace line, with and without a final newline, strip to `}` |
| Declarations.DeclFrameMiddle | scripts/generate_docs.py:9 | the text between `public ` and `) {` of a framed line, with or without a final newline, is recovered |
| Declarations.MatchDeclLine | scripts/generate_docs.py:9 | round trip: a declaration line built from a name and arguments captures exactly them |
| Declarations.DeclMiddleShape | scripts/generate_docs.py:9 | a line with the declaration frame is that frame around its middle |
| Declarations.MatchDeclShape | scripts/generate_docs.py:9 | every match is a declaration line built from its groups, and the groups have the lazy-match shape |
| Declarations.NewlineIsInert | scripts/generate_docs.py:59-63 | `"\n"` is neither a declaration nor a closing brace, so skipping it changes nothing |
| Lines.First | scripts/generate_docs.py:100-103 | the found index is at or after the start and passes the test |
| Lines.FirstSkips | scripts/generate_docs.py:100-103 | no line before the found index passes |
| Lines.FirstIs | scripts/generate_docs.py:100-103 | a passing line with no passing line before it is the one found |
| Lines.FirstNone | scripts/generate_docs.py:100-103 | with no passing line, nothing is found |
| Lines.Last | scripts/generate_docs.py:69-74 | the backward search finds a passing line before the bound |
| Lines.LastSkips | scripts/generate_docs.py:69-74 | no passing line lies after the one found, or none at all when none is found |
| Lines.LastIs | scripts/generate_docs.py:69-74 | the last passing line before the bound is the one found |
| Lines.LastNone | scripts/generate_docs.py:69-74 | with no passing line, nothing is found |
| Lines.FirstSpan | scripts/generate_docs.py:97-110 | a found block has its opener after the start and its closer after the opener |
| Lines.FirstSpanDelimits | scripts/generate_docs.py:97-110 | the found block is exactly the first opener with the first closer after it |
| Lines.SpansFromFirst | scripts/generate_docs.py:97-110 | the first block of the repeated search is the single search's block |
| Lines.SpansFrom | scripts/generate_docs.py:58-92 | definition: the blocks from a start line on, each the first opener and the first closer after it, the search resuming after that closer |
| Lines.CloseStep | scripts/generate_docs.py:62-88 | a closer after the first opener ends one block; the search goes on after it |
| Lines.FirstAgree | scripts/generate_docs.py:58-62 | the search reads no line before its start |
| Lines.SpansFromAgree | scripts/generate_docs.py:58-92 | the blocks depend only on the lines from the start on |
| Lines.FirstSpanAgree | scripts/generate_docs.py:98-107 | the same holds for the single block |
| Lines.PassBegin | scripts/generate_docs.py:55-56 | the scan starts with no declaration open and nothing found |
| Lines.PassStep | scripts/generate_docs.py:58-92 | definition: one turn of the loop, with 0 as the "no block open" sentinel: an opener while none is open opens a block, a closer while one is open records it and resets |
| Lines.PassAfter | scripts/generate_docs.py:55-92 | definition: the loop's variables after the first `i` lines, starting from the sentinel 0 and no blocks |
| Lines.PassSkip | scripts/generate_docs.py:62-92 | a line that neither opens nor closes keeps the scan's state |
| Lines.PassOpen | scripts/generate_docs.py:89-92 | an opener while none is open opens a block |
| Lines.PassClose | scripts/generate_docs.py:62-88 | a closer while one is open ends that block and resets |
| Lines.PassEnd | scripts/generate_docs.py:94 | at the end the found blocks are the blocks of the search |
| Lines.PassAfterState | scripts/generate_docs.py:58-92 | the line-by-line scan keeps the scan invariant |
| Lines.SpansFromBounds | scripts/generate_docs.py:58-92 | every block lies inside the lines, opener before closer, opener a declaration |
| Lines.PassFindsSpans | scripts/generate_docs.py:58-92 | the line-by-line scan finds exactly the blocks of the search |
| Lines.NoCloseNoBlock | scripts/generate_docs.py:58-92 | without a closer after the first opener, no opener is followed by a closer |
| Lines.FirstDelimits | scripts/generate_docs.py:58-92 | a closer after the first opener delimits the first block |
| Lines.TilesCons | scripts/generate_docs.py:58-92 | a delimited block followed by a tiling is a tiling |
| Lines.SpansFromTiles | scripts/generate_docs.py:58-92 | the blocks found tile the lines: each is the first opener and first closer after the previous block, and nothing is left over |
| Lines.TilesUnique | scripts/generate_docs.py:58-92 | only the blocks found tile the lines |
| Extractor.MethodsOf | scripts/generate_docs.py:77-87 | one method per block |
| Extractor.MethodsOfAt | scripts/generate_docs.py:77-87 | the method at each position is the one built from the block at that position |
| Extractor.CommentBlock | scripts/generate_docs.py:69-74 | the lines found above hold no `/*` line and are fewer than the lines searched |
| Extractor.IsCommentOpen | scripts/generate_docs.py:70 | definition: the line is exactly `/*` |
| Extractor.DocLines | scripts/generate_docs.py:66-74 | the documentation holds no `/*` line; when it is not empty, the line above the declaration strips to `*/` and the documentation is the lines after some `/*` line up to that one |
| Extractor.Deprecated | scripts/generate_docs.py:75-76 | deprecated exactly when the line above strips to something starting with `@Deprecated` |
| Extractor.MethodAt | scripts/generate_docs.py:77-87 | the method has a non-empty name and at least one argument; it is deprecated exactly when the line above says so, and then has no documentation; its body has two lines fewer than the block, or none |
| Extractor.Spans | scripts/generate_docs.py:58-92 | every block opens on a declaration after line 0 and closes on a later closing brace; the blocks come in order without overlap |
| Extractor.ParsedFile | scripts/generate_docs.py:50-94 | one method per block, in order, each built from its block |
| Extractor.NewMethod | scripts/generate_docs.py:38-44 | the constructor stores the name, body, documentation and mark, and parses the arguments |
| Extractor.DocBlock | scripts/generate_docs.py:68-74 | the backward loop takes the lines strictly between the nearest `/*` and the `*/` line |
| Extractor.ReadAbove | scripts/generate_docs.py:66-76 | the documentation and the deprecation mark read above a declaration are the specified ones |
| Extractor.MethodAtClose | scripts/generate_docs.py:63-88 | at a closing brace, the method built is the specified method of that block |
| Extractor.ScanLine | scripts/generate_docs.py:58-92 | one turn of the loop keeps the scan invariant |
| Extractor.ParseFile | scripts/generate_docs.py:50-94 | `parse_file` returns the method of each block, in order |
| Extractor.SpansAreTiling | scripts/generate_docs.py:58-92 | blocks are found exactly when they tile the file from line 1: one method per `}` while a declaration is open, with declarations inside an open one ignored and the search reset after each close |
| Extractor.NoMethods | scripts/generate_docs.py:50-94 | no method is found exactly when no declaration after line 0 is followed by a closing brace |
| Extractor.FirstLineNeverOpens | scripts/generate_docs.py:55-62 | line 0 never matters to the blocks found |
| Extractor.DeclarationOnLineZero | scripts/generate_docs.py:55-62 | a declaration on line 0 with its brace on line 1 yields no method |
| Extractor.BodyDropsLastLine | scripts/generate_docs.py:81-82 | the body is the lines strictly between declaration and brace, without the last |
| Extractor.CommentOpenIsNotEnd | scripts/generate_docs.py:67-70 | the `*/` line above a declaration is never the `/*` line |
| Extractor.DocFromComment | scripts/generate_docs.py:67-74 | under a `*/` line, the documentation is the lines after the nearest `/*` up to the `*/`, and there is no deprecation mark |
| Extractor.NoCommentNoDoc | scripts/generate_docs.py:66-74 | with no `/*` line above, the documentation is empty |
| Extractor.DeprecatedNoDoc | scripts/generate_docs.py:67-76 | a deprecated method has no documentation |
| Extractor.NameAndArgs | scripts/generate_docs.py:77-86 | the method takes its name and arguments from the declaration line |
| Extractor.OneMethod | scripts/generate_docs.py:50-94 | a file with one declaration and one brace yields exactly that method, with its last body line dropped, no documentation, and deprecated as the line above says |
| Extractor.OneMethodSpans | scripts/generate_docs.py:58-92 | in such a file, the declaration and the brace form the only block |
| Extractor.OneMethodFields | scripts/generate_docs.py:77-87 | the method of that block has the declared name and arguments, the body without its last line, no documentation and the deprecation mark of the line above |
| WorkflowDoc.WorkflowDocOf | scripts/generate_docs.py:97-110 | the documentation holds no empty line |
| WorkflowDoc.IsDocStart | scripts/generate_docs.py:102 | definition: the line starts with `workflowDoc = '''` |
| WorkflowDoc.IsDocEnd | scripts/generate_docs.py:105 | definition: the line strips to `'''` |
| WorkflowDoc.StripIsQuotes | scripts/generate_docs.py:105 | a closing line is exactly the three quotes with only whitespace around them |
| WorkflowDoc.DocStartIsNotEnd | scripts/generate_docs.py:101-106 | an opening line is never a closing line |
| WorkflowDoc.GetWorkflowDoc | scripts/generate_docs.py:97-110 | the loop returns the specified documentation |
| WorkflowDoc.DocBetween | scripts/generate_docs.py:100-110 | the documentation lies between the first opener after line 0 and the first closer after it, and any such pair delimits it |
| WorkflowDoc.NoDoc | scripts/generate_docs.py:109-110 | there is none exactly when no opener after line 0 is followed by a closer |
| WorkflowDoc.DocIsFirstBlock | scripts/generate_docs.py:100-107 | the documentation comes from the first block of the line search |
| WorkflowDoc.DocAgree | scripts/generate_docs.py:98-103 | the result depends only on the lines after line 0 |
| WorkflowDoc.DocOfSpan | scripts/generate_docs.py:109-110 | the documentation is the non-empty inner lines of the first block, or `None` without one |
| WorkflowDoc.FirstLineNeverOpensDoc | scripts/generate_docs.py:98-103 | an opener on line 0 is never seen |
| Columns.ColumnList.constructor | scripts/generate_docs.py:126 | the list holds the columns given |
| Columns.Present | scripts/generate_docs.py:128-139 | the fixed columns present are, in the fixed order, exactly the fixed names the columns hold |
| Columns.TakeOne | scripts/generate_docs.py:128-139 | one block moves a fixed column present from the list to the result; the two lists keep their total length |
| Columns.TakeFixed | scripts/generate_docs.py:128-139 | the four blocks in turn; the two lists keep their total length |
| Columns.Placed | scripts/generate_docs.py:140-143 | the insertion loop loses and adds no column |
| Columns.ColumnOrder | scripts/generate_docs.py:126-145 | the result is a permutation of the input |
| Columns.ColumnList.Remove | scripts/generate_docs.py:130 | `remove` drops the first occurrence of a column the list holds |
| Columns.TakeColumn | scripts/generate_docs.py:128-139 | a fixed column present is moved from the list to the end of the result; otherwise nothing changes |
| Columns.InsertNext | scripts/generate_docs.py:141-142 | one turn of the insertion loop extends the placed prefix of the sorted columns by one |
| Columns.RemoveNext | scripts/generate_docs.py:141-143 | the column just inserted is in the list, and removing it leaves the sorted columns after it |
| Columns.InsertSortedColumns | scripts/generate_docs.py:140-143 | the remaining columns go, sorted, before the last element, and the list is left empty |
| Columns.SortColumns | scripts/generate_docs.py:126-145 | `sort_columns` returns the specified order and empties its argument |
| Columns.PlacedInsert | scripts/generate_docs.py:142 | `insert(len - 1, x)` puts `x` just before the last element, or first into an empty list |
| Columns.PlacedNothing | scripts/generate_docs.py:140 | with nothing left, the fixed columns are the result |
| Columns.PresentIgnoresOthers | scripts/generate_docs.py:128-139 | removing one other column does not change which fixed ones are present |
| Columns.TakeFixedTaken | scripts/generate_docs.py:128-139 | the four blocks take exactly the fixed columns present, in the order name, required, type, description |
| Columns.TakeFixedTakenStep | scripts/generate_docs.py:128-139 | one block adds the fixed column present to the columns taken |
| Columns.TakeFixedLeft | scripts/generate_docs.py:128-139 | together with the fixed columns taken, what they leave accounts for every column |
| Columns.TakeFixedLeftFound | scripts/generate_docs.py:128-139 | one block that finds its column moves it from what is left to what is taken |
| Columns.ColumnOrderShape | scripts/generate_docs.py:126-145 | the result is the fixed columns present with the other columns, sorted, placed just before the last of them |
| Columns.NoFixedRotates | scripts/generate_docs.py:140-143 | with no fixed column, the result is the sorted columns with the first moved to the end |
| Columns.ColumnOrderIgnoresOrder | scripts/generate_docs.py:126-145 | the result depends only on which columns occur, and how often |
| Columns.PresentSameElements | scripts/generate_docs.py:128-139 | the fixed columns present depend only on which columns occur |
| Columns.ColumnOrderNoDup | scripts/generate_docs.py:126-145 | distinct columns stay distinct |
| Table.Get | scripts/generate_docs.py:161 | `row.get(col)` finds a value exactly when the row has the key, and the value is one stored under that key |
| Table.Keys | scripts/generate_docs.py:151 | `row.keys()` has one key per entry, and exactly the keys the entries have |
| Table.NatText | scripts/generate_docs.py:165 | `str` of a number is a non-empty run of digits whose decimal value is the number, with no leading zero |
| Table.Text | scripts/generate_docs.py:165 | the text of an integer, an optional `-` and decimal digits, reads back as that integer |
| Table.EqualsTrue | scripts/generate_docs.py:169 | only a value written `True` or `1` equals `True` |
| Table.Cell | scripts/generate_docs.py:161-171 | a missing key or a `None` value gives an empty cell; a `required` cell is empty, `Required` or `Optional` |
| Table.Cells | scripts/generate_docs.py:160-171 | one cell per column |
| Table.AddKeys | scripts/generate_docs.py:152-154 | the inner loop appends each key of a row not yet seen |
| Table.CollectColumns | scripts/generate_docs.py:151-154 | the nested loops collect the specified columns |
| Table.RowCells | scripts/generate_docs.py:159-171 | the inner loop builds the cells of one row |
| Table.AllRows | scripts/generate_docs.py:158-172 | one row of cells per mapping |
| Table.CreateMarkdownTable | scripts/generate_docs.py:148-172 | the header is the distinct keys in `sort_columns` order; each row has, per column, its cell |
| Table.AddNewAppend | scripts/generate_docs.py:151-154 | collecting row after row equals collecting all keys at once |
| Table.AddNew | scripts/generate_docs.py:152-154 | the collected columns keep the earlier ones in front and hold exactly the earlier ones and the new keys |
| Table.AddNewNoDup | scripts/generate_docs.py:152-154 | the collected columns repeat no key |
| Table.AllKeys | scripts/generate_docs.py:151-152 | a key is seen exactly when some row has it |
| Table.ColumnsOf | scripts/generate_docs.py:151-154 | the collected columns repeat no key and are exactly the keys seen |
| Table.Header | scripts/generate_docs.py:151-156 | the header names every key of some row, once, and nothing else |
| Table.AddNewOrder | scripts/generate_docs.py:151-154 | the collected columns come in the order of their first occurrence |
| Table.ColumnsInFirstOrder | scripts/generate_docs.py:151-154 | before sorting, the columns are the distinct keys in first-appearance order |
| Table.DefaultCell | scripts/generate_docs.py:164-165 | a `default` value is shown as its text between backticks; an integer default reads back from it |
| Table.RequiredCell | scripts/generate_docs.py:167-169 | a `required` cell is empty, `Required` or `Optional`; `Required` exactly for a value equal to `True`; empty exactly for a missing or `None` value |
| Table.PlainCell | scripts/generate_docs.py:171 | any other column shows the value itself |
| Heading.QuoteStart | scripts/generate_docs.py:216 | the leading single quotes end at the first other character |
| Heading.QuoteEnd | scripts/generate_docs.py:216 | the trailing single quotes start after the last other character |
| Heading.StripQuotes | scripts/generate_docs.py:216 | `strip("'")` keeps a middle slice that neither starts nor ends with a quote; only quotes are cut |
| Heading.StripQuotesKeeps | scripts/generate_docs.py:216 | a name without edge quotes is unchanged |
| Heading.StripQuotesIdempotent | scripts/generate_docs.py:216 | stripping twice is stripping once |
| Heading.StripQuotesQuoted | scripts/generate_docs.py:216 | a quoted name loses exactly its quotes |
| Heading.MethodHeading | scripts/generate_docs.py:213-220 | `getStageName` and `tests` get no heading, every other method a level-3 heading |
| Heading.HeadingShape | scripts/generate_docs.py:216-220 | the heading is `### ` and the name without its edge quotes, then ` (DEPRECATED)` when deprecated and nothing otherwise |

## Left out

- YAML parsing and dumping (`parse_yaml`, `represent_none`, `to_yaml`, scripts/generate_docs.py:113-123): PyYAML is not part of this model. Table rows are given as already-parsed mappings.
- The Markdown layout by `tabulate` and the `.title()` casing of the headers (scripts/generate_docs.py:174): both come from outside libraries. The model stops at the header columns and the rows of cells.
- `update_mkdocs_yaml` (scripts/generate_docs.py:177-190): file I/O and YAML only.
- `create_markdown_doc` (scripts/generate_docs.py:193-252), except the method heading of lines 213-220: the rest writes YAML-derived text, creates directories, writes files and calls `exit(2)`.
- `entry_point` (scripts/generate_docs.py:255-278): argument parsing, globbing, reading files and exit codes. Each file is taken as an already-split sequence of lines.
- `Arg.__repr__` and `Method.__repr__` (scripts/generate_docs.py:19-20, 46-47): they do not affect the output.
- The regular expressions are modelled only as far as these two patterns need. No general regular-expression engine is modelled.
- Table.Value: a YAML float, list or mapping is `Other` with its `str()` text. So `1.0 == True` is not modelled, and a `required` value of `1.0` gives `Optional` in the model.
- Table.Row: keys are strings only. A non-string YAML key makes `sorted` raise on mixed types (scripts/generate_docs.py:141) or `.title()` raise (scripts/generate_docs.py:174); neither error is modelled.
- Table.Text: the contract states only that the text of an integer reads back as that integer. The text of the other values (`None`, `True`, `False`, a string as itself) is given by the definition.
- Table.EqualsTrue: the contract states one direction only. A string value `"True"` has the same text as `True` but is not equal to it.
- Table.Get: a row is a list of key/value pairs whose first match wins. That a Python dict has distinct keys is not enforced.
- Columns.ColumnList.Remove: requires the column to be present. `sort_columns` only removes columns it has just found, so the `ValueError` path is never reached.
- Heading.StripQuotes: states that only quotes are cut and that the result has none at either end. The exact cut points follow from the two helpers but are not restated.
