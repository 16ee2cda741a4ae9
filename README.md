# my_bin_scripts in Dafny

A model of the logic in a collection of small command-line scripts, with
proofs about that logic:

- **logic_map.py** prints the "logic map" of a Python module. This is a
  `rich` tree holding only its logical statements: classes, functions,
  if/for/while/with/try/match, plus exits and raises when those are
  switched on. A try statement gets explicit `except`/`else`/`finally`
  branches, and if/for/while get an `else` branch.
- **lmt.py** and **logic_map_tui.py** are the interactive outlines. Each
  logical child of a node becomes a tree node, and so does its own outline.
  The two differ only in their allow-lists and labels.
- **list_missing_docstrings.py** reports every plain `def` that has no
  docstring, as `relpath:lineno:name` lines sorted by (file, line).
- **git_compress.py** and **graphfold.py** fold `git log --graph` output.
  git_compress.py keeps the first and last line of each run of lines that
  share a graph prefix. graphfold.py keeps the first line and closes a
  folded run with a `…` marker.
- **list_erros.py** does three things:
  - it collects the `.py` sources that a Dockerfile's COPY/ADD commands
    name, after joining backslash continuations;
  - it counts ruff's output lines;
  - it counts pyright diagnostics at or above a level.
- **search_unused_files.py** lists the files under a source directory that
  no Dockerfile `COPY` names.
- **pgn_analyze.py** does the centipawn-loss bookkeeping for each side, and
  splits the evaluation bar into lines.
- **pomo.py** renders the frames of a terminal pomodoro timer.

Each script has its own module: `LogicMap`, `Lmt`, `LogicMapTui`,
`ListMissingDocstrings`, `GitCompress`, `GraphFold`, `ListErrors`,
`SearchUnusedFiles`, `PgnAnalyze` and `Pomo`. They share these modules:

- `PyAst`: the statement part of Python's `ast`, plus `iter_child_nodes`
  and `walk`.
- `TreeArena`: the display tree that `branch.add` grows, as a class over an
  append-only arena.
- `LogicalOutline`: the `_populate` procedure that lmt.py and
  logic_map_tui.py share.
- `TextWrap`, `ExprText`, `Strings` and `Ansi`: `textwrap.shorten`, `_expr`,
  the `str` methods and ANSI colour codes.
- `Seqs` and `Wrappers`: sequence helpers, and `Option`/`Result`.

The code changes state step by step in these places, and the model does
the same:

- the tree-building recursion (`_add_children`, `_add_stmt_list`,
  `_populate`);
- the line-folding loops;
- the Dockerfile, pyright and ply loops;
- the pomodoro loop;
- the sort of the docstring report.

Each of these is a method with loop invariants, proved equal to a pure
function. The properties the scripts promise are then proved about those
functions as lemmas.

A few points where the text and the code of the scripts part ways; the
model follows the code:

- `_expr` may return fewer than `max_len` characters. `textwrap.shorten`
  only promises an upper bound.
- The colour pattern of graphfold.py is written in a raw string, so it asks
  for ESC followed by a literal backslash. It therefore leaves ordinary
  `ESC[…m` colour codes in place. Its character class `[[0-9;]` also admits
  `[`, so a code written `ESC\[31m` is removed whole.
- `textwrap.shorten` raises ValueError for every width below 2 with the
  " … " placeholder, whatever the text. logic_map.py therefore fails for
  `--max-expr-len` 0 or 1 as soon as a label calls `_expr`. A module whose
  map calls `_expr` nowhere is printed as usual.
- logic_map_tui.py does not catch a SyntaxError. lmt.py shows it as a child
  of the root.

## Model

| member | source | states |
|---|---|---|
| LogicMap.NodeSet | logic_map.py:270-274 | the logical kinds are the nine base kinds, plus return/break/continue exactly when exits are on, plus raise exactly when raises are on |
| LogicMap.NeverLogical | logic_map.py:27-40 | async for, async with, try/except\*, except handlers, match arms, the module and simple statements are never logical, whatever the switches |
| LogicMap.WithLinenoText | logic_map.py:43-44 | the text is kept as a prefix; it is extended exactly when line numbers are shown and the line is known, and then by " [dim](L<line>)[/]" |
| LogicMap.Label | logic_map.py:78-129 | a node's label starts with its per-kind text; anything `_with_lineno_text` adds comes after it |
| LogicMap.LabelTagged | logic_map.py:84-127 | every kind that can be logical has its own markup label, which starts with a style tag |
| LogicMap.LabelFallback | logic_map.py:128-129 | any other node is labelled with its class name |
| LogicMap.LabelRules | logic_map.py:102-127 | a bare return is "return"; a raise without an exception is "raise", whatever its cause; a with shows only its first context manager |
| LogicMap.HandlerTextCases | logic_map.py:148-151 | an except label starts with "except"; a bare clause gives just "except"; a typed clause shows its shortened type; a bound name is appended as " as name"; an empty name shows nothing |
| LogicMap.IfElseLabelIsElseLabel | logic_map.py:196-200 | the "else//".replace("//", "") label of the if branch equals the "else" label of loops and try |
| LogicMap.HandlerBranches | logic_map.py:148-157 | there is exactly one except branch per handler |
| LogicMap.HandlerBranchAt | logic_map.py:148-157 | branch i carries handler i's label and holds the folded body of handler i |
| LogicMap.AddNode | logic_map.py:56-64 | one statement appends its labelled subtree when it is logical, and otherwise appends its children's branches under the same parent; it fails, for any max_len, exactly when the width is below 2 and some label in its subtree calls `_expr` |
| LogicMap.AddLogical | logic_map.py:56-61 | a logical statement appends one branch captioned with its label, and its children under that branch; the arena grows by exactly that subtree; a label that calls `_expr` with a width below 2 fails before anything is added |
| LogicMap.AddStmtList | logic_map.py:47-64 | `_add_stmt_list` appends exactly the pre-order encoding of the statements' fold under the branch, earlier nodes unchanged; it fails exactly when the width is below 2 and some statement's fold calls `_expr`, and then stops with the arena only extended |
| LogicMap.AddBranch | logic_map.py:152-157 | one synthetic branch is added, holding the folded statements; it fails exactly when the statements' fold calls `_expr` with a width below 2 |
| LogicMap.AddClause | logic_map.py:159-172 | an optional else/finally branch is added only for a non-empty clause; it fails exactly when the clause's fold calls `_expr` with a width below 2 |
| LogicMap.AddTryChildren | logic_map.py:141-187 | the try case appends the body, then the handler branches, then else, then finally; it fails exactly when one of those parts calls `_expr` with a width below 2 |
| LogicMap.AddHandlerBranches | logic_map.py:148-157 | the handler loop appends one except branch per handler, in order; a typed handler's label calls `_expr`, so with a width below 2 the loop fails at the first typed handler or at the first body that calls `_expr` |
| LogicMap.AddBodyAndElse | logic_map.py:189-229 | the if and loop cases append the body, then the optional else branch; they fail exactly when the body or the else clause calls `_expr` with a width below 2 |
| LogicMap.AddEachChild | logic_map.py:231-243 | the generic case appends the fold of every child node in turn; it fails exactly when some child's fold calls `_expr` with a width below 2 |
| LogicMap.AddChildren | logic_map.py:132-243 | `_add_children` appends exactly the pre-order encoding of `Children(n)` under the branch; it fails exactly when the width is below 2 and the traversal reaches `_expr` |
| LogicMap.ShowLogicMap | logic_map.py:258-275 | the tree is a root captioned with the module name, holding the fold of the module under the chosen node set; with expr_width below 2 it raises textwrap's ValueError ("invalid width" for 0 or less, "placeholder too large" for 1) exactly when the map calls `_expr` |
| LogicMap.LabelWidthFree | logic_map.py:78-129 | a label that calls no `_expr` (class, def, try, break, continue, a bare return or raise, any other kind) is the same at every width |
| LogicMap.ChildrenWidthFree | logic_map.py:132-243 | a traversal that reaches no `_expr` builds the same branches at every width |
| LogicMap.FoldAllWidthFree | logic_map.py:47-64 | a statement list whose fold reaches no `_expr` folds the same at every width |
| LogicMap.LogicMapWidthFree | logic_map.py:258-275 | a module whose map calls `_expr` nowhere gives the same map at every expr_width, 0 and 1 included |
| LogicMap.FoldAllNeedsExprAt | logic_map.py:55-64 | one statement that reaches `_expr` makes the whole list reach it |
| LogicMap.HandlersNeedExprAt | logic_map.py:148-157 | one handler that reaches `_expr`, through its type or its body, makes the handler loop reach it |
| LogicMap.FoldAllAppend | logic_map.py:55-64 | folding a concatenation of statement lists concatenates the folds |
| LogicMap.FoldCases | logic_map.py:231-243 | match arms are never logical, so their bodies' logical statements fold directly into the enclosing branch, arm after arm |
| LogicMap.FoldHandlers | logic_map.py:231-243 | except clauses met by the generic descent contribute only their bodies' folds |
| LogicMap.MatchFlattens | logic_map.py:231-243 | a match node holds its arms' logical statements directly, in arm order |
| LogicMap.AsyncForFlattens | logic_map.py:231-243 | a non-logical async for folds its body and then its else clause into the parent branch |
| LogicMap.AsyncWithFlattens | logic_map.py:231-243 | a non-logical async with folds its body into the parent branch |
| LogicMap.TryStarFlattens | logic_map.py:231-243 | try/except\* gets no try branches: its body, handler bodies, else and finally fold flat into the parent |
| LogicMap.TryLayout | logic_map.py:141-187 | a try node holds its folded body, then one branch per handler, plus else and finally branches exactly when those clauses are non-empty |
| LogicMap.TryHandlerBranches | logic_map.py:148-157 | after the body, handler i's branch sits at position i and holds that handler's folded body |
| LogicMap.TryElse | logic_map.py:159-172 | a try node's else branch follows the handler branches, captioned with the line of the clause's first statement |
| LogicMap.TryFinally | logic_map.py:174-186 | a try node's finally branch comes last, captioned with the line of the clause's first statement |
| LogicMap.ClauseShape | logic_map.py:194-207 | an else clause gives one branch exactly when it is non-empty |
| LogicMap.ElseLayout | logic_map.py:189-229 | if, for and while hold their folded body, then one else branch exactly when the else clause is non-empty, with the same caption for all three |
| LogicMap.ElifNests | logic_map.py:190-207 | an elif shows as an else branch holding a single if node, captioned with the elif's line |
| LogicMap.CountFoldOne | logic_map.py:55-64 | the fold of one node holds one tree node per logical node and synthetic branch in its subtree, counted independently over iter_child_nodes |
| LogicMap.CountChildren | logic_map.py:132-243 | `_add_children` adds the node's synthetic branches plus the census of its children |
| LogicMap.BodyAndElseCount | logic_map.py:189-229 | the count for the if and loop cases is the body's census plus one for a non-empty else |
| LogicMap.TryCount | logic_map.py:141-187 | the count for the try case is the census of its parts plus one branch per handler and per non-empty clause |
| LogicMap.CountFoldAll | logic_map.py:55-64 | the fold of a statement list holds exactly the census of those statements |
| LogicMap.CountHandlerBranches | logic_map.py:148-157 | the handler branches hold one node per handler plus their bodies' census |
| LogicMap.CountClause | logic_map.py:159-172 | an else/finally clause holds one node when present plus its statements' census |
| LogicMap.LogicMapSize | logic_map.py:258-275 | the map holds, under the root, exactly one node per logical statement of the module and one per synthetic branch |
| Lmt.LogicalNodes | lmt.py:28-40 | the allow-list holds match exactly when Python has it; it also holds except handlers, async for and async with; it never holds exits, raise, try/except\*, match arms or simple statements |
| Lmt.ShortAll | lmt.py:80 | each context manager is rendered by `_expr` with width 60, in order |
| Lmt.Compose | lmt.py:153-166 | a parsed module gives a root captioned with the name, holding the module's outline; a SyntaxError gives the root with one red "SyntaxError: message" child; the root is expanded either way |
| Lmt.LabelStyled | lmt.py:52-96 | every node on the allow-list gets a label of its own, led by a styled keyword |
| Lmt.LabelFallback | lmt.py:98 | any other node is labelled with its plain class name |
| Lmt.HandlerLabelHidesName | lmt.py:90-93 | a handler's label shows its exception type and never its bound name; a bare clause is "except" |
| Lmt.LabelIsOneLine | lmt.py:52-98 | a node whose class and function names hold no line break gets a one-line label, even when its expressions span several source lines |
| Lmt.StmtLabelOneLine | lmt.py:54-96 | the same for statement labels |
| Lmt.TestLabelOneLine | lmt.py:63-96 | the if, while and match labels fit on one line |
| Lmt.DefLabelOneLine | lmt.py:54-61 | the class and def labels fit on one line |
| Lmt.ExprLabelOneLine | lmt.py:63-64 | a keyword-plus-`_expr` label fits on one line |
| Lmt.LoopLabelOneLine | lmt.py:66-74 | the for and async for labels fit on one line |
| Lmt.WithLabelOneLine | lmt.py:79-85 | the with labels, which join all their context managers, fit on one line |
| Lmt.HandlersShown | lmt.py:101-106 | each handler of a try shows as a node holding the outline of its body |
| Lmt.NodesBeyondLogicMap | lmt.py:28-40 | the allow-list is the logic map's base list plus async for, async with and except handlers |
| LogicMapTui.LogicalNodes | logic_map_tui.py:27-36 | the allow-list holds match exactly when Python has it; it never holds handlers, async loops and withs, exits, raise or simple statements |
| LogicMapTui.Compose | logic_map_tui.py:132-139 | a parsed module gives an unexpanded root holding the module's outline; a SyntaxError propagates and no tree is built |
| LogicMapTui.NodesWithinLmt | logic_map_tui.py:27-36 | this allow-list is the logic map's base list, and is contained in lmt.py's |
| LogicMapTui.LabelsAgreeWithLmt | logic_map_tui.py:48-83 | every allowed node except with has the same label as in lmt.py |
| LogicMapTui.WithShowsFirstItem | logic_map_tui.py:73-74 | a with shows only its first context manager, as lmt.py would for a single item |
| LogicMapTui.OneContext | logic_map_tui.py:74 | joining a single rendered context manager gives that rendering |
| LogicMapTui.HandlersHidden | logic_map_tui.py:86-91 | what an except block holds never shows: a try's outline equals that of the same try without handlers |
| LogicMapTui.NoMoreNodesThanLmt | logic_map_tui.py:86-91 | this outline never holds more nodes than lmt.py's outline of the same module |
| LogicalOutline.Populate | lmt.py:101-106 | `_populate` appends exactly the pre-order encoding of the outline under the node; earlier nodes are unchanged |
| LogicalOutline.PopulateChild | lmt.py:104-106 | a logical child is added with its label and filled in recursively; a non-logical child adds nothing |
| LogicalOutline.OutlineAllAppend | lmt.py:103-106 | the outline of a concatenation of children is the concatenation of their outlines |
| LogicalOutline.OutlineSkipsAll | lmt.py:103-106 | children whose kind is not on the allow-list add nothing, and neither does anything below them |
| LogicalOutline.OutlineCount | lmt.py:101-106 | the outline holds exactly one node per logical node that is reachable through logical ancestors |
| LogicalOutline.OutlineAllCount | lmt.py:101-106 | the same count, for a list of children |
| LogicalOutline.ReachedMonotone | lmt.py:104 | a larger allow-list reaches at least as many nodes |
| LogicalOutline.ReachedAllMonotone | lmt.py:104 | the same, for a list of children |
| LogicalOutline.ElseFollowsBody | lmt.py:103-106 | an if/for/while's else statements are not marked: they follow the body's outline directly |
| LogicalOutline.MatchArmsVanish | lmt.py:103-106 | match arms are never allowed, so nothing inside a match shows |
| LogicalOutline.TryFieldOrder | lmt.py:103-106 | a try's outline is its body's, then its handlers', then else, then finally, in field order |
| LogicalOutline.HandlersVanish | logic_map_tui.py:88-91 | without handlers on the allow-list, a try's outline does not depend on its handlers |
| LogicalOutline.HandlersSkipped | logic_map_tui.py:88-91 | without handlers on the allow-list, the handlers' outline is empty |
| TreeArena.Tree.constructor | logic_map.py:269 | a new tree holds only its root, unexpanded |
| TreeArena.Tree.Add | logic_map.py:57 | `branch.add` appends one child of the given parent, returns its index, and leaves the other nodes unchanged |
| TreeArena.Tree.Expand | lmt.py:165 | `expand()` marks the node as shown unfolded and changes nothing else |
| TreeArena.EmitIsPreOrder | logic_map.py:55-64 | the arena the adds produce lists the captions in pre-order |
| TreeArena.EmitKeepsParentsBefore | logic_map.py:57 | every appended node's parent precedes it |
| TreeArena.EmitParents | logic_map.py:57 | the nodes appended for a forest hang under the given parent or under nodes appended before them |
| PyAst.WalkVisitsEveryNodeOnce | list_missing_docstrings.py:55 | `ast.walk` visits every node of the tree exactly once |
| ExprText.ShortExpr | logic_map.py:67-74 | `_expr` never exceeds max_len and never holds a line break |
| ExprText.ExprOutcome | logic_map.py:67-74 | `_expr` fails exactly for a max_len below 2, with textwrap's error for that width, and otherwise gives `ShortExpr` |
| ExprText.ShortExprFits | logic_map.py:74 | a collapsed source that fits is rendered whole; a longer one ends with the placeholder; the only whitespace left is the plain space |
| ExprText.NewlinesKeepWords | logic_map.py:74 | turning line breaks into spaces keeps the words of the source |
| ExprText.ReplaceNewlines | logic_map.py:74 | replacing "\n" by " " keeps the length and changes only the line breaks |
| TextWrap.Shorten | logic_map.py:74 | `shorten` never exceeds the width, and a text whose collapsed form fits is returned collapsed |
| TextWrap.ShortenChecked | logic_map.py:74 | `shorten` with the " … " placeholder raises for every width below 2, whatever the text: "invalid width" when the width is not positive, "placeholder too large" otherwise; any other width succeeds within the width |
| TextWrap.ShortenCuts | logic_map.py:74 | a text that is too long keeps the longest fitting run of leading words and ends with the placeholder |
| TextWrap.ShortenHasOnlyPlainSpaces | logic_map.py:74 | the only whitespace in the result is the plain space |
| Ansi.StripCodes | git_compress.py:39 | removing SGR codes never lengthens the text |
| Ansi.StripCodesPlain | git_compress.py:39 | a text without ESC is unchanged |
| Ansi.StripCodesDropsCode | git_compress.py:39 | a leading `ESC[<params>m` code is removed entirely |
| Ansi.BackslashPatternKeepsColour | graphfold.py:16 | the pattern ESC-backslash leaves an ordinary `ESC[…m` code in place |
| Ansi.BackslashPatternDropsEscapedCode | graphfold.py:16 | the same pattern removes a whole `ESC\[<params>m` code, because its character class admits `[` |
| Strings.Strip | search_unused_files.py:11 | `strip` never lengthens the text, and what it returns is empty or neither starts nor ends with whitespace |
| Strings.Words | search_unused_files.py:13 | every word of `split()` is non-empty and free of whitespace |
| Strings.WordsOfJoin | list_erros.py:33 | splitting words joined by a space gives back the words |
| Strings.CollapseKeepsWords | logic_map.py:74 | collapsing whitespace keeps the words |
| Strings.CollapseHasOnlyPlainSpaces | logic_map.py:74 | a collapsed text holds no whitespace other than the plain space |
| Strings.Decimal | list_missing_docstrings.py:112 | `str(n)` is a non-empty string of digits, with one digit below 10 and two from 10 to 99 |
| Strings.DecimalRoundTrip | list_missing_docstrings.py:112 | the digits of `str(n)` read back as n |
| Strings.LeadingZero | pomo.py:10 | a leading zero pad does not change the value read back |
| Strings.Repeat | pomo.py:26 | `c * n` has n characters, all c |
| Strings.Upper | search_unused_files.py:12 | `upper()` keeps the length and upper-cases each ASCII letter |
| Strings.Lower | list_erros.py:57 | `lower()` keeps the length and lower-cases each ASCII letter |
| Strings.ReplaceNoMatch | logic_map.py:198 | replace with no occurrence leaves the text unchanged |
| Strings.ReplaceAtFront | logic_map.py:198 | an occurrence at the front is replaced and the rest is processed on |
| Strings.BelowIrreflexive | search_unused_files.py:79 | string `<` is irreflexive |
| Strings.BelowTransitive | search_unused_files.py:79 | string `<` is transitive |
| Strings.BelowTotal | search_unused_files.py:79 | of two different strings, one is below the other |
| ListMissingDocstrings.MissingNodes | list_missing_docstrings.py:56 | every reported node is a plain function definition without a docstring |
| ListMissingDocstrings.FindMissingDocstrings | list_missing_docstrings.py:50-64 | the loop over `ast.walk` returns exactly the targets of the reported nodes, in walk order, with the given path or "<string>" |
| ListMissingDocstrings.TargetsDescribeMissingNodes | list_missing_docstrings.py:57-62 | target k carries the path and the line and name of reported node k |
| ListMissingDocstrings.MissingCount | list_missing_docstrings.py:55-56 | a node is reported once per occurrence when it is an undocumented plain def, and never otherwise |
| ListMissingDocstrings.ReportsEachMissingFunctionOnce | list_missing_docstrings.py:55-63 | every undocumented def anywhere in the module, methods and nested functions included, is reported exactly once; async defs, classes and documented defs never are |
| ListMissingDocstrings.TargetsCarryPath | list_missing_docstrings.py:58 | every target of a file carries that file's path |
| ListMissingDocstrings.CollectTargets | list_missing_docstrings.py:101-103 | `missing` is the targets of all files, file after file |
| ListMissingDocstrings.SortTargets | list_missing_docstrings.py:110 | the in-place sort leaves the targets ordered by (filepath, lineno) and a permutation of what they were |
| ListMissingDocstrings.Insert | list_missing_docstrings.py:110 | inserting one target keeps the sorted prefix sorted and the contents unchanged |
| ListMissingDocstrings.PathBelowIrreflexive | list_missing_docstrings.py:110 | path `<` is irreflexive |
| ListMissingDocstrings.PathBelowTransitive | list_missing_docstrings.py:110 | path `<` is transitive |
| ListMissingDocstrings.PathBelowTotal | list_missing_docstrings.py:110 | of two different paths, one is below the other |
| ListMissingDocstrings.KeyAtMostTransitive | list_missing_docstrings.py:110 | the (filepath, lineno) order is transitive |
| ListMissingDocstrings.KeyAtMostTotal | list_missing_docstrings.py:110 | any two targets are comparable by (filepath, lineno) |
| ListMissingDocstrings.SortedIsUnique | list_missing_docstrings.py:109-110 | when keys are distinct, sorted output is determined by the targets alone, whatever order they were collected in |
| ListMissingDocstrings.Lines | list_missing_docstrings.py:112 | one report line per target, in order, each formatted from that target |
| ListMissingDocstrings.ReadLineRoundTrip | list_missing_docstrings.py:112 | a report line splits back at its last two colons into the relative path, the line number and the function name |
| ListMissingDocstrings.Audit | list_missing_docstrings.py:96-124 | no files gives exactly the "no files" outcome; files without targets give exactly the "nothing missing" outcome; otherwise the lines are the sorted permutation of all targets, formatted relative to the root |
| GitCompress.FirstHash | git_compress.py:25 | the position found holds a word-bounded run of 7–40 lower-case hex digits, and no earlier position does |
| GitCompress.HashAtIsPattern | git_compress.py:25 | the scanner's test agrees with the pattern `\b[0-9a-f]{7,40}\b` at every position |
| GitCompress.PrefixEndsAtFirstHash | git_compress.py:23-29 | the prefix is a prefix of the line, no hash starts inside it, and when shorter than the line a hash starts right after it |
| GitCompress.Flush | git_compress.py:31-47 | a buffer of at most 2 lines is output verbatim; a longer one gives its first and last line, with exactly one gap line between them when asked; the output is never longer than the buffer |
| GitCompress.GapIgnoresColour | git_compress.py:39-41 | a colour code in the prefix does not change the gap line |
| GitCompress.GapIndentIsPrefixWidth | git_compress.py:40-41 | the gap line opens with as many spaces as the colour-free prefix is long |
| GitCompress.Runs | git_compress.py:60-75 | every run is non-empty, and there are no runs exactly when the log is empty |
| GitCompress.Compress | git_compress.py:57-75 | the grouping loop outputs exactly the flushes of the maximal runs, in order |
| GitCompress.RunsCoverLog | git_compress.py:60-75 | the runs concatenate back to the log |
| GitCompress.RunsAreMaximal | git_compress.py:60-75 | each run shares one prefix, and neighbouring runs differ in prefix |
| GitCompress.ExtendKeepsMaximal | git_compress.py:63-72 | one more line keeps the runs maximal |
| GitCompress.FirstLineKept | git_compress.py:63-75 | the first log line is always printed first |
| GitCompress.LastLineKept | git_compress.py:63-75 | the last log line is always printed last |
| GitCompress.NeverLonger | git_compress.py:57-75 | the output is never longer than the log |
| GitCompress.NoGapPrintsOnlyLogLines | git_compress.py:31-47 | without show-gap, every printed line is a log line |
| GraphFold.FirstHexDigit | graphfold.py:19 | the position found is a hex digit, and no earlier position is |
| GraphFold.Fold | graphfold.py:11-38 | the fold loop prints exactly the folded log |
| GraphFold.NoRepeatsNoFold | graphfold.py:14-34 | a log where no line repeats its predecessor's prefix is printed unchanged |
| GraphFold.NeverLonger | graphfold.py:14-38 | the output is never longer than the log |
| GraphFold.FirstLineShown | graphfold.py:14-34 | the first log line is always printed first |
| GraphFold.RunFoldsToMarker | graphfold.py:25-38 | a run of lines sharing one prefix prints as its first line followed by the prefix and `…` |
| GraphFold.KeyIgnoresEscapedCode | graphfold.py:16-19 | a leading `ESC\[<params>m` code does not change a line's graph prefix |
| GraphFold.EscapedCodeFoldsWithNextLine | graphfold.py:14-33 | a line led by an `ESC\[<params>m` code folds with a following line of the same prefix, which prints as the marker |
| ListErrors.TrimNewlines | list_erros.py:20 | the trimmed line is a prefix of the line and does not end in a newline |
| ListErrors.Middle | list_erros.py:35 | the sources are the words between the first and the last, and none for fewer than two words |
| ListErrors.KeepPy | list_erros.py:36-38 | every kept source ends in ".py" and is one of the sources |
| ListErrors.SelectPy | list_erros.py:36-38 | the source loop keeps exactly the ".py" sources, in order |
| ListErrors.CommandPyFiles | list_erros.py:28-38 | one complete COPY/ADD command contributes its ".py" sources; any other command contributes none |
| ListErrors.ExtractPythonFiles | list_erros.py:15-43 | the file loop returns the ".py" sources of every complete command, in order |
| ListErrors.ResultsArePyTokens | list_erros.py:15-43 | every result is a whole whitespace-free token ending in ".py" |
| ListErrors.OpenContinuationDropped | list_erros.py:22-24 | a command still open at the end of the file contributes nothing |
| ListErrors.ContinuationJoins | list_erros.py:22-28 | a line ending in a backslash is joined to the next, with the backslash replaced by a space |
| ListErrors.NoNewlineKept | list_erros.py:20 | a line without a newline is kept whole |
| ListErrors.ExtractionKeepsOrder | list_erros.py:19-41 | the files of two consecutive parts of a Dockerfile are those of the first, then those of the second |
| ListErrors.SplitLines | list_erros.py:48 | no line of `splitlines()` holds a line break |
| ListErrors.SplitLinesCount | list_erros.py:48 | `splitlines()` gives one line per line boundary, plus one for an unterminated last line |
| ListErrors.RuffCountIsBoundariesPlusOne | list_erros.py:46-48 | ruff's count is the number of line boundaries inside the stripped output plus one |
| ListErrors.LastMatch | list_erros.py:55 | the pattern's level word follows the last " - " that is preceded by `:digits:digits` |
| ListErrors.CountPyright | list_erros.py:51-60 | the line loop counts exactly the lines whose level ranks at least the minimum |
| ListErrors.UnknownLevelsNeverCount | list_erros.py:58 | a level not in LEVEL_ORDER ranks 0 and is never counted |
| ListErrors.CountMonotone | list_erros.py:51-60 | raising the minimum level never raises the count |
| SearchUnusedFiles.ParseDockerfile | search_unused_files.py:7-17 | the loop collects exactly the sources named by the COPY lines |
| SearchUnusedFiles.LineCopySources | search_unused_files.py:11-16 | one line contributes the words between the first and the last of a COPY line |
| SearchUnusedFiles.CopiedIffNamed | search_unused_files.py:7-17 | a name is copied exactly when some line names it as a source |
| SearchUnusedFiles.CopiedIgnoresOrder | search_unused_files.py:7-17 | the copied set does not depend on the order of the Dockerfile's parts |
| SearchUnusedFiles.ShortLinesNameNothing | search_unused_files.py:14-15 | a COPY line of at most two words names no source |
| SearchUnusedFiles.Suffix | search_unused_files.py:33 | a suffix is empty, or a dot and at least one character that end the name and leave a non-empty stem |
| SearchUnusedFiles.WalkedAreVisible | search_unused_files.py:20-38 | every walked file lies in the tree under non-hidden, non-excluded directories and is itself admitted |
| SearchUnusedFiles.VisibleAreWalked | search_unused_files.py:20-38 | every such file is walked |
| SearchUnusedFiles.Components | search_unused_files.py:66 | the path components are non-empty, free of "/" and never "." |
| SearchUnusedFiles.Find | search_unused_files.py:66-73 | the entry found has the name, and none is found only when no entry has it |
| SearchUnusedFiles.ResolveCopied | search_unused_files.py:64-74 | the resolution loop yields exactly the union of each copied path's resolution |
| SearchUnusedFiles.ResolveAllAdd | search_unused_files.py:64-74 | resolving one more path adds exactly that path's files |
| SearchUnusedFiles.MissingSourceAddsNothing | search_unused_files.py:73 | a copied path that does not exist resolves to nothing |
| SearchUnusedFiles.CopyingEverythingLeavesNothing | search_unused_files.py:67-72 | copying "." covers every walked file, for a directory or a file as source |
| SearchUnusedFiles.FileBaseHasNoFiles | search_unused_files.py:20-38 | a source path that is a regular file walks to no files, since `os.walk` yields nothing for it |
| SearchUnusedFiles.SortedStrings | search_unused_files.py:79 | `sorted` gives a strictly ascending list of exactly the set's elements |
| SearchUnusedFiles.Least | search_unused_files.py:79 | the element picked is below every other element |
| SearchUnusedFiles.UnusedFiles | search_unused_files.py:59-80 | the printed files are exactly the walked files minus the resolved copied ones, in ascending order; a source path that is a regular file contributes no walked files |
| PgnAnalyze.Clamp | pgn_analyze.py:93-94 | the result lies in [lo, hi], is x when x does, and is the nearer bound otherwise; with hi below lo the result is lo, as max(lo, min(hi, x)) gives |
| PgnAnalyze.ClampIdempotent | pgn_analyze.py:93-94 | clamping twice is clamping once |
| PgnAnalyze.ScoreToCappedCp | pgn_analyze.py:97-106 | the result lies in ±1000; no score gives 0; a score in range is kept; others saturate |
| PgnAnalyze.LossIsOwnDrop | pgn_analyze.py:204-211 | the loss is the drop of the mover's own evaluation, at least 0, and positive exactly when that evaluation fell |
| PgnAnalyze.LossBounded | pgn_analyze.py:204-211 | with capped evaluations, one ply loses at most 2000 |
| PgnAnalyze.AtMostOneFlag | pgn_analyze.py:216-221 | a ply adds one move and at most one of blunder, mistake and inaccuracy |
| PgnAnalyze.Evals | pgn_analyze.py:201-202 | the collected evaluations are those after each ply, in order |
| PgnAnalyze.AnalyzePlies | pgn_analyze.py:183-223 | the ply loop gives each side the statistics of its own plies, and the evaluations exactly when asked |
| PgnAnalyze.MoverStep | pgn_analyze.py:195 | the mover alternates |
| PgnAnalyze.MovesAlternate | pgn_analyze.py:194-214 | after n plies the first mover has made (n+1)/2 moves and the other n/2 |
| PgnAnalyze.FlagsAtMostMoves | pgn_analyze.py:214-221 | a side's flagged moves never outnumber its moves |
| PgnAnalyze.FlagsAccountForLoss | pgn_analyze.py:213-221 | the thresholds of a side's flagged moves add up to at most its total loss |
| PgnAnalyze.TotalAtMostTwiceCapPerMove | pgn_analyze.py:213-214 | a side's total loss is at most 2000 per move |
| PgnAnalyze.TotalIsSumOfOwnLosses | pgn_analyze.py:213 | a side's total loss is the sum of the losses of its own plies |
| PgnAnalyze.PerfectPlayHasNoLoss | pgn_analyze.py:213-221 | a game without losses leaves every counter at 0 except the moves |
| PgnAnalyze.UsableWidth | pgn_analyze.py:67 | the usable width is at least 10: the wrap width when given and non-zero, else the console width minus 2 |
| PgnAnalyze.EvalBarLines | pgn_analyze.py:64-79 | the lines concatenate back to the evaluations; all but the last hold exactly the width; the last is non-empty and fits; no evaluations gives no lines |
| Pomo.TwoDigits | pomo.py:10 | `{n:02d}` has at least two characters |
| Pomo.TwoDigitsReadsBack | pomo.py:10 | `{n:02d}` is digits that read back as n |
| Pomo.FormatTimeReadsBack | pomo.py:8-10 | `MM:SS` reads back as minutes and seconds that give the input, with seconds below 60 |
| Pomo.FormatTimeIsFiveCharacters | pomo.py:8-10 | below 100 minutes the time is five characters |
| Pomo.Bar | pomo.py:26 | the bar is `filled` full blocks followed by light shades |
| Pomo.BarHasWidth | pomo.py:26 | for 0 <= filled <= width, the bar has the width, and a position is full exactly when it is below `filled` |
| Pomo.FilledInRange | pomo.py:22-24 | while running, filled lies in [0, width]; it is the full width at the end and 0 at the start, except for a zero-length timer |
| Pomo.Pomodoro | pomo.py:12-35 | the loop prints exactly the session's frames, then the done line, or the cancel line when the clock stops early |
| Pomo.SessionStep | pomo.py:17-30 | a reading past the total ends with the done line; any other reading prints its frame and goes on |
| Pomo.FramesBeforeTheEnd | pomo.py:17-29 | every line before the last is the frame of a reading within the total, so the time shown is never negative |
| Pomo.SessionEnding | pomo.py:19-35 | the session ends with the done line exactly when some reading passes the total, and with the cancel line otherwise |
| Pomo.DoneLineIsFinalFrame | pomo.py:35 | the done line is the final frame (full bar, 00:00) followed by the done mark |
| Pomo.FilledWhenDone | pomo.py:22-24 | at the end the bar is full |

## Left out

- I/O is not modelled: reading files, running git, ruff, pyright and Stockfish, printing, pagers, and writing the report file. Each script's input is a parameter (lines, parsed modules, engine scores, clock readings), and its output is a returned value.
- Parsing Python source (`ast.parse`) is not modelled. The model starts from the syntax tree.
- Expressions are opaque and known by their source text, which `ast.unparse` returns.
- The `ast.dump` fallback for Python before 3.9 is not modelled.
- The `_to_source` helpers (function, module and path inputs) are not modelled.
- Command-line parsing with argparse, and the `main` glue, are not modelled.
- Regular expressions are written as explicit scanners. `\w`, `\d`, `upper()` and `lower()` are modelled on ASCII only.
- File-system walking (`os.walk`, `rglob`, `exists`, `is_dir`) is modelled as a tree value, or for the docstring audit as the list of files found.
  - Symbolic links are not modelled.
  - `..` and absolute paths in COPY sources are not modelled.
  - The existence filter of list_erros.py is not modelled.
- Floating-point code is not modelled:
  - the grey level of each evaluation-bar block, so lines hold evaluations instead of styled blocks;
  - the average CPL;
  - the pomodoro's `progress`. `filled` is computed exactly, as `int(bar_width * elapsed / total)` truncated toward zero, and real division can round differently in the last place.
- Time and interrupts are not modelled:
  - `time.time()` becomes the sequence of clock readings;
  - `time.sleep` is not modelled;
  - KeyboardInterrupt is the clock sequence running out.
- Mate scores are not modelled: `score(mate_score=1000)` is an integer input, or None.
- The pyright and ruff tables of list_erros.py, and the chess report table, are not modelled.
- A negative `minutes` in pomo.py is modelled as in the source. The session ends at the first reading, because every reading exceeds a negative total. `{n:02d}` of a negative number keeps its sign.
- After textwrap's ValueError, the `Add…` methods of LogicMap only promise that the arena extends the old one. show_logic_map never prints that partial tree.
- TextWrap.Shorten: follows the documented contract of `textwrap.shorten`. It does not model the library's splitting of words at hyphens.
- A COPY line is split on whitespace, as in search_unused_files.py. Options such as `--chown` and `--from` therefore count as sources, as they do there.
- ListMissingDocstrings.SortTargets: proves sorted and permutation, not that the sort is stable. Two plain `def`s never share a line, so keys are distinct and the order is unique (ListMissingDocstrings.SortedIsUnique).
