# pyminifier tools, modelled in Dafny

The repository holds three Python 2 tools for shrinking and hiding Python source code.
This project models the core of each one and proves properties of the model.

- **pyfuscate.py** is an obfuscator. A `pyfuscate` object is fed a tokenize token stream.
  It collects the tokens of each logical line. Then it rebuilds the line, token by token, behind the innermost indentation:
  - every private dotted name is renamed to `name0x…`, `_name0x…` or `__name0x…`, drawn from a counter;
  - names in `known_names` (built-ins, keywords, members of imported modules) are kept;
  - on `import` lines, the module is imported and its members are added to the known names.

  The class is modelled as the Dafny class `Pyfuscate.Obfuscator`. Its fields are updated in place.
  Its methods are proved to compute exactly the pure functions of `LineRules`, which in turn build on the naming rules of `NameRules`. The properties are proved about those functions:
  - the rename table stays injective and in counter order;
  - names only accumulate;
  - get_full_name reads the longest dotted prefix;
  - comments and NL tokens have no effect;
  - a `from` line stops all later output;
  - an exception stops everything.
- **pyminifier.py** holds the text passes of the minifier:
  - `dedent` (module `Indentation`), which replaces each line's indentation by the position of its level in the list of levels;
  - `fix_empty_methods` (module `EmptyMethods`), which appends ` pass` to a `def` whose next non-blank line is at the same level;
  - `join_multiline_pairs` and `substitute_matches` (module `Pairs`), which join the lines of a bracketed expression that spans several lines and drop the spaces inside it.

  Each pass is an imperative method with its loops. Each is proved equal to a specification function, and the properties are proved about that function.
- **compyne.py** merges several files into one (module `Compyne`):
  - one `import` line names every imported module in first-seen order; a name repeated inside one comma-separated word is listed each time;
  - `from` lines are dropped;
  - every other line is kept in order.

`PyBuiltins` states the Python 2 built-ins these tools rely on as functions with their laws:
- `strip`, `split`, `join`;
- `hex`;
- list extension by a "not already in the list" comprehension;
- literal `re.sub`.

Behaviours of the code worth knowing:
- **Renaming is not stable.** An original name is renamed on its first sighting. It can still become known later: it may follow a known segment of a dotted name, or be added by an import's member list. From then on it is written verbatim, while earlier lines used its generated name (`NameRules.RenamingNotStable`).
- **Brackets get extra spaces.** `(` and `)` are followed by two spaces; every other operator by one.
- **A `from` line stops the output.** obfu returns without clearing the token line, so every later line is appended to the stale `from` line and nothing more is ever written (`LineRules.FromSuppressesRest`).
- **One member is refused.** `wx.TheClipboard` is never evaluated during an import.
- **substitute_matches is never called** by the other functions. It is modelled on its own.
- **join_multiline_pairs has a dead branch.** Its second branch (pyminifier.py:118) requires `quoted_string` and `not quoted_string` at once, so it is never taken. Once a multi-line string has been seen, `quoted_string` therefore stays true (`Pairs.QuotedStringSticks`).
- **compyne's import test is a prefix test.** Any line that begins with `import` counts as an import line, e.g. `important = 1`.

## Model

| member | source | states |
|---|---|---|
| PyBuiltins.Split | pyminifier.py:202 | `str.split` with a one-character separator: at least one piece, no piece holds the separator, and joining the pieces with it gives the text back |
| PyBuiltins.SplitTerminated | pyminifier.py:211 | a text made of separator-free lines, each ended by `\n`, splits into those lines and one empty trailing piece |
| PyBuiltins.StripEmpty | pyminifier.py:258 | `len(line.strip()) > 0` fails exactly for lines made only of whitespace |
| PyBuiltins.LStripFacts | pyminifier.py:211 | `lstrip` cuts exactly the leading whitespace, leaving a suffix that does not start with whitespace |
| PyBuiltins.HexInjective | pyfuscate.py:179-183 | distinct counter values give distinct `hex` strings, negative values included |
| PyBuiltins.Absent | compyne.py:19 | the comprehension keeps exactly the values of the word not already in the list, each as many times as the word holds it |
| PyBuiltins.FreshFacts | compyne.py:19 | the reference first-occurrence pass keeps exactly the values not seen before, each once |
| PyBuiltins.DedupExtend | compyne.py:19 | after `list += [x for x in xs if x not in list]`, the distinct values come in the same order as in the old list followed by all of `xs` |
| PyBuiltins.Extend | pyfuscate.py:150 | `known_names += [y for y in … if y not in known_names]` keeps the old list as a prefix and holds exactly the old names and the new ones |
| PyBuiltins.SubLiteral | pyminifier.py:191-193 | a literal substitution with a refusing lookahead leaves a text that does not contain the pattern unchanged |
| NameRules.DictOfKeys | pyfuscate.py:175-186 | `name_dict` has an entry exactly for the names in `obfu_names` |
| NameRules.DictOfAt | pyfuscate.py:177-186 | the i-th renamed original maps to the name built from counter value start + i |
| NameRules.NamePrefixKeepsPrivacy | pyfuscate.py:178-183 | the literal prefix chosen for a name starts with `__` (or `_`) exactly when the name does |
| NameRules.GeneratedNameKeepsPrivacy | pyfuscate.py:178-183 | a generated name starts with `__` (or `_`) exactly when the original does |
| NameRules.GeneratedNameInjective | pyfuscate.py:178-183 | two generated names are equal only when built from the same counter value and the same prefix |
| NameRules.RenamesDistinct | pyfuscate.py:175-186 | in a well-formed table, distinct renamed originals have distinct generated names |
| NameRules.Allocate | pyfuscate.py:175-186 | no contract; defines the renaming of a new original: its `name_dict` entry is the generated name of the current counter value, it is appended to `obfu_names` and the counter moves by one |
| NameRules.AllocateKeepsTables | pyfuscate.py:177-186 | renaming a new original keeps the table well formed: entries in order, counter = start + number renamed, no duplicates |
| NameRules.Segment | pyfuscate.py:167-187 | one segment keeps the tables consistent and only adds to them; which text it writes is stated by `SegmentRenames` and `SegmentVerbatim` |
| NameRules.SegmentRenames | pyfuscate.py:167-187 | a segment that is neither known nor after a known segment (or that is `self`) is written as its existing `name_dict` entry, or else gets the generated name of the current counter value and is appended to `obfu_names`; `known_name` stays false |
| NameRules.SegmentVerbatim | pyfuscate.py:166-174 | a known segment, or any segment but `self` after a known one, is written verbatim and sets `known_name`; it is appended to `known_names` when new, and nothing else changes |
| NameRules.SegmentEmitted | pyfuscate.py:167-187 | a segment's text is the name itself when it was known; otherwise it is the name, which is then known, or its `name_dict` entry in the tables the segment leaves |
| NameRules.Chain | pyfuscate.py:165-188 | a dotted name emits one segment per name, after those already prepared, and only adds to the tables |
| NameRules.ChainEmits | pyfuscate.py:165-188 | every segment is emitted verbatim, and is then known in the final tables, or as its entry in the final rename table; a segment known beforehand is always verbatim |
| NameRules.ChainKeepsTables | pyfuscate.py:165-188 | renaming a dotted name keeps the rename table well formed |
| NameRules.KnownSegmentStep | pyfuscate.py:166-174 | a segment other than `self` after a known one is written verbatim, becomes known, and the chain goes on with `known_name` set and only `known_names` changed |
| NameRules.ChainKnownText | pyfuscate.py:166-174 | after a known segment, with no `self` segment, the rest is written verbatim |
| NameRules.ChainKnownTables | pyfuscate.py:166-174 | after a known segment, with no `self` segment, only `known_names` changes |
| NameRules.ChainKnownAll | pyfuscate.py:166-174 | after a known segment, with no `self` segment, every later segment ends up in `known_names` |
| NameRules.ChainAfterKnown | pyfuscate.py:166-174 | after a known segment, and with no `self` segment, the rest is emitted verbatim and added to `known_names`, with no rename |
| NameRules.FirstSighting | pyfuscate.py:175-186 | a single new segment gets the generated name of the current counter value |
| NameRules.AfterKnownSegment | pyfuscate.py:166-174 | in `a.x` with `a` known, `x` is written verbatim and becomes known |
| NameRules.KnownSighting | pyfuscate.py:173-188 | a known single segment is written verbatim |
| NameRules.RenamingNotStable | pyfuscate.py:165-188 | a new name `x` is renamed on its first sighting; after `a.x` with `a` known it is known, and from then on it is written verbatim |
| NameRules.ExpandEntry | pyfuscate.py:151-159 | a member expression other than `wx.TheClipboard` that evaluates extends `known_names` by exactly its members, as the list comprehension does; any other expression changes nothing |
| NameRules.Expand | pyfuscate.py:149-161 | the member loop of an import changes only `known_names`, and only grows it |
| NameRules.ExpandMembers | pyfuscate.py:149-161 | every member of every evaluable member of the module ends up known |
| NameRules.ExpandOnly | pyfuscate.py:149-161 | the member loop adds to `known_names` only members of members it evaluates |
| NameRules.Import | pyfuscate.py:139-164 | an import line adds the module name (and, if it imports, its members) to `known_names`; it never touches the rename table; an unknown module that cannot be imported writes one stderr line; a known one changes nothing |
| NameRules.ImportOnly | pyfuscate.py:139-164 | an import line adds to `known_names` only the module name, and, for a module that imports, its members and the members of those members |
| LineRules.FullNameAt | pyfuscate.py:203-223 | no contract; defines get_full_name's loop, which `FullNameAtSound`, `FullNameAtComplete` and `FullNameCharacterized` describe |
| LineRules.FullNameAtSound | pyfuscate.py:203-223 | what get_full_name returns is a dotted prefix of the tokens |
| LineRules.FullNameAtComplete | pyfuscate.py:203-223 | every dotted prefix is what get_full_name returns |
| LineRules.FullNameCharacterized | pyfuscate.py:203-223 | get_full_name returns (names, count) exactly when `count` is the length of the longest alternating NAME "." NAME … prefix and `names` are its NAME texts |
| LineRules.FullNameCount | pyfuscate.py:136-137 | a name at a NAME token consumes at least that token, 2n-1 or 2n tokens for n names, and starts with that token's text |
| LineRules.RenameName | pyfuscate.py:165-188 | renaming a dotted name keeps the tables consistent and only grows them |
| LineRules.NameStep | pyfuscate.py:135-188 | a NAME step consumes 1 to all remaining tokens; on an import line it leaves the rename table and the counter alone |
| LineRules.Piece | pyfuscate.py:189-198 | no contract; defines the text of a token other than a NAME: `(` and `)` followed by two spaces, any other token by one |
| LineRules.Advance | pyfuscate.py:131-198 | the piece at a position consumes at least one token and no more than remain, keeps the tables consistent and only grows them |
| LineRules.NameStepText | pyfuscate.py:135-188 | the text of a dotted name: on an import line the name as read, joined by `.`; otherwise the segments as the renaming chain emits them (`ChainEmits`), joined by `.`; then a space |
| LineRules.Step | pyfuscate.py:131-198 | a step advances and only extends the line text by what `Advance` says for the token; a token other than a NAME appends its `Piece`, leaves the tables alone and moves bracket_stack by one for a bracket; it fails exactly on a `)` with an empty bracket_stack |
| LineRules.StepName | pyfuscate.py:135-137 | a NAME step skips the whole dotted name |
| LineRules.Render | pyfuscate.py:131-199 | the line loop only grows the tables and the text, and finishes the line unless it raised |
| LineRules.LayoutUnfold | pyfuscate.py:131-198 | the pieces of a line from one position are that position's piece followed by the pieces from the next one |
| LineRules.RenderLayout | pyfuscate.py:131-199 | when the line loop completes, the text it built is the concatenation of the line's pieces, one per token and one per dotted name, and the tables are those the pieces leave |
| LineRules.Obfu | pyfuscate.py:119-201 | obfu only appends to the output; what it writes starts with the innermost indentation and ends with a line break, and the token line is cleared |
| LineRules.ObfuLayout | pyfuscate.py:119-201 | what obfu writes is exactly the innermost indentation, the concatenated pieces of the line's tokens, and a line break; the tables are those the pieces leave |
| LineRules.Collect | pyfuscate.py:103-117 | token_collector only appends to the output and only grows the tables |
| LineRules.Run | pyfuscate.py:99-101 | a run only appends to the output and only grows the tables |
| LineRules.NameStepKeepsTables | pyfuscate.py:135-188 | a NAME step keeps the rename table well formed |
| LineRules.StepKeepsTables | pyfuscate.py:131-198 | a step of obfu's loop keeps the rename table well formed |
| LineRules.RenderKeepsTables | pyfuscate.py:131-199 | rebuilding a line keeps the rename table well formed |
| LineRules.ImportLineKeepsRenames | pyfuscate.py:139-164 | names on an import line are never renamed: `name_dict`, `obfu_names` and the counter are unchanged |
| LineRules.ObfuKeepsTables | pyfuscate.py:119-201 | obfu keeps the rename table well formed |
| LineRules.RunKeepsTables | pyfuscate.py:99-117 | a whole run keeps the rename table well formed, so renaming stays injective throughout |
| LineRules.RunFromStart | pyfuscate.py:71-101 | a run from a fresh obfuscator writes the header first, never forgets a seeded known name, and keeps the rename table well formed from the starting counter on |
| LineRules.RunAfterCrash | pyfuscate.py:99-101 | once the Python code has raised, the rest of the stream changes nothing |
| LineRules.FromSuppressesRest | pyfuscate.py:125-128 | once a `from` line is buffered, nothing more is written and the tables never change |
| LineRules.Significant | pyfuscate.py:104-107 | the stream without COMMENT and NL tokens holds none of them |
| LineRules.CommentsIgnored | pyfuscate.py:104-107 | COMMENT and NL tokens have no effect on a run |
| Pyfuscate.Obfuscator.constructor | pyfuscate.py:71-76 | a fresh obfuscator: indent list `['']`, empty token line, empty rename table, the given known names and starting counter |
| Pyfuscate.Obfuscator.Run | pyfuscate.py:99-101 | writes the header, then its new state is the specification run over the stream |
| Pyfuscate.Obfuscator.TokenCollector | pyfuscate.py:103-117 | the new state is the specification's handling of the token |
| Pyfuscate.Obfuscator.Obfu | pyfuscate.py:119-201 | the new state is the specification's obfu of the old state |
| Pyfuscate.Obfuscator.RenderLine | pyfuscate.py:129-199 | the rebuilt line, the completion flag and the new tables are those of the specification loop |
| Pyfuscate.Obfuscator.ObfuStep | pyfuscate.py:132-198 | one turn of the loop agrees with the specification step, including the IndexError |
| Pyfuscate.Obfuscator.NameToken | pyfuscate.py:135-188 | the NAME branch emits and consumes what the specification does, and updates the tables accordingly |
| Pyfuscate.Obfuscator.RenameChain | pyfuscate.py:165-188 | the segment loop emits the specification's renamed dotted name |
| Pyfuscate.Obfuscator.RenameSegment | pyfuscate.py:167-187 | the loop body agrees with the specification of one segment |
| Pyfuscate.Obfuscator.ImportName | pyfuscate.py:139-164 | the import branch changes the tables as the specification's import does |
| Pyfuscate.Obfuscator.ExpandMembers | pyfuscate.py:149-161 | the member loop changes the tables as the specification's expansion does |
| Pyfuscate.Obfuscator.GetFullName | pyfuscate.py:203-223 | returns the longest dotted prefix of the tokens: its names and its length |
| Indentation.Level | pyminifier.py:203 | no contract; defines `len(line.rstrip()) - len(line.strip())`, which `LevelIsIndent` relates to the leading whitespace |
| Indentation.LevelIsIndent | pyminifier.py:203 | `len(line.rstrip()) - len(line.strip())` is the leading whitespace of the line, and 0 for a blank line |
| Indentation.LevelsListed | pyminifier.py:202-205 | the first loop lists every level of the lines exactly once, and nothing else |
| Indentation.IndexOf | pyminifier.py:209-210 | the matching position is the first where the level occurs |
| Indentation.ReindentOnce | pyminifier.py:209-211 | with distinct levels, each line is written exactly once, after as many spaces as its level's position |
| Indentation.Reindented | pyminifier.py:207-211 | each written line is the line without its leading whitespace, after as many spaces as its level's position |
| Indentation.DedentFromLines | pyminifier.py:207-211 | the second loop writes the reindented lines, each followed by a line break |
| Indentation.DedentText | pyminifier.py:197-212 | no contract; defines what dedent returns, which `DedentLines` and `DedentKeepsLevels` describe |
| Indentation.DedentLines | pyminifier.py:197-212 | dedent writes one line per piece of `source.split('\n')`, and no other; each keeps its text after the indentation |
| Indentation.DedentKeepsLevels | pyminifier.py:197-212 | two lines get the same new indentation exactly when they had the same level |
| Indentation.Dedent | pyminifier.py:197-212 | the method computes the specification's dedent |
| Indentation.IndentationLevels | pyminifier.py:202-205 | the first loop builds the levels in order of first occurrence |
| Indentation.ReindentLine | pyminifier.py:209-211 | the inner loop appends the line after i spaces for each matching position i |
| EmptyMethods.IsDef | pyminifier.py:256 | no contract; defines the def pattern: after the leading whitespace `def`, later a `(` and, further on, `):` |
| EmptyMethods.FixStep | pyminifier.py:258-274 | no contract; defines one turn of the loop, which `BlankLines`, `LineOutsideDef` and `PendingDef` describe |
| EmptyMethods.DefNotBlank | pyminifier.py:256-258 | a line the def pattern matches is never blank |
| EmptyMethods.BlankLines | pyminifier.py:258-274 | blank lines only add line breaks, whether or not a def is pending |
| EmptyMethods.LineOutsideDef | pyminifier.py:267-272 | with no def pending, a non-def line is written as it is, and a def line is held back with its level |
| EmptyMethods.PendingDef | pyminifier.py:259-270 | a def, blank lines, then a non-blank line: the blanks are written first, then the def with ` pass` exactly when its level equals the next line's, then that line |
| EmptyMethods.TrailingDefDropped | pyminifier.py:257-275 | a def still pending at the end of the input is never written |
| EmptyMethods.IntendedPassDecision | pyminifier.py:259-268 | with the def level measured like the other lines', ` pass` is added exactly when the next line has the same leading whitespace |
| EmptyMethods.SameLevel | pyminifier.py:260-261 | for non-blank lines, equal levels are equal leading whitespace |
| EmptyMethods.DefThenLine | pyminifier.py:257-275 | a def line followed by one non-blank line yields the def, ` pass` if the levels agree, the line and the trailing break |
| EmptyMethods.TrailingSpaceAddsPass | pyminifier.py:268 | as written, `def f(): ` with one trailing space before a line indented by one space gets ` pass` |
| EmptyMethods.TrailingSpaceIntended | pyminifier.py:268 | measured as intended, the same input gets no ` pass` |
| EmptyMethods.FixEmptyMethods | pyminifier.py:250-275 | the method computes the specification's fix_empty_methods |
| Pairs.JoinMultilinePairs | pyminifier.py:80-195 | the method computes the specification's join_multiline_pairs, clean-up included |
| Pairs.CharStep | pyminifier.py:122-184 | no contract; defines one character of the scan, branch by branch, which `CharOutput`, `CharsSound` and `EscapedPairCharCopied` describe |
| Pairs.LineStep | pyminifier.py:111-188 | no contract; defines one turn of the line loop, which `LineVisible`, `LineOutsidePair` and `JoinedWhileOpen` describe |
| Pairs.Cleanup | pyminifier.py:191-193 | no contract; defines the clean-up, which `CleanupKeepsCode` describes |
| Pairs.JoinLine | pyminifier.py:111-188 | the body of the line loop is the specification's step for one line |
| Pairs.ScanLine | pyminifier.py:122-184 | the character loop is the specification's scan of the line |
| Pairs.CharsSound | pyminifier.py:122-184 | the character loop keeps `inside_pair` true exactly while an opener is counted, and keeps the three quote flags consistent |
| Pairs.LinesSound | pyminifier.py:111-188 | every state the line loop reaches keeps those invariants |
| Pairs.CharOutput | pyminifier.py:179-184 | a character is dropped exactly when it is a space inside a pair and outside quotes; everything else is copied |
| Pairs.EscapedPairCharCopied | pyminifier.py:123-143 | an escaped opener or closer is copied, counts as neither, and ends the escape |
| Pairs.QuotedStringSticks | pyminifier.py:115-120 | once a multi-line string has been seen, `quoted_string` stays true |
| Pairs.CharsKeepQuotedString | pyminifier.py:122-184 | the character loop never changes `quoted_string` |
| Pairs.LineOutsidePair | pyminifier.py:187-188 | outside any pair, a line with neither the opener nor the closer is copied with its line break |
| Pairs.CharsKeepCounters | pyminifier.py:122-184 | characters other than the opener and the closer leave the counters and `inside_pair` alone |
| Pairs.JoinedWhileOpen | pyminifier.py:121-186 | while a pair is open, a line with neither the opener nor the closer is joined to the next with no line break, and the pair stays open |
| Pairs.CharsVisible | pyminifier.py:122-184 | the character loop copies the line's text, dropping only spaces |
| Pairs.LineVisible | pyminifier.py:111-188 | one line step adds the line's text, less spaces and line breaks |
| Pairs.LinesVisible | pyminifier.py:111-188 | the line loop keeps all the text of the lines except spaces and line breaks |
| Pairs.SubLiteralVisible | pyminifier.py:191-193 | a substitution whose replacement reads as its pattern keeps the text other than spaces and line breaks |
| Pairs.LinesKeepCode | pyminifier.py:111-188 | the line loop keeps the input's text other than spaces and line breaks |
| Pairs.CleanupKeepsCode | pyminifier.py:191-193 | the clean-up keeps that text when no placeholder is spelled out in it |
| Pairs.JoinKeepsCode | pyminifier.py:80-195 | join_multiline_pairs only removes spaces and line breaks, for any text that spells out no placeholder |
| Pairs.CorrectedDepth | pyminifier.py:123-140 | when stray closers are not counted, the counters give the nesting depth: an unescaped opener opens one more pair and a closer closes one |
| Pairs.CorrectedStepNested | pyminifier.py:123-140 | corrected, every character keeps the counters describing a nesting |
| Pairs.CorrectedNested | pyminifier.py:123-140 | corrected, the pair is open exactly while more openers than closers have been read since it opened |
| Pairs.StrayCloserKeepsPairOpen | pyminifier.py:133-140 | as written, the characters `)()` leave the pair open; corrected, they close it |
| Pairs.SubstituteMatches | pyminifier.py:65-78 | the method computes the specification's substitute_matches |
| Pairs.SubstituteItem | pyminifier.py:69-76 | one item is added to `preoutput` as the specification substitutes it: nothing for an empty item, masked for a quoted one, unchanged otherwise |
| Pairs.QuotedItemMasked | pyminifier.py:69-74 | in an item starting with `"`, no opener or closer is left when the substitutes hold neither |
| Pairs.SubstituteUnchanged | pyminifier.py:68-76 | items that do not start with `"` or hold neither character are concatenated unchanged |
| Compyne.NonEmpty | compyne.py:19 | the filter keeps exactly the non-empty pieces |
| Compyne.AddItemsNames | compyne.py:17-19 | the import list only grows, by exactly the comma-separated names of the words after `import` |
| Compyne.AddItemsOrder | compyne.py:17-19 | the names enter the import list in first-seen order: its distinct names come in the order of the old list followed by every name the words spell |
| Compyne.AddItemsCount | compyne.py:17-19 | a name already listed is never added again; a new one is added as many times as the first word that spells it spells it, so equal new entries come from one word |
| Compyne.MergeLine | compyne.py:15-23 | no contract; defines one line of a file, which `KeptMembers` and `AddItemsNames` describe |
| Compyne.KeptMembers | compyne.py:20-23 | a line is kept exactly when it is neither an import line nor a from line |
| Compyne.MergeLinesKept | compyne.py:15-23 | a file's kept lines are its lines that are neither import nor from lines, in order |
| Compyne.MergeLinesWords | compyne.py:15-19 | a file's import list is the old list with the words of all its import lines taken one by one, in order |
| Compyne.NamedWords | compyne.py:15-19 | the names of the import lines are the names their words after `import` spell |
| Compyne.MergeLinesImports | compyne.py:15-19 | a file's import list grows by exactly the names its import lines spell, in first-seen order |
| Compyne.MergeFilesKept | compyne.py:11-23 | over all files, the kept lines are all their lines that are neither import nor from lines, file after file and in order |
| Compyne.MergeFilesWords | compyne.py:11-19 | over all files, the import list is the words of every import line taken one by one, file after file |
| Compyne.MergeFilesImports | compyne.py:11-19 | over all files, the import list holds exactly the names all import lines spell, in first-seen order |
| Compyne.Output | compyne.py:9-27 | no contract; defines `final_string` (print adds one more line break), which `OutputShape` describes |
| Compyne.OutputShape | compyne.py:9-27 | the output is the shebang, one `import` line of the comma-joined names, then the kept lines; a name is imported exactly when some import line spells it, the names come in first-seen order, and each is listed as many times as the first word that spells it spells it |
| Compyne.RepeatsWithinWord | compyne.py:19 | a word is filtered against the list as it was before the word: `os,os` adds `os` twice, while two words `os` add it once |
| Compyne.ImportantIsImport | compyne.py:5-16 | `important = 1` is an import line and is not kept |
| Compyne.Merged | compyne.py:7-27 | the method computes the specification's output |
| Compyne.MergeFile | compyne.py:15-23 | the line loop over one file is the specification's merge of its lines |
| Compyne.AddImports | compyne.py:18-19 | the word loop of an import line adds the specification's names |

## Left out

- Pyfuscate.Obfuscator.constructor: the reflective seeding of `known_names` is not modelled. It comes from `globals()`, `dir` of the built-in types and `eval` of every name. The seeded list and the starting counter are parameters.
- `exec('import …')`, `eval` and `dir` on imported modules are left out. An `Environment` parameter replaces them: one oracle says whether a module imports and what a name's members are. The `ImportError` handler of the import (pyfuscate.py:162-163) and the two `NameError` handlers of the member evaluations (pyfuscate.py:158-161) are the oracle's negative answers.
- NameRules.Segment: its own contract states only that the tables stay consistent and only grow. The text it writes and the `known_name` flag it leaves are stated by `NameRules.SegmentRenames` and `NameRules.SegmentVerbatim`, which between them cover every case.
- NameRules.Import: any other exception raised while importing or evaluating is not modelled: a `SyntaxError` from `exec`, an `AttributeError` from `eval(name + '.' + entry)`, or an exception raised by the imported module's own code. In Python it ends the run; the oracle can only answer that the import or the evaluation succeeded or met the handled error.
- `tokenize.tokenize` and the file objects are left out. The token stream is an input: a sequence of tokens carrying only their type and text. Positions are never read.
- `file_out` and `sys.stderr` are modelled as strings that only grow.
- Python 2 `hex` of a `long` (counter values beyond `sys.maxint`, written with a trailing `L`) is left out: the counter is an unbounded integer rendered as a plain `hex`.
- The command-line handling and the passes outside the core are left out, because they are outside the modelled core:
  - pyfuscate's `main`/option parsing;
  - pyminifier's `remove_docstrings`, `remove_comments`, `minify`, the `cmdline` options and the shebang/encoding preservation;
  - the reading of `sys.argv` files and `print` in compyne.
- The dead code after `return output` in dedent (pyminifier.py:214-245) is left out, because it is never run.
- Pairs.LineStep: leaves out the second branch of the line loop (pyminifier.py:118), because its condition can never hold.
- Pairs.JoinMultilinePairs: the compiled pattern `'\%s' % opener` is modelled as the literal character only for characters other than ASCII letters and digits, because a backslash before a letter or digit means a class or a back-reference. The method requires this of both characters of `pair`. It also requires that neither is a backslash: as the replacement template of the clean-up (pyminifier.py:191-192) a lone backslash is a bogus escape, and Python raises before anything is substituted.
- Pairs.SubstituteMatches: the two compiled patterns are passed as the characters they match, and the substitutes must not contain a backslash, because a backslash in a replacement string is an escape.
- Pairs.Cleanup: the placeholder patterns' lookaheads are modelled by refusing a match followed by a quote. Their leading lookahead never refuses a match that starts with `#`.
- Compyne.ImportantIsImport: proves only that such a line is treated as an import and dropped. That `=` and `1` are then added as import names is not proved.

## Findings

| source | as written | input that shows it | evidently intended | confidence | as-written member | corrected member |
|---|---|---|---|---|---|---|
| pyminifier.py:268 | the def line's level is `len(line) - len(line.strip())`, which counts its trailing whitespace as well, unlike every other line's level (line 260) | `"def f(): \n x = 1\n"` becomes `"def f():  pass\n x = 1\n\n"`: a body line gets a `pass` before it | measure the def line like line 260, so ` pass` is added only when the next non-blank line has the same leading whitespace | high, not executed | EmptyMethods.TrailingSpaceAddsPass | EmptyMethods.IntendedPassDecision |
| pyminifier.py:133-140 | a closer read while no pair is open (inside a string literal or a comment) is counted in `closers`, so the next pair never closes and every later line is joined with its spaces dropped | the line `x = ")"` followed by `f(a)` and `y = 1` yields `x = ")"` then `f(a)y=1`; the bare characters `)()` leave `inside_pair` true | a closer outside any pair is copied and not counted, so the counters track the nesting depth | high, not executed | Pairs.StrayCloserKeepsPairOpen | Pairs.CorrectedNested |

Both corrected definitions are the same specification functions with the `asWritten` switch off: `EmptyMethods.FixEmptyMethodsIntended` and `Pairs.JoinTextIntended`. Every general lemma about them (`PendingDef`, `BlankLines`, `CharsSound`, `LinesVisible`, …) is proved for both settings. The executable methods follow the code as written.
