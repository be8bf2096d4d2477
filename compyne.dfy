/** compyne.py: several Python files merged into one. The names of all their `import`
    lines are gathered into a single import line, `from` lines are dropped and every
    other line is kept, file after file. */
module Compyne {
  import opened PyBuiltins

  const Shebang := "#!/usr/bin/python\n"

  /** import_line.match(line): the line begins with "import" (so `important = 1` does) */
  predicate IsImportLine(line: string) {
    StartsWith(line, "import")
  }

  /** from_line.match(line) */
  predicate IsFromLine(line: string) {
    StartsWith(line, "from")
  }

  /** items[1:] */
  function Tail(items: seq<string>): seq<string> {
    if items == [] then [] else items[1..]
  }

  /** The pieces of a list that are not empty */
  function NonEmpty(pieces: seq<string>): (r: seq<string>)
    ensures forall x :: x in r <==> x in pieces && x != []
  {
    if pieces == [] then [] else (if pieces[0] == [] then [] else [pieces[0]]) + NonEmpty(pieces[1..])
  }

  /** The names an import word spells: its non-empty comma-separated pieces */
  function Pieces(item: string): seq<string> {
    NonEmpty(Split(item, ','))
  }

  /** The import list after the words `items` of an import line, taken one by one */
  function AddItems(imports: seq<string>, items: seq<string>): seq<string>
    decreases |items|
  {
    if items == [] then imports else AddItems(Extend(imports, Pieces(items[0])), items[1..])
  }

  /** The state of the merge: all_imports and all_lines */
  datatype Merge = Merge(imports: seq<string>, kept: seq<string>)

  /** One line of a file */
  function MergeLine(m: Merge, line: string): Merge {
    if IsImportLine(line) then m.(imports := AddItems(m.imports, Tail(Words(line))))
    else if IsFromLine(line) then m
    else m.(kept := m.kept + [line])
  }

  function MergeLines(m: Merge, lines: seq<string>): Merge
    decreases |lines|
  {
    if lines == [] then m else MergeLines(MergeLine(m, lines[0]), lines[1..])
  }

  function MergeFiles(m: Merge, files: seq<seq<string>>): Merge
    decreases |files|
  {
    if files == [] then m else MergeFiles(MergeLines(m, files[0]), files[1..])
  }

  /** final_string for files whose lines (each with its line break, as readlines gives
      them) are `files`; the print statement writes it followed by one more line break */
  function Output(files: seq<seq<string>>): string {
    var m := MergeFiles(Merge([], []), files);
    Shebang + "import " + JoinWith(m.imports, ", ") + "\n" + Concat(m.kept)
  }

  /** The merge of compyne.py over the files' lines */
  method Merged(files: seq<seq<string>>) returns (finalString: string)
    ensures finalString == Output(files)
  {
    var allLines: seq<string> := [];
    var allImports: seq<string> := [];
    finalString := Shebang;
    for f := 0 to |files|
      invariant MergeFiles(Merge(allImports, allLines), files[f..]) == MergeFiles(Merge([], []), files)
      invariant finalString == Shebang
    {
      assert files[f..][1..] == files[f + 1..];
      allImports, allLines := MergeFile(allImports, allLines, files[f]);
    }
    var importString := JoinWith(allImports, ", ");
    var tempString := Concat(allLines);
    finalString := finalString + "import " + importString + "\n" + tempString;
  }

  /** The line loop over one file */
  method MergeFile(allImports: seq<string>, allLines: seq<string>, lines: seq<string>)
    returns (allImports': seq<string>, allLines': seq<string>)
    ensures Merge(allImports', allLines') == MergeLines(Merge(allImports, allLines), lines)
  {
    allImports', allLines' := allImports, allLines;
    for i := 0 to |lines|
      invariant MergeLines(Merge(allImports', allLines'), lines[i..]) == MergeLines(Merge(allImports, allLines), lines)
    {
      assert lines[i..][1..] == lines[i + 1..];
      var line := lines[i];
      if IsImportLine(line) {
        var items := Words(line);
        allImports' := AddImports(allImports', Tail(items));
      } else if IsFromLine(line) {
        continue;
      } else {
        allLines' := allLines' + [line];
      }
    }
  }

  /** The word loop of an import line */
  method AddImports(allImports: seq<string>, items: seq<string>) returns (allImports': seq<string>)
    ensures allImports' == AddItems(allImports, items)
  {
    allImports' := allImports;
    for k := 0 to |items|
      invariant AddItems(allImports', items[k..]) == AddItems(allImports, items)
    {
      assert items[k..][1..] == items[k + 1..];
      allImports' := allImports' + Absent(allImports', NonEmpty(Split(items[k], ',')));
    }
  }

  /** The lines of the files, file after file */
  function Flatten(files: seq<seq<string>>): seq<string> {
    if files == [] then [] else files[0] + Flatten(files[1..])
  }

  /** The lines that are neither import nor from lines, in order */
  function KeptLines(lines: seq<string>): seq<string> {
    if lines == [] then []
    else (if IsImportLine(lines[0]) || IsFromLine(lines[0]) then [] else [lines[0]]) + KeptLines(lines[1..])
  }

  /** A line is kept exactly when it is one of the lines and neither an import nor a
      from line. */
  lemma {:induction false} KeptMembers(lines: seq<string>, x: string)
    ensures x in KeptLines(lines) <==> x in lines && !IsImportLine(x) && !IsFromLine(x)
    decreases |lines|
  {
    if lines != [] {
      KeptMembers(lines[1..], x);
      assert lines == [lines[0]] + lines[1..];
    }
  }

  /** Every import name the lines spell, in order, repeats included */
  function Named(lines: seq<string>): seq<string> {
    if lines == [] then []
    else (if IsImportLine(lines[0]) then ItemNames(Tail(Words(lines[0]))) else []) + Named(lines[1..])
  }

  function ItemNames(items: seq<string>): seq<string> {
    if items == [] then [] else Pieces(items[0]) + ItemNames(items[1..])
  }

  /** The import list only grows, and it ends up holding exactly the names it held and
      the names the words spell. */
  lemma {:induction false} AddItemsNames(imports: seq<string>, items: seq<string>)
    ensures imports <= AddItems(imports, items)
    ensures forall x :: x in AddItems(imports, items) <==> x in imports || x in ItemNames(items)
    decreases |items|
  {
    if items != [] {
      var next := Extend(imports, Pieces(items[0]));
      AddItemsNames(next, items[1..]);
      assert imports <= next;
    }
  }

  /** The names enter the import list in order of first sighting: its distinct names
      come in the same order as those of the old list followed by every name the words
      spell. */
  lemma {:induction false} AddItemsOrder(imports: seq<string>, items: seq<string>)
    ensures Dedup(AddItems(imports, items)) == Dedup(imports + ItemNames(items))
    decreases |items|
  {
    if items == [] {
      assert imports + ItemNames(items) == imports;
    } else {
      var pieces := Pieces(items[0]);
      var rest := ItemNames(items[1..]);
      AddItemsOrder(Extend(imports, pieces), items[1..]);
      DedupExtend(imports, pieces, rest);
      assert ItemNames(items) == pieces + rest;
      AppendAssoc(imports, pieces, rest);
    }
  }

  /** How many times the first of the words that spells x spells it; 0 when none does */
  function FirstSpelling(items: seq<string>, x: string): nat
    decreases |items|
  {
    if items == [] then 0
    else if x in Pieces(items[0]) then multiset(Pieces(items[0]))[x]
    else FirstSpelling(items[1..], x)
  }

  /** How often a name is listed: a name already in the list is never added again, and
      a new one is added once for each time the first word that spells it spells it.
      So two equal new entries always come from the same word. */
  lemma {:induction false} AddItemsCount(imports: seq<string>, items: seq<string>, x: string)
    ensures multiset(AddItems(imports, items))[x]
            == multiset(imports)[x] + if x in imports then 0 else FirstSpelling(items, x)
    decreases |items|
  {
    if items != [] {
      var pieces := Pieces(items[0]);
      var next := Extend(imports, pieces);
      AddItemsCount(next, items[1..], x);
      assert multiset(next) == multiset(imports) + multiset(Absent(imports, pieces));
    }
  }

  /** Splitting the words splits the names they spell. */
  lemma {:induction false} ItemNamesAppend(a: seq<string>, b: seq<string>)
    ensures ItemNames(a + b) == ItemNames(a) + ItemNames(b)
    decreases |a|
  {
    if a == [] {
      assert a + b == b;
    } else {
      assert (a + b)[1..] == a[1..] + b;
      ItemNamesAppend(a[1..], b);
      AppendAssoc(Pieces(a[0]), ItemNames(a[1..]), ItemNames(b));
    }
  }

  /** Words taken in two runs are words taken in one. */
  lemma {:induction false} AddItemsAppend(imports: seq<string>, a: seq<string>, b: seq<string>)
    ensures AddItems(imports, a + b) == AddItems(AddItems(imports, a), b)
    decreases |a|
  {
    if a == [] {
      assert a + b == b;
    } else {
      assert (a + b)[1..] == a[1..] + b;
      AddItemsAppend(Extend(imports, Pieces(a[0])), a[1..], b);
    }
  }

  /** The words after `import` of the import lines, line after line */
  function ImportWords(lines: seq<string>): seq<string> {
    if lines == [] then []
    else (if IsImportLine(lines[0]) then Tail(Words(lines[0])) else []) + ImportWords(lines[1..])
  }

  lemma {:induction false} ImportWordsAppend(a: seq<string>, b: seq<string>)
    ensures ImportWords(a + b) == ImportWords(a) + ImportWords(b)
    decreases |a|
  {
    if a == [] {
      assert a + b == b;
    } else {
      assert (a + b)[1..] == a[1..] + b;
      ImportWordsAppend(a[1..], b);
      var h := if IsImportLine(a[0]) then Tail(Words(a[0])) else [];
      AppendAssoc(h, ImportWords(a[1..]), ImportWords(b));
    }
  }

  /** The names of the import lines are the names their words spell. */
  lemma {:induction false} NamedWords(lines: seq<string>)
    ensures Named(lines) == ItemNames(ImportWords(lines))
    decreases |lines|
  {
    if lines != [] {
      var h := if IsImportLine(lines[0]) then Tail(Words(lines[0])) else [];
      NamedWords(lines[1..]);
      ItemNamesAppend(h, ImportWords(lines[1..]));
      assert ItemNames([]) == [];
    }
  }

  /** A file's import list is the old list with the words of all its import lines
      taken one by one, in order. */
  lemma {:induction false} MergeLinesWords(m: Merge, lines: seq<string>)
    ensures MergeLines(m, lines).imports == AddItems(m.imports, ImportWords(lines))
    decreases |lines|
  {
    if lines != [] {
      var h := if IsImportLine(lines[0]) then Tail(Words(lines[0])) else [];
      MergeLinesWords(MergeLine(m, lines[0]), lines[1..]);
      AddItemsAppend(m.imports, h, ImportWords(lines[1..]));
      assert MergeLine(m, lines[0]).imports == AddItems(m.imports, h);
    }
  }

  /** The import list over all the files is the old list with the words of every import
      line taken one by one, file after file and line after line. */
  lemma {:induction false} MergeFilesWords(m: Merge, files: seq<seq<string>>)
    ensures MergeFiles(m, files).imports == AddItems(m.imports, ImportWords(Flatten(files)))
    decreases |files|
  {
    if files != [] {
      var m' := MergeLines(m, files[0]);
      MergeLinesWords(m, files[0]);
      MergeFilesWords(m', files[1..]);
      ImportWordsAppend(files[0], Flatten(files[1..]));
      AddItemsAppend(m.imports, ImportWords(files[0]), ImportWords(Flatten(files[1..])));
    }
  }

  /** The kept lines of a file are its lines that are neither import nor from lines. */
  lemma {:induction false} MergeLinesKept(m: Merge, lines: seq<string>)
    ensures MergeLines(m, lines).kept == m.kept + KeptLines(lines)
    decreases |lines|
  {
    if lines == [] {
      assert m.kept + [] == m.kept;
    } else {
      var m' := MergeLine(m, lines[0]);
      MergeLineKept(m, lines[0]);
      MergeLinesKept(m', lines[1..]);
      var h := if IsImportLine(lines[0]) || IsFromLine(lines[0]) then [] else [lines[0]];
      var rest := KeptLines(lines[1..]);
      assert KeptLines(lines) == h + rest;
      assert m'.kept == m.kept + h;
      AppendAssoc(m.kept, h, rest);
    }
  }

  lemma MergeLineKept(m: Merge, line: string)
    ensures MergeLine(m, line).kept == m.kept + if IsImportLine(line) || IsFromLine(line) then [] else [line]
  {
  }

  /** The import list of a file only grows, by exactly the names of its import lines,
      and in order of first sighting. */
  lemma {:induction false} MergeLinesImports(m: Merge, lines: seq<string>)
    ensures m.imports <= MergeLines(m, lines).imports
    ensures forall x :: x in MergeLines(m, lines).imports <==> x in m.imports || x in Named(lines)
    ensures Dedup(MergeLines(m, lines).imports) == Dedup(m.imports + Named(lines))
    decreases |lines|
  {
    MergeLinesWords(m, lines);
    AddItemsOrder(m.imports, ImportWords(lines));
    NamedWords(lines);
    if lines != [] {
      var m' := MergeLine(m, lines[0]);
      MergeLinesImports(m', lines[1..]);
      if IsImportLine(lines[0]) {
        AddItemsNames(m.imports, Tail(Words(lines[0])));
      }
    }
  }

  lemma {:induction false} NamedAppend(a: seq<string>, b: seq<string>)
    ensures Named(a + b) == Named(a) + Named(b)
    decreases |a|
  {
    if a == [] {
      assert a + b == b;
    } else {
      var h := if IsImportLine(a[0]) then ItemNames(Tail(Words(a[0]))) else [];
      assert (a + b)[0] == a[0] && (a + b)[1..] == a[1..] + b;
      assert Named(a + b) == h + Named(a[1..] + b);
      NamedAppend(a[1..], b);
      AppendAssoc(h, Named(a[1..]), Named(b));
    }
  }

  lemma {:induction false} KeptAppend(a: seq<string>, b: seq<string>)
    ensures KeptLines(a + b) == KeptLines(a) + KeptLines(b)
    decreases |a|
  {
    if a == [] {
      assert a + b == b;
    } else {
      assert (a + b)[1..] == a[1..] + b;
      KeptAppend(a[1..], b);
    }
  }

  /** Over all the files, the kept lines are exactly the lines that are neither import
      nor from lines, in file and line order. */
  lemma {:induction false} MergeFilesKept(m: Merge, files: seq<seq<string>>)
    ensures MergeFiles(m, files).kept == m.kept + KeptLines(Flatten(files))
    decreases |files|
  {
    if files != [] {
      var m' := MergeLines(m, files[0]);
      MergeLinesKept(m, files[0]);
      assert MergeFiles(m, files) == MergeFiles(m', files[1..]);
      MergeFilesKept(m', files[1..]);
      KeptAppend(files[0], Flatten(files[1..]));
      AppendAssoc(m.kept, KeptLines(files[0]), KeptLines(Flatten(files[1..])));
    }
  }

  /** Over all the files, the import list only grows, by exactly the names of all import
      lines, and in order of first sighting. */
  lemma {:induction false} MergeFilesImports(m: Merge, files: seq<seq<string>>)
    ensures m.imports <= MergeFiles(m, files).imports
    ensures forall x :: x in MergeFiles(m, files).imports <==> x in m.imports || x in Named(Flatten(files))
    ensures Dedup(MergeFiles(m, files).imports) == Dedup(m.imports + Named(Flatten(files)))
    decreases |files|
  {
    MergeFilesWords(m, files);
    AddItemsOrder(m.imports, ImportWords(Flatten(files)));
    NamedWords(Flatten(files));
    if files != [] {
      var m' := MergeLines(m, files[0]);
      MergeLinesImports(m, files[0]);
      MergeFilesImports(m', files[1..]);
      NamedAppend(files[0], Flatten(files[1..]));
      assert m.imports <= m'.imports <= MergeFiles(m, files).imports;
    }
  }

  /** The output: the shebang line, one import line naming the imports of all the files
      in order of first sighting (even when there is none), then every line that is
      neither an import nor a from line. A name is listed as many times as the first
      import word that spells it spells it. */
  lemma OutputShape(files: seq<seq<string>>)
    ensures var m := MergeFiles(Merge([], []), files);
            && Output(files) == Shebang + "import " + JoinWith(m.imports, ", ") + "\n" + Concat(KeptLines(Flatten(files)))
            && (forall x :: x in m.imports <==> x in Named(Flatten(files)))
            && Dedup(m.imports) == Dedup(Named(Flatten(files)))
            && (forall x :: multiset(m.imports)[x] == FirstSpelling(ImportWords(Flatten(files)), x))
  {
    var m := MergeFiles(Merge([], []), files);
    MergeFilesKept(Merge([], []), files);
    MergeFilesImports(Merge([], []), files);
    assert [] + KeptLines(Flatten(files)) == KeptLines(Flatten(files));
    assert [] + Named(Flatten(files)) == Named(Flatten(files));
    MergeFilesWords(Merge([], []), files);
    forall x ensures multiset(m.imports)[x] == FirstSpelling(ImportWords(Flatten(files)), x) {
      AddItemsCount([], ImportWords(Flatten(files)), x);
    }
  }

  /** Repeats are filtered against the list as it was before the word: "os,os" spells
      "os" twice and both are added, while two words "os" add it once. */
  lemma RepeatsWithinWord(os: string, word: string)
    requires os == "os" && word == "os,os"
    ensures AddItems([], [word]) == [os, os]
    ensures AddItems([], [os, os]) == [os]
  {
    assert ',' !in os && os != [];
    assert Split(os, ',') == [os] by {
      assert JoinWith(Split(os, ','), [',']) == os;
    }
    assert word == os + ([','] + os);
    SplitPrefix(os, ',', os);
    assert Split(word, ',') == [os, os];
    assert [os, os][1..] == [os] && [os][1..] == [];
    assert NonEmpty([os]) == [os];
    assert NonEmpty([os, os]) == [os] + NonEmpty([os]);
    assert Absent([], [os]) == [os];
    assert Absent([], [os, os]) == [os] + Absent([], [os]);
    assert Extend([], Pieces(word)) == [os, os];
    assert Extend([], Pieces(os)) == [os];
    assert Absent([os], [os]) == [];
    assert Extend([os], Pieces(os)) == [os];
    assert AddItems([], [os, os]) == AddItems([os], [os]);
  }

  /** Any line beginning with "import" is an import line: `important = 1` is not kept. */
  lemma ImportantIsImport(m: Merge, line: string)
    requires line == "important = 1\n"
    ensures IsImportLine(line) && MergeLine(m, line).kept == m.kept
  {
    assert line[..6] == "import";
  }
}
