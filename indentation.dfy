/** dedent in pyminifier.py: every line's indentation is replaced by as many spaces
    as the position of its original indentation level in the list of levels, taken in
    order of first occurrence. */
module Indentation {
  import opened PyBuiltins

  /** len(line.rstrip()) - len(line.strip()) */
  function Level(line: string): nat {
    |RStrip(line)| - |Strip(line)|
  }

  /** The leading whitespace of a line */
  function Indent(line: string): nat {
    |line| - |LStrip(line)|
  }

  /** Cutting whitespace off the end of a line that keeps a non-blank character does
      not change its leading whitespace. */
  lemma {:induction false} IndentOfPrefix(s: string, k: nat)
    requires 0 < k <= |s| && !IsSpace(s[k - 1])
    ensures Indent(s[..k]) == Indent(s)
    decreases k
  {
    var p := s[..k];
    assert p[0] == s[0];
    if IsSpace(s[0]) {
      assert p[1..] == s[1..][..k - 1];
      assert s[1..][k - 2] == s[k - 1];
      IndentOfPrefix(s[1..], k - 1);
      assert LStrip(p) == LStrip(p[1..]);
      assert LStrip(s) == LStrip(s[1..]);
    } else {
      assert LStrip(p) == p;
      assert LStrip(s) == s;
    }
  }

  /** A line's level is its leading whitespace, and 0 for a blank line. */
  lemma LevelIsIndent(line: string)
    ensures Level(line) == if Strip(line) == [] then 0 else Indent(line)
  {
    var r := RStrip(line);
    RStripFacts(line);
    LStripFacts(r);
    if Strip(line) != [] {
      assert r != [] && !IsSpace(r[|r| - 1]) && line[|r| - 1] == r[|r| - 1];
      IndentOfPrefix(line, |r|);
    }
  }

  /** The first loop of dedent: the levels of `lines` not yet in `acc`, appended in order
      of first occurrence. */
  function LevelsFrom(acc: seq<int>, lines: seq<string>): seq<int>
    decreases |lines|
  {
    if lines == [] then acc
    else LevelsFrom(if Level(lines[0]) in acc then acc else acc + [Level(lines[0])], lines[1..])
  }

  predicate Distinct(xs: seq<int>) {
    forall i, j :: 0 <= i < j < |xs| ==> xs[i] != xs[j]
  }

  /** The level of every line, in order */
  function LevelList(lines: seq<string>): (r: seq<int>)
    ensures |r| == |lines| && forall k :: 0 <= k < |lines| ==> r[k] == Level(lines[k])
  {
    if lines == [] then []
    else
      var r := [Level(lines[0])] + LevelList(lines[1..]);
      assert forall k :: 1 <= k < |lines| ==> lines[k] == lines[1..][k - 1];
      r
  }

  /** The list of levels holds each level of the lines once, and nothing else. */
  lemma {:induction false} LevelsListed(acc: seq<int>, lines: seq<string>)
    requires Distinct(acc)
    ensures Distinct(LevelsFrom(acc, lines))
    ensures forall v :: v in LevelsFrom(acc, lines) <==> v in acc || v in LevelList(lines)
    decreases |lines|
  {
    if lines != [] {
      var acc' := if Level(lines[0]) in acc then acc else acc + [Level(lines[0])];
      LevelsListed(acc', lines[1..]);
      assert LevelList(lines) == [Level(lines[0])] + LevelList(lines[1..]);
    }
  }

  /** The position of v in a list that holds it */
  function IndexOf(xs: seq<int>, v: int): (i: nat)
    requires v in xs
    ensures i < |xs| && xs[i] == v
    ensures forall j :: 0 <= j < i ==> xs[j] != v
  {
    if xs[0] == v then 0 else 1 + IndexOf(xs[1..], v)
  }

  /** The inner loop of dedent from position i of the level list on: the line is
      written after i spaces for every position i holding its level. */
  function Reindent(levels: seq<int>, i: nat, level: int, body: string): string
    requires i <= |levels|
    decreases |levels| - i
  {
    if i == |levels| then ""
    else (if levels[i] == level then Spaces(i) + body + "\n" else "") + Reindent(levels, i + 1, level, body)
  }

  /** With distinct levels, a line is written exactly once, after as many spaces as the
      position of its level. */
  lemma {:induction false} ReindentOnce(levels: seq<int>, i: nat, level: int, body: string)
    requires Distinct(levels) && i <= |levels|
    ensures level in levels[i..] ==> Reindent(levels, i, level, body) == Spaces(IndexOf(levels, level)) + body + "\n"
    ensures level !in levels[i..] ==> Reindent(levels, i, level, body) == ""
    decreases |levels| - i
  {
    if i < |levels| {
      ReindentOnce(levels, i + 1, level, body);
      assert levels[i..] == [levels[i]] + levels[i + 1..];
      if levels[i] == level {
        assert level !in levels[i + 1..];
        assert IndexOf(levels, level) == i;
      }
    }
  }

  /** The second loop of dedent over `lines` */
  function DedentFrom(levels: seq<int>, lines: seq<string>): string
    decreases |lines|
  {
    if lines == [] then ""
    else Reindent(levels, 0, Level(lines[0]), LStrip(lines[0])) + DedentFrom(levels, lines[1..])
  }

  function DedentText(source: string): string {
    var lines := Split(source, '\n');
    DedentFrom(LevelsFrom([], lines), lines)
  }

  /** The lines dedent writes: each line stripped of its leading whitespace, after as
      many spaces as the position of its level. */
  function Reindented(levels: seq<int>, lines: seq<string>): (r: seq<string>)
    requires forall k :: 0 <= k < |lines| ==> Level(lines[k]) in levels
    ensures |r| == |lines|
    ensures forall k :: 0 <= k < |lines| ==> r[k] == Spaces(IndexOf(levels, Level(lines[k]))) + LStrip(lines[k])
  {
    if lines == [] then []
    else
      var r := [Spaces(IndexOf(levels, Level(lines[0]))) + LStrip(lines[0])] + Reindented(levels, lines[1..]);
      assert forall k :: 1 <= k < |lines| ==> lines[k] == lines[1..][k - 1];
      r
  }

  lemma {:induction false} DedentFromLines(levels: seq<int>, lines: seq<string>)
    requires Distinct(levels) && forall k :: 0 <= k < |lines| ==> Level(lines[k]) in levels
    ensures DedentFrom(levels, lines) == Terminated(Reindented(levels, lines), '\n')
    decreases |lines|
  {
    if lines != [] {
      ReindentOnce(levels, 0, Level(lines[0]), LStrip(lines[0]));
      assert levels[0..] == levels;
      DedentFromLines(levels, lines[1..]);
      var r := Reindented(levels, lines);
      assert r[1..] == Reindented(levels, lines[1..]);
    }
  }

  /** dedent writes one line per piece of source.split('\n'), and no other: the piece
      with its leading whitespace replaced by as many spaces as the position of its
      level among the levels in order of first occurrence. */
  lemma DedentLines(source: string)
    ensures var lines := Split(source, '\n');
            var levels := LevelsFrom([], lines);
            && Distinct(levels)
            && (forall k :: 0 <= k < |lines| ==> Level(lines[k]) in levels)
            && Split(DedentText(source), '\n') == Reindented(levels, lines) + [""]
  {
    var lines := Split(source, '\n');
    var levels := LevelsFrom([], lines);
    LevelsListed([], lines);
    forall k | 0 <= k < |lines| ensures Level(lines[k]) in levels {
      assert LevelList(lines)[k] == Level(lines[k]);
    }
    DedentFromLines(levels, lines);
    var r := Reindented(levels, lines);
    forall k | 0 <= k < |r| ensures '\n' !in r[k] {
      LStripFacts(lines[k]);
      assert '\n' !in lines[k];
      assert '\n' !in LStrip(lines[k]);
    }
    SplitTerminated(r, '\n');
  }

  /** Lines with the same level get the same new indentation, and lines with different
      levels different ones. */
  lemma DedentKeepsLevels(source: string, j: int, k: int)
    requires var lines := Split(source, '\n'); 0 <= j < |lines| && 0 <= k < |lines|
    ensures var lines := Split(source, '\n');
            var levels := LevelsFrom([], lines);
            && Level(lines[j]) in levels && Level(lines[k]) in levels
            && (IndexOf(levels, Level(lines[j])) == IndexOf(levels, Level(lines[k])) <==> Level(lines[j]) == Level(lines[k]))
  {
    DedentLines(source);
  }

  /** dedent */
  method Dedent(source: string) returns (output: string)
    ensures output == DedentText(source)
  {
    var lines := Split(source, '\n');
    var indentationList := IndentationLevels(lines);
    output := "";
    for i := 0 to |lines|
      invariant output + DedentFrom(indentationList, lines[i..]) == DedentFrom(indentationList, lines)
    {
      assert lines[i..][1..] == lines[i + 1..];
      ghost var rest := DedentFrom(indentationList, lines[i + 1..]);
      ghost var before := output;
      output := ReindentLine(output, indentationList, lines[i]);
      AppendAssoc(before, Reindent(indentationList, 0, Level(lines[i]), LStrip(lines[i])), rest);
    }
  }

  /** The first loop of dedent: the levels of the lines in order of first occurrence */
  method IndentationLevels(lines: seq<string>) returns (indentationList: seq<int>)
    ensures indentationList == LevelsFrom([], lines)
  {
    indentationList := [];
    for i := 0 to |lines|
      invariant LevelsFrom(indentationList, lines[i..]) == LevelsFrom([], lines)
    {
      assert lines[i..][1..] == lines[i + 1..];
      var indentationLevel := Level(lines[i]);
      if indentationLevel !in indentationList {
        indentationList := indentationList + [indentationLevel];
      }
    }
  }

  /** The inner loop of dedent: `line` appended to output after i spaces for every
      position i of the level list that holds the line's level. */
  method ReindentLine(output: string, indentationList: seq<int>, line: string) returns (output': string)
    ensures output' == output + Reindent(indentationList, 0, Level(line), LStrip(line))
  {
    var indentationLevel := Level(line);
    var body := LStrip(line);
    output' := output;
    for j := 0 to |indentationList|
      invariant output' + Reindent(indentationList, j, indentationLevel, body)
                == output + Reindent(indentationList, 0, indentationLevel, body)
    {
      ghost var tail := Reindent(indentationList, j + 1, indentationLevel, body);
      if indentationLevel == indentationList[j] {
        AppendAssoc(output', Spaces(j) + body + "\n", tail);
        output' := output' + (Spaces(j) + body + "\n");
      } else {
        assert Reindent(indentationList, j, indentationLevel, body) == tail;
      }
    }
  }
}
