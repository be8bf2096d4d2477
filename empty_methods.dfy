/** fix_empty_methods in pyminifier.py: a `def` line is held back until the next line
    that is not blank, and gets " pass" appended when that line sits at the same
    indentation level, since the method then has no body left. */
module EmptyMethods {
  import opened PyBuiltins
  import opened Indentation

  /** The regular expression ^\s*def\s*.*\(.*\):.*$ matched at the start of a line with
      no newline: after the leading whitespace comes "def", and later a "(" followed,
      further on, by "):". */
  predicate IsDef(line: string) {
    var rest := LStrip(line);
    StartsWith(rest, "def") && exists i, j | 3 <= i < j <= |rest| - 2 :: rest[i] == '(' && At(rest, j, "):")
  }

  /** How the code measures a def line's level: len(line) - len(line.strip()), which
      counts trailing whitespace as well as leading. */
  function AsWrittenLevel(line: string): int {
    |line| - |Strip(line)|
  }

  /** The loop's variables: def_indentation_level, output, just_matched, previous_line
      (None before the first def, which is never read, so "" here). */
  datatype FixState = FixState(defLevel: int, output: string, justMatched: bool, previous: string)

  const Initial := FixState(0, "", false, "")

  /** A def line's level: as the code takes it, or as intended, like every other line's */
  function DefLevel(line: string, asWritten: bool): int {
    if asWritten then AsWrittenLevel(line) else Level(line)
  }

  /** One line of the loop, with `asWritten` choosing how a def line's level is taken. */
  function FixStep(s: FixState, line: string, asWritten: bool): FixState {
    if |Strip(line)| > 0 then
      if s.justMatched then
        var thisLevel := Level(line);
        if s.defLevel == thisLevel then
          s.(output := s.output + s.previous + " pass\n" + line + "\n", justMatched := false)
        else
          s.(output := s.output + s.previous + "\n" + line + "\n", justMatched := false)
      else if IsDef(line) then
        s.(defLevel := DefLevel(line, asWritten), justMatched := true, previous := line)
      else
        s.(output := s.output + line + "\n")
    else
      s.(output := s.output + "\n")
  }

  function FixFrom(s: FixState, lines: seq<string>, asWritten: bool): FixState
    decreases |lines|
  {
    if lines == [] then s else FixFrom(FixStep(s, lines[0], asWritten), lines[1..], asWritten)
  }

  /** fix_empty_methods as written */
  function FixEmptyMethodsText(source: string): string {
    FixFrom(Initial, Split(source, '\n'), true).output
  }

  /** fix_empty_methods with the def line's level measured like every other line's
      (len(line.rstrip()) - len(line.strip()), its leading whitespace) */
  function FixEmptyMethodsIntended(source: string): string {
    FixFrom(Initial, Split(source, '\n'), false).output
  }

  /** What follows a held-back def line: " pass" when its method turned out empty */
  function PassIf(empty: bool): string {
    if empty then " pass" else ""
  }

  function Newlines(n: nat): string {
    seq(n, _ => '\n')
  }

  predicate Blank(line: string) {
    Strip(line) == []
  }

  /** A def line is not blank. */
  lemma DefNotBlank(line: string)
    requires IsDef(line)
    ensures !Blank(line)
  {
    var rest := LStrip(line);
    LStripFacts(line);
    assert rest[0] == 'd' && line[|line| - |rest|] == 'd';
    StripEmpty(line);
  }

  /** Blank lines only add newlines, whether or not a def is pending. */
  lemma {:induction false} BlankLines(s: FixState, blanks: seq<string>, asWritten: bool)
    requires forall k :: 0 <= k < |blanks| ==> Blank(blanks[k])
    ensures FixFrom(s, blanks, asWritten) == s.(output := s.output + Newlines(|blanks|))
    decreases |blanks|
  {
    if blanks != [] {
      BlankLines(FixStep(s, blanks[0], asWritten), blanks[1..], asWritten);
      assert blanks[1..][0..] == blanks[1..];
      assert forall k :: 0 <= k < |blanks[1..]| ==> blanks[1..][k] == blanks[k + 1];
      assert s.output + "\n" + Newlines(|blanks| - 1) == s.output + Newlines(|blanks|);
    }
  }

  lemma {:induction false} FixFromAppend(s: FixState, a: seq<string>, b: seq<string>, asWritten: bool)
    ensures FixFrom(s, a + b, asWritten) == FixFrom(FixFrom(s, a, asWritten), b, asWritten)
    decreases |a|
  {
    if a == [] {
      assert a + b == b;
    } else {
      assert (a + b)[0] == a[0] && (a + b)[1..] == a[1..] + b;
      FixFromAppend(FixStep(s, a[0], asWritten), a[1..], b, asWritten);
    }
  }

  /** A line that is not blank, read while no def is pending, is written as it is when
      it is no def line, and held back otherwise. */
  lemma LineOutsideDef(s: FixState, line: string, asWritten: bool)
    requires !s.justMatched && !Blank(line)
    ensures !IsDef(line) ==> FixStep(s, line, asWritten) == s.(output := s.output + line + "\n")
    ensures IsDef(line) ==> FixStep(s, line, asWritten) == s.(defLevel := DefLevel(line, asWritten), justMatched := true, previous := line)
  {
  }

  /** The text written for a held-back def line d and the line l after it, as the loop
      spells it, is d, " pass" when the method is empty, and l, each line ended. */
  lemma PassText(out: string, d: string, l: string, empty: bool)
    ensures (if empty then out + d + " pass\n" + l + "\n" else out + d + "\n" + l + "\n")
            == out + d + PassIf(empty) + "\n" + l + "\n"
  {
    if empty {
      assert " pass\n" == " pass" + "\n";
      AppendAssoc(out + d, " pass", "\n");
    } else {
      assert out + d + "" == out + d;
    }
  }

  /** A def line d, the blank lines after it and the next line l that is not blank: the
      blank lines' newlines come first, then d, with " pass" exactly when l's level
      equals d's level as `asWritten` chooses to measure it, then l; l is never matched
      as a def. */
  lemma PendingDef(s: FixState, d: string, blanks: seq<string>, l: string, asWritten: bool)
    requires !s.justMatched && IsDef(d) && !Blank(l)
    requires forall k :: 0 <= k < |blanks| ==> Blank(blanks[k])
    ensures FixFrom(s, [d] + blanks + [l], asWritten)
            == s.(defLevel := DefLevel(d, asWritten), previous := d, justMatched := false,
                  output := s.output + Newlines(|blanks|) + d + PassIf(DefLevel(d, asWritten) == Level(l)) + "\n" + l + "\n")
  {
    DefNotBlank(d);
    var s1 := FixStep(s, d, asWritten);
    var s2 := s1.(output := s.output + Newlines(|blanks|));
    assert FixFrom(s, [d] + blanks, asWritten) == s2 by {
      assert FixFrom(s, [d], asWritten) == s1;
      BlankLines(s1, blanks, asWritten);
      FixFromAppend(s, [d], blanks, asWritten);
    }
    var s3 := FixStep(s2, l, asWritten);
    assert FixFrom(s, [d] + blanks + [l], asWritten) == s3 by {
      assert FixFrom(s2, [l], asWritten) == s3;
      FixFromAppend(s, [d] + blanks, [l], asWritten);
    }
    PassText(s2.output, d, l, DefLevel(d, asWritten) == Level(l));
  }

  /** A def still pending when the input ends is never written. */
  lemma TrailingDefDropped(s: FixState, d: string, blanks: seq<string>, asWritten: bool)
    requires !s.justMatched && IsDef(d)
    requires forall k :: 0 <= k < |blanks| ==> Blank(blanks[k])
    ensures FixFrom(s, [d] + blanks, asWritten).output == s.output + Newlines(|blanks|)
  {
    DefNotBlank(d);
    var s1 := FixStep(s, d, asWritten);
    assert FixFrom(s, [d], asWritten) == s1;
    BlankLines(s1, blanks, asWritten);
    FixFromAppend(s, [d], blanks, asWritten);
  }

  /** With the level measured as intended, " pass" is added exactly when the next line
      that is not blank has the same leading whitespace as the def line. */
  lemma IntendedPassDecision(s: FixState, d: string, blanks: seq<string>, l: string)
    requires !s.justMatched && IsDef(d) && !Blank(l)
    requires forall k :: 0 <= k < |blanks| ==> Blank(blanks[k])
    ensures FixFrom(s, [d] + blanks + [l], false).output
            == s.output + Newlines(|blanks|) + d + PassIf(Indent(d) == Indent(l)) + "\n" + l + "\n"
  {
    DefNotBlank(d);
    SameLevel(d, l);
    PendingDef(s, d, blanks, l, false);
  }

  /** For lines that are not blank, equal levels are equal leading whitespace. */
  lemma SameLevel(d: string, l: string)
    requires !Blank(d) && !Blank(l)
    ensures (Level(d) == Level(l)) == (Indent(d) == Indent(l))
  {
    LevelIsIndent(d);
    LevelIsIndent(l);
  }

  /** Two separator-free lines, each ended by a newline, split into the two lines and
      the empty piece after the last separator. */
  lemma SplitTwoLines(d: string, l: string)
    requires '\n' !in d && '\n' !in l
    ensures Split(d + "\n" + l + "\n", '\n') == [d] + [] + [l] + [""]
  {
    assert Terminated([l], '\n') == l + "\n";
    assert [d, l][1..] == [l];
    assert Terminated([d, l], '\n') == d + "\n" + (l + "\n") == d + "\n" + l + "\n";
    SplitTerminated([d, l], '\n');
    assert [d, l] + [""] == [d] + [] + [l] + [""];
  }

  /** A def line followed by one line that is not blank, each ended by a newline: the
      def line, " pass" when the levels agree, and the line, then the newline of the
      empty piece after the last separator. */
  lemma DefThenLine(d: string, l: string, asWritten: bool)
    requires IsDef(d) && !Blank(l) && '\n' !in d && '\n' !in l
    ensures FixFrom(Initial, Split(d + "\n" + l + "\n", '\n'), asWritten).output
            == d + PassIf(DefLevel(d, asWritten) == Level(l)) + "\n" + l + "\n" + "\n"
  {
    SplitTwoLines(d, l);
    PendingDef(Initial, d, [], l, asWritten);
    var s1 := FixFrom(Initial, [d] + [] + [l], asWritten);
    assert Newlines(0) == [];
    assert s1.output == d + PassIf(DefLevel(d, asWritten) == Level(l)) + "\n" + l + "\n";
    FixFromAppend(Initial, [d] + [] + [l], [""], asWritten);
    assert Strip("") == [];
    assert FixFrom(s1, [""], asWritten) == FixStep(s1, "", asWritten);
    assert FixStep(s1, "", asWritten).output == s1.output + "\n";
  }

  /** The example's lines: a def line with one trailing space, and a body line indented
      by one space, one level deeper than the def line; the trailing space counts in the
      def line's level as written, not as intended. */
  lemma ExampleLines(d: string, l: string)
    requires d == "def f(): " && l == " x = 1"
    ensures IsDef(d) && !Blank(l) && '\n' !in d && '\n' !in l
    ensures Indent(d) == 0 && Indent(l) == 1
    ensures DefLevel(d, true) == 1 && DefLevel(d, false) == 0 && Level(l) == 1
  {
    assert LStrip(d) == d;
    assert LStrip(l) == l[1..];
    assert IsDef(d) by {
      assert LStrip(d)[5] == '(' && At(LStrip(d), 6, "):");
    }
    assert RStrip(d) == d[..8];
    assert Strip(d) == d[..8];
    assert !Blank(d) by {
      StripEmpty(d);
    }
    assert !Blank(l) by {
      StripEmpty(l);
    }
    LevelIsIndent(d);
    LevelIsIndent(l);
  }

  /** As written, a def line with trailing whitespace gets " pass" when the next line is
      indented deeper, turning the method's body into a statement after it. */
  lemma TrailingSpaceAddsPass(source: string, d: string, l: string)
    requires d == "def f(): " && l == " x = 1" && source == d + "\n" + l + "\n"
    ensures FixEmptyMethodsText(source) == d + " pass\n" + l + "\n\n"
  {
    ExampleLines(d, l);
    DefThenLine(d, l, true);
    assert PassIf(DefLevel(d, true) == Level(l)) == " pass";
  }

  /** With the level measured as intended, the same input keeps its body and gets no
      " pass". */
  lemma TrailingSpaceIntended(source: string, d: string, l: string)
    requires d == "def f(): " && l == " x = 1" && source == d + "\n" + l + "\n"
    ensures FixEmptyMethodsIntended(source) == d + "\n" + l + "\n\n"
  {
    ExampleLines(d, l);
    DefThenLine(d, l, false);
    assert PassIf(DefLevel(d, false) == Level(l)) == "";
  }

  /** fix_empty_methods */
  method FixEmptyMethods(source: string) returns (output: string)
    ensures output == FixEmptyMethodsText(source)
  {
    var defIndentationLevel := 0;
    output := "";
    var justMatched := false;
    var previousLine := "";
    var lines := Split(source, '\n');
    for i := 0 to |lines|
      invariant FixFrom(FixState(defIndentationLevel, output, justMatched, previousLine), lines[i..], true)
                == FixFrom(Initial, lines, true)
    {
      assert lines[i..][1..] == lines[i + 1..];
      var line := lines[i];
      if |Strip(line)| > 0 {
        if justMatched {
          var thisIndentationLevel := |RStrip(line)| - |Strip(line)|;
          if defIndentationLevel == thisIndentationLevel {
            output := output + previousLine + " pass\n" + line + "\n";
          } else {
            output := output + previousLine + "\n" + line + "\n";
          }
          justMatched := false;
        } else if IsDef(line) {
          defIndentationLevel := |line| - |Strip(line)|;
          justMatched := true;
          previousLine := line;
        } else {
          output := output + line + "\n";
        }
      } else {
        output := output + "\n";
      }
    }
  }
}
