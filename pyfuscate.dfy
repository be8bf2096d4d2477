/** The obfuscator object of pyfuscate.py (class pyfuscate): its fields are updated in
    place token by token, and each of its methods is proved to compute the matching
    function of LineRules, whose properties are proved there. */
module Pyfuscate {
  import opened PyBuiltins
  import opened NameRules
  import opened LineRules

  class Obfuscator {
    /** indent_list: the indentation strings of the enclosing blocks, innermost last */
    var indentList: seq<string>
    /** token_line: the tokens of the logical line being collected */
    var tokenLine: seq<Token>
    /** name_dict: original name to generated name */
    var nameDict: map<string, string>
    /** obfu_names: the renamed originals, in the order they were renamed */
    var obfuNames: seq<string>
    var counter: int
    /** known_names: names that are never renamed */
    var knownNames: seq<string>
    /** everything written to file_out so far */
    var fileOut: string
    /** everything written to sys.stderr so far */
    var stderr: string
    /** false once the Python code has raised an exception; nothing happens afterwards */
    var ok: bool
    /** what importing and evaluating module names yields */
    const env: Environment
    /** the counter value the run started from */
    ghost const start: int

    function Tables(): Tables
      reads this
    {
      NameRules.Tables(knownNames, nameDict, obfuNames, counter, stderr)
    }

    function State(): Engine
      reads this
    {
      Engine(indentList, tokenLine, Tables(), fileOut, ok)
    }

    /** The rename table holds what renaming obfuNames from `start` on builds. */
    ghost predicate Valid()
      reads this
    {
      TablesOk(Tables(), start)
    }

    /** __init__ with the known names already seeded, and the starting counter value
        that the command line sets right afterwards. */
    constructor (known: seq<string>, initial: int, env: Environment)
      ensures Valid() && this.env == env && start == initial
      ensures State() == Engine([""], [], NameRules.Tables(known, map[], [], initial, ""), "", true)
    {
      indentList := [""];
      tokenLine := [];
      nameDict := map[];
      obfuNames := [];
      counter := initial;
      knownNames := known;
      fileOut := "";
      stderr := "";
      ok := true;
      this.env := env;
      start := initial;
    }

    /** run: write the header, then hand every token of the stream to token_collector. */
    method Run(toks: seq<Token>)
      requires Valid()
      modifies this
      ensures Valid()
      ensures State() == LineRules.Run(old(State()).(out := old(fileOut) + Header), env, toks)
    {
      fileOut := fileOut + Header;
      ghost var e1 := State();
      var i := 0;
      while i < |toks|
        invariant 0 <= i <= |toks| && Valid()
        invariant LineRules.Run(State(), env, toks[i..]) == LineRules.Run(e1, env, toks)
      {
        assert toks[i..][1..] == toks[i + 1..];
        TokenCollector(toks[i]);
        i := i + 1;
      }
    }

    /** token_collector */
    method TokenCollector(tok: Token)
      requires Valid()
      modifies this
      ensures Valid()
      ensures State() == Collect(old(State()), env, tok)
    {
      if !ok {
        return;
      }
      match tok.kind
      case Comment =>
      case NL =>
      case Indent =>
        indentList := indentList + [tok.text];
      case Dedent =>
        if indentList == [] {
          ok := false;
        } else {
          indentList := indentList[..|indentList| - 1];
        }
      case Newline =>
        ObfuKeepsTables(State(), start, env);
        Obfu();
      case _ =>
        tokenLine := tokenLine + [tok];
    }

    /** obfu: rebuild the collected line token by token and write it out. */
    method Obfu()
      requires Consistent(Tables())
      modifies this
      ensures State() == LineRules.Obfu(old(State()), env)
    {
      if tokenLine == [] {
        ok := false;
        return;
      }
      var importLine := false;
      if tokenLine[0].text == "import" {
        importLine := true;
      } else if tokenLine[0].text == "from" {
        return;
      }
      var obfuLine, completed := RenderLine(tokenLine, importLine);
      if !completed {
        ok := false;
        return;
      }
      if indentList == [] {
        ok := false;
        return;
      }
      fileOut := fileOut + indentList[|indentList| - 1] + obfuLine + "\n";
      tokenLine := [];
    }

    /** obfu's loop over the tokens of one line; `completed` is false when a ")"
        met an empty bracket_stack, where Python raises IndexError. */
    method RenderLine(line: seq<Token>, importLine: bool) returns (obfuLine: string, completed: bool)
      requires Consistent(Tables())
      modifies this
      ensures var (s, done) := Render(Scan(old(Tables()), 0, 0, ""), env, line, importLine);
              State() == old(State()).(tables := s.tables) && obfuLine == s.text && completed == done
    {
      var bracketStack: seq<string> := [];
      obfuLine := "";
      var pos := 0;
      while pos < |line|
        invariant pos <= |line| && Consistent(Tables())
        invariant State() == old(State()).(tables := Tables())
        invariant Render(Scan(Tables(), pos, |bracketStack|, obfuLine), env, line, importLine)
                  == Render(Scan(old(Tables()), 0, 0, ""), env, line, importLine)
        decreases |line| - pos
      {
        completed, pos, bracketStack, obfuLine := ObfuStep(line, importLine, pos, bracketStack, obfuLine);
        if !completed {
          return;
        }
      }
      completed := true;
    }

    /** One turn of obfu's loop: the token line[pos] is popped and its text appended
        to obfu_line; `completed` is false when a ")" met an empty bracket_stack. */
    method ObfuStep(line: seq<Token>, importLine: bool, pos: nat, bracketStack: seq<string>, obfuLine: string)
      returns (completed: bool, pos': nat, bracketStack': seq<string>, obfuLine': string)
      requires Consistent(Tables()) && pos < |line|
      modifies this
      ensures var r := Step(Scan(old(Tables()), pos, |bracketStack|, obfuLine), env, line, importLine);
              && completed == r.Some?
              && State() == old(State()).(tables := if completed then r.value.tables else old(Tables()))
              && (completed ==> r.value == Scan(Tables(), pos', |bracketStack'|, obfuLine'))
              && (!completed ==> obfuLine' == obfuLine)
    {
      var tok := line[pos];
      ghost var s := Scan(Tables(), pos, |bracketStack|, obfuLine);
      completed, pos', bracketStack', obfuLine' := true, pos + 1, bracketStack, obfuLine;
      if tok.kind == Name {
        StepName(s, env, line, importLine);
        var text, count := NameToken(line, pos, importLine);
        obfuLine' := obfuLine + text;
        pos' := pos + count;
      } else if tok.kind == Op && tok.text == "(" {
        bracketStack' := bracketStack + [tok.text];
        obfuLine' := obfuLine + "(  ";
      } else if tok.kind == Op && tok.text == ")" {
        if bracketStack == [] {
          completed := false;
          return;
        }
        bracketStack' := bracketStack[..|bracketStack| - 1];
        obfuLine' := obfuLine + ")  ";
      } else {
        obfuLine' := obfuLine + (tok.text + " ");
        assert obfuLine' == s.text + tok.text + " ";
      }
    }

    /** The NAME branch of obfu's loop: the dotted name starting at line[pos] is read
        with get_full_name, then imported whole on an import line and renamed segment by
        segment elsewhere; returns the text emitted and the number of tokens it spans. */
    method NameToken(line: seq<Token>, pos: nat, importLine: bool) returns (text: string, count: nat)
      requires Consistent(Tables()) && pos < |line| && line[pos].kind == Name
      modifies this
      ensures State() == old(State()).(tables := NameStep(old(Tables()), env, line, pos, importLine).0)
      ensures text == NameStep(old(Tables()), env, line, pos, importLine).1
      ensures count == NameStep(old(Tables()), env, line, pos, importLine).2
    {
      var names;
      names, count := GetFullName(line[pos..]);
      FullNameCount(line[pos..]);
      if importLine {
        var name := if |names| > 1 then JoinWith(names, ".") else names[0];
        ImportName(name, line[pos].text);
        text := name + " ";
      } else {
        text := RenameChain(names);
      }
    }

    /** The segments of a dotted name on an ordinary line, renamed one after another
        (the loop over total_name_list in obfu); returns the rebuilt text. */
    method RenameChain(names: seq<string>) returns (text: string)
      requires Consistent(Tables())
      modifies this
      ensures State() == old(State()).(tables := RenameName(old(Tables()), names).0)
      ensures text == RenameName(old(Tables()), names).1
    {
      var knownName := false;
      var prepped: seq<string> := [];
      var i := 0;
      while i < |names|
        invariant i <= |names| && Consistent(Tables())
        invariant State() == old(State()).(tables := Tables())
        invariant Chain(Tables(), knownName, names[i..], prepped) == Chain(old(Tables()), false, names, [])
      {
        ChainStep(Tables(), knownName, names[i..], prepped);
        var name;
        name, knownName := RenameSegment(names[i], knownName);
        prepped := prepped + [name];
        assert names[i..][1..] == names[i + 1..];
        i := i + 1;
      }
      text := JoinWith(prepped, ".") + " ";
    }

    /** One segment of a dotted name on an ordinary line (the body of the loop over
        total_name_list in obfu): returns the text emitted and the new known_name flag. */
    method RenameSegment(segment: string, knownName: bool) returns (name: string, known: bool)
      requires Consistent(Tables())
      modifies this
      ensures State() == old(State()).(tables := Segment(old(Tables()), knownName, segment).0)
      ensures known == Segment(old(Tables()), knownName, segment).1
      ensures name == Segment(old(Tables()), knownName, segment).2
    {
      name, known := segment, knownName;
      if name == "self" {
        known := false;
      }
      if known {
        if name !in knownNames {
          knownNames := knownNames + [name];
        }
      } else if name in knownNames {
        known := true;
      } else if name in obfuNames {
        name := nameDict[name];
      } else {
        if |name| >= 2 && name[..2] == "__" {
          nameDict := nameDict[name := "__name" + Hex(counter)];
        } else if |name| >= 1 && name[..1] == "_" {
          nameDict := nameDict[name := "_name" + Hex(counter)];
        } else {
          nameDict := nameDict[name := "name" + Hex(counter)];
        }
        obfuNames := obfuNames + [name];
        counter := counter + 1;
        name := nameDict[name];
      }
    }

    /** A dotted module name on an import line (the import branch of obfu): it becomes
        known, and when it imports, its members and their members become known too. */
    method ImportName(name: string, first: string)
      modifies this
      ensures State() == old(State()).(tables := Import(old(Tables()), env, name, first))
    {
      if name !in knownNames {
        knownNames := knownNames + [name];
        if !env.importable(name) {
          stderr := stderr + "Import error for: " + first + "\n";
        } else if env.members(name).Some? {
          var dirlist := env.members(name).value;
          knownNames := Extend(knownNames, dirlist);
          ExpandMembers(name, dirlist);
        }
      }
    }

    /** The loop over dir(eval(name)) in the import branch of obfu: the members of
        each member become known, except through Clipboard. */
    method ExpandMembers(name: string, dirlist: seq<string>)
      modifies this
      ensures State() == old(State()).(tables := Expand(old(Tables()), env, name, dirlist))
    {
      var i := 0;
      while i < |dirlist|
        invariant i <= |dirlist|
        invariant State() == old(State()).(tables := Tables())
        invariant Expand(Tables(), env, name, dirlist[i..]) == Expand(old(Tables()), env, name, dirlist)
      {
        ghost var t := Tables();
        var entry := dirlist[i];
        if name + "." + entry != Clipboard && env.members(name + "." + entry).Some? {
          knownNames := Extend(knownNames, env.members(name + "." + entry).value);
        }
        assert Tables() == ExpandEntry(t, env, name + "." + entry);
        assert dirlist[i..][1..] == dirlist[i + 1..];
        i := i + 1;
      }
    }

    /** get_full_name: the names of the dotted name at the start of `tokens`, and how
        many tokens it spans. */
    method GetFullName(tokens: seq<Token>) returns (names: seq<string>, count: nat)
      ensures DottedPrefix(tokens, names, count)
      ensures (names, count) == FullName(tokens)
    {
      names := [];
      count := 0;
      var next := Name;
      var i := 0;
      while i < |tokens|
        invariant i <= |tokens| && count == i
        invariant next == if i % 2 == 0 then Name else Op
        invariant FullNameAt(tokens, i, names) == FullName(tokens)
      {
        var item := tokens[i];
        if item.kind != next {
          break;
        }
        if next == Name {
          names := names + [item.text];
          next := Op;
          count := count + 1;
        } else if item.text == "." {
          next := Name;
          count := count + 1;
        } else {
          break;
        }
        i := i + 1;
      }
      FullNameCharacterized(tokens, names, count);
    }
  }
}
