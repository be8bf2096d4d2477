/** The token-level behaviour of the obfuscating engine (class pyfuscate in
    pyfuscate.py) as pure functions: how a dotted name is read off a token line
    (get_full_name), how one logical line is rebuilt (obfu), how each token of the
    stream is dispatched (token_collector) and the whole run (run). The class in
    pyfuscate.dfy is proved to compute exactly these functions. */
module LineRules {
  import opened PyBuiltins
  import opened NameRules

  /** The token types the engine distinguishes; every other type is OtherKind. */
  datatype Kind = Name | Op | Comment | NL | Indent | Dedent | Newline | OtherKind

  /** A token as tokenize hands it over; positions are never read, so they are left out. */
  datatype Token = Token(kind: Kind, text: string)

  predicate IsDot(tok: Token) {
    tok.kind == Op && tok.text == "."
  }

  /** Whether the token at position i of a dotted name continues it: NAME tokens at even
      positions, "." operators at odd ones (the `next` variable of get_full_name). */
  predicate Continues(tok: Token, i: nat) {
    if i % 2 == 0 then tok.kind == Name else IsDot(tok)
  }

  /** get_full_name from position i on, with `names` read so far; returns the names
      and the number of tokens consumed. */
  function FullNameAt(tokens: seq<Token>, i: nat, names: seq<string>): (seq<string>, nat)
    requires i <= |tokens|
    decreases |tokens| - i
  {
    if i == |tokens| || !Continues(tokens[i], i) then (names, i)
    else if i % 2 == 0 then FullNameAt(tokens, i + 1, names + [tokens[i].text])
    else FullNameAt(tokens, i + 1, names)
  }

  function FullName(tokens: seq<Token>): (seq<string>, nat) {
    FullNameAt(tokens, 0, [])
  }

  /** (names, count) describes the longest prefix of `tokens` that alternates NAME, "."
      starting with a NAME: count tokens long, names being its NAME texts in order. */
  ghost predicate DottedPrefix(tokens: seq<Token>, names: seq<string>, count: nat) {
    && count <= |tokens|
    && |names| == (count + 1) / 2
    && (forall k :: 0 <= k < count ==> Continues(tokens[k], k))
    && (forall k :: 0 <= k < |names| ==> tokens[2 * k].text == names[k])
    && (count < |tokens| ==> !Continues(tokens[count], count))
  }

  lemma {:induction false} FullNameAtSound(tokens: seq<Token>, i: nat, names: seq<string>)
    requires i <= |tokens| && |names| == (i + 1) / 2
    requires forall k :: 0 <= k < i ==> Continues(tokens[k], k)
    requires forall k :: 0 <= k < |names| ==> tokens[2 * k].text == names[k]
    ensures DottedPrefix(tokens, FullNameAt(tokens, i, names).0, FullNameAt(tokens, i, names).1)
    decreases |tokens| - i
  {
    if i < |tokens| && Continues(tokens[i], i) {
      if i % 2 == 0 {
        FullNameAtSound(tokens, i + 1, names + [tokens[i].text]);
      } else {
        FullNameAtSound(tokens, i + 1, names);
      }
    }
  }

  lemma {:induction false} FullNameAtComplete(tokens: seq<Token>, names: seq<string>, count: nat, i: nat)
    requires DottedPrefix(tokens, names, count) && i <= count
    ensures FullNameAt(tokens, i, names[..(i + 1) / 2]) == (names, count)
    decreases count - i
  {
    if i == count {
      assert names[..(i + 1) / 2] == names;
    } else {
      assert Continues(tokens[i], i);
      if i % 2 == 0 {
        assert names[..(i + 1) / 2] + [tokens[i].text] == names[..(i + 2) / 2];
      } else {
        assert (i + 1) / 2 == (i + 2) / 2;
      }
      FullNameAtComplete(tokens, names, count, i + 1);
    }
  }

  /** get_full_name returns exactly the NAME texts of the longest alternating
      NAME, ".", NAME, ... prefix and that prefix's length, and nothing else does. */
  lemma FullNameCharacterized(tokens: seq<Token>, names: seq<string>, count: nat)
    ensures FullName(tokens) == (names, count) <==> DottedPrefix(tokens, names, count)
  {
    FullNameAtSound(tokens, 0, []);
    if DottedPrefix(tokens, names, count) {
      FullNameAtComplete(tokens, names, count, 0);
      assert names[..0] == [];
    }
  }

  /** A line that starts on a NAME consumes at least that token; the count is 2n-1 when
      the name ends on a NAME and 2n when a trailing "." was swallowed. */
  lemma FullNameCount(tokens: seq<Token>)
    requires tokens != [] && tokens[0].kind == Name
    ensures var (names, count) := FullName(tokens);
            && 1 <= count <= |tokens| && names != []
            && (count == 2 * |names| - 1 || count == 2 * |names|)
            && names[0] == tokens[0].text
  {
    FullNameAtSound(tokens, 0, []);
  }

  /** The text of a dotted name after renaming, and the tables afterwards. */
  function RenameName(t: Tables, names: seq<string>): (r: (Tables, string))
    requires Consistent(t)
    ensures Consistent(r.0) && Grows(t, r.0)
  {
    var (u, prepped) := Chain(t, false, names, []);
    (u, JoinWith(prepped, ".") + " ")
  }

  /** The dotted name starting at the NAME token line[pos]: on an import line it is
      emitted whole and imported, on any other line it is renamed segment by segment.
      Returns the tables afterwards, the text emitted and the number of tokens used. */
  function NameStep(t: Tables, env: Environment, line: seq<Token>, pos: nat, importLine: bool): (r: (Tables, string, nat))
    requires Consistent(t) && pos < |line| && line[pos].kind == Name
    ensures Consistent(r.0) && Grows(t, r.0)
    ensures 1 <= r.2 <= |line| - pos
    ensures importLine ==> r.0.dict == t.dict && r.0.renamed == t.renamed && r.0.counter == t.counter
  {
    var (names, count) := FullName(line[pos..]);
    FullNameCount(line[pos..]);
    var name := JoinWith(names, ".");
    if importLine then (Import(t, env, name, line[pos].text), name + " ", count)
    else var (u, text) := RenameName(t, names); (u, text, count)
  }

  /** The local state of obfu's loop over one line: the tables, the position of the next
      token, the height of bracket_stack (which only ever holds "("), and the text
      rebuilt so far. */
  datatype Scan = Scan(tables: Tables, pos: nat, brackets: nat, text: string)

  /** The text obfu appends for a token other than a NAME: "(" and ")" are followed by
      two spaces, any other token by one. */
  function Piece(tok: Token): string {
    if tok == Token(Op, "(") then "(  "
    else if tok == Token(Op, ")") then ")  "
    else tok.text + " "
  }

  /** What the token at pos adds to the line: a NAME adds its whole dotted name as
      NameStep emits it, any other token its Piece. Returns the tables afterwards, the
      text added and the number of tokens used. */
  function Advance(t: Tables, env: Environment, line: seq<Token>, pos: nat, importLine: bool): (r: (Tables, string, nat))
    requires Consistent(t) && pos < |line|
    ensures Consistent(r.0) && Grows(t, r.0) && 1 <= r.2 <= |line| - pos
  {
    if line[pos].kind == Name then NameStep(t, env, line, pos, importLine)
    else (t, Piece(line[pos]), 1)
  }

  /** One turn of obfu's loop; None where a ")" meets an empty bracket_stack and
      Python raises IndexError. A turn that goes through appends what Advance says for
      the token at hand; a token other than a NAME appends its Piece, leaves the tables
      alone and moves bracket_stack by one for a bracket. */
  function Step(s: Scan, env: Environment, line: seq<Token>, importLine: bool): (r: Option<Scan>)
    requires Consistent(s.tables) && s.pos < |line|
    ensures r.Some? ==> && Consistent(r.value.tables) && Grows(s.tables, r.value.tables)
                        && s.pos < r.value.pos <= |line| && s.text <= r.value.text
    ensures r.Some? ==> var a := Advance(s.tables, env, line, s.pos, importLine);
                        r.value.tables == a.0 && r.value.pos == s.pos + a.2 && r.value.text == s.text + a.1
    ensures r.None? <==> line[s.pos] == Token(Op, ")") && s.brackets == 0
    ensures r.Some? && line[s.pos].kind != Name ==>
              && r.value.tables == s.tables && r.value.pos == s.pos + 1
              && r.value.text == s.text + Piece(line[s.pos])
              && r.value.brackets == if line[s.pos] == Token(Op, "(") then s.brackets + 1
                                     else if line[s.pos] == Token(Op, ")") then s.brackets - 1
                                     else s.brackets
  {
    var tok := line[s.pos];
    if tok.kind == Name then
      var (u, text, count) := NameStep(s.tables, env, line, s.pos, importLine);
      Some(Scan(u, s.pos + count, s.brackets, s.text + text))
    else if tok.kind == Op && tok.text == "(" then
      Some(s.(pos := s.pos + 1, brackets := s.brackets + 1, text := s.text + "(  "))
    else if tok.kind == Op && tok.text == ")" then
      if s.brackets == 0 then None
      else Some(s.(pos := s.pos + 1, brackets := s.brackets - 1, text := s.text + ")  "))
    else
      Some(s.(pos := s.pos + 1, text := s.text + tok.text + " "))
  }

  /** The text of a dotted name: on an import line the name as get_full_name reads it,
      on any other line its segments as the renaming chain emits them (each verbatim and
      then known, or as its name_dict entry; ChainEmits), joined by "." and followed by a
      space. */
  lemma NameStepText(t: Tables, env: Environment, line: seq<Token>, pos: nat, importLine: bool)
    requires Consistent(t) && pos < |line| && line[pos].kind == Name
    ensures var names := FullName(line[pos..]).0;
            var r := NameStep(t, env, line, pos, importLine);
            && (importLine ==> r.1 == JoinWith(names, ".") + " ")
            && (!importLine ==> var out := Chain(t, false, names, []).1;
                                && r.1 == JoinWith(out, ".") + " " && EmitsAll(t, r.0, names, out))
  {
    var names := FullName(line[pos..]).0;
    if !importLine {
      ChainEmits(t, false, names, []);
      assert Chain(t, false, names, []).1[0..] == Chain(t, false, names, []).1;
    }
  }

  /** A NAME token is one step of the loop: it advances past the whole dotted name. */
  lemma StepName(s: Scan, env: Environment, line: seq<Token>, importLine: bool)
    requires Consistent(s.tables) && s.pos < |line| && line[s.pos].kind == Name
    ensures var (u, text, count) := NameStep(s.tables, env, line, s.pos, importLine);
            Step(s, env, line, importLine) == Some(Scan(u, s.pos + count, s.brackets, s.text + text))
  {
  }

  /** The pieces obfu's loop appends from position pos on, one per token and one per
      whole dotted name (the NAME text of NameStep), and the tables it leaves. Unlike
      Render it does not track brackets, so it describes a line that completes. */
  ghost function Layout(t: Tables, env: Environment, line: seq<Token>, pos: nat, importLine: bool): (r: (seq<string>, Tables))
    requires Consistent(t) && pos <= |line|
    decreases |line| - pos
  {
    if pos == |line| then ([], t)
    else
      var (u, text, count) := Advance(t, env, line, pos, importLine);
      var (rest, v) := Layout(u, env, line, pos + count, importLine);
      ([text] + rest, v)
  }


  /** obfu's loop over one line from `s` on; the flag is false when it stopped on an
      IndexError, the scan being the state at that point. */
  function Render(s: Scan, env: Environment, line: seq<Token>, importLine: bool): (r: (Scan, bool))
    requires Consistent(s.tables) && s.pos <= |line|
    ensures Consistent(r.0.tables) && Grows(s.tables, r.0.tables) && s.text <= r.0.text
    ensures r.1 ==> r.0.pos == |line|
    decreases |line| - s.pos
  {
    if s.pos == |line| then (s, true)
    else match Step(s, env, line, importLine)
      case None => (s, false)
      case Some(s') => Render(s', env, line, importLine)
  }

  /** When the loop over a line completes, the text it built is the concatenation of the
      line's pieces (Layout), and the tables are those Layout leaves. */
  lemma {:induction false} RenderLayout(s: Scan, env: Environment, line: seq<Token>, importLine: bool)
    requires Consistent(s.tables) && s.pos <= |line|
    ensures var (r, ok) := Render(s, env, line, importLine);
            var layout := Layout(s.tables, env, line, s.pos, importLine);
            ok ==> r.text == s.text + Concat(layout.0) && r.tables == layout.1
    decreases |line| - s.pos
  {
    if s.pos < |line| {
      var next := Step(s, env, line, importLine);
      if next.Some? {
        var s' := next.value;
        var a := Advance(s.tables, env, line, s.pos, importLine);
        var r := Render(s', env, line, importLine);
        var rest := Layout(s'.tables, env, line, s'.pos, importLine);
        assert Render(s, env, line, importLine) == r;
        assert s'.text == s.text + a.1;
        LayoutUnfold(s.tables, env, line, s.pos, importLine, s'.tables, a.1, s'.pos);
        RenderLayout(s', env, line, importLine);
        ConcatCons(s.text, a.1, rest.0);
      }
    } else {
      assert Layout(s.tables, env, line, s.pos, importLine) == ([], s.tables);
      assert s.text + Concat([]) == s.text;
    }
  }

  /** The layout from pos starts with the text Advance adds there, and goes on from the
      tables and the position Advance leaves. */
  lemma LayoutUnfold(t: Tables, env: Environment, line: seq<Token>, pos: nat, importLine: bool,
                     u: Tables, text: string, next: nat)
    requires Consistent(t) && pos < |line|
    requires var a := Advance(t, env, line, pos, importLine);
             u == a.0 && text == a.1 && next == pos + a.2
    ensures Consistent(u) && next <= |line|
    ensures Layout(t, env, line, pos, importLine)
            == ([text] + Layout(u, env, line, next, importLine).0, Layout(u, env, line, next, importLine).1)
  {
  }


  /** The engine's state between tokens: indent_list, token_line, the tables, what has

      been written to the output file, and whether the run is still going (false once
      Python has raised an exception). */
  datatype Engine = Engine(indents: seq<string>, line: seq<Token>, tables: Tables, out: string, ok: bool)

  /** obfu: rebuild the buffered line and write it after the innermost indentation. */
  function Obfu(e: Engine, env: Environment): (r: Engine)
    requires Consistent(e.tables)
    ensures Consistent(r.tables) && Grows(e.tables, r.tables)
    ensures e.out <= r.out && (r.ok ==> e.ok)
    ensures r.out != e.out ==> && e.indents != [] && r.line == []
                               && StartsWith(r.out[|e.out|..], e.indents[|e.indents| - 1])
                               && r.out[|r.out| - 1] == '\n'
  {
    if e.line == [] then e.(ok := false)
    else if e.line[0].text == "from" then e
    else
      var (s, ok) := Render(Scan(e.tables, 0, 0, ""), env, e.line, e.line[0].text == "import");
      if !ok || e.indents == [] then e.(tables := s.tables, ok := false)
      else e.(tables := s.tables, out := e.out + e.indents[|e.indents| - 1] + s.text + "\n", line := [])
  }

  /** What obfu writes: the innermost indentation, then the pieces of the line's tokens
      in order (Layout: a Piece per token, NameStep's text per dotted name), then "\n";
      the tables are those the pieces leave. */
  lemma ObfuLayout(e: Engine, env: Environment)
    requires Consistent(e.tables)
    ensures var r := Obfu(e, env);
            r.out != e.out ==>
              && e.indents != [] && e.line != [] && r.line == []
              && var layout := Layout(e.tables, env, e.line, 0, e.line[0].text == "import");
                 && r.out == e.out + e.indents[|e.indents| - 1] + Concat(layout.0) + "\n"
                 && r.tables == layout.1
  {
    if e.line != [] && e.line[0].text != "from" {
      var importLine := e.line[0].text == "import";
      var start := Scan(e.tables, 0, 0, "");
      var (s, ok) := Render(start, env, e.line, importLine);
      if ok && e.indents != [] {
        var layout := Layout(e.tables, env, e.line, 0, importLine);
        assert Obfu(e, env) == e.(tables := s.tables, out := e.out + e.indents[|e.indents| - 1] + s.text + "\n", line := []);
        assert s.text == Concat(layout.0) && s.tables == layout.1 by {
          RenderLayout(start, env, e.line, importLine);
          assert "" + Concat(layout.0) == Concat(layout.0);
        }
      } else {
        assert Obfu(e, env).out == e.out;
      }
    }
  }

  /** token_collector: one token of the stream. */
  function Collect(e: Engine, env: Environment, tok: Token): (r: Engine)
    requires Consistent(e.tables)
    ensures Consistent(r.tables) && Grows(e.tables, r.tables)
    ensures e.out <= r.out && (r.ok ==> e.ok)
  {
    if !e.ok then e
    else match tok.kind
      case Comment => e
      case NL => e
      case Indent => e.(indents := e.indents + [tok.text])
      case Dedent => if e.indents == [] then e.(ok := false) else e.(indents := e.indents[..|e.indents| - 1])
      case Newline => Obfu(e, env)
      case _ => e.(line := e.line + [tok])
  }

  /** The token stream fed to token_collector, one token after another. */
  function Run(e: Engine, env: Environment, toks: seq<Token>): (r: Engine)
    requires Consistent(e.tables)
    ensures Consistent(r.tables) && Grows(e.tables, r.tables)
    ensures e.out <= r.out && (r.ok ==> e.ok)
    decreases |toks|
  {
    if toks == [] then e else Run(Collect(e, env, toks[0]), env, toks[1..])
  }

  /** The first line run writes to the output */
  const Header := "#!/usr/bin/python\n"

  /** A fresh engine as __init__ leaves it, with the known names given and the counter
      at its starting value, after run has written the header. */
  function Start(known: seq<string>, counter: int): Engine {
    Engine([""], [], Tables(known, map[], [], counter, ""), Header, true)
  }

  lemma NameStepKeepsTables(t: Tables, start: int, env: Environment, line: seq<Token>, pos: nat, importLine: bool)
    requires TablesOk(t, start) && pos < |line| && line[pos].kind == Name
    ensures TablesOk(NameStep(t, env, line, pos, importLine).0, start)
  {
    var (names, count) := FullName(line[pos..]);
    if !importLine {
      ChainKeepsTables(t, start, false, names, []);
    }
  }

  lemma StepKeepsTables(s: Scan, start: int, env: Environment, line: seq<Token>, importLine: bool)
    requires TablesOk(s.tables, start) && s.pos < |line|
    ensures Step(s, env, line, importLine).Some? ==> TablesOk(Step(s, env, line, importLine).value.tables, start)
  {
    if line[s.pos].kind == Name {
      NameStepKeepsTables(s.tables, start, env, line, s.pos, importLine);
    }
  }

  /** Rebuilding a line keeps the rename table's invariant. */
  lemma {:induction false} RenderKeepsTables(s: Scan, start: int, env: Environment, line: seq<Token>, importLine: bool)
    requires TablesOk(s.tables, start) && s.pos <= |line|
    ensures TablesOk(Render(s, env, line, importLine).0.tables, start)
    decreases |line| - s.pos
  {
    if s.pos < |line| {
      StepKeepsTables(s, start, env, line, importLine);
      var next := Step(s, env, line, importLine);
      if next.Some? {
        RenderKeepsTables(next.value, start, env, line, importLine);
      }
    }
  }

  /** Names on an import line never go through the rename table. */
  lemma {:induction false} ImportLineKeepsRenames(s: Scan, env: Environment, line: seq<Token>)
    requires Consistent(s.tables) && s.pos <= |line|
    ensures var u := Render(s, env, line, true).0.tables;
            u.dict == s.tables.dict && u.renamed == s.tables.renamed && u.counter == s.tables.counter
    decreases |line| - s.pos
  {
    if s.pos < |line| {
      var next := Step(s, env, line, true);
      if next.Some? {
        ImportLineKeepsRenames(next.value, env, line);
      }
    }
  }

  lemma ObfuKeepsTables(e: Engine, start: int, env: Environment)
    requires TablesOk(e.tables, start)
    ensures TablesOk(Obfu(e, env).tables, start)
  {
    if e.line != [] && e.line[0].text != "from" {
      RenderKeepsTables(Scan(e.tables, 0, 0, ""), start, env, e.line, e.line[0].text == "import");
    }
  }

  /** A whole run keeps the rename table's invariant: with Run's own contract (Grows),
      entries are never overwritten, the counter moves once per new original, known
      names only accumulate, and distinct originals keep distinct names (RenamesDistinct). */
  lemma {:induction false} RunKeepsTables(e: Engine, start: int, env: Environment, toks: seq<Token>)
    requires TablesOk(e.tables, start)
    ensures TablesOk(Run(e, env, toks).tables, start)
    decreases |toks|
  {
    if toks != [] {
      if e.ok && toks[0].kind == Newline {
        ObfuKeepsTables(e, start, env);
      }
      RunKeepsTables(Collect(e, env, toks[0]), start, env, toks[1..]);
    }
  }

  /** A run from a fresh engine: the output starts with the header, no known name is
      ever forgotten, and the rename table stays well formed from the starting counter
      value on. */
  lemma RunFromStart(known: seq<string>, counter: int, env: Environment, toks: seq<Token>)
    ensures var r := Run(Start(known, counter), env, toks);
            && StartsWith(r.out, Header) && known <= r.tables.known && TablesOk(r.tables, counter)
  {
    var e := Start(known, counter);
    assert TablesOk(e.tables, counter);
    RunKeepsTables(e, counter, env, toks);
    var r := Run(e, env, toks);
    assert r.out[..|Header|] == Header;
  }

  /** Once Python has raised, nothing changes any more. */
  lemma {:induction false} RunAfterCrash(e: Engine, env: Environment, toks: seq<Token>)
    requires Consistent(e.tables) && !e.ok
    ensures Run(e, env, toks) == e
    decreases |toks|
  {
    if toks != [] {
      RunAfterCrash(Collect(e, env, toks[0]), env, toks[1..]);
    }
  }

  /** A buffered line that starts with "from" is never rebuilt and never cleared, so no
      further output is ever written and the tables never change again. */
  lemma {:induction false} FromSuppressesRest(e: Engine, env: Environment, toks: seq<Token>)
    requires Consistent(e.tables) && e.line != [] && e.line[0].text == "from"
    ensures Run(e, env, toks).out == e.out && Run(e, env, toks).tables == e.tables
    decreases |toks|
  {
    if toks != [] {
      var e' := Collect(e, env, toks[0]);
      assert e'.out == e.out && e'.tables == e.tables && e'.line != [] && e'.line[0].text == "from";
      FromSuppressesRest(e', env, toks[1..]);
    }
  }

  /** The stream without its COMMENT and NL tokens */
  function Significant(toks: seq<Token>): (r: seq<Token>)
    ensures forall k :: 0 <= k < |r| ==> r[k].kind != Comment && r[k].kind != NL
    ensures |r| <= |toks|
  {
    if toks == [] then []
    else (if toks[0].kind == Comment || toks[0].kind == NL then [] else [toks[0]]) + Significant(toks[1..])
  }

  /** COMMENT and NL tokens have no effect at all on a run. */
  lemma {:induction false} CommentsIgnored(e: Engine, env: Environment, toks: seq<Token>)
    requires Consistent(e.tables)
    ensures Run(e, env, toks) == Run(e, env, Significant(toks))
    decreases |toks|
  {
    if toks != [] {
      CommentsIgnored(Collect(e, env, toks[0]), env, toks[1..]);
      if toks[0].kind != Comment && toks[0].kind != NL {
        var sig := Significant(toks);
        assert sig[0] == toks[0] && sig[1..] == Significant(toks[1..]);
        assert Run(e, env, sig) == Run(Collect(e, env, sig[0]), env, sig[1..]);
      } else {
        assert Significant(toks) == Significant(toks[1..]);
        assert Collect(e, env, toks[0]) == e;
      }
    }
  }
}
