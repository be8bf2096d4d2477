/** join_multiline_pairs and substitute_matches in pyminifier.py: the lines of a
    bracketed expression that spans several lines are joined into one line, dropping the
    spaces between its tokens, while quotes and backslash escapes are tracked so that
    brackets and spaces inside string literals are kept. */
module Pairs {
  import opened PyBuiltins

  /** A character that the regular expression made of a backslash and that character
      matches literally: any character but an ASCII letter or digit. */
  predicate Literal(c: char) {
    !('a' <= c <= 'z' || 'A' <= c <= 'Z' || '0' <= c <= '9')
  }

  /** Placeholders the clean-up turns back into the opener and the closer */
  const OpenerSub := "###OPENER###"
  const CloserSub := "###CLOSER###"

  const Quotes: set<char> := {'\'', '"'}

  /** The tracking variables of join_multiline_pairs and the output built so far */
  datatype Pairing = Pairing(insidePair: bool, insideQuotes: bool, insideDouble: bool, insideSingle: bool,
                             quotedString: bool, openers: nat, closers: nat, escaped: bool, output: string)

  const Start := Pairing(false, false, false, false, false, 0, 0, false, "")

  /** One character of a line that is scanned, branch by branch as the code tests them.
      With `asWritten` false, a closer read while no pair is open is copied and not
      counted, which is the corrected reading. */
  function CharStep(p: Pairing, c: char, opener: char, closer: char, asWritten: bool): Pairing {
    if c == opener then
      if !p.escaped then p.(openers := p.openers + 1, insidePair := true, output := p.output + [c])
      else p.(escaped := false, output := p.output + [c])
    else if c == closer then
      if !p.escaped then
        if p.openers == p.closers + 1 && p.openers != 0 then
          p.(closers := 0, openers := 0, insidePair := false, output := p.output + [c])
        else if !asWritten && p.openers == 0 then
          p.(output := p.output + [c])
        else
          p.(closers := p.closers + 1, output := p.output + [c])
      else p.(escaped := false, output := p.output + [c])
    else if c == '\\' then
      p.(escaped := !p.escaped, output := p.output + [c])
    else if (c == '"' || c == '\'') && p.escaped then
      p.(escaped := false, output := p.output + [c])
    else if c == '"' && p.insideQuotes then
      if p.insideSingle then p.(output := p.output + [c])
      else p.(insideQuotes := false, insideDouble := false, output := p.output + [c])
    else if c == '\'' && p.insideQuotes then
      if p.insideDouble then p.(output := p.output + [c])
      else p.(insideQuotes := false, insideSingle := false, output := p.output + [c])
    else if c == '"' then
      p.(insideQuotes := true, insideDouble := true, output := p.output + [c])
    else if c == '\'' then
      p.(insideQuotes := true, insideSingle := true, output := p.output + [c])
    else if c == ' ' && p.insidePair && !p.insideQuotes then
      p
    else
      p.(escaped := false, output := p.output + [c])
  }

  /** The character loop over a line */
  function Chars(p: Pairing, line: string, opener: char, closer: char, asWritten: bool): Pairing
    decreases |line|
  {
    if line == [] then p else Chars(CharStep(p, line[0], opener, closer, asWritten), line[1..], opener, closer, asWritten)
  }

  /** multiline_quoted_string_regex.search(line) */
  predicate TripleQuote(line: string) {
    Contains(line, "'''") || Contains(line, "\"\"\"")
  }

  /** A triple quote `triple` at j, with the quote q at i before it and at k after it */
  predicate Framed(line: string, i: int, j: int, k: int, q: char, triple: string) {
    0 <= i < j && j + |triple| <= k < |line| && line[i] == q && At(line, j, triple) && line[k] == q
  }

  /** not_quoted_string_regex.search(line): a triple quote of one kind between two
      quotes of the other kind */
  predicate QuotedTriple(line: string) {
    (exists i, j, k | 0 <= i < j < k < |line| :: Framed(line, i, j, k, '"', "'''"))
    || (exists i, j, k | 0 <= i < j < k < |line| :: Framed(line, i, j, k, '\'', "\"\"\""))
  }

  /** The first branch: the first line that opens a multi-line string is copied as it is */
  predicate OpensString(p: Pairing, line: string) {
    TripleQuote(line) && !QuotedTriple(line) && !p.quotedString
  }

  /** One line of the loop. The second branch of the code requires quoted_string to be
      both true and false, so it is never taken and is left out. */
  function LineStep(p: Pairing, line: string, opener: char, closer: char, asWritten: bool): Pairing {
    var p := p.(escaped := false);
    if OpensString(p, line) then
      p.(output := p.output + line + "\n", quotedString := true)
    else if opener in line || closer in line || p.insidePair then
      var q := Chars(p, line, opener, closer, asWritten);
      if !q.insidePair then q.(output := q.output + "\n") else q
    else
      p.(output := p.output + line + "\n")
  }

  function LinesFrom(p: Pairing, lines: seq<string>, opener: char, closer: char, asWritten: bool): Pairing
    decreases |lines|
  {
    if lines == [] then p else LinesFrom(LineStep(p, lines[0], opener, closer, asWritten), lines[1..], opener, closer, asWritten)
  }

  /** The clean-up: placeholders not followed by a quote become the opener and the
      closer again, then each pair of newlines becomes one. */
  function Cleanup(output: string, opener: char, closer: char): string {
    var output := SubLiteral(output, OpenerSub, [opener], Quotes);
    var output := SubLiteral(output, CloserSub, [closer], Quotes);
    SubLiteral(output, "\n\n", "\n", {})
  }

  /** What join_multiline_pairs(text, pair) returns */
  function JoinText(text: string, pair: string): string
    requires |pair| >= 2
  {
    Cleanup(LinesFrom(Start, Split(text, '\n'), pair[0], pair[1], true).output, pair[0], pair[1])
  }

  /** join_multiline_pairs; the tracking variables are kept together in `state`. A
      backslash as opener or closer is excluded: as a replacement template of the
      clean-up it is a bogus escape, and Python raises before any substitution. */
  method JoinMultilinePairs(text: string, pair: string) returns (output: string)
    requires |pair| >= 2 && Literal(pair[0]) && Literal(pair[1])
    requires pair[0] != '\\' && pair[1] != '\\'
    ensures output == JoinText(text, pair)
  {
    var opener, closer := pair[0], pair[1];
    var state := Start;
    var lines := Split(text, '\n');
    for i := 0 to |lines|
      invariant LinesFrom(state, lines[i..], opener, closer, true) == LinesFrom(Start, lines, opener, closer, true)
    {
      assert lines[i..][1..] == lines[i + 1..];
      state := JoinLine(state, lines[i], opener, closer);
    }
    output := SubLiteral(state.output, OpenerSub, [opener], Quotes);
    output := SubLiteral(output, CloserSub, [closer], Quotes);
    output := SubLiteral(output, "\n\n", "\n", {});
  }

  /** The body of the line loop of join_multiline_pairs */
  method JoinLine(p: Pairing, line: string, opener: char, closer: char) returns (q: Pairing)
    ensures q == LineStep(p, line, opener, closer, true)
  {
    q := p.(escaped := false);
    if TripleQuote(line) && !QuotedTriple(line) && !q.quotedString {
      q := q.(output := q.output + line + "\n", quotedString := true);
    } else if opener in line || closer in line || q.insidePair {
      q := ScanLine(q, line, opener, closer);
      if !q.insidePair {
        q := q.(output := q.output + "\n");
      }
    } else {
      q := q.(output := q.output + line + "\n");
    }
  }

  /** The character loop of join_multiline_pairs over one line */
  method ScanLine(p: Pairing, line: string, opener: char, closer: char) returns (q: Pairing)
    ensures q == Chars(p, line, opener, closer, true)
  {
    var insidePair, insideQuotes, insideDouble, insideSingle := p.insidePair, p.insideQuotes, p.insideDouble, p.insideSingle;
    var openers, closers, escaped, output := p.openers, p.closers, p.escaped, p.output;
    for j := 0 to |line|
      invariant Chars(Pairing(insidePair, insideQuotes, insideDouble, insideSingle, p.quotedString, openers, closers, escaped, output),
                      line[j..], opener, closer, true)
                == Chars(p, line, opener, closer, true)
    {
      assert line[j..][1..] == line[j + 1..];
      var character := line[j];
      if character == opener {
        if !escaped {
          openers := openers + 1;
          insidePair := true;
        } else {
          escaped := false;
        }
        output := output + [character];
      } else if character == closer {
        if !escaped {
          if openers == closers + 1 && openers != 0 {
            closers, openers := 0, 0;
            insidePair := false;
          } else {
            closers := closers + 1;
          }
        } else {
          escaped := false;
        }
        output := output + [character];
      } else if character == '\\' {
        escaped := !escaped;
        output := output + [character];
      } else if (character == '"' || character == '\'') && escaped {
        escaped := false;
        output := output + [character];
      } else if character == '"' && insideQuotes {
        if !insideSingle {
          insideQuotes, insideDouble := false, false;
        }
        output := output + [character];
      } else if character == '\'' && insideQuotes {
        if !insideDouble {
          insideQuotes, insideSingle := false, false;
        }
        output := output + [character];
      } else if character == '"' {
        insideQuotes, insideDouble := true, true;
        output := output + [character];
      } else if character == '\'' {
        insideQuotes, insideSingle := true, true;
        output := output + [character];
      } else if character == ' ' && insidePair && !insideQuotes {
      } else {
        escaped := false;
        output := output + [character];
      }
    }
    q := Pairing(insidePair, insideQuotes, insideDouble, insideSingle, p.quotedString, openers, closers, escaped, output);
  }

  /** `inside_pair` is true exactly while some opener is counted. */
  predicate Tracked(p: Pairing) {
    p.insidePair <==> p.openers > 0
  }

  /** The quote flags agree: inside quotes exactly when inside double or single quotes,
      and never inside both. */
  predicate Quoting(p: Pairing) {
    (p.insideQuotes <==> p.insideDouble || p.insideSingle) && !(p.insideDouble && p.insideSingle)
  }

  predicate Sound(p: Pairing) {
    Tracked(p) && Quoting(p)
  }

  lemma {:induction false} CharsSound(p: Pairing, line: string, opener: char, closer: char, asWritten: bool)
    requires Sound(p)
    ensures Sound(Chars(p, line, opener, closer, asWritten))
    decreases |line|
  {
    if line != [] {
      CharsSound(CharStep(p, line[0], opener, closer, asWritten), line[1..], opener, closer, asWritten);
    }
  }

  /** Every state the line loop reaches from the start is sound. */
  lemma {:induction false} LinesSound(p: Pairing, lines: seq<string>, opener: char, closer: char, asWritten: bool)
    requires Sound(p)
    ensures Sound(LinesFrom(p, lines, opener, closer, asWritten))
    decreases |lines|
  {
    if lines != [] {
      CharsSound(p.(escaped := false), lines[0], opener, closer, asWritten);
      LinesSound(LineStep(p, lines[0], opener, closer, asWritten), lines[1..], opener, closer, asWritten);
    }
  }

  /** A character is dropped exactly when it is a space, read inside a pair and outside
      quotes; every other character is copied. */
  lemma CharOutput(p: Pairing, c: char, opener: char, closer: char, asWritten: bool)
    ensures var dropped := c == ' ' && c != opener && c != closer && p.insidePair && !p.insideQuotes;
            CharStep(p, c, opener, closer, asWritten).output == p.output + (if dropped then "" else [c])
  {
    if c == opener || c == closer || c == '\\' || c == '"' || c == '\'' {
      assert !(c == ' ' && c != opener && c != closer);
    } else if c == ' ' && p.insidePair && !p.insideQuotes {
      assert CharStep(p, c, opener, closer, asWritten) == p;
    }
  }

  /** An escaped opener or closer counts as neither: it is copied, the counters and the
      pair are left alone, and the escape is used up. */
  lemma EscapedPairCharCopied(p: Pairing, c: char, opener: char, closer: char, asWritten: bool)
    requires p.escaped && (c == opener || c == closer)
    ensures var q := CharStep(p, c, opener, closer, asWritten);
            q == p.(escaped := false, output := p.output + [c])
  {
  }

  /** Once a multi-line string has been seen, quoted_string stays true: the branch that
      would reset it is never taken. */
  lemma {:induction false} QuotedStringSticks(p: Pairing, lines: seq<string>, opener: char, closer: char, asWritten: bool)
    requires p.quotedString
    ensures LinesFrom(p, lines, opener, closer, asWritten).quotedString
    decreases |lines|
  {
    if lines != [] {
      CharsKeepQuotedString(p.(escaped := false), lines[0], opener, closer, asWritten);
      QuotedStringSticks(LineStep(p, lines[0], opener, closer, asWritten), lines[1..], opener, closer, asWritten);
    }
  }

  lemma {:induction false} CharsKeepQuotedString(p: Pairing, line: string, opener: char, closer: char, asWritten: bool)
    ensures Chars(p, line, opener, closer, asWritten).quotedString == p.quotedString
    decreases |line|
  {
    if line != [] {
      CharsKeepQuotedString(CharStep(p, line[0], opener, closer, asWritten), line[1..], opener, closer, asWritten);
    }
  }

  /** A line outside any pair, holding neither the opener nor the closer, that opens no
      multi-line string is copied as it is. */
  lemma LineOutsidePair(p: Pairing, line: string, opener: char, closer: char, asWritten: bool)
    requires !p.insidePair && opener !in line && closer !in line && !OpensString(p, line)
    ensures LineStep(p, line, opener, closer, asWritten) == p.(escaped := false, output := p.output + line + "\n")
  {
  }

  lemma CharKeepsCounters(p: Pairing, c: char, opener: char, closer: char, asWritten: bool)
    requires c != opener && c != closer
    ensures var q := CharStep(p, c, opener, closer, asWritten);
            q.insidePair == p.insidePair && q.openers == p.openers && q.closers == p.closers
  {
  }

  /** Characters other than the opener and the closer leave the counters alone and add
      no line break of their own. */
  lemma {:induction false} CharsKeepCounters(p: Pairing, line: string, opener: char, closer: char, asWritten: bool)
    requires opener !in line && closer !in line && '\n' !in line
    ensures var q := Chars(p, line, opener, closer, asWritten);
            q.insidePair == p.insidePair && q.openers == p.openers && q.closers == p.closers
            && p.output <= q.output && '\n' !in q.output[|p.output|..]
    decreases |line|
  {
    if line != [] {
      var p' := CharStep(p, line[0], opener, closer, asWritten);
      CharKeepsCounters(p, line[0], opener, closer, asWritten);
      CharOutput(p, line[0], opener, closer, asWritten);
      assert '\n' !in p'.output[|p.output|..];
      CharsKeepCounters(p', line[1..], opener, closer, asWritten);
      var q := Chars(p', line[1..], opener, closer, asWritten);
      assert q.output[|p.output|..] == p'.output[|p.output|..] + q.output[|p'.output|..];
    }
  }

  /** While a pair is open, a line holding neither the opener nor the closer is joined to
      the previous one: it adds no line break and the pair stays open. */
  lemma JoinedWhileOpen(p: Pairing, line: string, opener: char, closer: char, asWritten: bool)
    requires p.insidePair && opener !in line && closer !in line && '\n' !in line && !OpensString(p, line)
    ensures var q := LineStep(p, line, opener, closer, asWritten);
            q.insidePair && q.openers == p.openers && q.closers == p.closers
            && p.output <= q.output && '\n' !in q.output[|p.output|..]
  {
    CharsKeepCounters(p.(escaped := false), line, opener, closer, asWritten);
  }

  /** A text without its spaces and line breaks */
  function Visible(s: string): string {
    if s == [] then "" else (if s[0] == ' ' || s[0] == '\n' then "" else [s[0]]) + Visible(s[1..])
  }

  lemma {:induction false} VisibleAppend(a: string, b: string)
    ensures Visible(a + b) == Visible(a) + Visible(b)
    decreases |a|
  {
    if a == [] {
      assert a + b == b;
    } else {
      assert (a + b)[0] == a[0] && (a + b)[1..] == a[1..] + b;
      VisibleAppend(a[1..], b);
    }
  }

  /** One piece and then the rest: if the rest's output reads as the state after the piece
      plus the rest, and that state reads as the one before plus the piece, the rest's
      output reads as the state before plus both. */
  lemma VisibleChain(out: string, after: string, before: string, piece: string, rest: string)
    requires Visible(out) == Visible(after + rest)
    requires Visible(after) == Visible(before + piece)
    ensures Visible(out) == Visible(before + (piece + rest))
  {
    VisibleAppend(after, rest);
    VisibleAppend(before, piece);
    VisibleAppend(piece, rest);
    VisibleAppend(before, piece + rest);
    AppendAssoc(Visible(before), Visible(piece), Visible(rest));
  }

  lemma CharVisible(p: Pairing, c: char, opener: char, closer: char, asWritten: bool)
    ensures Visible(CharStep(p, c, opener, closer, asWritten).output) == Visible(p.output + [c])
  {
    CharOutput(p, c, opener, closer, asWritten);
    VisibleAppend(p.output, [c]);
  }

  lemma {:induction false} CharsVisible(p: Pairing, line: string, opener: char, closer: char, asWritten: bool)
    ensures Visible(Chars(p, line, opener, closer, asWritten).output) == Visible(p.output + line)
    decreases |line|
  {
    if line == [] {
      assert p.output + line == p.output;
    } else {
      var p' := CharStep(p, line[0], opener, closer, asWritten);
      CharVisible(p, line[0], opener, closer, asWritten);
      CharsVisible(p', line[1..], opener, closer, asWritten);
      assert [line[0]] + line[1..] == line;
      VisibleChain(Chars(p', line[1..], opener, closer, asWritten).output, p'.output, p.output, [line[0]], line[1..]);
    }
  }

  /** A line step adds the line's text, less some spaces, and perhaps a line break. */
  lemma LineVisible(p: Pairing, line: string, opener: char, closer: char, asWritten: bool)
    ensures Visible(LineStep(p, line, opener, closer, asWritten).output) == Visible(p.output + line)
  {
    var r := p.(escaped := false);
    VisibleAppend(p.output + line, "\n");
    if !OpensString(r, line) && (opener in line || closer in line || r.insidePair) {
      var q := Chars(r, line, opener, closer, asWritten);
      CharsVisible(r, line, opener, closer, asWritten);
      VisibleAppend(q.output, "\n");
    }
  }

  lemma {:induction false} LinesVisible(p: Pairing, lines: seq<string>, opener: char, closer: char, asWritten: bool)
    ensures Visible(LinesFrom(p, lines, opener, closer, asWritten).output) == Visible(p.output + Concat(lines))
    decreases |lines|
  {
    if lines == [] {
      assert p.output + Concat(lines) == p.output;
    } else {
      var q := LineStep(p, lines[0], opener, closer, asWritten);
      var rest := lines[1..];
      assert LinesFrom(p, lines, opener, closer, asWritten) == LinesFrom(q, rest, opener, closer, asWritten);
      LinesVisible(q, rest, opener, closer, asWritten);
      LineVisible(p, lines[0], opener, closer, asWritten);
      assert Concat(lines) == lines[0] + Concat(rest);
      VisibleChain(LinesFrom(q, rest, opener, closer, asWritten).output, q.output, p.output, lines[0], Concat(rest));
    }
  }

  lemma {:induction false} VisibleJoin(parts: seq<string>)
    ensures Visible(JoinWith(parts, "\n")) == Visible(Concat(parts))
    decreases |parts|
  {
    if |parts| == 1 {
      assert parts[1..] == [];
      assert Concat(parts) == parts[0] + Concat(parts[1..]) == parts[0];
    } else if |parts| > 1 {
      VisibleJoin(parts[1..]);
      VisibleAppend(parts[0] + "\n", JoinWith(parts[1..], "\n"));
      VisibleAppend(parts[0], "\n");
      VisibleAppend(parts[0], Concat(parts[1..]));
    }
  }

  /** A pattern found in a text is found in any text that ends with it. */
  lemma ContainsAfter(head: string, t: string, pattern: string)
    requires Contains(t, pattern)
    ensures Contains(head + t, pattern)
  {
    var j :| 0 <= j <= |t| - |pattern| && At(t, j, pattern);
    assert (head + t)[|head| + j..|head| + j + |pattern|] == t[j..j + |pattern|];
    assert At(head + t, |head| + j, pattern);
  }

  /** A pattern without spaces or line breaks found in a text is still found once the
      text's spaces and line breaks are gone. */
  lemma {:induction false} ContainsVisible(s: string, pattern: string)
    requires ' ' !in pattern && '\n' !in pattern && Contains(s, pattern)
    ensures Contains(Visible(s), pattern)
    decreases |s|
  {
    AllVisible(pattern);
    var i :| 0 <= i <= |s| - |pattern| && At(s, i, pattern);
    if i == 0 {
      assert s == pattern + s[|pattern|..];
      VisibleAppend(pattern, s[|pattern|..]);
      assert At(Visible(s), 0, pattern);
    } else {
      assert s[1..][i - 1..i - 1 + |pattern|] == s[i..i + |pattern|];
      assert At(s[1..], i - 1, pattern);
      ContainsVisible(s[1..], pattern);
      var head := if s[0] == ' ' || s[0] == '\n' then "" else [s[0]];
      assert Visible(s) == head + Visible(s[1..]);
      ContainsAfter(head, Visible(s[1..]), pattern);
    }
  }

  /** A substitution whose replacement has the same visible text as its pattern keeps
      the visible text. */
  lemma {:induction false} SubLiteralVisible(s: string, pattern: string, rep: string, refuse: set<char>)
    requires pattern != [] && Visible(pattern) == Visible(rep)
    ensures Visible(SubLiteral(s, pattern, rep, refuse)) == Visible(s)
    decreases |s|
  {
    if |s| < |pattern| {
    } else if s[..|pattern|] == pattern && (|s| == |pattern| || s[|pattern|] !in refuse) {
      SubLiteralVisible(s[|pattern|..], pattern, rep, refuse);
      VisibleAppend(rep, SubLiteral(s[|pattern|..], pattern, rep, refuse));
      assert s == pattern + s[|pattern|..];
      VisibleAppend(pattern, s[|pattern|..]);
    } else {
      SubLiteralVisible(s[1..], pattern, rep, refuse);
    }
  }

  /** A text without spaces and line breaks is all visible. */
  lemma {:induction false} AllVisible(s: string)
    requires ' ' !in s && '\n' !in s
    ensures Visible(s) == s
    decreases |s|
  {
    if s != [] {
      AllVisible(s[1..]);
    }
  }

  /** The line loop keeps the visible text of the lines. */
  lemma LinesKeepCode(text: string, opener: char, closer: char, asWritten: bool)
    ensures Visible(LinesFrom(Start, Split(text, '\n'), opener, closer, asWritten).output) == Visible(text)
  {
    var lines := Split(text, '\n');
    LinesVisible(Start, lines, opener, closer, asWritten);
    assert Start.output + Concat(lines) == Concat(lines);
    VisibleJoin(lines);
  }

  /** The clean-up keeps the visible text when no placeholder is spelled out. */
  lemma CleanupKeepsCode(out: string, opener: char, closer: char)
    requires !Contains(Visible(out), OpenerSub) && !Contains(Visible(out), CloserSub)
    ensures Visible(Cleanup(out, opener, closer)) == Visible(out)
  {
    if Contains(out, OpenerSub) {
      ContainsVisible(out, OpenerSub);
    }
    if Contains(out, CloserSub) {
      ContainsVisible(out, CloserSub);
    }
    SubLiteralVisible(out, "\n\n", "\n", {});
  }

  /** join_multiline_pairs only removes spaces and line breaks, for any text that does
      not already spell out a placeholder. */
  lemma JoinKeepsCode(text: string, pair: string)
    requires |pair| >= 2
    requires !Contains(Visible(text), OpenerSub) && !Contains(Visible(text), CloserSub)
    ensures Visible(JoinText(text, pair)) == Visible(text)
  {
    var out := LinesFrom(Start, Split(text, '\n'), pair[0], pair[1], true).output;
    LinesKeepCode(text, pair[0], pair[1], true);
    CleanupKeepsCode(out, pair[0], pair[1]);
  }

  /** join_multiline_pairs with a closer outside any pair left uncounted */
  function JoinTextIntended(text: string, pair: string): string
    requires |pair| >= 2
  {
    Cleanup(LinesFrom(Start, Split(text, '\n'), pair[0], pair[1], false).output, pair[0], pair[1])
  }

  /** The counters describe a nesting: inside a pair fewer closers than openers are
      counted, outside a pair none of either. */
  predicate Nested(p: Pairing) {
    Tracked(p) && (if p.insidePair then p.closers < p.openers else p.openers == 0 && p.closers == 0)
  }

  /** How many pairs are open */
  function Depth(p: Pairing): int {
    p.openers - p.closers
  }

  /** Corrected, the counters track the nesting depth: an unescaped opener opens one more
      pair, an unescaped closer closes one if any is open, and nothing else changes the
      depth. */
  lemma CorrectedDepth(p: Pairing, c: char, opener: char, closer: char)
    requires Nested(p) && opener != closer
    ensures var q := CharStep(p, c, opener, closer, false);
            && (c == opener && !p.escaped ==> Depth(q) == Depth(p) + 1)
            && (c == closer && !p.escaped ==> Depth(q) == if Depth(p) > 0 then Depth(p) - 1 else 0)
            && ((c != opener && c != closer) || p.escaped ==> Depth(q) == Depth(p))
  {
  }

  /** Corrected, every character keeps the counters a nesting, so the pair is open
      exactly while the depth is positive. */
  lemma CorrectedStepNested(p: Pairing, c: char, opener: char, closer: char)
    requires Nested(p) && opener != closer
    ensures var q := CharStep(p, c, opener, closer, false);
            Nested(q) && (q.insidePair <==> Depth(q) > 0)
  {
  }

  lemma {:induction false} CorrectedNested(p: Pairing, line: string, opener: char, closer: char)
    requires Nested(p) && opener != closer
    ensures Nested(Chars(p, line, opener, closer, false))
    decreases |line|
  {
    if line != [] {
      CorrectedStepNested(p, line[0], opener, closer);
      CorrectedNested(CharStep(p, line[0], opener, closer, false), line[1..], opener, closer);
    }
  }

  /** As written, a closer read outside any pair (one inside a string literal or a
      comment, say) is counted, and the next pair opened is then never closed: its own
      closer only counts up. Corrected, that pair closes. */
  lemma StrayCloserKeepsPairOpen(p: Pairing, opener: char, closer: char)
    requires !p.insidePair && p.openers == 0 && p.closers == 0 && !p.escaped && opener != closer
    ensures Chars(p, [closer, opener, closer], opener, closer, true).insidePair
    ensures !Chars(p, [closer, opener, closer], opener, closer, false).insidePair
  {
    var line := [closer, opener, closer];
    assert line[1..] == [opener, closer] && line[1..][1..] == [closer] && line[1..][1..][1..] == [];
    var a1 := CharStep(p, closer, opener, closer, true);
    assert a1.openers == 0 && a1.closers == 1 && !a1.insidePair;
    var a2 := CharStep(a1, opener, opener, closer, true);
    assert a2.openers == 1 && a2.closers == 1;
    var a3 := CharStep(a2, closer, opener, closer, true);
    assert a3.insidePair;
    assert Chars(p, line, opener, closer, true) == Chars(a1, [opener, closer], opener, closer, true);
    assert Chars(a1, [opener, closer], opener, closer, true) == Chars(a2, [closer], opener, closer, true);
    assert Chars(a2, [closer], opener, closer, true) == a3;
    var b1 := CharStep(p, closer, opener, closer, false);
    assert b1.openers == 0 && b1.closers == 0;
    var b2 := CharStep(b1, opener, opener, closer, false);
    var b3 := CharStep(b2, closer, opener, closer, false);
    assert !b3.insidePair;
    assert Chars(p, line, opener, closer, false) == Chars(b1, [opener, closer], opener, closer, false);
    assert Chars(b1, [opener, closer], opener, closer, false) == Chars(b2, [closer], opener, closer, false);
    assert Chars(b2, [closer], opener, closer, false) == b3;
  }

  /** `item`, with the opener and the closer substituted when it starts with a double
      quote, and nothing for an empty item */
  function Substituted(item: string, opener: char, closer: char, openerSub: string, closerSub: string): string {
    if item == [] then ""
    else if item[0] == '"' then ReplaceChar(ReplaceChar(item, opener, openerSub), closer, closerSub)
    else item
  }

  /** What substitute_matches returns */
  function SubstituteText(matchlist: seq<string>, opener: char, closer: char, openerSub: string, closerSub: string): string
    decreases |matchlist|
  {
    if matchlist == [] then ""
    else Substituted(matchlist[0], opener, closer, openerSub, closerSub) + SubstituteText(matchlist[1..], opener, closer, openerSub, closerSub)
  }

  /** substitute_matches, with the two regular expressions given as the characters they
      match */
  method SubstituteMatches(matchlist: seq<string>, opener: char, closer: char, openerSub: string, closerSub: string)
    returns (line: string)
    requires '\\' !in openerSub && '\\' !in closerSub
    ensures line == SubstituteText(matchlist, opener, closer, openerSub, closerSub)
  {
    var preoutput := "";
    for k := 0 to |matchlist|
      invariant preoutput + SubstituteText(matchlist[k..], opener, closer, openerSub, closerSub)
                == SubstituteText(matchlist, opener, closer, openerSub, closerSub)
    {
      assert matchlist[k..][1..] == matchlist[k + 1..];
      ghost var rest := SubstituteText(matchlist[k + 1..], opener, closer, openerSub, closerSub);
      ghost var piece := Substituted(matchlist[k], opener, closer, openerSub, closerSub);
      assert SubstituteText(matchlist[k..], opener, closer, openerSub, closerSub) == piece + rest;
      ghost var before := preoutput;
      preoutput := SubstituteItem(preoutput, matchlist[k], opener, closer, openerSub, closerSub);
      AppendAssoc(before, piece, rest);
    }
    line := preoutput;
  }

  /** The body of the loop of substitute_matches: one item added to `preoutput` */
  method SubstituteItem(preoutput: string, item: string, opener: char, closer: char, openerSub: string, closerSub: string)
    returns (preoutput': string)
    ensures preoutput' == preoutput + Substituted(item, opener, closer, openerSub, closerSub)
  {
    preoutput' := preoutput;
    if item != [] {
      if item[0] == '"' {
        var masked := ReplaceChar(item, opener, openerSub);
        masked := ReplaceChar(masked, closer, closerSub);
        preoutput' := preoutput' + masked;
      } else {
        preoutput' := preoutput' + item;
      }
    }
  }

  /** In a quoted item the opener and the closer are all replaced, when the
      replacements do not hold them. */
  lemma QuotedItemMasked(item: string, opener: char, closer: char, openerSub: string, closerSub: string)
    requires item != [] && item[0] == '"'
    requires opener !in openerSub && opener !in closerSub && closer !in closerSub
    ensures var r := Substituted(item, opener, closer, openerSub, closerSub);
            opener !in r && closer !in r
  {
  }

  /** Items that hold neither the opener nor the closer, or do not start with a double
      quote, are joined as they are. */
  lemma {:induction false} SubstituteUnchanged(matchlist: seq<string>, opener: char, closer: char, openerSub: string, closerSub: string)
    requires forall k :: 0 <= k < |matchlist| ==> (matchlist[k] == [] || matchlist[k][0] != '"'
                                                 || (opener !in matchlist[k] && closer !in matchlist[k]))
    ensures SubstituteText(matchlist, opener, closer, openerSub, closerSub) == Concat(matchlist)
    decreases |matchlist|
  {
    if matchlist != [] {
      SubstituteUnchanged(matchlist[1..], opener, closer, openerSub, closerSub);
      var item := matchlist[0];
      assert Substituted(item, opener, closer, openerSub, closerSub) == item;
    }
  }
}
