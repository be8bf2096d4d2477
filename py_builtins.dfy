/** The behaviour of the Python 2 built-ins that the three tools lean on
    (str.strip and friends, str.split, str.join, hex, list extension by a
    "not already present" comprehension, literal regex substitution), stated
    as pure functions over strings. */
module PyBuiltins {

  datatype Option<T> = None | Some(value: T)

  /** Python 2 whitespace for byte strings (str.isspace, regex \s): space, \t, \n, \r, \v, \f */
  predicate IsSpace(c: char) {
    c == ' ' || c == '\t' || c == '\n' || c == '\r' || c == '\U{0B}' || c == '\U{0C}'
  }

  /** str.lstrip() */
  function LStrip(s: string): (r: string)
    ensures |r| <= |s|
  {
    if s != [] && IsSpace(s[0]) then LStrip(s[1..]) else s
  }

  /** lstrip() leaves a suffix that does not start with whitespace, and cuts only
      whitespace. */
  lemma {:induction false} LStripFacts(s: string)
    ensures var r := LStrip(s);
            && r == s[|s| - |r|..]
            && (r == [] || !IsSpace(r[0]))
            && forall i :: 0 <= i < |s| - |r| ==> IsSpace(s[i])
  {
    if s != [] && IsSpace(s[0]) {
      LStripFacts(s[1..]);
      assert forall i :: 1 <= i < |s| ==> s[i] == s[1..][i - 1];
    }
  }

  /** str.rstrip() */
  function RStrip(s: string): (r: string)
    ensures |r| <= |s|
  {
    if s != [] && IsSpace(s[|s| - 1]) then RStrip(s[..|s| - 1]) else s
  }

  /** rstrip() leaves a prefix that does not end with whitespace, and cuts only
      whitespace. */
  lemma {:induction false} RStripFacts(s: string)
    ensures var r := RStrip(s);
            && r == s[..|r|]
            && (r == [] || !IsSpace(r[|r| - 1]))
            && forall i :: |r| <= i < |s| ==> IsSpace(s[i])
  {
    if s != [] && IsSpace(s[|s| - 1]) {
      RStripFacts(s[..|s| - 1]);
    }
  }

  /** str.strip() */
  function Strip(s: string): string {
    LStrip(RStrip(s))
  }

  /** A string made only of whitespace strips to nothing, and only such a string does. */
  lemma StripEmpty(s: string)
    ensures Strip(s) == [] <==> forall i :: 0 <= i < |s| ==> IsSpace(s[i])
  {
    var r := RStrip(s);
    RStripFacts(s);
    LStripFacts(r);
  }

  predicate StartsWith(s: string, prefix: string) {
    |prefix| <= |s| && s[..|prefix|] == prefix
  }

  /** Text appended after a prefix at least as long as q does not change whether it starts with q. */
  lemma StartsWithAppend(p: string, h: string, q: string)
    requires |q| <= |p|
    ensures StartsWith(p + h, q) <==> StartsWith(p, q)
  {
    assert (p + h)[..|q|] == p[..|q|];
  }

  /** pattern occurs in s at index i */
  predicate At(s: string, i: int, pattern: string) {
    0 <= i && i + |pattern| <= |s| && s[i..i + |pattern|] == pattern
  }

  /** `pattern in s` for strings */
  predicate Contains(s: string, pattern: string) {
    exists i | 0 <= i <= |s| - |pattern| :: At(s, i, pattern)
  }

  /** " " * n */
  function Spaces(n: nat): (r: string)
    ensures |r| == n && forall i :: 0 <= i < n ==> r[i] == ' '
  {
    seq(n, _ => ' ')
  }

  /** ''.join(parts) */
  function Concat(parts: seq<string>): string {
    if parts == [] then "" else parts[0] + Concat(parts[1..])
  }

  lemma {:induction false} ConcatAppend(a: seq<string>, b: seq<string>)
    ensures Concat(a + b) == Concat(a) + Concat(b)
  {
    if a != [] {
      assert (a + b)[1..] == a[1..] + b;
      ConcatAppend(a[1..], b);
    } else {
      assert a + b == b;
    }
  }

  /** Text followed by the concatenation of a piece and more pieces. */
  lemma ConcatCons(text: string, piece: string, rest: seq<string>)
    ensures text + Concat([piece] + rest) == text + piece + Concat(rest)
  {
    assert ([piece] + rest)[1..] == rest;
    AppendAssoc(text, piece, Concat(rest));
  }

  /** Concatenation is associative; stated over plain sequences so that callers need
      not prove it about the texts and lists they build. */
  lemma AppendAssoc<T>(a: seq<T>, b: seq<T>, c: seq<T>)
    ensures a + b + c == a + (b + c)
  {
  }

  /** sep.join(parts) */
  function JoinWith(parts: seq<string>, sep: string): string {
    if parts == [] then ""
    else if |parts| == 1 then parts[0]
    else parts[0] + sep + JoinWith(parts[1..], sep)
  }

  /** s.split(sep) for a one-character separator: the pieces between separators,
      empty pieces included, so that joining them back gives s. */
  function Split(s: string, sep: char): (parts: seq<string>)
    ensures |parts| >= 1
    ensures forall k :: 0 <= k < |parts| ==> sep !in parts[k]
    ensures JoinWith(parts, [sep]) == s
  {
    if s == [] then [""]
    else
      var rest := Split(s[1..], sep);
      if s[0] == sep then
        assert [sep] + JoinWith(rest, [sep]) == s;
        [""] + rest
      else
        var parts := [[s[0]] + rest[0]] + rest[1..];
        assert JoinWith(parts, [sep]) == s by {
          if |rest| == 1 {
            assert JoinWith(rest, [sep]) == rest[0];
          } else {
            assert JoinWith(rest, [sep]) == rest[0] + [sep] + JoinWith(rest[1..], [sep]);
            assert parts[1..] == rest[1..];
          }
        }
        parts
  }

  /** Every piece of a split followed by its terminator gives back the text with one
      more terminator: the pieces of s.split('\n'), each followed by '\n'. */
  function Terminated(parts: seq<string>, sep: char): string {
    if parts == [] then "" else parts[0] + [sep] + Terminated(parts[1..], sep)
  }

  /** Splitting a text made of separator-free pieces, each followed by the separator,
      gives back those pieces and one empty trailing piece. */
  lemma {:induction false} SplitTerminated(parts: seq<string>, sep: char)
    requires forall k :: 0 <= k < |parts| ==> sep !in parts[k]
    ensures Split(Terminated(parts, sep), sep) == parts + [""]
  {
    if parts != [] {
      SplitTerminated(parts[1..], sep);
      SplitPrefix(parts[0], sep, Terminated(parts[1..], sep));
      assert parts[0] + [sep] + Terminated(parts[1..], sep) == parts[0] + ([sep] + Terminated(parts[1..], sep));
      assert [parts[0]] + (parts[1..] + [""]) == parts + [""];
    }
  }

  /** Splitting p + sep + rest, where p holds no separator, yields p and then the pieces of rest. */
  lemma {:induction false} SplitPrefix(p: string, sep: char, rest: string)
    requires sep !in p
    ensures Split(p + ([sep] + rest), sep) == [p] + Split(rest, sep)
  {
    if p == [] {
      assert p + ([sep] + rest) == [sep] + rest;
      assert ([sep] + rest)[1..] == rest;
    } else {
      assert (p + ([sep] + rest))[1..] == p[1..] + ([sep] + rest);
      SplitPrefix(p[1..], sep, rest);
      assert [p[0]] + p[1..] == p;
    }
  }

  /** s.split() with no argument: the maximal runs of non-whitespace characters. */
  function Words(s: string): (ws: seq<string>)
    ensures forall k :: 0 <= k < |ws| ==> ws[k] != [] && forall c :: c in ws[k] ==> !IsSpace(c)
  {
    WordsFrom(s, [])
  }

  /** Words of s, where `current` is the non-empty-or-empty word being read when s starts. */
  function WordsFrom(s: string, current: string): (ws: seq<string>)
    requires forall c :: c in current ==> !IsSpace(c)
    ensures forall k :: 0 <= k < |ws| ==> ws[k] != [] && forall c :: c in ws[k] ==> !IsSpace(c)
    decreases |s|
  {
    var done := if current == [] then [] else [current];
    if s == [] then done
    else if IsSpace(s[0]) then done + WordsFrom(s[1..], [])
    else WordsFrom(s[1..], current + [s[0]])
  }

  /** The characters of hex(n) for n >= 0, without the "0x": no leading zero. */
  function HexDigits(n: nat): (r: string)
    ensures r != [] && (|r| == 1 <==> n < 16)
    decreases n
  {
    if n < 16 then ["0123456789abcdef"[n]]
    else HexDigits(n / 16) + ["0123456789abcdef"[n % 16]]
  }

  /** Python 2 hex() of a plain int: "0x1f", and "-0x1f" for negative numbers. */
  function Hex(n: int): string {
    if n >= 0 then "0x" + HexDigits(n) else "-0x" + HexDigits(-n)
  }

  lemma {:induction false} HexDigitsInjective(a: nat, b: nat)
    requires HexDigits(a) == HexDigits(b)
    ensures a == b
    decreases a
  {
    var s := "0123456789abcdef";
    assert forall i, j :: 0 <= i < j < 16 ==> s[i] != s[j];
    if a >= 16 && b >= 16 {
      var ha, hb := HexDigits(a), HexDigits(b);
      assert ha[|ha| - 1] == s[a % 16] && hb[|hb| - 1] == s[b % 16];
      assert ha[..|ha| - 1] == HexDigits(a / 16);
      assert hb[..|hb| - 1] == HexDigits(b / 16);
      HexDigitsInjective(a / 16, b / 16);
    }
  }

  /** Distinct counter values render distinctly. */
  lemma HexInjective(a: int, b: int)
    requires Hex(a) == Hex(b)
    ensures a == b
  {
    var ha, hb := Hex(a), Hex(b);
    assert ha[0] == '0' <==> a >= 0;
    assert hb[0] == '0' <==> b >= 0;
    if a >= 0 {
      assert HexDigits(a) == ha[2..];
      assert HexDigits(b) == hb[2..];
      HexDigitsInjective(a, b);
    } else {
      assert HexDigits(-a) == ha[3..];
      assert HexDigits(-b) == hb[3..];
      HexDigitsInjective(-a, -b);
    }
  }

  /** [x for x in xs if x not in list]: membership is checked against `list` as it was
      before any of xs is added, so a value repeated in xs is kept every time. */
  function Absent(list: seq<string>, xs: seq<string>): (r: seq<string>)
    ensures forall x :: x in r <==> x in xs && x !in list
    ensures forall x :: multiset(r)[x] == if x in list then 0 else multiset(xs)[x]
  {
    if xs == [] then []
    else
      assert xs == [xs[0]] + xs[1..];
      (if xs[0] in list then [] else [xs[0]]) + Absent(list, xs[1..])
  }

  /** list += [x for x in xs if x not in list] */
  function Extend(list: seq<string>, xs: seq<string>): (r: seq<string>)
    ensures list <= r
    ensures forall x :: x in r <==> x in list || x in xs
  {
    list + Absent(list, xs)
  }

  /** The values of xs that are not in `seen`, each at its first occurrence only: a
      pass that keeps the first of equal values and drops the later ones. */
  function Fresh(seen: set<string>, xs: seq<string>): seq<string>
    decreases |xs|
  {
    if xs == [] then []
    else if xs[0] in seen then Fresh(seen, xs[1..])
    else [xs[0]] + Fresh(seen + {xs[0]}, xs[1..])
  }

  /** The pass keeps exactly the values not seen before, and keeps each of them once. */
  lemma {:induction false} FreshFacts(seen: set<string>, xs: seq<string>)
    ensures forall x :: x in Fresh(seen, xs) <==> x in xs && x !in seen
    ensures forall i, j :: 0 <= i < j < |Fresh(seen, xs)| ==> Fresh(seen, xs)[i] != Fresh(seen, xs)[j]
    decreases |xs|
  {
    if xs != [] {
      var h, t := xs[0], xs[1..];
      assert xs == [h] + t;
      if h in seen {
        FreshFacts(seen, t);
      } else {
        var r := Fresh(seen + {h}, t);
        FreshFacts(seen + {h}, t);
        assert Fresh(seen, xs) == [h] + r;
        forall i, j | 0 <= i < j < |[h] + r| ensures ([h] + r)[i] != ([h] + r)[j] {
          if i == 0 {
            assert ([h] + r)[j] == r[j - 1];
          } else {
            assert ([h] + r)[i] == r[i - 1] && ([h] + r)[j] == r[j - 1];
          }
        }
      }
    }
  }

  /** The distinct values of a list, in order of first occurrence */
  function Dedup(xs: seq<string>): seq<string> {
    Fresh({}, xs)
  }

  /** The values of a list, as a set */
  function Elems(xs: seq<string>): set<string> {
    set x | x in xs
  }

  /** Splitting the list splits the pass: the second part is filtered against what the
      first part has shown. */
  lemma {:induction false} FreshAppend(seen: set<string>, a: seq<string>, b: seq<string>)
    ensures Fresh(seen, a + b) == Fresh(seen, a) + Fresh(seen + Elems(a), b)
    decreases |a|
  {
    if a == [] {
      assert a + b == b && seen + Elems(a) == seen;
    } else {
      assert (a + b)[1..] == a[1..] + b;
      assert Elems(a) == {a[0]} + Elems(a[1..]);
      if a[0] in seen {
        FreshAppend(seen, a[1..], b);
        assert seen + Elems(a[1..]) == seen + Elems(a);
      } else {
        FreshAppend(seen + {a[0]}, a[1..], b);
        assert seen + {a[0]} + Elems(a[1..]) == seen + Elems(a);
        AppendAssoc([a[0]], Fresh(seen + {a[0]}, a[1..]), Fresh(seen + Elems(a), b));
      }
    }
  }

  /** One step of the pass on a list with a known first value */
  lemma FreshCons(seen: set<string>, h: string, t: seq<string>)
    ensures Fresh(seen, [h] + t) == if h in seen then Fresh(seen, t) else [h] + Fresh(seen + {h}, t)
  {
    assert ([h] + t)[0] == h && ([h] + t)[1..] == t;
  }

  /** Dropping values already seen before the pass changes nothing the pass keeps. */
  lemma {:induction false} FreshSkipsAbsent(seen: set<string>, list: seq<string>, xs: seq<string>)
    requires Elems(list) <= seen
    ensures Fresh(seen, Absent(list, xs)) == Fresh(seen, xs)
    decreases |xs|
  {
    if xs != [] {
      var h, t := xs[0], xs[1..];
      var dropped := Absent(list, t);
      if h in list {
        assert h in Elems(list);
        assert Absent(list, xs) == dropped;
        FreshSkipsAbsent(seen, list, t);
      } else {
        assert Absent(list, xs) == [h] + dropped;
        FreshCons(seen, h, dropped);
        if h in seen {
          FreshSkipsAbsent(seen, list, t);
        } else {
          FreshSkipsAbsent(seen + {h}, list, t);
        }
      }
    }
  }

  /** list += [x for x in xs if x not in list], followed by anything, shows its distinct
      values in the same order as list followed by all of xs: the names come in order
      of first sighting. */
  lemma DedupExtend(list: seq<string>, xs: seq<string>, rest: seq<string>)
    ensures Dedup(Extend(list, xs) + rest) == Dedup(list + xs + rest)
  {
    var absent := Absent(list, xs);
    var known := Elems(list);
    assert Extend(list, xs) + rest == list + (absent + rest);
    assert list + xs + rest == list + (xs + rest);
    assert Fresh({}, list + (absent + rest)) == Fresh({}, list) + Fresh(known, absent + rest) by {
      FreshAppend({}, list, absent + rest);
      assert {} + known == known;
    }
    assert Fresh({}, list + (xs + rest)) == Fresh({}, list) + Fresh(known, xs + rest) by {
      FreshAppend({}, list, xs + rest);
      assert {} + known == known;
    }
    assert known + Elems(absent) == known + Elems(xs);
    FreshAppend(known, absent, rest);
    FreshAppend(known, xs, rest);
    FreshSkipsAbsent(known, list, xs);
  }

  /** re.sub(re.escape(c), rep, s): every occurrence of the character c replaced by rep. */
  function ReplaceChar(s: string, c: char, rep: string): (r: string)
    ensures c !in rep ==> c !in r
    ensures c !in s ==> r == s
    ensures forall x :: x in r ==> x in s || x in rep
  {
    if s == [] then ""
    else (if s[0] == c then rep else [s[0]]) + ReplaceChar(s[1..], c, rep)
  }

  /** An occurrence after the first character is an occurrence in the whole text. */
  lemma ContainsTail(s: string, pattern: string)
    requires s != []
    ensures Contains(s[1..], pattern) ==> Contains(s, pattern)
  {
    if Contains(s[1..], pattern) {
      var i :| 0 <= i <= |s[1..]| - |pattern| && At(s[1..], i, pattern);
      assert s[1..][i..i + |pattern|] == s[i + 1..i + 1 + |pattern|];
      assert At(s, i + 1, pattern);
    }
  }

  /** re.sub(pattern, rep, s) for a literal pattern followed by a negative lookahead

      that refuses a match when the next character is in `refuse`: scanning left to right,
      each match is replaced and scanning resumes after it. */
  function SubLiteral(s: string, pattern: string, rep: string, refuse: set<char>): (r: string)
    requires pattern != []
    ensures !Contains(s, pattern) ==> r == s
    decreases |s|
  {
    if |s| < |pattern| then s
    else if s[..|pattern|] == pattern && (|s| == |pattern| || s[|pattern|] !in refuse) then
      assert At(s, 0, pattern);
      rep + SubLiteral(s[|pattern|..], pattern, rep, refuse)
    else
      ContainsTail(s, pattern);
      [s[0]] + SubLiteral(s[1..], pattern, rep, refuse)
  }

  /** Whatever is in a prefix of a list is in the list. */
  lemma PrefixMember(xs: seq<string>, ys: seq<string>, x: string)
    requires xs <= ys && x in xs
    ensures x in ys
  {
    var k :| 0 <= k < |xs| && xs[k] == x;
    assert ys[k] == x;
  }
}
