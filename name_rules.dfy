/** The naming rules of the obfuscating engine (class pyfuscate in pyfuscate.py):
    the rename table with its counter, the classification of the segments of a
    dotted name on an ordinary line, and the growth of the known-name list when an
    import line names a module. */
module NameRules {
  import opened PyBuiltins

  /** What the Python process answers when the engine imports a module: whether
      `import m` succeeds, and the names that dir(eval(e)) lists for an expression e,
      None when evaluating e raises NameError. */
  datatype Environment = Environment(importable: string -> bool, members: string -> Option<seq<string>>)

  /** The state kept for the whole run: known_names, name_dict, obfu_names (the
      renamed originals in allocation order), counter, and the text written to stderr. */
  datatype Tables = Tables(known: seq<string>, dict: map<string, string>, renamed: seq<string>,
                           counter: int, stderr: string)

  /** The only qualified member the import expansion refuses to evaluate */
  const Clipboard := "wx.TheClipboard"

  /** An original name is in obfu_names exactly when name_dict has an entry for it. */
  ghost predicate Consistent(t: Tables) {
    forall n :: n in t.renamed <==> n in t.dict
  }

  /** No original appears twice in the list. */
  predicate NoDuplicates(xs: seq<string>) {
    forall i, j :: 0 <= i < j < |xs| ==> xs[i] != xs[j]
  }

  /** The name_dict that renaming the originals `renamed`, in this order, with a
      counter starting at `start` builds. */
  function DictOf(renamed: seq<string>, start: int): map<string, string>
    decreases |renamed|
  {
    if renamed == [] then map[]
    else
      var n := |renamed| - 1;
      DictOf(renamed[..n], start)[renamed[n] := GeneratedName(renamed[n], start + n)]
  }

  /** The originals with an entry in the dictionary are exactly the renamed ones. */
  lemma {:induction false} DictOfKeys(renamed: seq<string>, start: int)
    ensures forall x :: x in DictOf(renamed, start) <==> x in renamed
    decreases |renamed|
  {
    if renamed != [] {
      var n := |renamed| - 1;
      DictOfKeys(renamed[..n], start);
      assert renamed == renamed[..n] + [renamed[n]];
    }
  }

  /** The i-th renamed original maps to the name built from counter value start + i. */
  lemma {:induction false} DictOfAt(renamed: seq<string>, start: int, i: int)
    requires NoDuplicates(renamed) && 0 <= i < |renamed|
    ensures renamed[i] in DictOf(renamed, start)
    ensures DictOf(renamed, start)[renamed[i]] == GeneratedName(renamed[i], start + i)
    decreases |renamed|
  {
    var n := |renamed| - 1;
    if i < n {
      assert renamed[..n][i] == renamed[i] != renamed[n];
      DictOfAt(renamed[..n], start, i);
    }
  }

  /** The rename table of a run whose counter started at `start`: the i-th renamed
      original got the generated name built from counter value start + i, no original
      was renamed twice, and the counter has moved once per renamed original. */
  ghost predicate TablesOk(t: Tables, start: int) {
    && Consistent(t)
    && t.counter == start + |t.renamed|
    && NoDuplicates(t.renamed)
    && t.dict == DictOf(t.renamed, start)
  }

  /** u is a later state of the same run as t: both lists only grew, no rename entry
      changed, the counter moved once per newly renamed original, stderr only grew. */
  ghost predicate Grows(t: Tables, u: Tables) {
    && t.known <= u.known
    && t.renamed <= u.renamed
    && u.counter - t.counter == |u.renamed| - |t.renamed|
    && (forall n :: n in t.dict ==> n in u.dict && u.dict[n] == t.dict[n])
    && t.stderr <= u.stderr
  }

  /** The literal part of a generated name, chosen by the original's leading underscores */
  function NamePrefix(name: string): string {
    if |name| >= 2 && name[..2] == "__" then "__name"
    else if |name| >= 1 && name[..1] == "_" then "_name"
    else "name"
  }

  function GeneratedName(name: string, c: int): string {
    NamePrefix(name) + Hex(c)
  }

  /** The prefix chosen for a name starts with "__", or with "_", exactly when the name does. */
  lemma NamePrefixKeepsPrivacy(name: string)
    ensures |NamePrefix(name)| >= 2
    ensures StartsWith(NamePrefix(name), "__") <==> StartsWith(name, "__")
    ensures StartsWith(NamePrefix(name), "_") <==> StartsWith(name, "_")
  {
    var pre := NamePrefix(name);
    if StartsWith(name, "__") {
      assert name[..1] == "_";
      assert pre == "__name" && pre[..2] == "__" && pre[..1] == "_";
    } else if StartsWith(name, "_") {
      assert pre == "_name" && pre[..1] == "_";
      assert pre[..2][1] == 'n';
    } else {
      assert pre == "name";
      assert pre[..2][0] == 'n' && pre[..1][0] == 'n';
    }
  }

  /** A generated name keeps the original's privacy: it starts with "__", or with "_",
      exactly when the original does. */
  lemma GeneratedNameKeepsPrivacy(name: string, c: int)
    ensures StartsWith(GeneratedName(name, c), "__") <==> StartsWith(name, "__")
    ensures StartsWith(GeneratedName(name, c), "_") <==> StartsWith(name, "_")
  {
    NamePrefixKeepsPrivacy(name);
    StartsWithAppend(NamePrefix(name), Hex(c), "__");
    StartsWithAppend(NamePrefix(name), Hex(c), "_");
  }

  /** Two generated names are equal only if they were built from the same counter value
      and the same prefix. */
  lemma GeneratedNameInjective(a: string, c: int, b: string, d: int)
    requires GeneratedName(a, c) == GeneratedName(b, d)
    ensures c == d && NamePrefix(a) == NamePrefix(b)
  {
    var g := GeneratedName(a, c);
    var pa, pb := NamePrefix(a), NamePrefix(b);
    assert g[0] == '_' <==> pa != "name";
    assert g[0] == '_' <==> pb != "name";
    assert g[1] == '_' <==> pa == "__name";
    assert g[1] == '_' <==> pb == "__name";
    assert pa == pb;
    assert Hex(c) == g[|pa|..] == Hex(d);
    HexInjective(c, d);
  }

  /** Names generated from different counter values differ. */
  lemma GeneratedNamesDiffer(x: string, y: string, a: string, c: int, b: string, d: int)
    requires x == GeneratedName(a, c) && y == GeneratedName(b, d) && c != d
    ensures x != y
  {
    if x == y {
      GeneratedNameInjective(a, c, b, d);
    }
  }

  /** The entry of the i-th renamed original in a well-formed table. */
  lemma TableEntry(t: Tables, start: int, i: int)
    requires TablesOk(t, start) && 0 <= i < |t.renamed|
    ensures t.dict[t.renamed[i]] == GeneratedName(t.renamed[i], start + i)
  {
    DictOfAt(t.renamed, start, i);
  }

  /** Distinct renamed originals get distinct generated names: renaming is injective.
      (Every original with an entry is one of `renamed`, by DictOfKeys.) */
  lemma RenamesDistinct(t: Tables, start: int, i: int, j: int)
    requires TablesOk(t, start)
    requires 0 <= i < |t.renamed| && 0 <= j < |t.renamed| && i != j
    ensures t.renamed[i] != t.renamed[j]
    ensures t.dict[t.renamed[i]] != t.dict[t.renamed[j]]
  {
    TableEntry(t, start, i);
    TableEntry(t, start, j);
    GeneratedNamesDiffer(t.dict[t.renamed[i]], t.dict[t.renamed[j]], t.renamed[i], start + i, t.renamed[j], start + j);
  }

  /** A new private name takes the current counter value. */
  function Allocate(t: Tables, name: string): Tables {
    t.(dict := t.dict[name := GeneratedName(name, t.counter)],
       renamed := t.renamed + [name],
       counter := t.counter + 1)
  }

  lemma DictOfAppend(renamed: seq<string>, x: string, start: int)
    ensures DictOf(renamed + [x], start) == DictOf(renamed, start)[x := GeneratedName(x, start + |renamed|)]
  {
    assert (renamed + [x])[..|renamed|] == renamed;
  }

  lemma NoDuplicatesAppend(xs: seq<string>, x: string)
    requires NoDuplicates(xs) && x !in xs
    ensures NoDuplicates(xs + [x])
  {
  }

  /** Renaming a new original keeps the rename table's invariant. */
  lemma AllocateKeepsTables(t: Tables, start: int, name: string)
    requires TablesOk(t, start) && name !in t.renamed
    ensures TablesOk(Allocate(t, name), start)
  {
    DictOfAppend(t.renamed, name, start);
    NoDuplicatesAppend(t.renamed, name);
  }

  /** One segment `name` of a dotted name on an ordinary line, where `known` says that
      an earlier segment of the same name was a known name: the new tables, the new
      flag and the text emitted for the segment. */
  function Segment(t: Tables, known: bool, name: string): (r: (Tables, bool, string))
    requires Consistent(t)
    ensures Consistent(r.0) && Grows(t, r.0)
  {
    var known := if name == "self" then false else known;
    if known then
      (if name in t.known then t else t.(known := t.known + [name]), true, name)
    else if name in t.known then
      (t, true, name)
    else if name in t.renamed then
      (t, false, t.dict[name])
    else
      var u := Allocate(t, name);
      (u, false, u.dict[name])
  }

  /** A segment that is not reached through a known segment (or that is `self`) and is
      not known itself is renamed: it is written as its existing name_dict entry, or
      else it gets the generated name of the current counter value, is appended to
      obfu_names and moves the counter by one. The known_name flag stays down. */
  lemma SegmentRenames(t: Tables, known: bool, name: string)
    requires Consistent(t) && !(known && name != "self") && name !in t.known
    ensures var r := Segment(t, known, name);
            && !r.1
            && (name in t.renamed ==> r == (t, false, t.dict[name]))
            && (name !in t.renamed ==> r == (Allocate(t, name), false, GeneratedName(name, t.counter)))
  {
  }

  /** A known segment, or any segment but `self` after a known one, is written verbatim
      and raises the known_name flag; it is appended to known_names when it was not
      there yet, and nothing else changes. */
  lemma SegmentVerbatim(t: Tables, known: bool, name: string)
    requires Consistent(t) && ((known && name != "self") || name in t.known)
    ensures var r := Segment(t, known, name);
            && r.1 && r.2 == name
            && r.0 == t.(known := if name in t.known then t.known else t.known + [name])
  {
  }

  /** What a chain may emit for one segment `name`: the name itself when it was known
      in t, and otherwise either the name itself, which then is known in the final
      table u, or its entry in u's name_dict. */
  ghost predicate EmittedFrom(t: Tables, u: Tables, name: string, emitted: string) {
    && (name in t.known ==> emitted == name)
    && ((name in u.known && emitted == name) || (name in u.dict && emitted == u.dict[name]))
  }

  /** What may be emitted from a later state may be emitted from an earlier one. */
  lemma EmittedFromEarlier(t: Tables, u: Tables, v: Tables, name: string, emitted: string)
    requires t.known <= u.known && EmittedFrom(u, v, name, emitted)
    ensures EmittedFrom(t, v, name, emitted)
  {
    if name in t.known {
      PrefixMember(t.known, u.known, name);
    }
  }

  /** Each of `names` was emitted as the matching entry of `out` allows (EmittedFrom). */
  ghost predicate EmitsAll(t: Tables, v: Tables, names: seq<string>, out: seq<string>)
    decreases |names|
  {
    && |out| == |names|
    && (names != [] ==> EmittedFrom(t, v, names[0], out[0]) && EmitsAll(t, v, names[1..], out[1..]))
  }

  /** EmitsAll, read position by position. */
  lemma {:induction false} EmitsAllAt(t: Tables, v: Tables, names: seq<string>, out: seq<string>, i: int)
    requires EmitsAll(t, v, names, out) && 0 <= i < |names|
    ensures EmittedFrom(t, v, names[i], out[i])
    decreases i
  {
    if i > 0 {
      EmitsAllAt(t, v, names[1..], out[1..], i - 1);
    }
  }

  /** What may be emitted from a later state may be emitted from an earlier one. */
  lemma {:induction false} EmitsAllEarlier(t: Tables, u: Tables, v: Tables, names: seq<string>, out: seq<string>)
    requires t.known <= u.known && EmitsAll(u, v, names, out)
    ensures EmitsAll(t, v, names, out)
    decreases |names|
  {
    if names != [] {
      EmittedFromEarlier(t, u, v, names[0], out[0]);
      EmitsAllEarlier(t, u, v, names[1..], out[1..]);
    }
  }

  /** The segments `names` of a dotted name on an ordinary line; `prepped` holds the
      texts emitted for the segments before them. Every segment is emitted verbatim or
      as its entry in the final rename table, and verbatim whenever it was known. */
  function Chain(t: Tables, known: bool, names: seq<string>, prepped: seq<string>): (r: (Tables, seq<string>))
    requires Consistent(t)
    ensures Consistent(r.0) && Grows(t, r.0)
    ensures |r.1| == |prepped| + |names| && r.1[..|prepped|] == prepped
    decreases |names|
  {
    if names == [] then (t, prepped)
    else
      var (u, known', s) := Segment(t, known, names[0]);
      var r := Chain(u, known', names[1..], prepped + [s]);
      assert (prepped + [s])[..|prepped|] == prepped;
      r
  }

  /** A chain over a non-empty list of segments emits the first segment's text right
      after `prepped`, and continues from the tables the first segment left. */
  lemma ChainStep(t: Tables, known: bool, names: seq<string>, prepped: seq<string>)
    requires Consistent(t) && names != []
    ensures var seg := Segment(t, known, names[0]);
            && Chain(t, known, names, prepped) == Chain(seg.0, seg.1, names[1..], prepped + [seg.2])
            && Chain(t, known, names, prepped).1[|prepped|] == seg.2
  {
    var seg := Segment(t, known, names[0]);
    var r := Chain(seg.0, seg.1, names[1..], prepped + [seg.2]);
    assert r.1[..|prepped| + 1] == prepped + [seg.2];
    assert r.1[|prepped|] == r.1[..|prepped| + 1][|prepped|];
  }

  /** A segment's text is what EmittedFrom allows, judged against the tables it leaves. */
  lemma SegmentEmitted(t: Tables, known: bool, name: string)
    requires Consistent(t)
    ensures var r := Segment(t, known, name);
            EmittedFrom(t, r.0, name, r.2)
  {
  }

  /** What may be emitted against a table may be emitted against any later one. */
  lemma EmittedFromLater(t: Tables, u: Tables, v: Tables, name: string, emitted: string)
    requires EmittedFrom(t, u, name, emitted) && Grows(u, v)
    ensures EmittedFrom(t, v, name, emitted)
  {
    if name in u.known {
      PrefixMember(u.known, v.known, name);
    }
  }

  /** Every segment of a dotted name is emitted verbatim, and then is known in the final
      tables, or as its entry in the final rename table; verbatim whenever it was known
      when the name was reached. So no segment is ever written verbatim without being
      known. */
  lemma {:induction false} ChainEmits(t: Tables, known: bool, names: seq<string>, prepped: seq<string>)
    requires Consistent(t)
    ensures var r := Chain(t, known, names, prepped);
            EmitsAll(t, r.0, names, r.1[|prepped|..])
    decreases |names|
  {
    if names != [] {
      var seg := Segment(t, known, names[0]);
      ChainStep(t, known, names, prepped);
      var r := Chain(seg.0, seg.1, names[1..], prepped + [seg.2]);
      var out := r.1[|prepped|..];
      assert EmittedFrom(t, r.0, names[0], out[0]) by {
        SegmentEmitted(t, known, names[0]);
        EmittedFromLater(t, seg.0, r.0, names[0], seg.2);
      }
      assert EmitsAll(t, r.0, names[1..], out[1..]) by {
        ChainEmits(seg.0, seg.1, names[1..], prepped + [seg.2]);
        EmitsAllEarlier(t, seg.0, r.0, names[1..], r.1[|prepped| + 1..]);
        assert out[1..] == r.1[|prepped| + 1..];
      }
    }
  }

  /** Renaming one segment keeps the rename table's invariant. */
  lemma SegmentKeepsTables(t: Tables, start: int, known: bool, name: string)
    requires TablesOk(t, start)
    ensures TablesOk(Segment(t, known, name).0, start)
  {
    if !(known && name != "self") && name !in t.known {
      SegmentRenames(t, known, name);
      if name !in t.renamed {
        AllocateKeepsTables(t, start, name);
      }
    } else {
      SegmentVerbatim(t, known, name);
    }

  }

  /** Renaming a dotted name keeps the rename table's invariant. */
  lemma {:induction false} ChainKeepsTables(t: Tables, start: int, known: bool, names: seq<string>, prepped: seq<string>)
    requires TablesOk(t, start)
    ensures TablesOk(Chain(t, known, names, prepped).0, start)
    decreases |names|
  {
    if names != [] {
      var seg := Segment(t, known, names[0]);
      SegmentKeepsTables(t, start, known, names[0]);
      ChainStep(t, known, names, prepped);
      ChainKeepsTables(seg.0, start, seg.1, names[1..], prepped + [seg.2]);
    }
  }

  /** No segment is `self`. */
  predicate NoSelf(names: seq<string>) {
    forall i :: 0 <= i < |names| ==> names[i] != "self"
  }

  /** A segment other than `self` after a known one is written verbatim, becomes known,
      and the chain goes on with the flag still raised. */
  lemma KnownSegmentStep(t: Tables, names: seq<string>, prepped: seq<string>)
    requires Consistent(t) && names != [] && names[0] != "self"
    ensures var seg := Segment(t, true, names[0]);
            && Chain(t, true, names, prepped) == Chain(seg.0, true, names[1..], prepped + [names[0]])
            && names[0] in seg.0.known && seg.0 == t.(known := seg.0.known)
  {
    SegmentVerbatim(t, true, names[0]);
    ChainStep(t, true, names, prepped);
  }

  /** After a known segment, and with no `self`, the rest is written verbatim. */
  lemma {:induction false} ChainKnownText(t: Tables, names: seq<string>, prepped: seq<string>)
    requires Consistent(t) && NoSelf(names)
    ensures Chain(t, true, names, prepped).1 == prepped + names
    decreases |names|
  {
    if names != [] {
      var seg := Segment(t, true, names[0]);
      KnownSegmentStep(t, names, prepped);
      assert NoSelf(names[1..]) by {
        forall i | 0 <= i < |names[1..]| ensures names[1..][i] != "self" {
          assert names[1..][i] == names[i + 1];
        }
      }
      ChainKnownText(seg.0, names[1..], prepped + [names[0]]);
      AppendAssoc(prepped, [names[0]], names[1..]);
      assert [names[0]] + names[1..] == names;
    }
  }

  /** After a known segment, and with no `self`, nothing but known_names changes. */
  lemma {:induction false} ChainKnownTables(t: Tables, names: seq<string>, prepped: seq<string>)
    requires Consistent(t) && NoSelf(names)
    ensures Chain(t, true, names, prepped).0 == t.(known := Chain(t, true, names, prepped).0.known)
    decreases |names|
  {
    if names != [] {
      var seg := Segment(t, true, names[0]);
      KnownSegmentStep(t, names, prepped);
      assert NoSelf(names[1..]) by {
        forall i | 0 <= i < |names[1..]| ensures names[1..][i] != "self" {
          assert names[1..][i] == names[i + 1];
        }
      }
      ChainKnownTables(seg.0, names[1..], prepped + [names[0]]);
    }
  }

  /** After a known segment, and with no `self`, every later segment ends up known. */
  lemma {:induction false} ChainKnownAll(t: Tables, names: seq<string>, prepped: seq<string>)
    requires Consistent(t) && NoSelf(names)
    ensures AllKnown(names, Chain(t, true, names, prepped).0.known)
    decreases |names|
  {
    if names != [] {
      var seg := Segment(t, true, names[0]);
      var r := Chain(seg.0, true, names[1..], prepped + [names[0]]);
      KnownSegmentStep(t, names, prepped);
      assert NoSelf(names[1..]) by {
        forall i | 0 <= i < |names[1..]| ensures names[1..][i] != "self" {
          assert names[1..][i] == names[i + 1];
        }
      }
      ChainKnownAll(seg.0, names[1..], prepped + [names[0]]);
      PrefixMember(seg.0.known, r.0.known, names[0]);
      AllKnownCons(names, r.0.known);
    }
  }

  /** Once a segment has been found known, and as long as no segment is `self`, every
      later segment is emitted verbatim and ends up known; nothing else changes. */
  lemma ChainAfterKnown(t: Tables, names: seq<string>, prepped: seq<string>)
    requires Consistent(t) && NoSelf(names)
    ensures Chain(t, true, names, prepped).1 == prepped + names
    ensures Chain(t, true, names, prepped).0 == t.(known := Chain(t, true, names, prepped).0.known)
    ensures AllKnown(names, Chain(t, true, names, prepped).0.known)
  {
    ChainKnownText(t, names, prepped);
    ChainKnownTables(t, names, prepped);
    ChainKnownAll(t, names, prepped);
  }

  /** Every one of `names` is in `known`. */
  predicate AllKnown(names: seq<string>, known: seq<string>) {
    forall i :: 0 <= i < |names| ==> names[i] in known
  }

  lemma AllKnownCons(names: seq<string>, known: seq<string>)
    requires names != [] && names[0] in known && AllKnown(names[1..], known)
    ensures AllKnown(names, known)
  {
    forall i | 1 <= i < |names| ensures names[i] in known {
      assert names[i] == names[1..][i - 1];
    }
  }

  /** A single unknown, not yet renamed segment gets the generated name of the current
      counter value. */
  lemma FirstSighting(t: Tables, x: string)
    requires Consistent(t) && x !in t.known && x !in t.renamed
    ensures Chain(t, false, [x], []) == (Allocate(t, x), [GeneratedName(x, t.counter)])
  {
    SegmentRenames(t, false, x);
    ChainStep(t, false, [x], []);
  }

  /** A segment other than `self` that follows a known one becomes known. */
  lemma AfterKnownSegment(t: Tables, a: string, x: string)
    requires Consistent(t) && a in t.known && x != "self"
    ensures Chain(t, false, [a, x], []).1 == [a, x] && x in Chain(t, false, [a, x], []).0.known
  {
    SegmentVerbatim(t, false, a);
    ChainStep(t, false, [a, x], []);
    assert [a, x][1..] == [x];
    SegmentVerbatim(t, true, x);
    ChainStep(t, true, [x], [a]);
  }

  /** A known single segment is written verbatim. */
  lemma KnownSighting(t: Tables, x: string)
    requires Consistent(t) && x in t.known
    ensures Chain(t, false, [x], []).1 == [x]
  {
    SegmentVerbatim(t, false, x);
    ChainStep(t, false, [x], []);
  }

  /** Renaming is not stable: a new name x is renamed on its first sighting, becomes
      known when it follows a known segment a (as in `a.x`), and from then on is written
      verbatim while the earlier line used its generated name. */
  lemma RenamingNotStable(t: Tables, a: string, x: string)
    requires Consistent(t) && a in t.known && x !in t.known && x !in t.renamed && x != "self"
    ensures var (u, first) := Chain(t, false, [x], []);
            var (v, second) := Chain(u, false, [a, x], []);
            && first == [GeneratedName(x, t.counter)] && u.dict[x] == GeneratedName(x, t.counter)
            && second == [a, x] && x in v.known
            && Chain(v, false, [x], []).1 == [x]
  {
    FirstSighting(t, x);
    var u := Allocate(t, x);
    PrefixMember(t.known, u.known, a);
    AfterKnownSegment(u, a, x);
    KnownSighting(Chain(u, false, [a, x], []).0, x);
  }

  /** One member expression `name.entry` of an imported module: unless it is Clipboard,
      the names dir(eval(expr)) lists become known when evaluating it succeeds. */
  function ExpandEntry(t: Tables, env: Environment, expr: string): (u: Tables)
    ensures u == t.(known := u.known) && t.known <= u.known
    ensures expr != Clipboard && env.members(expr).Some? ==> u.known == Extend(t.known, env.members(expr).value)
    ensures expr == Clipboard || env.members(expr).None? ==> u == t
  {
    if expr == Clipboard then t
    else match env.members(expr)
      case None => t
      case Some(names) => t.(known := Extend(t.known, names))
  }

  /** The member names of `name` (the list dir(eval(name)) gave) are each expanded one
      level further, skipping Clipboard. */
  function Expand(t: Tables, env: Environment, name: string, entries: seq<string>): (u: Tables)
    ensures u == t.(known := u.known) && t.known <= u.known
    decreases |entries|
  {
    if entries == [] then t
    else Expand(ExpandEntry(t, env, name + "." + entries[0]), env, name, entries[1..])
  }

  /** Every member of every member of the module that can be evaluated, except through
      Clipboard, ends up known. */
  lemma {:induction false} ExpandMembers(t: Tables, env: Environment, name: string, entries: seq<string>, k: int)
    requires 0 <= k < |entries|
    requires name + "." + entries[k] != Clipboard && env.members(name + "." + entries[k]).Some?
    ensures forall x :: x in env.members(name + "." + entries[k]).value ==> x in Expand(t, env, name, entries).known
    decreases k
  {
    var t' := ExpandEntry(t, env, name + "." + entries[0]);
    var u := Expand(t', env, name, entries[1..]);
    if k == 0 {
      forall x | x in env.members(name + "." + entries[0]).value ensures x in u.known {
        PrefixMember(t'.known, u.known, x);
      }
    } else {
      assert entries[1..][k - 1] == entries[k];
      ExpandMembers(t', env, name, entries[1..], k - 1);
    }
  }

  /** x is listed by dir(eval(name.e)) for some member e of `entries` that the expansion
      evaluates (anything but Clipboard, and only where evaluation succeeds). */
  ghost predicate MemberOfSome(env: Environment, name: string, entries: seq<string>, x: string) {
    exists e :: e in entries && name + "." + e != Clipboard && env.members(name + "." + e).Some?
                && x in env.members(name + "." + e).value
  }

  /** The member loop adds nothing but the members of the members it evaluates. */
  lemma {:induction false} ExpandOnly(t: Tables, env: Environment, name: string, entries: seq<string>, x: string)
    requires x in Expand(t, env, name, entries).known
    ensures x in t.known || MemberOfSome(env, name, entries, x)
    decreases |entries|
  {
    if entries != [] {
      var expr := name + "." + entries[0];
      var t' := ExpandEntry(t, env, expr);
      ExpandOnly(t', env, name, entries[1..], x);
      if MemberOfSome(env, name, entries[1..], x) {
        var e :| e in entries[1..] && name + "." + e != Clipboard && env.members(name + "." + e).Some?
                 && x in env.members(name + "." + e).value;
        assert e in entries;
      } else if x !in t.known {
        assert expr != Clipboard && env.members(expr).Some? && x in env.members(expr).value;
        assert entries[0] in entries;
      }
    }
  }

  /** A dotted module name `name` on an import line, whose first NAME token reads
      `first`: the name becomes known, and a module that imports adds its members and
      their members; the rename table is never touched. */
  function Import(t: Tables, env: Environment, name: string, first: string): (u: Tables)
    ensures u.dict == t.dict && u.renamed == t.renamed && u.counter == t.counter
    ensures t.known <= u.known && name in u.known
    ensures name in t.known ==> u == t
    ensures u.stderr == t.stderr + (if name !in t.known && !env.importable(name)
                                    then "Import error for: " + first + "\n" else "")
    ensures name !in t.known && env.importable(name) && env.members(name).Some? ==>
              forall x :: x in env.members(name).value ==> x in u.known
  {
    if name in t.known then t
    else
      var t1 := t.(known := t.known + [name]);
      if !env.importable(name) then
        t1.(stderr := t1.stderr + "Import error for: " + first + "\n")
      else
        match env.members(name)
        case None => t1
        case Some(entries) =>
          var t2 := t1.(known := Extend(t1.known, entries));
          var u := Expand(t2, env, name, entries);
          assert name in u.known && forall x :: x in entries ==> x in u.known by {
            PrefixMember(t1.known, t2.known, name);
            PrefixMember(t2.known, u.known, name);
            forall x | x in entries ensures x in u.known {
              PrefixMember(t2.known, u.known, x);
            }
          }
          u
  }

  /** Importing adds nothing to known_names but the module's name, the members dir
      lists for it and the members of those members that the expansion evaluates. */
  lemma ImportOnly(t: Tables, env: Environment, name: string, first: string, x: string)
    requires x in Import(t, env, name, first).known
    ensures || x in t.known || x == name
            || (&& name !in t.known && env.importable(name) && env.members(name).Some?
                && (x in env.members(name).value || MemberOfSome(env, name, env.members(name).value, x)))
  {
    if name !in t.known && env.importable(name) && env.members(name).Some? {
      var entries := env.members(name).value;
      var t1 := t.(known := t.known + [name]);
      ExpandOnly(t1.(known := Extend(t1.known, entries)), env, name, entries, x);
    }
  }

}
