/**
  Loading a CC-CEDICT dictionary into the pronunciation table (translate.py:61-77).

  A line is matched, anchored at its start only, against the regular expression
  `(.*?) (.*?) \[(.*?)\] /(.*?)/`. The four lazy groups are tried shortest first
  with backtracking, so the match found is the one whose group end positions are
  lexicographically least among all ways the pattern fits. `.` matches every
  character but a newline, so the whole match lies before the line's first '\n'.
 */
module Cedict {
  import opened Wrappers
  import Pinyin

  /** One parsed dictionary line: traditional form, simplified form, bracketed pinyin, first gloss. */
  datatype Entry = Entry(traditional: string, simplified: string, pinyin: string, gloss: string)

  /**
    The end positions of the four groups: group 1 is `s[..g1]`, group 2 is
    `s[g1 + 1..g2]`, group 3 is `s[g2 + 2..g3]` and group 4 is `s[g3 + 3..g4]`.
   */
  datatype Split = Split(g1: nat, g2: nat, g3: nat, g4: nat)

  /** `line.startswith('#') or line.startswith('%')` */
  predicate IsComment(line: string) {
    |line| > 0 && (line[0] == '#' || line[0] == '%')
  }

  /** The pattern fits `s` with its groups ending where `sp` says. */
  ghost predicate IsSplit(s: string, sp: Split) {
    && sp.g1 < sp.g2 && sp.g2 + 2 <= sp.g3 && sp.g3 + 3 <= sp.g4 < |s|
    && s[sp.g1] == ' '
    && s[sp.g2] == ' ' && s[sp.g2 + 1] == '['
    && s[sp.g3] == ']' && s[sp.g3 + 1] == ' ' && s[sp.g3 + 2] == '/'
    && s[sp.g4] == '/'
    && forall m :: 0 <= m <= sp.g4 ==> s[m] != '\n'
  }

  /** The order in which lazy groups are tried: shorter earlier groups first. */
  predicate LexLe(a: Split, b: Split) {
    || a.g1 < b.g1
    || (a.g1 == b.g1 && a.g2 < b.g2)
    || (a.g1 == b.g1 && a.g2 == b.g2 && a.g3 < b.g3)
    || (a.g1 == b.g1 && a.g2 == b.g2 && a.g3 == b.g3 && a.g4 <= b.g4)
  }

  /** The position of the first newline of `s` at or after `p`, or `|s|` when there is none. */
  function LineEndFrom(s: string, p: nat): (n: nat)
    requires p <= |s|
    ensures p <= n <= |s|
    ensures forall m :: p <= m < n ==> s[m] != '\n'
    ensures n < |s| ==> s[n] == '\n'
    decreases |s| - p
  {
    if p == |s| || s[p] == '\n' then p else LineEndFrom(s, p + 1)
  }

  /** Where the one line `re.match` can see ends: `.` matches no newline, so nothing past it takes part. */
  function LineEnd(s: string): (n: nat)
    ensures n <= |s|
    ensures forall m :: 0 <= m < n ==> s[m] != '\n'
    ensures n < |s| ==> s[n] == '\n'
  {
    LineEndFrom(s, 0)
  }

  /** The four lazy groups of the pattern, in the order they are matched. */
  datatype Group = Trad | Simp | Pron | Gloss

  /** How many groups follow `g`. */
  function Later(g: Group): nat {
    match g
    case Trad => 3
    case Simp => 2
    case Pron => 1
    case Gloss => 0
  }

  /**
    Group `g` may end at position `x` of `s[..n]`: the literal that follows it
    is there and the rest of the pattern still fits after that literal.
   */
  predicate EndsAt(s: string, n: nat, g: Group, x: nat)
    decreases Later(g), 0, 0
  {
    n <= |s| &&
    match g
    case Trad => x + 1 <= n && s[x] == ' ' && FirstEnd(s, n, Simp, x + 1).Some?
    case Simp => x + 2 <= n && s[x] == ' ' && s[x + 1] == '[' && FirstEnd(s, n, Pron, x + 2).Some?
    case Pron => x + 3 <= n && s[x] == ']' && s[x + 1] == ' ' && s[x + 2] == '/' && FirstEnd(s, n, Gloss, x + 3).Some?
    case Gloss => x < n && s[x] == '/'
  }

  /** The lazy group `g` starting at `p`: the least end position, trying longer and longer spans. */
  function FirstEnd(s: string, n: nat, g: Group, p: nat): (r: Option<nat>)
    decreases Later(g), 1, n - p
  {
    if n <= p then None
    else if EndsAt(s, n, g, p) then Some(p)
    else FirstEnd(s, n, g, p + 1)
  }

  /** `FirstEnd` finds the least end position of the group in `[p, n)`, and none when there is none. */
  lemma {:induction false} FirstEndSpec(s: string, n: nat, g: Group, p: nat)
    ensures FirstEnd(s, n, g, p).Some? ==>
      var x := FirstEnd(s, n, g, p).value;
      && p <= x < n && EndsAt(s, n, g, x)
      && forall m :: p <= m < x ==> !EndsAt(s, n, g, m)
    ensures FirstEnd(s, n, g, p).None? ==> forall m :: p <= m < n ==> !EndsAt(s, n, g, m)
    decreases n - p
  {
    if p < n && !EndsAt(s, n, g, p) {
      FirstEndSpec(s, n, g, p + 1);
    }
  }

  /** `re.match(pattern, s)`, as the group end positions of the match it finds. */
  function Locate(s: string): (r: Option<Split>) {
    var n := LineEnd(s);
    match FirstEnd(s, n, Trad, 0)
    case None => None
    case Some(i) =>
      FirstEndSpec(s, n, Trad, 0);
      FirstEndSpec(s, n, Simp, i + 1);
      var j := FirstEnd(s, n, Simp, i + 1).value;
      FirstEndSpec(s, n, Pron, j + 2);
      var k := FirstEnd(s, n, Pron, j + 2).value;
      FirstEndSpec(s, n, Gloss, k + 3);
      var l := FirstEnd(s, n, Gloss, k + 3).value;
      Some(Split(i, j, k, l))
  }

  /** What the search finds is a way for the pattern to fit. */
  lemma LocateSound(s: string)
    ensures Locate(s).Some? ==> IsSplit(s, Locate(s).value)
  {
    var n := LineEnd(s);
    FirstEndSpec(s, n, Trad, 0);
    if FirstEnd(s, n, Trad, 0).Some? {
      var i := FirstEnd(s, n, Trad, 0).value;
      FirstEndSpec(s, n, Simp, i + 1);
      var j := FirstEnd(s, n, Simp, i + 1).value;
      FirstEndSpec(s, n, Pron, j + 2);
      var k := FirstEnd(s, n, Pron, j + 2).value;
      FirstEndSpec(s, n, Gloss, k + 3);
    }
  }

  /**
    The search is the regular expression's: it finds a match whenever the
    pattern fits at all, and the one it finds is the first in the order in
    which lazy groups are tried.
   */
  lemma LocateLeftmostShortest(s: string, sp: Split)
    requires IsSplit(s, sp)
    ensures Locate(s).Some?
    ensures LexLe(Locate(s).value, sp)
  {
    var n := LineEnd(s);
    assert sp.g4 < n;
    assert EndsAt(s, n, Gloss, sp.g4);
    FirstEndSpec(s, n, Gloss, sp.g3 + 3);
    assert EndsAt(s, n, Pron, sp.g3);
    FirstEndSpec(s, n, Pron, sp.g2 + 2);
    assert EndsAt(s, n, Simp, sp.g2);
    FirstEndSpec(s, n, Simp, sp.g1 + 1);
    assert EndsAt(s, n, Trad, sp.g1);
    FirstEndSpec(s, n, Trad, 0);
    var i := FirstEnd(s, n, Trad, 0).value;
    if i == sp.g1 {
      var j := FirstEnd(s, n, Simp, i + 1).value;
      if j == sp.g2 {
        var k := FirstEnd(s, n, Pron, j + 2).value;
      }
    }
  }

  /** The groups of the match of `s`, if the pattern fits. */
  function Match(s: string): (r: Option<Entry>) {
    match Locate(s)
    case None => None
    case Some(sp) =>
      LocateSound(s);
      Some(Entry(s[..sp.g1], s[sp.g1 + 1..sp.g2], s[sp.g2 + 2..sp.g3], s[sp.g3 + 3..sp.g4]))
  }

  /** `Match` succeeds exactly when the pattern fits the line in some way. */
  lemma MatchFits(s: string)
    ensures Match(s).Some? <==> exists sp :: IsSplit(s, sp)
  {
    LocateSound(s);
    if sp :| IsSplit(s, sp) {
      LocateLeftmostShortest(s, sp);
    }
  }

  /**
    The entry `Match` gives, put back between the pattern's literals, is the
    start of the line, and holds no newline.
   */
  lemma MatchCovers(s: string)
    requires Match(s).Some?
    ensures Render(Match(s).value) <= s
    ensures forall m :: 0 <= m < |Render(Match(s).value)| ==> Render(Match(s).value)[m] != '\n'
  {
    LocateSound(s);
    RenderCovers(s, Locate(s).value);
  }

  /** The matched text is the four groups between the literals of the pattern. */
  lemma RenderCovers(s: string, sp: Split)
    requires IsSplit(s, sp)
    ensures Render(Entry(s[..sp.g1], s[sp.g1 + 1..sp.g2], s[sp.g2 + 2..sp.g3], s[sp.g3 + 3..sp.g4])) == s[..sp.g4 + 1]
  {
    var i, j, k, l := sp.g1, sp.g2, sp.g3, sp.g4;
    assert s[..i + 1] == s[..i] + " ";
    assert s[..j] == s[..i + 1] + s[i + 1..j];
    assert s[..j + 2] == s[..j] + " [";
    assert s[..k] == s[..j + 2] + s[j + 2..k];
    assert s[..k + 3] == s[..k] + "] /";
    assert s[..l] == s[..k + 3] + s[k + 3..l];
    assert s[..l + 1] == s[..l] + "/";
  }

  /** The text a match covers: the groups put back between the pattern's literals. */
  function Render(e: Entry): (r: string) {
    e.traditional + " " + e.simplified + " [" + e.pinyin + "] /" + e.gloss + "/"
  }

  /** An entry whose fields cannot be confused with the literals around them. */
  predicate Plain(e: Entry) {
    && (forall m :: 0 <= m < |e.traditional| ==> e.traditional[m] != ' ' && e.traditional[m] != '\n')
    && (forall m :: 0 <= m < |e.simplified| ==> e.simplified[m] != ' ' && e.simplified[m] != '\n')
    && (forall m :: 0 <= m < |e.pinyin| ==> e.pinyin[m] != ']' && e.pinyin[m] != '\n')
    && (forall m :: 0 <= m < |e.gloss| ==> e.gloss[m] != '/' && e.gloss[m] != '\n')
  }

  /** Where the fields and literals of a rendered entry sit. */
  lemma RenderLayout(e: Entry, rest: string)
    ensures var s, a, b, c, d := Render(e) + rest, |e.traditional|, |e.simplified|, |e.pinyin|, |e.gloss|;
      && |s| == a + b + c + d + 7 + |rest|
      && s[a] == ' ' && s[a + 1 + b] == ' ' && s[a + b + 2] == '['
      && s[a + b + 3 + c] == ']' && s[a + b + c + 4] == ' ' && s[a + b + c + 5] == '/'
      && s[a + b + c + d + 6] == '/'
      && (forall m :: 0 <= m < a ==> s[m] == e.traditional[m])
      && (forall m :: a < m < a + 1 + b ==> s[m] == e.simplified[m - a - 1])
      && (forall m :: a + b + 3 <= m < a + b + 3 + c ==> s[m] == e.pinyin[m - a - b - 3])
      && (forall m :: a + b + c + 6 <= m < a + b + c + 6 + d ==> s[m] == e.gloss[m - a - b - c - 6])
  {
    var s1 := e.traditional + " ";
    var s2 := s1 + e.simplified;
    var s3 := s2 + " [";
    var s4 := s3 + e.pinyin;
    var s5 := s4 + "] /";
    var s6 := s5 + e.gloss;
    var s7 := s6 + "/";
    assert Render(e) == s7;
  }

  /** The match of a rendered plain entry ends each group where the entry's field ends. */
  lemma LocateRender(e: Entry, rest: string)
    requires Plain(e)
    ensures var a, b, c, d := |e.traditional|, |e.simplified|, |e.pinyin|, |e.gloss|;
      Locate(Render(e) + rest) == Some(Split(a, a + 1 + b, a + b + 3 + c, a + b + c + 6 + d))
  {
    var s := Render(e) + rest;
    var a, b, c, d := |e.traditional|, |e.simplified|, |e.pinyin|, |e.gloss|;
    var want := Split(a, a + 1 + b, a + b + 3 + c, a + b + c + 6 + d);
    RenderLayout(e, rest);
    assert IsSplit(s, want);
    LocateLeftmostShortest(s, want);
    LocateSound(s);
    var got := Locate(s).value;
    assert IsSplit(s, got) && LexLe(got, want);
    assert got.g1 == a by {
      assert s[got.g1] == ' ';
    }
    assert got.g2 == want.g2 by {
      assert s[got.g2] == ' ';
    }
    assert got.g3 == want.g3 by {
      assert s[got.g3] == ']';
    }
    assert got.g4 == want.g4 by {
      assert s[got.g4] == '/';
    }
  }

  /** Matching a rendered plain entry, followed by anything, gives the entry back. */
  lemma MatchRender(e: Entry, rest: string)
    requires Plain(e)
    ensures Match(Render(e) + rest) == Some(e)
  {
    var s := Render(e) + rest;
    var a, b, c, d := |e.traditional|, |e.simplified|, |e.pinyin|, |e.gloss|;
    LocateRender(e, rest);
    RenderLayout(e, rest);
    assert s[..a] == e.traditional;
    assert s[a + 1..a + 1 + b] == e.simplified;
    assert s[a + b + 3..a + b + 3 + c] == e.pinyin;
    assert s[a + b + c + 6..a + b + c + 6 + d] == e.gloss;
  }

  // The loading loop of translate.py:67-76.

  /** The pronunciation table: a key (a whole field of a line, of any length) to its formatted pinyin. */
  type Table = map<string, string>

  /** One turn of the loop: a matched line stores its formatted pinyin under both of its forms. */
  function Apply(table: Table, line: string, tones: bool, capitalize: bool): (t: Table)
    ensures IsComment(line) || Match(line).None? ==> t == table
    ensures !IsComment(line) && Match(line).Some? ==>
      var e := Match(line).value;
      var v := Pinyin.Format(e.pinyin, tones, capitalize);
      && t.Keys == table.Keys + {e.traditional, e.simplified}
      && t[e.traditional] == v && t[e.simplified] == v
      && forall k :: k in table && k != e.traditional && k != e.simplified ==> t[k] == table[k]
  {
    if IsComment(line) then table
    else
      match Match(line)
      case None => table
      case Some(e) =>
        var v := Pinyin.Format(e.pinyin, tones, capitalize);
        table[e.traditional := v][e.simplified := v]
  }

  /** The table after the loop has seen every line, in order, starting from the empty table. */
  function Load(lines: seq<string>, tones: bool, capitalize: bool): (t: Table)
    decreases |lines|
  {
    if lines == [] then map[]
    else Apply(Load(lines[..|lines| - 1], tones, capitalize), lines[|lines| - 1], tones, capitalize)
  }

  method LoadDictionary(lines: seq<string>, tones: bool, capitalize: bool) returns (table: Table)
    ensures table == Load(lines, tones, capitalize)
  {
    table := map[];
    for i := 0 to |lines|
      invariant table == Load(lines[..i], tones, capitalize)
    {
      var line := lines[i];
      ghost var before := table;
      if !IsComment(line) {
        var found := Match(line);
        if found.Some? {
          var pinyin := found.value.pinyin;
          pinyin := if tones then pinyin else Pinyin.StripTones(pinyin);
          pinyin := if !capitalize then Pinyin.Lower(pinyin) else Pinyin.Capitalize(pinyin);
          table := table[found.value.traditional := pinyin];
          table := table[found.value.simplified := pinyin];
        }
      }
      assert table == Apply(before, line, tones, capitalize);
      assert lines[..i + 1][..i] == lines[..i];
    }
    assert lines[..|lines|] == lines;
  }

  /** `line` is a matched line with `key` as its traditional or its simplified form. */
  predicate Names(line: string, key: string) {
    && !IsComment(line)
    && Match(line).Some?
    && (key == Match(line).value.traditional || key == Match(line).value.simplified)
  }

  /** The formatted pinyin a matched line stores. */
  function ValueOf(line: string, tones: bool, capitalize: bool): (v: string)
    requires !IsComment(line) && Match(line).Some?
  {
    Pinyin.Format(Match(line).value.pinyin, tones, capitalize)
  }

  /** The index of the last of the first `n` lines naming `key`, or -1 when none does. */
  function LastNaming(lines: seq<string>, key: string, n: nat): (r: int)
    requires n <= |lines|
    ensures -1 <= r < n
    ensures r >= 0 ==> Names(lines[r], key)
    ensures forall m :: r < m < n ==> !Names(lines[m], key)
    decreases n
  {
    if n == 0 then -1
    else if Names(lines[n - 1], key) then n - 1
    else LastNaming(lines, key, n - 1)
  }

  lemma {:induction false} LastWriteWinsUpTo(lines: seq<string>, n: nat, tones: bool, capitalize: bool, key: string)
    requires n <= |lines|
    ensures key in Load(lines[..n], tones, capitalize) <==> LastNaming(lines, key, n) >= 0
    ensures key in Load(lines[..n], tones, capitalize) ==>
      Load(lines[..n], tones, capitalize)[key] == ValueOf(lines[LastNaming(lines, key, n)], tones, capitalize)
  {
    if n > 0 {
      LastWriteWinsUpTo(lines, n - 1, tones, capitalize, key);
      assert lines[..n][..n - 1] == lines[..n - 1];
      assert lines[..n][n - 1] == lines[n - 1];
    }
  }

  /**
    Last write wins: a key is in the loaded table exactly when some matched line
    names it, in either field, and its value is the formatted pinyin of the last
    such line. Comments and lines the pattern does not fit leave no trace.
   */
  lemma LastWriteWins(lines: seq<string>, tones: bool, capitalize: bool, key: string)
    ensures key in Load(lines, tones, capitalize) <==> LastNaming(lines, key, |lines|) >= 0
    ensures key in Load(lines, tones, capitalize) ==>
      Load(lines, tones, capitalize)[key] == ValueOf(lines[LastNaming(lines, key, |lines|)], tones, capitalize)
  {
    LastWriteWinsUpTo(lines, |lines|, tones, capitalize, key);
    assert lines[..|lines|] == lines;
  }

  /** Every stored value is formatted: no digit without tones, no upper case letter without capitalization. */
  lemma {:induction false} LoadedValuesFormatted(lines: seq<string>, tones: bool, capitalize: bool)
    ensures forall k :: k in Load(lines, tones, capitalize) && !tones ==> Pinyin.NoToneDigit(Load(lines, tones, capitalize)[k])
    ensures forall k :: k in Load(lines, tones, capitalize) && !capitalize ==> Pinyin.NoUpper(Load(lines, tones, capitalize)[k])
  {
    if lines != [] {
      LoadedValuesFormatted(lines[..|lines| - 1], tones, capitalize);
    }
  }

  /**
    A well-formed line `TRAD SIMP [PINYIN] /GLOSS/...` that is not a comment
    loads into a table with exactly its two forms, both mapped to its formatted pinyin.
   */
  lemma LoadPlainLine(e: Entry, rest: string, tones: bool, capitalize: bool)
    requires Plain(e)
    requires e.traditional == [] || (e.traditional[0] != '#' && e.traditional[0] != '%')
    ensures var v := Pinyin.Format(e.pinyin, tones, capitalize);
      Load([Render(e) + rest], tones, capitalize) == map[e.traditional := v, e.simplified := v]
  {
    var line := Render(e) + rest;
    MatchRender(e, rest);
    RenderLayout(e, rest);
    assert !IsComment(line) by {
      if e.traditional != [] {
        assert line[0] == e.traditional[0];
      }
    }
    var lines: seq<string> := [line];
    assert lines[..0] == [];
  }
}
