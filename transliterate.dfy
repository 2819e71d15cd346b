/**
  The character-by-character transliteration of a file (translate.py:88-102).

  Every character the table has a key for is replaced by its pinyin, with one
  space in front when the character before it was replaced too; every other
  character is copied. The "previous character was replaced" flag is set up once
  per file, so it carries over from the end of one line to the start of the next.
 */
module Transliterate {
  import Cedict

  type Table = Cedict.Table

  /** The table has an entry for the one-character key `c`. */
  predicate Hit(table: Table, c: char) {
    [c] in table
  }

  /** One turn of the inner loop: the text appended for `c` and the new flag. */
  function Step(table: Table, translated: bool, c: char): (r: (string, bool)) {
    if Hit(table, c) then ((if translated then " " else "") + table[[c]], true)
    else ([c], false)
  }

  /**
    Scanning `s` with the flag `translated` on entry: the text produced and the
    flag on exit, which tells whether the last character was replaced.
   */
  function Scan(table: Table, s: string, translated: bool): (r: (string, bool))
    ensures r.1 == if s == [] then translated else Hit(table, s[|s| - 1])
    decreases |s|
  {
    if s == [] then ([], translated)
    else
      var prev := Scan(table, s[..|s| - 1], translated);
      var step := Step(table, prev.1, s[|s| - 1]);
      (prev.0 + step.0, step.1)
  }

  /** Text with no character the table knows is copied unchanged, and leaves the flag cleared unless it is empty. */
  lemma {:induction false} ScanIdentity(table: Table, s: string, translated: bool)
    requires forall m :: 0 <= m < |s| ==> !Hit(table, s[m])
    ensures Scan(table, s, translated).0 == s
    ensures s != [] ==> !Scan(table, s, translated).1
  {
    if s != [] {
      var init, c := s[..|s| - 1], s[|s| - 1];
      assert !Hit(table, c);
      ScanIdentity(table, init, translated);
      assert s == init + [c];
    }
  }

  /** The lines of a file joined back into its text. */
  function Concat(lines: seq<string>): (r: string)
    decreases |lines|
  {
    if lines == [] then [] else Concat(lines[..|lines| - 1]) + lines[|lines| - 1]
  }

  /** Scanning line after line, each line starting from the flag the line before left. */
  function ScanLines(table: Table, lines: seq<string>, translated: bool): (r: (string, bool))
    decreases |lines|
  {
    if lines == [] then ([], translated)
    else
      var prev := ScanLines(table, lines[..|lines| - 1], translated);
      var cur := Scan(table, lines[|lines| - 1], prev.1);
      (prev.0 + cur.0, cur.1)
  }

  /** Scanning one more character is one more step. */
  lemma ScanSnoc(table: Table, s: string, c: char, translated: bool)
    ensures var prev := Scan(table, s, translated);
      Scan(table, s + [c], translated) == (prev.0 + Step(table, prev.1, c).0, Step(table, prev.1, c).1)
  {
    assert (s + [c])[..|s|] == s;
  }

  /** `translateFile`'s loops over the lines of a file and the characters of each line. */
  method TranslateFile(table: Table, lines: seq<string>) returns (text: string)
    ensures text == Scan(table, Concat(lines), false).0
  {
    text := "";
    var translated := false;
    for i := 0 to |lines|
      invariant (text, translated) == Scan(table, Concat(lines[..i]), false)
    {
      var line := lines[i];
      ghost var done := Concat(lines[..i]);
      assert done + line[..0] == done;
      for j := 0 to |line|
        invariant (text, translated) == Scan(table, done + line[..j], false)
      {
        var c := line[j];
        ghost var prev := (text, translated);
        if Hit(table, c) {
          var value := table[[c]];
          if translated {
            text := text + " ";
          }
          text := text + value;
          translated := true;
          assert text == prev.0 + ((if prev.1 then " " else "") + value);
        } else {
          text := text + [c];
          translated := false;
        }
        assert (text, translated) == (prev.0 + Step(table, prev.1, c).0, Step(table, prev.1, c).1);
        assert (text, translated) == Scan(table, done + line[..j + 1], false) by {
          ScanSnoc(table, done + line[..j], c, false);
          assert done + line[..j + 1] == (done + line[..j]) + [c];
        }
      }
      assert line[..|line|] == line;
      assert lines[..i + 1][..i] == lines[..i];
    }
    assert lines[..|lines|] == lines;
  }

  /**
    Scanning `a + b` is scanning `a` and then `b` from the flag `a` left: the
    flag carries over a boundary exactly as it does inside one string.
   */
  lemma {:induction false} ScanConcat(table: Table, a: string, b: string, translated: bool)
    ensures var first := Scan(table, a, translated);
      Scan(table, a + b, translated) == (first.0 + Scan(table, b, first.1).0, Scan(table, b, first.1).1)
  {
    if b == [] {
      assert a + b == a;
      assert Scan(table, a, translated).0 + [] == Scan(table, a, translated).0;
    } else {
      var b', c := b[..|b| - 1], b[|b| - 1];
      assert (a + b)[..|a + b| - 1] == a + b';
      assert (a + b)[|a + b| - 1] == c;
      ScanConcat(table, a, b', translated);
      var first := Scan(table, a, translated);
      var mid := Scan(table, b', first.1);
      var step := Step(table, mid.1, c);
      assert Scan(table, b, first.1) == (mid.0 + step.0, step.1);
      assert (first.0 + mid.0) + step.0 == first.0 + (mid.0 + step.0);
    }
  }

  /** Translating a file line by line, with the flag carried across lines, is translating its whole text at once. */
  lemma {:induction false} ScanLinesIsScanOfConcat(table: Table, lines: seq<string>, translated: bool)
    ensures ScanLines(table, lines, translated) == Scan(table, Concat(lines), translated)
  {
    if lines != [] {
      var init := lines[..|lines| - 1];
      ScanLinesIsScanOfConcat(table, init, translated);
      ScanConcat(table, Concat(init), lines[|lines| - 1], translated);
    }
  }

  /**
    What the character `s[m]` becomes, knowing only whether the character
    before it (or, for the first one, the flag on entry) was replaced.
   */
  function Piece(table: Table, s: string, translated: bool, m: nat): (r: string)
    requires m < |s|
  {
    var afterHit := if m == 0 then translated else Hit(table, s[m - 1]);
    if !Hit(table, s[m]) then [s[m]]
    else if afterHit then " " + table[[s[m]]]
    else table[[s[m]]]
  }

  function Pieces(table: Table, s: string, translated: bool): (r: seq<string>)
    ensures |r| == |s|
  {
    seq(|s|, m requires 0 <= m < |s| => Piece(table, s, translated, m))
  }

  /**
    The output is the characters' pieces in order: a replaced character gives
    its pinyin, with exactly one space before it precisely when the character
    before it was replaced; any other character gives itself.
   */
  lemma {:induction false} ScanIsPieces(table: Table, s: string, translated: bool)
    ensures Scan(table, s, translated).0 == Concat(Pieces(table, s, translated))
  {
    if s != [] {
      var init := s[..|s| - 1];
      ScanIsPieces(table, init, translated);
      var ps := Pieces(table, s, translated);
      assert ps[..|s| - 1] == Pieces(table, init, translated);
    }
  }

  /** Keys of any length but one are never looked up, so they never change the output. */
  lemma {:induction false} LongKeysUnreachable(table: Table, key: string, s: string, translated: bool)
    requires |key| != 1
    ensures Scan(table - {key}, s, translated) == Scan(table, s, translated)
  {
    if s != [] {
      LongKeysUnreachable(table, key, s[..|s| - 1], translated);
      assert [s[|s| - 1]] != key;
    }
  }

  /** A one-character string is scanned in one step. */
  lemma ScanChar(table: Table, c: char, translated: bool)
    ensures Scan(table, [c], translated) == Step(table, translated, c)
  {
    assert [c][..0] == [];
    assert [] + Step(table, translated, c).0 == Step(table, translated, c).0;
  }

  /** Two adjacent replaced characters are separated by one space. */
  lemma NiHaoExample()
    ensures Scan(map["你" := "Ni", "好" := "hao"], "你好", false).0 == "Ni hao"
  {
    var table := map["你" := "Ni", "好" := "hao"];
    assert ['你'] == "你" && ['好'] == "好";
    assert table[['你']] == "Ni" && table[['好']] == "hao";
    ScanChar(table, '你', false);
    ScanChar(table, '好', true);
    assert "你好" == "你" + "好";
    ScanConcat(table, "你", "好", false);
    assert "Ni" + (" " + "hao") == "Ni hao";
  }

  /** Punctuation, Latin letters and spaces are copied and clear the flag, so no stray space appears. */
  lemma PassThroughExample()
    ensures Scan(map["你" := "Ni", "好" := "hao"], "你, hello 好!", false).0 == "Ni, hello hao!"
  {
    var table := map["你" := "Ni", "好" := "hao"];
    var gap := ", hello ";
    var p1 := "你" + gap;
    assert Scan(table, p1, false) == ("Ni" + gap, false) by {
      assert ['你'] == "你" && table[['你']] == "Ni";
      ScanChar(table, '你', false);
      assert "" + "Ni" == "Ni";
      assert forall m :: 0 <= m < |gap| ==> !Hit(table, gap[m]);
      ScanIdentity(table, gap, true);
      ScanConcat(table, "你", gap, false);
    }
    var p2 := p1 + "好";
    assert Scan(table, p2, false) == ("Ni" + gap + "hao", true) by {
      assert ['好'] == "好" && table[['好']] == "hao";
      ScanChar(table, '好', false);
      assert "" + "hao" == "hao";
      ScanConcat(table, p1, "好", false);
    }
    var p3 := p2 + "!";
    assert Scan(table, p3, false) == ("Ni" + gap + "hao" + "!", false) by {
      ScanChar(table, '!', true);
      ScanConcat(table, p2, "!", false);
    }
    assert p3 == "你, hello 好!";
    assert "Ni" + gap + "hao" + "!" == "Ni, hello hao!";
  }
}
