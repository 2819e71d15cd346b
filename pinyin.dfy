/**
  Formatting of the bracketed pinyin of a CC-CEDICT line before it is stored
  (translate.py:71-73): tone digits are removed unless tones are wanted, and the
  whole string is then either capitalized (first character upper case, the rest
  lower case) or lowered. Case mapping is restricted to the ASCII letters.
 */
module Pinyin {

  /** The characters of the character class `[1234567890]`. */
  predicate IsToneDigit(c: char) { '0' <= c <= '9' }

  predicate IsUpper(c: char) { 'A' <= c <= 'Z' }

  predicate IsLower(c: char) { 'a' <= c <= 'z' }

  predicate NoToneDigit(s: string) { forall m :: 0 <= m < |s| ==> !IsToneDigit(s[m]) }

  predicate NoUpper(s: string) { forall m :: 0 <= m < |s| ==> !IsUpper(s[m]) }

  function ToLower(c: char): (r: char)
    ensures !IsUpper(r)
    ensures IsUpper(c) ==> IsLower(r) && r as int - c as int == 'a' as int - 'A' as int
    ensures !IsUpper(c) ==> r == c
  {
    if IsUpper(c) then (c as int - 'A' as int + 'a' as int) as char else c
  }

  function ToUpper(c: char): (r: char)
    ensures !IsLower(r)
    ensures IsLower(c) ==> IsUpper(r) && ToLower(r) == c
    ensures !IsLower(c) ==> r == c
  {
    if IsLower(c) then (c as int - 'a' as int + 'A' as int) as char else c
  }

  /** `str.lower()`, on ASCII letters. */
  function Lower(s: string): (r: string)
    ensures |r| == |s|
    ensures forall m :: 0 <= m < |s| ==> r[m] == ToLower(s[m])
    ensures NoUpper(r)
  {
    if s == [] then [] else [ToLower(s[0])] + Lower(s[1..])
  }

  /** `str.capitalize()`, on ASCII letters: the first character in upper case, every other one in lower case. */
  function Capitalize(s: string): (r: string)
    ensures |r| == |s|
    ensures s != [] ==> r[0] == ToUpper(s[0]) && !IsLower(r[0])
    ensures forall m :: 1 <= m < |s| ==> r[m] == ToLower(s[m])
    ensures forall m :: 1 <= m < |r| ==> !IsUpper(r[m])
  {
    if s == [] then [] else [ToUpper(s[0])] + Lower(s[1..])
  }

  /** `re.sub("[1234567890]", "", s)`: every ASCII digit removed, every other character kept in order. */
  function StripTones(s: string): (r: string)
    ensures |r| <= |s|
    ensures NoToneDigit(r)
  {
    if s == [] then []
    else (if IsToneDigit(s[0]) then [] else [s[0]]) + StripTones(s[1..])
  }

  /** The value stored for a dictionary line whose bracketed pinyin is `raw`. */
  function Format(raw: string, tones: bool, capitalize: bool): (r: string)
    ensures |r| == |if tones then raw else StripTones(raw)|
    ensures !tones ==> NoToneDigit(r)
    ensures tones ==> forall m :: 0 <= m < |r| ==> (IsToneDigit(r[m]) <==> IsToneDigit(raw[m]))
    ensures !capitalize ==> NoUpper(r)
    ensures capitalize ==> forall m :: 1 <= m < |r| ==> !IsUpper(r[m])
  {
    var digits := if tones then raw else StripTones(raw);
    var cased := if !capitalize then Lower(digits) else Capitalize(digits);
    assert forall m :: 0 <= m < |digits| ==> (IsToneDigit(cased[m]) <==> IsToneDigit(digits[m]));
    assert !tones ==> NoToneDigit(digits);
    cased
  }

  /** Digit removal is a homomorphism of strings: it works character by character. */
  lemma {:induction false} StripTonesConcat(a: string, b: string)
    ensures StripTones(a + b) == StripTones(a) + StripTones(b)
  {
    if a == [] {
      assert a + b == b;
    } else {
      assert (a + b)[0] == a[0];
      assert (a + b)[1..] == a[1..] + b;
      StripTonesConcat(a[1..], b);
    }
  }

  /** Exactly the non-digits of `s` survive. */
  lemma {:induction false} StripTonesMembers(s: string)
    ensures forall c :: c in StripTones(s) <==> c in s && !IsToneDigit(c)
  {
    if s != [] {
      StripTonesMembers(s[1..]);
      assert s == [s[0]] + s[1..];
    }
  }

  /** A single character is dropped exactly when it is a digit. */
  lemma StripTonesChar(c: char)
    ensures StripTones([c]) == if IsToneDigit(c) then [] else [c]
  {
    assert [c][1..] == [];
  }

  /** A string without digits is left as it is; in particular stripping twice is stripping once. */
  lemma {:induction false} StripTonesIdentity(s: string)
    requires NoToneDigit(s)
    ensures StripTones(s) == s
  {
    if s != [] {
      StripTonesIdentity(s[1..]);
    }
  }

  /**
    Lowering and digit removal commute: when lowering, it makes no difference
    that translate.py:72 removes the digits before translate.py:73 changes case.
   */
  lemma {:induction false} StripTonesLower(s: string)
    ensures StripTones(Lower(s)) == Lower(StripTones(s))
  {
    if s != [] {
      StripTonesLower(s[1..]);
      assert Lower(s)[1..] == Lower(s[1..]);
      assert IsToneDigit(ToLower(s[0])) <==> IsToneDigit(s[0]);
    }
  }

  /** Lowering a stored lower-case value changes nothing; used by `FormatIdempotent`. */
  lemma LowerIdempotent(s: string)
    ensures Lower(Lower(s)) == Lower(s)
  {
  }

  /** Capitalizing is lowering everything but the first character, which is put in upper case. */
  lemma {:induction false} CapitalizeIsLowerButFirst(s: string)
    requires s != []
    ensures Capitalize(s) == [ToUpper(Lower(s)[0])] + Lower(s)[1..]
  {
    if IsUpper(s[0]) {
      assert ToUpper(ToLower(s[0])) == s[0];
    }
  }

  /** Capitalizing a stored capitalized value changes nothing; used by `FormatIdempotent`. */
  lemma CapitalizeIdempotent(s: string)
    ensures Capitalize(Capitalize(s)) == Capitalize(s)
  {
  }

  /**
    Formatting is a projection: a value already stored with the same options is
    stored unchanged.
   */
  lemma FormatIdempotent(raw: string, tones: bool, capitalize: bool)
    ensures Format(Format(raw, tones, capitalize), tones, capitalize) == Format(raw, tones, capitalize)
  {
    var digits := if tones then raw else StripTones(raw);
    var once := Format(raw, tones, capitalize);
    if !tones {
      StripTonesIdentity(once);
    }
    if capitalize {
      CapitalizeIdempotent(digits);
    } else {
      LowerIdempotent(digits);
    }
  }

  /** "ni hao" capitalizes to "Ni hao": only the first syllable is affected. */
  lemma CapitalizeNiHao()
    ensures Capitalize("ni hao") == "Ni hao"
  {
  }

  /** Without tones, "ni3 hao3" loses its two digits and nothing else. */
  lemma StripNiHao()
    ensures StripTones("ni3 hao3") == "ni hao"
  {
    assert "ni3 hao3" == "ni3" + " hao3";
    StripTonesConcat("ni3", " hao3");
    StripNi();
    StripHao();
  }

  /** The first syllable of the example. */
  lemma StripNi()
    ensures StripTones("ni3") == "ni"
  {
    assert "ni3" == "ni" + "3";
    StripTonesConcat("ni", "3");
    StripTonesIdentity("ni");
    StripTonesChar('3');
  }

  /** The second syllable of the example, with the space before it. */
  lemma StripHao()
    ensures StripTones(" hao3") == " hao"
  {
    assert " hao3" == " hao" + "3";
    StripTonesConcat(" hao", "3");
    StripTonesIdentity(" hao");
    StripTonesChar('3');
  }

  /** Without tones and capitalized, "ni3 hao3" is stored as "Ni hao". */
  lemma FormatNiHaoCapitalized()
    ensures Format("ni3 hao3", false, true) == "Ni hao"
  {
    StripNiHao();
    CapitalizeNiHao();
  }

  /** Without tones and lowered, "ni3 hao3" is stored as "ni hao". */
  lemma FormatNiHaoLowered()
    ensures Format("ni3 hao3", false, false) == "ni hao"
  {
    StripNiHao();
    assert Lower("ni hao") == "ni hao";
  }

  /** With tones, the digits of "ni3 hao3" stay. */
  lemma FormatNiHaoWithTones()
    ensures Format("ni3 hao3", true, false) == "ni3 hao3"
  {
    assert Lower("ni3 hao3") == "ni3 hao3";
  }

  /** The pinyin `ni3` is stored as "Ni" without tones and capitalized. */
  lemma FormatNi()
    ensures Format("ni3", false, true) == "Ni"
  {
    StripNi();
  }
}
