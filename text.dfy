/**
 * Character classes and string operations of Python's `str` that the bot relies on:
 * `strip`, `lower`, `startswith`, `in` (substring), `isalpha`, `split`, `int()` and `str()`.
 * Strings are `seq<char>` over Unicode scalar values.
 */
module Text {
  import opened Wrappers

  /** Python's `str.isspace` (the characters Python treats as whitespace). */
  predicate IsSpace(c: char) {
    ('\t' <= c <= '\r') || ('\U{1C}' <= c <= '\U{1F}') || c == ' ' || c == '\U{85}' || c == '\U{A0}'
    || c == '\U{1680}' || ('\U{2000}' <= c <= '\U{200A}') || c == '\U{2028}' || c == '\U{2029}'
    || c == '\U{202F}' || c == '\U{205F}' || c == '\U{3000}'
  }

  /**
   * Python's `str.isalpha`, restricted to the scripts the bot meets: ASCII and Latin-1
   * letters, hiragana, katakana, CJK ideographs and Hangul syllables.
   */
  predicate IsAlpha(c: char) {
    ('a' <= c <= 'z') || ('A' <= c <= 'Z')
    || c == '\U{AA}' || c == '\U{B5}' || c == '\U{BA}'
    || ('\U{C0}' <= c <= '\U{FF}' && c != '\U{D7}' && c != '\U{F7}')
    || ('\U{3041}' <= c <= '\U{3096}') || ('\U{30A1}' <= c <= '\U{30FA}')
    || ('\U{3400}' <= c <= '\U{4DBF}') || ('\U{4E00}' <= c <= '\U{9FFF}')
    || ('\U{AC00}' <= c <= '\U{D7A3}')
  }

  predicate IsDecimal(c: char) {
    '0' <= c <= '9'
  }

  /** The regular-expression class `\w`: letters, digits and the underscore. */
  predicate IsWordChar(c: char) {
    IsAlpha(c) || IsDecimal(c) || c == '_'
  }

  lemma WordCharIsNotSpace(c: char)
    ensures IsWordChar(c) ==> !IsSpace(c)
  {
  }

  /** Python's `str.lower` on one character (ASCII and Latin-1 capitals). */
  function LowerChar(c: char): (r: char)
    ensures IsSpace(r) == IsSpace(c)
    ensures IsWordChar(r) == IsWordChar(c)
    ensures 'A' <= c <= 'Z' ==> 'a' <= r <= 'z'
    ensures !('A' <= c <= 'Z') && !('\U{C0}' <= c <= '\U{DE}') ==> r == c
  {
    if 'A' <= c <= 'Z' || ('\U{C0}' <= c <= '\U{DE}' && c != '\U{D7}') then
      (c as int + 32) as char
    else
      c
  }

  function ToLower(s: string): (r: string)
    ensures |r| == |s|
    ensures forall i :: 0 <= i < |s| ==> r[i] == LowerChar(s[i])
  {
    seq(|s|, i requires 0 <= i < |s| => LowerChar(s[i]))
  }

  predicate StartsWith(s: string, prefix: string) {
    |prefix| <= |s| && s[..|prefix|] == prefix
  }

  /** Python's `needle in haystack` for strings. */
  predicate Contains(haystack: string, needle: string)
    decreases |haystack|
  {
    StartsWith(haystack, needle) || (haystack != [] && Contains(haystack[1..], needle))
  }

  /** `Contains` holds exactly when the needle occurs at some offset. */
  lemma {:induction false} ContainsAt(haystack: string, needle: string, i: nat)
    requires i + |needle| <= |haystack| && haystack[i..i + |needle|] == needle
    ensures Contains(haystack, needle)
    decreases i
  {
    if i > 0 {
      assert haystack[1..][i - 1..i - 1 + |needle|] == haystack[i..i + |needle|];
      ContainsAt(haystack[1..], needle, i - 1);
    }
  }

  lemma {:induction false} ContainsWitness(haystack: string, needle: string) returns (i: nat)
    requires Contains(haystack, needle)
    ensures i + |needle| <= |haystack| && haystack[i..i + |needle|] == needle
    decreases |haystack|
  {
    if StartsWith(haystack, needle) {
      i := 0;
    } else {
      var j := ContainsWitness(haystack[1..], needle);
      assert haystack[1..][j..j + |needle|] == haystack[j + 1..j + 1 + |needle|];
      i := j + 1;
    }
  }

  /** Drops leading whitespace (`str.lstrip()`). */
  function TrimLeft(s: string): (r: string)
    ensures |r| <= |s| && r == s[|s| - |r|..]
    ensures r != [] ==> !IsSpace(r[0])
    ensures forall i :: 0 <= i < |s| - |r| ==> IsSpace(s[i])
  {
    if s != [] && IsSpace(s[0]) then TrimLeft(s[1..]) else s
  }

  /** Drops trailing whitespace (`str.rstrip()`). */
  function TrimRight(s: string): (r: string)
    ensures |r| <= |s| && r == s[..|r|]
    ensures r != [] ==> !IsSpace(r[|r| - 1])
    ensures forall i :: |r| <= i < |s| ==> IsSpace(s[i])
  {
    if s != [] && IsSpace(s[|s| - 1]) then TrimRight(s[..|s| - 1]) else s
  }

  /** Python's `str.strip()`. */
  function Strip(s: string): (r: string)
    ensures |r| <= |s|
    ensures r != [] ==> !IsSpace(r[0]) && !IsSpace(r[|r| - 1])
    ensures r == [] <==> forall i :: 0 <= i < |s| ==> IsSpace(s[i])
    ensures (forall i :: 0 <= i < |s| ==> !IsSpace(s[i])) ==> r == s
    ensures forall c :: c in r ==> c in s
  {
    var t := TrimLeft(s);
    var u := TrimRight(t);
    assert forall i :: 0 <= i < |t| ==> t[i] == s[|s| - |t| + i];
    u
  }

  /** Python's `str(n)` for a natural number. */
  function NatToString(n: nat): (r: string)
    ensures |r| >= 1
    ensures forall c :: c in r ==> IsDecimal(c)
  {
    if n < 10 then [Digit(n)] else NatToString(n / 10) + [Digit(n % 10)]
  }

  function Digit(d: nat): (c: char)
    requires d < 10
    ensures IsDecimal(c) && c as int - '0' as int == d
  {
    ('0' as int + d) as char
  }

  function DigitsValue(ds: string): nat
    requires forall c :: c in ds ==> IsDecimal(c)
  {
    if ds == [] then 0
    else
      assert ds[|ds| - 1] in ds;
      DigitsValue(ds[..|ds| - 1]) * 10 + DecimalValue(ds[|ds| - 1])
  }

  function DecimalValue(c: char): (d: nat)
    requires IsDecimal(c)
    ensures d < 10
  {
    c as int - '0' as int
  }

  lemma {:induction false} NatToStringValue(n: nat)
    ensures DigitsValue(NatToString(n)) == n
  {
    var r := NatToString(n);
    if n >= 10 {
      NatToStringValue(n / 10);
      assert r[..|r| - 1] == NatToString(n / 10);
    }
  }

  /**
   * Python's `int(s)` on the decimal forms: surrounding whitespace, an optional sign,
   * then one or more ASCII digits. Anything else is the `ValueError` case, `None`.
   */
  function ParseInt(s: string): (r: Option<int>)
    ensures r.Some? ==> Strip(s) != []
  {
    var t := Strip(s);
    if t == [] then None
    else
      var negative := t[0] == '-';
      var body := if t[0] == '-' || t[0] == '+' then t[1..] else t;
      if body != [] && forall c :: c in body ==> IsDecimal(c) then
        var magnitude: int := DigitsValue(body);
        Some(if negative then -magnitude else magnitude)
      else None
  }

  lemma ParseIntOfNatToString(n: nat)
    ensures ParseInt(NatToString(n)) == Some(n)
  {
    ParseIntOfDigits(NatToString(n));
    NatToStringValue(n);
  }

  /** Python's `str(i)` for any integer; chat ids of groups are negative. */
  function IntToString(i: int): (r: string)
    ensures |r| >= 1
    ensures r[0] == '-' <==> i < 0
  {
    if i < 0 then "-" + NatToString(-i)
    else
      var ds := NatToString(i);
      assert ds[0] in ds;
      ds
  }

  /** `int(str(i)) == i`: ids survive the round trip through their stored text form. */
  lemma ParseIntOfIntToString(i: int)
    ensures ParseInt(IntToString(i)) == Some(i)
  {
    if i < 0 {
      var ds := NatToString(-i);
      assert IntToString(i) == "-" + ds;
      ParseIntOfNegativeDigits(ds);
      NatToStringValue(-i);
      assert -(DigitsValue(ds) as int) == i;
    } else {
      assert IntToString(i) == NatToString(i);
      ParseIntOfNatToString(i);
    }
  }

  lemma ParseIntOfNegativeDigits(ds: string)
    requires ds != [] && forall c :: c in ds ==> IsDecimal(c)
    ensures ParseInt("-" + ds) == Some(-(DigitsValue(ds) as int))
  {
    var r := "-" + ds;
    NoSpaceInSigned(ds);
    assert r[1..] == ds;
    ParseIntOfSigned(r);
  }

  lemma ParseIntOfSigned(r: string)
    requires |r| >= 2 && r[0] == '-' && forall c :: c in r[1..] ==> IsDecimal(c)
    requires forall i :: 0 <= i < |r| ==> !IsSpace(r[i])
    ensures ParseInt(r) == Some(-(DigitsValue(r[1..]) as int))
  {
    StripOfSpaceFree(r);
  }

  lemma StripOfSpaceFree(r: string)
    requires forall i :: 0 <= i < |r| ==> !IsSpace(r[i])
    ensures Strip(r) == r
  {
  }

  lemma NoSpaceInSigned(ds: string)
    requires forall c :: c in ds ==> IsDecimal(c)
    ensures forall i :: 0 <= i < |"-" + ds| ==> !IsSpace(("-" + ds)[i])
  {
    forall i | 0 <= i < |"-" + ds| ensures !IsSpace(("-" + ds)[i]) {
      if i > 0 { assert ("-" + ds)[i] == ds[i - 1]; assert ds[i - 1] in ds; }
    }
  }

  lemma ParseIntOfDigits(r: string)
    requires r != [] && forall c :: c in r ==> IsDecimal(c)
    ensures ParseInt(r) == Some(DigitsValue(r) as int)
  {
    NoSpaceInDigits(r);
    assert Strip(r) == r;
    assert r[0] in r;
  }

  lemma NoSpaceInDigits(r: string)
    requires forall c :: c in r ==> IsDecimal(c)
    ensures forall i :: 0 <= i < |r| ==> !IsSpace(r[i])
  {
    forall i | 0 <= i < |r| ensures !IsSpace(r[i]) {
      assert r[i] in r;
    }
  }
}
