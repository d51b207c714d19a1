/**
 * The Python `str` primitives the cleaners are built from: the whitespace
 * class of `str.isspace`, `str.strip` with and without an argument, and
 * `str.lower`.
 */
module PyText {

  /**
   * The characters Python's `str.isspace` accepts, which `str.strip()` with
   * no argument removes: the ASCII controls TAB to CR, the separators
   * U+001C to U+001F, SPACE, NEL, NO-BREAK SPACE and the Unicode spaces
   * (U+1680, U+2000 to U+200A, U+2028, U+2029, U+202F, U+205F, U+3000),
   * listed one by one.
   */
  predicate IsSpace(c: char) {
    || c == '\t' || c == '\n' || c == '\U{B}' || c == '\U{C}'
    || c == '\r' || c == '\U{1C}' || c == '\U{1D}' || c == '\U{1E}'
    || c == '\U{1F}' || c == ' ' || c == '\U{85}' || c == '\U{A0}'
    || c == '\U{1680}' || c == '\U{2000}' || c == '\U{2001}' || c == '\U{2002}'
    || c == '\U{2003}' || c == '\U{2004}' || c == '\U{2005}' || c == '\U{2006}'
    || c == '\U{2007}' || c == '\U{2008}' || c == '\U{2009}' || c == '\U{200A}'
    || c == '\U{2028}' || c == '\U{2029}' || c == '\U{202F}' || c == '\U{205F}'
    || c == '\U{3000}'
  }

  predicate IsAscii(c: char) { c < '\U{80}' }

  /** Every character of `s` satisfies `p`. */
  predicate AllChars(s: string, p: char -> bool) {
    forall i :: 0 <= i < |s| ==> p(s[i])
  }

  predicate AllAscii(s: string) {
    AllChars(s, IsAscii)
  }

  predicate IsAsciiUpper(c: char) { 'A' <= c <= 'Z' }

  predicate IsAsciiLower(c: char) { 'a' <= c <= 'z' }

  predicate IsAsciiDigit(c: char) { '0' <= c <= '9' }

  /** The class `[a-zA-Z0-9]` of a regular expression without flags. */
  predicate IsAsciiAlnum(c: char) {
    IsAsciiUpper(c) || IsAsciiLower(c) || IsAsciiDigit(c)
  }

  /** The Latin-1 capitals U+00C0 to U+00DE, the multiplication sign excepted. */
  predicate IsLatin1Upper(c: char) {
    '\U{C0}' <= c <= '\U{DE}' && c != '\U{D7}'
  }

  /**
   * Python's `str.lower` on one character of the ASCII and Latin-1 blocks:
   * each capital becomes its own small letter, read off the two alphabets
   * below, and every other character is kept.
   */
  function LowerChar(c: char): (d: char)
    ensures IsAsciiUpper(c) ==> d == "abcdefghijklmnopqrstuvwxyz"[c as int - 'A' as int]
    ensures '\U{C0}' <= c <= '\U{D6}' ==> d == "àáâãäåæçèéêëìíîïðñòóôõö"[c as int - 0xC0]
    ensures '\U{D8}' <= c <= '\U{DE}' ==> d == "øùúûüýþ"[c as int - 0xD8]
    ensures !IsAsciiUpper(d) && !IsLatin1Upper(d)
    ensures !IsAsciiUpper(c) && !IsLatin1Upper(c) ==> d == c
    ensures IsAsciiUpper(c) ==> IsAsciiLower(d)
    ensures IsAscii(d) <==> IsAscii(c)
    ensures IsAsciiAlnum(d) <==> IsAsciiAlnum(c)
  {
    if IsAsciiUpper(c) || IsLatin1Upper(c) then (c as int + 32) as char else c
  }

  /**
   * The model's lower-casing (ASCII and Latin-1 capitals only), character by
   * character: the length is kept, each character is lower-cased by
   * `LowerChar`, no capital is left, and `[a-zA-Z0-9]` is kept at each position.
   */
  function Lower(s: string): (r: string)
    ensures |r| == |s|
    ensures forall i :: 0 <= i < |s| ==> r[i] == LowerChar(s[i])
    ensures forall i :: 0 <= i < |r| ==> !IsAsciiUpper(r[i]) && !IsLatin1Upper(r[i])
    ensures forall i :: 0 <= i < |r| ==> (IsAsciiAlnum(r[i]) <==> IsAsciiAlnum(s[i]))
  {
    seq(|s|, i requires 0 <= i < |s| => LowerChar(s[i]))
  }

  /** Python's `str.lstrip(chars)`, the characters given by `drop`. */
  function LStrip(s: string, drop: char -> bool): (r: string)
    ensures |r| <= |s| && r == s[|s| - |r|..]
    ensures forall i :: 0 <= i < |s| - |r| ==> drop(s[i])
    ensures r == [] || !drop(r[0])
    decreases |s|
  {
    if s != [] && drop(s[0]) then LStrip(s[1..], drop) else s
  }

  /** Python's `str.rstrip(chars)`, the characters given by `drop`. */
  function RStrip(s: string, drop: char -> bool): (r: string)
    ensures |r| <= |s| && r == s[..|r|]
    ensures forall i :: |r| <= i < |s| ==> drop(s[i])
    ensures r == [] || !drop(r[|r| - 1])
    decreases |s|
  {
    if s != [] && drop(s[|s| - 1]) then RStrip(s[..|s| - 1], drop) else s
  }

  /** How many leading characters `str.lstrip(chars)` removes. */
  function LeadCount(s: string, drop: char -> bool): (n: nat)
    ensures n <= |s|
  {
    |s| - |LStrip(s, drop)|
  }

  /**
   * Python's `str.strip(chars)`: the longest middle slice of `s` that
   * neither starts nor ends with a character `drop` accepts.
   */
  function StripChars(s: string, drop: char -> bool): (r: string)
    ensures LeadCount(s, drop) + |r| <= |s|
    ensures r == s[LeadCount(s, drop)..LeadCount(s, drop) + |r|]
    ensures forall i :: 0 <= i < LeadCount(s, drop) ==> drop(s[i])
    ensures forall i :: LeadCount(s, drop) + |r| <= i < |s| ==> drop(s[i])
    ensures r == [] || (!drop(r[0]) && !drop(r[|r| - 1]))
  {
    var left := LStrip(s, drop);
    var r := RStrip(left, drop);
    assert r == s[|s| - |left|..|s| - |left| + |r|];
    r
  }

  /** Neither end of `s` is whitespace. */
  predicate Trimmed(s: string) {
    s == [] || (!IsSpace(s[0]) && !IsSpace(s[|s| - 1]))
  }

  /**
   * Python's `str.strip()`: the middle slice of `s` left once the leading
   * and the trailing whitespace are removed; neither of its ends is whitespace.
   */
  function Strip(s: string): (r: string)
    ensures Trimmed(r)
    ensures LeadCount(s, IsSpace) + |r| <= |s| && r == s[LeadCount(s, IsSpace)..LeadCount(s, IsSpace) + |r|]
    ensures forall i :: LeadCount(s, IsSpace) + |r| <= i < |s| ==> IsSpace(s[i])
  {
    StripChars(s, IsSpace)
  }

  /** After `str.strip()` neither end is whitespace. */
  lemma StripEnds(s: string)
    ensures Trimmed(Strip(s))
  {
  }

  /** `str.strip` leaves alone a string that neither starts nor ends with a stripped character. */
  lemma StripCharsNoop(s: string, drop: char -> bool)
    requires s == [] || (!drop(s[0]) && !drop(s[|s| - 1]))
    ensures StripChars(s, drop) == s
  {
    var left := LStrip(s, drop);
    assert left == s;
  }

  /** One stripped character at each end of an unstripped middle comes off. */
  lemma StripCharsEnclosed(m: string, c: char, drop: char -> bool)
    requires drop(c) && m != [] && !drop(m[0]) && !drop(m[|m| - 1])
    ensures StripChars([c] + m + [c], drop) == m
  {
    var s := [c] + m + [c];
    assert s[1..] == m + [c];
    assert LStrip(m + [c], drop) == m + [c];
    assert (m + [c])[..|m|] == m;
    assert RStrip(m, drop) == m;
  }

  /** A string made only of stripped characters strips to the empty string. */
  lemma StripCharsAllDropped(s: string, drop: char -> bool)
    requires forall i :: 0 <= i < |s| ==> drop(s[i])
    ensures StripChars(s, drop) == []
  {
  }

  /** Stripping removes characters and adds none. */
  lemma StripCharsKeeps(s: string, drop: char -> bool, p: char -> bool)
    requires AllChars(s, p)
    ensures AllChars(StripChars(s, drop), p)
  {
    var r := StripChars(s, drop);
    forall i | 0 <= i < |r| ensures p(r[i]) {
      assert r[i] == s[LeadCount(s, drop) + i];
    }
  }

  /** `str.lower` leaves a string alone that has no capitals. */
  lemma LowerNoop(s: string)
    requires forall i :: 0 <= i < |s| ==> !IsAsciiUpper(s[i]) && !IsLatin1Upper(s[i])
    ensures Lower(s) == s
  {
  }
}
