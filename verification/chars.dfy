/**
 * Character classes used by the text analysis functions of index.js.
 *
 * A JavaScript string is a sequence of UTF-16 code units, and `length`,
 * `split`, `trim` and the regular expressions without the `u` flag all work
 * on code units.  Dafny's `char` is a Unicode scalar value instead, so the
 * analysed text is modelled as a sequence of `CodeUnit`s.
 */
module Chars {

  /** One UTF-16 code unit, as held by a JavaScript string. */
  newtype CodeUnit = u: int | 0 <= u < 0x1_0000

  /** A JavaScript string. */
  type Text = seq<CodeUnit>

  /**
   * The class `\s` of JavaScript regular expressions, which is also the set
   * of code units that `String.prototype.trim` removes: the WhiteSpace and
   * LineTerminator productions of ECMAScript (tab, line feed, vertical tab,
   * form feed, carriage return, space, no-break space, the Unicode space
   * separators, the line and paragraph separators and the byte order mark).
   * Within ASCII these are exactly tab, line feed, vertical tab, form feed,
   * carriage return and space.
   */
  predicate IsWhitespace(u: CodeUnit): (r: bool)
    ensures u < 0x80 ==> (r <==> u == 0x20 || 0x09 <= u <= 0x0D)
  {
    || 0x09 <= u <= 0x0D
    || u == 0x20
    || u == 0xA0
    || u == 0x1680
    || 0x2000 <= u <= 0x200A
    || u == 0x2028 || u == 0x2029
    || u == 0x202F
    || u == 0x205F
    || u == 0x3000
    || u == 0xFEFF
  }

  /** The complement of `IsWhitespace`, as a named predicate for `Filter`. */
  predicate NotWhitespace(u: CodeUnit) {
    !IsWhitespace(u)
  }

  /** The class `[.!?]` that ends a sentence; a terminator is neither whitespace nor a letter. */
  predicate IsTerminator(u: CodeUnit): (r: bool)
    ensures r ==> !IsWhitespace(u) && !IsRecognized(u)
  {
    u == '.' as CodeUnit || u == '!' as CodeUnit || u == '?' as CodeUnit
  }

  /** The accented letters the density analysis recognizes, besides `a`-`z`. */
  const AccentedLetters: set<CodeUnit> := {
    'à' as CodeUnit, 'â' as CodeUnit, 'ä' as CodeUnit, 'é' as CodeUnit,
    'è' as CodeUnit, 'ê' as CodeUnit, 'ë' as CodeUnit, 'ï' as CodeUnit,
    'î' as CodeUnit, 'ô' as CodeUnit, 'ù' as CodeUnit, 'û' as CodeUnit,
    'ü' as CodeUnit, 'ÿ' as CodeUnit, 'æ' as CodeUnit, 'œ' as CodeUnit,
    'ç' as CodeUnit
  }

  /**
   * The class `[a-zàâäéèêëïîôùûüÿæœç]` kept by the density analysis.  Every
   * recognized letter lies below the surrogate range, so it is one code unit
   * and one code point alike.
   */
  predicate IsRecognized(u: CodeUnit): (r: bool)
    ensures r ==> u < 0xD800
  {
    ('a' as CodeUnit <= u <= 'z' as CodeUnit) || u in AccentedLetters
  }

  /**
   * `toLowerCase` of one code unit.  Covers the ASCII capitals, the Latin-1
   * capitals U+00C0-U+00DE (except the multiplication sign U+00D7), capital
   * Y with diaeresis, the capital ligature OE, the Kelvin sign (which
   * lowercases to ASCII `k`) and capital I with dot above (which lowercases
   * to two code units, `i` and a combining dot).  Every other code unit is
   * left as it is; no other lowercase mapping produces a recognized letter.
   */
  function LowerUnit(u: CodeUnit): (r: Text)
    ensures 1 <= |r| <= 2
    ensures IsRecognized(u) ==> r == [u]
  {
    if 'A' as CodeUnit <= u <= 'Z' as CodeUnit then [u + 0x20]
    else if 0xC0 <= u <= 0xDE && u != 0xD7 then [u + 0x20]
    else if u == 0x178 then [0xFF]
    else if u == 0x152 then [0x153]
    else if u == 0x212A then ['k' as CodeUnit]
    else if u == 0x130 then ['i' as CodeUnit, 0x307]
    else [u]
  }

  /**
   * `String.prototype.toLowerCase`, restricted to its Basic Multilingual Plane
   * mappings and applied code unit by code unit.  JavaScript maps code points,
   * but every mapping kept here lies in that plane, so the results agree.
   */
  function LowerCase(s: Text): (r: Text)
    ensures |r| >= |s|
  {
    if s == [] then [] else LowerUnit(s[0]) + LowerCase(s[1..])
  }

  /**
   * `toUpperCase` of a recognized letter: its capital, a single code unit
   * outside the recognized class (`ÿ` becomes U+0178 and `œ` U+0152; every
   * other recognized letter moves down by 0x20).
   */
  function UpperUnit(c: CodeUnit): (r: CodeUnit)
    requires IsRecognized(c)
    ensures !IsRecognized(r) && r != c
  {
    if c == 0xFF then 0x178
    else if c == 0x153 then 0x152
    else c - 0x20
  }

  /** Lowercasing the capital of a recognized letter gives the letter back. */
  lemma LowerUpper(c: CodeUnit)
    requires IsRecognized(c)
    ensures LowerUnit(UpperUnit(c)) == [c]
  {
  }

  predicate AllRecognized(t: Text) {
    forall k :: 0 <= k < |t| ==> IsRecognized(t[k])
  }

  /** `toUpperCase` of a text of recognized letters. */
  function Upper(t: Text): (r: Text)
    requires AllRecognized(t)
    ensures |r| == |t|
    ensures forall k :: 0 <= k < |r| ==> !IsRecognized(r[k]) && r[k] == UpperUnit(t[k])
  {
    if t == [] then [] else [UpperUnit(t[0])] + Upper(t[1..])
  }

  /** Lowercasing undoes uppercasing on recognized letters. */
  lemma {:induction false} LowerCaseUpper(t: Text)
    requires AllRecognized(t)
    ensures LowerCase(Upper(t)) == t
  {
    if t != [] {
      var u := Upper(t);
      assert u[1..] == Upper(t[1..]);
      LowerUpper(t[0]);
      LowerCaseUpper(t[1..]);
    }
  }

  /** The UTF-16 encoding of a Dafny string: how JavaScript stores it. */
  function Utf16(s: string): (r: Text)
    ensures |r| >= |s|
  {
    if s == [] then []
    else
      var c := s[0] as int;
      var head: Text :=
        if c < 0x1_0000 then [c as CodeUnit]
        else [(0xD800 + (c - 0x1_0000) / 0x400) as CodeUnit,
              (0xDC00 + (c - 0x1_0000) % 0x400) as CodeUnit];
      head + Utf16(s[1..])
  }
}
