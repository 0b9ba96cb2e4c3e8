/**
 * src/components/CoolCard.tsx, `hexToRgb`: a colour written as an optional
 * "#" and three two-digit hexadecimal components, letters in either case;
 * anything else falls back to the card's default purple.
 */
module CoolCard {
  import opened Wrappers
  import opened Strings

  datatype Rgb = Rgb(r: int, g: int, b: int)

  /** The `{ r: 124, g: 58, b: 237 }` used when the text is not a colour. */
  const Fallback := Rgb(124, 58, 237)

  /** The card's default `color` prop. */
  const DefaultColor := "#7c3aed"

  /** `[a-f\d]` under the `i` flag. */
  predicate IsHexDigit(c: char) {
    IsDigit(c) || ('a' <= c <= 'f') || ('A' <= c <= 'F')
  }

  function HexValue(c: char): (v: nat)
    requires IsHexDigit(c)
    ensures v < 16
  {
    if IsDigit(c) then c as int - '0' as int
    else if 'a' <= c <= 'f' then c as int - 'a' as int + 10
    else c as int - 'A' as int + 10
  }

  /** `parseInt(pair, 16)` of two hex digits. */
  function PairValue(hi: char, lo: char): (v: nat)
    requires IsHexDigit(hi) && IsHexDigit(lo)
    ensures v < 256
  {
    HexValue(hi) * 16 + HexValue(lo)
  }

  /** Six hex digits. */
  predicate IsHexBody(s: string) {
    |s| == 6 && forall i :: 0 <= i < 6 ==> IsHexDigit(s[i])
  }

  /** The text the pattern accepts: the body, with or without one leading "#". */
  function HexBody(s: string): (body: string)
    ensures |body| <= |s|
  {
    if |s| > 0 && s[0] == '#' then s[1..] else s
  }

  predicate Accepted(s: string) {
    IsHexBody(HexBody(s))
  }

  /** The pattern match: the three components, or `None` when the text does not match. */
  function ParseHex(s: string): (c: Option<Rgb>)
    ensures c.Some? <==> Accepted(s)
    ensures c.Some? ==> 0 <= c.value.r < 256 && 0 <= c.value.g < 256 && 0 <= c.value.b < 256
  {
    var body := HexBody(s);
    if IsHexBody(body) then
      Some(Rgb(PairValue(body[0], body[1]), PairValue(body[2], body[3]), PairValue(body[4], body[5])))
    else None
  }

  /** `hexToRgb`: the components in 0..255, or the fallback. */
  function HexToRgb(s: string): (c: Rgb)
    ensures 0 <= c.r < 256 && 0 <= c.g < 256 && 0 <= c.b < 256
    ensures !Accepted(s) ==> c == Fallback
    ensures Accepted(s) ==> Some(c) == ParseHex(s)
  {
    ParseHex(s).GetOr(Fallback)
  }

  // ---------------------------------------------------------------------------
  // An encoder to relate the parser to

  function HexDigit(v: nat): (c: char)
    requires v < 16
    ensures IsHexDigit(c) && HexValue(c) == v
    ensures !IsUpper(c)
  {
    if v < 10 then ('0' as int + v) as char else ('a' as int + v - 10) as char
  }

  predicate InRange(c: Rgb) {
    0 <= c.r < 256 && 0 <= c.g < 256 && 0 <= c.b < 256
  }

  function Pair(v: nat): (s: string)
    requires v < 256
    ensures |s| == 2 && IsHexDigit(s[0]) && IsHexDigit(s[1]) && PairValue(s[0], s[1]) == v
  {
    [HexDigit(v / 16), HexDigit(v % 16)]
  }

  /** `#rrggbb` in lower case. */
  function ToHex(c: Rgb): (s: string)
    requires InRange(c)
    ensures |s| == 7 && s[0] == '#'
  {
    "#" + Pair(c.r) + Pair(c.g) + Pair(c.b)
  }

  /** Writing a colour and reading it back gives the same components. */
  lemma ParseToHex(c: Rgb)
    requires InRange(c)
    ensures ParseHex(ToHex(c)) == Some(c)
  {
    var s := ToHex(c);
    assert HexBody(s) == Pair(c.r) + Pair(c.g) + Pair(c.b);
  }

  lemma DigitRoundTrip(c: char)
    requires IsHexDigit(c)
    ensures HexDigit(HexValue(c)) == LowerChar(c)
  {
  }

  lemma PairRoundTrip(hi: char, lo: char)
    requires IsHexDigit(hi) && IsHexDigit(lo)
    ensures Pair(PairValue(hi, lo)) == [LowerChar(hi), LowerChar(lo)]
  {
    var v := PairValue(hi, lo);
    assert v / 16 == HexValue(hi) && v % 16 == HexValue(lo);
    DigitRoundTrip(hi);
    DigitRoundTrip(lo);
  }

  /** Reading an accepted text and writing it back gives its body in lower case, with a "#". */
  lemma ToHexParse(s: string)
    requires Accepted(s)
    ensures ToHex(ParseHex(s).value) == "#" + Lower(HexBody(s))
  {
    var b := HexBody(s);
    PairRoundTrip(b[0], b[1]);
    PairRoundTrip(b[2], b[3]);
    PairRoundTrip(b[4], b[5]);
    var l := Lower(b);
    assert l == [l[0], l[1]] + [l[2], l[3]] + [l[4], l[5]];
  }

  /** The default colour reads as exactly the fallback, so a bad colour and the default look alike. */
  lemma DefaultIsFallback()
    ensures Accepted(DefaultColor)
    ensures HexToRgb(DefaultColor) == Fallback
  {
    assert HexBody(DefaultColor) == "7c3aed";
  }

  /** Lower-casing never changes whether a character is a hex digit, nor its value. */
  lemma LowerHexDigit(c: char)
    ensures IsHexDigit(LowerChar(c)) <==> IsHexDigit(c)
    ensures IsHexDigit(c) ==> HexValue(LowerChar(c)) == HexValue(c)
  {
  }

  /** Upper- and lower-case spellings read the same. */
  lemma CaseInsensitive(s: string)
    ensures HexToRgb(Lower(s)) == HexToRgb(s)
  {
    var l := Lower(s);
    assert HexBody(l) == Lower(HexBody(s));
    forall i | 0 <= i < |s| ensures IsHexDigit(l[i]) <==> IsHexDigit(s[i]) {
      LowerHexDigit(s[i]);
    }
    if Accepted(s) {
      forall i | 0 <= i < 6 ensures HexValue(HexBody(l)[i]) == HexValue(HexBody(s)[i]) {
        LowerHexDigit(HexBody(s)[i]);
      }
    }
  }

  /** The "#" is optional: a text without one reads the same as with one. */
  lemma HashOptional(s: string)
    requires |s| == 0 || s[0] != '#'
    ensures HexToRgb("#" + s) == HexToRgb(s)
  {
    assert ("#" + s)[1..] == s;
  }

  /** Only one "#" is allowed. */
  lemma DoubleHashRejected(s: string)
    ensures !Accepted("##" + s)
  {
    assert HexBody("##" + s)[0] == '#';
  }
}
