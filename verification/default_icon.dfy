/**
 * src/app/api/default-icon/route.ts: the placeholder badge, a letter on a
 * background colour derived from a 31-multiplier string hash computed with
 * JavaScript's int32 shift.
 */
module DefaultIcon {
  import opened Wrappers
  import opened Js
  import opened Strings

  /** Inputs up to this many code units hash exactly in IEEE doubles (see `HashBound`). */
  const MaxExactLength: int := 0x20_0000

  /** `hash << 5`: both the operand and the result pass through ToInt32. */
  function ShiftLeft5(h: int): int {
    ToInt32(ToInt32(h) * 32)
  }

  /** One loop step: `hash = code + ((hash << 5) - hash)`. */
  function HashStep(h: int, c: char): int {
    c as int + (ShiftLeft5(h) - h)
  }

  /**
   * The hash of a string, folded left from 0. Each step moves the value by at
   * most 2^32, so for fewer than 2^21 code units it stays below 2^53 and the
   * source's double arithmetic is exact.
   */
  function Hash(s: string): (h: int)
    ensures -|s| * TwoTo32 <= h <= |s| * TwoTo32
    decreases |s|
  {
    if |s| == 0 then 0
    else
      var prev := Hash(s[..|s| - 1]);
      assert (|s| - 1) * TwoTo32 + TwoTo32 == |s| * TwoTo32;
      HashStep(prev, s[|s| - 1])
  }

  /** Within the precondition of the route the hash is a double-exact integer. */
  lemma HashBound(s: string)
    requires |s| < MaxExactLength
    ensures -0x20_0000_0000_0000 < Hash(s) < 0x20_0000_0000_0000
  {
    assert |s| * TwoTo32 < MaxExactLength * TwoTo32;
  }

  /** The textbook polynomial hash `Σ code(s[i]) · 31^(n-1-i)`, as a reference. */
  function Poly(s: string): nat
    decreases |s|
  {
    if |s| == 0 then 0 else 31 * Poly(s[..|s| - 1]) + s[|s| - 1] as int
  }

  /** While no prefix's hash reaches 2^26 the shift never wraps and the source computes the polynomial hash. */
  lemma {:induction false} HashIsPolynomial(s: string)
    requires forall k :: 0 <= k < |s| ==> Poly(s[..k]) < 0x400_0000
    ensures Hash(s) == Poly(s)
    decreases |s|
  {
    if |s| > 0 {
      var p := s[..|s| - 1];
      forall k | 0 <= k < |p|
        ensures Poly(p[..k]) < 0x400_0000
      {
        assert p[..k] == s[..k];
      }
      HashIsPolynomial(p);
      assert Poly(s[..|s| - 1]) < 0x400_0000;
      var h := Hash(p);
      assert ToInt32(h) == h;
      assert ToInt32(h * 32) == h * 32;
    }
  }

  /** `Math.abs(hash % 360)` with JavaScript's truncating remainder. */
  function Hue(h: int): (r: int)
    ensures 0 <= r < 360
    ensures r == Abs(h) % 360
  {
    Abs(TruncRem(h, 360))
  }

  datatype Hsl = Hsl(hue: int, saturation: int, lightness: int)

  /** `getColorFromString`: `hsl(hue, 70%, 60%)`. */
  function ColorFromString(s: string): (c: Hsl)
    requires |s| < MaxExactLength
    ensures 0 <= c.hue < 360 && c.saturation == 70 && c.lightness == 60
    ensures c.hue == Abs(Hash(s)) % 360
  {
    Hsl(Hue(Hash(s)), 70, 60)
  }

  /** The badge the route renders as SVG. */
  datatype Badge = Badge(glyph: char, background: Hsl)

  /** The text the background colour is hashed from: `name` when non-empty, else `char` (default "A"). */
  function ColorSource(charParam: Option<string>, nameParam: Option<string>): string {
    if Truthy(nameParam) then nameParam.value else OrElse(charParam, "A")
  }

  /** `GET /api/default-icon?char=…&name=…`. */
  function Get(charParam: Option<string>, nameParam: Option<string>): (b: Badge)
    requires |ColorSource(charParam, nameParam)| < MaxExactLength
    ensures !Truthy(charParam) ==> b.glyph == 'A'
    ensures Truthy(charParam) ==> b.glyph == UpperChar(charParam.value[0])
    ensures Truthy(nameParam) ==> b.background == ColorFromString(nameParam.value)
    ensures !Truthy(nameParam) ==> b.background == ColorFromString(OrElse(charParam, "A"))
  {
    var ch := OrElse(charParam, "A");
    var name := OrElse(nameParam, "");
    Badge(UpperChar(ch[0]), ColorFromString(if name != "" then name else ch))
  }

  /** Beyond its first code unit, `char` can only change the colour, and only when `name` is empty. */
  lemma GlyphUsesFirstCodeUnit(c1: string, c2: string, nameParam: Option<string>)
    requires c1 != "" && c2 != "" && c1[0] == c2[0]
    requires |ColorSource(Some(c1), nameParam)| < MaxExactLength && |ColorSource(Some(c2), nameParam)| < MaxExactLength
    ensures Get(Some(c1), nameParam).glyph == Get(Some(c2), nameParam).glyph
    ensures Truthy(nameParam) ==> Get(Some(c1), nameParam) == Get(Some(c2), nameParam)
  {
  }
}
