/**
  The hexadecimal colour type of imagist.go: `HexToRGB`, `RGBToHex`, the
  `RGBA` method of `Hex` and `hexModel`, with Go's `color.Color` interface
  narrowed to a closed set of colour representations.
*/
module HexColor {
  import opened Wrappers
  import opened GoInts
  import opened Strconv

  /** An 8-bit RGB triple, the result of HexToRGB and the argument of RGBToHex. */
  datatype Rgb = Rgb(r: uint8, g: uint8, b: uint8)

  /** The fallback colour of a malformed hex string. */
  const Black := Rgb(0, 0, 0)

  // ------------------------------------------------------------- decoding

  /** Drop one leading `#`, if there is one. */
  function StripHash(h: string): string
  {
    if |h| > 0 && h[0] == '#' then h[1..] else h
  }

  /** Double every digit of a three-digit shorthand; leave any other length alone. */
  function Expand(s: string): string
  {
    if |s| == 3 then s[..1] + s[..1] + s[1..2] + s[1..2] + s[2..] + s[2..] else s
  }

  /**
    HexToRGB: strip one `#`, expand a shorthand, and read exactly six hex
    digits as 0xRRGGBB; every other input is black. Measured against the
    reference reading: a well-formed string decodes digit pair by digit pair
    (after expansion), and every other string is black.
  */
  function HexToRGB(h: string): (c: Rgb)
    ensures WellFormed(h) ==> |Expand(StripHash(h))| == 6 && AllDigitsIn(Expand(StripHash(h)), 16)
    ensures c == if WellFormed(h) then DecodeDigits(Expand(StripHash(h))) else Black
  {
    var s := Expand(StripHash(h));
    ExpandWellFormed(h);
    SixDigitDecode(s);
    if |s| == 6 then
      match ParseUint(s, 16, 32)
      case Ok(rgb) => Rgb(Uint8(rgb / 0x1_0000), Uint8(rgb / 0x100 % 0x100), Uint8(rgb % 0x100))
      case Err(_) => Black
    else Black
  }

  /** The strings HexToRGB reads: 3 or 6 hex digits, after one optional `#`. */
  predicate WellFormed(h: string)
  {
    var s := StripHash(h);
    (|s| == 3 || |s| == 6) && AllDigitsIn(s, 16)
  }

  /** Two hex digits, high one first, as a byte. */
  function PairValue(hi: char, lo: char): uint8
    requires IsDigitIn(hi, 16) && IsDigitIn(lo, 16)
  {
    DigitValue(hi).value * 16 + DigitValue(lo).value
  }

  /** The reference reading of six hex digits: two per channel, red first. */
  function DecodeDigits(s: string): Rgb
    requires |s| == 6 && AllDigitsIn(s, 16)
  {
    Rgb(PairValue(s[0], s[1]), PairValue(s[2], s[3]), PairValue(s[4], s[5]))
  }

  lemma ExpandShape(s: string)
    requires |s| == 3
    ensures Expand(s) == [s[0], s[0], s[1], s[1], s[2], s[2]]
  {
  }

  /** The expanded string is six hex digits exactly when the input is well formed. */
  lemma ExpandWellFormed(h: string)
    ensures var s := Expand(StripHash(h));
            WellFormed(h) <==> |s| == 6 && AllDigitsIn(s, 16)
  {
    var t := StripHash(h);
    if |t| == 3 {
      ExpandShape(t);
      var s := Expand(t);
      if AllDigitsIn(s, 16) {
        assert IsDigitIn(s[0], 16) && IsDigitIn(s[2], 16) && IsDigitIn(s[4], 16);
        forall i | 0 <= i < 3 ensures IsDigitIn(t[i], 16) {
          assert t[i] == s[2 * i];
        }
      }
    }
  }

  /** Six hex digits are worth R * 0x10000 + G * 0x100 + B. */
  lemma SixDigitValue(s: string)
    requires |s| == 6 && AllDigitsIn(s, 16)
    ensures Value(s, 16) == PairValue(s[0], s[1]) * 0x1_0000 + PairValue(s[2], s[3]) * 0x100
                            + PairValue(s[4], s[5])
  {
    ValueDropLast(s, 16);
    assert s[..5][..4] == s[..4] && s[..4][..3] == s[..3] && s[..3][..2] == s[..2];
    assert s[..2][..1] == s[..1] && s[..1][..0] == [];
    ValueDropLast(s[..5], 16);
    ValueDropLast(s[..4], 16);
    ValueDropLast(s[..3], 16);
    ValueDropLast(s[..2], 16);
    ValueDropLast(s[..1], 16);
  }

  /** Six hex digits parse as a 32-bit value whose three bytes are the reference pairs. */
  lemma SixDigitDecode(s: string)
    ensures |s| == 6 && AllDigitsIn(s, 16) ==>
      var rgb := Value(s, 16);
      && ParseUint(s, 16, 32) == Ok(rgb)
      && Rgb(Uint8(rgb / 0x1_0000), Uint8(rgb / 0x100 % 0x100), Uint8(rgb % 0x100)) == DecodeDigits(s)
  {
    if |s| == 6 && AllDigitsIn(s, 16) {
      SixDigitValue(s);
      var rgb := Value(s, 16);
      assert ParseUint(s, 16, 32) == Ok(rgb);
      SplitChannels(rgb, PairValue(s[0], s[1]), PairValue(s[2], s[3]), PairValue(s[4], s[5]));
    }
  }

  /** The three bytes HexToRGB cuts out of 0xRRGGBB are R, G and B. */
  lemma SplitChannels(rgb: nat, r: uint8, g: uint8, b: uint8)
    requires rgb == r * 0x1_0000 + g * 0x100 + b
    ensures Uint8(rgb / 0x1_0000) == r && Uint8(rgb / 0x100 % 0x100) == g && Uint8(rgb % 0x100) == b
  {
    var low: int := g * 0x100 + b;
    assert rgb == r * 0x1_0000 + low && 0 <= low < 0x1_0000;
    assert rgb / 0x1_0000 == r;
    assert rgb / 0x100 == r * 0x100 + g;
    assert rgb % 0x100 == b;
  }

  /** A malformed string decodes to the fallback black. */
  lemma MalformedIsBlack(h: string)
    requires !WellFormed(h)
    ensures HexToRGB(h) == Black
  {
  }

  /** Typical malformed inputs: too short, a lone `#`, two `#`, too few digits, no hex digits. */
  lemma MalformedExamples()
    ensures HexToRGB("") == Black && HexToRGB("#") == Black && HexToRGB("##EEE") == Black
    ensures HexToRGB("#12") == Black && HexToRGB("zzzzzz") == Black
  {
    MalformedIsBlack("");
    MalformedIsBlack("#");
    assert StripHash("##EEE") == "#EEE";
    MalformedIsBlack("##EEE");
    assert StripHash("#12") == "12";
    MalformedIsBlack("#12");
    assert !IsDigitIn("zzzzzz"[0], 16);
    MalformedIsBlack("zzzzzz");
  }

  /** `XYZ`, `#XYZ` and `XXYYZZ` decode alike, whatever the three characters are. */
  lemma {:induction false} Shorthand(x: char, y: char, z: char)
    ensures HexToRGB([x, y, z]) == HexToRGB(['#', x, y, z])
    ensures HexToRGB([x, y, z]) == HexToRGB([x, x, y, y, z, z])
  {
    if x == '#' {
      assert !WellFormed([x, y, z]);
      assert !WellFormed(['#', x, y, z]) by { assert !IsDigitIn(StripHash(['#', x, y, z])[0], 16); }
      assert !WellFormed([x, x, y, y, z, z]);
    } else {
      assert StripHash(['#', x, y, z]) == [x, y, z];
      ExpandShape([x, y, z]);
      var six := [x, x, y, y, z, z];
      assert StripHash(six) == six;
      assert WellFormed([x, y, z]) <==> WellFormed(six) by {
        if WellFormed(six) {
          assert IsDigitIn(six[0], 16) && IsDigitIn(six[2], 16) && IsDigitIn(six[4], 16);
        }
      }
    }
  }

  // ------------------------------------------------------------- encoding

  predicate IsUpperHexDigit(c: char) { '0' <= c <= '9' || 'A' <= c <= 'F' }

  /** The digit `%X` prints for 0..15. */
  function UpperHexDigit(n: nat): (c: char)
    requires n < 16
    ensures IsUpperHexDigit(c) && DigitValue(c) == Some(n)
  {
    if n < 10 then ('0' as int + n) as char else ('A' as int + n - 10) as char
  }

  /** `%02X` of a byte: two upper-case digits, zero-padded. */
  function HexByte(b: uint8): string
  {
    [UpperHexDigit(b / 16), UpperHexDigit(b % 16)]
  }

  /**
    RGBToHex: `#RRGGBB` in upper case. The six digits read back, pair by pair,
    as the three channels.
  */
  function RGBToHex(c: Rgb): (s: string)
    ensures |s| == 7 && s[0] == '#'
    ensures forall i :: 1 <= i < 7 ==> IsUpperHexDigit(s[i])
    ensures AllDigitsIn(s[1..], 16) && DecodeDigits(s[1..]) == c
  {
    "#" + HexByte(c.r) + HexByte(c.g) + HexByte(c.b)
  }

  /** Decoding what RGBToHex prints gives back the triple. */
  lemma RoundTrip(c: Rgb)
    ensures HexToRGB(RGBToHex(c)) == c
  {
    var s := RGBToHex(c);
    assert StripHash(s) == s[1..];
  }

  /** ASCII upper case; every other character is kept. */
  function UpperAscii(c: char): char
  {
    if 'a' <= c <= 'z' then (c as int - 32) as char else c
  }

  function ToUpper(s: string): (u: string)
    ensures |u| == |s|
  {
    seq(|s|, i requires 0 <= i < |s| => UpperAscii(s[i]))
  }

  /** The canonical spelling of a well-formed hex string: `#`, six digits, upper case. */
  function Normalize(h: string): string
  {
    "#" + ToUpper(Expand(StripHash(h)))
  }

  /** The digit UpperHexDigit prints for a hex digit is its upper-case spelling. */
  lemma UpperDigitOf(c: char)
    requires IsDigitIn(c, 16)
    ensures UpperHexDigit(DigitValue(c).value) == UpperAscii(c)
  {
  }

  lemma HexBytePair(a: char, b: char)
    requires IsDigitIn(a, 16) && IsDigitIn(b, 16)
    ensures HexByte(PairValue(a, b)) == [UpperAscii(a), UpperAscii(b)]
  {
    var v := PairValue(a, b);
    assert v / 16 == DigitValue(a).value && v % 16 == DigitValue(b).value;
    UpperDigitOf(a);
    UpperDigitOf(b);
  }

  /** Decoding and re-encoding a well-formed string yields its canonical spelling. */
  lemma NormalizeRoundTrip(h: string)
    requires WellFormed(h)
    ensures RGBToHex(HexToRGB(h)) == Normalize(h)
  {
    EncodeDecoded(Expand(StripHash(h)));
  }

  /** Printing the reference reading of six hex digits spells them in upper case. */
  lemma EncodeDecoded(e: string)
    requires |e| == 6 && AllDigitsIn(e, 16)
    ensures RGBToHex(DecodeDigits(e)) == "#" + ToUpper(e)
  {
    HexBytePair(e[0], e[1]);
    HexBytePair(e[2], e[3]);
    HexBytePair(e[4], e[5]);
    assert ToUpper(e) == [UpperAscii(e[0]), UpperAscii(e[1]), UpperAscii(e[2]),
                          UpperAscii(e[3]), UpperAscii(e[4]), UpperAscii(e[5])];
  }

  /** Upper-casing never changes what a character is worth as a digit. */
  lemma DigitValueUpper(c: char)
    ensures DigitValue(UpperAscii(c)) == DigitValue(c)
  {
  }

  /** Upper- and lower-case digits decode the same. */
  lemma CaseInsensitive(h: string)
    ensures HexToRGB(ToUpper(h)) == HexToRGB(h)
  {
    var u := ToUpper(h);
    var t, tu := StripHash(h), StripHash(u);
    assert tu == ToUpper(t);
    var e, eu := Expand(t), Expand(tu);
    if |t| == 3 {
      ExpandShape(t);
      ExpandShape(tu);
    }
    assert eu == ToUpper(e);
    forall i | 0 <= i < |e| ensures DigitValue(eu[i]) == DigitValue(e[i]) {
      DigitValueUpper(e[i]);
    }
    assert AllDigitsIn(eu, 16) <==> AllDigitsIn(e, 16);
    ExpandWellFormed(h);
    ExpandWellFormed(u);
  }

  // -------------------------------------------------------------- colours

  /** The four 16-bit-in-32 channel values `color.Color.RGBA` returns. */
  datatype Channels = Channels(r: uint32, g: uint32, b: uint32, a: uint32)

  /**
    The colour representations of the model: the program's own `Hex`, the
    standard library's 8-bit `color.RGBA` it paints with, and the 16-bit
    `color.RGBA64`. The program never builds an `RGBA64`; it is there so that
    `hexModel`, which accepts any `color.Color`, is also stated for a colour
    whose channels are not byte pairs.
  */
  datatype Color =
    | Hex(hex: string)
    | RGBAColor(uint8, uint8, uint8, uint8)
    | RGBA64Color(uint16, uint16, uint16, uint16)
  {
    /**
      color.Color.RGBA: alpha-premultiplied channels, each within 0..0xffff.
      A byte b widens to b * 0x101 (0xAB becomes 0xABAB); a Hex is opaque.
    */
    function RGBA(): (q: Channels)
      ensures q.r <= 0xffff && q.g <= 0xffff && q.b <= 0xffff && q.a <= 0xffff
    {
      match this
      case Hex(h) =>
        var c := HexToRGB(h);
        Channels(c.r * 0x101, c.g * 0x101, c.b * 0x101, 0xffff)
      case RGBAColor(r, g, b, a) => Channels(r * 0x101, g * 0x101, b * 0x101, a * 0x101)
      case RGBA64Color(r, g, b, a) => Channels(r, g, b, a)
    }
  }

  /** The high byte of each colour channel, as `uint8(x >> 8)` takes it. */
  function HighBytes(q: Channels): Rgb
  {
    Rgb(Uint8(q.r / 0x100), Uint8(q.g / 0x100), Uint8(q.b / 0x100))
  }

  /**
    Hex.RGBA is opaque and each channel carries the decoded byte twice, so
    both `>> 8` and the truncation `uint8(x)` give the byte back.
  */
  lemma HexRGBA(h: string)
    ensures var q, c := Hex(h).RGBA(), HexToRGB(h);
            && q == Channels(c.r * 0x101, c.g * 0x101, c.b * 0x101, 0xffff)
            && HighBytes(q) == c && Rgb(Uint8(q.r), Uint8(q.g), Uint8(q.b)) == c
  {
    var c := HexToRGB(h);
    assert (c.r * 0x101) / 0x100 == c.r && (c.r * 0x101) % 0x100 == c.r;
    assert (c.g * 0x101) / 0x100 == c.g && (c.g * 0x101) % 0x100 == c.g;
    assert (c.b * 0x101) / 0x100 == c.b && (c.b * 0x101) % 0x100 == c.b;
  }

  /** hexModel: a Hex passes through; any other colour becomes the Hex of its high bytes. */
  function HexModel(c: Color): (m: Color)
    ensures m.Hex?
  {
    match c
    case Hex(_) => c
    case _ => Hex(RGBToHex(HighBytes(c.RGBA())))
  }

  /** hexModel leaves a Hex unchanged and is the identity on its own output. */
  lemma HexModelIdempotent(c: Color)
    ensures c.Hex? ==> HexModel(c) == c
    ensures HexModel(HexModel(c)) == HexModel(c)
  {
  }

  /** Converting to Hex keeps the 8-bit colour: the high bytes of every channel survive. */
  lemma HexModelKeepsColour(c: Color)
    ensures HighBytes(HexModel(c).RGBA()) == HighBytes(c.RGBA())
  {
    if !c.Hex? {
      var x := HighBytes(c.RGBA());
      RoundTrip(x);
      HexRGBA(RGBToHex(x));
    }
  }

  /** An opaque 8-bit colour converts to a Hex with exactly the same RGBA channels. */
  lemma HexModelOpaque(r: uint8, g: uint8, b: uint8)
    ensures HexModel(RGBAColor(r, g, b, 0xff)).RGBA() == RGBAColor(r, g, b, 0xff).RGBA()
  {
    var c := RGBAColor(r, g, b, 0xff);
    assert HighBytes(c.RGBA()) == Rgb(r, g, b) by {
      assert (r * 0x101) / 0x100 == r && (g * 0x101) / 0x100 == g && (b * 0x101) / 0x100 == b;
    }
    RoundTrip(Rgb(r, g, b));
  }
}
