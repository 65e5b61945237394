/**
  The pure parts of the `Placeholder` type of imagist.go: its size label, the
  bounds of its pixel buffer and the two colours it paints with.
*/
module PlaceholderImage {
  import opened Wrappers
  import opened GoInts
  import opened Strconv
  import opened HexColor

  /** Placeholder{Height, Width}: the validated size of one requested image. */
  datatype Placeholder = Placeholder(height: int, width: int)

  /**
    The text drawn on the image: Itoa(Height) + "x" + Itoa(Width). Neither
    number is spelled with an `x`, so the one between them is the only one.
  */
  function Label(p: Placeholder): (s: string)
    ensures var k := |Itoa(p.height)|;
            k < |s| && s[k] == 'x' && s[..k] == Itoa(p.height) && s[k + 1..] == Itoa(p.width)
            && forall i :: 0 <= i < |s| && i != k ==> s[i] != 'x'
  {
    var a, b := Itoa(p.height), Itoa(p.width);
    SingleSeparator(a, 'x', b);
    a + "x" + b
  }

  /** Joining two strings free of c with one c between them puts the only c at |a|. */
  lemma SingleSeparator(a: string, c: char, b: string)
    requires forall i :: 0 <= i < |a| ==> a[i] != c
    requires forall i :: 0 <= i < |b| ==> b[i] != c
    ensures var s := a + [c] + b;
            s[|a|] == c && s[..|a|] == a && s[|a| + 1..] == b
            && forall i :: 0 <= i < |s| && i != |a| ==> s[i] != c
  {
    var s := a + [c] + b;
    forall i | 0 <= i < |s| && i != |a| ensures s[i] != c {
      if i < |a| { assert s[i] == a[i]; } else { assert s[i] == b[i - |a| - 1]; }
    }
  }

  /** The first position of c in s. */
  function IndexOf(s: string, c: char): (r: Option<nat>)
    ensures r.Some? ==> r.value < |s| && s[r.value] == c && forall i :: 0 <= i < r.value ==> s[i] != c
    ensures r.None? ==> forall i :: 0 <= i < |s| ==> s[i] != c
  {
    if s == [] then None
    else if s[0] == c then Some(0)
    else
      match IndexOf(s[1..], c)
      case None => None
      case Some(k) => Some(k + 1)
  }

  /** Reads a label back: split at the first `x` and parse both sides with Atoi. */
  function ParseLabel(s: string): Option<Placeholder>
  {
    match IndexOf(s, 'x')
    case None => None
    case Some(k) =>
      match (Atoi(s[..k]), Atoi(s[k + 1..]))
      case (Ok(h), Ok(w)) => Some(Placeholder(h, w))
      case _ => None
  }

  /**
    Splitting a label at its first `x` finds the one between the numbers, and
    parsing both sides gives back the placeholder it was made from.
  */
  lemma LabelRoundTrip(p: Placeholder)
    requires InInt64(p.height) && InInt64(p.width)
    ensures IndexOf(Label(p), 'x') == Some(|Itoa(p.height)|)
    ensures ParseLabel(Label(p)) == Some(p)
  {
    AtoiItoa(p.height);
    AtoiItoa(p.width);
  }

  /** For a non-negative size the label is `digits "x" digits`, spelling the two numbers. */
  lemma LabelDigits(p: Placeholder)
    requires p.height >= 0 && p.width >= 0
    ensures Label(p) == FormatUint(p.height) + "x" + FormatUint(p.width)
    ensures IsDecimal(FormatUint(p.height)) && Value(FormatUint(p.height), 10) == p.height
    ensures IsDecimal(FormatUint(p.width)) && Value(FormatUint(p.width), 10) == p.width
  {
  }

  // ---------------------------------------------------------- pixel buffer

  /** image.Rectangle: the points (x, y) with x0 <= x < x1 and y0 <= y < y1. */
  datatype Rectangle = Rectangle(x0: int, y0: int, x1: int, y1: int)
  {
    function Dx(): int { x1 - x0 }
    function Dy(): int { y1 - y0 }
  }

  /** image.Rect: the rectangle with the given corners, swapped into order where needed. */
  function Rect(x0: int, y0: int, x1: int, y1: int): (r: Rectangle)
    ensures r.x0 <= r.x1 && r.y0 <= r.y1
    ensures {r.x0, r.x1} == {x0, x1} && {r.y0, r.y1} == {y0, y1}
  {
    Rectangle(if x0 <= x1 then x0 else x1, if y0 <= y1 then y0 else y1,
              if x0 <= x1 then x1 else x0, if y0 <= y1 then y1 else y0)
  }

  /**
    The bounds GenerateImage allocates, image.Rect(0, 0, Height, Width). The
    x-extent is the height and the y-extent the width, as the code has it.
  */
  function Bounds(p: Placeholder): (r: Rectangle)
    ensures p.height >= 0 && p.width >= 0 ==> r.x0 == 0 && r.y0 == 0 && r.Dx() == p.height && r.Dy() == p.width
  {
    Rect(0, 0, p.height, p.width)
  }

  // --------------------------------------------------------------- colours

  const BACKGROUND_HEX := "#EEE"
  const FOREGROUND_HEX := "#888"

  /**
    color.RGBA{uint8(r), uint8(g), uint8(b), uint8(a)} of the channels of c:
    an 8-bit colour whose bytes are the low bytes of the 16-bit channels.
  */
  function ToRGBA8(c: Color): (m: Color)
    ensures m.RGBAColor?
    ensures var q := c.RGBA();
            && q.r % 0x100 == m.RGBA().r / 0x101 && q.g % 0x100 == m.RGBA().g / 0x101
            && q.b % 0x100 == m.RGBA().b / 0x101 && q.a % 0x100 == m.RGBA().a / 0x101
  {
    var q := c.RGBA();
    RGBAColor(Uint8(q.r), Uint8(q.g), Uint8(q.b), Uint8(q.a))
  }

  /** Truncating a Hex colour to 8 bits keeps its bytes, makes it opaque and loses nothing. */
  lemma ToRGBA8OfHex(h: string)
    ensures var c := HexToRGB(h);
            ToRGBA8(Hex(h)) == RGBAColor(c.r, c.g, c.b, 0xff)
            && ToRGBA8(Hex(h)).RGBA() == Hex(h).RGBA()
  {
    HexRGBA(h);
  }

  /** `#EEE` paints the background 0xEEEEEE, `#888` the text 0x888888, both opaque. */
  lemma PaintColours()
    ensures ToRGBA8(Hex(BACKGROUND_HEX)) == RGBAColor(0xEE, 0xEE, 0xEE, 0xFF)
    ensures ToRGBA8(Hex(FOREGROUND_HEX)) == RGBAColor(0x88, 0x88, 0x88, 0xFF)
  {
    assert StripHash(BACKGROUND_HEX) == "EEE" && StripHash(FOREGROUND_HEX) == "888";
    ExpandShape("EEE");
    ExpandShape("888");
    assert WellFormed(BACKGROUND_HEX) && WellFormed(FOREGROUND_HEX);
    ToRGBA8OfHex(BACKGROUND_HEX);
    ToRGBA8OfHex(FOREGROUND_HEX);
  }
}
