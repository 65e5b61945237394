/**
  PlaceholderHandler of imagist.go, up to the point where the image is
  encoded: read the height, then the width, refuse sizes over 2000, let
  GenerateImage run, then choose the headers and the encoder. The outcome of
  GenerateImage (font file I/O and glyph drawing) is a parameter.
*/
module Handler {
  import opened Wrappers
  import opened GoInts
  import opened Strconv
  import opened Router
  import opened PlaceholderImage

  const STATUS_OK := 200
  const STATUS_BAD_REQUEST := 400
  const STATUS_INTERNAL_SERVER_ERROR := 500

  /** The largest height or width the handler draws. */
  const MAX_SIDE := 2000
  const TOO_BIG := "Image too big!"
  const CACHE_CONTROL := "public, max-age=604800"

  /** How GenerateImage ended: the font could be read and the label drawn, or not. */
  datatype RenderOutcome = Rendered | RenderFailed(message: string)

  /** The encoder the format switch picks; an unknown format writes no body. */
  datatype Encoding = Png | Jpeg | NoBody

  datatype Response =
    | HttpError(status: int, message: string)
    | Image(placeholder: Placeholder, contentType: string, cacheControl: string, labelText: string,
            encoding: Encoding)

  function Status(r: Response): int
  {
    if r.HttpError? then r.status else STATUS_OK
  }

  /** The format switch: PNG for `png`, JPEG for `jpg`, no body for any other format. */
  function EncodingFor(format: string): (e: Encoding)
    ensures e == Png <==> format == "png"
    ensures e == Jpeg <==> format == "jpg"
    ensures e == NoBody <==> !IsFormat(format)
  {
    if format == "png" then Png else if format == "jpg" then Jpeg else NoBody
  }

  /**
    PlaceholderHandler on the route's variables. An accepted request has both
    sides read by Atoi and within MAX_SIDE, and carries the headers and the
    label of exactly that size.
  */
  function Handle(vars: Captures, render: RenderOutcome): (r: Response)
    ensures r.Image? ==>
      && Atoi(vars.h) == Ok(r.placeholder.height) && Atoi(vars.w) == Ok(r.placeholder.width)
      && r.placeholder.height <= MAX_SIDE && r.placeholder.width <= MAX_SIDE
      && render == Rendered
      && r.contentType == "image/" + vars.f && r.cacheControl == CACHE_CONTROL
      && r.labelText == Label(r.placeholder)
    ensures r.HttpError? ==> r.status in {STATUS_BAD_REQUEST, STATUS_INTERNAL_SERVER_ERROR}
  {
    match Atoi(vars.h)
    case Err(e) => HttpError(STATUS_INTERNAL_SERVER_ERROR, ErrorText(e))
    case Ok(height) =>
      match Atoi(vars.w)
      case Err(e) => HttpError(STATUS_INTERNAL_SERVER_ERROR, ErrorText(e))
      case Ok(width) =>
        if height > MAX_SIDE || width > MAX_SIDE then HttpError(STATUS_BAD_REQUEST, TOO_BIG)
        else
          var p := Placeholder(height, width);
          match render
          case RenderFailed(msg) => HttpError(STATUS_INTERNAL_SERVER_ERROR, msg)
          case Rendered =>
            Image(p, "image/" + vars.f, CACHE_CONTROL, Label(p), EncodingFor(vars.f))
  }

  /**
    The order of the checks: a bad height decides the answer whatever the
    width and the rendering; then a bad width; then the size limit; only then
    does the outcome of drawing matter.
  */
  lemma ValidationOrder(vars: Captures, otherW: string, render: RenderOutcome, otherRender: RenderOutcome)
    ensures Atoi(vars.h).Err? ==>
      Handle(vars, render) == Handle(vars.(w := otherW), otherRender)
      == HttpError(STATUS_INTERNAL_SERVER_ERROR, ErrorText(Atoi(vars.h).error))
    ensures Atoi(vars.h).Ok? && Atoi(vars.w).Err? ==>
      Handle(vars, render) == Handle(vars, otherRender)
      == HttpError(STATUS_INTERNAL_SERVER_ERROR, ErrorText(Atoi(vars.w).error))
    ensures Atoi(vars.h).Ok? && Atoi(vars.w).Ok?
            && (Atoi(vars.h).value > MAX_SIDE || Atoi(vars.w).value > MAX_SIDE) ==>
      Handle(vars, render) == Handle(vars, otherRender) == HttpError(STATUS_BAD_REQUEST, TOO_BIG)
    ensures Atoi(vars.h).Ok? && Atoi(vars.w).Ok?
            && Atoi(vars.h).value <= MAX_SIDE && Atoi(vars.w).value <= MAX_SIDE ==>
      (Handle(vars, render).Image? <==> render == Rendered)
  {
  }

  /**
    On the route's own captures the answer depends on the values of the two
    digit strings alone: 500 when one of them does not fit a 64-bit int
    (height first), 400 when one is over 2000, and otherwise the image of
    exactly that size, 0 to 2000 on each side, leading zeros and all.
  */
  lemma RoutedOutcome(path: string, c: Captures, render: RenderOutcome)
    requires Matches(path, c)
    ensures Dispatch("GET", path) == ImageHandler(c)
    ensures var hv, wv := DecimalValue(c.h), DecimalValue(c.w);
            Handle(c, render) ==
              if hv > MAX_INT64 then HttpError(STATUS_INTERNAL_SERVER_ERROR, RangeErrorText(c.h))
              else if wv > MAX_INT64 then HttpError(STATUS_INTERNAL_SERVER_ERROR, RangeErrorText(c.w))
              else if hv > MAX_SIDE || wv > MAX_SIDE then HttpError(STATUS_BAD_REQUEST, TOO_BIG)
              else if render.RenderFailed? then HttpError(STATUS_INTERNAL_SERVER_ERROR, render.message)
              else Image(Placeholder(hv, wv), "image/" + c.f, CACHE_CONTROL,
                         Label(Placeholder(hv, wv)), EncodingFor(c.f))
  {
    DispatchImage(path, c);
    AtoiDecimal(c.h);
    AtoiDecimal(c.w);
    AtoiRangeText(c.h);
    AtoiRangeText(c.w);
  }

  /**
    An accepted routed request is at most 2000 by 2000, never negative, and is
    served as `image/png` with the PNG encoder or `image/jpg` with the JPEG
    encoder, with the one-week Cache-Control.
  */
  lemma AcceptedHeaders(path: string, c: Captures, render: RenderOutcome)
    requires Matches(path, c)
    ensures var r := Handle(c, render);
            r.Image? ==>
              && 0 <= r.placeholder.height <= MAX_SIDE && 0 <= r.placeholder.width <= MAX_SIDE
              && Status(r) == STATUS_OK && r.cacheControl == "public, max-age=604800"
              && ((r.contentType == "image/png" && r.encoding == Png)
                  || (r.contentType == "image/jpg" && r.encoding == Jpeg))
              && (r.encoding == Png <==> c.f == "png")
  {
    var r := Handle(c, render);
    if r.Image? {
      AtoiDecimal(c.h);
      AtoiDecimal(c.w);
      assert r.contentType == "image/" + c.f && r.encoding == EncodingFor(c.f);
      if c.f == "png" {
        assert "image/" + c.f == "image/png";
      } else {
        assert "image/" + c.f == "image/jpg";
      }
    }
  }

  /**
    The whole request: routing, then the handler; None is the static file
    server. Only a GET of a path the route matches reaches the handler, and
    then with the captures of that path.
  */
  function Serve(verb: string, path: string, render: RenderOutcome): (r: Option<Response>)
    ensures r.Some? <==> verb == "GET" && Route(path).Some?
    ensures r.Some? ==> Matches(path, Route(path).value) && r.value == Handle(Route(path).value, render)
  {
    match Dispatch(verb, path)
    case ImageHandler(c) => Some(Handle(c, render))
    case StaticFiles => None
  }

  /**
    The label of an image names a path the server answers with that same
    image: `/<label>.png` or `/<label>.jpg` is routed, split back into the two
    numbers and, within the limit, served at exactly that size.
  */
  lemma LabelRoute(p: Placeholder, format: string)
    requires 0 <= p.height && 0 <= p.width && IsFormat(format)
    ensures Matches("/" + Label(p) + "." + format, Captures(Itoa(p.height), Itoa(p.width), format))
    ensures Route("/" + Label(p) + "." + format)
            == Some(Captures(Itoa(p.height), Itoa(p.width), format))
  {
    var path := "/" + Label(p) + "." + format;
    var c := Captures(Itoa(p.height), Itoa(p.width), format);
    LabelDigits(p);
    LabelPath(path, Label(p), c.h, c.w, format);
    RouteComplete(path, c);
  }

  lemma LabelPath(path: string, text: string, h: string, w: string, f: string)
    requires path == "/" + text + "." + f && text == h + "x" + w
    ensures path == "/" + h + "x" + w + "." + f
  {
  }

  /** Within the size limit, the path built from a label is served at exactly that size. */
  lemma LabelServed(p: Placeholder, format: string)
    requires 0 <= p.height <= MAX_SIDE && 0 <= p.width <= MAX_SIDE && IsFormat(format)
    ensures Serve("GET", "/" + Label(p) + "." + format, Rendered)
            == Some(Image(p, "image/" + format, CACHE_CONTROL, Label(p), EncodingFor(format)))
  {
    var path := "/" + Label(p) + "." + format;
    var c := Captures(Itoa(p.height), Itoa(p.width), format);
    LabelRoute(p, format);
    DispatchImage(path, c);
    AtoiItoa(p.height);
    AtoiItoa(p.width);
  }

  /**
    Zero is accepted like any other size: `/0x0.png` is answered as a 0 by 0
    placeholder and handed to the PNG encoder.
  */
  lemma ZeroServed()
    ensures Serve("GET", "/0x0.png", Rendered)
            == Some(Image(Placeholder(0, 0), "image/png", CACHE_CONTROL, "0x0", Png))
  {
    var c := Captures("0", "0", "png");
    ZeroCaptured();
    ZeroRead();
    RoutedOutcome("/0x0.png", c, Rendered);
  }

  lemma ZeroCaptured()
    ensures Matches("/0x0.png", Captures("0", "0", "png"))
  {
    var c := Captures("0", "0", "png");
    assert "/0x0.png" == "/" + c.h + "x" + c.w + "." + c.f;
  }

  lemma ZeroRead()
    ensures DecimalValue("0") == 0
    ensures Label(Placeholder(0, 0)) == "0x0" && "image/" + "png" == "image/png"
  {
    assert Itoa(0) == "0";
  }

  /** Leading zeros are read away: `/007x5.jpg` is served as 7 by 5 and labelled `7x5`. */
  lemma LeadingZerosServed()
    ensures Serve("GET", "/007x5.jpg", Rendered)
            == Some(Image(Placeholder(7, 5), "image/jpg", CACHE_CONTROL, "7x5", Jpeg))
  {
    var c := Captures("007", "5", "jpg");
    LeadingZerosCaptured();
    LeadingZerosRead();
    RoutedOutcome("/007x5.jpg", c, Rendered);
  }

  lemma LeadingZerosCaptured()
    ensures Matches("/007x5.jpg", Captures("007", "5", "jpg"))
  {
    var c := Captures("007", "5", "jpg");
    assert "/007x5.jpg" == "/" + c.h + "x" + c.w + "." + c.f;
  }

  lemma LeadingZerosRead()
    ensures DecimalValue("007") == 7 && DecimalValue("5") == 5
    ensures Label(Placeholder(7, 5)) == "7x5" && "image/" + "jpg" == "image/jpg"
  {
    assert "007"[..2] == "00" && "00"[..1] == "0" && "0"[..0] == [];
    assert Itoa(7) == "7" && Itoa(5) == "5";
  }

  /** `/2001x100.png` is refused with 400 "Image too big!". */
  lemma TooBigRefused()
    ensures Serve("GET", "/2001x100.png", Rendered) == Some(HttpError(STATUS_BAD_REQUEST, TOO_BIG))
  {
    TooBigCaptured();
    TooBigRead();
    RoutedOutcome("/2001x100.png", Captures("2001", "100", "png"), Rendered);
  }

  lemma TooBigCaptured()
    ensures Matches("/2001x100.png", Captures("2001", "100", "png"))
  {
    var c := Captures("2001", "100", "png");
    assert "/2001x100.png" == "/" + c.h + "x" + c.w + "." + c.f;
  }

  lemma TooBigRead()
    ensures DecimalValue("2001") == 2001 && DecimalValue("100") == 100
  {
    assert "2001"[..3] == "200" && "200"[..2] == "20" && "20"[..1] == "2" && "2"[..0] == [];
    assert "100"[..2] == "10" && "10"[..1] == "1" && "1"[..0] == [];
  }

  /** Only GET reaches the image handler. */
  lemma OnlyGet(path: string, render: RenderOutcome)
    ensures Serve("POST", path, render) == None
  {
  }
}
