# imagist-go placeholder service: a Dafny model of its pure core

imagist is a small Go web server that draws placeholder images on demand:
`GET /200x100.png` returns a light-grey 200 by 100 PNG labelled `200x100`.
This project models, and proves properties of, the logic in `imagist.go`
that does not touch the network, the file system or the imaging libraries:

* the hexadecimal colour type `Hex` and its codec: `HexToRGB`, `RGBToHex`,
  `Hex.RGBA` and `hexModel` (module `HexColor`, file `hex_color.dfy`);
* the route `/{h:[0-9]+}x{w:[0-9]+}.{f:(png|jpg)}` for GET and its fallback to
  the static file server (module `Router`, `router.dfy`);
* the decision part of `PlaceholderHandler`: height read first, then width,
  the 2000-pixel limit, the Content-Type and Cache-Control headers and the
  encoder choice (module `Handler`, `handler.dfy`);
* the pure parts of `Placeholder`: the label `Itoa(h) + "x" + Itoa(w)`, the
  buffer bounds `image.Rect(0, 0, Height, Width)` and the two paint colours
  (module `PlaceholderImage`, `placeholder.dfy`);
* the behaviour of the Go library functions those decisions depend on:
  `strconv.ParseUint`, `ParseInt`, `Atoi` (64-bit `int`), `Itoa` and `Quote`
  (module `Strconv`, `strconv.dfy`), with Go's integer widths in `GoInts` and
  `Option`/`Result` in `Wrappers`.

Everything is pure: datatypes, functions and lemmas, as the Go code is
(no loops or state in the modelled part of imagist.go; strconv's digit
loops become recursion). `color.Color` becomes a closed
datatype with three representations. `Hex` and `color.RGBA` are the
ones the program builds. `color.RGBA64` is never built by the program.
It widens the model so that `hexModel`, used as the exported `HexModel`
(imagist.go:29) and accepting any `color.Color`, is also stated for a colour
whose channels are not byte pairs. A Go string is a sequence of bytes; here a
`string` is a sequence of `char` and each `char` stands for one byte. For
ASCII input that is exact. For other input the results still agree: no
non-ASCII byte is a hex digit, so such a hex string decodes to black either
way. Atoi's 19-byte fast-path threshold can only make a difference on
inputs of 19 or more digits, and such inputs are all ASCII.

The outcome of `GenerateImage` depends on reading and parsing the font file
and drawing the glyphs. It is a parameter of `Handler.Handle`:
`Rendered` or `RenderFailed(message)`.

The code accepts a height or width of 0, and leading zeros. A number too
large for a 64-bit `int` is answered with status 500 and the text of the
`strconv.Atoi` error, not with a 400. The handler has a single 2000-pixel
limit and no default size.

Library releases assumed:

* `strconv` is modelled as in current Go releases. `Atoi` takes a fast path
  for inputs of 1 to 18 bytes and labels every error it returns `Atoi`.
* `gorilla/mux` is modelled as in the releases of the program's own time.
  Those accept a capturing group such as `(png|jpg)` inside a variable's
  pattern and match it as a regular expression. Later releases refuse such a
  pattern when the route is registered.

The two come from different periods; the expected range-error text is the
one place where this matters (see "## Left out").

## Model

| member | source | states |
|---|---|---|
| `HexColor.HexToRGB` | imagist.go:57-71 | HexToRGB agrees with an independent reading for every input. A well-formed string (one optional `#`, then 3 or 6 hex digits of either case) decodes after shorthand expansion, two digits per channel, red first. Every other string is black. |
| `HexColor.MalformedIsBlack` | imagist.go:59-70 | Any string that is not well formed decodes to the fallback `(0,0,0)`. |
| `HexColor.MalformedExamples` | imagist.go:59-70 | `""`, `"#"`, `"##EEE"`, `"#12"` and `"zzzzzz"` all decode to black. |
| `HexColor.Shorthand` | imagist.go:62-64 | For any three characters, `XYZ`, `#XYZ` and `XXYYZZ` decode to the same triple. |
| `HexColor.CaseInsensitive` | imagist.go:65-68 | Upper-casing a string never changes what it decodes to. |
| `HexColor.RGBToHex` | imagist.go:52-55 | The result has 7 characters: `#`, then six upper-case hex digits. Its digit pairs read back as r, g and b, so each channel is two zero-padded digits. |
| `HexColor.RoundTrip` | imagist.go:53-71 | `HexToRGB(RGBToHex(c)) == c` for every byte triple. |
| `HexColor.NormalizeRoundTrip` | imagist.go:53-71 | For a well-formed h, `RGBToHex(HexToRGB(h))` is its canonical spelling: `#`, then the expanded digits in upper case. |
| `HexColor.SplitChannels` | imagist.go:67 | `rgb >> 16`, `(rgb >> 8) & 0xFF` and `rgb & 0xFF`, each truncated to uint8, give back R, G and B of 0xRRGGBB. |
| `HexColor.Color.RGBA` | imagist.go:38-41 | Every channel that any of the three colour representations reports lies in 0..0xffff. |
| `HexColor.HexRGBA` | imagist.go:38-41 | `Hex.RGBA` returns `byte*0x101` per channel and alpha `0xffff`. Both `>> 8` and a truncation to uint8 recover the decoded byte. |
| `HexColor.HexModel` | imagist.go:43-50 | hexModel always produces a `Hex`. |
| `HexColor.HexModelIdempotent` | imagist.go:44-47 | A `Hex` passes through unchanged, and hexModel applied to its own output is the identity. |
| `HexColor.HexModelKeepsColour` | imagist.go:44-50 | Converting any colour to `Hex` keeps the high byte of each colour channel. |
| `HexColor.HexModelOpaque` | imagist.go:44-50 | An opaque 8-bit `color.RGBA` converts to a `Hex` whose RGBA channels are exactly its own. |
| `Strconv.ScanDigits` | imagist.go:66 | The digit loop succeeds exactly when every character is a digit of the base and the value does not exceed the maximum. On success it returns the positional value. On digit-only input it can fail only with a range error. |
| `Strconv.ParseUint` | imagist.go:66 | Succeeds exactly on a non-empty digit string whose value fits the bit size, and then returns that value. An error names ParseUint and the input. |
| `Strconv.ParseInt` | imagist.go:148-158 | `ParseInt(s, 10, 0)` with a 64-bit `int`, which Atoi falls back on for long inputs. It succeeds exactly on an optional sign followed by decimal digits whose signed value fits 64 bits, and then returns that value. An error names ParseInt and the whole input. |
| `Strconv.Atoi` | imagist.go:148-158 | Succeeds exactly on an optional sign followed by decimal digits whose signed value fits 64 bits, and then returns that value. An error names Atoi and the whole input. |
| `Strconv.AtoiDecimal` | imagist.go:148-158 | On a non-empty digit string, Atoi returns the value, or a range error exactly when the value exceeds 2^63 - 1. |
| `Strconv.Quote` | imagist.go:150 | The quoted string is enclosed in double quotes and is at least two characters longer than its input. A string of digits appears between the quotes unchanged. |
| `Strconv.ErrorText` | imagist.go:150 | `err.Error()` of a NumError whose input is a digit string reads `strconv.<Func>: parsing "<digits>": <reason>`. |
| `Strconv.AtoiRangeText` | imagist.go:150 | The message of that range error is `strconv.Atoi: parsing "<digits>": value out of range`. |
| `Strconv.FormatUint` | imagist.go:118 | Prints a non-empty decimal string with no leading zero that reads back as n. |
| `Strconv.Itoa` | imagist.go:118 | The result is the canonical decimal spelling of n. It has a `-` exactly when n is negative, and never a `+`. It has no leading zero unless n is 0, and contains no `x`. It reads back as n. |
| `Strconv.AtoiItoa` | imagist.go:118 | Atoi reads back what Itoa writes, for every 64-bit int. |
| `PlaceholderImage.Label` | imagist.go:118 | The label's only `x` is at position `len(Itoa(h))`, with Itoa(h) before it and Itoa(w) after it. |
| `PlaceholderImage.LabelRoundTrip` | imagist.go:118 | The first `x` of a label is the one between the numbers, and parsing both sides gives back (h, w). |
| `PlaceholderImage.LabelDigits` | imagist.go:118 | For non-negative sizes the label is `digits "x" digits`, spelling h and w. |
| `PlaceholderImage.Rect` | imagist.go:94 | image.Rect orders its corners and keeps them. |
| `PlaceholderImage.Bounds` | imagist.go:94 | For non-negative sizes the buffer starts at (0,0) with x-extent Height and y-extent Width. |
| `PlaceholderImage.ToRGBA8` | imagist.go:98 | `color.RGBA{uint8(r), uint8(g), uint8(b), uint8(a)}` is an 8-bit colour. Each of its bytes is the low byte of the corresponding 16-bit channel. |
| `PlaceholderImage.ToRGBA8OfHex` | imagist.go:96-98 | Truncating a Hex's channels to `color.RGBA` keeps the decoded bytes, makes the colour opaque and loses nothing. |
| `PlaceholderImage.PaintColours` | imagist.go:96-108 | The background becomes `color.RGBA{0xEE,0xEE,0xEE,0xFF}` and the text `{0x88,0x88,0x88,0xFF}`. |
| `Router.DigitsThen` | imagist.go:187 | A match is a non-empty digit run, the separator, and the rest of the string, in that order. |
| `Router.Route` | imagist.go:187 | Every path the matcher accepts is `"/" + h + "x" + w + "." + f`, with h and w digit runs and f `png` or `jpg`, and those are its captures. |
| `Router.RouteComplete` | imagist.go:187 | Every path of that shape is accepted, with exactly those captures. |
| `Router.Dispatch` | imagist.go:187-190 | Only a GET of a path of the template's shape reaches the image handler. Every request with another method goes to the static file server. |
| `Router.DispatchImage` | imagist.go:187-188 | A GET of a path of the template's shape reaches the image handler with its captures. |
| `Router.NonDigitsFallThrough` | imagist.go:187-190 | `/abcxyz.png` goes to the static file server. |
| `Router.OtherFormatFallsThrough` | imagist.go:187-190 | `/100x100.gif` goes to the static file server. |
| `Handler.Handle` | imagist.go:144-173 | An accepted request has both sides read by Atoi, both at most 2000, and a successful render. It carries `image/<format>`, the one-week Cache-Control and the label of exactly that size. Every refusal is a 400 or a 500. |
| `Handler.ValidationOrder` | imagist.go:148-170 | A height parse error gives 500 and its text, whatever the width and the render outcome. Otherwise a width parse error gives 500. Otherwise a size over 2000 gives 400 "Image too big!". Only then does the render outcome decide. |
| `Handler.RoutedOutcome` | imagist.go:148-172 | On the route's captures, the answer depends only on the two digit values, with height checked first. An overflow gives 500 with the range-error text. A side over 2000 gives 400. Otherwise the image of exactly that size is served. |
| `Handler.EncodingFor` | imagist.go:176-181 | The format switch picks the PNG encoder exactly for `png` and the JPEG encoder exactly for `jpg`. It writes no body exactly for any other format. |
| `Handler.AcceptedHeaders` | imagist.go:172-181 | A routed accepted request is 0..2000 on each side and has status 200 and Cache-Control `public, max-age=604800`. It is `image/png` with the PNG encoder or `image/jpg` with the JPEG encoder, as its format says. |
| `Handler.Serve` | imagist.go:186-190 | A request reaches the handler exactly when it is a GET of a path the route matches. The handler then gets that path's captures. Every other request goes to the file server. |
| `Handler.LabelRoute` | imagist.go:187 | Appending `.png` or `.jpg` to `/` plus the label of a non-negative size gives a path the route matches, with captures Itoa(h) and Itoa(w). |
| `Handler.LabelServed` | imagist.go:144-173 | Within the limit, that path is served as exactly that placeholder, with the label it came from. |
| `Handler.ZeroServed` | imagist.go:148-181 | `/0x0.png` is accepted as a 0 by 0 placeholder labelled `0x0`, with `image/png` and the PNG encoder chosen. |
| `Handler.LeadingZerosServed` | imagist.go:148-172 | `/007x5.jpg` is served as 7 by 5, labelled `7x5`, as `image/jpg`. |
| `Handler.TooBigRefused` | imagist.go:160-163 | `/2001x100.png` gets 400 "Image too big!". |
| `Handler.OnlyGet` | imagist.go:187-188 | A POST never reaches the image handler. |

## Left out

- HTTP serving: `ListenAndServe`, the port flag, the static `http.FileServer` and logging. These are I/O. The router's fallback is the bare outcome `StaticFiles`.
- gorilla/mux internals: path cleaning and its redirects, URL decoding and building the `Vars` map. The model matches the decoded path directly.
- Font loading (`GetFont`: `ioutil.ReadFile`, `freetype.ParseFont`) and glyph drawing (`freetype.Context`, `DrawString`). These are file I/O and foreign code. Their success or error message is the `RenderOutcome` parameter.
- `GetFontSize`: it is floating-point arithmetic (`float64 * 0.10`, `math.Ceil`).
- The pixel fill (`draw.Draw`) and the PNG/JPEG encoders: library code. Only the encoder choice (`Encoding`) is modelled, including that a format other than `png`/`jpg` writes no body.
- A PNG with a side of 0: `png.Encode` refuses it and writes nothing. The handler ignores that error (imagist.go:178), so the answer is 200 with an `image/png` header and an empty body. The model stops at choosing the encoder, so `Handler.ZeroServed` states the choice and not the empty body.
- The `Expires` header: it depends on the wall clock.
- `http.Error` itself: its `text/plain` header, `nosniff` header and trailing newline. `HttpError.message` is the text the handler passes to it.
- Strconv.EscapeChar: non-ASCII characters are copied unescaped. `strconv.Quote` escapes the non-printable ones, a distinction that needs the Unicode tables. Digit strings, the only input the route admits, are unaffected.
- Strconv.Atoi: older Go releases, contemporary with the program's imports, passed ParseInt's error through unchanged. There, the 500 body for an overflowing size reads `strconv.ParseInt: parsing "<digits>": value out of range` instead of the `strconv.Atoi: …` text proved in `Strconv.AtoiRangeText` and `Handler.RoutedOutcome`. Only the function name in the text differs; the status and the rest of the text are the same under both releases.
- Strconv.ParseUint: only an explicit base from 2 to 36 is modelled (HexToRGB uses 16, ParseInt 10). Base 0, with its prefix detection and underscores, is not. Only the bit sizes 32 and 64, the two the program uses, are modelled. Go checks overflow with a cutoff and a uint64 wrap-around test. The model compares the unbounded value with the maximum, which gives the same result for these sizes.
