/**
  The route imagist.go registers, `/{h:[0-9]+}x{w:[0-9]+}.{f:(png|jpg)}` for
  GET, and the fallback to the static file server for everything else.
*/
module Router {
  import opened Wrappers
  import opened Strconv

  /** The three variables the route captures (mux.Vars: "h", "w", "f"). */
  datatype Captures = Captures(h: string, w: string, f: string)

  predicate IsFormat(f: string) { f == "png" || f == "jpg" }

  /** The template, read as a relation between a path and its captures. */
  predicate Matches(path: string, c: Captures)
  {
    IsDecimal(c.h) && IsDecimal(c.w) && IsFormat(c.f) && path == "/" + c.h + "x" + c.w + "." + c.f
  }

  /** Length of the run of decimal digits at the start of s. */
  function DigitRun(s: string): (n: nat)
    ensures n <= |s|
    ensures forall i :: 0 <= i < n ==> IsDecimalDigit(s[i])
    ensures n < |s| ==> !IsDecimalDigit(s[n])
  {
    if s == [] || !IsDecimalDigit(s[0]) then 0 else 1 + DigitRun(s[1..])
  }

  /**
    One `[0-9]+` of the template followed by the literal separator: the digit
    run at the start of s and what follows the separator after it.
  */
  function DigitsThen(s: string, sep: char): (r: Option<(string, string)>)
    ensures r.Some? ==> IsDecimal(r.value.0) && s == r.value.0 + [sep] + r.value.1
  {
    var n := DigitRun(s);
    if n == 0 || n == |s| || s[n] != sep then None
    else
      assert s == s[..n] + [sep] + s[n + 1..];
      Some((s[..n], s[n + 1..]))
  }

  /**
    The route matcher: `/`, digits, `x`, digits, `.`, then exactly `png` or
    `jpg`. Neither digit run can swallow the `x` or the `.`, so the split is
    unique. Whatever it accepts has the template's shape, split at its
    captures.
  */
  function Route(path: string): (r: Option<Captures>)
    ensures r.Some? ==> Matches(path, r.value)
  {
    if |path| == 0 || path[0] != '/' then None
    else
      match DigitsThen(path[1..], 'x')
      case None => None
      case Some((h, tail)) =>
        match DigitsThen(tail, '.')
        case None => None
        case Some((w, f)) =>
          if IsFormat(f) then
            assert path == "/" + path[1..];
            Assemble(path, path[1..], h, tail, w, f);
            Some(Captures(h, w, f))
          else None
  }

  lemma Assemble(path: string, rest: string, h: string, tail: string, w: string, f: string)
    requires path == "/" + rest && rest == h + "x" + tail && tail == w + "." + f
    ensures path == "/" + h + "x" + w + "." + f
  {
  }

  /** A digit run stops at the first character that is not a digit. */
  lemma {:induction false} DigitRunPrefix(a: string, b: string)
    requires forall i :: 0 <= i < |a| ==> IsDecimalDigit(a[i])
    requires b != [] && !IsDecimalDigit(b[0])
    ensures DigitRun(a + b) == |a|
    decreases |a|
  {
    if a != [] {
      assert (a + b)[1..] == a[1..] + b;
      DigitRunPrefix(a[1..], b);
    }
  }

  /** Digits, then a separator that is no digit, then anything: DigitsThen finds exactly that split. */
  lemma DigitsThenComplete(a: string, sep: char, b: string)
    requires IsDecimal(a) && !IsDecimalDigit(sep)
    ensures DigitsThen(a + [sep] + b, sep) == Some((a, b))
  {
    var s := a + [sep] + b;
    assert s == a + ([sep] + b);
    DigitRunPrefix(a, [sep] + b);
    assert s[..|a|] == a && s[|a| + 1..] == b;
  }

  /** Every path of the template's shape is matched, with exactly its captures. */
  lemma RouteComplete(path: string, c: Captures)
    requires Matches(path, c)
    ensures Route(path) == Some(c)
  {
    var tail := c.w + "." + c.f;
    assert path[1..] == c.h + "x" + tail;
    DigitsThenComplete(c.h, 'x', tail);
    DigitsThenComplete(c.w, '.', c.f);
  }

  /** Where the router sends a request. */
  datatype Target = ImageHandler(vars: Captures) | StaticFiles

  /** The image route for GET requests on a matching path; the static file server otherwise. */
  function Dispatch(verb: string, path: string): (t: Target)
    ensures t.ImageHandler? ==> verb == "GET" && Matches(path, t.vars)
    ensures verb != "GET" ==> t == StaticFiles
  {
    if verb == "GET" then
      match Route(path)
      case Some(c) => ImageHandler(c)
      case None => StaticFiles
    else StaticFiles
  }

  /** A GET of a path of the template's shape reaches the image handler with its captures. */
  lemma DispatchImage(path: string, c: Captures)
    requires Matches(path, c)
    ensures Dispatch("GET", path) == ImageHandler(c)
  {
    RouteComplete(path, c);
  }

  /** A path whose height or width is no digit run never reaches the image handler. */
  lemma NonDigitsFallThrough()
    ensures Dispatch("GET", "/abcxyz.png") == StaticFiles
  {
    var p := "/abcxyz.png";
    assert !IsDecimalDigit(p[1..][0]);
    assert DigitRun(p[1..]) == 0;
  }

  /** A request for a format other than PNG or JPEG falls through as well. */
  lemma OtherFormatFallsThrough()
    ensures Dispatch("GET", "/100x100.gif") == StaticFiles
  {
    var p := "/100x100.gif";
    assert p[1..] == "100" + ['x'] + "100.gif";
    DigitsThenComplete("100", 'x', "100.gif");
    assert "100.gif" == "100" + ['.'] + "gif";
    DigitsThenComplete("100", '.', "gif");
    assert !IsFormat("gif");
    assert Route(p) == None;
  }
}
