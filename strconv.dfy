/**
  The parts of Go's `strconv` package that imagist.go relies on: `ParseUint`
  (used by the hex decoder), `Atoi` with the `ParseInt` it falls back on (used
  to read the captured height and width), `Itoa` (used for the label) and
  `Quote` (used in the text of a parse error). A Go string is a sequence of
  bytes; here each `char` stands for one byte.
*/
module Strconv {
  import opened Wrappers
  import opened GoInts

  /** The two errors strconv reports. */
  datatype ErrKind = ErrSyntax | ErrRange

  /** strconv.NumError: the function that failed, its input and the reason. */
  datatype NumError = NumError(func: string, num: string, err: ErrKind)

  function ErrKindText(k: ErrKind): string
  {
    match k
    case ErrSyntax => "invalid syntax"
    case ErrRange => "value out of range"
  }

  /**
    NumError.Error(): `strconv.<Func>: parsing <quoted Num>: <reason>`. A
    string of digits is quoted as it is, between two double quotes.
  */
  function ErrorText(e: NumError): (t: string)
    ensures IsDecimal(e.num) ==>
      t == "strconv." + e.func + ": parsing \"" + e.num + "\": " + ErrKindText(e.err)
  {
    var t := "strconv." + e.func + ": parsing " + Quote(e.num) + ": " + ErrKindText(e.err);
    if IsDecimal(e.num) then
      Regroup("strconv." + e.func + ": parsing ", "\"", e.num, ": ", ErrKindText(e.err));
      assert ("strconv." + e.func + ": parsing ") + "\"" == "strconv." + e.func + ": parsing \"";
      t
    else t
  }

  // ---------------------------------------------------------------- digits

  predicate IsDecimalDigit(c: char) { '0' <= c <= '9' }

  /** A non-empty string of ASCII decimal digits (the route's `[0-9]+`). */
  predicate IsDecimal(s: string)
  {
    |s| > 0 && forall i :: 0 <= i < |s| ==> IsDecimalDigit(s[i])
  }

  /**
    The digit a byte stands for in `ParseUint`: `0`-`9` are 0..9 and a letter of
    either case is 10..35 (Go folds the case with `c | 0x20`); anything else is
    no digit at all.
  */
  function DigitValue(c: char): (d: Option<nat>)
    ensures d.Some? ==> d.value < 36
    ensures d.Some? && d.value < 10 <==> IsDecimalDigit(c)
  {
    if '0' <= c <= '9' then Some(c as int - '0' as int)
    else if 'a' <= c <= 'z' then Some(c as int - 'a' as int + 10)
    else if 'A' <= c <= 'Z' then Some(c as int - 'A' as int + 10)
    else None
  }

  predicate IsDigitIn(c: char, base: nat)
  {
    DigitValue(c).Some? && DigitValue(c).value < base
  }

  predicate AllDigitsIn(s: string, base: nat)
  {
    forall i :: 0 <= i < |s| ==> IsDigitIn(s[i], base)
  }

  /** Positional value of a digit string, most significant digit first. */
  function Value(s: string, base: nat): nat
    requires AllDigitsIn(s, base)
    decreases |s|
  {
    if s == [] then 0
    else Value(s[..|s| - 1], base) * base + DigitValue(s[|s| - 1]).value
  }

  /** The number a string of decimal digits spells. */
  function DecimalValue(s: string): nat
    requires IsDecimal(s)
  {
    DecimalLemma(s);
    Value(s, 10)
  }

  function Pow(b: nat, e: nat): nat
  {
    if e == 0 then 1 else b * Pow(b, e - 1)
  }

  /** A string of n digits is worth less than base^n. */
  lemma {:induction false} ValueBound(s: string, base: nat)
    requires AllDigitsIn(s, base)
    ensures Value(s, base) < Pow(base, |s|)
    decreases |s|
  {
    if s != [] {
      var p := s[..|s| - 1];
      ValueBound(p, base);
      DigitAppendBound(Value(p, base), DigitValue(s[|s| - 1]).value, Pow(base, |p|), base);
    }
  }

  lemma DigitAppendBound(v: nat, d: nat, q: nat, base: nat)
    requires v < q && d < base
    ensures v * base + d < base * q
  {
    assert v * base + base == (v + 1) * base;
    MulMonotone(v + 1, q, base);
  }

  lemma MulMonotone(a: nat, b: nat, c: nat)
    requires a <= b
    ensures a * c <= b * c
  {
  }

  /** Appending a digit never lowers the value: n <= n * base + d when d < base. */
  lemma DigitStep(n: nat, base: nat, d: nat)
    requires d < base
    ensures n <= n * base + d
  {
    MulMonotone(1, base, n);
  }

  /** Dropping the last digit: the prefix is a digit string worth no more. */
  lemma ValueDropLast(s: string, base: nat)
    requires s != []
    ensures AllDigitsIn(s, base) ==> AllDigitsIn(s[..|s| - 1], base)
    ensures AllDigitsIn(s, base) ==>
      Value(s, base) == Value(s[..|s| - 1], base) * base + DigitValue(s[|s| - 1]).value
      && Value(s[..|s| - 1], base) <= Value(s, base)
  {
    if AllDigitsIn(s, base) {
      DigitStep(Value(s[..|s| - 1], base), base, DigitValue(s[|s| - 1]).value);
    }
  }

  /** Value(p + [c]) adds one least significant digit. */
  lemma ValueSnoc(p: string, c: char, base: nat)
    requires AllDigitsIn(p, base) && IsDigitIn(c, base)
    ensures AllDigitsIn(p + [c], base)
    ensures Value(p + [c], base) == Value(p, base) * base + DigitValue(c).value
  {
    var s := p + [c];
    assert s[..|s| - 1] == p;
  }

  // ------------------------------------------------------------ ParseUint

  /**
    The digit loop of `ParseUint`, read from left to right: the first byte that
    is not a digit of `base` is a syntax error, and a running value that passes
    `maxVal` is a range error, whichever comes first. Go detects the overflow
    with a cutoff and a wrap-around test on uint64; with `maxVal` at most
    2^64 - 1 both tests fire exactly when the unbounded value passes `maxVal`.
  */
  function ScanDigits(s: string, base: nat, maxVal: nat): (r: Result<nat, ErrKind>)
    decreases |s|
    ensures r.Ok? <==> AllDigitsIn(s, base) && Value(s, base) <= maxVal
    ensures r.Ok? ==> AllDigitsIn(s, base) && r.value == Value(s, base)
    ensures r.Err? && AllDigitsIn(s, base) ==> r.error == ErrRange
  {
    if s == [] then Ok(0)
    else
      var p, c := s[..|s| - 1], s[|s| - 1];
      assert s == p + [c];
      ValueDropLast(s, base);
      match ScanDigits(p, base, maxVal)
      case Err(k) => Err(k)
      case Ok(n) =>
        var d := DigitValue(c);
        if d.None? || d.value >= base then Err(ErrSyntax)
        else if n * base + d.value > maxVal then Err(ErrRange)
        else Ok(n * base + d.value)
  }

  /**
    strconv.ParseUint(s, base, bitSize) for an explicit base (2 to 36) and the
    two widths the program uses.
  */
  function ParseUint(s: string, base: nat, bitSize: nat): (r: Result<nat, NumError>)
    requires 2 <= base <= 36
    requires bitSize == 32 || bitSize == 64
    ensures r.Ok? <==> s != "" && AllDigitsIn(s, base)
                        && Value(s, base) <= (if bitSize == 32 then MAX_UINT32 else MAX_UINT64)
    ensures r.Ok? ==> AllDigitsIn(s, base) && r.value == Value(s, base)
    ensures r.Err? ==> r.error.func == "ParseUint" && r.error.num == s
  {
    var maxVal := if bitSize == 32 then MAX_UINT32 else MAX_UINT64;
    if s == "" then Err(NumError("ParseUint", s, ErrSyntax))
    else
      match ScanDigits(s, base, maxVal)
      case Ok(n) => Ok(n)
      case Err(k) => Err(NumError("ParseUint", s, k))
  }

  // -------------------------------------------------------- ParseInt, Atoi

  /** The body of a signed decimal: the string without one leading `+` or `-`. */
  function Unsigned(s: string): string
  {
    if |s| > 0 && (s[0] == '+' || s[0] == '-') then s[1..] else s
  }

  predicate IsNegative(s: string) { |s| > 0 && s[0] == '-' }

  /**
    strconv.ParseInt(s, 10, 0) with a 64-bit `int`. A syntax error from
    ParseUint is reported as is; a range error from ParseUint leaves its
    maximum 2^64 - 1 behind, which the cutoff test then reports as a range
    error as well, so both are re-labelled with ParseInt and the whole input.
  */
  function ParseInt(s: string): (r: Result<int, NumError>)
    ensures r.Ok? <==> IsSignedDecimal(s) && InInt64(SignedValue(s))
    ensures r.Ok? ==> r.value == SignedValue(s)
    ensures r.Err? ==> r.error.func == "ParseInt" && r.error.num == s
  {
    if s == "" then Err(NumError("ParseInt", s, ErrSyntax))
    else
      match ParseUint(Unsigned(s), 10, 64)
      case Err(e) => Err(NumError("ParseInt", s, e.err))
      case Ok(un) =>
        var cutoff := MAX_INT64 + 1;
        if !IsNegative(s) && un >= cutoff then Err(NumError("ParseInt", s, ErrRange))
        else if IsNegative(s) && un > cutoff then Err(NumError("ParseInt", s, ErrRange))
        else Ok(if IsNegative(s) then -(un as int) else un)
  }

  /** A string Atoi accepts: an optional sign and then one or more decimal digits. */
  predicate IsSignedDecimal(s: string) { IsDecimal(Unsigned(s)) }

  function SignedValue(s: string): int
    requires IsSignedDecimal(s)
  {
    DecimalLemma(Unsigned(s));
    var v: int := Value(Unsigned(s), 10);
    if IsNegative(s) then -v else v
  }

  /**
    strconv.Atoi on a 64-bit platform: strings of 1 to 18 bytes take a fast
    path that cannot overflow; all others go through ParseInt, whose error is
    re-labelled with Atoi.
  */
  function Atoi(s: string): (r: Result<int, NumError>)
    ensures r.Ok? <==> IsSignedDecimal(s) && InInt64(SignedValue(s))
    ensures r.Ok? ==> r.value == SignedValue(s)
    ensures r.Err? ==> r.error.func == "Atoi" && r.error.num == s
  {
    AtoiFacts(s);
    if 0 < |s| < 19 then
      var body := Unsigned(s);
      if |body| < 1 then Err(NumError("Atoi", s, ErrSyntax))
      else if !IsDecimal(body) then Err(NumError("Atoi", s, ErrSyntax))
      else
        DecimalLemma(body);
        var v: int := Value(body, 10);
        Ok(if s[0] == '-' then -v else v)
    else
      match ParseInt(s)
      case Err(e) => Err(e.(func := "Atoi"))
      case Ok(n) => Ok(n)
  }

  /** A decimal string consists of base-10 digits. */
  lemma DecimalLemma(s: string)
    requires IsDecimal(s)
    ensures AllDigitsIn(s, 10)
  {
    forall i | 0 <= i < |s| ensures IsDigitIn(s[i], 10) {
      assert IsDecimalDigit(s[i]);
    }
  }

  lemma AllDigits10IsDecimal(s: string)
    requires s != [] && AllDigitsIn(s, 10)
    ensures IsDecimal(s)
  {
    forall i | 0 <= i < |s| ensures IsDecimalDigit(s[i]) {
      assert IsDigitIn(s[i], 10);
    }
  }

  /** What both paths of Atoi rely on: the fast path's input is too short to overflow. */
  lemma AtoiFacts(s: string)
    ensures 0 < |s| < 19 && IsSignedDecimal(s) ==> InInt64(SignedValue(s))
  {
    if 0 < |s| < 19 && IsSignedDecimal(s) {
      var body := Unsigned(s);
      DecimalLemma(body);
      ValueBound(body, 10);
      assert |body| <= 18;
      PowMonotone(10, |body|, 18);
      Pow10At18();
    }
  }

  lemma Pow10At18()
    ensures Pow(10, 18) == 1_000_000_000_000_000_000
  {
    assert Pow(10, 1) == 10;
    assert Pow(10, 2) == 100;
    assert Pow(10, 3) == 1000;
    assert Pow(10, 4) == 10000;
    assert Pow(10, 5) == 100000;
    assert Pow(10, 6) == 1000000;
    assert Pow(10, 7) == 10000000;
    assert Pow(10, 8) == 100000000;
    assert Pow(10, 9) == 1000000000;
    assert Pow(10, 10) == 10000000000;
    assert Pow(10, 11) == 100000000000;
    assert Pow(10, 12) == 1000000000000;
    assert Pow(10, 13) == 10000000000000;
    assert Pow(10, 14) == 100000000000000;
    assert Pow(10, 15) == 1000000000000000;
    assert Pow(10, 16) == 10000000000000000;
    assert Pow(10, 17) == 100000000000000000;
    assert Pow(10, 18) == 1000000000000000000;
  }

  lemma {:induction false} PowMonotone(b: nat, e1: nat, e2: nat)
    requires b >= 1 && e1 <= e2
    ensures Pow(b, e1) <= Pow(b, e2)
    decreases e2
  {
    if e1 < e2 {
      PowMonotone(b, e1, e2 - 1);
      assert Pow(b, e2) == b * Pow(b, e2 - 1);
    }
  }

  // ----------------------------------------------------------------- Itoa

  function DecimalDigit(n: nat): (c: char)
    requires n < 10
    ensures IsDecimalDigit(c) && DigitValue(c) == Some(n)
  {
    ('0' as int + n) as char
  }

  /**
    strconv.FormatUint(n, 10): the shortest decimal spelling of n, so no
    leading zero unless n is 0 itself.
  */
  function FormatUint(n: nat): (s: string)
    ensures IsDecimal(s) && AllDigitsIn(s, 10) && Value(s, 10) == n
    ensures |s| > 1 ==> s[0] != '0'
    decreases n
  {
    if n < 10 then
      assert AllDigitsIn([DecimalDigit(n)], 10);
      assert Value([DecimalDigit(n)], 10) == Value([], 10) * 10 + n;
      [DecimalDigit(n)]
    else
      var p := FormatUint(n / 10);
      var c := DecimalDigit(n % 10);
      ValueSnoc(p, c, 10);
      AllDigits10IsDecimal(p + [c]);
      p + [c]
  }

  /**
    strconv.Itoa: the canonical spelling of n, a `-` exactly for a negative n,
    never a `+`, and no leading zero unless n is 0.
  */
  function Itoa(n: int): (s: string)
    ensures IsSignedDecimal(s) && SignedValue(s) == n
    ensures s[0] != '+' && (IsNegative(s) <==> n < 0)
    ensures |Unsigned(s)| > 1 ==> Unsigned(s)[0] != '0'
    ensures forall i :: 0 <= i < |s| ==> s[i] != 'x'
  {
    if n < 0 then
      var s := "-" + FormatUint(-n);
      assert Unsigned(s) == FormatUint(-n);
      s
    else
      FormatUint(n)
  }

  /** Atoi reads back what Itoa writes, for every 64-bit int. */
  lemma AtoiItoa(n: int)
    requires InInt64(n)
    ensures Atoi(Itoa(n)) == Ok(n)
  {
  }

  /**
    On a non-empty string of decimal digits (all the route lets through) Atoi
    can only fail by being out of range, and then it reports exactly that.
  */
  lemma {:induction false} AtoiDecimal(s: string)
    requires IsDecimal(s)
    ensures AllDigitsIn(s, 10)
    ensures Atoi(s) == if Value(s, 10) <= MAX_INT64 then Ok(Value(s, 10))
                       else Err(NumError("Atoi", s, ErrRange))
  {
    DecimalLemma(s);
    assert Unsigned(s) == s && !IsNegative(s) by { assert IsDecimalDigit(s[0]); }
    if Value(s, 10) > MAX_INT64 {
      AtoiFacts(s);
      assert |s| >= 19;
      assert ParseInt(s) == Err(NumError("ParseInt", s, ErrRange));
    }
  }

  // ---------------------------------------------------------------- Quote

  function LowerHexDigit(n: nat): char
    requires n < 16
  {
    if n < 10 then ('0' as int + n) as char else ('a' as int + n - 10) as char
  }

  /**
    How strconv.Quote writes one character: backslash before `"` and `\`,
    printable ASCII as is, the C escapes for the seven control characters that
    have one, `\xHH` for the other ASCII control characters and DEL; non-ASCII
    characters are copied.
  */
  function EscapeChar(c: char): (e: string)
    ensures |e| >= 1
    ensures ' ' <= c <= '~' && c != '"' && c != '\\' ==> e == [c]
  {
    var n := c as int;
    if c == '"' || c == '\\' then ['\\', c]
    else if ' ' <= c <= '~' then [c]
    else if n == 7 then "\\a"
    else if n == 8 then "\\b"
    else if n == 12 then "\\f"
    else if n == 10 then "\\n"
    else if n == 13 then "\\r"
    else if n == 9 then "\\t"
    else if n == 11 then "\\v"
    else if n < 0x80 then ['\\', 'x', LowerHexDigit(n / 16), LowerHexDigit(n % 16)]
    else [c]
  }

  /**
    The characters of s, each as EscapeChar writes it: never shorter than s,
    and a string of decimal digits needs no escaping at all.
  */
  function Escape(s: string): (e: string)
    ensures |e| >= |s|
    ensures (forall i :: 0 <= i < |s| ==> IsDecimalDigit(s[i])) ==> e == s
  {
    if s == [] then []
    else
      assert s == [s[0]] + s[1..];
      EscapeChar(s[0]) + Escape(s[1..])
  }

  lemma Regroup(x: string, q: string, s: string, c: string, k: string)
    ensures x + (q + s + q) + c + k == (x + q) + s + (q + c) + k
  {
  }

  /**
    strconv.Quote: the escaped string between double quotes; a string of
    digits appears as it is.
  */
  function Quote(s: string): (q: string)
    ensures |q| >= |s| + 2 && q[0] == '"' && q[|q| - 1] == '"'
    ensures (forall i :: 0 <= i < |s| ==> IsDecimalDigit(s[i])) ==> q == "\"" + s + "\""
  {
    "\"" + Escape(s) + "\""
  }

  /** The text of Atoi's range error for a string of digits, written out. */
  function RangeErrorText(s: string): string
  {
    "strconv.Atoi: parsing \"" + s + "\": value out of range"
  }

  /** NumError.Error() of Atoi's range error on a string of digits is that text. */
  lemma AtoiRangeText(s: string)
    requires IsDecimal(s)
    ensures ErrorText(NumError("Atoi", s, ErrRange)) == RangeErrorText(s)
  {
    var x, k := "strconv." + "Atoi" + ": parsing \"", "value out of range";
    assert x == "strconv.Atoi: parsing \"";
    assert "\": " + k == "\": value out of range";
    assert x + s + "\": " + k == x + s + ("\": " + k);
  }
}
