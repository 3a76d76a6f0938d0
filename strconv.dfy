/**
 * The parts of Go's `strconv` package that coerce default literals: `ParseBool`,
 * and `ParseUint` / `ParseInt` in base 10, together with the `*NumError` values
 * they fail with and the text those errors print.
 */
module StrConv {
  import opened Wrappers

  /** `strconv.ErrSyntax` and `strconv.ErrRange`. */
  datatype NumErr = ErrSyntax | ErrRange

  /** `*strconv.NumError`: the function that failed, the input it was given and why. */
  datatype NumError = NumError(func: string, num: string, err: NumErr)

  function NumErrText(e: NumErr): string {
    match e
    case ErrSyntax => "invalid syntax"
    case ErrRange => "value out of range"
  }

  /** `(*NumError).Error()`. */
  function NumErrorText(e: NumError): (msg: string)
    ensures |msg| > 8 && msg[..8] == "strconv."
  {
    "strconv." + e.func + ": parsing " + Quote(e.num) + ": " + NumErrText(e.err)
  }

  function HexDigit(d: nat): char
    requires d < 16
  {
    if d < 10 then ('0' as int + d) as char else ('a' as int + d - 10) as char
  }

  /** How `strconv.Quote` writes one code point; non-ASCII code points are kept as they are. */
  function EscapeChar(c: char): string {
    if c == '"' then "\\\""
    else if c == '\\' then "\\\\"
    else if c == '\U{07}' then "\\a"
    else if c == '\U{08}' then "\\b"
    else if c == '\U{0C}' then "\\f"
    else if c == '\n' then "\\n"
    else if c == '\r' then "\\r"
    else if c == '\t' then "\\t"
    else if c == '\U{0B}' then "\\v"
    else if c as int < 0x20 || c as int == 0x7f then "\\x" + [HexDigit(c as int / 16), HexDigit(c as int % 16)]
    else [c]
  }

  function Escape(s: string): string {
    if s == [] then [] else EscapeChar(s[0]) + Escape(s[1..])
  }

  /** `strconv.Quote`: `s` as a double-quoted Go string literal. */
  function Quote(s: string): (q: string)
    ensures |q| >= 2 && q[0] == '"' && q[|q| - 1] == '"'
  {
    "\"" + Escape(s) + "\""
  }

  /** `strconv.ParseBool`: the six spellings of each truth value, nothing else. */
  function ParseBool(str: string): (r: Result<bool, NumError>)
    ensures r.Ok? <==> str in TrueSpellings() + FalseSpellings()
    ensures r.Ok? ==> (r.value <==> str in TrueSpellings())
    ensures r.Err? ==> r.error == NumError("ParseBool", str, ErrSyntax)
  {
    if str in TrueSpellings() then Ok(true)
    else if str in FalseSpellings() then Ok(false)
    else Err(NumError("ParseBool", str, ErrSyntax))
  }

  function TrueSpellings(): set<string> { {"1", "t", "T", "true", "TRUE", "True"} }

  function FalseSpellings(): set<string> { {"0", "f", "F", "false", "FALSE", "False"} }

  predicate IsDigit(c: char) { '0' <= c <= '9' }

  predicate AllDigits(s: string) { forall k :: 0 <= k < |s| ==> IsDigit(s[k]) }

  function DigitVal(c: char): nat
    requires IsDigit(c)
  {
    c as int - '0' as int
  }

  function Pow(b: nat, e: nat): (r: nat)
    ensures b >= 1 ==> r >= 1
  {
    if e == 0 then 1 else b * Pow(b, e - 1)
  }

  /** Reference meaning of a decimal numeral, read in positional (Horner) form. */
  function DecValue(s: string): nat
    requires AllDigits(s)
  {
    if s == [] then 0 else DecValue(s[..|s| - 1]) * 10 + DigitVal(s[|s| - 1])
  }

  /**
   * The digit loop of `strconv.ParseUint` in base 10. `acc` is the value read so
   * far and `max` the largest value of the bit size. A code point that is not a
   * decimal digit is a syntax error; a value above `max` is a range error, reported
   * as soon as the digits read so far exceed it.
   */
  function ScanDigits(s: string, acc: nat, max: nat): Result<nat, NumErr> {
    if s == [] then Ok(acc)
    else if !IsDigit(s[0]) then Err(ErrSyntax)
    else
      var n := acc * 10 + DigitVal(s[0]);
      if n > max then Err(ErrRange) else ScanDigits(s[1..], n, max)
  }

  /** The digit loop never returns a value above its bound. */
  lemma {:induction false} ScanDigitsBound(s: string, acc: nat, max: nat)
    requires acc <= max
    ensures ScanDigits(s, acc, max).Ok? ==> ScanDigits(s, acc, max).value <= max
    decreases |s|
  {
    if s != [] && IsDigit(s[0]) && acc * 10 + DigitVal(s[0]) <= max {
      ScanDigitsBound(s[1..], acc * 10 + DigitVal(s[0]), max);
    }
  }

  /** `strconv.ParseUint(s, 10, bits)`. A sign is not a digit, so it is a syntax error. */
  function ParseUint(s: string, bits: nat): (r: Result<nat, NumError>)
    ensures r.Err? ==> r.error.func == "ParseUint" && r.error.num == s
    ensures r.Ok? ==> r.value < Pow(2, bits)
  {
    if s == [] then Err(NumError("ParseUint", s, ErrSyntax))
    else
      ScanDigitsBound(s, 0, Pow(2, bits) - 1);
      match ScanDigits(s, 0, Pow(2, bits) - 1)
      case Ok(n) => Ok(n)
      case Err(e) => Err(NumError("ParseUint", s, e))
  }

  /** Whether `s` starts with a sign that `ParseInt` strips. */
  predicate Signed(s: string) { |s| > 0 && (s[0] == '+' || s[0] == '-') }

  /** The digits `ParseInt` hands to `ParseUint`: `s` without its sign. */
  function Magnitude(s: string): string { if Signed(s) then s[1..] else s }

  /**
   * `strconv.ParseInt(s, 10, bits)`: an optional sign, then `ParseUint` of the rest
   * at the same bit size, then the signed range check. A range error of `ParseUint`
   * is not returned as such: the magnitude is taken as the largest unsigned value,
   * which the signed check then rejects.
   */
  function ParseInt(s: string, bits: nat): (r: Result<int, NumError>)
    requires 1 <= bits
    ensures r.Err? ==> r.error.func == "ParseInt" && r.error.num == s
    ensures r.Ok? ==> -(Pow(2, bits - 1) as int) <= r.value < Pow(2, bits - 1)
  {
    if s == [] then Err(NumError("ParseInt", s, ErrSyntax))
    else
      var neg := s[0] == '-';
      var u := ParseUint(Magnitude(s), bits);
      if u.Err? && u.error.err != ErrRange then Err(NumError("ParseInt", s, u.error.err))
      else
        var un := if u.Ok? then u.value else Pow(2, bits) - 1;
        var cutoff := Pow(2, bits - 1);
        if !neg && un >= cutoff then Err(NumError("ParseInt", s, ErrRange))
        else if neg && un > cutoff then Err(NumError("ParseInt", s, ErrRange))
        else Ok(if neg then -un else un)
  }

  lemma PowStep(b: nat, e: nat)
    requires e >= 1
    ensures Pow(b, e) == b * Pow(b, e - 1)
  {
  }

  /** Appending digits never makes a numeral smaller. */
  lemma {:induction false} DecValueGrows(p: string, s: string)
    requires AllDigits(p + s)
    ensures AllDigits(p)
    ensures DecValue(p + s) >= DecValue(p)
    decreases |s|
  {
    assert forall k :: 0 <= k < |p| ==> p[k] == (p + s)[k];
    if s == [] {
      assert p + s == p;
    } else {
      var q := p + s[..|s| - 1];
      assert (p + s)[..|p + s| - 1] == q;
      assert q == p + s[..|s| - 1];
      assert forall k :: 0 <= k < |q| ==> q[k] == (p + s)[k];
      assert AllDigits(q);
      DecValueGrows(p, s[..|s| - 1]);
      assert DecValue(p + s) == DecValue(q) * 10 + DigitVal((p + s)[|p + s| - 1]);

    }
  }

  /**
   * The digit loop reads the same number as positional notation, and fails exactly
   * when that number is too large: started after the digits `p`, it reads `p + s`.
   */
  lemma {:induction false} ScanDigitsMeaning(p: string, s: string, max: nat)
    requires AllDigits(p) && DecValue(p) <= max
    ensures ScanDigits(s, DecValue(p), max).Ok? <==> AllDigits(p + s) && DecValue(p + s) <= max
    ensures ScanDigits(s, DecValue(p), max).Ok? ==> ScanDigits(s, DecValue(p), max).value == DecValue(p + s)
    ensures AllDigits(p + s) && ScanDigits(s, DecValue(p), max).Err? ==> ScanDigits(s, DecValue(p), max).error == ErrRange
    decreases |s|
  {
    if s == [] {
      assert p + s == p;
    } else {
      var q := p + [s[0]];
      assert p + s == q + s[1..];
      if IsDigit(s[0]) {
        assert forall k :: 0 <= k < |q| ==> IsDigit(q[k]) by {
          assert forall k :: 0 <= k < |p| ==> q[k] == p[k];
        }
        assert q[..|q| - 1] == p;
        assert DecValue(q) == DecValue(p) * 10 + DigitVal(s[0]);
        if AllDigits(q + s[1..]) {
          DecValueGrows(q, s[1..]);
        }
        if DecValue(q) <= max {
          ScanDigitsMeaning(q, s[1..], max);
        }
      } else {
        assert (p + s)[|p|] == s[0];
      }
    }
  }

  /** `ParseUint` succeeds exactly on non-empty decimal numerals below 2^bits, and returns their value. */
  lemma ParseUintMeaning(s: string, bits: nat)
    ensures ParseUint(s, bits).Ok? <==> s != [] && AllDigits(s) && DecValue(s) < Pow(2, bits)
    ensures ParseUint(s, bits).Ok? ==> ParseUint(s, bits).value == DecValue(s)
    ensures s != [] && AllDigits(s) && DecValue(s) >= Pow(2, bits) ==> ParseUint(s, bits).error.err == ErrRange
    ensures s != [] && !IsDigit(s[0]) ==> ParseUint(s, bits).error.err == ErrSyntax
  {
    if s != [] {
      ScanDigitsMeaning([], s, Pow(2, bits) - 1);
      assert [] + s == s;
    }
  }

  /**
   * `ParseInt` succeeds exactly on an optionally signed, non-empty decimal numeral
   * whose value lies in [-2^(bits-1), 2^(bits-1)), and returns that value.
   */
  lemma ParseIntMeaning(s: string, bits: nat)
    requires 2 <= bits
    ensures var m := Magnitude(s);
      ParseInt(s, bits).Ok? <==>
        s != [] && m != [] && AllDigits(m) &&
        (if s[0] == '-' then DecValue(m) <= Pow(2, bits - 1) else DecValue(m) < Pow(2, bits - 1))
    ensures ParseInt(s, bits).Ok? ==>
      ParseInt(s, bits).value == if s[0] == '-' then -(DecValue(Magnitude(s)) as int) else DecValue(Magnitude(s))
    ensures ParseInt(s, bits).Ok? ==> -(Pow(2, bits - 1) as int) <= ParseInt(s, bits).value < Pow(2, bits - 1)
  {
    if s != [] {
      var m := Magnitude(s);
      ParseUintMeaning(m, bits);
      PowStep(2, bits);
      assert Pow(2, bits - 1) >= 2 by { PowStep(2, bits - 1); }
    }
  }
}
