/**
 * The command-line front end: from the options `commander` has parsed to
 * the options object handed to `terminalKittyImage`.  JavaScript's
 * `parseInt` is modelled for decimal and `0x` hexadecimal input; the object
 * `out` is a map from property names to values, so that a key the library
 * never reads (`stretch`, `callback`) stays visible.
 */
module Cli {
  import opened Wrappers
  import opened Policy

  /** Whitespace `parseInt` skips: tab, line feed, vertical tab, form feed, carriage return, space. */
  predicate IsSpace(c: char) {
    c == ' ' || c == '\t' || c == '\n' || c == '\r' || c as int == 11 || c as int == 12
  }

  function TrimStart(s: string): string
    decreases |s|
  {
    if |s| > 0 && IsSpace(s[0]) then TrimStart(s[1..]) else s
  }

  /** The value of a digit character, 36 for anything that is not a digit below base 16. */
  function DigitValue(c: char): nat {
    if '0' <= c <= '9' then c as int - '0' as int
    else if 'a' <= c <= 'f' then c as int - 'a' as int + 10
    else if 'A' <= c <= 'F' then c as int - 'A' as int + 10
    else 36
  }

  /** How many leading characters of `s` are digits in base `radix`. */
  function DigitRun(s: string, radix: nat): (n: nat)
    ensures n <= |s|
    decreases |s|
  {
    if |s| > 0 && DigitValue(s[0]) < radix then 1 + DigitRun(s[1..], radix) else 0
  }

  function DigitsValue(digits: string, radix: nat): nat
    decreases |digits|
  {
    if |digits| == 0 then 0
    else DigitsValue(digits[..|digits| - 1], radix) * radix + DigitValue(digits[|digits| - 1])
  }

  /** The digits at the front of `v` in base `radix`, as a number; `None` when there are none. */
  function ReadDigits(v: string, radix: nat): Option<nat> {
    var k := DigitRun(v, radix);
    if k == 0 then None else Some(DigitsValue(v[..k], radix))
  }

  /** After the sign: a `0x` or `0X` prefix selects base 16, anything else base 10. */
  function ReadMagnitude(u: string): Option<nat> {
    if |u| >= 2 && u[0] == '0' && (u[1] == 'x' || u[1] == 'X') then ReadDigits(u[2..], 16)
    else ReadDigits(u, 10)
  }

  /** An optional sign, then the magnitude. */
  function ReadSigned(t: string): Option<int> {
    if |t| > 0 && t[0] == '-' then
      match ReadMagnitude(t[1..])
      case None => None
      case Some(m) => Some(-(m as int))
    else if |t| > 0 && t[0] == '+' then
      match ReadMagnitude(t[1..])
      case None => None
      case Some(m) => Some(m)
    else
      match ReadMagnitude(t)
      case None => None
      case Some(m) => Some(m)
  }

  /**
   * `parseInt(s)`: skip leading whitespace, read an optional sign, then a
   * `0x` prefix and hexadecimal digits or else decimal digits, as many as
   * there are; no digit at all is `NaN` (`None`).
   */
  function ParseInt(s: string): Option<int> {
    ReadSigned(TrimStart(s))
  }

  function Digit(d: nat): char
    requires d < 10
  {
    ('0' as int + d) as char
  }

  /** How JavaScript writes a non-negative integer. */
  function NatToString(n: nat): string
    decreases n
  {
    if n < 10 then [Digit(n)] else NatToString(n / 10) + [Digit(n % 10)]
  }

  /** How JavaScript writes an integer, `String(n)`. */
  function IntToString(n: int): string {
    if n < 0 then "-" + NatToString(-n) else NatToString(n)
  }

  predicate AllDecimal(s: string) {
    forall i :: 0 <= i < |s| ==> '0' <= s[i] <= '9'
  }

  lemma {:induction false} NatToStringDigits(n: nat)
    ensures |NatToString(n)| > 0 && AllDecimal(NatToString(n))
    ensures DigitsValue(NatToString(n), 10) == n
    decreases n
  {
    if n >= 10 {
      NatToStringDigits(n / 10);
      var s := NatToString(n);
      assert s[..|s| - 1] == NatToString(n / 10);
    }
  }

  /** Every character of `d` is a digit in base `radix`. */
  predicate AllDigits(d: string, radix: nat) {
    forall i :: 0 <= i < |d| ==> DigitValue(d[i]) < radix
  }

  /** A run of digits ends where the digits end. */
  lemma {:induction false} DigitRunStops(d: string, rest: string, radix: nat)
    requires AllDigits(d, radix)
    requires |rest| == 0 || DigitValue(rest[0]) >= radix
    ensures DigitRun(d + rest, radix) == |d|
    decreases |d|
  {
    if |d| > 0 {
      assert (d + rest)[1..] == d[1..] + rest;
      DigitRunStops(d[1..], rest, radix);
    } else {
      assert d + rest == rest;
    }
  }

  /** Only zero is written with a leading `0`. */
  lemma {:induction false} NoLeadingZero(n: nat)
    requires n > 0
    ensures NatToString(n)[0] != '0'
    decreases n
  {
    if n >= 10 {
      NoLeadingZero(n / 10);
      assert NatToString(n)[0] == NatToString(n / 10)[0];
    }
  }

  /** Decimal digits, then text that does not go on with a digit or an `x`, read as an unsigned number. */
  predicate ReadableAfter(d: string, rest: string) {
    && |d| > 0 && AllDecimal(d)
    && (|rest| == 0 || (DigitValue(rest[0]) >= 10 && rest[0] != 'x' && rest[0] != 'X'))
    && (d[0] == '0' ==> |d| == 1)
  }

  /** Decimal digits followed by such text read back as their value. */
  lemma UnsignedText(d: string, rest: string)
    requires ReadableAfter(d, rest)
    ensures |d + rest| > 0 && !IsSpace((d + rest)[0]) && (d + rest)[0] != '-' && (d + rest)[0] != '+'
    ensures ReadMagnitude(d + rest) == Some(DigitsValue(d, 10))
  {
    assert AllDigits(d, 10);
    DigitRunStops(d, rest, 10);
    var u := d + rest;
    assert u[0] == d[0];
    if |u| >= 2 && u[0] == '0' {
      assert u[1] == rest[0];
    }
    assert u[..|d|] == d;
  }

  lemma ParseUnsigned(d: string, rest: string)
    requires ReadableAfter(d, rest)
    ensures ParseInt(d + rest) == Some(DigitsValue(d, 10))
  {
    UnsignedText(d, rest);
    assert TrimStart(d + rest) == d + rest;
  }

  lemma ParseNegative(d: string, rest: string)
    requires ReadableAfter(d, rest)
    ensures ParseInt("-" + d + rest) == Some(-(DigitsValue(d, 10) as int))
  {
    UnsignedText(d, rest);
    SignParts(d, rest);
    assert TrimStart("-" + d + rest) == "-" + d + rest;
  }

  lemma SignParts(d: string, rest: string)
    ensures ("-" + d + rest)[0] == '-' && ("-" + d + rest)[1..] == d + rest
  {
  }

  /**
   * `parseInt` reads back what `String(n)` writes, whatever text that is
   * not a digit follows it (`"40px"` is 40), except an `x`: `"0x5"` is 5.
   */
  lemma ParseIntReadsBack(n: int, rest: string)
    requires |rest| == 0 || (DigitValue(rest[0]) >= 10 && rest[0] != 'x' && rest[0] != 'X')
    ensures ParseInt(IntToString(n) + rest) == Some(n)
  {
    var d := NatToString(if n < 0 then -n else n);
    NumberText(if n < 0 then -n else n, rest);
    if n < 0 {
      assert IntToString(n) == "-" + d;
      ParseNegative(d, rest);
    } else {
      assert IntToString(n) == d;
      ParseUnsigned(d, rest);
    }
  }

  /** The text of a number, followed by `rest`, reads as that number. */
  lemma NumberText(m: nat, rest: string)
    requires |rest| == 0 || (DigitValue(rest[0]) >= 10 && rest[0] != 'x' && rest[0] != 'X')
    ensures ReadableAfter(NatToString(m), rest)
    ensures DigitsValue(NatToString(m), 10) == m
  {
    NatToStringDigits(m);
    if m > 0 {
      NoLeadingZero(m);
    }
  }

  /** Text made only of whitespace that `parseInt` skips. */
  predicate AllSpace(ws: string) {
    forall i :: 0 <= i < |ws| ==> IsSpace(ws[i])
  }

  /** Leading whitespace does not change what `parseInt` reads. */
  lemma {:induction false} SkipsLeadingSpace(ws: string, t: string)
    requires AllSpace(ws)
    ensures ParseInt(ws + t) == ParseInt(t)
    decreases |ws|
  {
    if |ws| == 0 {
      assert ws + t == t;
    } else {
      assert (ws + t)[0] == ws[0] && (ws + t)[1..] == ws[1..] + t;
      assert TrimStart(ws + t) == TrimStart(ws[1..] + t);
      SkipsLeadingSpace(ws[1..], t);
    }
  }

  /** Without a sign, `parseInt` reads the magnitude as it is. */
  lemma UnsignedRead(u: string)
    requires |u| == 0 || (!IsSpace(u[0]) && u[0] != '-' && u[0] != '+')
    ensures ReadMagnitude(u).None? ==> ParseInt(u).None?
    ensures ReadMagnitude(u).Some? ==> ParseInt(u) == Some(ReadMagnitude(u).value as int)
  {
    assert TrimStart(u) == u;
  }

  /** A minus sign negates the magnitude after it; a plus sign leaves it as it is. */
  lemma SignedRead(u: string)
    ensures ReadMagnitude(u).None? ==> ParseInt("-" + u).None? && ParseInt("+" + u).None?
    ensures ReadMagnitude(u).Some? ==> ParseInt("-" + u) == Some(-(ReadMagnitude(u).value as int))
    ensures ReadMagnitude(u).Some? ==> ParseInt("+" + u) == Some(ReadMagnitude(u).value as int)
  {
    assert ("-" + u)[0] == '-' && ("-" + u)[1..] == u;
    assert TrimStart("-" + u) == "-" + u;
    assert ("+" + u)[0] == '+' && ("+" + u)[1..] == u;
    assert TrimStart("+" + u) == "+" + u;
  }

  /** `0x` or `0X`, then hexadecimal digits, reads the digits in base 16, up to the first character that is not one. */
  lemma ReadsHexDigits(x: char, h: string, rest: string)
    requires x == 'x' || x == 'X'
    requires |h| > 0 && AllDigits(h, 16)
    requires |rest| == 0 || DigitValue(rest[0]) >= 16
    ensures ParseInt(['0', x] + h + rest) == Some(DigitsValue(h, 16))
  {
    HexParts(x, h + rest);
    DigitRunStops(h, rest, 16);
    assert (h + rest)[..|h|] == h;
    UnsignedRead(['0', x] + (h + rest));
    assert ['0', x] + h + rest == ['0', x] + (h + rest);
  }

  lemma HexParts(x: char, v: string)
    requires x == 'x' || x == 'X'
    ensures var u := ['0', x] + v; |u| >= 2 && u[0] == '0' && u[1] == x && u[2..] == v
  {
  }

  /** What is not a number at all is `NaN`. */
  lemma NotANumber()
    ensures ParseInt("") == None
    ensures ParseInt("abc") == None
    ensures ParseInt("0x") == None
  {
    assert "0x"[2..] == "";
  }

  /** Leading whitespace and the sign are skipped. */
  lemma ParseIntSkipsSpaceAndSign()
    ensures ParseInt(" \t-42") == Some(-42)
  {
    var t := " \t-42";
    assert t[1..] == "\t-42" && t[1..][1..] == "-42";
    assert TrimStart(t) == "-42";
    assert "-42"[1..] == "42";
    assert "42"[1..] == "2" && "2"[1..] == "";
    assert DigitRun("42", 10) == 2;
    assert "42"[..2] == "42";
    assert "42"[..1] == "4";
    assert DigitsValue("4", 10) == 4;
  }

  /** `0x` switches to base 16. */
  lemma ParseIntReadsHex()
    ensures ParseInt("0x1A") == Some(26)
  {
    assert "1A"[1..] == "A" && "A"[1..] == "" && "1A"[..1] == "1";
    assert AllDigits("1A", 16);
    ReadsHexDigits('x', "1A", "");
    assert ['0', 'x'] + "1A" + "" == "0x1A";
  }

  /** Reading stops at the first character that is not a digit. */
  lemma ParseIntStopsAtNonDigit()
    ensures ParseInt("+7.5") == Some(7)
  {
    assert "+7.5"[1..] == "7.5";
    assert "7.5"[1..] == ".5";
    assert DigitRun("7.5", 10) == 1;
    assert "7.5"[..1] == "7";
    assert "+7.5"[0] == '+' && !IsSpace('+');
    assert TrimStart("+7.5") == "+7.5";
    assert "7"[..0] == "";
    assert DigitsValue("7", 10) == 7;
  }

  /** The values the CLI stores in its options object. */
  datatype JsValue =
    | Num(n: int)
    | Bool(b: bool)
      /** The `callback` closure: print `message` to standard error, exit with `code`. */
    | Handler(message: string, code: int)

  const Callback := Handler("Environment does not support kitty images", 1)

  /** `program.opts()`: the raw strings of `-s`, `--width`, `--height`, and `--stretch`. */
  datatype Opts = Opts(s: Option<string>, width: Option<string>, height: Option<string>, stretch: bool)

  /** What the script hands to `terminalKittyImage`. */
  datatype Invocation = Invocation(path: string, options: map<string, JsValue>)

  const SizeError := "size must be a number"
  const WidthError := "width must be a number"
  const HeightError := "height must be a number"
  const MissingFileError := "file does not exist"

  predicate Numeric(arg: Option<string>) {
    arg.None? || ParseInt(arg.value).Some?
  }

  /** The option values pass validation. */
  predicate ValidOpts(opts: Opts) {
    if opts.s.Some? then ParseInt(opts.s.value).Some? else Numeric(opts.width) && Numeric(opts.height)
  }

  /** The object `-s n` produces. */
  function SizeOut(n: int): map<string, JsValue> {
    map["callback" := Callback, "width" := Num(n), "height" := Num(n), "stretch" := Bool(false)]
  }

  /**
   * The top-level script: build `out` step by step, throwing (here:
   * `Failure`) on the first invalid value, then check the file exists.
   * `existing` is the set of paths that exist.
   */
  method Normalise(opts: Opts, filePath: string, existing: set<string>) returns (r: Result<Invocation, string>)
    ensures r == Failure(SizeError) <==> opts.s.Some? && ParseInt(opts.s.value).None?
    ensures r == Failure(WidthError) <==> opts.s.None? && !Numeric(opts.width)
    ensures r == Failure(HeightError) <==> opts.s.None? && Numeric(opts.width) && !Numeric(opts.height)
    ensures r == Failure(MissingFileError) <==> ValidOpts(opts) && filePath !in existing
    ensures r.Success? <==> ValidOpts(opts) && filePath in existing
    ensures r.Success? ==> r.value.path == filePath
    ensures r.Success? ==> "callback" in r.value.options && r.value.options["callback"] == Callback
    ensures r.Success? ==> "fallback" !in r.value.options
    ensures r.Success? && opts.s.Some? ==> r.value.options == SizeOut(ParseInt(opts.s.value).value)
    ensures r.Success? && opts.s.None? ==>
      var out := r.value.options;
      && out.Keys <= {"callback", "width", "height", "preserveAspectRatio"}
      && ("width" in out <==> opts.width.Some?)
      && (opts.width.Some? ==> out["width"] == Num(ParseInt(opts.width.value).value))
      && ("height" in out <==> opts.height.Some?)
      && (opts.height.Some? ==> out["height"] == Num(ParseInt(opts.height.value).value))
      && ("preserveAspectRatio" in out <==> opts.stretch)
      && (opts.stretch ==> out["preserveAspectRatio"] == Bool(false))
  {
    var out: map<string, JsValue> := map["callback" := Callback];
    if opts.s.Some? {
      var size := ParseInt(opts.s.value);
      if size.None? {
        return Failure(SizeError);
      }
      out := out["width" := Num(size.value)];
      out := out["height" := Num(size.value)];
      out := out["stretch" := Bool(false)];
    } else {
      if opts.width.Some? {
        var width := ParseInt(opts.width.value);
        if width.None? {
          return Failure(WidthError);
        }
        out := out["width" := Num(width.value)];
      }
      if opts.height.Some? {
        var height := ParseInt(opts.height.value);
        if height.None? {
          return Failure(HeightError);
        }
        out := out["height" := Num(height.value)];
      }
      if opts.stretch {
        out := out["preserveAspectRatio" := Bool(!opts.stretch)];
      }
    }
    if filePath !in existing {
      return Failure(MissingFileError);
    }
    return Success(Invocation(filePath, out));
  }

  /** What `terminalKittyImage` reads of the object: the keys it knows, with values of their types. */
  function OptionsOf(out: map<string, JsValue>): Options<JsValue> {
    Options(
      if "width" in out && out["width"].Num? then Some(out["width"].n) else None,
      if "height" in out && out["height"].Num? then Some(out["height"].n) else None,
      if "preserveAspectRatio" in out && out["preserveAspectRatio"].Bool? then Some(out["preserveAspectRatio"].b) else None,
      if "fallback" in out then Some(out["fallback"]) else None)
  }

  /**
   * `-s n` keeps the aspect ratio: the library never reads `stretch`, so the
   * image is scaled to fit an n by n box.
   */
  lemma SizeShorthandPreservesAspect(n: int, path: string)
    ensures PrepFor(Path(path), OptionsOf(SizeOut(n))) == ScaleToFit(n, n)
  {
    assert "preserveAspectRatio" !in SizeOut(n);
  }

  /** `--width w --height h --stretch` stretches to exactly w by h. */
  lemma StretchResizes(out: map<string, JsValue>, w: int, h: int, path: string)
    requires "width" in out && out["width"] == Num(w)
    requires "height" in out && out["height"] == Num(h)
    requires "preserveAspectRatio" in out && out["preserveAspectRatio"] == Bool(false)
    ensures PrepFor(Path(path), OptionsOf(out)) == Resize(Px(w), Px(h))
  {
  }

  /**
   * The CLI's handler is stored under `callback`, which the library never
   * reads: on a terminal without support the default fallback throws.
   */
  lemma CallbackNeverRuns(out: map<string, JsValue>, image: Source)
    requires "fallback" !in out
    ensures Decide(NoSupport, image, OptionsOf(out)) == ThrowUnsupported(UnsupportedMessage)
  {
  }
}
