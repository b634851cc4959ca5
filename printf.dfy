/**
 * The part of `printf`'s format-string interpretation the escape templates
 * rely on.  Every escape sequence in the source is handed to a `printf`
 * process as its only argument (the format); with no further arguments what
 * reaches the terminal is the format with its escapes interpreted:
 *   `\\` is one backslash, `\n` a newline, `\ooo` (one to three octal digits)
 *   the byte of that value, `%%` one percent sign; every other character is
 *   copied.  Any other `\x` or `%x` lies outside this model (`None`).
 */
module Printf {
  import opened Wrappers

  /** ESC, 0x1B: the octal escape `\033`. */
  const ESC: char := '\U{1B}'

  predicate IsOctalDigit(c: char) {
    '0' <= c <= '7'
  }

  /** How many leading octal digits an octal escape takes: at most three. */
  function OctalRun(s: string): (n: nat)
    ensures n <= 3 && n <= |s|
  {
    if |s| == 0 || !IsOctalDigit(s[0]) then 0
    else if |s| == 1 || !IsOctalDigit(s[1]) then 1
    else if |s| == 2 || !IsOctalDigit(s[2]) then 2
    else 3
  }

  function OctalDigitValue(c: char): int {
    c as int - '0' as int
  }

  /** The value of the (at most three) digits of an octal escape. */
  function OctalValue(digits: string): int
    requires |digits| <= 3
  {
    if |digits| == 0 then 0
    else if |digits| == 1 then OctalDigitValue(digits[0])
    else if |digits| == 2 then OctalDigitValue(digits[0]) * 8 + OctalDigitValue(digits[1])
    else OctalDigitValue(digits[0]) * 64 + OctalDigitValue(digits[1]) * 8 + OctalDigitValue(digits[2])
  }

  /** Text `printf` copies as it is: no `\` and no `%`. */
  predicate Literal(s: string) {
    forall i :: 0 <= i < |s| ==> s[i] != '\\' && s[i] != '%'
  }

  function Prepend(p: string, o: Option<string>): Option<string> {
    match o
    case None => None
    case Some(x) => Some(p + x)
  }

  /** What `printf FORMAT` writes, for formats inside the modelled subset. */
  function Interpret(format: string): (r: Option<string>)
    ensures r.Some? ==> |r.value| <= |format|
    decreases |format|
  {
    if |format| == 0 then Some("")
    else if format[0] == '\\' then
      if |format| == 1 then None
      else if format[1] == '\\' then Prepend("\\", Interpret(format[2..]))
      else if format[1] == 'n' then Prepend("\n", Interpret(format[2..]))
      else if IsOctalDigit(format[1]) then
        var k := OctalRun(format[1..]);
        Prepend([(OctalValue(format[1..1 + k]) % 256) as char], Interpret(format[1 + k..]))
      else None
    else if format[0] == '%' then
      if |format| > 1 && format[1] == '%' then Prepend("%", Interpret(format[2..]))
      else None
    else Prepend([format[0]], Interpret(format[1..]))
  }

  /** Text free of `\` and `%` reaches the terminal as it is. */
  lemma {:induction false} PlainPassesThrough(p: string, rest: string)
    requires Literal(p)
    ensures Interpret(p + rest) == Prepend(p, Interpret(rest))
    decreases |p|
  {
    if |p| == 0 {
      assert p + rest == rest;
      match Interpret(rest) {
        case None =>
        case Some(x) => assert p + x == x;
      }
    } else {
      var s := p + rest;
      assert s[0] == p[0] && s[1..] == p[1..] + rest;
      PlainPassesThrough(p[1..], rest);
      match Interpret(rest) {
        case None =>
        case Some(x) => assert [p[0]] + (p[1..] + x) == p + x;
      }
    }
  }

  /** The escape for ESC as the source's templates spell it. */
  const EscFormat := "\\033"

  /** The escape for one backslash. */
  const BackslashFormat := "\\\\"

  lemma OctalEscapeOfEsc(digits: string)
    requires digits == ['0', '3', '3']
    ensures (OctalValue(digits) % 256) as char == ESC
  {
  }

  /** How `\033` followed by text that is not an octal digit splits into escape and rest. */
  lemma EscParts(rest: string)
    requires |rest| == 0 || !IsOctalDigit(rest[0])
    ensures |EscFormat + rest| >= 4
    ensures (EscFormat + rest)[0] == '\\' && IsOctalDigit((EscFormat + rest)[1])
    ensures OctalRun((EscFormat + rest)[1..]) == 3
    ensures (EscFormat + rest)[1..4] == ['0', '3', '3']
    ensures (EscFormat + rest)[4..] == rest
  {
    var tail := (EscFormat + rest)[1..];
    assert tail[0] == '0' && tail[1] == '3' && tail[2] == '3';
    assert |rest| > 0 ==> tail[3] == rest[0];
  }

  /** `\033` becomes ESC, provided no further octal digit follows it. */
  lemma EscapeIsEsc(rest: string)
    requires |rest| == 0 || !IsOctalDigit(rest[0])
    ensures Interpret(EscFormat + rest) == Prepend([ESC], Interpret(rest))
  {
    EscParts(rest);
    UnfoldOctalEscape(EscFormat + rest);
    OctalEscapeOfEsc((EscFormat + rest)[1..4]);
  }

  lemma UnfoldOctalEscape(s: string)
    requires |s| >= 2 && s[0] == '\\' && IsOctalDigit(s[1])
    ensures Interpret(s) ==
      Prepend([(OctalValue(s[1..1 + OctalRun(s[1..])]) % 256) as char], Interpret(s[1 + OctalRun(s[1..])..]))
  {
  }

  /** `\\` becomes one backslash. */
  lemma BackslashIsBackslash(rest: string)
    ensures Interpret(BackslashFormat + rest) == Prepend("\\", Interpret(rest))
  {
    assert (BackslashFormat + rest)[2..] == rest;
  }

  /** A newline passes through. */
  lemma NewlinePassesThrough()
    ensures Interpret("\n") == Some("\n")
  {
    PlainPassesThrough("\n", "");
    assert "\n" + "" == "\n";
  }
}
