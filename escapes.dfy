/**
 * The escape sequences the client writes.  Each is a Kitty graphics command,
 * an APC string (ECMA-48 section 8.3.2) opened by `ESC _`, starting with `G`,
 * holding `control;payload` and closed by ST, `ESC \` (ECMA-48 section
 * 8.3.143).  The source builds them as `printf` formats; `...Format` is the
 * argument `printf` receives, the corresponding wire function is what reaches
 * the terminal, and the `...Prints` lemmas connect the two.
 */
module Escapes {
  import opened Wrappers
  import opened Printf
  import Base64

  /** The bytes of one graphics command. */
  function GraphicsCommand(control: string, payload: string): string {
    [ESC, '_', 'G'] + control + ";" + payload + [ESC, '\\']
  }

  /** The `printf` format the source writes for a graphics command. */
  function CommandFormat(control: string, payload: string): string {
    EscFormat + "_G" + control + ";" + payload + EscFormat + BackslashFormat
  }

  /** Primary Device Attributes (ECMA-48 section 8.3.24), `ESC [ c`. */
  const DeviceAttributesQuery: string := [ESC, '[', 'c']

  const RemoteQueryControl := "i=69,s=1,v=1,a=q,t=d,f=24"
  const LocalQueryControl := "i=31,s=1,v=1,a=q,t=t"
  const ReferenceControl := "f=100,t=t,a=T,X=4,Y=4"

  function InlineControl(more: bool): string {
    "f=100,m=" + (if more then "1" else "0") + ",a=T,X=4,Y=4"
  }

  /** The remote probe: a query for one 24-bit pixel sent as direct data, fenced by a DA query. */
  const RemoteQueryFormat := CommandFormat(RemoteQueryControl, "AAAA") + EscFormat + "[c"
  const RemoteQuery := GraphicsCommand(RemoteQueryControl, "AAAA") + DeviceAttributesQuery

  /** The local probe: a query naming a temporary file by its base64-encoded path. */
  function LocalQueryFormat(path64: string): string {
    CommandFormat(LocalQueryControl, path64)
  }
  function LocalQuery(path64: string): string {
    GraphicsCommand(LocalQueryControl, path64)
  }

  /** By reference: transmit and display the PNG in a temporary file, at cell offset (4, 4). */
  function ReferenceFormat(path64: string): string {
    CommandFormat(ReferenceControl, path64)
  }
  function Reference(path64: string): string {
    GraphicsCommand(ReferenceControl, path64)
  }

  /** One inline chunk of PNG data; `more` is the continuation flag `m`. */
  function InlineFormat(more: bool, chunk: string): string {
    CommandFormat(InlineControl(more), chunk)
  }
  function Inline(more: bool, chunk: string): string {
    GraphicsCommand(InlineControl(more), chunk)
  }

  /** The trailing newline; the source passes a real line feed. */
  const NewlineFormat := "\n"

  /** The first index of `c` in `s`. */
  function Find(s: string, c: char): (r: Option<nat>)
    ensures r.Some? ==> r.value < |s| && s[r.value] == c && c !in s[..r.value]
    ensures r.None? ==> c !in s
    decreases |s|
  {
    if |s| == 0 then None
    else if s[0] == c then Some(0)
    else match Find(s[1..], c)
      case None => None
      case Some(k) => Some(k + 1)
  }

  /** What a terminal reads out of one graphics command: its control data and payload. */
  function ParseGraphics(w: string): Option<(string, string)> {
    if |w| >= 5 && w[..3] == [ESC, '_', 'G'] && w[|w| - 2..] == [ESC, '\\'] then
      var body := w[3..|w| - 2];
      match Find(body, ';')
      case None => None
      case Some(k) => Some((body[..k], body[k + 1..]))
    else None
  }

  /** A terminal recovers the control data and the payload of every command the client writes. */
  lemma GraphicsRoundTrip(control: string, payload: string)
    requires ';' !in control
    ensures ParseGraphics(GraphicsCommand(control, payload)) == Some((control, payload))
  {
    var w := GraphicsCommand(control, payload);
    assert w[..3] == [ESC, '_', 'G'];
    assert w[|w| - 2..] == [ESC, '\\'];
    var body := w[3..|w| - 2];
    assert body == control + ";" + payload;
    var k := |control|;
    assert body[k] == ';';
    assert body[..k] == control;
    assert Find(body, ';') == Some(k);
    assert body[k + 1..] == payload;
  }

  lemma PrependTwice(a: string, b: string, o: Option<string>)
    ensures Prepend(a, Prepend(b, o)) == Prepend(a + b, o)
  {
    match o {
      case None =>
      case Some(x) => assert a + (b + x) == (a + b) + x;
    }
  }

  /** A command format is ESC's escape, the plain text, then the closing escapes. */
  lemma FormatParts(control: string, payload: string, rest: string)
    ensures CommandFormat(control, payload) + rest
         == EscFormat + (("_G" + control + ";" + payload) + (EscFormat + (BackslashFormat + rest)))
  {
  }

  /** A command is ESC, the plain text, then ST. */
  lemma CommandParts(control: string, payload: string)
    ensures GraphicsCommand(control, payload) == [ESC] + (("_G" + control + ";" + payload) + [ESC, '\\'])
  {
  }

  /** The closing `\033\\\\` becomes ST. */
  lemma TerminatorPrints(rest: string)
    ensures Interpret(EscFormat + (BackslashFormat + rest)) == Prepend([ESC, '\\'], Interpret(rest))
  {
    BackslashIsBackslash(rest);
    EscapeIsEsc(BackslashFormat + rest);
    PrependTwice([ESC], "\\", Interpret(rest));
    assert [ESC] + "\\" == [ESC, '\\'];
  }

  /** The text between the opening escape and the closing escapes needs no interpretation. */
  lemma PlainPart(control: string, payload: string)
    requires Literal(control) && Literal(payload)
    ensures Literal("_G" + control + ";" + payload)
    ensures ("_G" + control + ";" + payload)[0] == '_'
  {
  }

  /** An ESC escape, literal text and then anything that prints as `st`. */
  lemma EscapedLine(plain: string, closing: string, st: string, o: Option<string>)
    requires Literal(plain) && |plain| > 0 && !IsOctalDigit(plain[0])
    requires Interpret(closing) == Prepend(st, o)
    ensures Interpret(EscFormat + (plain + closing)) == Prepend([ESC] + (plain + st), o)
  {
    PlainPassesThrough(plain, closing);
    PrependTwice(plain, st, o);
    EscapeIsEsc(plain + closing);
    PrependTwice([ESC], plain + st, o);
  }

  /** `printf` turns a command format into the command, whatever follows it (if not an octal digit). */
  lemma CommandPrints(control: string, payload: string, rest: string)
    requires Literal(control) && Literal(payload)
    requires |rest| == 0 || !IsOctalDigit(rest[0])
    ensures Interpret(CommandFormat(control, payload) + rest) == Prepend(GraphicsCommand(control, payload), Interpret(rest))
  {
    PlainPart(control, payload);
    TerminatorPrints(rest);
    EscapedLine("_G" + control + ";" + payload, EscFormat + (BackslashFormat + rest), [ESC, '\\'], Interpret(rest));
    FormatParts(control, payload, rest);
    CommandParts(control, payload);
  }

  lemma CommandPrintsAlone(control: string, payload: string)
    requires Literal(control) && Literal(payload)
    ensures Interpret(CommandFormat(control, payload)) == Some(GraphicsCommand(control, payload))
  {
    CommandPrints(control, payload, "");
    assert CommandFormat(control, payload) + "" == CommandFormat(control, payload);
    assert GraphicsCommand(control, payload) + "" == GraphicsCommand(control, payload);
  }

  /** The remote probe reaches the terminal as the graphics query followed by the DA query. */
  lemma RemoteQueryPrints()
    ensures Interpret(RemoteQueryFormat) == Some(RemoteQuery)
  {
    assert Literal(RemoteQueryControl);
    assert Literal("AAAA");
    var fence := EscFormat + "[c";
    assert RemoteQueryFormat == CommandFormat(RemoteQueryControl, "AAAA") + fence;
    CommandPrints(RemoteQueryControl, "AAAA", fence);
    assert "[c" + "" == "[c";
    PlainPassesThrough("[c", "");
    EscapeIsEsc("[c");
    assert [ESC] + "[c" == DeviceAttributesQuery;
  }

  /** The local probe reaches the terminal as a graphics query carrying the encoded path. */
  lemma LocalQueryPrints(path: seq<Base64.byte>)
    ensures Interpret(LocalQueryFormat(Base64.Encode(path))) == Some(LocalQuery(Base64.Encode(path)))
  {
    assert Literal(LocalQueryControl);
    CommandPrintsAlone(LocalQueryControl, Base64.Encode(path));
  }

  /** The by-reference command reaches the terminal carrying the encoded path. */
  lemma ReferencePrints(path: seq<Base64.byte>)
    ensures Interpret(ReferenceFormat(Base64.Encode(path))) == Some(Reference(Base64.Encode(path)))
  {
    assert Literal(ReferenceControl);
    CommandPrintsAlone(ReferenceControl, Base64.Encode(path));
  }

  /** An inline chunk reaches the terminal unaltered, with its continuation flag. */
  lemma InlinePrints(more: bool, chunk: string)
    requires Literal(chunk)
    ensures Interpret(InlineFormat(more, chunk)) == Some(Inline(more, chunk))
  {
    assert Literal(InlineControl(more));
    CommandPrintsAlone(InlineControl(more), chunk);
  }

  /** The terminal reads back the flag and the chunk of every inline command. */
  lemma InlineParses(more: bool, chunk: string)
    ensures ParseGraphics(Inline(more, chunk)) == Some((InlineControl(more), chunk))
  {
    assert ';' !in InlineControl(more);
    GraphicsRoundTrip(InlineControl(more), chunk);
  }

  /** The terminal reads back the encoded path of a by-reference command. */
  lemma ReferenceParses(path64: string)
    ensures ParseGraphics(Reference(path64)) == Some((ReferenceControl, path64))
  {
    assert ';' !in ReferenceControl;
    GraphicsRoundTrip(ReferenceControl, path64);
  }
}
