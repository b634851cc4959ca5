/**
 * Inline transmission (`drawImageFromBuffer`): the PNG is base64-encoded,
 * cut into consecutive 256-character chunks, and each chunk is written as its
 * own graphics command whose continuation flag `m` is 1 except on the last
 * one; a newline follows.  `Reassemble` is the terminal's side: it
 * concatenates chunk payloads until the chunk with `m=0`.
 */
module Render {
  import opened Wrappers
  import opened Printf
  import opened Escapes
  import Base64

  const ChunkSize: nat := 256

  function Flatten(chunks: seq<string>): string
    decreases |chunks|
  {
    if |chunks| == 0 then "" else chunks[0] + Flatten(chunks[1..])
  }

  /** JavaScript's `String.prototype.slice(start, end)` for non-negative bounds: both are clamped. */
  function Slice(s: string, start: nat, end: nat): (r: string)
    ensures start <= |s| ==> r == s[start..if end < |s| then (if end < start then start else end) else |s|]
    ensures start > |s| ==> r == ""
  {
    var a := if start < |s| then start else |s|;
    var b := if end < |s| then end else |s|;
    if b <= a then "" else s[a..b]
  }

  /** The chunks of `s`, in order. */
  function Chunks(s: string): seq<string>
    decreases |s|
  {
    if |s| == 0 then []
    else
      var n := if |s| < ChunkSize then |s| else ChunkSize;
      [s[..n]] + Chunks(s[n..])
  }

  /**
   * The chunks give back `s` when concatenated in order; there are
   * ceil(|s| / 256) of them, all of 256 characters except the last, which
   * has 1 to 256.
   */
  lemma {:induction false} ChunksShape(s: string)
    ensures Flatten(Chunks(s)) == s
    ensures |Chunks(s)| == (|s| + ChunkSize - 1) / ChunkSize
    ensures forall k :: 0 <= k < |Chunks(s)| ==> 0 < |Chunks(s)[k]| <= ChunkSize
    ensures forall k :: 0 <= k < |Chunks(s)| - 1 ==> |Chunks(s)[k]| == ChunkSize
    decreases |s|
  {
    if |s| > 0 {
      var n := if |s| < ChunkSize then |s| else ChunkSize;
      var r := Chunks(s);
      ChunksShape(s[n..]);
      assert r == [s[..n]] + Chunks(s[n..]);
      assert s[..n] + s[n..] == s;
      forall k | 1 <= k < |r| ensures r[k] == Chunks(s[n..])[k - 1] { }
    }
  }

  /** The part of `s` the chunk loop has not reached once its index is `i`. */
  function Unread(s: string, i: nat): string {
    if i <= |s| then s[i..] else ""
  }

  lemma ChunkStep(s: string, i: nat)
    requires i < |s|
    ensures Chunks(Unread(s, i)) == [Slice(s, i, i + ChunkSize)] + Chunks(Unread(s, i + ChunkSize))
  {
    var u := s[i..];
    var n := if |u| < ChunkSize then |u| else ChunkSize;
    assert u[..n] == Slice(s, i, i + ChunkSize);
    if i + ChunkSize <= |s| {
      assert u[n..] == s[i + ChunkSize..];
    } else {
      assert u[n..] == "";
    }
  }

  /** A chunk of text that passes `printf` unaltered passes it unaltered too. */
  lemma ChunksAreLiteral(s: string)
    requires Literal(s)
    ensures forall k :: 0 <= k < |Chunks(s)| ==> Literal(Chunks(s)[k])
    decreases |s|
  {
    if |s| > 0 {
      var n := if |s| < ChunkSize then |s| else ChunkSize;
      assert Literal(s[n..]) by {
        forall j | 0 <= j < |s[n..]| ensures s[n..][j] == s[n + j] { }
      }
      ChunksAreLiteral(s[n..]);
      assert Chunks(s) == [s[..n]] + Chunks(s[n..]);
      forall k | 0 <= k < |Chunks(s)| ensures Literal(Chunks(s)[k]) {
        if k == 0 {
          forall j | 0 <= j < n ensures s[..n][j] == s[j] { }
        } else {
          assert Chunks(s)[k] == Chunks(s[n..])[k - 1];
        }
      }
    }
  }

  /** The formats of the inline commands; only the last carries `m=0`. */
  function InlineFormats(chunks: seq<string>): seq<string>
    decreases |chunks|
  {
    if |chunks| == 0 then []
    else [InlineFormat(|chunks| > 1, chunks[0])] + InlineFormats(chunks[1..])
  }

  /** The inline commands as they reach the terminal. */
  function InlineCommands(chunks: seq<string>): seq<string>
    decreases |chunks|
  {
    if |chunks| == 0 then []
    else [Inline(|chunks| > 1, chunks[0])] + InlineCommands(chunks[1..])
  }

  /** Chunk `k` goes out with `m=1` when another chunk follows it, `m=0` when it is the last. */
  lemma {:induction false} InlineFormatsAt(chunks: seq<string>, k: nat)
    requires k < |chunks|
    ensures |InlineFormats(chunks)| == |chunks|
    ensures InlineFormats(chunks)[k] == InlineFormat(k < |chunks| - 1, chunks[k])
    decreases |chunks|
  {
    if k == 0 {
      InlineFormatsLength(chunks);
    } else {
      InlineFormatsAt(chunks[1..], k - 1);
      InlineFormatsLength(chunks);
      assert InlineFormats(chunks)[k] == InlineFormats(chunks[1..])[k - 1];
      assert chunks[1..][k - 1] == chunks[k];
    }
  }

  lemma {:induction false} InlineFormatsLength(chunks: seq<string>)
    ensures |InlineFormats(chunks)| == |chunks|
    decreases |chunks|
  {
    if |chunks| > 0 { InlineFormatsLength(chunks[1..]); }
  }

  /** What `printf` writes for each of a list of formats, in order. */
  function PrintEach(formats: seq<string>): Option<seq<string>>
    decreases |formats|
  {
    if |formats| == 0 then Some([])
    else match Interpret(formats[0])
      case None => None
      case Some(w) =>
        match PrintEach(formats[1..])
        case None => None
        case Some(ws) => Some([w] + ws)
  }

  lemma {:induction false} PrintEachAppend(a: seq<string>, b: seq<string>)
    requires PrintEach(a).Some? && PrintEach(b).Some?
    ensures PrintEach(a + b) == Some(PrintEach(a).value + PrintEach(b).value)
    decreases |a|
  {
    if |a| == 0 {
      assert a + b == b;
      assert PrintEach(a) == Some([]);
      assert [] + PrintEach(b).value == PrintEach(b).value;
    } else {
      assert (a + b)[0] == a[0];
      assert (a + b)[1..] == a[1..] + b;
      assert PrintEach(a[1..]).Some?;
      PrintEachAppend(a[1..], b);
      var w, x, y := Interpret(a[0]).value, PrintEach(a[1..]).value, PrintEach(b).value;
      assert PrintEach(a).value == [w] + x;
      assert PrintEach(a + b) == Some([w] + (x + y));
      assert [w] + (x + y) == ([w] + x) + y;
    }
  }

  /** Every inline format prints as the inline command it stands for. */
  lemma {:induction false} InlineFormatsPrint(chunks: seq<string>)
    requires forall k :: 0 <= k < |chunks| ==> Literal(chunks[k])
    ensures PrintEach(InlineFormats(chunks)) == Some(InlineCommands(chunks))
    decreases |chunks|
  {
    if |chunks| > 0 {
      InlinePrints(|chunks| > 1, chunks[0]);
      InlineFormatsPrint(chunks[1..]);
      assert InlineFormats(chunks)[1..] == InlineFormats(chunks[1..]);
    }
  }

  /**
   * The terminal's reassembly: payloads of `m=1` commands are buffered until
   * a command with `m=0` completes the image, which must be the last one.
   */
  function Reassemble(commands: seq<string>): Option<string>
    decreases |commands|
  {
    if |commands| == 0 then None
    else match ParseGraphics(commands[0])
      case None => None
      case Some((control, chunk)) =>
        if control == InlineControl(false) then
          if |commands| == 1 then Some(chunk) else None
        else if control == InlineControl(true) then
          Prepend(chunk, Reassemble(commands[1..]))
        else None
  }

  /** The terminal rebuilds exactly the concatenated chunks from the commands. */
  lemma {:induction false} ReassembleCommands(chunks: seq<string>)
    requires |chunks| > 0
    ensures Reassemble(InlineCommands(chunks)) == Some(Flatten(chunks))
    decreases |chunks|
  {
    var cmds := InlineCommands(chunks);
    InlineParses(|chunks| > 1, chunks[0]);
    assert InlineControl(true) != InlineControl(false) by {
      assert InlineControl(true)[8] != InlineControl(false)[8];
    }
    if |chunks| == 1 {
      assert chunks[1..] == [];
      assert InlineCommands(chunks[1..]) == [];
      assert cmds == [Inline(|chunks| > 1, chunks[0])] + InlineCommands(chunks[1..]);
      assert cmds == [Inline(false, chunks[0])];
      assert |cmds| == 1 && cmds[0] == Inline(false, chunks[0]);
      assert Reassemble(cmds) == Some(chunks[0]);
      assert Flatten(chunks) == chunks[0] + Flatten(chunks[1..]);
      assert Flatten(chunks[1..]) == "";
      assert chunks[0] + "" == chunks[0];
    } else {
      ReassembleCommands(chunks[1..]);
      assert cmds[1..] == InlineCommands(chunks[1..]);
    }
  }

  /** The first loop of `drawImageFromBuffer`: consecutive slices of 256 characters. */
  method SplitIntoChunks(asBase64: string) returns (chunks: seq<string>)
    ensures chunks == Chunks(asBase64)
  {
    chunks := [];
    var i: nat := 0;
    while i < |asBase64|
      invariant chunks + Chunks(Unread(asBase64, i)) == Chunks(asBase64)
      decreases |asBase64| - i
    {
      var chunk := Slice(asBase64, i, i + ChunkSize);
      ChunkStep(asBase64, i);
      assert chunks + Chunks(Unread(asBase64, i)) == (chunks + [chunk]) + Chunks(Unread(asBase64, i + ChunkSize));
      chunks := chunks + [chunk];
      i := i + ChunkSize;
    }
    assert Unread(asBase64, i) == "";
  }

  /** The second loop of `drawImageFromBuffer`: one format per chunk, `m=0` on the last. */
  method FormatChunks(chunks: seq<string>) returns (formats: seq<string>)
    ensures formats == InlineFormats(chunks)
  {
    formats := [];
    var j := 0;
    while j < |chunks|
      invariant 0 <= j <= |chunks|
      invariant |formats| == j
      invariant forall k :: 0 <= k < j ==> formats[k] == InlineFormat(k < |chunks| - 1, chunks[k])
    {
      formats := formats + [InlineFormat(j != |chunks| - 1, chunks[j])];
      j := j + 1;
    }
    InlineFormatsLength(chunks);
    forall k | 0 <= k < |chunks| ensures formats[k] == InlineFormats(chunks)[k] {
      InlineFormatsAt(chunks, k);
    }
  }

  /**
   * `drawImageFromBuffer`: returns the formats handed to successive `printf`
   * processes, in the order they run.
   */
  method DrawImageFromBuffer(png: seq<Base64.byte>) returns (formats: seq<string>)
    ensures formats == InlineFormats(Chunks(Base64.Encode(png))) + [NewlineFormat]
  {
    var chunks := SplitIntoChunks(Base64.Encode(png));
    formats := FormatChunks(chunks);
    formats := formats + [NewlineFormat];
  }

  /** The inline formats and the closing newline print as the commands and a newline. */
  lemma PrintedWithNewline(chunks: seq<string>)
    requires forall k :: 0 <= k < |chunks| ==> Literal(chunks[k])
    ensures PrintEach(InlineFormats(chunks) + [NewlineFormat]) == Some(InlineCommands(chunks) + ["\n"])
  {
    InlineFormatsPrint(chunks);
    NewlinePrints();
    PrintEachAppend(InlineFormats(chunks), [NewlineFormat]);
  }

  /** The closing `printf` writes a newline. */
  lemma NewlinePrints()
    ensures PrintEach([NewlineFormat]) == Some(["\n"])
  {
    NewlinePassesThrough();
    assert [NewlineFormat][1..] == [];
    assert ["\n"] + [] == ["\n"];
  }

  /** Non-empty text has at least one chunk. */
  lemma SomeChunk(s: string)
    requires |s| > 0
    ensures |Chunks(s)| > 0
  {
    ChunksShape(s);
  }

  /**
   * End to end: what reaches the terminal is the inline commands and a
   * newline, and the terminal rebuilds the base64 text and from it the PNG.
   */
  lemma InlineRoundTrip(png: seq<Base64.byte>)
    requires |png| > 0
    ensures PrintEach(InlineFormats(Chunks(Base64.Encode(png))) + [NewlineFormat])
         == Some(InlineCommands(Chunks(Base64.Encode(png))) + ["\n"])
    ensures Reassemble(InlineCommands(Chunks(Base64.Encode(png)))) == Some(Base64.Encode(png))
    ensures Base64.Decode(Base64.Encode(png)) == Some(png)
  {
    var text := Base64.Encode(png);
    ChunksAreLiteral(text);
    PrintedWithNewline(Chunks(text));
    SomeChunk(text);
    ReassembleCommands(Chunks(text));
    assert Flatten(Chunks(text)) == text by {
      ChunksShape(text);
    }
    Base64.RoundTrip(png);
  }

  /** An empty PNG produces no graphics command at all, only the newline. */
  lemma EmptyPayload()
    ensures InlineFormats(Chunks(Base64.Encode([]))) + [NewlineFormat] == [NewlineFormat]
  {
  }
}
