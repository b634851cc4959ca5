# term-kitty-img, modelled in Dafny

`term-kitty-img` draws an image in a terminal using the Kitty graphics
protocol. It works in three steps:

- It probes the terminal once, and caches whether the terminal supports the
  protocol. The level is `local` when the terminal can read a file named by
  path, `remote` when it accepts inline data, and `none` otherwise.
- It prepares the image with an external image library (scale to fit, or
  resize).
- It draws the image. With `local` support and a path source it writes the
  PNG to a temporary file and sends that file's path. With `remote` support,
  or with a buffer source, it sends the base64 PNG inline, in chunks of 256
  characters. On `none` it calls the caller's fallback, and
  throws `UnsupportedTerminalError` when there is none.

Every byte goes to the terminal through a spawned `printf`, whose first
argument is a format string. A small command-line script turns its options
into the library's options object.

The model has nine modules:

- `Wrappers`: the `Option` and `Result` types used for undefined results
  and errors.
- `Printf`: part of `printf`'s format interpretation. The templates use
  `\\` and octal escapes `\ooo`, reduced modulo 256. The model also covers
  `\n` and `%%`, which no template uses. The newline arguments pass a real
  line feed, which is copied as it is.
- `Base64`: the RFC 4648 encoder (`Buffer.toString("base64")`) and a strict
  decoder. The decoder is the terminal-side partner of the encoder.
- `Escapes`: each command template as the format string passed to `printf`,
  and as the bytes written on the wire. It also holds a parser for an APC
  graphics command (`ESC _ G control ; payload ESC \`).
- `Reply`: the two success regular expressions, as a substring search.
- `Render`: the chunking loop and the inline drawing loop, as methods. It
  also models how the terminal puts the chunks back together using the `m`
  flag.
- `Policy`: the capability level, the resize plan and the dispatch of
  `terminalKittyImage`.
- `Session`: the module-level state as a class. It holds the cached level,
  whether standard input is open, the formats written so far, and the
  temporary files. Its methods are the probes, `getKittySupport`,
  `drawImageFromUrl` and `terminalKittyImage`.
- `Cli`: `parseInt`, and the normalisation of the command-line options into
  the options object.

These are parameters of the methods:

- the terminal's replies captured during each 20 ms window;
- the random temporary paths;
- the PNG bytes the image library produces for a path source;
- the set of paths that exist on disk.

## Model

| member | source | states |
|---|---|---|
| Printf.Interpret | src/index.ts:21-23 | `printf`'s output for a format is never longer than the format, and is undefined (`None`) for a format it does not accept |
| Printf.PlainPassesThrough | src/index.ts:61-63 | text with no backslash or percent sign, such as a base64 payload, is written verbatim, whatever follows it |
| Printf.OctalEscapeOfEsc | src/index.ts:23 | the octal escape `033` is the byte ESC (27) |
| Printf.EscapeIsEsc | src/index.ts:23 | the format text `\033` writes one ESC byte, when no further octal digit follows |
| Printf.BackslashIsBackslash | src/index.ts:23 | the format text `\\` writes one backslash |
| Printf.NewlinePassesThrough | src/index.ts:103 | the line-feed argument writes one newline |
| Base64.DecodeChar | src/index.ts:113 | a character that decodes is never the padding `=`, a backslash or a percent sign |
| Base64.EncodeChar | src/index.ts:113 | every sextet's alphabet character decodes back to that sextet, and is never `=`, a backslash or a percent sign |
| Base64.Encode | src/index.ts:113 | the encoding of n bytes has 4·⌈n/3⌉ characters, with no backslash or percent sign for `printf` to interpret |
| Base64.DecodeQuad | src/index.ts:113 | a group of four characters decodes to one, two or three bytes |
| Base64.RoundTrip | src/index.ts:113 | decoding the encoding of any byte sequence gives that sequence back |
| Base64.ZeroPixel | src/index.ts:23 | the remote probe's payload `AAAA` is the encoding of one 24-bit pixel of zeros (`f=24,s=1,v=1`) |
| Escapes.GraphicsRoundTrip | src/index.ts:123-125 | the terminal's parse of a graphics command, which splits at the first `;`, recovers the control data and the payload, when the control data has no `;` |
| Escapes.CommandPrints | src/index.ts:123-125 | a template `\033_G<control>;<payload>\033\\` followed by more format text writes the APC command `ESC _ G control ; payload ESC \`, then the rest |
| Escapes.CommandPrintsAlone | src/index.ts:93-95 | a whole template writes exactly its APC command |
| Escapes.RemoteQueryPrints | src/index.ts:23 | the remote probe's argument writes the query for image 69 (`a=q,t=d,f=24`, payload `AAAA`), then the device-attributes request `ESC [ c` |
| Escapes.LocalQueryPrints | src/index.ts:61-63 | the local probe's argument writes the query for image 31 (`a=q,t=t`), with the base64 of the temporary path as payload |
| Escapes.ReferencePrints | src/index.ts:93-95 | the draw-by-path argument writes `f=100,t=t,a=T,X=4,Y=4` with the base64 of the PNG's path as payload |
| Escapes.InlinePrints | src/index.ts:123-125 | each inline argument writes `f=100,m=<1 or 0>,a=T,X=4,Y=4` followed by its chunk |
| Escapes.InlineParses | src/index.ts:123-125 | the terminal reads back from an inline command its `m` flag and exactly its chunk |
| Escapes.ReferenceParses | src/index.ts:93-95 | the terminal reads back from the draw-by-path command its control data and the encoded path |
| Reply.HasMarker | src/index.ts:11-12 | the left-to-right search succeeds exactly when `_Gi=<id>`, then `;` or `,`, then `OK` occurs somewhere in the reply |
| Reply.MarkerRecognised | src/index.ts:40 | a reply containing `_Gi=<id>;OK` anywhere among other bytes is recognised |
| Reply.MarkersDistinct | src/index.ts:81 | the local probe's success marker does not satisfy the remote probe's pattern, and the remote marker does not satisfy the local pattern |
| Render.Slice | src/index.ts:116 | `slice` clamps its end to the string's length and returns `""` past the end |
| Render.ChunksShape | src/index.ts:114-117 | the chunks concatenate back to the base64 text; there are ⌈length/256⌉ of them; each holds 1 to 256 characters; all but the last hold exactly 256 |
| Render.ChunksAreLiteral | src/index.ts:113-117 | chunks of a base64 text contain no backslash or percent sign |
| Render.InlineFormatsAt | src/index.ts:118-125 | the k-th inline argument carries the k-th chunk, with `m=1` on every chunk but the last and `m=0` on the last |
| Render.InlineFormatsPrint | src/index.ts:118-131 | the inline arguments, each passed to `printf`, write one APC command per chunk, in order |
| Render.ReassembleCommands | src/index.ts:118-131 | a terminal that buffers `m=1` payloads until the `m=0` command reassembles exactly the concatenated chunks |
| Render.SplitIntoChunks | src/index.ts:113-117 | the chunking loop builds exactly the 256-character chunk list |
| Render.FormatChunks | src/index.ts:118-131 | the second loop builds one inline format per chunk, in order, with `m=1` on every chunk but the last |
| Render.NewlinePrints | src/index.ts:132-134 | the closing `printf` writes one newline |
| Render.DrawImageFromBuffer | src/index.ts:112-135 | the spawned `printf` arguments are one inline command per chunk, with the continuation flag, then a newline |
| Render.InlineRoundTrip | src/index.ts:112-135 | for a non-empty PNG, the written bytes are the inline commands then a newline, the terminal reassembles the PNG's base64, and that decodes to the PNG |
| Render.EmptyPayload | src/index.ts:118-134 | an empty buffer gives no chunk, so only the newline is written |
| Policy.Classify | src/index.ts:143-149 | the level is `none` exactly when the remote probe fails; `local` exactly when both probes succeed; `remote` exactly when the remote probe succeeds and the local one fails |
| Policy.PrepFor | src/index.ts:180-191 | a buffer is not touched; a path is resized to width × height (each `AUTO` when missing) exactly when `preserveAspectRatio` is `false`; otherwise it is scaled to fit the box, whose sides default to 600 |
| Policy.Decide | src/index.ts:172-201 | draw by path exactly for `local` with a path source; draw inline for `remote`, or for `local` with a buffer; call the fallback exactly for `none` with a fallback; throw `UnsupportedTerminalError` exactly for `none` without one, with the message "Terminal must support Kitty graphics protocol" |
| Session.KittySession.constructor | src/index.ts:140 | a fresh process has no cached level, an open standard input, and nothing written |
| Session.KittySession.HasImageSupport | src/index.ts:13-41 | writes the remote query and answers whether the reply matches the image-69 pattern |
| Session.KittySession.HasLocalSupport | src/index.ts:42-82 | writes the local query naming the placeholder file and answers whether the reply matches the image-31 pattern |
| Session.KittySession.GetKittySupport | src/index.ts:142-152 | the first call probes (the local probe only after a remote success) and caches the classified level; later calls return the cached level and write nothing; standard input is closed either way |
| Session.KittySession.DrawImageFromUrl | src/index.ts:84-110 | the PNG is stored at the temporary path, then the draw-by-path command for that path and a newline are written |
| Session.KittySession.Draw | src/index.ts:193-201 | drawing by path stores the PNG and writes the draw-by-path command and a newline; drawing inline writes the chunked commands and a newline; calling the fallback or throwing writes nothing and stores no file |
| Session.KittySession.TerminalKittyImage | src/index.ts:172-202 | the prepared image follows the resize plan; the action is the dispatch for the cached or newly probed level; the probe count grows by the one or two probes of the first call only; the formats written are those probes and then the chosen drawing; a temporary file is written only when drawing by path; fallback and throw write nothing after the probes |
| Session.QueryTwice | src/index.ts:142-152 | two capability queries give the same level; only the first query's one or two probes are written |
| Cli.ParseIntReadsBack | cli/index.ts:27-30 | `parseInt` reads back any integer as JavaScript prints it, even when other text (not a digit, not `x`) follows |
| Cli.SkipsLeadingSpace | cli/index.ts:27-30 | leading whitespace never changes what `parseInt` reads |
| Cli.UnsignedRead | cli/index.ts:27-30 | text that starts with neither whitespace nor a sign reads as its magnitude: the decimal digits, or the hexadecimal digits after `0x`; `NaN` when there is none |
| Cli.SignedRead | cli/index.ts:37-40 | a leading `-` negates what the rest reads as, a leading `+` keeps it, and either is `NaN` when the rest has no magnitude |
| Cli.ReadsHexDigits | cli/index.ts:44-47 | `0x` or `0X` followed by hexadecimal digits reads them in base 16, up to the first character that is not a hexadecimal digit |
| Cli.DigitRunStops | cli/index.ts:27-30 | when `d` is all digits of the radix and `rest` does not start with one, the run of digits read from `d + rest` is exactly `d` |
| Cli.ParseIntSkipsSpaceAndSign | cli/index.ts:37-40 | leading whitespace and a minus sign are accepted (`" \t-42"` is −42) |
| Cli.ParseIntReadsHex | cli/index.ts:44-47 | a `0x` prefix reads hexadecimal (`"0x1A"` is 26) |
| Cli.ParseIntStopsAtNonDigit | cli/index.ts:27-30 | reading stops at the first non-digit (`"+7.5"` is 7) |
| Cli.NotANumber | cli/index.ts:27-28 | an empty string, a word and a bare `0x` are `NaN` |
| Cli.NatToStringDigits | cli/index.ts:30 | a number's decimal text is all digits, and reads back as that number |
| Cli.Normalise | cli/index.ts:19-57 | each error message is thrown exactly when its option is the first one invalid, and "file does not exist" exactly when the options are valid and the path does not exist; on success the object always has `callback` and never `fallback`; with `-s n` it is exactly `{callback, width: n, height: n, stretch: false}`, and other options are ignored; otherwise it has no key but `callback`, `width`, `height` and `preserveAspectRatio`, `width` and `height` are present exactly when given, and `preserveAspectRatio: false` exactly when `--stretch` is given |
| Cli.SizeShorthandPreservesAspect | cli/index.ts:30-33 | with `-s n` the library scales the image to fit an n × n box, keeping its aspect ratio |
| Cli.StretchResizes | cli/index.ts:50-52 | with `--width w --height h --stretch` the library resizes the image to exactly w × h |
| Cli.CallbackNeverRuns | cli/index.ts:20-25 | the library never reads the CLI's `callback`, so on a terminal without support `terminalKittyImage` throws `UnsupportedTerminalError` with its fixed message |

## Behaviour as written

Where the code does something other than its option names, its handler or
its structure suggest, the model follows the code:

- `-s n` sets `width` and `height` to n and stores `stretch: false`
  (cli/index.ts:30-33). `terminalKittyImage` never reads `stretch`. It
  resizes only when `preserveAspectRatio` is `false` (src/index.ts:183), and
  `-s` leaves that key unset. So `-s n` keeps the aspect ratio and scales the
  image to fit n × n, as the option's help text "preserve" says
  (cli/index.ts:12). `--stretch` instead sets `preserveAspectRatio: false`
  (cli/index.ts:15, 50-52). With `--width n --height n --stretch` the image
  is resized to exactly n × n. `--stretch` alone asks for
  `resize(AUTO, AUTO)`.
  `Cli.SizeShorthandPreservesAspect` and `Cli.StretchResizes` state the two
  outcomes.
- The CLI's handler prints "Environment does not support kitty images" and
  exits with code 1 (cli/index.ts:21-24). It is stored under `callback`, but
  the library reads `fallback` (src/index.ts:176). So on a terminal without
  support `terminalKittyImage` throws `UnsupportedTerminalError` instead, and
  the handler never runs (`Cli.CallbackNeverRuns`).
- The image library decodes and resizes a path source whatever the level,
  even `none` (src/index.ts:177-191). In
  `Session.KittySession.TerminalKittyImage`, `prep` is computed on every
  path.

## Left out

- Terminal I/O is not modelled. This covers raw mode, the `data` listener,
  the 20 ms timers, killing the subprocess and clearing the line through
  `readline`. What the terminal answers within the window is a parameter. A
  terminal that does not answer is the same as an empty reply, which gives
  `none`.
- Failures of the terminal I/O itself are not modelled. When standard input
  is not a TTY, `setRawMode` is undefined and calling it throws
  (src/index.ts:14, 51). When `printf` cannot be spawned, the `error` event
  of the subprocess has no listener, so the error is uncaught
  (src/index.ts:21, 58). Either way `getKittySupport` and
  `terminalKittyImage` reject, and no level is cached.
- The 20 ms delay before `drawImageFromUrl` writes its newline is not
  modelled. The model writes the newline straight after the command.
- Everything the image library does is a parameter or left out: decoding,
  `resize`/`scaleToFit`, PNG encoding, and the 1×1 placeholder image of the
  local probe. `Policy.PrepFor` states which operation is asked for, with
  which sizes.
- The random temporary file names (`Math.random`) and `os.tmpdir()` are
  parameters.
- Paths are byte sequences. The UTF-8 encoding of a JavaScript path string
  (`Buffer.from(tmpFilePath)`) is not modelled, and neither is
  `path.resolve` against the working directory.
- Session.KittySession.HasImageSupport, Session.KittySession.HasLocalSupport:
  the regular expressions' global flag (`/g`) is not modelled. Both
  expressions are shared module-level objects (src/index.ts:11-12). After a
  match, a second `test` on the same object starts its search at the end of
  that match. Through `getKittySupport` each expression is tested at most
  once per process, because the level is cached. But `hasImageSupport` and
  `hasLocalSupport` are exported (src/index.ts:13, 42). Calling one directly
  a second time can answer `false` for a reply that holds the marker, for
  instance the same reply twice. The model answers every call as a fresh
  regular expression would.
- Printf.Interpret: it covers only `\\`, `\n`, octal escapes and `%%`, and
  returns `None` for any other escape or conversion. None of the templates
  uses another one, and base64 payloads contain neither `\` nor `%`.
- Cli.ParseIntReadsBack: it excludes a following `x` or `X`, because
  `parseInt("0x5")` reads hexadecimal and gives 5, not 0.
- Cli.SkipsLeadingSpace: only ASCII whitespace is skipped. JavaScript
  also skips Unicode spaces and line terminators.
- `parseInt`'s precision limits are not modelled. The model's integers are
  unbounded, while JavaScript returns an imprecise double for more than 2^53.
- Argument parsing by `commander` is not modelled. The model starts from the
  parsed option strings and the positional path.
- Printing the error and the stack trace of an uncaught exception is not
  modelled. Errors are `Failure` values, and the throw on `none` is the
  action `ThrowUnsupported`.
- Concurrency is not modelled: two overlapping calls to `getKittySupport`
  before the cache is set. The model runs calls one after another.
- Calling standard input's `destroy` is recorded only as the flag
  `stdinOpen`.
