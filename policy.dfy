/**
 * The pure decisions of `terminalKittyImage` and `getKittySupport`: the
 * capability level from the two probe results, the resize plan handed to the
 * image library, and the choice between drawing by reference, drawing
 * inline and the fallback.
 */
module Policy {
  import opened Wrappers
  import Base64

  /** `KittySupport`: "local", "remote" or "none". */
  datatype KittySupport = Local | Remote | NoSupport

  /** The image argument: a path to decode, or PNG bytes to send as they are. */
  datatype Source = Path(path: string) | Buffer(png: seq<Base64.byte>)

  /** The caller's `Partial<Options<T>>`; `F` stands for the fallback function. */
  datatype Options<F> = Options(
    width: Option<int>,
    height: Option<int>,
    preserveAspectRatio: Option<bool>,
    fallback: Option<F>)

  /** A target dimension for `resize`: Jimp's `AUTO` or a number of pixels. */
  datatype Dim = Auto | Px(pixels: int)

  /** What is asked of the image library before drawing. */
  datatype Prep = Resize(w: Dim, h: Dim) | ScaleToFit(maxW: int, maxH: int) | Unchanged

  /**
   * What `terminalKittyImage` does once the level is known; `ThrowUnsupported`
   * throws an `UnsupportedTerminalError` with `message`.
   */
  datatype Action<F> = DrawFromUrl | DrawFromBuffer | CallFallback(fallback: F) | ThrowUnsupported(message: string)

  /** The default bounding box of `scaleToFit`. */
  const DefaultBox: int := 600

  /** The message of `UnsupportedTerminalError`, which the default fallback throws. */
  const UnsupportedMessage := "Terminal must support Kitty graphics protocol"

  /** The level from the two probes; the local result is only consulted after a remote success. */
  function Classify(remote: bool, local: bool): (level: KittySupport)
    ensures level == NoSupport <==> !remote
    ensures level == Local <==> remote && local
    ensures level == Remote <==> remote && !local
  {
    if remote then (if local then Local else Remote) else NoSupport
  }

  function OrAuto(d: Option<int>): Dim {
    match d
    case Some(n) => Px(n)
    case None => Auto
  }

  function OrDefault(d: Option<int>): int {
    match d
    case Some(n) => n
    case None => DefaultBox
  }

  /**
   * The resize plan: only a path is decoded and resized; only an explicit
   * `preserveAspectRatio: false` stretches to the requested size (missing
   * dimensions are `AUTO`); otherwise the image is scaled to fit a box that
   * defaults to 600 by 600 pixels.
   */
  function PrepFor<F>(image: Source, options: Options<F>): (p: Prep)
    ensures p.Unchanged? <==> image.Buffer?
    ensures p.Resize? <==> image.Path? && options.preserveAspectRatio == Some(false)
    ensures p.Resize? ==> (p.w.Auto? <==> options.width.None?) && (p.h.Auto? <==> options.height.None?)
    ensures p.Resize? && options.width.Some? ==> p.w.pixels == options.width.value
    ensures p.Resize? && options.height.Some? ==> p.h.pixels == options.height.value
    ensures p.ScaleToFit? ==> p.maxW == (if options.width.Some? then options.width.value else DefaultBox)
    ensures p.ScaleToFit? ==> p.maxH == (if options.height.Some? then options.height.value else DefaultBox)
  {
    if image.Buffer? then Unchanged
    else if options.preserveAspectRatio == Some(false) then
      Resize(OrAuto(options.width), OrAuto(options.height))
    else ScaleToFit(OrDefault(options.width), OrDefault(options.height))
  }

  /**
   * Dispatch: a path on a terminal that reads local files goes by reference;
   * any other supported case goes inline; without support the fallback runs,
   * and the default fallback throws.
   */
  function Decide<F>(level: KittySupport, image: Source, options: Options<F>): (a: Action<F>)
    ensures a.DrawFromUrl? <==> level == Local && image.Path?
    ensures a.DrawFromBuffer? <==> (level == Remote || (level == Local && image.Buffer?))
    ensures a.CallFallback? <==> level == NoSupport && options.fallback.Some?
    ensures a.CallFallback? ==> a.fallback == options.fallback.value
    ensures a.ThrowUnsupported? <==> level == NoSupport && options.fallback.None?
    ensures a.ThrowUnsupported? ==> a.message == UnsupportedMessage
  {
    if level.Local? && image.Path? then DrawFromUrl
    else if !level.NoSupport? then DrawFromBuffer
    else match options.fallback
      case Some(f) => CallFallback(f)
      case None => ThrowUnsupported(UnsupportedMessage)
  }
}
