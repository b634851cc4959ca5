/**
 * The module-level state of the library: the cached capability level
 * (`kittySupport`), whether standard input is still open, and what has been
 * written.  Each probe or drawing step spawns `printf` with one format;
 * `written` lists those formats in spawn order (the `Escapes` lemmas say
 * what bytes each produces).  `files` records the PNG files written to the
 * temporary directory for drawing by reference.  The terminal's replies, the
 * random temporary names and the PNG the image library produces are
 * parameters.
 */
module Session {
  import opened Wrappers
  import opened Escapes
  import opened Reply
  import opened Policy
  import Render
  import Base64

  /** The probe formats of a first capability query: the local probe only runs after a remote success. */
  function ProbeFormats(remoteReply: string, probePath: seq<Base64.byte>): seq<string> {
    [RemoteQueryFormat] + (if RemoteSupported(remoteReply) then [LocalQueryFormat(Base64.Encode(probePath))] else [])
  }

  /** The formats a drawing action writes. */
  function DrawFormats<F>(action: Action<F>, png: seq<Base64.byte>, pngPath: seq<Base64.byte>): seq<string> {
    match action
    case DrawFromUrl => [ReferenceFormat(Base64.Encode(pngPath)), NewlineFormat]
    case DrawFromBuffer => Render.InlineFormats(Render.Chunks(Base64.Encode(png))) + [NewlineFormat]
    case _ => []
  }

  class KittySession {
    var kittySupport: Option<KittySupport>
    var stdinOpen: bool
    var probes: nat
    var written: seq<string>
    var files: map<seq<Base64.byte>, seq<Base64.byte>>

    constructor ()
      ensures kittySupport == None && stdinOpen && probes == 0
      ensures written == [] && files == map[]
    {
      kittySupport := None;
      stdinOpen := true;
      probes := 0;
      written := [];
      files := map[];
    }

    /** `hasImageSupport`: send the remote query; `reply` is what the terminal sends back within the window. */
    method HasImageSupport(reply: string) returns (supported: bool)
      modifies this`written, this`probes
      ensures supported == RemoteSupported(reply)
      ensures written == old(written) + [RemoteQueryFormat]
      ensures probes == old(probes) + 1
    {
      written := written + [RemoteQueryFormat];
      probes := probes + 1;
      supported := HasMarker(reply, RemoteId);
    }

    /** `hasLocalSupport`: send the local query naming the placeholder file at `tmpPath`. */
    method HasLocalSupport(reply: string, tmpPath: seq<Base64.byte>) returns (supported: bool)
      modifies this`written, this`probes
      ensures supported == LocalSupported(reply)
      ensures written == old(written) + [LocalQueryFormat(Base64.Encode(tmpPath))]
      ensures probes == old(probes) + 1
    {
      written := written + [LocalQueryFormat(Base64.Encode(tmpPath))];
      probes := probes + 1;
      supported := HasMarker(reply, LocalId);
    }

    /** `getKittySupport`: probe on the first call only, then answer from the cache. */
    method GetKittySupport(remoteReply: string, localReply: string, probePath: seq<Base64.byte>)
      returns (level: KittySupport)
      modifies this`kittySupport, this`stdinOpen, this`written, this`probes
      ensures kittySupport == Some(level) && !stdinOpen
      ensures old(kittySupport).Some? ==>
        level == old(kittySupport).value && written == old(written) && probes == old(probes)
      ensures old(kittySupport).None? ==>
        level == Classify(RemoteSupported(remoteReply), LocalSupported(localReply))
        && written == old(written) + ProbeFormats(remoteReply, probePath)
        && probes == old(probes) + |ProbeFormats(remoteReply, probePath)|
    {
      if kittySupport.None? {
        var remote := HasImageSupport(remoteReply);
        var result: KittySupport;
        if remote {
          var local := HasLocalSupport(localReply, probePath);
          result := if local then Local else Remote;
        } else {
          result := NoSupport;
        }
        kittySupport := Some(result);
      }
      stdinOpen := false;
      level := kittySupport.value;
    }

    /** `drawImageFromUrl`: write the PNG to `tmpPath`, then name that file to the terminal. */
    method DrawImageFromUrl(png: seq<Base64.byte>, tmpPath: seq<Base64.byte>)
      modifies this`files, this`written
      ensures files == old(files)[tmpPath := png]
      ensures written == old(written) + [ReferenceFormat(Base64.Encode(tmpPath)), NewlineFormat]
    {
      files := files[tmpPath := png];
      written := written + [ReferenceFormat(Base64.Encode(tmpPath))];
      written := written + [NewlineFormat];
    }

    /** The drawing branches of `terminalKittyImage`: by path, inline, or nothing drawn. */
    method Draw<F>(action: Action<F>, png: seq<Base64.byte>, pngPath: seq<Base64.byte>)
      modifies this`files, this`written
      ensures written == old(written) + DrawFormats(action, png, pngPath)
      ensures files == if action.DrawFromUrl? then old(files)[pngPath := png] else old(files)
    {
      match action {
        case DrawFromUrl =>
          DrawImageFromUrl(png, pngPath);
        case DrawFromBuffer =>
          var formats := Render.DrawImageFromBuffer(png);
          written := written + formats;
        case CallFallback(_) =>
        case ThrowUnsupported(_) =>
      }
    }

    /**
     * `terminalKittyImage`.  `prepared` is the PNG the image library makes
     * of a path source (it decodes and resizes whatever the level);
     * `pngPath` is the temporary file for drawing by reference.
     */
    method TerminalKittyImage<F>(image: Source, options: Options<F>,
                                 remoteReply: string, localReply: string, probePath: seq<Base64.byte>,
                                 prepared: seq<Base64.byte>, pngPath: seq<Base64.byte>)
      returns (action: Action<F>, prep: Prep)
      modifies this
      ensures prep == PrepFor(image, options)
      ensures old(kittySupport).Some? ==> kittySupport == old(kittySupport)
      ensures old(kittySupport).None? ==>
        kittySupport == Some(Classify(RemoteSupported(remoteReply), LocalSupported(localReply)))
      ensures kittySupport.Some? && action == Decide(kittySupport.value, image, options)
      ensures written == old(written)
        + (if old(kittySupport).None? then ProbeFormats(remoteReply, probePath) else [])
        + DrawFormats(action, if image.Path? then prepared else image.png, pngPath)
      ensures files == if action.DrawFromUrl? then old(files)[pngPath := prepared] else old(files)
      ensures probes == old(probes) + (if old(kittySupport).None? then |ProbeFormats(remoteReply, probePath)| else 0)
      ensures !stdinOpen
    {
      var level := GetKittySupport(remoteReply, localReply, probePath);
      prep := PrepFor(image, options);
      var png := if image.Path? then prepared else image.png;
      action := Decide(level, image, options);
      Draw(action, png, pngPath);
    }
  }

  /**
   * Two capability queries in a row: the first probes, the second answers
   * from the cache whatever the terminal would now reply, and only the
   * first query's probes are ever sent.
   */
  method QueryTwice(remote1: string, local1: string, path1: seq<Base64.byte>,
                    remote2: string, local2: string, path2: seq<Base64.byte>)
    returns (first: KittySupport, second: KittySupport, sent: seq<string>)
    ensures first == Classify(RemoteSupported(remote1), LocalSupported(local1))
    ensures second == first
    ensures sent == ProbeFormats(remote1, path1)
    ensures 1 <= |sent| <= 2
  {
    var session := new KittySession();
    first := session.GetKittySupport(remote1, local1, path1);
    second := session.GetKittySupport(remote2, local2, path2);
    sent := session.written;
  }
}
