/** The transition renderer (`createFaceMorphGif`): argument checks, the
    magic-byte sniffing that names the staged input files, the two
    temporary paths, the collection of the encoder's output and diagnostic
    streams, the exit-code handling, and the removal of both staged files on
    every path that staged them. The encoder process, the random id and
    the file writes are parameters of the model. */
module FaceMorph {
  import opened Basics
  import opened Text

  /** A JavaScript number, as far as the checks tell numbers apart. */
  datatype JsNumber = Finite(value: real) | NonFinite

  const DefaultDurationMs := 1000

  /** The arguments of `createFaceMorphGif`; a missing image is `None`. */
  datatype MorphRequest = MorphRequest(
    fromImage: Option<Bytes>,
    toImage: Option<Bytes>,
    width: JsNumber,
    height: JsNumber,
    durationMs: Option<int>)

  const MissingImageMessage: string := "fromImage and toImage are required."
  const BadDimensionsMessage: string := "width and height must be positive numbers."

  predicate PositiveFinite(n: JsNumber) {
    n.Finite? && n.value > 0.0
  }

  /** The error thrown before anything is staged, if any: images first,
      then dimensions. */
  function ValidationError(req: MorphRequest): (r: Option<Error>)
    ensures r.None? <==> (req.fromImage.Some? && req.toImage.Some?
                          && PositiveFinite(req.width) && PositiveFinite(req.height))
    ensures req.fromImage.None? || req.toImage.None? ==> r == Some(Error(MissingImageMessage))
    ensures r.Some? && req.fromImage.Some? && req.toImage.Some? ==> r == Some(Error(BadDimensionsMessage))
  {
    if req.fromImage.None? || req.toImage.None? then Some(Error(MissingImageMessage))
    else if !PositiveFinite(req.width) || !PositiveFinite(req.height) then Some(Error(BadDimensionsMessage))
    else None
  }

  /** `b.toString('ascii', off, off + len)`: Node's ASCII decoding clears
      the high bit of every byte. */
  function AsciiText(b: Bytes, off: nat, len: nat): (s: string)
    requires off + len <= |b|
    ensures |s| == len
  {
    seq(len, i requires 0 <= i < len => ((b[off + i] as int) % 128) as char)
  }

  /** The octets of an ASCII string. */
  function AsciiBytes(s: string): (b: Bytes)
    requires forall i :: 0 <= i < |s| ==> s[i] as int < 128
    ensures |b| == |s|
  {
    seq(|s|, i requires 0 <= i < |s| => s[i] as int as byte)
  }

  const Extensions: seq<string> := [".png", ".jpg", ".webp", ".gif", ".bmp", ".img"]

  /** The five tag tests of `sniffExt`, on the leading bytes. */
  predicate LooksPng(b: Bytes) { |b| >= 8 && b[0] == 0x89 && AsciiText(b, 1, 3) == "PNG" }
  predicate LooksJpeg(b: Bytes) { |b| >= 3 && b[0] == 0xFF && b[1] == 0xD8 && b[2] == 0xFF }
  predicate LooksWebp(b: Bytes) { |b| >= 12 && AsciiText(b, 0, 4) == "RIFF" && AsciiText(b, 8, 4) == "WEBP" }
  predicate LooksGif(b: Bytes) { |b| >= 6 && (AsciiText(b, 0, 6) == "GIF87a" || AsciiText(b, 0, 6) == "GIF89a") }
  predicate LooksBmp(b: Bytes) { |b| >= 2 && AsciiText(b, 0, 2) == "BM" }

  /** `sniffExt`: an extension from the leading bytes; the first matching
      test wins and `.img` is the fallback. */
  function SniffExt(b: Bytes): (ext: string)
    ensures ext in Extensions
    ensures ext == ".png" <==> LooksPng(b)
    ensures ext == ".jpg" <==> !LooksPng(b) && LooksJpeg(b)
    ensures ext == ".webp" <==> !LooksPng(b) && !LooksJpeg(b) && LooksWebp(b)
    ensures ext == ".gif" <==> !LooksPng(b) && !LooksJpeg(b) && !LooksWebp(b) && LooksGif(b)
    ensures ext == ".bmp" <==> !LooksPng(b) && !LooksJpeg(b) && !LooksWebp(b) && !LooksGif(b) && LooksBmp(b)
    ensures ext == ".img" <==> !LooksPng(b) && !LooksJpeg(b) && !LooksWebp(b) && !LooksGif(b) && !LooksBmp(b)
  {
    if LooksPng(b) then ".png"
    else if LooksJpeg(b) then ".jpg"
    else if LooksWebp(b) then ".webp"
    else if LooksGif(b) then ".gif"
    else if LooksBmp(b) then ".bmp"
    else ".img"
  }

  /** A buffer too short for any tag, such as an empty one, is an `.img`. */
  lemma ShortBufferFallsBack(b: Bytes)
    requires |b| < 2
    ensures SniffExt(b) == ".img"
  {
  }

  /** The eight-byte PNG file signature (section 5.2 of the PNG specification). */
  const PngSignature: Bytes := [0x89, 0x50, 0x4E, 0x47, 0x0D, 0x0A, 0x1A, 0x0A]

  /** A buffer that starts with the PNG signature is a `.png`. */
  lemma PngSniffed(b: Bytes)
    requires |b| >= 8 && b[..8] == PngSignature
    ensures SniffExt(b) == ".png"
  {
    assert b[1] == 0x50 && b[2] == 0x4E && b[3] == 0x47;
    assert AsciiText(b, 1, 3) == "PNG";
  }

  /** A buffer that starts with the JPEG start-of-image marker and the
      first byte of the next marker (FF D8 FF) is a `.jpg`. */
  lemma JpegSniffed(b: Bytes)
    requires |b| >= 3 && b[0] == 0xFF && b[1] == 0xD8 && b[2] == 0xFF
    ensures SniffExt(b) == ".jpg"
  {
  }

  /** A RIFF container whose form type is WEBP is a `.webp`. */
  lemma WebpSniffed(b: Bytes)
    requires |b| >= 12
    requires b[..4] == AsciiBytes("RIFF") && b[8..12] == AsciiBytes("WEBP")
    ensures SniffExt(b) == ".webp"
  {
    assert b[0] == 0x52;
    assert AsciiText(b, 0, 4) == "RIFF";
    assert b[8] == 0x57 && b[9] == 0x45 && b[10] == 0x42 && b[11] == 0x50;
    assert AsciiText(b, 8, 4) == "WEBP";
  }

  /** A GIF header, "GIF87a" or "GIF89a" (section 17 of the GIF89a
      specification), is a `.gif`. */
  lemma GifSniffed(b: Bytes)
    requires |b| >= 6
    requires b[..6] == AsciiBytes("GIF87a") || b[..6] == AsciiBytes("GIF89a")
    ensures SniffExt(b) == ".gif"
  {
    assert b[0] == 0x47 && b[1] == 0x49 && b[2] == 0x46 && b[3] == 0x38 && b[5] == 0x61;
    assert b[4] == 0x37 || b[4] == 0x39;
    assert AsciiText(b, 0, 6) == "GIF87a" || AsciiText(b, 0, 6) == "GIF89a";
    if |b| >= 12 {
      assert AsciiText(b, 0, 4)[0] == 'G';
    }
  }

  /** A buffer starting with "BM" is a `.bmp`. */
  lemma BmpSniffed(b: Bytes)
    requires |b| >= 2 && b[0] == 0x42 && b[1] == 0x4D
    ensures SniffExt(b) == ".bmp"
  {
    assert AsciiText(b, 0, 2) == "BM";
    if |b| >= 12 {
      assert AsciiText(b, 0, 4)[0] == 'B';
    }
    if |b| >= 6 {
      assert AsciiText(b, 0, 6)[0] == 'B';
    }
  }

  /** Because the ASCII decoding drops bit 7, the tag tests also accept
      bytes that differ from the tag only in that bit: 89 D0 CE C7 reads as
      a PNG although it is not the PNG signature. */
  lemma SniffIgnoresHighBit()
    ensures SniffExt([0x89, 0xD0, 0xCE, 0xC7, 0, 0, 0, 0]) == ".png"
  {
    var b: Bytes := [0x89, 0xD0, 0xCE, 0xC7, 0, 0, 0, 0];
    assert AsciiText(b, 1, 3) == "PNG";
  }

  /** `path.join(tmpDir, 'morph_' + id + '_' + tag + ext)`. */
  function TempPath(tmpDir: string, id: string, tag: char, ext: string): string {
    tmpDir + "/" + "morph_" + id + "_" + [tag] + ext
  }

  /** The two staging paths share the random id but not the `_a`/`_b`
      suffix, so they never coincide. */
  function StagingPaths(tmpDir: string, id: string, extA: string, extB: string): (paths: (string, string))
    ensures paths.0 != paths.1
  {
    var a := TempPath(tmpDir, id, 'a', extA);
    var b := TempPath(tmpDir, id, 'b', extB);
    var k := |tmpDir + "/" + "morph_" + id + "_"|;
    assert a[k] == 'a' && b[k] == 'b';
    (a, b)
  }

  /** A data event on one of the encoder's two output streams. */
  datatype StreamEvent = StdoutData(chunk: Bytes) | StderrData(chunk: Bytes)

  /** How the encoder process ended: `close` with an exit code (`None` when
      killed by a signal) or an `error` event. */
  datatype ProcessEnd = Closed(code: Option<int>) | SpawnError(message: string)

  /** Everything the process emits, in arrival order, then how it ended. */
  datatype ProcessTrace = ProcessTrace(events: seq<StreamEvent>, end: ProcessEnd)

  /** What the encoder is started with: the two staged files (path and
      content), the target box and the duration. */
  datatype Invocation = Invocation(
    inputA: string, inputB: string,
    stagedA: Bytes, stagedB: Bytes,
    width: real, height: real,
    durationMs: int)

  /** The outside world of one run: the temporary directory, the random id,
      the outcome of writing each path (`Some(message)` when it fails) and
      the encoder's behaviour for an invocation. */
  datatype MorphEnv = MorphEnv(
    tmpDir: string,
    id: string,
    writeError: string -> Option<string>,
    encoder: Invocation -> ProcessTrace)

  /** The chunks of the stdout (`fromStdout`) or stderr events, in arrival order. */
  function Chunks(events: seq<StreamEvent>, fromStdout: bool): seq<Bytes> {
    if events == [] then []
    else Chunks(events[..|events| - 1], fromStdout)
         + (if events[|events| - 1].StdoutData? == fromStdout then [events[|events| - 1].chunk] else [])
  }

  /** Chunks are collected in arrival order: a trace split in two collects
      the first part's chunks, then the second's. */
  lemma {:induction false} ChunksAppend(a: seq<StreamEvent>, b: seq<StreamEvent>, fromStdout: bool)
    ensures Chunks(a + b, fromStdout) == Chunks(a, fromStdout) + Chunks(b, fromStdout)
  {
    if b == [] {
      assert a + b == a;
    } else {
      assert (a + b)[..|a + b| - 1] == a + b[..|b| - 1];
      ChunksAppend(a, b[..|b| - 1], fromStdout);
    }
  }

  /** `Buffer.concat(chunks)`. */
  function Concat(chunks: seq<Bytes>): Bytes {
    if chunks == [] then [] else Concat(chunks[..|chunks| - 1]) + chunks[|chunks| - 1]
  }

  lemma {:induction false} ConcatAppend(a: seq<Bytes>, b: seq<Bytes>)
    ensures Concat(a + b) == Concat(a) + Concat(b)
  {
    if b == [] {
      assert a + b == a;
    } else {
      assert (a + b)[..|a + b| - 1] == a + b[..|b| - 1];
      ConcatAppend(a, b[..|b| - 1]);
    }
  }

  /** The output is the stdout data in arrival order: the bytes of a run
      whose events are `a` then `b` are those of `a` followed by those of `b`. */
  lemma OutputInArrivalOrder(a: seq<StreamEvent>, b: seq<StreamEvent>)
    ensures Concat(Chunks(a + b, true)) == Concat(Chunks(a, true)) + Concat(Chunks(b, true))
  {
    ChunksAppend(a, b, true);
    ConcatAppend(Chunks(a, true), Chunks(b, true));
  }

  const ExitCodePrefix: string := "ffmpeg exited with code "

  /** The rejection message on a non-zero exit: the stderr text, or the
      exit code when stderr was empty. */
  function ExitMessage(stderr: Bytes, code: Option<int>): (m: string)
    ensures m != ""
    ensures stderr != [] ==> m == DecodeBytes(stderr)
    ensures stderr == [] ==> |m| > |ExitCodePrefix| && m[..|ExitCodePrefix|] == ExitCodePrefix
    ensures stderr == [] && code.Some? ==> m[|ExitCodePrefix|..] == IntToDecimal(code.value)
    ensures stderr == [] && code.None? ==> m[|ExitCodePrefix|..] == "null"
  {
    if stderr != [] then DecodeBytes(stderr)
    else ExitCodePrefix + (if code.Some? then IntToDecimal(code.value) else "null")
  }

  /** An exit code reported without stderr text can be read back from the
      message. */
  lemma ExitCodeReadBack(code: nat)
    ensures ParseInt(ExitMessage([], Some(code))[|ExitCodePrefix|..]) == Some(code)
  {
    ParseIntOfDecimal(code);
  }

  /** The paths a validated request stages its images at. */
  function PathsFor(req: MorphRequest, env: MorphEnv): (string, string)
    requires ValidationError(req).None?
  {
    StagingPaths(env.tmpDir, env.id, SniffExt(req.fromImage.value), SniffExt(req.toImage.value))
  }

  /** The encoder invocation for a validated request. */
  function InvocationFor(req: MorphRequest, env: MorphEnv): (inv: Invocation)
    requires ValidationError(req).None?
    ensures inv.durationMs == req.durationMs.GetOr(DefaultDurationMs)
    ensures (inv.inputA, inv.inputB) == PathsFor(req, env)
    ensures inv.stagedA == req.fromImage.value && inv.stagedB == req.toImage.value
  {
    var paths := PathsFor(req, env);
    Invocation(paths.0, paths.1, req.fromImage.value, req.toImage.value,
               req.width.value, req.height.value, req.durationMs.GetOr(DefaultDurationMs))
  }

  /** Both images of a validated request were written to their paths. */
  predicate Staged(req: MorphRequest, env: MorphEnv) {
    ValidationError(req).None?
    && env.writeError(PathsFor(req, env).0).None? && env.writeError(PathsFor(req, env).1).None?
  }

  /** What the encoder does when started for a validated request. */
  function TraceFor(req: MorphRequest, env: MorphEnv): ProcessTrace
    requires ValidationError(req).None?
  {
    env.encoder(InvocationFor(req, env))
  }

  /** What a run resolves to: a validation error, a failed write, the
      encoder's `error` event, its stderr or exit code on a non-zero exit,
      or the concatenated stdout on exit code 0. */
  function MorphResult(req: MorphRequest, env: MorphEnv): (r: Result<Bytes, Error>)
    ensures ValidationError(req).Some? ==> r == Failure(ValidationError(req).value)
    ensures ValidationError(req).None? && env.writeError(PathsFor(req, env).0).Some? ==>
              r == Failure(Error(env.writeError(PathsFor(req, env).0).value))
    ensures ValidationError(req).None? && env.writeError(PathsFor(req, env).0).None?
            && env.writeError(PathsFor(req, env).1).Some? ==>
              r == Failure(Error(env.writeError(PathsFor(req, env).1).value))
    ensures Staged(req, env) && TraceFor(req, env).end.SpawnError? ==>
              r == Failure(Error(TraceFor(req, env).end.message))
    ensures Staged(req, env) && TraceFor(req, env).end == Closed(Some(0)) ==>
              r == Success(Concat(Chunks(TraceFor(req, env).events, true)))
    ensures r.Success? ==> Staged(req, env)
                           && TraceFor(req, env).end == Closed(Some(0))
                           && r.value == Concat(Chunks(TraceFor(req, env).events, true))
    ensures Staged(req, env) && TraceFor(req, env).end.Closed? && TraceFor(req, env).end.code != Some(0) ==>
              r == Failure(Error(ExitMessage(Concat(Chunks(TraceFor(req, env).events, false)),
                                             TraceFor(req, env).end.code)))
  {
    match ValidationError(req)
    case Some(e) => Failure(e)
    case None =>
      var paths := PathsFor(req, env);
      if env.writeError(paths.0).Some? then Failure(Error(env.writeError(paths.0).value))
      else if env.writeError(paths.1).Some? then Failure(Error(env.writeError(paths.1).value))
      else
        var trace := env.encoder(InvocationFor(req, env));
        match trace.end
        case SpawnError(message) => Failure(Error(message))
        case Closed(code) =>
          if code == Some(0) then Success(Concat(Chunks(trace.events, true)))
          else Failure(Error(ExitMessage(Concat(Chunks(trace.events, false)), code)))
  }

  /** The temporary directory's files. */
  class TempFs {
    var files: map<string, Bytes>

    constructor (files: map<string, Bytes>)
      ensures this.files == files
    {
      this.files := files;
    }
  }

  /** The `data` handlers: each chunk is pushed onto the list of its stream
      as it arrives. */
  method CollectChunks(events: seq<StreamEvent>) returns (outputChunks: seq<Bytes>, stderrChunks: seq<Bytes>)
    ensures outputChunks == Chunks(events, true)
    ensures stderrChunks == Chunks(events, false)
  {
    outputChunks, stderrChunks := [], [];
    var i := 0;
    while i < |events|
      invariant 0 <= i <= |events|
      invariant outputChunks == Chunks(events[..i], true)
      invariant stderrChunks == Chunks(events[..i], false)
    {
      assert events[..i + 1][..i] == events[..i];
      match events[i] {
        case StdoutData(chunk) => outputChunks := outputChunks + [chunk];
        case StderrData(chunk) => stderrChunks := stderrChunks + [chunk];
      }
      i := i + 1;
    }
    assert events[..i] == events;
  }

  /** `createFaceMorphGif`: validates, stages both images, runs the
      encoder, and in its `finally` unlinks both staged files whatever
      happened after validation. */
  method CreateFaceMorphGif(fs: TempFs, req: MorphRequest, env: MorphEnv) returns (r: Result<Bytes, Error>)
    modifies fs
    ensures r == MorphResult(req, env)
    ensures ValidationError(req).Some? ==> fs.files == old(fs.files)
    ensures ValidationError(req).None? ==> fs.files == old(fs.files) - {PathsFor(req, env).0, PathsFor(req, env).1}
  {
    var invalid := ValidationError(req);
    if invalid.Some? {
      return Failure(invalid.value);
    }
    var bufA, bufB := req.fromImage.value, req.toImage.value;
    var paths := StagingPaths(env.tmpDir, env.id, SniffExt(bufA), SniffExt(bufB));
    var inA, inB := paths.0, paths.1;

    // try
    if env.writeError(inA).Some? {
      r := Failure(Error(env.writeError(inA).value));
    } else {
      fs.files := fs.files[inA := bufA];
      if env.writeError(inB).Some? {
        r := Failure(Error(env.writeError(inB).value));
      } else {
        fs.files := fs.files[inB := bufB];
        assert Staged(req, env);
        var trace := TraceFor(req, env);
        var outputChunks, stderrChunks := CollectChunks(trace.events);
        match trace.end
        case SpawnError(message) =>
          r := Failure(Error(message));
        case Closed(code) =>
          if code == Some(0) {
            r := Success(Concat(outputChunks));
          } else {
            r := Failure(Error(ExitMessage(Concat(stderrChunks), code)));
          }
      }
    }
    // finally
    fs.files := fs.files - {inA};
    fs.files := fs.files - {inB};
  }
}
