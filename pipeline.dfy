/**
 * The step/cleanup skeleton of the transcode entry point of ajpegtran.c
 * (Java_..._ajpegtran): the order in which it hands work to the codec
 * library, how a failing step (a longjmp back to the setjmp) skips the rest,
 * what the cleanup does with the two file descriptors, and which string comes
 * back.  The codec library is an oracle: `Codec` says how each call ends.
 */
module Pipeline {
  import opened Wrappers
  import opened Switches

  /** What the entry point asks of the codec library, and the edits and closes it does itself. */
  datatype Call =
    | CreateDecompress | CreateCompress
    | SetLimits(traceLevel: int, maxMemory: int)
    | StdioSrc(fd: int) | MarkersSetup(copy: CopyOption) | ReadHeader
    | RequestWorkspace(info: TransformInfo) | ReadCoefficients
    | Monochrome | Offset(offsets: seq<int>)
    | CopyCritical | AdjustParameters(info: TransformInfo)
    | Close(fd: int) | StdioDest(fd: int) | WriteCoefficients
    | MarkersExecute(copy: CopyOption) | ExecuteTransformation(info: TransformInfo)
    | FinishCompress | FinishDecompress | DestroyCompress | DestroyDecompress

  /**
   * How a call ends: it returns normally, it returns FALSE (only
   * jtransform_request_workspace reports failure this way), or the library's
   * error exit stores `message` in errmsgbuffer and longjmps.
   */
  datatype Outcome = Completed | Refused | Aborted(message: string)

  type Codec = Call -> Outcome

  /**
   * Calls that cannot end the run: copying the limits, the two edits and
   * close(), which the entry point does itself, and the two destroy calls,
   * which are made after the setjmp block.
   */
  predicate Infallible(c: Call)
  {
    c.SetLimits? || c.Monochrome? || c.Offset? || c.Close? || c.DestroyCompress? || c.DestroyDecompress?
  }

  const PerfectRefused := "Setup error:perfect option can't be executed"
  const ArgumentError := "Argument error"
  const Success := "OK"
  const UnknownError := "Unknown Error"

  /** The message a call leaves in errmsgbuffer when it ends the run, or None when the run goes on. */
  function Failure(c: Call, codec: Codec): (r: Option<string>)
    ensures Infallible(c) ==> r == None
    ensures r == Some(PerfectRefused) <== c.RequestWorkspace? && codec(c) == Refused
  {
    if Infallible(c) then None
    else match codec(c)
      case Completed => None
      case Refused => if c.RequestWorkspace? then Some(PerfectRefused) else None
      case Aborted(m) => Some(m)
  }

  /** The calls made, and the message of the one that ended the run early, if any. */
  datatype Ran = Ran(done: seq<Call>, failure: Option<string>)

  /** A straight run of steps: each is made in turn until one fails, and that one is the last made. */
  function Run(cs: seq<Call>, codec: Codec): (r: Ran)
    ensures r.failure == None ==> r.done == cs
    ensures r.failure != None ==> 0 < |r.done| <= |cs| && r.done == cs[..|r.done|] &&
                                  Failure(r.done[|r.done| - 1], codec) == r.failure
  {
    if cs == [] then Ran([], None)
    else match Failure(cs[0], codec)
      case Some(m) => Ran([cs[0]], Some(m))
      case None =>
        var rest := Run(cs[1..], codec);
        Ran([cs[0]] + rest.done, rest.failure)
  }

  /** Everything one call of the entry point does, and the string it returns. */
  datatype Transcoded = Transcoded(calls: seq<Call>, result: string)

  /** The returned string: errmsgbuffer, or "Unknown Error" when nothing was stored. */
  function Reply(errmsg: string): (r: string)
    ensures r != ""
    ensures errmsg != "" ==> r == errmsg
    ensures errmsg == "" ==> r == UnknownError
  {
    if errmsg == "" then UnknownError else errmsg
  }

  /** The cleanup after the setjmp block: both objects destroyed, then each descriptor closed unless it is -1. */
  function Cleanup(rfd: int, wfd: int): (r: seq<Call>)
    ensures |r| >= 2 && r[0] == DestroyCompress && r[1] == DestroyDecompress
    ensures Close(rfd) in r <==> rfd != -1
    ensures Close(wfd) in r <==> wfd != -1
    ensures forall c :: c in r[2..] ==> c.Close?
  {
    [DestroyCompress, DestroyDecompress]
      + (if rfd != -1 then [Close(rfd)] else [])
      + (if wfd != -1 then [Close(wfd)] else [])
  }

  /** The run ends: the calls made so far, the cleanup, and the string errmsgbuffer yields. */
  function Finish(done: seq<Call>, errmsg: string, rfd: int, wfd: int): Transcoded
  {
    Transcoded(done + Cleanup(rfd, wfd), Reply(errmsg))
  }

  /** Setting up the source: the limits copied, the input attached, marker saving enabled. */
  function SourceSetup(s: Settings, rfd: int): seq<Call>
  {
    [SetLimits(s.dst.traceLevel, s.dst.maxMemoryToUse), StdioSrc(rfd), MarkersSetup(s.copy)]
  }

  /** Reading the image: the header, the transform's workspace, the coefficients. */
  function ImageRead(s: Settings): seq<Call>
  {
    [ReadHeader, RequestWorkspace(s.xform), ReadCoefficients]
  }

  /** Reading the input: from copying the limits to jpeg_read_coefficients. */
  function Prepare(s: Settings, rfd: int): seq<Call>
  {
    SourceSetup(s, rfd) + ImageRead(s)
  }

  /** The two coefficient edits, each made only when its switch was given. */
  function Edits(s: Settings): seq<Call>
  {
    (if s.monochrome then [Monochrome] else [])
    + (if s.coeffAdj then [Offset(s.offsets)] else [])
  }

  /** Handing the image over to the compressor, and closing the input. */
  function Handover(s: Settings, rfd: int): seq<Call>
  {
    [CopyCritical, AdjustParameters(s.xform), Close(rfd)]
  }

  /** The decompression half, for parsed settings `s`: from the source set-up to closing the input. */
  function Decode(s: Settings, rfd: int): seq<Call>
  {
    Prepare(s, rfd) + Edits(s) + Handover(s, rfd)
  }

  /** Starting the output: the destination attached, the compressor started, the saved markers written. */
  function DestSetup(s: Settings, wfd: int): seq<Call>
  {
    [StdioDest(wfd), WriteCoefficients, MarkersExecute(s.copy)]
  }

  /** The transformation, then both objects finished. */
  function Finishing(s: Settings): seq<Call>
  {
    [ExecuteTransformation(s.xform), FinishCompress, FinishDecompress]
  }

  /** The compression half, writing to `wfd`. */
  function Encode(s: Settings, wfd: int): seq<Call>
  {
    DestSetup(s, wfd) + Finishing(s)
  }

  /** The work after a successful parse: decode, close the input (rfd becomes -1), encode. */
  function Body(s: Settings, rfd: int, wfd: int): seq<Call>
  {
    Decode(s, rfd) + Encode(s, wfd)
  }

  /** The state on entry: the globals of the extension switches are cleared; the rest is left from before. */
  function Entry(st: Settings): (r: Settings)
    ensures !r.coeffAdj && !r.monochrome && r.offsets == [0, 0, 0, 0]
    ensures r.copy == st.copy && r.xform == st.xform && r.dst == st.dst
  {
    st.(coeffAdj := false, offsets := [0, 0, 0, 0], monochrome := false)
  }

  /**
   * The setjmp block and the cleanup, given how the option string fared:
   * None when it was NULL or too long, otherwise what parse_switches made of it.
   */
  function Session(codec: Codec, rfd: int, wfd: int, parsed: Option<Parsed>): Transcoded
  {
    var create := Run([CreateDecompress, CreateCompress], codec);
    if create.failure.Some? then Finish(create.done, create.failure.value, rfd, wfd)
    else if parsed.None? then Finish(create.done, ArgumentError, rfd, wfd)
    else if parsed.value.err.Some? then Finish(create.done, parsed.value.err.value, rfd, wfd)
    else
      var body := Run(Body(parsed.value.st, rfd, wfd), codec);
      var rfdLeft := if Close(rfd) in body.done then -1 else rfd;
      Finish(create.done + body.done, if body.failure.Some? then body.failure.value else Success, rfdLeft, wfd)
  }

  /**
   * The session as the C text allows it to run: `rfd` is a plain parameter,
   * so after a longjmp the value the cleanup reads is indeterminate (section
   * 7.13.2.1 of ISO C11).  This is the case where it is kept in a register the
   * longjmp restores: the `rfd = -1` store after the close is lost whenever the
   * setjmp block ended with an abort, and only a completed block leaves -1.
   */
  function SessionRestoredRfd(codec: Codec, rfd: int, wfd: int, parsed: Option<Parsed>): Transcoded
  {
    var create := Run([CreateDecompress, CreateCompress], codec);
    if create.failure.Some? then Finish(create.done, create.failure.value, rfd, wfd)
    else if parsed.None? then Finish(create.done, ArgumentError, rfd, wfd)
    else if parsed.value.err.Some? then Finish(create.done, parsed.value.err.value, rfd, wfd)
    else
      var body := Run(Body(parsed.value.st, rfd, wfd), codec);
      var rfdLeft := if body.failure.None? then -1 else rfd;
      Finish(create.done + body.done, if body.failure.Some? then body.failure.value else Success, rfdLeft, wfd)
  }

  /**
   * Whether jpeg_read_coefficients returned, so that the edits were made on
   * the arrays it produced: creation and parsing succeeded and reading the
   * input completed.
   */
  predicate ReadCompleted(codec: Codec, rfd: int, parsed: Option<Parsed>)
  {
    Run([CreateDecompress, CreateCompress], codec).failure.None? &&
    parsed.Some? && parsed.value.err.None? &&
    Run(Prepare(parsed.value.st, rfd), codec).failure.None?
  }

  /** An option string is copied to the 256-byte buffer and parsed only when it is not NULL and shorter than the buffer. */
  function CheckedParse(env: Env, st: Settings, options: Option<string>): (r: Option<Parsed>)
    ensures r.None? <==> options.None? || |options.value| >= 256
    ensures r.Some? ==> r.value == ParseOptions(env, Entry(st), options.value)
  {
    if options.None? || |options.value| >= 256 then None else Some(ParseOptions(env, Entry(st), options.value))
  }

  /**
   * One call of the entry point.  `options` is what GetStringUTFChars returned
   * (None for NULL); `st` holds the globals and the fields of the new
   * compression object as they are when the call starts.
   */
  function Transcode(env: Env, st: Settings, rfd: int, wfd: int, options: Option<string>, codec: Codec): Transcoded
  {
    Session(codec, rfd, wfd, CheckedParse(env, st, options))
  }
}
