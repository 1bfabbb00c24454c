/**
 * The native library ajpegtran.c as state: its file-level globals
 * (copyoption, transformoption, coeff_adj, coeff_offset, monochrome,
 * errmsgbuffer), the fields of the compression object the parser writes, and
 * the log of codec calls the two entry points make.  Each method is proved
 * against the functional model of the same code: `ParseSwitches` against
 * `Switches.ParseOptions`, `Transcode` against `Pipeline.Transcode` and
 * `ProbeHead` against `Probe.ProbeHead`.
 */
module Ajpegtran {
  import opened Wrappers
  import opened Tokenize
  import opened Switches
  import opened Coefficients
  import opened Pipeline
  import opened Probe
  import opened PipelineFacts

  class Library {
    /** The build and the crop-spec parser the library was compiled with. */
    const env: Env
    /** copyoption */
    var copyoption: CopyOption
    /** transformoption */
    var transformoption: TransformInfo
    /** coeff_adj */
    var coeffAdj: bool
    /** coeff_offset[4] */
    const coeffOffset: array<int>
    /** monochrome */
    var monochrome: bool
    /** errmsgbuffer */
    var errmsg: string
    /** The fields of dstinfo that parse_switches writes. */
    var dst: CompressParams
    /** Every codec call, edit and close made so far. */
    var calls: seq<Call>

    ghost predicate Valid()
    {
      coeffOffset.Length == OffsetSlots
    }

    /** What the option parser reads and writes. */
    function Globals(): (s: Settings)
      reads this`copyoption, this`transformoption, this`coeffAdj, this`monochrome, this`dst, coeffOffset
      requires Valid()
      ensures |s.offsets| == OffsetSlots
    {
      Settings(copyoption, transformoption, coeffAdj, coeffOffset[..], monochrome, dst)
    }

    /** The library as loaded: static storage is zero, so copyoption is JCOPYOPT_NONE and every transform option is off. */
    constructor (env: Env, dst: CompressParams)
      ensures Valid() && fresh(coeffOffset)
      ensures this.env == env && calls == [] && errmsg == ""
      ensures Globals() == Settings(CopyNone, TransformInfo(XformNone, false, false, false, None),
                                    false, [0, 0, 0, 0], false, dst)
    {
      this.env := env;
      copyoption := CopyNone;
      transformoption := TransformInfo(XformNone, false, false, false, None);
      coeffAdj := false;
      coeffOffset := new int[OffsetSlots](_ => 0);
      monochrome := false;
      errmsg := "";
      this.dst := dst;
      calls := [];
    }

    /** Writes settings back into the globals and the compression object. */
    method Store(s: Settings)
      requires Valid() && |s.offsets| == OffsetSlots
      modifies this`copyoption, this`transformoption, this`coeffAdj, this`monochrome, this`dst, coeffOffset
      ensures Valid() && Globals() == s
    {
      copyoption := s.copy;
      transformoption := s.xform;
      coeffAdj := s.coeffAdj;
      monochrome := s.monochrome;
      dst := s.dst;
      coeffOffset[0] := s.offsets[0];
      coeffOffset[1] := s.offsets[1];
      coeffOffset[2] := s.offsets[2];
      coeffOffset[3] := s.offsets[3];
      assert coeffOffset[..] == s.offsets;
    }

    /**
     * parse_switches: the defaults, then the strtok loop, one switch and its
     * arguments per pass, stopping at the first error with its message in
     * errmsgbuffer.  Whatever the passes before the error stored stays.
     */
    method ParseSwitches(argstr: string) returns (ok: bool)
      requires Valid()
      modifies this`copyoption, this`transformoption, this`coeffAdj, this`monochrome, this`dst, this`errmsg, coeffOffset
      ensures Valid()
      ensures var p := ParseOptions(env, old(Globals()), argstr);
              Globals() == p.st && (ok <==> p.err == None) &&
              errmsg == if ok then old(errmsg) else p.err.value
    {
      copyoption := CopyDefault;
      transformoption := TransformInfo(XformNone, false, false, false, None);
      dst := dst.(traceLevel := 0);
      assert Globals() == Defaults(old(Globals()));
      var toks := Tokens(argstr);
      var i := 0;
      while i < |toks|
        invariant Valid() && i <= |toks|
        invariant Parse(env, Globals(), toks[i..]) == ParseOptions(env, old(Globals()), argstr)
        invariant errmsg == old(errmsg)
        decreases |toks| - i
      {
        ghost var st';
        var next, failed;
        next, failed, st' := Pass(toks, i, Globals());
        if failed {
          return false;
        }
        i := next;
      }
      return true;
    }

    /**
     * One pass of the strtok loop on the switch at `toks[i]`: its settings
     * stored, and either the index of the next switch or, when it failed,
     * the message in errmsgbuffer.
     */
    method Pass(toks: seq<string>, i: nat, ghost st: Settings) returns (next: nat, failed: bool, ghost st': Settings)
      requires Valid() && i < |toks| && Globals() == st
      modifies this`copyoption, this`transformoption, this`coeffAdj, this`monochrome, this`dst, this`errmsg, coeffOffset
      ensures Valid() && Globals() == st'
      ensures failed ==> Parse(env, st, toks[i..]) == Parsed(st', Some(errmsg))
      ensures !failed ==> i < next <= |toks| && errmsg == old(errmsg) &&
                          Parse(env, st, toks[i..]) == Parse(env, st', toks[next..])
    {
      var r;
      r, next := NextSwitch(Globals(), toks, i);
      st' := r.st;
      Store(r.st);
      failed := r.Fail?;
      if failed {
        errmsg := Err(r.detail);
      }
    }

    /** The switch at `toks[i]`, with its arguments: where the parse goes from there. */
    method NextSwitch(st: Settings, toks: seq<string>, i: nat) returns (r: StepResult, next: nat)
      requires i < |toks| && |st.offsets| == OffsetSlots
      ensures |r.st.offsets| == OffsetSlots
      ensures r.Fail? ==> Parse(env, st, toks[i..]) == Parsed(r.st, Some(Err(r.detail)))
      ensures r.Next? ==> i < next <= |toks| && Parse(env, st, toks[i..]) == Parse(env, r.st, toks[next..])
    {
      r := Step(env, st, toks[i..]);
      ParseOnePass(env, st, toks[i..]);
      next := i;
      if r.Next? {
        next := i + r.used;
        assert toks[i..][r.used..] == toks[next..];
      }
    }

    /**
     * One step of a straight run of `whole`, the `k`-th, all before it having
     * completed: the call is made, and when it fails its message is stored
     * in errmsgbuffer (the longjmp).
     */
    method Exec(c: Call, codec: Codec, ghost whole: seq<Call>, ghost base: seq<Call>, ghost k: nat) returns (ok: bool)
      requires k < |whole| && whole[k] == c && calls == base + whole[..k] && Going(whole, k, codec)
      modifies this`calls, this`errmsg
      ensures calls == base + whole[..k + 1]
      ensures ok <==> Failure(c, codec) == None
      ensures ok ==> Going(whole, k + 1, codec)
      ensures (!ok || k + 1 == |whole|) ==> Made(whole, k + 1, ok, codec)
      ensures errmsg == if ok then old(errmsg) else Failure(whole[k], codec).value
    {
      calls := calls + [c];
      assert whole[..k + 1] == whole[..k] + [c];
      var f := Failure(c, codec);
      if f.Some? {
        errmsg := f.value;
        ok := false;
      } else {
        ok := true;
      }
    }

    /**
     * The transcode entry point: the globals of the extension switches and
     * errmsgbuffer are cleared, both objects are created (`dst0` is what
     * jpeg_create_compress leaves in the fields the parser writes), the option
     * string is checked and parsed, the body runs, and the cleanup destroys
     * both objects and closes each descriptor still open.  `coefs` stands for
     * the arrays jpeg_read_coefficients returns; they are edited exactly when
     * that call was made and returned.
     */
    method Transcode(rfd: int, wfd: int, options: Option<string>, codec: Codec, dst0: CompressParams,
                     comps: seq<ComponentInfo>, coefs: seq<array3<Coef>>)
      returns (result: string)
      requires Valid() && Layout(comps, coefs)
      modifies this`copyoption, this`transformoption, this`coeffAdj, this`monochrome, this`dst, this`errmsg, this`calls,
               coeffOffset, set ci | 0 <= ci < |coefs| :: coefs[ci]
      ensures var t := Pipeline.Transcode(env, old(Globals()).(dst := dst0), rfd, wfd, options, codec);
              calls == t.calls && result == t.result
      ensures var read := ReadCoefficients in calls && Failure(ReadCoefficients, codec) == None;
              forall ci, y, b, k ::
                0 <= ci < |coefs| && 0 <= y < coefs[ci].Length0 && 0 <= b < coefs[ci].Length1 && 0 <= k < coefs[ci].Length2 ==>
                coefs[ci][y, b, k] ==
                  if read then Edited(old(coefs[ci][y, b, k]), comps, ci, y, b, k, monochrome, coeffAdj, coeffOffset[..])
                  else old(coefs[ci][y, b, k])
    {
      ghost var st := Globals().(dst := dst0);
      Clear(dst0);
      assert Entry(Globals()) == Globals();
      result := Session(rfd, wfd, options, codec, comps, coefs);
    }

    /** The setjmp block and the cleanup, once the globals are cleared. */
    method Session(rfd: int, wfd: int, options: Option<string>, codec: Codec,
                   comps: seq<ComponentInfo>, coefs: seq<array3<Coef>>)
      returns (result: string)
      requires Valid() && Layout(comps, coefs)
      requires !monochrome && !coeffAdj && coeffOffset[..] == [0, 0, 0, 0] && calls == []
      modifies this`copyoption, this`transformoption, this`coeffAdj, this`monochrome, this`dst, this`errmsg, this`calls,
               coeffOffset, set ci | 0 <= ci < |coefs| :: coefs[ci]
      ensures var t := Pipeline.Session(codec, rfd, wfd, CheckedParse(env, old(Globals()), options));
              calls == t.calls && result == t.result
      ensures var read := ReadCoefficients in calls && Failure(ReadCoefficients, codec) == None;
              forall ci, y, b, k ::
                0 <= ci < |coefs| && 0 <= y < coefs[ci].Length0 && 0 <= b < coefs[ci].Length1 && 0 <= k < coefs[ci].Length2 ==>
                coefs[ci][y, b, k] ==
                  if read then Edited(old(coefs[ci][y, b, k]), comps, ci, y, b, k, monochrome, coeffAdj, coeffOffset[..])
                  else old(coefs[ci][y, b, k])
    {
      ghost var parsed := CheckedParse(env, Globals(), options);
      var created, rfdLeft, mid := SetjmpBlock(rfd, wfd, options, codec, comps, coefs);
      SessionSteps(codec, rfd, wfd, parsed, created, mid, errmsg, rfdLeft);
      CloseAll(rfdLeft, wfd);
      result := Reply(errmsg);
      ReadExactlyWhenMade(codec, rfd, wfd, parsed);
    }

    /** The setjmp block: the create calls, then the option check, the parse and the body. */
    method SetjmpBlock(rfd: int, wfd: int, options: Option<string>, codec: Codec,
                       comps: seq<ComponentInfo>, coefs: seq<array3<Coef>>)
      returns (created: bool, rfdLeft: int, ghost mid: seq<Call>)
      requires Valid() && Layout(comps, coefs)
      requires !monochrome && !coeffAdj && coeffOffset[..] == [0, 0, 0, 0] && calls == []
      modifies this`copyoption, this`transformoption, this`coeffAdj, this`monochrome, this`dst, this`errmsg, this`calls,
               coeffOffset, set ci | 0 <= ci < |coefs| :: coefs[ci]
      ensures Progress(codec, rfd, wfd, CheckedParse(env, old(Globals()), options), created, mid, errmsg, rfdLeft)
      ensures calls == Run([CreateDecompress, CreateCompress], codec).done + mid
      ensures var read := ReadCompleted(codec, rfd, CheckedParse(env, old(Globals()), options));
              forall ci, y, b, k ::
                0 <= ci < |coefs| && 0 <= y < coefs[ci].Length0 && 0 <= b < coefs[ci].Length1 && 0 <= k < coefs[ci].Length2 ==>
                coefs[ci][y, b, k] ==
                  if read then Edited(old(coefs[ci][y, b, k]), comps, ci, y, b, k, monochrome, coeffAdj, coeffOffset[..])
                  else old(coefs[ci][y, b, k])
    {
      ghost var parsed := CheckedParse(env, Globals(), options);
      created := Create(codec);
      ghost var c1 := calls;
      assert c1 == Run([CreateDecompress, CreateCompress], codec).done;
      mid := [];
      rfdLeft := rfd;
      if created {
        rfdLeft := Attempt(rfd, wfd, options, codec, comps, coefs);
        if parsed.Some? && parsed.value.err.None? {
          mid := Run(Body(parsed.value.st, rfd, wfd), codec).done;
        }
      }
    }

    /**
     * The start of the entry point: the globals of the extension switches and
     * errmsgbuffer are cleared; the compression object is new.
     */
    method Clear(dst0: CompressParams)
      requires Valid()
      modifies this`coeffAdj, this`monochrome, this`dst, this`errmsg, this`calls, coeffOffset
      ensures Globals() == Entry(old(Globals()).(dst := dst0))
      ensures calls == [] && errmsg == ""
    {
      monochrome := false;
      coeffAdj := false;
      coeffOffset[0] := 0;
      coeffOffset[1] := 0;
      coeffOffset[2] := 0;
      coeffOffset[3] := 0;
      errmsg := "";
      dst := dst0;
      calls := [];
      assert coeffOffset[..] == [0, 0, 0, 0];
    }

    /** jpeg_create_decompress, then jpeg_create_compress. */
    method Create(codec: Codec) returns (ok: bool)
      modifies this`calls, this`errmsg
      ensures var r := Run([CreateDecompress, CreateCompress], codec);
              calls == old(calls) + r.done && (ok <==> r.failure == None) &&
              errmsg == if ok then old(errmsg) else r.failure.value
    {
      ghost var base := calls;
      ghost var cs := [CreateDecompress, CreateCompress];
      assert calls == base + cs[..0];
      ghost var n := 1;
      ok := Exec(CreateDecompress, codec, cs, base, 0);
      if ok {
        n := 2;
        ok := Exec(CreateCompress, codec, cs, base, 1);
      }
      MadeRun(cs, n, ok, codec);
    }

    /**
     * Once both objects exist: the option string is refused when it is NULL
     * or does not fit the 256-byte buffer, otherwise parsed; after a clean
     * parse the body runs and errmsgbuffer becomes "OK" when it completes.
     * Returns rfd as the cleanup finds it.
     */
    method Attempt(rfd: int, wfd: int, options: Option<string>, codec: Codec,
                   comps: seq<ComponentInfo>, coefs: seq<array3<Coef>>)
      returns (rfdLeft: int)
      requires Valid() && Layout(comps, coefs)
      requires !monochrome && !coeffAdj && coeffOffset[..] == [0, 0, 0, 0]
      modifies this`copyoption, this`transformoption, this`coeffAdj, this`monochrome, this`dst, this`errmsg, this`calls,
               coeffOffset, set ci | 0 <= ci < |coefs| :: coefs[ci]
      ensures var parsed := CheckedParse(env, old(Globals()), options);
              parsed.None? ==> calls == old(calls) && errmsg == ArgumentError && rfdLeft == rfd
      ensures var parsed := CheckedParse(env, old(Globals()), options);
              parsed.Some? && parsed.value.err.Some? ==>
                calls == old(calls) && errmsg == parsed.value.err.value && rfdLeft == rfd
      ensures var parsed := CheckedParse(env, old(Globals()), options);
              parsed.Some? && parsed.value.err.None? ==>
                var r := Run(Body(parsed.value.st, rfd, wfd), codec);
                calls == old(calls) + r.done &&
                errmsg == (if r.failure.Some? then r.failure.value else Success) &&
                rfdLeft == if Close(rfd) in r.done then -1 else rfd
      ensures var parsed := CheckedParse(env, old(Globals()), options);
              var read := parsed.Some? && parsed.value.err.None? && Run(Prepare(parsed.value.st, rfd), codec).failure.None?;
              forall ci, y, b, k ::
                0 <= ci < |coefs| && 0 <= y < coefs[ci].Length0 && 0 <= b < coefs[ci].Length1 && 0 <= k < coefs[ci].Length2 ==>
                coefs[ci][y, b, k] ==
                  if read then Edited(old(coefs[ci][y, b, k]), comps, ci, y, b, k, monochrome, coeffAdj, coeffOffset[..])
                  else old(coefs[ci][y, b, k])
    {
      assert Entry(Globals()) == Globals();
      rfdLeft := rfd;
      if options.None? || |options.value| >= 256 {
        errmsg := ArgumentError;
      } else {
        var parsedOk := ParseSwitches(options.value);
        if parsedOk {
          var ok;
          ok, rfdLeft := TranscodeBody(rfd, wfd, codec, comps, coefs);
          if ok {
            errmsg := Success;
          }
        }
      }
    }

    /** The cleanup after the setjmp block. */
    method CloseAll(rfdLeft: int, wfd: int)
      modifies this`calls
      ensures calls == old(calls) + Cleanup(rfdLeft, wfd)
    {
      calls := calls + [DestroyCompress, DestroyDecompress];
      if rfdLeft != -1 {
        calls := calls + [Close(rfdLeft)];
      }
      if wfd != -1 {
        calls := calls + [Close(wfd)];
      }
    }

    /**
     * The body of the transcode entry point after a successful parse: from
     * copying the limits to jpeg_finish_decompress.  The input is closed, and
     * forgotten, once it has been handed over; the coefficient arrays
     * jpeg_read_coefficients produced are edited when reading completed.
     */
    method TranscodeBody(rfd: int, wfd: int, codec: Codec, comps: seq<ComponentInfo>, coefs: seq<array3<Coef>>)
      returns (ok: bool, rfdLeft: int)
      requires Valid() && Layout(comps, coefs)
      modifies this`calls, this`errmsg, set ci | 0 <= ci < |coefs| :: coefs[ci]
      ensures var r := Run(Body(old(Globals()), rfd, wfd), codec);
              calls == old(calls) + r.done && (ok <==> r.failure == None) &&
              errmsg == (if ok then old(errmsg) else r.failure.value) &&
              rfdLeft == if Close(rfd) in r.done then -1 else rfd
      ensures var read := Run(Prepare(old(Globals()), rfd), codec).failure == None;
              forall ci, y, b, k ::
                0 <= ci < |coefs| && 0 <= y < coefs[ci].Length0 && 0 <= b < coefs[ci].Length1 && 0 <= k < coefs[ci].Length2 ==>
                coefs[ci][y, b, k] ==
                  if read then Edited(old(coefs[ci][y, b, k]), comps, ci, y, b, k, monochrome, coeffAdj, old(coeffOffset[..]))
                  else old(coefs[ci][y, b, k])
    {
      ghost var s := Globals();
      ghost var c0 := calls;
      BodyHalves(s, rfd, wfd, codec);
      ok, rfdLeft := DecodeHalf(rfd, codec, comps, coefs);
      if ok {
        ok := WriteOutput(wfd, codec);
        Regroup(c0, Decode(s, rfd), Run(Encode(s, wfd), codec).done, [], []);
      }
    }

    /** The decompression half: reading the input, the edits, and the hand-over ending with the close of the input. */
    method DecodeHalf(rfd: int, codec: Codec, comps: seq<ComponentInfo>, coefs: seq<array3<Coef>>)
      returns (ok: bool, rfdLeft: int)
      requires Valid() && Layout(comps, coefs)
      modifies this`calls, this`errmsg, set ci | 0 <= ci < |coefs| :: coefs[ci]
      ensures Globals() == old(Globals())
      ensures var r := Run(Decode(old(Globals()), rfd), codec);
              calls == old(calls) + r.done && (ok <==> r.failure == None) &&
              errmsg == (if ok then old(errmsg) else r.failure.value) &&
              rfdLeft == if ok then -1 else rfd
      ensures var read := Run(Prepare(old(Globals()), rfd), codec).failure == None;
              forall ci, y, b, k ::
                0 <= ci < |coefs| && 0 <= y < coefs[ci].Length0 && 0 <= b < coefs[ci].Length1 && 0 <= k < coefs[ci].Length2 ==>
                coefs[ci][y, b, k] ==
                  if read then Edited(old(coefs[ci][y, b, k]), comps, ci, y, b, k, monochrome, coeffAdj, old(coeffOffset[..]))
                  else old(coefs[ci][y, b, k])
    {
      ghost var s := Globals();
      ghost var c0 := calls;
      DecodePhases(s, rfd, codec);
      ok := ReadInput(rfd, codec);
      rfdLeft := rfd;
      if ok {
        ApplyEdits(comps, coefs);
        ok, rfdLeft := HandOver(rfd, codec);
        Regroup(c0, Prepare(s, rfd), Edits(s), Run(Handover(s, rfd), codec).done, []);
      }
    }

    /** Reading the input, up to jpeg_read_coefficients. */
    method ReadInput(rfd: int, codec: Codec) returns (ok: bool)
      requires Valid()
      modifies this`calls, this`errmsg
      ensures var r := Run(Prepare(old(Globals()), rfd), codec);
              calls == old(calls) + r.done && (ok <==> r.failure == None) &&
              errmsg == if ok then old(errmsg) else r.failure.value
    {
      ghost var s := Globals();
      ghost var c0 := calls;
      RunConcat(SourceSetup(s, rfd), ImageRead(s), codec);
      ok := SetUpSource(rfd, codec);
      if ok {
        ok := ReadImage(codec);
        Regroup(c0, SourceSetup(s, rfd), Run(ImageRead(s), codec).done, [], []);
      }
    }

    /** The limits copied, jpeg_stdio_src, jcopy_markers_setup. */
    method SetUpSource(rfd: int, codec: Codec) returns (ok: bool)
      requires Valid()
      modifies this`calls, this`errmsg
      ensures var r := Run(SourceSetup(old(Globals()), rfd), codec);
              calls == old(calls) + r.done && (ok <==> r.failure == None) &&
              errmsg == if ok then old(errmsg) else r.failure.value
    {
      ghost var base := calls;
      ghost var cs := SourceSetup(Globals(), rfd);
      assert calls == base + cs[..0];
      ghost var n := 1;
      ok := Exec(SetLimits(dst.traceLevel, dst.maxMemoryToUse), codec, cs, base, 0);
      if ok {
        n := 2;
        ok := Exec(StdioSrc(rfd), codec, cs, base, 1);
        if ok {
          n := 3;
          ok := Exec(MarkersSetup(copyoption), codec, cs, base, 2);
        }
      }
      MadeRun(cs, n, ok, codec);
    }

    /** jpeg_read_header, jtransform_request_workspace, jpeg_read_coefficients. */
    method ReadImage(codec: Codec) returns (ok: bool)
      requires Valid()
      modifies this`calls, this`errmsg
      ensures var r := Run(ImageRead(old(Globals())), codec);
              calls == old(calls) + r.done && (ok <==> r.failure == None) &&
              errmsg == if ok then old(errmsg) else r.failure.value
    {
      ghost var base := calls;
      ghost var cs := ImageRead(Globals());
      assert calls == base + cs[..0];
      ghost var n := 1;
      ok := Exec(ReadHeader, codec, cs, base, 0);
      if ok {
        n := 2;
        ok := Exec(RequestWorkspace(transformoption), codec, cs, base, 1);
        if ok {
          n := 3;
          ok := Exec(ReadCoefficients, codec, cs, base, 2);
        }
      }
      MadeRun(cs, n, ok, codec);
    }

    /**
     * The two edits on the coefficient arrays jpeg_read_coefficients produced:
     * toMonochrome when monochrome is set, then brightnessControl when
     * coeff_adj is; neither can fail.
     */
    method ApplyEdits(comps: seq<ComponentInfo>, coefs: seq<array3<Coef>>)
      requires Valid() && Layout(comps, coefs)
      modifies this`calls, set ci | 0 <= ci < |coefs| :: coefs[ci]
      ensures calls == old(calls) + Edits(old(Globals()))
      ensures Globals() == old(Globals())
      ensures forall ci, y, b, k ::
                0 <= ci < |coefs| && 0 <= y < coefs[ci].Length0 && 0 <= b < coefs[ci].Length1 && 0 <= k < coefs[ci].Length2 ==>
                coefs[ci][y, b, k] == Edited(old(coefs[ci][y, b, k]), comps, ci, y, b, k, monochrome, coeffAdj, old(coeffOffset[..]))
    {
      if monochrome {
        calls := calls + [Monochrome];
        ToMonochrome(comps, coefs);
      }
      if coeffAdj {
        calls := calls + [Offset(coeffOffset[..])];
        ghost var visited := BrightnessControl(comps, coefs, coeffOffset[..]);
      }
    }

    /** Handing over to the compressor, then closing the input, after which rfd is -1. */
    method HandOver(rfd: int, codec: Codec) returns (ok: bool, rfdLeft: int)
      requires Valid()
      modifies this`calls, this`errmsg
      ensures var r := Run(Handover(old(Globals()), rfd), codec);
              calls == old(calls) + r.done && (ok <==> r.failure == None) &&
              errmsg == (if ok then old(errmsg) else r.failure.value) &&
              rfdLeft == if ok then -1 else rfd
    {
      ghost var base := calls;
      ghost var cs := Handover(Globals(), rfd);
      assert calls == base + cs[..0];
      rfdLeft := rfd;
      ghost var n := 1;
      ok := Exec(CopyCritical, codec, cs, base, 0);
      if ok {
        n := 2;
        ok := Exec(AdjustParameters(transformoption), codec, cs, base, 1);
        if ok {
          n := 3;
          ok := Exec(Close(rfd), codec, cs, base, 2);
          rfdLeft := -1;
        }
      }
      MadeRun(cs, n, ok, codec);
    }

    /** The compression half: writing the transformed coefficients to wfd and finishing both objects. */
    method WriteOutput(wfd: int, codec: Codec) returns (ok: bool)
      requires Valid()
      modifies this`calls, this`errmsg
      ensures var r := Run(Encode(old(Globals()), wfd), codec);
              calls == old(calls) + r.done && (ok <==> r.failure == None) &&
              errmsg == if ok then old(errmsg) else r.failure.value
    {
      ghost var s := Globals();
      ghost var c0 := calls;
      RunConcat(DestSetup(s, wfd), Finishing(s), codec);
      ok := SetUpDest(wfd, codec);
      if ok {
        ok := FinishWork(codec);
        Regroup(c0, DestSetup(s, wfd), Run(Finishing(s), codec).done, [], []);
      }
    }

    /** jpeg_stdio_dest, jpeg_write_coefficients, jcopy_markers_execute. */
    method SetUpDest(wfd: int, codec: Codec) returns (ok: bool)
      requires Valid()
      modifies this`calls, this`errmsg
      ensures var r := Run(DestSetup(old(Globals()), wfd), codec);
              calls == old(calls) + r.done && (ok <==> r.failure == None) &&
              errmsg == if ok then old(errmsg) else r.failure.value
    {
      ghost var base := calls;
      ghost var cs := DestSetup(Globals(), wfd);
      assert calls == base + cs[..0];
      ghost var n := 1;
      ok := Exec(StdioDest(wfd), codec, cs, base, 0);
      if ok {
        n := 2;
        ok := Exec(WriteCoefficients, codec, cs, base, 1);
        if ok {
          n := 3;
          ok := Exec(MarkersExecute(copyoption), codec, cs, base, 2);
        }
      }
      MadeRun(cs, n, ok, codec);
    }

    /** jtransform_execute_transformation, jpeg_finish_compress, jpeg_finish_decompress. */
    method FinishWork(codec: Codec) returns (ok: bool)
      requires Valid()
      modifies this`calls, this`errmsg
      ensures var r := Run(Finishing(old(Globals())), codec);
              calls == old(calls) + r.done && (ok <==> r.failure == None) &&
              errmsg == if ok then old(errmsg) else r.failure.value
    {
      ghost var base := calls;
      ghost var cs := Finishing(Globals());
      assert calls == base + cs[..0];
      ghost var n := 1;
      ok := Exec(ExecuteTransformation(transformoption), codec, cs, base, 0);
      if ok {
        n := 2;
        ok := Exec(FinishCompress, codec, cs, base, 1);
        if ok {
          n := 3;
          ok := Exec(FinishDecompress, codec, cs, base, 2);
        }
      }
      MadeRun(cs, n, ok, codec);
    }

    /**
     * The header probe entry point: errmsgbuffer is cleared, the header is
     * read with no memory limit and default marker copying, the metadata
     * block fills the caller's array, and the cleanup closes the descriptor
     * unless it is -1 and destroys the object.  `h` is what jpeg_read_header
     * leaves in the decompression object; the marker copying option stays the
     * default in copyoption once it has been set.
     */
    method ProbeHead(fd: int, codec: Codec, h: Header, param: array<int>) returns (result: string)
      requires TablesPresent(h)
      modifies this`calls, this`errmsg, this`copyoption, param
      ensures var p := Probe.ProbeHead(codec, fd, h, param.Length);
              calls == p.calls && result == p.result &&
              (p.slots.Some? ==> param[..Slots] == p.slots.value && param[Slots..] == old(param[Slots..])) &&
              (p.slots.None? ==> param[..] == old(param[..]))
      ensures copyoption == if MarkersSetup(CopyDefault) in calls then CopyDefault else old(copyoption)
    {
      errmsg := "";
      calls := [];
      ProbeBlock(fd, codec, h, param);
      ghost var before := calls;
      if fd != -1 {
        calls := calls + [Close(fd)];
      }
      calls := calls + [DestroyDecompress];
      assert calls == before + HeadCleanup(fd);
      result := Reply(errmsg);
    }

    /** The probe's setjmp block: the header is read, then the metadata block runs; errmsgbuffer becomes "OK" when both complete. */
    method ProbeBlock(fd: int, codec: Codec, h: Header, param: array<int>)
      requires TablesPresent(h) && calls == [] && errmsg == ""
      modifies this`calls, this`errmsg, this`copyoption, param
      ensures var b := HeadBlock(codec, fd, h, param.Length);
              calls == b.done && errmsg == b.message &&
              (b.slots.Some? ==> param[..Slots] == b.slots.value && param[Slots..] == old(param[Slots..])) &&
              (b.slots.None? ==> param[..] == old(param[..]))
      ensures copyoption == if MarkersSetup(CopyDefault) in calls then CopyDefault else old(copyoption)
    {
      var ok := ReadHead(fd, codec);
      assert calls == Run(HeadSetup(fd), codec).done;
      ghost var b := HeadBlock(codec, fd, h, param.Length);
      if ok {
        ghost var m := Metadata(h, param.Length);
        assert b == if m.Rejected? then Block(calls, m.message, None) else Block(calls, Success, Some(m.slots));
        Report(h, param);
      }
    }

    /** The metadata block, with "OK" in errmsgbuffer when it completes. */
    method Report(h: Header, param: array<int>)
      requires TablesPresent(h)
      modifies this`errmsg, param
      ensures var m := Metadata(h, param.Length);
              errmsg == (if m.Rejected? then m.message else Success) &&
              (m.Filled? ==> param[..Slots] == m.slots && param[Slots..] == old(param[Slots..])) &&
              (m.Rejected? ==> param[..] == old(param[..]))
    {
      var err := FillMetadata(h, param);
      if err.Some? {
        errmsg := err.value;
      } else {
        errmsg := Success;
      }
    }

    /** The probe's calls up to jpeg_read_header; copyoption becomes the default just before the markers are set up. */
    method ReadHead(fd: int, codec: Codec) returns (ok: bool)
      modifies this`calls, this`errmsg, this`copyoption
      ensures var r := Run(HeadSetup(fd), codec);
              calls == old(calls) + r.done && (ok <==> r.failure == None) &&
              errmsg == (if ok then old(errmsg) else r.failure.value) &&
              copyoption == if MarkersSetup(CopyDefault) in r.done then CopyDefault else old(copyoption)
    {
      ghost var c0 := calls;
      RunConcat(HeadOpen(fd), HeadRead, codec);
      assert MarkersSetup(CopyDefault) !in HeadOpen(fd);
      ok := OpenHead(fd, codec);
      if ok {
        copyoption := CopyDefault;
        ok := ReadMarkersAndHeader(codec);
        Regroup(c0, HeadOpen(fd), Run(HeadRead, codec).done, [], []);
        assert Run(HeadSetup(fd), codec).done[|HeadOpen(fd)|] == MarkersSetup(CopyDefault);
      }
    }

    /** jpeg_create_decompress, the limits cleared, jpeg_stdio_src. */
    method OpenHead(fd: int, codec: Codec) returns (ok: bool)
      modifies this`calls, this`errmsg
      ensures var r := Run(HeadOpen(fd), codec);
              calls == old(calls) + r.done && (ok <==> r.failure == None) &&
              errmsg == if ok then old(errmsg) else r.failure.value
    {
      ghost var base := calls;
      ghost var cs := HeadOpen(fd);
      assert calls == base + cs[..0];
      ghost var n := 1;
      ok := Exec(CreateDecompress, codec, cs, base, 0);
      if ok {
        n := 2;
        ok := Exec(SetLimits(0, 0), codec, cs, base, 1);
        if ok {
          n := 3;
          ok := Exec(StdioSrc(fd), codec, cs, base, 2);
        }
      }
      MadeRun(cs, n, ok, codec);
    }

    /** jcopy_markers_setup with the default option, then jpeg_read_header. */
    method ReadMarkersAndHeader(codec: Codec) returns (ok: bool)
      requires copyoption == CopyDefault
      modifies this`calls, this`errmsg
      ensures var r := Run(HeadRead, codec);
              calls == old(calls) + r.done && (ok <==> r.failure == None) &&
              errmsg == if ok then old(errmsg) else r.failure.value
    {
      ghost var base := calls;
      ghost var cs := HeadRead;
      assert calls == base + cs[..0];
      ghost var n := 1;
      ok := Exec(MarkersSetup(copyoption), codec, cs, base, 0);
      if ok {
        n := 2;
        ok := Exec(ReadHeader, codec, cs, base, 1);
      }
      MadeRun(cs, n, ok, codec);
    }
  }
}
