/** What the transcode entry point guarantees on every path, whatever the codec library does. */
module PipelineFacts {
  import opened Wrappers
  import opened Switches
  import opened Pipeline

  // ---- early exits ----

  /**
   * A failing create call ends the run at once; the cleanup still destroys
   * both objects and closes both descriptors.  jpeg_destroy_compress is then
   * called on a compression object that jpeg_create_compress never set up.
   */
  lemma CreateFailure(env: Env, st: Settings, rfd: int, wfd: int, options: Option<string>, codec: Codec)
    requires Failure(CreateDecompress, codec).Some?
    ensures Transcode(env, st, rfd, wfd, options, codec) ==
            Transcoded([CreateDecompress] + Cleanup(rfd, wfd), Reply(Failure(CreateDecompress, codec).value))
    ensures var t := Transcode(env, st, rfd, wfd, options, codec).calls;
            DestroyCompress in t && CreateCompress !in t
  {
    UncreatedDestroyed(rfd, wfd);
  }

  /** The calls of a run that stopped at jpeg_create_decompress destroy the compression object without creating it. */
  lemma UncreatedDestroyed(rfd: int, wfd: int)
    ensures DestroyCompress in [CreateDecompress] + Cleanup(rfd, wfd)
    ensures CreateCompress !in [CreateDecompress] + Cleanup(rfd, wfd)
  {
    var c := Cleanup(rfd, wfd);
    var t := [CreateDecompress] + c;
    assert t[1] == DestroyCompress;
    assert forall x :: x in t ==> x == CreateDecompress || x in c;
  }

  /**
   * A NULL or too long option string gives "Argument error" before anything is
   * parsed; both codec objects have already been created by then.
   */
  lemma ArgumentErrorBeforeParse(env: Env, st: Settings, rfd: int, wfd: int, options: Option<string>, codec: Codec)
    requires Failure(CreateDecompress, codec) == None && Failure(CreateCompress, codec) == None
    requires options.None? || |options.value| >= 256
    ensures Transcode(env, st, rfd, wfd, options, codec) ==
            Transcoded([CreateDecompress, CreateCompress] + Cleanup(rfd, wfd), ArgumentError)
  {
    assert [CreateDecompress, CreateCompress][1..] == [CreateCompress];
  }

  /** A parse error is returned as it is, and no decoding starts. */
  lemma ParseErrorReturned(env: Env, st: Settings, rfd: int, wfd: int, s: string, codec: Codec)
    requires Failure(CreateDecompress, codec) == None && Failure(CreateCompress, codec) == None
    requires |s| < 256 && ParseOptions(env, Entry(st), s).err.Some?
    ensures var t := Transcode(env, st, rfd, wfd, Some(s), codec);
            t.calls == [CreateDecompress, CreateCompress] + Cleanup(rfd, wfd) &&
            t.result == ParseOptions(env, Entry(st), s).err.value && IsParseError(t.result)
  {
    assert [CreateDecompress, CreateCompress][1..] == [CreateCompress];
  }

  /** A run stops at the first call that fails. */
  lemma {:induction false} RunStopsAt(cs: seq<Call>, codec: Codec, k: nat)
    requires k < |cs| && Failure(cs[k], codec).Some?
    requires forall i :: 0 <= i < k ==> Failure(cs[i], codec) == None
    ensures Run(cs, codec) == Ran(cs[..k + 1], Failure(cs[k], codec))
  {
    if k > 0 {
      RunStopsAt(cs[1..], codec, k - 1);
      assert cs[..k + 1] == [cs[0]] + cs[1..][..k];
    }
  }

  /** A run in which no call fails makes every call. */
  lemma RunClean(cs: seq<Call>, codec: Codec)
    requires forall i :: 0 <= i < |cs| ==> Failure(cs[i], codec) == None
    ensures Run(cs, codec) == Ran(cs, None)
  {
  }

  /** A run of two lists: the second is run only when the first completed. */
  lemma {:induction false} RunConcat(a: seq<Call>, b: seq<Call>, codec: Codec)
    ensures Run(a, codec).failure.Some? ==> Run(a + b, codec) == Run(a, codec)
    ensures Run(a, codec).failure.None? ==> Run(a + b, codec) == Ran(a + Run(b, codec).done, Run(b, codec).failure)
  {
    if a != [] {
      var ab := a + b;
      assert ab[0] == a[0];
      assert ab[1..] == a[1..] + b;
      if Failure(a[0], codec).None? {
        RunConcat(a[1..], b, codec);
        var rb := Run(b, codec);
        assert Run(a, codec) == Ran([a[0]] + Run(a[1..], codec).done, Run(a[1..], codec).failure);
        assert Run(ab, codec) == Ran([a[0]] + Run(a[1..] + b, codec).done, Run(a[1..] + b, codec).failure);
        if Run(a[1..], codec).failure.None? {
          assert [a[0]] + (a[1..] + rb.done) == a + rb.done;
        }
      }
    } else {
      assert a + b == b;
    }
  }

  /** The first `n` calls of `cs` were made, and every one of them completed. */
  predicate Going(cs: seq<Call>, n: nat, codec: Codec)
  {
    n <= |cs| && forall i :: 0 <= i < n ==> Failure(cs[i], codec) == None
  }

  /**
   * The first `n` calls of `cs` were made, one at a time: every one before the
   * last completed, and the last completed too exactly when `ok`, which is
   * only when all of `cs` was made.
   */
  predicate Made(cs: seq<Call>, n: nat, ok: bool, codec: Codec)
  {
    0 < n <= |cs| &&
    (forall i :: 0 <= i < n - 1 ==> Failure(cs[i], codec) == None) &&
    (ok ==> n == |cs| && Failure(cs[n - 1], codec) == None) &&
    (!ok ==> Failure(cs[n - 1], codec).Some?)
  }

  /** Calls made one at a time until one fails are the run of the list. */
  lemma MadeRun(cs: seq<Call>, n: nat, ok: bool, codec: Codec)
    requires Made(cs, n, ok, codec)
    ensures Run(cs, codec) == Ran(cs[..n], if ok then None else Failure(cs[n - 1], codec))
  {
    if ok {
      assert cs[..n] == cs;
      RunClean(cs, codec);
    } else {
      RunStopsAt(cs, codec, n - 1);
    }
  }

  /** Four lists run one after the other, the second of which cannot fail. */
  lemma RunFour(a: seq<Call>, b: seq<Call>, c: seq<Call>, d: seq<Call>, codec: Codec)
    requires forall i :: 0 <= i < |b| ==> Failure(b[i], codec) == None
    ensures var p, h, e := Run(a, codec), Run(c, codec), Run(d, codec);
            Run(a + b + c + d, codec) ==
              if p.failure.Some? then p
              else if h.failure.Some? then Ran(a + b + h.done, h.failure)
              else Ran(a + b + c + e.done, e.failure)
  {
    RunConcat(a + b + c, d, codec);
    RunConcat(a + b, c, codec);
    RunConcat(a, b, codec);
    RunClean(b, codec);
  }

  /**
   * When only the third list holds `x`, as its last call, and `x` cannot fail,
   * the run of all four makes `x` exactly when the first and the third list
   * complete.
   */
  lemma MakesLastOfThird(a: seq<Call>, b: seq<Call>, c: seq<Call>, d: seq<Call>, x: Call, codec: Codec)
    requires forall i :: 0 <= i < |b| ==> Failure(b[i], codec) == None
    requires x !in a && x !in b && x !in d && c != [] && c[|c| - 1] == x && x !in c[..|c| - 1]
    requires Failure(x, codec) == None
    ensures x in Run(a + b + c + d, codec).done <==> Run(a, codec).failure.None? && Run(c, codec).failure.None?
  {
    RunFour(a, b, c, d, codec);
    var p, h, e := Run(a, codec), Run(c, codec), Run(d, codec);
    if p.failure.Some? {
      assert x !in p.done by {
        assert forall i :: 0 <= i < |p.done| ==> p.done[i] == a[i];
      }
    } else if h.failure.Some? {
      assert |h.done| < |c|;
      assert h.done == c[..|c| - 1][..|h.done|];
      assert x !in h.done;
      assert x !in e.done by {
        assert forall i :: 0 <= i < |e.done| ==> e.done[i] == d[i];
      }
      assert x !in a + b + h.done;
    } else {
      assert (a + b + c + e.done)[|a| + |b| + |c| - 1] == x;
    }
  }

  /** The body is its four phases one after the other; the edits cannot fail. */
  lemma BodyPhases(s: Settings, rfd: int, wfd: int)
    ensures Body(s, rfd, wfd) == Prepare(s, rfd) + Edits(s) + Handover(s, rfd) + Encode(s, wfd)
    ensures forall i :: 0 <= i < |Edits(s)| ==> Infallible(Edits(s)[i])
    ensures Handover(s, rfd)[..|Handover(s, rfd)| - 1] == [CopyCritical, AdjustParameters(s.xform)]
    ensures Close(rfd) !in Prepare(s, rfd) && Close(rfd) !in Edits(s) && Close(rfd) !in Encode(s, wfd)
  {
  }

  /**
   * The body run phase by phase: reading the input, the edits (which cannot
   * fail), the hand-over ending with the close of the input, and the
   * compression half; each phase runs only when the one before completed.
   * The input is closed exactly when reading and the hand-over both completed.
   */
  lemma RunPhases(s: Settings, rfd: int, wfd: int, codec: Codec)
    ensures Run(Prepare(s, rfd), codec).failure.Some? ==>
              Run(Body(s, rfd, wfd), codec) == Run(Prepare(s, rfd), codec)
    ensures Run(Prepare(s, rfd), codec).failure.None? && Run(Handover(s, rfd), codec).failure.Some? ==>
              Run(Body(s, rfd, wfd), codec) ==
              Ran(Prepare(s, rfd) + Edits(s) + Run(Handover(s, rfd), codec).done, Run(Handover(s, rfd), codec).failure)
    ensures Run(Prepare(s, rfd), codec).failure.None? && Run(Handover(s, rfd), codec).failure.None? ==>
              Run(Body(s, rfd, wfd), codec) ==
              Ran(Prepare(s, rfd) + Edits(s) + Handover(s, rfd) + Run(Encode(s, wfd), codec).done, Run(Encode(s, wfd), codec).failure)
    ensures Close(rfd) in Run(Body(s, rfd, wfd), codec).done <==>
              Run(Prepare(s, rfd), codec).failure.None? && Run(Handover(s, rfd), codec).failure.None?
  {
    BodyPhases(s, rfd, wfd);
    RunFour(Prepare(s, rfd), Edits(s), Handover(s, rfd), Encode(s, wfd), codec);
    MakesLastOfThird(Prepare(s, rfd), Edits(s), Handover(s, rfd), Encode(s, wfd), Close(rfd), codec);
  }

  /**
   * The decompression half phase by phase: reading the input, the edits and
   * the hand-over, each phase running only when reading completed; it
   * completes exactly when reading and the hand-over both complete.
   */
  lemma DecodePhases(s: Settings, rfd: int, codec: Codec)
    ensures Run(Prepare(s, rfd), codec).failure.Some? ==> Run(Decode(s, rfd), codec) == Run(Prepare(s, rfd), codec)
    ensures Run(Prepare(s, rfd), codec).failure.None? ==>
              Run(Decode(s, rfd), codec) ==
              Ran(Prepare(s, rfd) + Edits(s) + Run(Handover(s, rfd), codec).done, Run(Handover(s, rfd), codec).failure)
    ensures Run(Decode(s, rfd), codec).failure.None? <==>
              Run(Prepare(s, rfd), codec).failure.None? && Run(Handover(s, rfd), codec).failure.None?
  {
    BodyPhases(s, rfd, 0);
    assert Decode(s, rfd) == Prepare(s, rfd) + Edits(s) + Handover(s, rfd) + [];
    RunFour(Prepare(s, rfd), Edits(s), Handover(s, rfd), [], codec);
  }

  /**
   * The body is the decompression half, then the compression half when the
   * first completed; the input is closed exactly when the first half completed.
   */
  lemma BodyHalves(s: Settings, rfd: int, wfd: int, codec: Codec)
    ensures Run(Decode(s, rfd), codec).failure.Some? ==> Run(Body(s, rfd, wfd), codec) == Run(Decode(s, rfd), codec)
    ensures Run(Decode(s, rfd), codec).failure.None? ==>
              Run(Body(s, rfd, wfd), codec) ==
              Ran(Decode(s, rfd) + Run(Encode(s, wfd), codec).done, Run(Encode(s, wfd), codec).failure)
    ensures Close(rfd) in Run(Body(s, rfd, wfd), codec).done <==> Run(Decode(s, rfd), codec).failure.None?
  {
    RunConcat(Decode(s, rfd), Encode(s, wfd), codec);
    RunPhases(s, rfd, wfd, codec);
    DecodePhases(s, rfd, codec);
  }

  /** Calls appended phase by phase are the calls of the phases appended. */
  lemma Regroup(c0: seq<Call>, a: seq<Call>, b: seq<Call>, c: seq<Call>, d: seq<Call>)
    ensures (c0 + a) + b == c0 + (a + b)
    ensures ((c0 + a) + b) + c == c0 + ((a + b) + c)
    ensures (((c0 + a) + b) + c) + d == c0 + (((a + b) + c) + d)
  {
  }

  /** The first five calls of the body: up to jtransform_request_workspace. */
  function Setup(p: Settings, rfd: int): seq<Call>
  {
    [SetLimits(p.dst.traceLevel, p.dst.maxMemoryToUse), StdioSrc(rfd),
     MarkersSetup(p.copy), ReadHeader, RequestWorkspace(p.xform)]
  }

  /**
   * When -perfect cannot be honoured the body stops at
   * jtransform_request_workspace with the refusal message, before the
   * coefficients are read and before the input is closed.
   */
  lemma PerfectRefusedStops(p: Settings, rfd: int, wfd: int, codec: Codec)
    requires codec(StdioSrc(rfd)) == Completed && codec(MarkersSetup(p.copy)) == Completed &&
             codec(ReadHeader) == Completed && codec(RequestWorkspace(p.xform)) == Refused
    ensures Run(Body(p, rfd, wfd), codec) == Ran(Setup(p, rfd), Some(PerfectRefused))
    ensures ReadCoefficients !in Setup(p, rfd) && Close(rfd) !in Setup(p, rfd)
  {
    var body := Body(p, rfd, wfd);
    assert body[..5] == Setup(p, rfd);
    RunStopsAt(body, codec, 4);
  }

  /** A body that stops early leaves its calls so far, the message of the failing one, and the cleanup. */
  lemma StoppedInBody(p: Settings, rfd: int, wfd: int, codec: Codec, done: seq<Call>, m: string)
    requires Failure(CreateDecompress, codec) == None && Failure(CreateCompress, codec) == None
    requires Run(Body(p, rfd, wfd), codec) == Ran(done, Some(m))
    ensures Session(codec, rfd, wfd, Some(Parsed(p, None))) ==
            Finish([CreateDecompress, CreateCompress] + done, m, if Close(rfd) in done then -1 else rfd, wfd)
  {
    assert [CreateDecompress, CreateCompress][1..] == [CreateCompress];
  }

  // ---- the shape of every run ----

  /**
   * Every run is the create calls made, then a prefix of the body (empty
   * unless creation and parsing succeeded), then the cleanup, which closes the
   * input only when the body has not already done so.
   */
  lemma Shape(codec: Codec, rfd: int, wfd: int, parsed: Option<Parsed>) returns (a: seq<Call>, mid: seq<Call>, r: int)
    ensures Session(codec, rfd, wfd, parsed).calls == a + mid + Cleanup(r, wfd)
    ensures a == [CreateDecompress] || a == [CreateDecompress, CreateCompress]
    ensures r == if Close(rfd) in mid then -1 else rfd
    ensures mid != [] ==> parsed.Some? && parsed.value.err.None? &&
                          |mid| <= |Body(parsed.value.st, rfd, wfd)| &&
                          mid == Body(parsed.value.st, rfd, wfd)[..|mid|]
    ensures mid == if Run([CreateDecompress, CreateCompress], codec).failure.None? && parsed.Some? && parsed.value.err.None?
                   then Run(Body(parsed.value.st, rfd, wfd), codec).done else []
  {
    var create := Run([CreateDecompress, CreateCompress], codec);
    a := create.done;
    assert [CreateDecompress, CreateCompress][1..] == [CreateCompress];
    if create.failure.None? && parsed.Some? && parsed.value.err.None? {
      var body := Run(Body(parsed.value.st, rfd, wfd), codec);
      mid := body.done;
    } else {
      mid := [];
      assert a + mid == a;
    }
    r := if Close(rfd) in mid then -1 else rfd;
  }

  // ---- order of the edits ----

  /** Monochrome before offset, and both after the coefficients were read. */
  predicate EditsOrdered(t: seq<Call>)
  {
    (forall i, j :: 0 <= i < |t| && 0 <= j < |t| && t[i] == Monochrome && t[j].Offset? ==> i < j) &&
    (forall i :: 0 <= i < |t| && (t[i] == Monochrome || t[i].Offset?) ==>
       exists k :: 0 <= k < i && t[k] == ReadCoefficients)
  }

  /** No edit and no read of the coefficients. */
  predicate Unrelated(t: seq<Call>)
  {
    forall i :: 0 <= i < |t| ==> t[i] != Monochrome && !t[i].Offset? && t[i] != ReadCoefficients
  }

  lemma OrderedBody(p: Settings, rfd: int, wfd: int)
    ensures EditsOrdered(Body(p, rfd, wfd))
  {
    var b := Body(p, rfd, wfd);
    assert b[5] == ReadCoefficients;
    forall i | 0 <= i < |b| && (b[i] == Monochrome || b[i].Offset?)
      ensures exists k :: 0 <= k < i && b[k] == ReadCoefficients
    {
      assert 5 < i;
    }
  }

  lemma OrderedPrefix(t: seq<Call>, n: nat)
    requires EditsOrdered(t) && n <= |t|
    ensures EditsOrdered(t[..n])
  {
    var u := t[..n];
    forall i | 0 <= i < |u| && (u[i] == Monochrome || u[i].Offset?)
      ensures exists k :: 0 <= k < i && u[k] == ReadCoefficients
    {
      var k :| 0 <= k < i && t[k] == ReadCoefficients;
      assert u[k] == ReadCoefficients;
    }
  }

  lemma OrderedAround(a: seq<Call>, b: seq<Call>, c: seq<Call>)
    requires Unrelated(a) && EditsOrdered(b) && Unrelated(c)
    ensures EditsOrdered(a + b + c)
  {
    var t := a + b + c;
    forall i, j | 0 <= i < |t| && 0 <= j < |t| && t[i] == Monochrome && t[j].Offset?
      ensures i < j
    {
      assert t[i] == b[i - |a|] && t[j] == b[j - |a|];
    }
    forall i | 0 <= i < |t| && (t[i] == Monochrome || t[i].Offset?)
      ensures exists k :: 0 <= k < i && t[k] == ReadCoefficients
    {
      assert t[i] == b[i - |a|];
      var k :| 0 <= k < i - |a| && b[k] == ReadCoefficients;
      assert t[k + |a|] == ReadCoefficients;
    }
  }

  lemma CleanupUnrelated(r: int, wfd: int)
    ensures Unrelated(Cleanup(r, wfd))
  {
    var c := Cleanup(r, wfd);
    forall i | 0 <= i < |c|
      ensures c[i] != Monochrome && !c[i].Offset? && c[i] != ReadCoefficients
    {
      if i >= 2 {
        assert c[i] in c[2..];
      }
    }
  }

  /** On every path, whatever the options gave: monochrome is applied before the offset, and neither before jpeg_read_coefficients. */
  lemma EditsInOrder(codec: Codec, rfd: int, wfd: int, parsed: Option<Parsed>)
    ensures EditsOrdered(Session(codec, rfd, wfd, parsed).calls)
  {
    var a, mid, r := Shape(codec, rfd, wfd, parsed);
    CleanupUnrelated(r, wfd);
    if mid != [] {
      var b := Body(parsed.value.st, rfd, wfd);
      OrderedBody(parsed.value.st, rfd, wfd);
      OrderedPrefix(b, |mid|);
    }
    OrderedAround(a, mid, Cleanup(r, wfd));
  }

  // ---- file descriptors ----

  /** How many times `c` occurs in the calls. */
  function Count(t: seq<Call>, c: Call): nat
  {
    if t == [] then 0 else (if t[0] == c then 1 else 0) + Count(t[1..], c)
  }

  /** Closes of `fd` in the calls. */
  function Closes(t: seq<Call>, fd: int): nat
  {
    Count(t, Close(fd))
  }

  lemma {:induction false} CountConcat(a: seq<Call>, b: seq<Call>, c: Call)
    ensures Count(a + b, c) == Count(a, c) + Count(b, c)
  {
    if a != [] {
      CountConcat(a[1..], b, c);
      assert (a + b)[0] == a[0];
      assert (a + b)[1..] == a[1..] + b;
    } else {
      assert a + b == b;
    }
  }

  lemma {:induction false} CountAbsent(t: seq<Call>, c: Call)
    ensures c !in t <==> Count(t, c) == 0
  {
    if t != [] {
      CountAbsent(t[1..], c);
      assert t == [t[0]] + t[1..];
    }
  }

  lemma CountOne(c: Call, d: Call)
    ensures Count([c], d) == if c == d then 1 else 0
  {
    assert [c][1..] == [];
  }

  lemma ClosesInPrefix(t: seq<Call>, n: nat, fd: int)
    requires n <= |t| && Closes(t, fd) <= 1
    ensures Closes(t[..n], fd) == if Close(fd) in t[..n] then 1 else 0
  {
    assert t == t[..n] + t[n..];
    CountConcat(t[..n], t[n..], Close(fd));
    CountAbsent(t[..n], Close(fd));
  }

  /** The decompression half ends with closing the input and closes nothing before that. */
  lemma DecodeEndsWithClose(p: Settings, rfd: int)
    ensures var d := Decode(p, rfd);
            d != [] && d[|d| - 1] == Close(rfd) && forall c :: c in d[..|d| - 1] ==> !c.Close?
  {
    var d := Decode(p, rfd);
    var front := Prepare(p, rfd) + Edits(p) + [CopyCritical, AdjustParameters(p.xform)];
    assert d == front + [Close(rfd)];
    assert d[..|d| - 1] == front;
  }

  /** The compression half closes nothing. */
  lemma EncodeClosesNothing(p: Settings, wfd: int)
    ensures forall c :: c in Encode(p, wfd) ==> !c.Close?
  {
  }

  /** Where the body closes: the input once, as the last call of the decompression half, the output never. */
  lemma BodyCloses(p: Settings, rfd: int, wfd: int)
    requires rfd != wfd
    ensures var b := Body(p, rfd, wfd);
            Closes(b, rfd) == 1 && Closes(b, wfd) == 0 && Close(rfd) in b
  {
    var d := Decode(p, rfd);
    var e := Encode(p, wfd);
    DecodeEndsWithClose(p, rfd);
    EncodeClosesNothing(p, wfd);
    var front := d[..|d| - 1];
    assert d == front + [Close(rfd)];
    assert Close(rfd) !in front && Close(rfd) !in e;
    assert Close(wfd) !in d + e;
    assert Body(p, rfd, wfd) == front + [Close(rfd)] + e;
    CountAbsent(front, Close(rfd));
    CountAbsent(e, Close(rfd));
    CountAbsent(d + e, Close(wfd));
    CountOne(Close(rfd), Close(rfd));
    CountConcat(front, [Close(rfd)], Close(rfd));
    CountConcat(front + [Close(rfd)], e, Close(rfd));
  }

  /** The cleanup closes the output once, and the input once unless it is already -1. */
  lemma CleanupCloses(r: int, rfd: int, wfd: int)
    requires wfd != -1 && rfd != -1 && rfd != wfd && (r == rfd || r == -1)
    ensures Closes(Cleanup(r, wfd), wfd) == 1
    ensures Closes(Cleanup(r, wfd), rfd) == if r == rfd then 1 else 0
  {
    var ds := [DestroyCompress, DestroyDecompress];
    var rs := if r != -1 then [Close(r)] else [];
    assert Cleanup(r, wfd) == ds + rs + [Close(wfd)];
    CountAbsent(ds, Close(rfd));
    CountAbsent(ds, Close(wfd));
    CountAbsent(rs, Close(wfd));
    if r != -1 {
      CountOne(Close(r), Close(rfd));
    } else {
      CountAbsent(rs, Close(rfd));
    }
    CountOne(Close(wfd), Close(wfd));
    CountOne(Close(wfd), Close(rfd));
    CountConcat(ds + rs, [Close(wfd)], Close(wfd));
    CountConcat(ds + rs, [Close(wfd)], Close(rfd));
    CountConcat(ds, rs, Close(wfd));
    CountConcat(ds, rs, Close(rfd));
  }

  /**
   * With two real, different descriptors, each is closed exactly once on every
   * path: the input after decoding or in the cleanup, the output in the cleanup.
   */
  lemma EachDescriptorClosedOnce(codec: Codec, rfd: int, wfd: int, parsed: Option<Parsed>)
    requires rfd != -1 && wfd != -1 && rfd != wfd
    ensures var t := Session(codec, rfd, wfd, parsed).calls;
            Closes(t, rfd) == 1 && Closes(t, wfd) == 1
  {
    var a, mid, r := Shape(codec, rfd, wfd, parsed);
    ShapeCloses(a, mid, r, parsed, rfd, wfd);
  }

  /** The same for any run of the shape every run has. */
  lemma ShapeCloses(a: seq<Call>, mid: seq<Call>, r: int, parsed: Option<Parsed>, rfd: int, wfd: int)
    requires rfd != -1 && wfd != -1 && rfd != wfd
    requires a == [CreateDecompress] || a == [CreateDecompress, CreateCompress]
    requires r == if Close(rfd) in mid then -1 else rfd
    requires mid != [] ==> parsed.Some? && |mid| <= |Body(parsed.value.st, rfd, wfd)| &&
                           mid == Body(parsed.value.st, rfd, wfd)[..|mid|]
    ensures Closes(a + mid + Cleanup(r, wfd), rfd) == 1 && Closes(a + mid + Cleanup(r, wfd), wfd) == 1
  {
    if mid != [] {
      BodyCloses(parsed.value.st, rfd, wfd);
      MidCloses(Body(parsed.value.st, rfd, wfd), mid, rfd, wfd);
    } else {
      CountAbsent(mid, Close(rfd));
      CountAbsent(mid, Close(wfd));
    }
    CleanupCloses(r, rfd, wfd);
    assert Close(rfd) !in a && Close(wfd) !in a;
    ClosesOfThree(a, mid, Cleanup(r, wfd), rfd);
    ClosesOfThree(a, mid, Cleanup(r, wfd), wfd);
  }

  /** A prefix of calls that close the input once and the output never closes the input once or not at all, and never the output. */
  lemma MidCloses(b: seq<Call>, mid: seq<Call>, rfd: int, wfd: int)
    requires Closes(b, rfd) == 1 && Closes(b, wfd) == 0
    requires |mid| <= |b| && mid == b[..|mid|]
    ensures Closes(mid, rfd) == (if Close(rfd) in mid then 1 else 0) && Closes(mid, wfd) == 0
  {
    ClosesInPrefix(b, |mid|, rfd);
    ClosesInPrefix(b, |mid|, wfd);
    CountAbsent(b, Close(wfd));
    CountAbsent(mid, Close(wfd));
  }

  lemma ClosesOfThree(a: seq<Call>, b: seq<Call>, c: seq<Call>, fd: int)
    requires Close(fd) !in a
    ensures Closes(a + b + c, fd) == Closes(b, fd) + Closes(c, fd)
  {
    CountAbsent(a, Close(fd));
    CountConcat(a, b, Close(fd));
    CountConcat(a + b, c, Close(fd));
  }

  // ---- rfd after a longjmp, as written ----

  /** Decoding the input closes it exactly once. */
  lemma DecodeCloses(p: Settings, rfd: int, wfd: int)
    requires rfd != wfd
    ensures Closes(Decode(p, rfd), rfd) == 1
  {
    BodyCloses(p, rfd, wfd);
    EncodeClosesNothing(p, wfd);
    CountAbsent(Encode(p, wfd), Close(rfd));
    CountConcat(Decode(p, rfd), Encode(p, wfd), Close(rfd));
  }

  /** As written, a body that stops early leaves the cleanup with the original rfd, whether or not it was closed. */
  lemma RestoredAfterAbort(p: Settings, rfd: int, wfd: int, codec: Codec, done: seq<Call>, m: string)
    requires Failure(CreateDecompress, codec) == None && Failure(CreateCompress, codec) == None
    requires Run(Body(p, rfd, wfd), codec) == Ran(done, Some(m))
    ensures SessionRestoredRfd(codec, rfd, wfd, Some(Parsed(p, None))) ==
            Finish([CreateDecompress, CreateCompress] + done, m, rfd, wfd)
  {
    assert [CreateDecompress, CreateCompress][1..] == [CreateCompress];
  }

  /** Closes of the input by a run that closed it once in the body, with the cleanup given `r`. */
  lemma ClosesAfterBody(mid: seq<Call>, r: int, rfd: int, wfd: int)
    requires rfd != -1 && wfd != -1 && rfd != wfd && (r == rfd || r == -1)
    requires Closes(mid, rfd) == 1
    ensures Closes([CreateDecompress, CreateCompress] + mid + Cleanup(r, wfd), rfd) == if r == rfd then 2 else 1
  {
    CleanupCloses(r, rfd, wfd);
    ClosesOfThree([CreateDecompress, CreateCompress], mid, Cleanup(r, wfd), rfd);
  }

  /**
   * As written, an abort in the compression half (after close(rfd)) can make
   * the cleanup close the input a second time: the restored rfd is not -1.
   * With the store kept (Session), EachDescriptorClosedOnce closes it once.
   */
  lemma AsWrittenClosesInputTwice(codec: Codec, p: Settings, rfd: int, wfd: int)
    requires rfd != -1 && wfd != -1 && rfd != wfd
    requires Failure(CreateDecompress, codec) == None && Failure(CreateCompress, codec) == None
    requires Run(Decode(p, rfd), codec).failure.None? && Run(Encode(p, wfd), codec).failure.Some?
    ensures Closes(SessionRestoredRfd(codec, rfd, wfd, Some(Parsed(p, None))).calls, rfd) == 2
  {
    var b := Run(Body(p, rfd, wfd), codec);
    LateAbortBody(codec, p, rfd, wfd);
    RestoredAfterAbort(p, rfd, wfd, codec, b.done, b.failure.value);
    ClosesAfterBody(b.done, rfd, rfd, wfd);
  }

  /** A body whose compression half aborts has closed the input once and stops with that abort. */
  lemma LateAbortBody(codec: Codec, p: Settings, rfd: int, wfd: int)
    requires rfd != wfd
    requires Run(Decode(p, rfd), codec).failure.None? && Run(Encode(p, wfd), codec).failure.Some?
    ensures Run(Body(p, rfd, wfd), codec).failure.Some?
    ensures Closes(Run(Body(p, rfd, wfd), codec).done, rfd) == 1
  {
    BodyHalves(p, rfd, wfd, codec);
    var e := Run(Encode(p, wfd), codec).done;
    DecodeCloses(p, rfd, wfd);
    EncodeClosesNothing(p, wfd);
    assert Close(rfd) !in e;
    CountAbsent(e, Close(rfd));
    CountConcat(Decode(p, rfd), e, Close(rfd));
  }

  /** A write error reported by jpeg_finish_compress: the only call that fails. */
  function WriteError(c: Call): Outcome
  {
    if c == FinishCompress then Aborted("write error") else Completed
  }

  /** Such an abort exists: a write error in jpeg_finish_compress closes the input twice as written, once when rfd keeps -1. */
  lemma WriteErrorClosesInputTwice(p: Settings, rfd: int, wfd: int)
    requires rfd != -1 && wfd != -1 && rfd != wfd
    ensures Closes(SessionRestoredRfd(WriteError, rfd, wfd, Some(Parsed(p, None))).calls, rfd) == 2
    ensures Closes(Session(WriteError, rfd, wfd, Some(Parsed(p, None))).calls, rfd) == 1
  {
    var d := Decode(p, rfd);
    assert FinishCompress !in d;
    RunClean(d, WriteError);
    var e := Encode(p, wfd);
    assert e[4] == FinishCompress;
    RunStopsAt(e, WriteError, 4);
    AsWrittenClosesInputTwice(WriteError, p, rfd, wfd);
    EachDescriptorClosedOnce(WriteError, rfd, wfd, Some(Parsed(p, None)));
  }

  /** Every `x` in the calls comes before every `y`. */
  predicate Before(t: seq<Call>, x: Call, y: Call)
  {
    forall i, j :: 0 <= i < |t| && 0 <= j < |t| && t[i] == x && t[j] == y ==> i < j
  }

  lemma BeforeConcat(a: seq<Call>, b: seq<Call>, x: Call, y: Call)
    requires Before(a, x, y) && Before(b, x, y) && (y !in a || x !in b)
    ensures Before(a + b, x, y)
  {
    var t := a + b;
    forall i, j | 0 <= i < |t| && 0 <= j < |t| && t[i] == x && t[j] == y
      ensures i < j
    {
      if i < |a| && j < |a| {
        assert a[i] == x && a[j] == y;
      } else if i >= |a| && j >= |a| {
        assert b[i - |a|] == x && b[j - |a|] == y;
      }
    }
  }

  lemma BeforePrefix(t: seq<Call>, n: nat, x: Call, y: Call)
    requires Before(t, x, y) && n <= |t|
    ensures Before(t[..n], x, y)
  {
    var u := t[..n];
    forall i, j | 0 <= i < |u| && 0 <= j < |u| && u[i] == x && u[j] == y
      ensures i < j
    {
      assert t[i] == x && t[j] == y;
    }
  }

  /** In the body the input source is set before the input is closed, and the output is never closed. */
  lemma BodyUses(p: Settings, rfd: int, wfd: int)
    requires rfd != wfd
    ensures var b := Body(p, rfd, wfd);
            Before(b, StdioSrc(rfd), Close(rfd)) && Close(wfd) !in b
  {
    var b := Body(p, rfd, wfd);
    var d := Decode(p, rfd);
    assert forall k :: 0 <= k < 6 ==> b[k] != Close(rfd);
    forall i, j | 0 <= i < |b| && 0 <= j < |b| && b[i] == StdioSrc(rfd) && b[j] == Close(rfd)
      ensures i < j
    {
      if i < |d| {
        assert i == 1 by {
          assert d[i] == StdioSrc(rfd);
        }
      }
    }
    assert Close(wfd) !in d;
  }

  /** The cleanup closes the input before the output and uses neither. */
  lemma CleanupUses(r: int, rfd: int, wfd: int)
    requires rfd != wfd
    ensures var c := Cleanup(r, wfd);
            Before(c, Close(rfd), Close(wfd)) && StdioSrc(rfd) !in c && StdioDest(wfd) !in c
  {
  }

  /**
   * With two different descriptors, on every path: the input source is set
   * before the input is closed, the input is closed before the output, and
   * the output destination is set before the output is closed.
   */
  lemma NoUseAfterClose(codec: Codec, rfd: int, wfd: int, parsed: Option<Parsed>)
    requires rfd != wfd
    ensures var t := Session(codec, rfd, wfd, parsed).calls;
            Before(t, StdioSrc(rfd), Close(rfd)) && Before(t, Close(rfd), Close(wfd)) &&
            Before(t, StdioDest(wfd), Close(wfd))
  {
    var a, mid, r := Shape(codec, rfd, wfd, parsed);
    var c := Cleanup(r, wfd);
    assert Close(rfd) !in a && Close(wfd) !in a;
    CleanupUses(r, rfd, wfd);
    if mid != [] {
      var b := Body(parsed.value.st, rfd, wfd);
      BodyUses(parsed.value.st, rfd, wfd);
      BeforePrefix(b, |mid|, StdioSrc(rfd), Close(rfd));
      assert Close(wfd) !in mid;
    }
    BeforeConcat(a, mid, StdioSrc(rfd), Close(rfd));
    BeforeConcat(a + mid, c, StdioSrc(rfd), Close(rfd));
    BeforeConcat(a, mid, Close(rfd), Close(wfd));
    BeforeConcat(a + mid, c, Close(rfd), Close(wfd));
    BeforeConcat(a, mid, StdioDest(wfd), Close(wfd));
    BeforeConcat(a + mid, c, StdioDest(wfd), Close(wfd));
  }

  // ---- the returned string ----

  /** No call in `t` ended the run. */
  predicate Clean(t: seq<Call>, codec: Codec)
  {
    forall i :: 0 <= i < |t| ==> Failure(t[i], codec) == None
  }

  /** Every call a run makes but the failing one completes. */
  lemma {:induction false} RunCleanBefore(cs: seq<Call>, codec: Codec)
    ensures var r := Run(cs, codec);
            (r.failure == None ==> Clean(r.done, codec)) &&
            (r.failure != None ==> Clean(r.done[..|r.done| - 1], codec))
  {
    if cs != [] && Failure(cs[0], codec) == None {
      RunCleanBefore(cs[1..], codec);
      var rest := Run(cs[1..], codec);
      var r := Run(cs, codec);
      assert r.done == [cs[0]] + rest.done;
      if rest.failure != None {
        assert r.done[..|r.done| - 1] == [cs[0]] + rest.done[..|rest.done| - 1];
        CleanConcat([cs[0]], rest.done[..|rest.done| - 1], codec);
      } else {
        CleanConcat([cs[0]], rest.done, codec);
      }
    }
  }

  lemma CleanConcat(a: seq<Call>, b: seq<Call>, codec: Codec)
    ensures Clean(a + b, codec) <==> Clean(a, codec) && Clean(b, codec)
  {
    if Clean(a + b, codec) {
      forall i | 0 <= i < |a| ensures Failure(a[i], codec) == None {
        assert (a + b)[i] == a[i];
      }
      forall i | 0 <= i < |b| ensures Failure(b[i], codec) == None {
        assert (a + b)[|a| + i] == b[i];
      }
    }
  }

  lemma CleanCleanup(r: int, wfd: int, codec: Codec)
    ensures Clean(Cleanup(r, wfd), codec)
  {
    var c := Cleanup(r, wfd);
    forall i | 0 <= i < |c| ensures Failure(c[i], codec) == None {
      if i >= 2 {
        assert c[i] in c[2..];
      }
    }
  }

  /** A run that ended early holds the failing call. */
  lemma FailedNotClean(r: Ran, cs: seq<Call>, codec: Codec)
    requires r == Run(cs, codec) && r.failure.Some?
    ensures !Clean(r.done, codec)
  {
    assert Failure(r.done[|r.done| - 1], codec).Some?;
  }

  /** A failing call never leaves "OK" behind when the codec library does not. */
  lemma NeverOk(r: Ran, cs: seq<Call>, codec: Codec)
    requires forall c :: codec(c) != Aborted(Success)
    requires r == Run(cs, codec) && r.failure.Some?
    ensures Reply(r.failure.value) != Success
  {
    var c := r.done[|r.done| - 1];
    assert Failure(c, codec) == r.failure;
    assert codec(c) != Aborted(Success);
  }

  /**
   * "OK" comes back exactly when the option string was accepted and no call
   * failed, provided neither the codec library nor the parser reports an
   * error whose message is "OK" itself.
   */
  lemma OkExactlyWhenAllCompleted(codec: Codec, rfd: int, wfd: int, parsed: Option<Parsed>)
    requires forall c :: codec(c) != Aborted(Success)
    requires parsed.Some? && parsed.value.err.Some? ==> parsed.value.err.value != Success
    ensures var t := Session(codec, rfd, wfd, parsed);
            t.result == Success <==> parsed.Some? && parsed.value.err == None && Clean(t.calls, codec)
  {
    var cs := [CreateDecompress, CreateCompress];
    var create := Run(cs, codec);
    if create.failure.Some? {
      NeverOk(create, cs, codec);
      FailedNotClean(create, cs, codec);
      CleanConcat(create.done, Cleanup(rfd, wfd), codec);
    } else if parsed.Some? && parsed.value.err.None? {
      var b := Body(parsed.value.st, rfd, wfd);
      var body := Run(b, codec);
      var rfdLeft := if Close(rfd) in body.done then -1 else rfd;
      CleanConcat(create.done, body.done, codec);
      CleanConcat(create.done + body.done, Cleanup(rfdLeft, wfd), codec);
      CleanCleanup(rfdLeft, wfd, codec);
      RunCleanBefore(b, codec);
      RunCleanBefore(cs, codec);
      if body.failure.Some? {
        NeverOk(body, b, codec);
        FailedNotClean(body, b, codec);
      }
    }
  }

  /** The same at the entry point, where a parse error never reads "OK". */
  lemma OkExactlyAtEntry(env: Env, st: Settings, rfd: int, wfd: int, options: Option<string>, codec: Codec)
    requires forall c :: codec(c) != Aborted(Success)
    ensures var t := Transcode(env, st, rfd, wfd, options, codec);
            t.result == Success <==>
              options.Some? && |options.value| < 256 && ParseOptions(env, Entry(st), options.value).err == None &&
              Clean(t.calls, codec)
  {
    var parsed := CheckedParse(env, st, options);
    if parsed.Some? && parsed.value.err.Some? {
      assert IsParseError(parsed.value.err.value);
    }
    OkExactlyWhenAllCompleted(codec, rfd, wfd, parsed);
  }

  /** A completed run makes every call of the body in order, leaving only the output to close. */
  lemma CompletedRun(p: Settings, rfd: int, wfd: int, codec: Codec)
    requires Failure(CreateDecompress, codec) == None && Failure(CreateCompress, codec) == None
    requires Run(Body(p, rfd, wfd), codec).failure == None
    ensures Session(codec, rfd, wfd, Some(Parsed(p, None))) ==
            Transcoded([CreateDecompress, CreateCompress] + Body(p, rfd, wfd) + Cleanup(-1, wfd), Success)
  {
    assert [CreateDecompress, CreateCompress][1..] == [CreateCompress];
    var b := Body(p, rfd, wfd);
    assert Close(rfd) in b by {
      assert b[|Decode(p, rfd)| - 1] == Close(rfd);
    }
  }

  // ---- when the coefficients are read ----

  /**
   * When `x` ends the first list and appears nowhere else in it, the run of
   * both lists makes `x` and sees it complete exactly when the first list completes.
   */
  lemma MakesLastOfFirst(a: seq<Call>, b: seq<Call>, x: Call, codec: Codec)
    requires a != [] && a[|a| - 1] == x && x !in a[..|a| - 1]
    ensures x in Run(a + b, codec).done && Failure(x, codec) == None <==> Run(a, codec).failure.None?
  {
    RunConcat(a, b, codec);
    var pr := Run(a, codec);
    var done := Run(a + b, codec).done;
    if pr.failure.Some? {
      if x in done {
        var i :| 0 <= i < |done| && done[i] == x;
        assert i == |pr.done| - 1;
      }
    } else {
      RunCleanBefore(a, codec);
      assert done[|a| - 1] == x;
    }
  }

  /** Outside the middle list, `x` does not occur. */
  lemma InMiddle(a: seq<Call>, b: seq<Call>, c: seq<Call>, x: Call)
    requires x !in a && x !in c
    ensures x in a + b + c <==> x in b
  {
  }

  /** Reading the input completes exactly when jpeg_read_coefficients is called and returns. */
  lemma ReadInBody(p: Settings, rfd: int, wfd: int, codec: Codec)
    ensures Run(Prepare(p, rfd), codec).failure.None? <==>
              ReadCoefficients in Run(Body(p, rfd, wfd), codec).done && Failure(ReadCoefficients, codec) == None
  {
    BodyPhases(p, rfd, wfd);
    Regroup(Prepare(p, rfd), Edits(p), Handover(p, rfd), Encode(p, wfd), []);
    assert Prepare(p, rfd)[..5] == Setup(p, rfd);
    MakesLastOfFirst(Prepare(p, rfd), Edits(p) + Handover(p, rfd) + Encode(p, wfd), ReadCoefficients, codec);
  }

  /**
   * The coefficients are read, and so edited, exactly when the calls of the
   * entry point include a jpeg_read_coefficients that returned.
   */
  lemma ReadExactlyWhenMade(codec: Codec, rfd: int, wfd: int, parsed: Option<Parsed>)
    ensures ReadCompleted(codec, rfd, parsed) <==>
              ReadCoefficients in Session(codec, rfd, wfd, parsed).calls && Failure(ReadCoefficients, codec) == None
  {
    var a, mid, r := Shape(codec, rfd, wfd, parsed);
    CleanupUnrelated(r, wfd);
    InMiddle(a, mid, Cleanup(r, wfd), ReadCoefficients);
    if mid != [] {
      ReadInBody(parsed.value.st, rfd, wfd, codec);
    }
  }

  // ---- the entry point step by step ----

  /**
   * How far the setjmp block got: whether both objects were created, the
   * calls made after the create calls, the message in errmsgbuffer, and the
   * input descriptor as the cleanup finds it.  After a failing create nothing
   * follows; after NULL or too long options, or a parse error, nothing
   * follows either and the message is the refusal; otherwise the body
   * follows and the message is its failure or "OK".
   */
  predicate Progress(codec: Codec, rfd: int, wfd: int, parsed: Option<Parsed>,
                     created: bool, mid: seq<Call>, msg: string, rfdLeft: int)
  {
    (created <==> Run([CreateDecompress, CreateCompress], codec).failure.None?) &&
    (!created ==> mid == [] && msg == Run([CreateDecompress, CreateCompress], codec).failure.value && rfdLeft == rfd) &&
    (created && parsed.None? ==> mid == [] && msg == ArgumentError && rfdLeft == rfd) &&
    (created && parsed.Some? && parsed.value.err.Some? ==>
       mid == [] && msg == parsed.value.err.value && rfdLeft == rfd) &&
    (created && parsed.Some? && parsed.value.err.None? ==>
       var body := Run(Body(parsed.value.st, rfd, wfd), codec);
       mid == body.done && msg == (if body.failure.Some? then body.failure.value else Success) &&
       rfdLeft == if Close(rfd) in body.done then -1 else rfd)
  }

  /** A session is the create calls made, then what the setjmp block did after them, then the cleanup. */
  lemma SessionSteps(codec: Codec, rfd: int, wfd: int, parsed: Option<Parsed>,
                     created: bool, mid: seq<Call>, msg: string, rfdLeft: int)
    requires Progress(codec, rfd, wfd, parsed, created, mid, msg, rfdLeft)
    ensures Session(codec, rfd, wfd, parsed) ==
              Finish(Run([CreateDecompress, CreateCompress], codec).done + mid, msg, rfdLeft, wfd)
  {
    if !created || parsed.None? || parsed.value.err.Some? {
      assert Run([CreateDecompress, CreateCompress], codec).done + mid == Run([CreateDecompress, CreateCompress], codec).done;
    }
  }
}
