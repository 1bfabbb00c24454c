/**
 * The header probe of ajpegtran.c (Java_..._ajpegtranhead): after
 * jpeg_read_header it reports ten integers about the image in the int array
 * the caller passes, or an error message.  `Header` is what jpeg_read_header
 * leaves in the decompression object; the codec steps around it are the
 * oracle calls of the `Pipeline` module.
 */
module Probe {
  import opened Wrappers
  import opened Switches
  import opened Coefficients
  import opened Pipeline
  import opened PipelineFacts

  /** JQUANT_TBL: only quantval[0], the DC quantizer, is read. */
  datatype QuantTable = QuantTable(quantval: seq<int>)

  /** The fields of the decompression object the probe reads after jpeg_read_header. */
  datatype Header = Header(
    imageWidth: int, imageHeight: int, comps: seq<ComponentInfo>,
    colorSpace: int, quantTbls: seq<Option<QuantTable>>)

  /** Length of the result array the probe fills. */
  const Slots: nat := 10

  /** Components whose quantizer is reported (slots 6 to 9). */
  const QuantSlots: nat := 4

  const NoComponent := "JPEG Error:No component"
  const ShortArray := "IF Error:Short array"

  /**
   * The table of each of the first four components exists and has a DC entry.
   * The probe dereferences quant_tbl_ptrs[quant_tbl_no] without a check, so
   * this is what it demands of the header.
   */
  predicate TablesPresent(h: Header)
  {
    forall k :: 0 <= k < |h.comps| && k < QuantSlots ==>
      0 <= h.comps[k].quantTblNo < |h.quantTbls| &&
      h.quantTbls[h.comps[k].quantTblNo].Some? &&
      |h.quantTbls[h.comps[k].quantTblNo].value.quantval| > 0
  }

  /** The largest element. */
  function MaxOf(s: seq<int>): (m: int)
    requires |s| > 0
    ensures m in s
    ensures forall i :: 0 <= i < |s| ==> s[i] <= m
  {
    if |s| == 1 then s[0]
    else
      var m0 := MaxOf(s[..|s| - 1]);
      if m0 < s[|s| - 1] then s[|s| - 1] else m0
  }

  function HSamp(comps: seq<ComponentInfo>): (r: seq<int>)
    ensures |r| == |comps| && forall i :: 0 <= i < |comps| ==> r[i] == comps[i].hSampFactor
  {
    seq(|comps|, i requires 0 <= i < |comps| => comps[i].hSampFactor)
  }

  function VSamp(comps: seq<ComponentInfo>): (r: seq<int>)
    ensures |r| == |comps| && forall i :: 0 <= i < |comps| ==> r[i] == comps[i].vSampFactor
  {
    seq(|comps|, i requires 0 <= i < |comps| => comps[i].vSampFactor)
  }

  /** The MCU size loop: the largest horizontal and vertical sampling factors over all components. */
  method MaxSampling(comps: seq<ComponentInfo>) returns (hmax: int, vmax: int)
    requires |comps| > 0
    ensures hmax == MaxOf(HSamp(comps)) && vmax == MaxOf(VSamp(comps))
  {
    var hs, vs := HSamp(comps), VSamp(comps);
    hmax := comps[0].hSampFactor;
    vmax := comps[0].vSampFactor;
    assert hs[..1] == [hs[0]] && vs[..1] == [vs[0]];
    var cnt := 1;
    while cnt < |comps|
      invariant 1 <= cnt <= |comps|
      invariant hmax == MaxOf(hs[..cnt]) && vmax == MaxOf(vs[..cnt])
    {
      assert hs[..cnt + 1][..cnt] == hs[..cnt] && vs[..cnt + 1][..cnt] == vs[..cnt];
      if hmax < comps[cnt].hSampFactor {
        hmax := comps[cnt].hSampFactor;
      }
      if vmax < comps[cnt].vSampFactor {
        vmax := comps[cnt].vSampFactor;
      }
      cnt := cnt + 1;
    }
    assert hs[..cnt] == hs && vs[..cnt] == vs;
  }

  /** Slot 6 + k: quantval[0] of component k's table, 0 when there is no component k. */
  function QuantSlot(h: Header, k: nat): int
    requires TablesPresent(h) && k < QuantSlots
  {
    if |h.comps| > k then h.quantTbls[h.comps[k].quantTblNo].value.quantval[0] else 0
  }

  /** What the probe makes of a header and an array of `length` ints. */
  datatype HeadResult = Rejected(message: string) | Filled(slots: seq<int>)

  /** The metadata block: the two checks in their order, then the ten slots. */
  function Metadata(h: Header, length: nat): (r: HeadResult)
    requires TablesPresent(h)
  {
    if |h.comps| == 0 then Rejected(NoComponent)
    else if length < Slots then Rejected(ShortArray)
    else Filled([h.imageWidth, h.imageHeight, |h.comps|,
                 MaxOf(HSamp(h.comps)), MaxOf(VSamp(h.comps)), h.colorSpace,
                 QuantSlot(h, 0), QuantSlot(h, 1), QuantSlot(h, 2), QuantSlot(h, 3)])
  }

  /**
   * No component is reported before a short array; a short array only when
   * there are components; otherwise ten slots: the size, the component
   * count, the largest sampling factors (each the factor of some component and
   * at least every other), the colour space, and the DC quantizer of each of
   * the first four components, 0 for those missing.
   */
  lemma MetadataMeans(h: Header, length: nat)
    requires TablesPresent(h)
    ensures Metadata(h, length) == Rejected(NoComponent) <==> |h.comps| == 0
    ensures Metadata(h, length) == Rejected(ShortArray) <==> |h.comps| > 0 && length < Slots
    ensures Metadata(h, length).Filled? <==> |h.comps| > 0 && length >= Slots
    ensures var r := Metadata(h, length);
            r.Filled? ==>
              |r.slots| == Slots &&
              r.slots[0] == h.imageWidth && r.slots[1] == h.imageHeight && r.slots[2] == |h.comps| &&
              r.slots[5] == h.colorSpace &&
              (forall ci :: 0 <= ci < |h.comps| ==> h.comps[ci].hSampFactor <= r.slots[3] && h.comps[ci].vSampFactor <= r.slots[4]) &&
              (exists ci :: 0 <= ci < |h.comps| && h.comps[ci].hSampFactor == r.slots[3]) &&
              (exists ci :: 0 <= ci < |h.comps| && h.comps[ci].vSampFactor == r.slots[4]) &&
              (forall k :: 0 <= k < QuantSlots ==>
                 r.slots[6 + k] == if k < |h.comps| then h.quantTbls[h.comps[k].quantTblNo].value.quantval[0] else 0)
  {
    var r := Metadata(h, length);
    if r.Filled? {
      var hs, vs := HSamp(h.comps), VSamp(h.comps);
      var i :| 0 <= i < |hs| && hs[i] == r.slots[3];
      var j :| 0 <= j < |vs| && vs[j] == r.slots[4];
      assert h.comps[i].hSampFactor == r.slots[3] && h.comps[j].vSampFactor == r.slots[4];
    }
  }

  /**
   * The metadata block on the caller's array: on an error nothing is written;
   * otherwise the first ten slots hold the metadata and the rest is untouched.
   */
  method FillMetadata(h: Header, param: array<int>) returns (err: Option<string>)
    requires TablesPresent(h)
    modifies param
    ensures Metadata(h, param.Length).Rejected? ==>
              err == Some(Metadata(h, param.Length).message) && param[..] == old(param[..])
    ensures Metadata(h, param.Length).Filled? ==>
              err == None && param[..Slots] == Metadata(h, param.Length).slots && param[Slots..] == old(param[Slots..])
  {
    if |h.comps| == 0 {
      return Some(NoComponent);
    }
    var hmax, vmax := MaxSampling(h.comps);
    if param.Length < Slots {
      return Some(ShortArray);
    }
    param[0] := h.imageWidth;
    param[1] := h.imageHeight;
    param[2] := |h.comps|;
    param[3] := hmax;
    param[4] := vmax;
    param[5] := h.colorSpace;
    // slots 6 to 9: cleared, then set for each component present; one store each here
    param[6] := QuantSlot(h, 0);
    param[7] := QuantSlot(h, 1);
    param[8] := QuantSlot(h, 2);
    param[9] := QuantSlot(h, 3);
    err := None;
  }

  /** One call of the probe: the calls made, the string returned and the slots written, if any. */
  datatype Probed = Probed(calls: seq<Call>, result: string, slots: Option<seq<int>>)

  /** The codec calls before the metadata block: no memory limit, default marker copying. */
  function HeadSetup(fd: int): seq<Call>
  {
    HeadOpen(fd) + HeadRead
  }

  /** The object created with no memory limit, and the input attached. */
  function HeadOpen(fd: int): seq<Call>
  {
    [CreateDecompress, SetLimits(0, 0), StdioSrc(fd)]
  }

  /** Marker saving with the default option, then the header read. */
  const HeadRead: seq<Call> := [MarkersSetup(CopyDefault), ReadHeader]

  /** The probe's cleanup: the descriptor closed unless it is -1, then the object destroyed. */
  function HeadCleanup(fd: int): (r: seq<Call>)
    ensures Close(fd) in r <==> fd != -1
    ensures |r| > 0 && r[|r| - 1] == DestroyDecompress
  {
    (if fd != -1 then [Close(fd)] else []) + [DestroyDecompress]
  }

  /** What the setjmp block of the probe did: the calls made, what errmsgbuffer holds, and the slots written, if any. */
  datatype Block = Block(done: seq<Call>, message: string, slots: Option<seq<int>>)

  /** The setjmp block: the header is read, then the metadata block runs; "OK" is stored when both complete. */
  function HeadBlock(codec: Codec, fd: int, h: Header, length: nat): Block
    requires TablesPresent(h)
  {
    var setup := Run(HeadSetup(fd), codec);
    if setup.failure.Some? then Block(setup.done, setup.failure.value, None)
    else match Metadata(h, length)
      case Rejected(m) => Block(setup.done, m, None)
      case Filled(slots) => Block(setup.done, Success, Some(slots))
  }

  /** One call of the probe entry point; `h` is what jpeg_read_header leaves in the object. */
  function ProbeHead(codec: Codec, fd: int, h: Header, length: nat): Probed
    requires TablesPresent(h)
  {
    var b := HeadBlock(codec, fd, h, length);
    Probed(b.done + HeadCleanup(fd), Reply(b.message), b.slots)
  }

  /** A real descriptor is closed exactly once by the probe, whatever happens, and after every use. */
  lemma ProbeClosesOnce(codec: Codec, fd: int, h: Header, length: nat)
    requires fd != -1 && TablesPresent(h)
    ensures var t := ProbeHead(codec, fd, h, length).calls;
            Closes(t, fd) == 1 && Before(t, StdioSrc(fd), Close(fd))
  {
    var setup := Run(HeadSetup(fd), codec);
    var c := HeadCleanup(fd);
    assert Close(fd) !in HeadSetup(fd);
    assert Close(fd) !in setup.done;
    CountAbsent(setup.done, Close(fd));
    assert c == [Close(fd)] + [DestroyDecompress];
    CountOne(Close(fd), Close(fd));
    CountOne(DestroyDecompress, Close(fd));
    CountConcat([Close(fd)], [DestroyDecompress], Close(fd));
    CountConcat(setup.done, c, Close(fd));
    assert StdioSrc(fd) !in c;
    BeforeConcat(setup.done, c, StdioSrc(fd), Close(fd));
  }

  /**
   * The probe returns "OK" exactly when every codec call completed and the
   * metadata was written, provided the codec library never reports "OK" as
   * an error; the slots are reported exactly then.
   */
  lemma ProbeOkExactly(codec: Codec, fd: int, h: Header, length: nat)
    requires forall c :: codec(c) != Aborted(Success)
    requires TablesPresent(h)
    ensures var p := ProbeHead(codec, fd, h, length);
            (p.result == Success <==> Clean(p.calls, codec) && Metadata(h, length).Filled?) &&
            (p.slots.Some? <==> p.result == Success) &&
            (p.slots.Some? ==> p.slots.value == Metadata(h, length).slots)
  {
    var cs := HeadSetup(fd);
    var setup := Run(cs, codec);
    var c := HeadCleanup(fd);
    CleanConcat(setup.done, c, codec);
    RunCleanBefore(cs, codec);
    assert Clean(c, codec) by {
      forall i | 0 <= i < |c| ensures Failure(c[i], codec) == None {
        assert c[i] == Close(fd) || c[i] == DestroyDecompress;
      }
    }
    if setup.failure.Some? {
      NeverOk(setup, cs, codec);
      FailedNotClean(setup, cs, codec);
    }
  }
}
