/**
 * The option grammar of ajpegtran.c: `select_transform` and one pass of the
 * `parse_switches` loop.  The state the loop updates (the file-level globals
 * copyoption, transformoption, coeff_adj, coeff_offset and monochrome, and the
 * fields of the compression object it is given) is the value `Settings`;
 * `Step` is the if/else chain applied to the token at hand and `Parse` runs
 * it token after token until the first error.  The imperative loop that
 * stores each step's result in the globals is `Ajpegtran.Library.ParseSwitches`.
 */
module Switches {
  import opened Wrappers
  import opened Keywords
  import opened Tokenize
  import opened Scan

  /** JCOPY_OPTION of transupp.h. */
  datatype CopyOption = CopyNone | CopyComments | CopyAll

  /** JCOPYOPT_DEFAULT: transupp.h (not part of this model) defines it as JCOPYOPT_COMMENTS. */
  const CopyDefault: CopyOption := CopyComments

  /** JXFORM_CODE values the switches can select. */
  datatype Transform =
    | XformNone | FlipH | FlipV | Transpose | Transverse
    | Rot90 | Rot180 | Rot270 | Wipe | Pixelize

  /** What `jtransform_parse_crop_spec` records for a valid WxH+X+Y spec. */
  datatype Region = Region(width: int, height: int, xoffset: int, yoffset: int)

  /** The fields of `jpeg_transform_info` the parser sets; `crop` is Some exactly when its crop flag is TRUE. */
  datatype TransformInfo = TransformInfo(
    transform: Transform, perfect: bool, trim: bool, forceGrayscale: bool, crop: Option<Region>)

  /** The fields of the compression object (`dstinfo`) the parser sets. */
  datatype CompressParams = CompressParams(
    arithCode: bool, optimizeCoding: bool, maxMemoryToUse: int,
    restartInterval: int, restartInRows: int,
    removeOrientation: bool, removeThumbnail: bool, removeGeotag: bool,
    traceLevel: int)

  /** Configuration macros of the libjpeg build: C_ARITH_CODING_SUPPORTED and ENTROPY_OPT_SUPPORTED. */
  datatype Build = Build(arithCoding: bool, entropyOpt: bool)

  /** What the parser depends on besides the option string: the build and the crop-spec parser of transupp.c. */
  datatype Env = Env(build: Build, parseCropSpec: string -> Option<Region>)

  /** Number of slots of coeff_offset. */
  const OffsetSlots: nat := 4

  /** Everything the parser reads and writes. */
  datatype Settings = Settings(
    copy: CopyOption, xform: TransformInfo,
    coeffAdj: bool, offsets: seq<int>, monochrome: bool,
    dst: CompressParams)

  /** The defaults parse_switches installs before scanning. */
  function Defaults(st: Settings): (r: Settings)
    ensures r.copy == CopyDefault && r.dst.traceLevel == 0
    ensures r.xform == TransformInfo(XformNone, false, false, false, None)
    ensures r.coeffAdj == st.coeffAdj && r.offsets == st.offsets && r.monochrome == st.monochrome
  {
    st.(copy := CopyDefault,
        xform := TransformInfo(XformNone, false, false, false, None),
        dst := st.dst.(traceLevel := 0))
  }

  /** select_transform: the first transform requested wins; later different ones are ignored. */
  function SelectTransform(current: Transform, requested: Transform): (r: Transform)
    ensures current != XformNone ==> r == current
    ensures current == XformNone ==> r == requested
  {
    if current == XformNone || current == requested then requested else current
  }

  /** The branches of the if/else chain, in the order they are tried. */
  datatype Branch =
    | ArithmeticSw | CopySw | CropSw | FlipSw | GrayscaleSw | MaxMemorySw
    | OptimizeSw | PerfectSw | ProgressiveSw | RestartSw | RotateSw | ScansSw
    | TransposeSw | TransverseSw | TrimSw | WipeSw | PixelizeSw | OffsetSw
    | MonochromeSw | RmOrientationSw | RmThumbnailSw | RmGeotagSw | UnknownSw

  /** The first branch whose keymatch accepts the switch name (the token without its '-'). */
  function Dispatch(name: string): Branch
  {
    if Keymatch(name, "arithmetic", 1) then ArithmeticSw
    else if Keymatch(name, "copy", 2) then CopySw
    else if Keymatch(name, "crop", 2) then CropSw
    else if Keymatch(name, "flip", 1) then FlipSw
    else if Keymatch(name, "grayscale", 1) || Keymatch(name, "greyscale", 1) then GrayscaleSw
    else if Keymatch(name, "maxmemory", 3) then MaxMemorySw
    else if Keymatch(name, "optimize", 1) || Keymatch(name, "optimise", 1) then OptimizeSw
    else if Keymatch(name, "perfect", 2) then PerfectSw
    else if Keymatch(name, "progressive", 2) then ProgressiveSw
    else if Keymatch(name, "restart", 1) then RestartSw
    else if Keymatch(name, "rotate", 2) then RotateSw
    else if Keymatch(name, "scans", 1) then ScansSw
    else if Keymatch(name, "transpose", 1) then TransposeSw
    else if Keymatch(name, "transverse", 6) then TransverseSw
    else if Keymatch(name, "trim", 3) then TrimSw
    else if Keymatch(name, "wipe", 1) then WipeSw
    else if Keymatch(name, "pixelize", 1) then PixelizeSw
    else if Keymatch(name, "offset", 3) then OffsetSw
    else if Keymatch(name, "monochrome", 4) then MonochromeSw
    else if Keymatch(name, "rmorientation", 3) then RmOrientationSw
    else if Keymatch(name, "rmthumbnail", 3) then RmThumbnailSw
    else if Keymatch(name, "rmgeotag", 3) then RmGeotagSw
    else UnknownSw
  }

  /** Result of one switch: the new settings and how many tokens it used, or the error, as the text after "Parse error:". */
  datatype StepResult = Next(st: Settings, used: nat) | Fail(st: Settings, detail: string)

  /** Every message parse_switches stores starts with "Parse error:". */
  predicate IsParseError(m: string)
  {
    |m| >= 12 && m[..12] == "Parse error:"
  }

  /** The message for one failure. */
  function Err(detail: string): (m: string)
    ensures IsParseError(m) && m[12..] == detail
  {
    "Parse error:" + detail
  }

  /** Messages parse_switches copies into errmsgbuffer, without their common prefix. */
  const NotASwitch := "file name exist?"
  const UnknownSwitch := "unknown switch"
  const MissedOffset := "missed parameter(offset)"
  /** The message of a value-taking switch whose value token is missing. */
  function MissedParameter(name: string): string
  {
    "missed parameter(" + name + ")"
  }

  /** The name the region switches use in their messages. */
  function RegionName(branch: Branch): string
  {
    match branch
    case CropSw => "crop"
    case WipeSw => "wipe"
    case _ => "pixelize"
  }

  function RegionError(branch: Branch): string
  {
    "argument(" + RegionName(branch) + ")"
  }

  predicate IsRegionSwitch(b: Branch)
  {
    b == CropSw || b == WipeSw || b == PixelizeSw
  }

  /** -crop, -wipe and -pixelize: one region spec at most; wipe and pixelize also select their transform. */
  function RegionStep(env: Env, st: Settings, branch: Branch, toks: seq<string>): (r: StepResult)
    requires IsRegionSwitch(branch) && toks != []
    ensures |toks| < 2 ==> r == Fail(st, MissedParameter(RegionName(branch)))
    ensures |toks| >= 2 && (st.xform.crop.Some? || env.parseCropSpec(toks[1]).None?) ==>
              r == Fail(st, RegionError(branch))
    ensures r.Fail? ==> r.st == st
    ensures r.Next? ==> r.used == 2 && st.xform.crop.None? && r.st.xform.crop == env.parseCropSpec(toks[1])
    ensures r.Next? ==> r.st == st.(xform := st.xform.(crop := r.st.xform.crop, transform := r.st.xform.transform))
    ensures r.Next? && branch == CropSw ==> r.st.xform.transform == st.xform.transform
    ensures r.Next? && branch == WipeSw ==> r.st.xform.transform == SelectTransform(st.xform.transform, Wipe)
    ensures r.Next? && branch == PixelizeSw ==> r.st.xform.transform == SelectTransform(st.xform.transform, Pixelize)
    ensures r.Next? ==> 1 <= r.used <= |toks|
    ensures |r.st.offsets| == |st.offsets|
    ensures st.xform.transform != XformNone ==> r.st.xform.transform == st.xform.transform
    ensures st.xform.crop.Some? ==> r.st.xform.crop == st.xform.crop
  {
    if |toks| < 2 then Fail(st, MissedParameter(RegionName(branch)))
    else if st.xform.crop.Some? then Fail(st, RegionError(branch))
    else match env.parseCropSpec(toks[1])
      case None => Fail(st, RegionError(branch))
      case Some(region) =>
        var x := st.xform.(crop := Some(region));
        var t :=
          if branch == CropSw then x.transform
          else if branch == WipeSw then SelectTransform(x.transform, Wipe)
          else SelectTransform(x.transform, Pixelize);
        Next(st.(xform := x.(transform := t)), 2)
  }

  /** The name the keyword switches use in their messages. */
  function KeywordName(branch: Branch): string
  {
    if branch == CopySw then "copy" else if branch == FlipSw then "flip" else "rotate"
  }

  /** A value that selects a transform (-flip, -rotate) or a copy policy (-copy). */
  function KeywordStep(st: Settings, branch: Branch, toks: seq<string>): (r: StepResult)
    requires branch == CopySw || branch == FlipSw || branch == RotateSw
    requires toks != []
    ensures |toks| < 2 ==> r == Fail(st, MissedParameter(KeywordName(branch)))
    ensures r.Fail? ==> r.st == st
    ensures r.Next? ==> r.used == 2
    ensures r.Next? && branch == CopySw ==> r.st == st.(copy := r.st.copy)
    ensures r.Next? && branch != CopySw ==> r.st == st.(xform := st.xform.(transform := r.st.xform.transform))
    ensures r.Next? ==> 1 <= r.used <= |toks|
    ensures |r.st.offsets| == |st.offsets|
    ensures st.xform.transform != XformNone ==> r.st.xform.transform == st.xform.transform
    ensures st.xform.crop.Some? ==> r.st.xform.crop == st.xform.crop
  {
    if |toks| < 2 then Fail(st, MissedParameter(KeywordName(branch)))
    else
      var a := toks[1];
      var x := st.xform;
      if branch == CopySw then
        if Keymatch(a, "none", 1) then Next(st.(copy := CopyNone), 2)
        else if Keymatch(a, "comments", 1) then Next(st.(copy := CopyComments), 2)
        else if Keymatch(a, "all", 1) then Next(st.(copy := CopyAll), 2)
        else Fail(st, "unknown parameter(copy)")
      else if branch == FlipSw then
        if Keymatch(a, "horizontal", 1) then Next(st.(xform := x.(transform := SelectTransform(x.transform, FlipH))), 2)
        else if Keymatch(a, "vertical", 1) then Next(st.(xform := x.(transform := SelectTransform(x.transform, FlipV))), 2)
        else Fail(st, "argument(flip)")
      else
        if Keymatch(a, "90", 2) then Next(st.(xform := x.(transform := SelectTransform(x.transform, Rot90))), 2)
        else if Keymatch(a, "180", 3) then Next(st.(xform := x.(transform := SelectTransform(x.transform, Rot180))), 2)
        else if Keymatch(a, "270", 3) then Next(st.(xform := x.(transform := SelectTransform(x.transform, Rot270))), 2)
        else Fail(st, "argument(rotate)")
  }

  /** -maxmemory N[m] and -restart N[b], converted with "%ld%c". */
  function NumberStep(st: Settings, branch: Branch, toks: seq<string>): (r: StepResult)
    requires branch == MaxMemorySw || branch == RestartSw
    requires toks != []
    ensures |toks| < 2 ==> r == Fail(st, if branch == MaxMemorySw then "missed parameter" else MissedParameter("restart"))
    ensures r.Fail? ==> r.st == st
    ensures r.Next? ==> r.used == 2 && r.st == st.(dst := r.st.dst)
    ensures r.Next? ==> 1 <= r.used <= |toks|
    ensures |r.st.offsets| == |st.offsets|
    ensures st.xform.transform != XformNone ==> r.st.xform.transform == st.xform.transform
    ensures st.xform.crop.Some? ==> r.st.xform.crop == st.xform.crop
  {
    if branch == MaxMemorySw then
      if |toks| < 2 then Fail(st, "missed parameter")
      else match ScanInt(toks[1])
        case None => Fail(st, "argument(maxmemory)")
        case Some(n) =>
          var kilo := if n.next == Some('m') || n.next == Some('M') then n.value * 1000 else n.value;
          Next(st.(dst := st.dst.(maxMemoryToUse := kilo * 1000)), 2)
    else
      if |toks| < 2 then Fail(st, MissedParameter("restart"))
      else match ScanInt(toks[1])
        case None => Fail(st, "argument(restart)")
        case Some(n) =>
          if n.value < 0 || n.value > 65535 then Fail(st, "argument(restart)")
          else if n.next == Some('b') || n.next == Some('B') then
            Next(st.(dst := st.dst.(restartInterval := n.value, restartInRows := 0)), 2)
          else Next(st.(dst := st.dst.(restartInRows := n.value)), 2)
  }

  /**
   * -offset a b c d: four tokens are taken; each "%d" conversion stores into
   * coeff_offset[i] before the next is tried, and coeff_adj is set only when
   * all four converted.
   */
  function OffsetStep(st: Settings, toks: seq<string>, i: nat): (r: StepResult)
    requires |toks| >= 5 && i <= OffsetSlots && |st.offsets| == OffsetSlots
    ensures |r.st.offsets| == OffsetSlots
    ensures r.Next? ==> r.used == 5
    ensures r.st.xform == st.xform
    ensures r.Fail? ==> r.detail == MissedOffset
    decreases OffsetSlots - i
  {
    if i == OffsetSlots then Next(st.(coeffAdj := true), 5)
    else match ScanInt(toks[i + 1])
      case None => Fail(st, MissedOffset)
      case Some(n) => OffsetStep(st.(offsets := st.offsets[i := n.value]), toks, i + 1)
  }

  /** One pass of the parse_switches loop, on the token list that starts at the current switch. */
  function Step(env: Env, st: Settings, toks: seq<string>): (r: StepResult)
    requires toks != [] && |st.offsets| == OffsetSlots
    ensures r.Next? ==> 1 <= r.used <= |toks|
    ensures |r.st.offsets| == OffsetSlots
    ensures st.xform.transform != XformNone ==> r.st.xform.transform == st.xform.transform
    ensures st.xform.crop.Some? ==> r.st.xform.crop == st.xform.crop
  {
    var arg := toks[0];
    if arg == [] || arg[0] != '-' then Fail(st, NotASwitch)
    else Action(env, st, Dispatch(arg[1..]), toks)
  }

  /** Branches Action handles itself: the switches that read the tokens after them, and the final else. */
  predicate NotAFlag(b: Branch)
  {
    b == UnknownSw || b == CopySw || b == CropSw || b == FlipSw || b == MaxMemorySw || b == RestartSw ||
    b == RotateSw || b == WipeSw || b == PixelizeSw || b == OffsetSw
  }

  /** The switches that use no argument token: set a flag, select a transform or fail outright. */
  function FlagStep(env: Env, st: Settings, branch: Branch): (r: StepResult)
    requires !NotAFlag(branch)
    ensures r.Next? ==> r.used == 1
    ensures r.st.offsets == st.offsets && r.st.xform.crop == st.xform.crop
    ensures st.xform.transform != XformNone ==> r.st.xform.transform == st.xform.transform
  {
    var x := st.xform;
    var d := st.dst;
    if branch == ArithmeticSw then
      if env.build.arithCoding then Next(st.(dst := d.(arithCode := true)), 1)
      else Fail(st, "arithmetic coding not supported")
    else if branch == GrayscaleSw then Next(st.(xform := x.(forceGrayscale := true)), 1)
    else if branch == OptimizeSw then
      if env.build.entropyOpt then Next(st.(dst := d.(optimizeCoding := true)), 1)
      else Fail(st, "entropy optimization was not compiled")
    else if branch == PerfectSw then Next(st.(xform := x.(perfect := true)), 1)
    else if branch == ProgressiveSw then Fail(st, "progressive output was not compiled")
    else if branch == ScansSw then Fail(st, "multi-scan output was not compiled")
    else if branch == TransposeSw then Next(st.(xform := x.(transform := SelectTransform(x.transform, Transpose))), 1)
    else if branch == TransverseSw then Next(st.(xform := x.(transform := SelectTransform(x.transform, Transverse))), 1)
    else if branch == TrimSw then Next(st.(xform := x.(trim := true)), 1)
    else if branch == MonochromeSw then Next(st.(monochrome := true), 1)
    else if branch == RmOrientationSw then Next(st.(dst := d.(removeOrientation := true)), 1)
    else if branch == RmThumbnailSw then Next(st.(dst := d.(removeThumbnail := true)), 1)
    else Next(st.(dst := d.(removeGeotag := true)), 1)
  }

  /** The body of the branch the switch selected; `toks[0]` is the switch itself. */
  function Action(env: Env, st: Settings, branch: Branch, toks: seq<string>): (r: StepResult)
    requires toks != [] && |st.offsets| == OffsetSlots
    ensures r.Next? ==> 1 <= r.used <= |toks|
    ensures |r.st.offsets| == OffsetSlots
    ensures st.xform.transform != XformNone ==> r.st.xform.transform == st.xform.transform
    ensures st.xform.crop.Some? ==> r.st.xform.crop == st.xform.crop
  {
    match branch
    case CopySw | FlipSw | RotateSw => KeywordStep(st, branch, toks)
    case CropSw | WipeSw | PixelizeSw => RegionStep(env, st, branch, toks)
    case MaxMemorySw | RestartSw => NumberStep(st, branch, toks)
    case OffsetSw => if |toks| < 5 then Fail(st, MissedOffset) else OffsetStep(st, toks, 0)
    case UnknownSw => Fail(st, UnknownSwitch)
    case _ => FlagStep(env, st, branch)
  }

  /** Settings after the loop, and the message of the error that stopped it, if any. */
  datatype Parsed = Parsed(st: Settings, err: Option<string>)

  /** The parse_switches loop over the tokens left, from the given settings. */
  function Parse(env: Env, st: Settings, toks: seq<string>): (r: Parsed)
    requires |st.offsets| == OffsetSlots
    ensures |r.st.offsets| == OffsetSlots
    ensures r.err.Some? ==> IsParseError(r.err.value)
    decreases |toks|
  {
    if toks == [] then Parsed(st, None)
    else match Step(env, st, toks)
      case Fail(s, d) => Parsed(s, Some(Err(d)))
      case Next(s, n) => Parse(env, s, toks[n..])
  }

  /** The loop after one pass: stopped with that pass's message, or going on after the tokens it used. */
  lemma ParseOnePass(env: Env, st: Settings, toks: seq<string>)
    requires toks != [] && |st.offsets| == OffsetSlots
    ensures var r := Step(env, st, toks);
            Parse(env, st, toks) == if r.Fail? then Parsed(r.st, Some(Err(r.detail))) else Parse(env, r.st, toks[r.used..])
  {
  }

  /** parse_switches on a whole option string. */
  function ParseOptions(env: Env, st: Settings, argstr: string): Parsed
    requires |st.offsets| == OffsetSlots
  {
    Parse(env, Defaults(st), Tokens(argstr))
  }
}
