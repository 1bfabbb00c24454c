/** Properties of the option grammar that the parse_switches loop guarantees. */
module SwitchFacts {
  import opened Wrappers
  import opened Keywords
  import opened Tokenize
  import opened Scan
  import opened Switches

  /** A token that does not begin with '-' stops the parse with "file name exist?". */
  lemma NotASwitchStops(env: Env, st: Settings, toks: seq<string>)
    requires |st.offsets| == OffsetSlots
    requires toks != [] && (toks[0] == [] || toks[0][0] != '-')
    ensures Parse(env, st, toks) == Parsed(st, Some(Err(NotASwitch)))
  {
  }

  /** A switch name no branch accepts stops the parse with "unknown switch". */
  lemma UnknownSwitchStops(env: Env, st: Settings, name: string, rest: seq<string>)
    requires |st.offsets| == OffsetSlots
    requires Dispatch(name) == UnknownSw
    ensures Parse(env, st, ["-" + name] + rest) == Parsed(st, Some(Err(UnknownSwitch)))
  {
    var toks := ["-" + name] + rest;
    assert toks[0][1..] == name;
  }

  lemma {:induction false} OnlySpaces(s: string)
    requires forall i :: 0 <= i < |s| ==> s[i] == ' '
    ensures Tokens(s) == []
  {
    if s != [] {
      OnlySpaces(s[1..]);
    }
  }

  /** An option string with no tokens leaves exactly the defaults and succeeds. */
  lemma {:induction false} BlankOptionsGiveDefaults(env: Env, st: Settings, s: string)
    requires |st.offsets| == OffsetSlots
    requires forall i :: 0 <= i < |s| ==> s[i] == ' '
    ensures ParseOptions(env, st, s) == Parsed(Defaults(st), None)
  {
    OnlySpaces(s);
  }

  /** The switches that read a value token after them. */
  predicate TakesValue(b: Branch)
  {
    b == CopySw || b == CropSw || b == FlipSw || b == MaxMemorySw || b == RestartSw ||
    b == RotateSw || b == WipeSw || b == PixelizeSw || b == OffsetSw
  }

  /** What each value-taking switch reports when its value is missing. */
  function MissingValue(b: Branch): string
  {
    match b
    case MaxMemorySw => "missed parameter"
    case RestartSw => MissedParameter("restart")
    case OffsetSw => MissedOffset
    case CropSw | WipeSw | PixelizeSw => MissedParameter(RegionName(b))
    case _ => MissedParameter(KeywordName(b))
  }

  /** A value-taking switch as the last token stops the parse with its "missed parameter" message, nothing changed. */
  lemma MissingValueStops(env: Env, st: Settings, name: string)
    requires |st.offsets| == OffsetSlots && TakesValue(Dispatch(name))
    ensures Parse(env, st, ["-" + name]) == Parsed(st, Some(Err(MissingValue(Dispatch(name)))))
  {
    var toks := ["-" + name];
    assert toks[0][1..] == name;
    assert Step(env, st, toks) == Fail(st, MissingValue(Dispatch(name)));
  }

  /** -copy stores the policy its value abbreviates; any other value fails with "unknown parameter(copy)". */
  lemma CopyValues(env: Env, st: Settings, name: string, value: string, rest: seq<string>)
    requires |st.offsets| == OffsetSlots && Dispatch(name) == CopySw
    ensures Step(env, st, ["-" + name, value] + rest) ==
            if IsAbbreviation(value, "none", 1) then Next(st.(copy := CopyNone), 2)
            else if IsAbbreviation(value, "comments", 1) then Next(st.(copy := CopyComments), 2)
            else if IsAbbreviation(value, "all", 1) then Next(st.(copy := CopyAll), 2)
            else Fail(st, "unknown parameter(copy)")
  {
    var toks := ["-" + name, value] + rest;
    assert toks[0][1..] == name && toks[1] == value;
    KeymatchMeans(value, "none", 1);
    KeymatchMeans(value, "comments", 1);
    KeymatchMeans(value, "all", 1);
  }

  /** -flip selects the mirror its value abbreviates; any other value fails with "argument(flip)". */
  lemma FlipValues(env: Env, st: Settings, name: string, value: string, rest: seq<string>)
    requires |st.offsets| == OffsetSlots && Dispatch(name) == FlipSw
    ensures Step(env, st, ["-" + name, value] + rest) ==
            if IsAbbreviation(value, "horizontal", 1) then
              Next(st.(xform := st.xform.(transform := SelectTransform(st.xform.transform, FlipH))), 2)
            else if IsAbbreviation(value, "vertical", 1) then
              Next(st.(xform := st.xform.(transform := SelectTransform(st.xform.transform, FlipV))), 2)
            else Fail(st, "argument(flip)")
  {
    var toks := ["-" + name, value] + rest;
    assert toks[0][1..] == name && toks[1] == value;
    KeymatchMeans(value, "horizontal", 1);
    KeymatchMeans(value, "vertical", 1);
  }

  /** -rotate accepts exactly "90", "180" and "270"; any other value fails with "argument(rotate)". */
  lemma RotateValues(env: Env, st: Settings, name: string, value: string, rest: seq<string>)
    requires |st.offsets| == OffsetSlots && Dispatch(name) == RotateSw
    ensures Step(env, st, ["-" + name, value] + rest) ==
            if value == "90" then
              Next(st.(xform := st.xform.(transform := SelectTransform(st.xform.transform, Rot90))), 2)
            else if value == "180" then
              Next(st.(xform := st.xform.(transform := SelectTransform(st.xform.transform, Rot180))), 2)
            else if value == "270" then
              Next(st.(xform := st.xform.(transform := SelectTransform(st.xform.transform, Rot270))), 2)
            else Fail(st, "argument(rotate)")
  {
    var toks := ["-" + name, value] + rest;
    assert toks[0][1..] == name && toks[1] == value;
    DigitsOnly(value, "90", 2);
    DigitsOnly(value, "180", 3);
    DigitsOnly(value, "270", 3);
  }

  /** A keyword made of digits is matched in full only by itself (Lower leaves no other character on a digit). */
  lemma DigitsOnly(value: string, keyword: string, minchars: int)
    requires minchars == |keyword| && forall i :: 0 <= i < |keyword| ==> '0' <= keyword[i] <= '9'
    ensures Keymatch(value, keyword, minchars) <==> value == keyword
  {
    KeymatchMeans(value, keyword, minchars);
    if IsAbbreviation(value, keyword, minchars) {
      assert |value| == |keyword|;
      forall i | 0 <= i < |value|
        ensures value[i] == keyword[i]
      {
        assert LowerAll(value)[i] == keyword[i];
      }
    }
    if value == keyword {
      assert LowerAll(value) == keyword[..|value|];
    }
  }

  // ---- first transform wins ----

  /** Once a transform is selected, no later switch changes it, whether or not the parse then fails. */
  lemma {:induction false} ParseKeepsTransform(env: Env, st: Settings, toks: seq<string>)
    requires |st.offsets| == OffsetSlots
    requires st.xform.transform != XformNone
    ensures Parse(env, st, toks).st.xform.transform == st.xform.transform
    decreases |toks|
  {
    if toks != [] {
      match Step(env, st, toks)
      case Fail(_, _) =>
      case Next(s, n) => ParseKeepsTransform(env, s, toks[n..]);
    }
  }

  /** "-rotate 90" asks for a 90-degree rotation. */
  lemma RotateNinety(env: Env, st: Settings, rotate: string, rest: seq<string>)
    requires |st.offsets| == OffsetSlots && Dispatch(rotate) == RotateSw
    ensures Step(env, st, ["-" + rotate, "90"] + rest) ==
            Next(st.(xform := st.xform.(transform := SelectTransform(st.xform.transform, Rot90))), 2)
  {
    var toks := ["-" + rotate, "90"] + rest;
    assert toks[0][1..] == rotate && toks[1] == "90";
    assert Keymatch("90", "90", 2);
  }

  /** "-flip horizontal" (or any abbreviation of it) asks for a horizontal mirror. */
  lemma FlipHorizontal(env: Env, st: Settings, flip: string, value: string, rest: seq<string>)
    requires |st.offsets| == OffsetSlots && Dispatch(flip) == FlipSw
    requires IsAbbreviation(value, "horizontal", 1)
    ensures Step(env, st, ["-" + flip, value] + rest) ==
            Next(st.(xform := st.xform.(transform := SelectTransform(st.xform.transform, FlipH))), 2)
  {
    var toks := ["-" + flip, value] + rest;
    assert toks[0][1..] == flip && toks[1] == value;
    KeymatchMeans(value, "horizontal", 1);
  }

  /** A second, different transform request is not an error: "-rotate 90 -flip horizontal" rotates. */
  lemma FirstTransformWins(env: Env, st: Settings, rotate: string, flip: string, value: string)
    requires |st.offsets| == OffsetSlots && st.xform.transform == XformNone
    requires Dispatch(rotate) == RotateSw && Dispatch(flip) == FlipSw
    requires IsAbbreviation(value, "horizontal", 1)
    ensures var p := Parse(env, st, ["-" + rotate, "90", "-" + flip, value]);
            p.err == None && p.st.xform.transform == Rot90
  {
    var toks := ["-" + rotate, "90", "-" + flip, value];
    var rest := ["-" + flip, value];
    assert toks == ["-" + rotate, "90"] + rest;
    RotateNinety(env, st, rotate, rest);
    var s1 := st.(xform := st.xform.(transform := Rot90));
    assert Parse(env, st, toks) == Parse(env, s1, toks[2..]);
    assert toks[2..] == rest == rest + [];
    FlipHorizontal(env, s1, flip, value, []);
    assert Parse(env, s1, rest) == Parse(env, s1, rest[2..]);
    assert rest[2..] == [];
  }

  // ---- a single region spec ----

  /** Once a crop, wipe or pixelize spec has parsed, the region never changes again. */
  lemma {:induction false} ParseKeepsRegion(env: Env, st: Settings, toks: seq<string>)
    requires |st.offsets| == OffsetSlots
    requires st.xform.crop.Some?
    ensures Parse(env, st, toks).st.xform.crop == st.xform.crop
    decreases |toks|
  {
    if toks != [] {
      match Step(env, st, toks)
      case Fail(_, _) =>
      case Next(s, n) => ParseKeepsRegion(env, s, toks[n..]);
    }
  }

  /** A further -crop, -wipe or -pixelize with its argument fails with "argument(crop|wipe|pixelize)". */
  lemma SecondRegionRejected(env: Env, st: Settings, name: string, spec: string, rest: seq<string>)
    requires |st.offsets| == OffsetSlots
    requires st.xform.crop.Some? && IsRegionSwitch(Dispatch(name))
    ensures Parse(env, st, ["-" + name, spec] + rest) == Parsed(st, Some(Err(RegionError(Dispatch(name)))))
  {
    var toks := ["-" + name, spec] + rest;
    assert toks[0][1..] == name;
  }

  /** -crop never selects a transform: "-crop S -rotate 90" crops and rotates. */
  lemma CropAndRotate(env: Env, st: Settings, crop: string, spec: string, rotate: string)
    requires |st.offsets| == OffsetSlots && st.xform.transform == XformNone && st.xform.crop == None
    requires Dispatch(crop) == CropSw && Dispatch(rotate) == RotateSw
    requires env.parseCropSpec(spec).Some?
    ensures var p := Parse(env, st, ["-" + crop, spec, "-" + rotate, "90"]);
            p.err == None && p.st.xform.transform == Rot90 && p.st.xform.crop == env.parseCropSpec(spec)
  {
    var toks := ["-" + crop, spec, "-" + rotate, "90"];
    var rest := ["-" + rotate, "90"];
    assert toks[0][1..] == crop;
    var s1 := st.(xform := st.xform.(crop := env.parseCropSpec(spec)));
    assert Step(env, st, toks) == Next(s1, 2);
    assert Parse(env, st, toks) == Parse(env, s1, toks[2..]);
    assert toks[2..] == rest == rest + [];
    RotateNinety(env, s1, rotate, []);
    var s2 := s1.(xform := s1.xform.(transform := Rot90));
    assert Parse(env, s1, rest) == Parse(env, s2, rest[2..]);
    assert rest[2..] == [];
  }

  // ---- numeric arguments ----

  /** -restart N (rows) is accepted exactly when 0 <= N <= 65535 and then only sets restart_in_rows. */
  lemma RestartRows(env: Env, st: Settings, name: string, n: int)
    requires |st.offsets| == OffsetSlots && Dispatch(name) == RestartSw
    ensures Parse(env, st, ["-" + name, Show(n)]) ==
            if 0 <= n <= 65535 then Parsed(st.(dst := st.dst.(restartInRows := n)), None)
            else Parsed(st, Some(Err("argument(restart)")))
  {
    var toks := ["-" + name, Show(n)];
    assert toks[0][1..] == name;
    ScanShown(n);
  }

  /** -restart Nb (MCUs) sets restart_interval = N and clears restart_in_rows, again only for 0..65535. */
  lemma RestartBlocks(env: Env, st: Settings, name: string, n: int, suffix: char)
    requires |st.offsets| == OffsetSlots && Dispatch(name) == RestartSw
    requires suffix == 'b' || suffix == 'B'
    ensures Parse(env, st, ["-" + name, Show(n) + [suffix]]) ==
            if 0 <= n <= 65535 then Parsed(st.(dst := st.dst.(restartInterval := n, restartInRows := 0)), None)
            else Parsed(st, Some(Err("argument(restart)")))
  {
    var toks := ["-" + name, Show(n) + [suffix]];
    assert toks[0][1..] == name;
    ScanShow(n, [suffix]);
  }

  /** -maxmemory N stores N*1000 and -maxmemory Nm stores N*1000*1000, with no range check. */
  lemma MaxMemory(env: Env, st: Settings, name: string, n: int)
    requires |st.offsets| == OffsetSlots && Dispatch(name) == MaxMemorySw
    ensures Parse(env, st, ["-" + name, Show(n)]) ==
            Parsed(st.(dst := st.dst.(maxMemoryToUse := n * 1000)), None)
  {
    var toks := ["-" + name, Show(n)];
    assert toks[0][1..] == name;
    ScanShown(n);
  }

  /** With an m or M suffix the value is in megabytes. */
  lemma MaxMemoryMegabytes(env: Env, st: Settings, name: string, n: int, suffix: char)
    requires |st.offsets| == OffsetSlots && Dispatch(name) == MaxMemorySw
    requires suffix == 'm' || suffix == 'M'
    ensures Parse(env, st, ["-" + name, Show(n) + [suffix]]) ==
            Parsed(st.(dst := st.dst.(maxMemoryToUse := n * 1000 * 1000)), None)
  {
    var toks := ["-" + name, Show(n) + [suffix]];
    assert toks[0][1..] == name;
    ScanShow(n, [suffix]);
  }

  /** -offset with fewer than four values fails with "missed parameter(offset)" and leaves coeff_adj alone. */
  lemma OffsetNeedsFour(env: Env, st: Settings, name: string, values: seq<string>)
    requires |st.offsets| == OffsetSlots && Dispatch(name) == OffsetSw && |values| < 4
    ensures Parse(env, st, ["-" + name] + values) == Parsed(st, Some(Err(MissedOffset)))
  {
    var toks := ["-" + name] + values;
    assert toks[0][1..] == name;
  }

  lemma {:induction false} OffsetFailureKeepsAdj(st: Settings, toks: seq<string>, i: nat)
    requires |toks| >= 5 && i <= OffsetSlots && |st.offsets| == OffsetSlots
    ensures OffsetStep(st, toks, i).Fail? ==> OffsetStep(st, toks, i).st.coeffAdj == st.coeffAdj
    ensures OffsetStep(st, toks, i).Next? ==> OffsetStep(st, toks, i).st.coeffAdj
    decreases OffsetSlots - i
  {
    if i < OffsetSlots {
      match ScanInt(toks[i + 1])
      case None =>
      case Some(n) => OffsetFailureKeepsAdj(st.(offsets := st.offsets[i := n.value]), toks, i + 1);
    }
  }

  /** Whatever its four tokens hold, -offset turns coeff_adj on exactly when it succeeds. */
  lemma OffsetSetsAdjOnlyOnSuccess(env: Env, st: Settings, name: string, values: seq<string>)
    requires |st.offsets| == OffsetSlots && Dispatch(name) == OffsetSw && |values| == 4
    ensures var r := Step(env, st, ["-" + name] + values);
            (r.Next? ==> r.st.coeffAdj) && (r.Fail? ==> r.st.coeffAdj == st.coeffAdj && r.detail == MissedOffset)
  {
    var toks := ["-" + name] + values;
    assert toks[0][1..] == name;
    OffsetFailureKeepsAdj(st, toks, 0);
  }

  /** From value `i` on, every remaining value converts: each is stored in its slot and coeff_adj is set. */
  lemma {:induction false} OffsetStepStores(st: Settings, toks: seq<string>, i: nat, values: seq<int>)
    requires |toks| >= 5 && i <= OffsetSlots && |st.offsets| == OffsetSlots && |values| == OffsetSlots
    requires forall j :: i <= j < OffsetSlots ==> ScanInt(toks[j + 1]).Some? && ScanInt(toks[j + 1]).value.value == values[j]
    ensures OffsetStep(st, toks, i) == Next(st.(offsets := st.offsets[..i] + values[i..], coeffAdj := true), 5)
    decreases OffsetSlots - i
  {
    if i == OffsetSlots {
      assert st.offsets[..i] + values[i..] == st.offsets;
    } else {
      var next := st.(offsets := st.offsets[i := values[i]]);
      OffsetStepStores(next, toks, i + 1, values);
      assert next.offsets[..i + 1] + values[i + 1..] == st.offsets[..i] + values[i..];
    }
  }

  /** The printed forms of four numbers after the switch: each converts and is stored. */
  lemma OffsetShownValues(st: Settings, toks: seq<string>, a: int, b: int, c: int, d: int)
    requires |st.offsets| == OffsetSlots && |toks| == 5
    requires toks[1] == Show(a) && toks[2] == Show(b) && toks[3] == Show(c) && toks[4] == Show(d)
    ensures OffsetStep(st, toks, 0) == Next(st.(offsets := [a, b, c, d], coeffAdj := true), 5)
  {
    var values := [a, b, c, d];
    ScanShown(a); ScanShown(b); ScanShown(c); ScanShown(d);
    assert forall j :: 0 <= j < OffsetSlots ==> ScanInt(toks[j + 1]).Some? && ScanInt(toks[j + 1]).value.value == values[j];
    OffsetStepStores(st, toks, 0, values);
    assert st.offsets[..0] + values[0..] == values;
  }

  /** Four decimal values are stored in coeff_offset[0..3] in order. */
  lemma OffsetValues(env: Env, st: Settings, name: string, a: int, b: int, c: int, d: int)
    requires |st.offsets| == OffsetSlots && Dispatch(name) == OffsetSw
    ensures Parse(env, st, ["-" + name, Show(a), Show(b), Show(c), Show(d)]) ==
            Parsed(st.(offsets := [a, b, c, d], coeffAdj := true), None)
  {
    var toks := ["-" + name, Show(a), Show(b), Show(c), Show(d)];
    assert toks[0][1..] == name;
    OffsetShownValues(st, toks, a, b, c, d);
    ParseOnePass(env, st, toks);
    assert toks[5..] == [];
  }
}
