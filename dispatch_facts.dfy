/**
 * How parse_switches picks the branch for a switch name.  The branches are
 * tried in source order, each with its own minimum abbreviation length; the
 * lemmas below show that these lengths make the order irrelevant: a name
 * reaches a branch exactly when it is an abbreviation of that branch's keyword
 * (or, for -grayscale and -optimize, of their alternative spelling).
 */
module DispatchFacts {
  import opened Keywords
  import opened Switches

  /** An abbreviation of one keyword that differs from another keyword at position d cannot match the other. */
  lemma Apart(name: string, keyword: string, minchars: int, other: string, m: int, d: nat)
    requires IsAbbreviation(name, keyword, minchars)
    requires d < |keyword| && d < |other| && keyword[d] != other[d] && (d < minchars || d < m)
    ensures !Keymatch(name, other, m)
  {
    KeymatchMeans(name, other, m);
    if d < |name| {
      assert LowerAll(name)[d] == keyword[d];
    }
  }

  /** The names that select this branch. */
  lemma DispatchArithmetic(name: string)
    ensures Dispatch(name) == ArithmeticSw <==> IsAbbreviation(name, "arithmetic", 1)
  {
    KeymatchMeans(name, "arithmetic", 1);
  }

  /** The names that select this branch. */
  lemma DispatchCopy(name: string)
    ensures Dispatch(name) == CopySw <==> IsAbbreviation(name, "copy", 2)
  {
    KeymatchMeans(name, "copy", 2);
    if IsAbbreviation(name, "copy", 2) {
      assert LowerAll(name)[0] == Lower(name[0]);
    }
  }

  /** The names that select this branch. */
  lemma DispatchCrop(name: string)
    ensures Dispatch(name) == CropSw <==> IsAbbreviation(name, "crop", 2)
  {
    KeymatchMeans(name, "crop", 2);
    if IsAbbreviation(name, "crop", 2) {
      assert LowerAll(name)[0] == Lower(name[0]);
      Apart(name, "crop", 2, "copy", 2, 1);
    }
  }

  /** The names that select this branch. */
  lemma DispatchFlip(name: string)
    ensures Dispatch(name) == FlipSw <==> IsAbbreviation(name, "flip", 1)
  {
    KeymatchMeans(name, "flip", 1);
    if IsAbbreviation(name, "flip", 1) {
      assert LowerAll(name)[0] == Lower(name[0]);
    }
  }

  /** The names that select this branch. */
  lemma DispatchGrayscale(name: string)
    ensures Dispatch(name) == GrayscaleSw <==> IsAbbreviation(name, "grayscale", 1) || IsAbbreviation(name, "greyscale", 1)
  {
    KeymatchMeans(name, "grayscale", 1);
    KeymatchMeans(name, "greyscale", 1);
    if IsAbbreviation(name, "grayscale", 1) {
      assert LowerAll(name)[0] == Lower(name[0]);
    }
    if IsAbbreviation(name, "greyscale", 1) {
      assert LowerAll(name)[0] == Lower(name[0]);
    }
  }

  /** The names that select this branch. */
  lemma DispatchMaxMemory(name: string)
    ensures Dispatch(name) == MaxMemorySw <==> IsAbbreviation(name, "maxmemory", 3)
  {
    KeymatchMeans(name, "maxmemory", 3);
    if IsAbbreviation(name, "maxmemory", 3) {
      assert LowerAll(name)[0] == Lower(name[0]);
    }
  }

  /** The names that select this branch. */
  lemma DispatchOptimize(name: string)
    ensures Dispatch(name) == OptimizeSw <==> IsAbbreviation(name, "optimize", 1) || IsAbbreviation(name, "optimise", 1)
  {
    KeymatchMeans(name, "optimize", 1);
    KeymatchMeans(name, "optimise", 1);
    if IsAbbreviation(name, "optimize", 1) {
      assert LowerAll(name)[0] == Lower(name[0]);
    }
    if IsAbbreviation(name, "optimise", 1) {
      assert LowerAll(name)[0] == Lower(name[0]);
    }
  }

  /** The names that select this branch. */
  lemma DispatchPerfect(name: string)
    ensures Dispatch(name) == PerfectSw <==> IsAbbreviation(name, "perfect", 2)
  {
    KeymatchMeans(name, "perfect", 2);
    if IsAbbreviation(name, "perfect", 2) {
      assert LowerAll(name)[0] == Lower(name[0]);
    }
  }

  /** The names that select this branch. */
  lemma DispatchProgressive(name: string)
    ensures Dispatch(name) == ProgressiveSw <==> IsAbbreviation(name, "progressive", 2)
  {
    KeymatchMeans(name, "progressive", 2);
    if IsAbbreviation(name, "progressive", 2) {
      assert LowerAll(name)[0] == Lower(name[0]);
      Apart(name, "progressive", 2, "perfect", 2, 1);
    }
  }

  /** The names that select this branch. */
  lemma DispatchRestart(name: string)
    ensures Dispatch(name) == RestartSw <==> IsAbbreviation(name, "restart", 1)
  {
    KeymatchMeans(name, "restart", 1);
    if IsAbbreviation(name, "restart", 1) {
      assert LowerAll(name)[0] == Lower(name[0]);
    }
  }

  /** The names that select this branch. */
  lemma DispatchRotate(name: string)
    ensures Dispatch(name) == RotateSw <==> IsAbbreviation(name, "rotate", 2)
  {
    KeymatchMeans(name, "rotate", 2);
    if IsAbbreviation(name, "rotate", 2) {
      assert LowerAll(name)[0] == Lower(name[0]);
      Apart(name, "rotate", 2, "restart", 1, 1);
    }
  }

  /** The names that select this branch. */
  lemma DispatchScans(name: string)
    ensures Dispatch(name) == ScansSw <==> IsAbbreviation(name, "scans", 1)
  {
    KeymatchMeans(name, "scans", 1);
    if IsAbbreviation(name, "scans", 1) {
      assert LowerAll(name)[0] == Lower(name[0]);
    }
  }

  /** The names that select this branch. */
  lemma DispatchTranspose(name: string)
    ensures Dispatch(name) == TransposeSw <==> IsAbbreviation(name, "transpose", 1)
  {
    KeymatchMeans(name, "transpose", 1);
    if IsAbbreviation(name, "transpose", 1) {
      assert LowerAll(name)[0] == Lower(name[0]);
    }
  }

  /** The names that select this branch. */
  lemma DispatchTransverse(name: string)
    ensures Dispatch(name) == TransverseSw <==> IsAbbreviation(name, "transverse", 6)
  {
    KeymatchMeans(name, "transverse", 6);
    if IsAbbreviation(name, "transverse", 6) {
      assert LowerAll(name)[0] == Lower(name[0]);
      Apart(name, "transverse", 6, "transpose", 1, 5);
    }
  }

  /** The names that select this branch. */
  lemma DispatchTrim(name: string)
    ensures Dispatch(name) == TrimSw <==> IsAbbreviation(name, "trim", 3)
  {
    KeymatchMeans(name, "trim", 3);
    if IsAbbreviation(name, "trim", 3) {
      assert LowerAll(name)[0] == Lower(name[0]);
      Apart(name, "trim", 3, "transpose", 1, 2);
      Apart(name, "trim", 3, "transverse", 6, 2);
    }
  }

  /** The names that select this branch. */
  lemma DispatchWipe(name: string)
    ensures Dispatch(name) == WipeSw <==> IsAbbreviation(name, "wipe", 1)
  {
    KeymatchMeans(name, "wipe", 1);
    if IsAbbreviation(name, "wipe", 1) {
      assert LowerAll(name)[0] == Lower(name[0]);
    }
  }

  /** The names that select this branch. */
  lemma DispatchPixelize(name: string)
    ensures Dispatch(name) == PixelizeSw <==> IsAbbreviation(name, "pixelize", 1)
  {
    KeymatchMeans(name, "pixelize", 1);
    if IsAbbreviation(name, "pixelize", 1) {
      assert LowerAll(name)[0] == Lower(name[0]);
      Apart(name, "pixelize", 1, "perfect", 2, 1);
      Apart(name, "pixelize", 1, "progressive", 2, 1);
    }
  }

  /** The names that select this branch. */
  lemma DispatchOffset(name: string)
    ensures Dispatch(name) == OffsetSw <==> IsAbbreviation(name, "offset", 3)
  {
    KeymatchMeans(name, "offset", 3);
    if IsAbbreviation(name, "offset", 3) {
      assert LowerAll(name)[0] == Lower(name[0]);
      Apart(name, "offset", 3, "optimize", 1, 1);
      Apart(name, "offset", 3, "optimise", 1, 1);
    }
  }

  /** The names that select this branch. */
  lemma DispatchMonochrome(name: string)
    ensures Dispatch(name) == MonochromeSw <==> IsAbbreviation(name, "monochrome", 4)
  {
    KeymatchMeans(name, "monochrome", 4);
    if IsAbbreviation(name, "monochrome", 4) {
      assert LowerAll(name)[0] == Lower(name[0]);
      Apart(name, "monochrome", 4, "maxmemory", 3, 1);
    }
  }

  /** A name whose first letter is not the keyword's never matches it. */
  lemma FirstDiffers(name: string, keyword: string, minchars: int)
    requires name != [] && keyword != [] && Lower(name[0]) != keyword[0]
    ensures !Keymatch(name, keyword, minchars)
  {
  }

  /** A name that starts with 'r' gets past every branch whose keyword starts with another letter. */
  lemma RBranches(name: string)
    requires name != [] && Lower(name[0]) == 'r'
    ensures Dispatch(name) ==
            if Keymatch(name, "restart", 1) then RestartSw
            else if Keymatch(name, "rotate", 2) then RotateSw
            else if Keymatch(name, "rmorientation", 3) then RmOrientationSw
            else if Keymatch(name, "rmthumbnail", 3) then RmThumbnailSw
            else if Keymatch(name, "rmgeotag", 3) then RmGeotagSw
            else UnknownSw
  {
    FirstDiffers(name, "arithmetic", 1);
    FirstDiffers(name, "copy", 2);
    FirstDiffers(name, "crop", 2);
    FirstDiffers(name, "flip", 1);
    FirstDiffers(name, "grayscale", 1);
    FirstDiffers(name, "greyscale", 1);
    FirstDiffers(name, "maxmemory", 3);
    FirstDiffers(name, "optimize", 1);
    FirstDiffers(name, "optimise", 1);
    FirstDiffers(name, "perfect", 2);
    FirstDiffers(name, "progressive", 2);
    FirstDiffers(name, "scans", 1);
    FirstDiffers(name, "transpose", 1);
    FirstDiffers(name, "transverse", 6);
    FirstDiffers(name, "trim", 3);
    FirstDiffers(name, "wipe", 1);
    FirstDiffers(name, "pixelize", 1);
    FirstDiffers(name, "offset", 3);
    FirstDiffers(name, "monochrome", 4);
  }

  /** A name that starts with "rm" gets past every branch before the three -rm switches. */
  lemma RmBranches(name: string)
    requires |name| >= 2 && Lower(name[0]) == 'r' && Lower(name[1]) == 'm'
    ensures Dispatch(name) ==
            if Keymatch(name, "rmorientation", 3) then RmOrientationSw
            else if Keymatch(name, "rmthumbnail", 3) then RmThumbnailSw
            else if Keymatch(name, "rmgeotag", 3) then RmGeotagSw
            else UnknownSw
  {
    RBranches(name);
    KeymatchMeans(name, "restart", 1);
    KeymatchMeans(name, "rotate", 2);
    assert LowerAll(name)[1] == Lower(name[1]);
  }

  /** The names that select this branch. */
  lemma DispatchRmOrientation(name: string)
    ensures Dispatch(name) == RmOrientationSw <==> IsAbbreviation(name, "rmorientation", 3)
  {
    KeymatchMeans(name, "rmorientation", 3);
    if IsAbbreviation(name, "rmorientation", 3) {
      assert LowerAll(name)[0] == Lower(name[0]) && LowerAll(name)[1] == Lower(name[1]);
      RmBranches(name);
    }
  }

  /** The names that select this branch. */
  lemma DispatchRmThumbnail(name: string)
    ensures Dispatch(name) == RmThumbnailSw <==> IsAbbreviation(name, "rmthumbnail", 3)
  {
    KeymatchMeans(name, "rmthumbnail", 3);
    if IsAbbreviation(name, "rmthumbnail", 3) {
      assert LowerAll(name)[0] == Lower(name[0]) && LowerAll(name)[1] == Lower(name[1]);
      RmBranches(name);
      Apart(name, "rmthumbnail", 3, "rmorientation", 3, 2);
    }
  }

  /** The names that select this branch. */
  lemma DispatchRmGeotag(name: string)
    ensures Dispatch(name) == RmGeotagSw <==> IsAbbreviation(name, "rmgeotag", 3)
  {
    KeymatchMeans(name, "rmgeotag", 3);
    if IsAbbreviation(name, "rmgeotag", 3) {
      assert LowerAll(name)[0] == Lower(name[0]) && LowerAll(name)[1] == Lower(name[1]);
      RmBranches(name);
      Apart(name, "rmgeotag", 3, "rmorientation", 3, 2);
      Apart(name, "rmgeotag", 3, "rmthumbnail", 3, 2);
    }
  }

  /** A name reaches the "unknown switch" branch exactly when it abbreviates no keyword. */
  lemma DispatchUnknown(name: string)
    ensures Dispatch(name) == UnknownSw <==>
            !IsAbbreviation(name, "arithmetic", 1)
            && !IsAbbreviation(name, "copy", 2)
            && !IsAbbreviation(name, "crop", 2)
            && !IsAbbreviation(name, "flip", 1)
            && !IsAbbreviation(name, "grayscale", 1)
            && !IsAbbreviation(name, "greyscale", 1)
            && !IsAbbreviation(name, "maxmemory", 3)
            && !IsAbbreviation(name, "optimize", 1)
            && !IsAbbreviation(name, "optimise", 1)
            && !IsAbbreviation(name, "perfect", 2)
            && !IsAbbreviation(name, "progressive", 2)
            && !IsAbbreviation(name, "restart", 1)
            && !IsAbbreviation(name, "rotate", 2)
            && !IsAbbreviation(name, "scans", 1)
            && !IsAbbreviation(name, "transpose", 1)
            && !IsAbbreviation(name, "transverse", 6)
            && !IsAbbreviation(name, "trim", 3)
            && !IsAbbreviation(name, "wipe", 1)
            && !IsAbbreviation(name, "pixelize", 1)
            && !IsAbbreviation(name, "offset", 3)
            && !IsAbbreviation(name, "monochrome", 4)
            && !IsAbbreviation(name, "rmorientation", 3)
            && !IsAbbreviation(name, "rmthumbnail", 3)
            && !IsAbbreviation(name, "rmgeotag", 3)
  {
    KeymatchMeans(name, "arithmetic", 1);
    KeymatchMeans(name, "copy", 2);
    KeymatchMeans(name, "crop", 2);
    KeymatchMeans(name, "flip", 1);
    KeymatchMeans(name, "grayscale", 1);
    KeymatchMeans(name, "greyscale", 1);
    KeymatchMeans(name, "maxmemory", 3);
    KeymatchMeans(name, "optimize", 1);
    KeymatchMeans(name, "optimise", 1);
    KeymatchMeans(name, "perfect", 2);
    KeymatchMeans(name, "progressive", 2);
    KeymatchMeans(name, "restart", 1);
    KeymatchMeans(name, "rotate", 2);
    KeymatchMeans(name, "scans", 1);
    KeymatchMeans(name, "transpose", 1);
    KeymatchMeans(name, "transverse", 6);
    KeymatchMeans(name, "trim", 3);
    KeymatchMeans(name, "wipe", 1);
    KeymatchMeans(name, "pixelize", 1);
    KeymatchMeans(name, "offset", 3);
    KeymatchMeans(name, "monochrome", 4);
    KeymatchMeans(name, "rmorientation", 3);
    KeymatchMeans(name, "rmthumbnail", 3);
    KeymatchMeans(name, "rmgeotag", 3);
  }

  /** -t selects transpose, the first keyword starting with 't'. */
  lemma ShortTranspose()
    ensures Dispatch("t") == TransposeSw
  {
    assert LowerAll("t") == "t";
    DispatchTranspose("t");
  }

  /** -r selects restart: a single letter is enough there. */
  lemma ShortRestart()
    ensures Dispatch("r") == RestartSw
  {
    assert LowerAll("r") == "r";
    DispatchRestart("r");
  }

  /** -ro selects rotate, which needs two letters. */
  lemma ShortRotate()
    ensures Dispatch("ro") == RotateSw
  {
    assert LowerAll("ro") == "ro";
    DispatchRotate("ro");
  }

  /** -c is unknown: -copy and -crop both need two letters. */
  lemma ShortC()
    ensures Dispatch("c") == UnknownSw
  {
    assert LowerAll("c") == "c";
    DispatchUnknown("c");
  }

  /** -m is unknown: -maxmemory needs three letters and -monochrome four. */
  lemma ShortM()
    ensures Dispatch("m") == UnknownSw
  {
    assert LowerAll("m") == "m";
    DispatchUnknown("m");
  }
}
