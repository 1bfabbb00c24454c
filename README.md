# ajpegtran core in Dafny

ajpegtran is an Android wrapper around the IJG `jpegtran` tool. Its native
library, `app/src/main/cpp/ajpegtran.c`, has two entry points:

- **The transcode entry point.** It reads a JPEG from one descriptor as DCT
  coefficients and writes the re-packed image to another. It can apply the
  `jpegtran` transforms and two extensions of its own:
  - `-monochrome` sets to zero every coefficient of the chroma components' blocks that the codec's loop visits (the first `width_in_blocks` blocks of each row up to `height_in_blocks` rounded up to `v_samp_factor`; padding blocks keep their values);
  - `-offset a b c d` adds a per-component offset to the DC coefficient.
- **The probe.** It reads a JPEG header and reports ten integers about the
  image.

Both entry points return a message string: "OK", an error message, or
"Unknown Error".

The model has four parts.

- **Option parser** (`Keywords`, `Tokenize`, `Scan`, `Switches`, `DispatchFacts`, `SwitchFacts`).
  - `select_transform` and one pass of the `parse_switches` loop are functions on a `Settings` value.
  - `Switches.Parse` runs the loop token by token until the first error.
  - The loop itself is the method `Ajpegtran.Library.ParseSwitches`. It updates the library's globals in place and is proved equal to `Switches.ParseOptions`.
  - The lemmas pin down four things:
    - which names reach which branch;
    - that the first transform wins;
    - that only one region switch is accepted;
    - what the numeric switches store.
- **Coefficient edits** (`Coefficients`).
  - `toMonochrome` and `brightnessControl` are methods over one `array3` per component: block row × block × 64 coefficients.
  - They use the same nested loops as the source, `v_samp_factor` rows per pass.
  - JCOEF is 16-bit, and additions wrap around explicitly.
- **Header probe** (`Probe`).
  - The MCU-size loop and the ten-slot metadata block, with its two error checks in source order.
  - The probe's setjmp block and cleanup as a sequence of codec calls, proved against `Probe.ProbeHead`.
- **Transcode pipeline** (`Pipeline`, `PipelineFacts`, `Ajpegtran`).
  - The entry point is an ordered list of codec calls. Each call can complete, return FALSE (only `jtransform_request_workspace` does), or abort with a message. An abort is the library's longjmp back to the setjmp.
  - The functions compute the calls made, the cleanup and the returned string.
  - The class `Ajpegtran.Library` holds the globals (`copyoption`, `transformoption`, `coeff_adj`, `coeff_offset`, `monochrome`, `errmsgbuffer`) and a log of the calls made. Its methods run the same steps and are proved equal to `Pipeline.Transcode` and `Probe.ProbeHead`.
  - The lemmas state the following:
    - the order of the argument check, the parse and the edits;
    - monochrome is applied before the offset, and both after `jpeg_read_coefficients`;
    - each descriptor is closed exactly once, provided the `rfd = -1` store survives a longjmp (it need not as written; see Findings); the source is set on rfd before rfd is closed, rfd is closed before wfd, and the destination is set on wfd before wfd is closed;
    - "OK" comes back exactly when every step completed.

The codec library (libjpeg, transupp and cdjpeg) is an oracle: a function
from call to outcome. JNI, `errno` and logging are left out.

The pipeline's cleanup reads `rfd` after a possible longjmp. The main model
(`Pipeline.Session` and everything built on it) takes the value stored last,
as if `rfd` were `volatile`; `Pipeline.SessionRestoredRfd` is the code as
written in the case where the longjmp restores the original descriptor.

The documented behaviour of the tool and its code disagree in three places.
The model follows the code each time:

- The default copy option is `JCOPYOPT_DEFAULT`. In IJG's transupp.h that is "comments", not "all".
- `coeff_adj` is set only when all four `-offset` values converted, not whenever the switch is reached.
- The offset loop's guard lets a fifth component through. See Findings.

## Model

| member | source | states |
|---|---|---|
| Switches.SelectTransform | app/src/main/cpp/ajpegtran.c:83-98 | a transform already chosen is kept; only when none is chosen does the request take effect |
| Switches.Defaults | app/src/main/cpp/ajpegtran.c:122-130 | the parser's defaults: copy option JCOPYOPT_DEFAULT, no transform, perfect/trim/grayscale/crop off, trace level 0; the extension globals are untouched |
| Switches.Err | app/src/main/cpp/ajpegtran.c:137-403 | every message the parser stores starts with "Parse error:" followed by the branch's own text |
| Switches.RegionStep | app/src/main/cpp/ajpegtran.c:171-187 | -crop/-wipe/-pixelize: without a value token it fails with "missed parameter(crop)", "(wipe)" or "(pixelize)"; with a region already set, or a spec the crop-spec parser refuses, it fails with "argument(…)"; a failure changes nothing; on success it uses two tokens, stores the parsed region, leaves every other setting alone, keeps the transform for -crop and requests Wipe or Pixelize through select_transform for -wipe and -pixelize |
| Switches.KeywordStep | app/src/main/cpp/ajpegtran.c:151-205 | -copy, -flip and -rotate: without a value token each fails with "missed parameter(copy)", "(flip)" or "(rotate)"; a failure changes nothing; a success uses two tokens and changes only the copy option (-copy) or only the transform (-flip, -rotate); a transform already chosen and the region are kept |
| Switches.NumberStep | app/src/main/cpp/ajpegtran.c:215-286 | -maxmemory and -restart: without a value token they fail with "missed parameter" and "missed parameter(restart)"; a failure changes nothing; a success uses two tokens and changes only the compression object's fields |
| Switches.OffsetStep | app/src/main/cpp/ajpegtran.c:371-388 | -offset uses five tokens on success; its only failure message is "missed parameter(offset)"; the transform options are untouched |
| Switches.FlagStep | app/src/main/cpp/ajpegtran.c:142-149 | switches without an argument use one token and leave the offsets and the region alone, and leave the chosen transform in place |
| Switches.Step | app/src/main/cpp/ajpegtran.c:134-142 | one pass uses at least one token and no more than are left; a chosen transform and a set region survive every pass |
| Switches.Action | app/src/main/cpp/ajpegtran.c:142-405 | the branch bodies: the same bounds on the tokens used and the same preservation of transform and region |
| Switches.Parse | app/src/main/cpp/ajpegtran.c:134-405 | the loop stops at the first error, and every error it reports starts with "Parse error:" |
| Switches.ParseOnePass | app/src/main/cpp/ajpegtran.c:134-405 | after one pass the loop either stops with that pass's message or goes on from the tokens after it |
| Keywords.Lower | app/src/main/cpp/ajpegtran.c:142 | ASCII upper-case letters are lower-cased and nothing else changes |
| Keywords.LowerAll | app/src/main/cpp/ajpegtran.c:142 | the argument lower-cased character by character, same length |
| Keywords.KeymatchMeans | app/src/main/cpp/ajpegtran.c:142-400 | keymatch accepts exactly the case-insensitive abbreviations of the keyword that are at least `minchars` long and no longer than the keyword |
| Keywords.AbbreviationMatches | app/src/main/cpp/ajpegtran.c:159-163 | each long-enough prefix of a lower-case keyword is accepted |
| Keywords.MatchesItself | app/src/main/cpp/ajpegtran.c:296-301 | a lower-case keyword written in full is accepted |
| Tokenize.WordLength | app/src/main/cpp/ajpegtran.c:134 | the leading run of non-space characters ends at the first space |
| Tokenize.Tokens | app/src/main/cpp/ajpegtran.c:134 | every token strtok yields is non-empty and holds no space |
| Tokenize.TokensOfJoin | app/src/main/cpp/ajpegtran.c:134 | tokens joined with spaces are split back into the same tokens |
| Scan.DigitRun | app/src/main/cpp/ajpegtran.c:226 | the digit run the conversion reads is all digits and ends at a non-digit |
| Scan.Digits | app/src/main/cpp/ajpegtran.c:226 | the printed form of a number is a non-empty run of digits |
| Scan.ScanShow | app/src/main/cpp/ajpegtran.c:226-270 | "%ld%c" on a printed number followed by a non-digit gives back the number and that character |
| Scan.ScanShown | app/src/main/cpp/ajpegtran.c:381-384 | "%d" on a printed number gives back the number |
| DispatchFacts.DispatchArithmetic | app/src/main/cpp/ajpegtran.c:142 | a name selects -arithmetic exactly when it abbreviates "arithmetic" (1 letter minimum) |
| DispatchFacts.DispatchCopy | app/src/main/cpp/ajpegtran.c:151 | -copy exactly for abbreviations of "copy" of at least 2 letters |
| DispatchFacts.DispatchCrop | app/src/main/cpp/ajpegtran.c:171 | -crop exactly for abbreviations of "crop" of at least 2 letters |
| DispatchFacts.DispatchFlip | app/src/main/cpp/ajpegtran.c:189 | -flip exactly for abbreviations of "flip" |
| DispatchFacts.DispatchGrayscale | app/src/main/cpp/ajpegtran.c:207 | -grayscale exactly for abbreviations of "grayscale" or "greyscale" |
| DispatchFacts.DispatchMaxMemory | app/src/main/cpp/ajpegtran.c:215 | -maxmemory exactly for abbreviations of "maxmemory" of at least 3 letters |
| DispatchFacts.DispatchOptimize | app/src/main/cpp/ajpegtran.c:235 | -optimize exactly for abbreviations of "optimize" or "optimise" |
| DispatchFacts.DispatchPerfect | app/src/main/cpp/ajpegtran.c:244 | -perfect exactly for abbreviations of "perfect" of at least 2 letters |
| DispatchFacts.DispatchProgressive | app/src/main/cpp/ajpegtran.c:249 | -progressive exactly for abbreviations of "progressive" of at least 2 letters |
| DispatchFacts.DispatchRestart | app/src/main/cpp/ajpegtran.c:259 | -restart exactly for abbreviations of "restart" |
| DispatchFacts.DispatchRotate | app/src/main/cpp/ajpegtran.c:288 | -rotate exactly for abbreviations of "rotate" of at least 2 letters |
| DispatchFacts.DispatchScans | app/src/main/cpp/ajpegtran.c:308 | -scans exactly for abbreviations of "scans" |
| DispatchFacts.DispatchTranspose | app/src/main/cpp/ajpegtran.c:324 | -transpose exactly for abbreviations of "transpose" |
| DispatchFacts.DispatchTransverse | app/src/main/cpp/ajpegtran.c:328 | -transverse exactly for abbreviations of "transverse" of at least 6 letters |
| DispatchFacts.DispatchTrim | app/src/main/cpp/ajpegtran.c:332 | -trim exactly for abbreviations of "trim" of at least 3 letters |
| DispatchFacts.DispatchWipe | app/src/main/cpp/ajpegtran.c:336 | -wipe exactly for abbreviations of "wipe" |
| DispatchFacts.DispatchPixelize | app/src/main/cpp/ajpegtran.c:354 | -pixelize exactly for abbreviations of "pixelize" |
| DispatchFacts.DispatchOffset | app/src/main/cpp/ajpegtran.c:371 | -offset exactly for abbreviations of "offset" of at least 3 letters |
| DispatchFacts.DispatchMonochrome | app/src/main/cpp/ajpegtran.c:389 | -monochrome exactly for abbreviations of "monochrome" of at least 4 letters |
| DispatchFacts.DispatchRmOrientation | app/src/main/cpp/ajpegtran.c:392 | -rmorientation exactly for abbreviations of "rmorientation" of at least 3 letters |
| DispatchFacts.DispatchRmThumbnail | app/src/main/cpp/ajpegtran.c:395 | -rmthumbnail exactly for abbreviations of "rmthumbnail" of at least 3 letters |
| DispatchFacts.DispatchRmGeotag | app/src/main/cpp/ajpegtran.c:398 | -rmgeotag exactly for abbreviations of "rmgeotag" of at least 3 letters |
| DispatchFacts.DispatchUnknown | app/src/main/cpp/ajpegtran.c:402-405 | a name reaches "unknown switch" exactly when it abbreviates no keyword |
| DispatchFacts.RBranches | app/src/main/cpp/ajpegtran.c:259-400 | a name starting with r can only reach restart, rotate or the three -rm switches, in that order |
| DispatchFacts.RmBranches | app/src/main/cpp/ajpegtran.c:392-400 | a name starting with rm can only reach the three -rm switches |
| DispatchFacts.ShortTranspose | app/src/main/cpp/ajpegtran.c:324 | "-t" is transpose |
| DispatchFacts.ShortRestart | app/src/main/cpp/ajpegtran.c:259 | "-r" is restart |
| DispatchFacts.ShortRotate | app/src/main/cpp/ajpegtran.c:288 | "-ro" is rotate |
| DispatchFacts.ShortC | app/src/main/cpp/ajpegtran.c:151-171 | "-c" is an unknown switch, because -copy and -crop need two letters |
| DispatchFacts.ShortM | app/src/main/cpp/ajpegtran.c:215 | "-m" is an unknown switch, because -maxmemory needs three letters and -monochrome four |
| SwitchFacts.NotASwitchStops | app/src/main/cpp/ajpegtran.c:135-139 | a token not starting with '-' stops the parse with "Parse error:file name exist?", the settings unchanged |
| SwitchFacts.UnknownSwitchStops | app/src/main/cpp/ajpegtran.c:402-405 | an unknown name stops the parse with "Parse error:unknown switch", the settings unchanged |
| SwitchFacts.OnlySpaces | app/src/main/cpp/ajpegtran.c:134 | a string of spaces yields no token |
| SwitchFacts.BlankOptionsGiveDefaults | app/src/main/cpp/ajpegtran.c:122-134 | an empty or all-space option string succeeds with exactly the defaults |
| SwitchFacts.ParseKeepsTransform | app/src/main/cpp/ajpegtran.c:83-98 | once a transform is chosen, no later switch changes it, whether or not the parse fails |
| SwitchFacts.RotateNinety | app/src/main/cpp/ajpegtran.c:288-297 | "-rotate 90" requests a 90-degree rotation and uses two tokens |
| SwitchFacts.MissingValueStops | app/src/main/cpp/ajpegtran.c:151-379 | every switch that takes a value, given as the last token, stops the parse with its own "missed parameter" message and changes nothing |
| SwitchFacts.CopyValues | app/src/main/cpp/ajpegtran.c:151-169 | -copy stores none, comments or all for an abbreviation of that word, in either case; anything else fails with "unknown parameter(copy)" |
| SwitchFacts.FlipValues | app/src/main/cpp/ajpegtran.c:189-205 | -flip requests FlipH or FlipV for an abbreviation of horizontal or vertical; anything else fails with "argument(flip)" |
| SwitchFacts.RotateValues | app/src/main/cpp/ajpegtran.c:288-306 | -rotate requests a rotation for exactly "90", "180" or "270"; anything else fails with "argument(rotate)" |
| SwitchFacts.DigitsOnly | app/src/main/cpp/ajpegtran.c:296-301 | keymatch with a digit keyword and minchars equal to its length accepts exactly that keyword |
| SwitchFacts.FlipHorizontal | app/src/main/cpp/ajpegtran.c:189-198 | "-flip h…" requests a horizontal mirror and uses two tokens |
| SwitchFacts.FirstTransformWins | app/src/main/cpp/ajpegtran.c:83-98 | "-rotate 90 -flip horizontal" succeeds and rotates |
| SwitchFacts.ParseKeepsRegion | app/src/main/cpp/ajpegtran.c:179-182 | once a region has parsed it never changes again |
| SwitchFacts.SecondRegionRejected | app/src/main/cpp/ajpegtran.c:179-182 | a further -crop/-wipe/-pixelize with an argument fails with its own "argument(...)" message, the settings unchanged |
| SwitchFacts.CropAndRotate | app/src/main/cpp/ajpegtran.c:171-187 | -crop does not choose a transform, so "-crop S -rotate 90" both crops and rotates |
| SwitchFacts.RestartRows | app/src/main/cpp/ajpegtran.c:259-286 | "-restart N" succeeds exactly when 0 <= N <= 65535 and then sets only restart_in_rows = N; otherwise it fails with "argument(restart)" |
| SwitchFacts.RestartBlocks | app/src/main/cpp/ajpegtran.c:259-286 | "-restart Nb" sets restart_interval = N and restart_in_rows = 0, for the same range |
| SwitchFacts.MaxMemory | app/src/main/cpp/ajpegtran.c:215-233 | "-maxmemory N" stores N*1000, with no range check |
| SwitchFacts.MaxMemoryMegabytes | app/src/main/cpp/ajpegtran.c:215-233 | "-maxmemory Nm" stores N*1000*1000 |
| SwitchFacts.OffsetNeedsFour | app/src/main/cpp/ajpegtran.c:371-379 | -offset with fewer than four tokens after it fails with "missed parameter(offset)", the settings (coeff_adj included) unchanged |
| SwitchFacts.OffsetFailureKeepsAdj | app/src/main/cpp/ajpegtran.c:381-387 | a failing conversion leaves coeff_adj as it was; success sets it |
| SwitchFacts.OffsetSetsAdjOnlyOnSuccess | app/src/main/cpp/ajpegtran.c:371-388 | for any four tokens, -offset sets coeff_adj exactly when it succeeds |
| SwitchFacts.OffsetStepStores | app/src/main/cpp/ajpegtran.c:381-387 | when every remaining value converts, each is stored in its own slot and coeff_adj is set |
| SwitchFacts.OffsetShownValues | app/src/main/cpp/ajpegtran.c:381-387 | four printed numbers are stored in coeff_offset[0..3] |
| SwitchFacts.OffsetValues | app/src/main/cpp/ajpegtran.c:371-388 | "-offset a b c d" with decimal values stores [a, b, c, d] and sets coeff_adj |
| Coefficients.Wrap16 | app/src/main/cpp/ajpegtran.c:489 | a sum stored in a JCOEF is kept when it fits in 16 bits and is otherwise congruent to it modulo 2^16 |
| Coefficients.RowsFrom | app/src/main/cpp/ajpegtran.c:449 | where the blk_y loop ends: at or past height_in_blocks, less than one stride past it |
| Coefficients.Rows | app/src/main/cpp/ajpegtran.c:449 | the rows touched are at least height_in_blocks and fewer than height_in_blocks + v_samp_factor |
| Coefficients.RowsRoundUp | app/src/main/cpp/ajpegtran.c:449 | the rows touched are also a whole number of v_samp_factor passes, so height_in_blocks rounded up |
| Coefficients.ZeroComponent | app/src/main/cpp/ajpegtran.c:449-457 | every coefficient of the first width_in_blocks blocks of each touched row is 0, and nothing else changes |
| Coefficients.ToMonochrome | app/src/main/cpp/ajpegtran.c:438-460 | every touched coefficient of components 1 and up is 0; component 0 and untouched blocks keep their values |
| Coefficients.OffsetComponent | app/src/main/cpp/ajpegtran.c:482-493 | coefficient 0 of every touched block gains the offset, wrapped to 16 bits; coefficients 1..63 are unchanged |
| Coefficients.OffsetReadsExactly | app/src/main/cpp/ajpegtran.c:478-480 | the component loop reads each index from ci up to both the component count and the break limit, in order, once each |
| Coefficients.AsWrittenReadsPastOffsets | app/src/main/cpp/ajpegtran.c:479 | with the break at ci > 4, a fifth component makes the loop read coeff_offset[4], past the 4-element array |
| Coefficients.CorrectedReadsInsideOffsets | app/src/main/cpp/ajpegtran.c:479 | with the break at ci > 3, the loop reads exactly the slots of the components present, all inside the array |
| Coefficients.BrightnessControl | app/src/main/cpp/ajpegtran.c:469-496 | for each of the first four components whose offset is non-zero, coefficient 0 of every touched block gains it; all other coefficients are unchanged, so all-zero offsets change nothing; the components whose offset it reads are exactly OffsetReads with the break limit 3 |
| Coefficients.OffsetUndone | app/src/main/cpp/ajpegtran.c:489 | adding an offset and then its negation restores every coefficient, wrap-around included |
| Probe.MaxOf | app/src/main/cpp/ajpegtran.c:764-769 | the largest element is an element, and no element is larger |
| Probe.MaxSampling | app/src/main/cpp/ajpegtran.c:763-769 | the loop yields the largest h and v sampling factors over all components |
| Probe.MetadataMeans | app/src/main/cpp/ajpegtran.c:759-800 | the zero-component check comes first and the short-array check only applies when there are components; otherwise ten slots: the size, the component count, the largest sampling factors, the colour space and the DC quantizer of each of the first four components (0 when a component is absent) |
| Probe.FillMetadata | app/src/main/cpp/ajpegtran.c:755-802 | on an error nothing is written; otherwise the first ten slots hold the metadata and the rest of the array is untouched |
| Probe.HeadCleanup | app/src/main/cpp/ajpegtran.c:812-813 | the descriptor is closed exactly when it is not -1, then the object is destroyed |
| Probe.ProbeClosesOnce | app/src/main/cpp/ajpegtran.c:734-813 | a real descriptor is closed exactly once on every path, after the source was set on it |
| Probe.ProbeOkExactly | app/src/main/cpp/ajpegtran.c:718-817 | "OK" comes back exactly when every codec call completed and the metadata was written, and the slots are reported exactly then |
| Pipeline.Failure | app/src/main/cpp/ajpegtran.c:605-608 | the calls that cannot fail never end the run; a workspace refusal ends it with the -perfect message |
| Pipeline.Run | app/src/main/cpp/ajpegtran.c:547-675 | a run with no failure made every call; a failing run made a prefix of the list and its last call is the one that failed |
| Pipeline.Reply | app/src/main/cpp/ajpegtran.c:684-687 | the returned string is never empty: errmsgbuffer when set, else "Unknown Error" |
| Pipeline.Cleanup | app/src/main/cpp/ajpegtran.c:679-682 | both objects are destroyed, and each descriptor is closed exactly when it is not -1 |
| Pipeline.Entry | app/src/main/cpp/ajpegtran.c:533-538 | monochrome, coeff_adj and the four offsets are cleared on entry; the other globals are kept |
| Pipeline.CheckedParse | app/src/main/cpp/ajpegtran.c:569-580 | the option string is parsed exactly when it is not NULL and shorter than the 256-byte buffer |
| PipelineFacts.CreateFailure | app/src/main/cpp/ajpegtran.c:547-553 | when jpeg_create_decompress fails the run ends at once with its message; the cleanup then calls jpeg_destroy_compress on an object jpeg_create_compress never set up, and closes both descriptors |
| PipelineFacts.UncreatedDestroyed | app/src/main/cpp/ajpegtran.c:547-553 | the calls of that run hold jpeg_destroy_compress but not jpeg_create_compress |
| PipelineFacts.ArgumentErrorBeforeParse | app/src/main/cpp/ajpegtran.c:570-574 | a NULL or too long option string gives "Argument error" after the two create calls, and nothing is parsed or decoded |
| PipelineFacts.ParseErrorReturned | app/src/main/cpp/ajpegtran.c:576-580 | a parse error is returned as it is, and no decoding starts |
| PipelineFacts.RunStopsAt | app/src/main/cpp/ajpegtran.c:547-675 | the run stops at the first call that fails, with its message |
| PipelineFacts.RunClean | app/src/main/cpp/ajpegtran.c:547-675 | when no call fails, every call is made |
| PipelineFacts.RunConcat | app/src/main/cpp/ajpegtran.c:547-675 | a second list of steps runs only when the first completed |
| PipelineFacts.BodyPhases | app/src/main/cpp/ajpegtran.c:582-666 | the body is read input, edits, hand-over and encode, in that order; the edits cannot fail; only the hand-over closes rfd |
| PipelineFacts.RunPhases | app/src/main/cpp/ajpegtran.c:582-666 | each phase of the body runs only when the one before completed; rfd is closed exactly when reading and the hand-over both complete |
| PipelineFacts.DecodePhases | app/src/main/cpp/ajpegtran.c:582-646 | the decompression half completes exactly when reading and the hand-over complete |
| PipelineFacts.BodyHalves | app/src/main/cpp/ajpegtran.c:582-666 | compression runs only after decompression completed, and rfd is closed exactly then |
| PipelineFacts.PerfectRefusedStops | app/src/main/cpp/ajpegtran.c:603-608 | when -perfect cannot be honoured, the body stops at jtransform_request_workspace with the refusal message, before the coefficients are read or rfd is closed |
| PipelineFacts.StoppedInBody | app/src/main/cpp/ajpegtran.c:547-687 | a body that stops early returns the failing call's message after the cleanup |
| PipelineFacts.Shape | app/src/main/cpp/ajpegtran.c:547-682 | every run is the create calls, then a prefix of the body (empty unless creation and the parse succeeded), then the cleanup, which closes rfd only if the body did not |
| PipelineFacts.OrderedBody | app/src/main/cpp/ajpegtran.c:612-622 | in the body, monochrome comes before the offset and both come after jpeg_read_coefficients |
| PipelineFacts.EditsInOrder | app/src/main/cpp/ajpegtran.c:612-622 | the same on every path of the entry point |
| PipelineFacts.DecodeEndsWithClose | app/src/main/cpp/ajpegtran.c:645 | the decompression half ends with close(rfd) and closes nothing before it |
| PipelineFacts.EncodeClosesNothing | app/src/main/cpp/ajpegtran.c:649-666 | the compression half closes no descriptor |
| PipelineFacts.BodyCloses | app/src/main/cpp/ajpegtran.c:645-646 | the body closes rfd once, as the last call of decompression, and never closes wfd |
| PipelineFacts.CleanupCloses | app/src/main/cpp/ajpegtran.c:681-682 | the cleanup closes wfd once, and rfd once unless rfd is already -1 |
| PipelineFacts.EachDescriptorClosedOnce | app/src/main/cpp/ajpegtran.c:645-682 | with two real, different descriptors, each is closed exactly once on every path |
| PipelineFacts.DecodeCloses | app/src/main/cpp/ajpegtran.c:582-646 | the decompression half closes the input exactly once |
| PipelineFacts.LateAbortBody | app/src/main/cpp/ajpegtran.c:645-666 | when the compression half aborts, the body stops with that abort having closed the input once |
| PipelineFacts.RestoredAfterAbort | app/src/main/cpp/ajpegtran.c:547-682 | as written, after any abort in the body the cleanup sees the original rfd |
| PipelineFacts.ClosesAfterBody | app/src/main/cpp/ajpegtran.c:679-682 | a run whose body closed the input once closes it twice when the cleanup sees rfd, once when it sees -1 |
| PipelineFacts.AsWrittenClosesInputTwice | app/src/main/cpp/ajpegtran.c:646-681 | as written, any abort after close(rfd) makes the cleanup close the input a second time |
| PipelineFacts.WriteErrorClosesInputTwice | app/src/main/cpp/ajpegtran.c:646-681 | a write error in jpeg_finish_compress closes the input twice as written and once with the store kept |
| PipelineFacts.ShapeCloses | app/src/main/cpp/ajpegtran.c:645-682 | the same for any run of the shape every run has |
| PipelineFacts.BodyUses | app/src/main/cpp/ajpegtran.c:591-649 | in the body the source is set on rfd before rfd is closed, and wfd is never closed |
| PipelineFacts.CleanupUses | app/src/main/cpp/ajpegtran.c:679-682 | the cleanup closes rfd before wfd and sets up neither |
| PipelineFacts.NoUseAfterClose | app/src/main/cpp/ajpegtran.c:591-682 | on every path the source is set before rfd is closed, rfd is closed before wfd, and the destination is set before wfd is closed |
| PipelineFacts.RunCleanBefore | app/src/main/cpp/ajpegtran.c:547-675 | every call made before the failing one completed |
| PipelineFacts.NeverOk | app/src/main/cpp/ajpegtran.c:684-687 | a failing call never leaves "OK" as the reply |
| PipelineFacts.OkExactlyWhenAllCompleted | app/src/main/cpp/ajpegtran.c:674-687 | "OK" comes back exactly when the options were accepted and no call failed, provided no codec message and no parse message is itself "OK" |
| PipelineFacts.OkExactlyAtEntry | app/src/main/cpp/ajpegtran.c:533-687 | the same at the entry point, where a parse error never reads "OK" |
| PipelineFacts.CompletedRun | app/src/main/cpp/ajpegtran.c:582-687 | a run that completes makes every call of the body in order, closes only wfd in the cleanup, and returns "OK" |
| PipelineFacts.ReadInBody | app/src/main/cpp/ajpegtran.c:612 | reading the input completes exactly when jpeg_read_coefficients is called and returns |
| PipelineFacts.ReadExactlyWhenMade | app/src/main/cpp/ajpegtran.c:612-622 | the edits happen exactly when the calls include a jpeg_read_coefficients that returned |
| PipelineFacts.SessionSteps | app/src/main/cpp/ajpegtran.c:547-687 | a session is the create calls, then what the setjmp block did after them, then the cleanup and the reply |
| Ajpegtran.Library.constructor | app/src/main/cpp/ajpegtran.c:78-80 | the library as loaded: zeroed globals, no call made, errmsgbuffer empty |
| Ajpegtran.Library.Store | app/src/main/cpp/ajpegtran.c:78-80 | writing a Settings value into the globals makes them read back as that value |
| Ajpegtran.Library.ParseSwitches | app/src/main/cpp/ajpegtran.c:105-427 | the globals end as ParseOptions computes; the result is 1 exactly when there was no error; the error's message is left in errmsgbuffer |
| Ajpegtran.Library.Pass | app/src/main/cpp/ajpegtran.c:134-405 | one pass stores its settings; on failure errmsgbuffer holds the message that ends the parse; otherwise the parse goes on from the next switch |
| Ajpegtran.Library.NextSwitch | app/src/main/cpp/ajpegtran.c:134-405 | the step for the switch at hand, and the index where the next switch starts |
| Ajpegtran.Library.Exec | app/src/main/cpp/ajpegtran.c:547-675 | one codec call is logged; when it fails its message goes to errmsgbuffer (the longjmp) |
| Ajpegtran.Library.Transcode | app/src/main/cpp/ajpegtran.c:504-688 | the calls made and the string returned are those of Pipeline.Transcode; the coefficient arrays are edited exactly when jpeg_read_coefficients returned |
| Ajpegtran.Library.Session | app/src/main/cpp/ajpegtran.c:547-687 | the same for the setjmp block and the cleanup, once the globals are cleared |
| Ajpegtran.Library.SetjmpBlock | app/src/main/cpp/ajpegtran.c:547-678 | the create calls, then the option check, the parse and the body, as Progress describes |
| Ajpegtran.Library.Clear | app/src/main/cpp/ajpegtran.c:533-539 | monochrome, coeff_adj, coeff_offset and errmsgbuffer are cleared |
| Ajpegtran.Library.Create | app/src/main/cpp/ajpegtran.c:550-553 | jpeg_create_decompress, then jpeg_create_compress, stopping at a failure |
| Ajpegtran.Library.Attempt | app/src/main/cpp/ajpegtran.c:569-674 | "Argument error" without parsing for NULL or too long options; a parse error left as it is; otherwise the body runs, and "OK" when it completes |
| Ajpegtran.Library.CloseAll | app/src/main/cpp/ajpegtran.c:679-682 | the cleanup calls are logged |
| Ajpegtran.Library.TranscodeBody | app/src/main/cpp/ajpegtran.c:582-666 | the body's calls, its failure, and rfd as -1 once it has been closed |
| Ajpegtran.Library.DecodeHalf | app/src/main/cpp/ajpegtran.c:582-646 | the decompression half; rfd is -1 exactly when it completed |
| Ajpegtran.Library.ReadInput | app/src/main/cpp/ajpegtran.c:582-612 | from copying the limits to jpeg_read_coefficients |
| Ajpegtran.Library.SetUpSource | app/src/main/cpp/ajpegtran.c:582-594 | the limits copied, jpeg_stdio_src, jcopy_markers_setup |
| Ajpegtran.Library.ReadImage | app/src/main/cpp/ajpegtran.c:597-612 | jpeg_read_header, jtransform_request_workspace, jpeg_read_coefficients |
| Ajpegtran.Library.ApplyEdits | app/src/main/cpp/ajpegtran.c:614-622 | toMonochrome when monochrome is set, then brightnessControl when coeff_adj is set; every coefficient ends as Edited says |
| Ajpegtran.Library.HandOver | app/src/main/cpp/ajpegtran.c:625-646 | jpeg_copy_critical_parameters, jtransform_adjust_parameters, close(rfd); rfd becomes -1 |
| Ajpegtran.Library.WriteOutput | app/src/main/cpp/ajpegtran.c:649-666 | the compression half |
| Ajpegtran.Library.SetUpDest | app/src/main/cpp/ajpegtran.c:649-655 | jpeg_stdio_dest, jpeg_write_coefficients, jcopy_markers_execute |
| Ajpegtran.Library.FinishWork | app/src/main/cpp/ajpegtran.c:658-666 | jtransform_execute_transformation, jpeg_finish_compress, jpeg_finish_decompress |
| Ajpegtran.Library.ProbeHead | app/src/main/cpp/ajpegtran.c:696-818 | the calls made, the string returned and the array written are those of Probe.ProbeHead |
| Ajpegtran.Library.ProbeBlock | app/src/main/cpp/ajpegtran.c:718-811 | the probe's setjmp block, as HeadBlock describes |
| Ajpegtran.Library.Report | app/src/main/cpp/ajpegtran.c:755-807 | the metadata block, then "OK" in errmsgbuffer when it completes |
| Ajpegtran.Library.ReadHead | app/src/main/cpp/ajpegtran.c:715-741 | the probe's calls up to jpeg_read_header, with copyoption reset to the default before the markers are set up |
| Ajpegtran.Library.OpenHead | app/src/main/cpp/ajpegtran.c:720-734 | jpeg_create_decompress, the limits cleared, jpeg_stdio_src |
| Ajpegtran.Library.ReadMarkersAndHeader | app/src/main/cpp/ajpegtran.c:737-741 | jcopy_markers_setup with the default option, then jpeg_read_header |

## Left out

- JNI is not modelled: GetStringUTFChars, ReleaseStringUTFChars, GetIntArrayElements, GetArrayLength and NewStringUTF.
  - The option string arrives as `Option<string>`, with None standing for NULL.
  - The probe's result array is a Dafny `array<int>`.
  - The returned string is a value.
- `errno`, LOGD logging and the PROGRESS_REPORT code are not modelled, because they do not affect the outcome.
- The libjpeg, transupp and cdjpeg calls are oracles (`Pipeline.Codec`): each call completes, is refused, or aborts with a message. What they do to the image is not modelled.
  - The error_exit handler is not shown. It is taken to store a message in errmsgbuffer and longjmp.
  - `setjmp` and `longjmp` become an early return. Stores made inside the setjmp block survive it, as they would for `volatile` variables; for the non-volatile `rfd` this is the corrected code (see Findings).
- The two edits, `close()` and the destroy calls are taken to always succeed.
- `coefs` stands for the arrays jpeg_read_coefficients returns. `dst0` stands for the fields that jpeg_create_compress leaves in the compression object.
- `jtransform_parse_crop_spec` is a function parameter (`Switches.Env.parseCropSpec`) that gives the region on success.
  - The partial fields it writes on failure are not modelled. The run ends there anyway.
- The C_ARITH_CODING_SUPPORTED and ENTROPY_OPT_SUPPORTED macros are a parameter (`Switches.Build`).
- The TRANSFORMS_SUPPORTED `#else` branches are not modelled, because the build guard makes them dead code.
- The `-progressive` and `-scans` branches are always errors in this build, and are modelled that way.
- The `for_real` block at the end of parse_switches is not modelled, because its only caller passes FALSE.
- Pipeline.CheckedParse: the option string stands for the modified UTF-8 bytes that GetStringUTFChars returns, one `char` per byte. The 256 limit is on `strlen` of those bytes, so a Java string of fewer than 256 non-ASCII characters can still be refused. The UTF-8 encoding itself is not modelled.
- PipelineFacts.NoUseAfterClose: jpeg_finish_decompress runs on the source object after close(rfd), in the source as in the model. The model takes it not to read from rfd, as the comment before the close assumes (all input was consumed by jpeg_read_coefficients). No lemma states that rfd is unused after its close.
- PipelineFacts.CreateFailure: when jpeg_create_decompress aborts, the cleanup destroys `dstinfo`, whose fields were never set. That is undefined behaviour in C. The model logs the call as made and taken to succeed; it does not model what the destroy does to an uninitialised object.
- PipelineFacts.EachDescriptorClosedOnce: it holds for `Pipeline.Session`, where `rfd = -1` survives a longjmp (rfd as if `volatile`). As written, rfd's value after a longjmp is indeterminate, and the input can be closed twice (see Findings).
- PipelineFacts.ShapeCloses: its premise on `r` is that the `rfd = -1` store survives a longjmp, as in `Pipeline.Session`.
- PipelineFacts.StoppedInBody: the cleanup gets -1 for rfd after an abort that follows close(rfd); that is the corrected, `volatile` reading (see Findings). RestoredAfterAbort states the as-written worst case.
- PipelineFacts.Shape: "the cleanup closes rfd only if the body did not" is the corrected, `volatile` reading of rfd after a longjmp (see Findings).
- PipelineFacts.SessionSteps: Progress gives rfd as -1 after the close even when a longjmp follows; the corrected, `volatile` reading (see Findings).
- Ajpegtran.Library.Transcode: equal to `Pipeline.Transcode`, so it keeps the `rfd = -1` store across a longjmp, the corrected reading (see Findings).
- Ajpegtran.Library.Session: the field holding rfd keeps -1 after a late abort; the corrected, `volatile` reading (see Findings).
- Ajpegtran.Library.SetjmpBlock: the rfd it returns is the one stored last, even after an abort; the corrected, `volatile` reading (see Findings).
- Switches.NumberStep: -maxmemory and -restart use unbounded integers. The long overflow of `lval*1000` and of the conversion itself is not modelled.
- Scan.ScanShow: the "%ld%c" and "%d" conversions skip leading whitespace in C. Tokens never hold a space, but they can hold a tab or newline, and the model does not skip those. Overflow of the conversion is not modelled either.
- Switches.OffsetStep: a value that overflows `int` in "%d" is not modelled.
- Keywords.Keymatch: keymatch is in cdjpeg.c, which is not part of this model. It is modelled on the IJG definition.
- Probe.TablesPresent: the probe dereferences `quant_tbl_ptrs[quant_tbl_no]` unchecked. The model requires that these tables exist instead of modelling a crash.
  - The requirement is placed on every header given to the probe. That includes the paths where the tables are never read: zero components, a short array, or a codec abort before the metadata block. Those paths are modelled only for headers whose tables exist.
- Probe.FillMetadata: slots 6 to 9 are cleared and then set when the component exists. The model writes each slot once, with the same final contents.
- Coefficients.BrightnessControl: it models the loop with the corrected break at `ci > 3`, not the written `ci > 4`. See Findings.
- Ajpegtran.Library.Attempt: it requires the extension globals to be already cleared, as Clear leaves them. It is only called after Clear.

## Findings

| source | as written | input that shows it | evidently intended | confidence | as-written member | corrected member |
|---|---|---|---|---|---|---|
| app/src/main/cpp/ajpegtran.c:646 | `rfd = -1;` is stored after the setjmp into the non-volatile parameter `rfd`; after a later longjmp its value is indeterminate (section 7.13.2.1 of ISO C11), and the cleanup at line 681 can see the original descriptor and close it again | jpeg_finish_compress aborting on a write error to wfd, with rfd held in a register the longjmp restores | rfd declared `volatile` (or kept in a variable not changed after setjmp), so the cleanup closes only what is still open | not executed | PipelineFacts.WriteErrorClosesInputTwice | PipelineFacts.EachDescriptorClosedOnce |
| app/src/main/cpp/ajpegtran.c:479 | `if (ci>4) break;` lets the loop reach ci == 4 and read coeff_offset[4], one past the 4-element array declared at line 79 | a JPEG with five or more components (libjpeg allows up to 10) processed with `-offset` | break once ci > 3, so that only coeff_offset[0..3] is read | not executed | Coefficients.AsWrittenReadsPastOffsets | Coefficients.CorrectedReadsInsideOffsets |
