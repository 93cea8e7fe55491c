# AiMusic-AutoSpot in Dafny

AiMusic-AutoSpot cuts a recorded voice ("ham" audio) into radio spots. It
detects the speech ranges in the recording, merges close ranges, and keeps
those of at least one second. For each range it builds a background from a
music bed ("fon"): an eased intro, a ducked body under the voice, and either
a musical fade-out or an ending sting. It overlays the voice, compresses and
masters the mix, and exports one numbered file per spot. The main window
batches this over several voice files and numbers all spots consecutively.
It also archives the outputs into a zip named after the output folder.
Around this sit:

- the settings store (dotted-key JSON access and file loading);
- the preset browser, which chooses background or ending music under a
  one-spot rule and lists the files in natural order;
- the formatter of release notes.

The model describes audio as one level per millisecond:
`Clip = seq<Level>`, where `Level` is `Silence` or `Db(x)`. Length in
milliseconds, peak level, gain, slicing, repetition and concatenation are
exact on that model. The audio libraries the program calls (decoding,
speech detection, beat and RMS analysis, the compressor, the S-curve, the
overlay's sample mixing) and the outside world (file system facts, random
draws, the cancellation flag, JSON text) are parameters of the functions
that use them. Python semantics are written out where they matter:

- `int()` on a float truncates (`Common.Trunc`);
- slices clamp their bounds (`Common.PySlice`);
- `str.split`, `strip`, `replace`, `lower` and `os.path` have their own
  definitions in `Text` and `Paths`; the regular expressions are written
  out where they are used: `re.split(r'(\d+)')` as `Presets.DigitRuns`, and
  the timestamp `re.search`/`re.sub` as `Batch.FirstTimestamp` and
  `Batch.StripTimestamp`;
- Python's `sorted` is an insertion sort in `Sorting`, under a total
  preorder.

Modules, following the program:

| module | models |
|---|---|
| `Common`, `Text`, `Paths`, `Sorting` | the Python built-ins the core relies on |
| `Audio` | the millisecond level model of an `AudioSegment` |
| `Effects` | `src/audio/effects.py`: normalisation and gain ramps |
| `Analyzer` | `src/audio/analyzer.py`: merging close segments, speech analysis |
| `Mixer` | `src/audio/mixer.py`: the musical outro point |
| `Processor` | `src/audio/processor.py`: `ses_montaj`, spot by spot |
| `FileUtils` | `src/utils/file_utils.py`: path display, file validation |
| `Config` | `src/utils/config.py`: the settings store |
| `Presets` | `src/gui/components/preset_browser.py`: selection logic, natural sort |
| `ReleaseNotes` | `src/gui/components/update_modal.py`: `_format_release_notes` |
| `Batch` | `src/gui/main_window.py`: file selection, batch montage, outcome, zip path |

## Model

| member | source | states |
|---|---|---|
| Audio.Peak | src/audio/processor.py:134 | `max_dBFS` is a level no millisecond exceeds, attained by some millisecond unless the clip is silent |
| Audio.ApplyGain | src/audio/processor.py:342 | `apply_gain` keeps the length and shifts every audible millisecond by the gain, leaving silence silent |
| Audio.Silent | src/audio/processor.py:292-295 | `AudioSegment.silent(d)` is `max(0, d)` milliseconds of silence |
| Audio.Repeat | src/audio/processor.py:201-202 | `fon * n` has `n` times the length and millisecond `k` is the original's millisecond `k mod len(fon)`, so it starts with the original and holds only its levels |
| Audio.Slice | src/audio/processor.py:186 | a slice inside the bounds is exactly that part, and no slice is longer than the clip |
| Audio.PeakConcat | src/audio/processor.py:310-333 | the peak of appended clips is the larger of their peaks |
| Audio.PeakGain | src/audio/processor.py:386-388 | a constant gain moves the peak by exactly that gain |
| Audio.GainGain | src/audio/processor.py:242-246 | two gains in a row are one gain of their sum |
| Effects.NormalizeInMemory | src/audio/effects.py:13-41 | a silent or empty clip, or one within 0.1 dB of -0.1 dBFS, is returned unchanged; any other peak lands on exactly -0.1 dBFS; the result is always one uniform gain of the input and peaks within 0.1 dB of -0.1 |
| Effects.NormalizeIdempotent | src/audio/effects.py:13-41 | normalising a normalised clip changes nothing |
| Effects.CurveNamed | src/audio/effects.py:119-128 | "linear", "ease_out" and "ease_in_out" select their curves and every other name selects ease-in |
| Effects.CurveShape | src/audio/effects.py:119-128 | the polynomial curves map 0 to 0 and 1 to 1, stay within [0, 1] and never decrease |
| Effects.Clamp01 | src/audio/effects.py:135 | `np.clip(x, 0, 1)` lies in [0, 1], is `x` inside it and the nearest bound outside it |
| Effects.StepCount | src/audio/effects.py:69 | `max(1, total // step)` is at least one, the quotient when the step fits, else one |
| Effects.RampPlan | src/audio/effects.py:72-77 | the loop visits `steps` slices from `i * step` to the next start, the last one running to the end |
| Effects.RampPlanTiles | src/audio/effects.py:72-74 | the slices tile the whole segment left to right without gap or overlap, and each millisecond lies in the slice its index names |
| Effects.ApplyPlanContents | src/audio/effects.py:70-79 | appending the gained slices gives a clip of the segment's length in which each millisecond carries its own slice's gain |
| Effects.EasedGainRamp | src/audio/effects.py:84-142 | an empty segment, equal gains or a zero step give one constant gain; otherwise the output has the input's length and each millisecond gets the eased gain of its slice's midpoint |
| Effects.LinearGainRamp | src/audio/effects.py:43-82 | the linear ramp keeps the length and gives each millisecond the straight-line gain of its slice's midpoint |
| Effects.LinearIsEasedLinear | src/audio/effects.py:43-82 | the linear ramp is the eased ramp with the linear curve and the linear default step |
| Effects.MidpointOrder | src/audio/effects.py:75 | slice midpoints lie strictly inside (0, 1) and grow with the slice index |
| Effects.EasedGainsBetweenAndMonotone | src/audio/effects.py:130-137 | every slice gain lies between the start and end gains, and with a polynomial curve the gains move monotonically from start to end |
| Effects.GainAlongCurve | src/audio/effects.py:135-136 | the gain at any eased time lies between the two end gains and moves toward the end gain as time grows |
| Effects.EasedRampMonotoneInTime | src/audio/effects.py:130-137 | a later millisecond never gets a gain further from the end gain than an earlier one |
| Effects.EasedRampGains | src/audio/effects.py:84-142 | each millisecond of the eased ramp is its input moved by one gain between the start and end gains, and with a polynomial curve a later millisecond's gain is never further from the end gain |
| Analyzer.StartLeIsTotalPreorder | src/audio/analyzer.py:33 | ordering by start only is a total preorder, so the sort is well defined |
| Analyzer.MergeRun | src/audio/analyzer.py:35-44 | the merge loop emits at least one and at most one range more than the tail, the first beginning at the open run's start |
| Analyzer.MergeRunSeparated | src/audio/analyzer.py:37-44 | on a sorted tail each emitted range starts more than `max_gap` after every earlier one ends |
| Analyzer.MergeRunStarts | src/audio/analyzer.py:38-42 | every emitted range starts where the open run or some input range starts |
| Analyzer.MergeRunEnds | src/audio/analyzer.py:38-42 | every emitted range ends where the open run or some input range ends |
| Analyzer.MergeRunCovers | src/audio/analyzer.py:37-44 | every range of the sorted tail lies inside some emitted range |
| Analyzer.SortedByStart | src/audio/analyzer.py:33 | the sort is a permutation of the input with non-decreasing starts |
| Analyzer.MergeCloseSegments | src/audio/analyzer.py:13-45 | no input gives no output, the output is never longer than the input, and its ranges are ordered with gaps above `max_gap` (1400 ms by default) |
| Analyzer.MergeCovers | src/audio/analyzer.py:13-45 | every input range lies inside some merged range |
| Analyzer.MergeFromInputs | src/audio/analyzer.py:13-45 | every merged range starts at some input start and ends at some input end |
| Analyzer.MergeIdempotent | src/audio/analyzer.py:13-45 | merging merged ranges again changes nothing |
| Analyzer.MergeRunOnSeparated | src/audio/analyzer.py:37-44 | the merge loop leaves already separated ranges as they are |
| Analyzer.OverlappingShareOutput | src/audio/analyzer.py:13-45 | an input range that starts inside another, or no more than the gap after its end, ends up inside the same merged range as it |
| Analyzer.KeepValid | src/audio/analyzer.py:82-86 | the filter keeps exactly the ranges of at least 1000 ms |
| Analyzer.KeepValidConcat | src/audio/analyzer.py:82-86 | filtering a concatenation filters each part |
| Analyzer.KeepValidSeparated | src/audio/analyzer.py:82-86 | dropping short ranges keeps the survivors separated |
| Analyzer.AnalyzeAudioSegments | src/audio/analyzer.py:47-96 | a load failure is re-raised; otherwise every range returned is at least 1000 ms, the ranges are separated by more than the gap, every detected range of at least 1000 ms lies inside a returned one, and the returned ranges are exactly the merged ranges of at least 1000 ms |
| Mixer.RealLeIsTotalPreorder | src/audio/mixer.py:69-72 | `<=` on times is a total preorder, so the candidates can be sorted |
| Mixer.Ascending | src/audio/mixer.py:61 | the sorted values are a non-decreasing permutation of the input |
| Mixer.Median | src/audio/mixer.py:61 | `np.median` is absent only for no values, otherwise it is at least the lower half and at most the upper half of the sorted values |
| Mixer.Diff | src/audio/mixer.py:84 | `np.diff` gives one difference per neighbouring pair |
| Mixer.LowEnergyTimes | src/audio/mixer.py:54-62 | the low-energy times are exactly the times of frames whose RMS is below the threshold |
| Mixer.After | src/audio/mixer.py:69-72 | the filter keeps exactly the values after the target start |
| Mixer.AfterNothing | src/audio/mixer.py:69-72 | nothing is kept when every value lies at or before the target start |
| Mixer.Least | src/audio/mixer.py:69-80 | `sorted(set(...))[0]` is a candidate no greater than any other |
| Mixer.Candidates | src/audio/mixer.py:64-72 | the candidates are exactly the beats and quiet-frame times more than 4000 ms after the speech end |
| Mixer.OneMeasure | src/audio/mixer.py:82-87 | with more than four beats a measure is four median beat intervals, else 2500 ms |
| Mixer.FindMusicalOutroPoint | src/audio/mixer.py:12-103 | a failed analysis or a non-positive rate gives start + 7000 ms; otherwise the point never passes the music's end and, when the music lasts long enough, leaves at least 5000 ms after the start |
| Mixer.MusicalEndingChosen | src/audio/mixer.py:74-98 | when there are candidates, the first lies after the hold and is a beat or a quiet frame no later than any beat or quiet frame after the hold, and the point is one measure after it cut at the music's end, replaced by the smaller of the music's end and start + 7000 ms when that leaves less than 5000 ms after the start |
| Mixer.NoCandidateEnding | src/audio/mixer.py:64-78 | with no beat and no quiet frame after the hold, the point is the smaller of the music's end and start + 11000 ms |
| Processor.ResolveSettings | src/audio/processor.py:72-90 | a non-empty advanced dictionary supplies every value (truncated to `int` for durations) with the constants as fallbacks; otherwise the keyword arguments or constants apply and the gap stays 1400 ms |
| Processor.SettingsDefaults | src/audio/processor.py:72-90 | no dictionary and no arguments give the constants, and a non-empty dictionary makes the keyword arguments irrelevant |
| Processor.NormalizeIfQuiet | src/audio/processor.py:134-143 | a clip peaking below -0.5 dBFS is brought to -0.1 dBFS; a louder or silent one is used as it is |
| Processor.TotalNeededAsWritten | src/audio/processor.py:190-197 | with an ending the background must cover the intro and the voice; without one, the musical end point plus the fall time |
| Processor.TotalNeeded | src/audio/processor.py:190-197 | the corrected length always covers intro and voice and is never shorter than the original; for a non-negative fall time it equals the original exactly when there is an ending or the musical end point already lies at or past the voice end |
| Processor.ExtendBackground | src/audio/processor.py:199-204 | an empty background that is needed fails; otherwise the extension is the original when that suffices, and else a whole number of copies of it (millisecond `k` is the original's millisecond `k mod len(fon)`), at least as long as needed and less than one copy longer |
| Processor.OutroDown | src/audio/processor.py:249-297 | the fade-out spans from the voice end to the later of the musical point and the minimum outro body, capped at the background; a long enough window is the background over that window ramped from the ducked level to -80 dB on the ease-in curve; a short window ramps the remaining tail instead, and with no tail the result is `outro_fall` ms of silence |
| Processor.Background | src/audio/processor.py:206-333 | when the background reaches past the voice, its first `intro_ms` are the intro ramped from the start level to the ducked level on the ease-out curve, the next `voice_len` ms are the background at the ducked gain, and the rest is the ending sting when given and the fade-out otherwise |
| Processor.BackgroundIntroDucks | src/audio/processor.py:206-216 | each intro millisecond is the background moved by a gain between the start and ducked levels that only moves towards the ducked level |
| Processor.OutroFadesOut | src/audio/processor.py:249-297 | each fade-out millisecond is the background at the same offset past the voice, moved by a gain between the ducked level and -80 dB that never rises |
| Processor.PrepareEnding | src/audio/processor.py:241-246 | the ending sting keeps its length, and a sting that gets normalised peaks at `voice_db` afterwards, one already within 0.1 dB of -0.1 dBFS is only moved by `voice_db + 0.1`, and a silent one stays silent |
| Processor.OverlayPositionQuantised | src/audio/processor.py:345-358 | snapping the position to a whole sample and back loses one millisecond exactly when the intro is not a whole number of samples |
| Processor.OverlayPositionAt44k | src/audio/processor.py:345-358 | at 44100 Hz the voice starts at the intro length when it is a multiple of 10 ms, one millisecond earlier otherwise |
| Processor.OverlayPositionBounds | src/audio/processor.py:345-358 | the snapped position is the intro length or one millisecond before, never negative |
| Processor.Overlay | src/audio/processor.py:356-360 | the overlay keeps the background's length, mixes the voice in from the position on, and leaves the rest of the background untouched |
| Processor.CompressIfLoud | src/audio/processor.py:365-381 | a mix peaking below -17 dBFS skips the compressor; a louder one is compressed, and a compressor failure keeps the mix as it was |
| Processor.PydubNormalize | src/audio/processor.py:398 | pydub's `normalize` keeps the length, leaves silence alone and brings any other peak to -0.1 dBFS |
| Processor.LimitPeak | src/audio/processor.py:385-389 | a peak above -1 dBFS is pulled down to -1, a lower one is kept, by a single uniform gain |
| Processor.SoftLimit | src/audio/processor.py:393-409 | a peak already in [-0.3, 0] dBFS is kept; any other audible peak ends at exactly -0.3 dBFS, by a single uniform gain |
| Processor.Master | src/audio/processor.py:383-409 | mastering keeps the length |
| Processor.MasterPeak | src/audio/processor.py:383-409 | every audible mix leaves mastering peaking at exactly -0.3 dBFS, a silent one stays silent, and mastering is one overall gain |
| Processor.RenderSpot | src/audio/processor.py:186-409 | a spot fails only with an empty background or an ending sting that does not decode |
| Processor.RenderSpotErrors | src/audio/processor.py:199-247 | a spot fails with an empty background exactly when the background is empty and needed, otherwise with the ending's load error exactly when the ending does not decode, and succeeds in every other case |
| Processor.VoiceAlwaysFits | src/audio/processor.py:186-360 | with the corrected background length the whole voice lies inside the background it is overlaid on |
| Processor.VoiceCutAsWritten | src/audio/processor.py:186-204 | as written, a 30 s voice on a 10 s bed whose musical point falls at 10 s gets a 23 s mix, so part of the voice is cut |
| Processor.IntToString | src/audio/processor.py:415 | `str(n)` has no dot and no space, and is the decimal text with a sign for negatives |
| Processor.IntToStringInjective | src/audio/processor.py:415 | different spot numbers print differently |
| Processor.SpotFileName | src/audio/processor.py:412-415 | the file name is the voice file's stem, a space, the spot number and the format's extension |
| Processor.OutputPath | src/audio/processor.py:412-416 | the output path lies in the output folder and ends with the format's extension |
| Processor.OutputPathsDistinct | src/audio/processor.py:412-416 | different spot numbers never share an output file, whichever voice files they come from |
| Processor.SpotProgressBounds | src/audio/processor.py:179-181 | the reported progress stays within [0, 95] and never goes back |
| Processor.ReturnedPaths | src/audio/processor.py:174-177 | a cancelled montage returns no paths; a finished one returns one path per exported spot, in order |
| Processor.RenderFrom | src/audio/processor.py:174-452 | the loop fails only with some spot's own failure; a run that was not cancelled exports every remaining spot and reports 100 last |
| Processor.RunStep | src/audio/processor.py:174-448 | a spot whose poll is negative is exported under its number and the run continues with the next |
| Processor.RunCancellation | src/audio/processor.py:174-177 | a run is cancelled exactly when some poll says so, the spots before that poll are the ones exported, and it always succeeds when every spot renders |
| Processor.RunSpots | src/audio/processor.py:174-448 | spot `j` of a run is numbered `idx + offset` and holds the rendering of its range, with its progress report |
| Processor.RunProgress | src/audio/processor.py:179-181 | the progress reported never goes back and stays within [0, 100] |
| Processor.SpeechRanges | src/audio/processor.py:152-154 | given ranges are used as they are; otherwise the voice is analysed with the resolved gap and an analysis failure fails the montage |
| Processor.RenderAll | src/audio/processor.py:174-409 | one rendering per valid range, with the background length as written |
| Processor.RenderAllAt | src/audio/processor.py:174-409 | rendering `j` is the spot of range `j`, rendered with the background length as written |
| Processor.RenderAllErrorAt | src/audio/processor.py:199-247 | a failed rendering is an empty background or an undecodable ending |
| Processor.Prepare | src/audio/processor.py:103-167 | an undecodable voice, a missing or undecodable background, a failed analysis, no speech and no range of 1000 ms each fail with their own error, in that order; otherwise both inputs are normalised if quiet and the valid ranges are non-empty |
| Processor.SesMontaj | src/audio/processor.py:68-459 | preparation errors are raised unchanged, and after preparation the montage is the spot loop over the renderings of the valid ranges with the background length as written |
| Processor.MontageSpots | src/audio/processor.py:169-455 | an uncancelled montage exports one spot per valid range; it is cancelled exactly when a poll says so and then returns nothing; spot `j` is numbered `j + 1 + offset` |
| Processor.MontageSpotAudio | src/audio/processor.py:174-448 | each exported spot holds the rendering, as written, of its own valid range |
| Processor.MontageSpotFailure | src/audio/processor.py:199-247 | after preparation a montage fails only with an empty background or an undecodable ending |
| Processor.MontageProgress | src/audio/processor.py:179-181 | the montage's progress never goes back, stays within [0, 100], and reaches 100 when it runs to the end |
| Processor.MontagePathsDistinct | src/audio/processor.py:412-448 | no two spots of one montage are written to the same file |
| Processor.NumberedPathsDistinct | src/audio/processor.py:412-416 | consecutively numbered spots are returned under different paths |
| Processor.SesMontajSingleRange | src/audio/processor.py:152-177 | a montage of one given range of 1000 ms or more either stops at its one poll with nothing, or exports one spot numbered one past the offset |
| Processor.RenderOne | src/audio/processor.py:174-177 | a run over a single rendering stops at its one poll or exports it as spot one past the offset |
| FileUtils.FormatPathDisplayAsWritten | src/utils/file_utils.py:33-57 | a short path is kept, a long basename is cut to `max_len - 5` characters behind "...", and a shortened folder gives `max_len + 1` characters |
| FileUtils.FormatPathDisplayOvershoots | src/utils/file_utils.py:53-57 | a 71-character path with a 30-character basename is displayed in 61 characters, one over the limit of 60 |
| FileUtils.FormatPathDisplay | src/utils/file_utils.py:33-57 | a path fitting the limit is kept; a long path is shown in at most `max_len` characters and keeps its basename when that fits |
| FileUtils.ValidateAudioFile | src/utils/file_utils.py:59-92 | each check fails with its own message in source order, and a file is accepted exactly when it exists, is readable, is not empty, is at most 1 GiB and has a supported extension in any case |
| FileUtils.ValidationBoundaries | src/utils/file_utils.py:81-84 | a file of exactly 1 GiB is accepted and one byte more is rejected as too large |
| FileUtils.ExtensionCaseIgnored | src/utils/file_utils.py:87-89 | an upper-case ".WAV" is accepted |
| Config.KeyPath | src/utils/config.py:113 | a dotted key splits into at least one part, none holding a dot |
| Config.Lookup | src/utils/config.py:113-122 | the empty key path finds the document itself, and a non-dict finds nothing below it |
| Config.LookupConcat | src/utils/config.py:116-120 | walking two key lists in turn is walking their concatenation |
| Config.Get | src/utils/config.py:102-122 | `get` returns the value the walk finds and the default when it finds nothing |
| Config.SetPath | src/utils/config.py:124-140 | `set` succeeds exactly when every value on the way is a dict or missing; the result is a dict gaining only the first key; any failure is a `TypeError` |
| Config.Set | src/utils/config.py:124-140 | `set` of a dotted key succeeds exactly when its path is settable |
| Config.SetLookup | src/utils/config.py:132-140 | after `set`, every lookup below the key finds the new value's part and every lookup on an unrelated path is unchanged |
| Config.PrefixCons | src/utils/config.py:132-140 | two key paths with the same first key are nested exactly when their tails are |
| Config.GetAfterSet | src/utils/config.py:102-140 | `get(k)` after `set(k, v)` returns `v` |
| Config.Update | src/utils/config.py:142-149 | `update` fails exactly on a non-dict document and otherwise leaves the union of the keys |
| Config.UpdateShallow | src/utils/config.py:142-149 | after `update`, everything under an updated key comes from the update alone and everything under other keys is unchanged |
| Config.DefaultValues | src/utils/config.py:151-165 | the default document holds "wav", "light", 1100 by 750 and empty last paths, and nothing below a string |
| Config.LoadDecisions | src/utils/config.py:37-82 | the file's own document is used exactly when the file is present, non-empty, not blank and parses; every other case loads the defaults, and only an unparsable file is moved to `path + ".backup"` |
| Config.BlankFileLoadsDefaults | src/utils/config.py:52-57 | a file of whitespace loads the defaults and is not moved |
| Config.LoadAfterSave | src/utils/config.py:84-96 | given that `json.loads` reads the saved text back as the same document (a premise, not proved: JSON text is a parameter), the next load finds that document |
| Presets.DefaultCategory | src/gui/components/preset_browser.py:137-139 | the requested category is used when it exists, else the first category, else "AI Music" |
| Presets.Open | src/gui/components/preset_browser.py:551-554 | a new dialog has nothing chosen and is not closing |
| Presets.Remove | src/gui/components/preset_browser.py:558-560 | `set.remove` leaves exactly the other paths and keeps them distinct |
| Presets.Toggle | src/gui/components/preset_browser.py:551-634 | a toggle never changes the closing flag or the spot count, does nothing while closing, and keeps the chosen paths distinct |
| Presets.ToggleMultiSpot | src/gui/components/preset_browser.py:613-632 | with several spots a toggle adds a path that was not chosen and removes one that was |
| Presets.ToggleSingleSpot | src/gui/components/preset_browser.py:557-612 | with one spot a toggle removes the chosen path or replaces the choice by the new one, so at most one path is ever chosen |
| Presets.ToggleTwice | src/gui/components/preset_browser.py:551-634 | toggling the same path twice restores the chosen set |
| Presets.ApplyLimits | src/gui/components/preset_browser.py:659-692 | applying is ignored while closing, only informs on an empty choice, and otherwise passes on the first paths up to the spot count (one for a single spot), warning exactly when some are dropped, and closes |
| Presets.Cancel | src/gui/components/preset_browser.py:636-643 | cancelling clears the choice and closes, and does nothing once closing |
| Presets.ClosedIsFinal | src/gui/components/preset_browser.py:553-554 | once closing, toggle, cancel and apply change nothing |
| Presets.DigitRuns | src/gui/components/preset_browser.py:310 | `re.split(r'(\d+)')` gives an odd number of parts that alternate text and digit runs and concatenate back to the name |
| Presets.NaturalKey | src/gui/components/preset_browser.py:304-315 | the key has one element per part, numbers exactly at the odd positions |
| Presets.KeyOfParts | src/gui/components/preset_browser.py:310-314 | a part becomes a number exactly when it is a digit run |
| Presets.LexStrictTotal | src/gui/components/preset_browser.py:317 | Python's list comparison over a strict total order is a strict total order |
| Presets.PartLessStrictTotal | src/gui/components/preset_browser.py:312-314 | comparing `(0, n)` and `(1, s)` tuples is a strict total order |
| Presets.PresetLeTotalPreorder | src/gui/components/preset_browser.py:304-317 | ordering paths by their natural key is a total preorder, so the sort is well defined |
| Presets.PresetPaths | src/gui/components/preset_browser.py:296-301 | the listing keeps at most the folder's entries |
| Presets.ListPresets | src/gui/components/preset_browser.py:295-317 | the listed presets are a permutation of the audio files in the folder, ordered by natural key, with files of equal keys in `os.listdir` order |
| Presets.NumbersCompareByValue | src/gui/components/preset_browser.py:310-314 | names that differ only in a trailing number are ordered by the number's value |
| Presets.TwoBeforeTen | src/gui/components/preset_browser.py:304-317 | "x2" comes before "x10" in natural order, although it comes after it as text |
| ReleaseNotes.RemoveHashes | src/gui/components/update_modal.py:166 | the three `replace` calls together remove every '#' |
| ReleaseNotes.FirstTopic | src/gui/components/update_modal.py:199-202 | the search finds the first topic contained in the line, and none exactly when no topic occurs |
| ReleaseNotes.Emoji | src/gui/components/update_modal.py:196-202 | a line gets the emoji of its first contained topic in table order, and the bullet when it has none |
| ReleaseNotes.StripBullets | src/gui/components/update_modal.py:193-194 | removing the leading bullets never brings in a line break |
| ReleaseNotes.FormatLine | src/gui/components/update_modal.py:187-204 | a line produces output exactly when it is not blank, and its output holds no line break |
| ReleaseNotes.FormatLinesPerLine | src/gui/components/update_modal.py:187-204 | one formatted line per non-blank input line, in order |
| ReleaseNotes.KeptNonBlank | src/gui/components/update_modal.py:188-190 | the lines kept are exactly the non-blank ones |
| ReleaseNotes.CleanLines | src/gui/components/update_modal.py:166-169 | the cleaned notes split into at least one line, none holding a line break |
| ReleaseNotes.FormatReleaseNotesLines | src/gui/components/update_modal.py:160-216 | the text is the shown lines joined by newlines and splits back into exactly them; empty notes show the three fixed lines |
| ReleaseNotes.FallbackWhenBlank | src/gui/components/update_modal.py:206-214 | non-empty notes format to nothing exactly when they are blank once the '#' are removed, and then the five fallback lines are shown |
| ReleaseNotes.BulletOnlyLine | src/gui/components/update_modal.py:193-204 | a line of bullets only is shown as a bare bullet followed by a space |
| ReleaseNotes.TopicsAreNonEmpty | src/gui/components/update_modal.py:173-185 | every topic is non-empty, so an empty line matches none |
| Batch.SegmentsTotal | src/gui/main_window.py:542 | no voice files give no segments |
| Batch.TotalValidSpots | src/gui/main_window.py:709-712 | the valid spots never outnumber the segments |
| Batch.ValidPaths | src/gui/main_window.py:311-320 | the kept paths are exactly the chosen ones that pass validation |
| Batch.InvalidWarnings | src/gui/main_window.py:314-320 | every chosen path is either kept or warned about |
| Batch.SingleSpotRule | src/gui/main_window.py:365-371 | with exactly one segment only the first of several files is kept, otherwise all are |
| Batch.SelectFilesEffect | src/gui/main_window.py:302-420 | music or an ending before a finished voice analysis only warns; a valid voice choice replaces the voices and restarts analysis; each kind changes only its own list, with validated paths, and one segment leaves one file |
| Batch.AnalyseAll | src/gui/main_window.py:523-535 | each voice file gets its ranges, or none when its analysis fails |
| Batch.AnalysisFinished | src/gui/main_window.py:540-557 | analysis is done exactly when some segment was found, with the count or the no-speech message shown |
| Batch.MusicNeedsSpeech | src/gui/main_window.py:310-372 | after an analysis that found nothing, choosing music only warns; after one that found speech, the single-spot rule applies to the valid music |
| Batch.SpotsOf | src/gui/main_window.py:726-730 | each valid range of a voice file becomes one job for that file |
| Batch.JobsAreValidRanges | src/gui/main_window.py:709-730 | the jobs are exactly the ranges of at least 1000 ms of the voice files, as many as the valid spots |
| Batch.JobsLongEnough | src/gui/main_window.py:727-730 | every job is at least 1000 ms long |
| Batch.ChooseFon | src/gui/main_window.py:737-741 | the background is one of the list, the only one when there is one, and an empty list raises |
| Batch.ChooseEnding | src/gui/main_window.py:774-780 | the ending is one of the list, the only one when there is one, and none when the list is empty |
| Batch.AdvancedArg | src/gui/main_window.py:768 | an empty settings dictionary is passed as `None` |
| Batch.JobIo | src/gui/main_window.py:789 | the montage's poll reads the shared flag |
| Batch.Records | src/gui/main_window.py:782-796 | a cancelled montage contributes no file, a finished one its spots in order |
| Batch.Collected | src/gui/main_window.py:782-796 | a failed montage fails the batch with its error, a cancelled one adds no file, and a finished one-spot montage adds exactly the file of its spot |
| Batch.FilePaths | src/gui/main_window.py:795 | each recorded file is named by its voice file and spot number |
| Batch.RecordsArePaths | src/gui/main_window.py:782-796 | the recorded files name exactly the paths the montage returns |
| Batch.SpotMontage | src/gui/main_window.py:732-796 | a valid spot whose poll finds the flag down gives exactly one file numbered after the files so far, and none when it is raised |
| Batch.BatchFrom | src/gui/main_window.py:726-796 | a batch that returns files keeps the files written before, and fails for lack of a background only when no music was chosen |
| Batch.NumberedFrom | src/gui/main_window.py:791-796 | the spots from `k` on are numbered `k + 1` onward |
| Batch.BatchNumbering | src/gui/main_window.py:726-796 | an uncancelled batch numbers the spots of all voice files consecutively from 1 |
| Batch.NumberedFromStep | src/gui/main_window.py:791-796 | numbering from `k` is spot `k + 1` followed by numbering from `k + 1` |
| Batch.BatchStep | src/gui/main_window.py:732-796 | one uncancelled valid spot appends its file and the loop continues |
| Batch.SpotPaths | src/gui/main_window.py:782-796 | the batch's paths are numbered 1 to N and all different |
| Batch.BatchSpots | src/gui/main_window.py:692-803 | an uncancelled batch writes one file per valid spot, numbered 1 to N |
| Batch.SpotPathsDistinct | src/gui/main_window.py:782-796 | files numbered 1 to N in one folder are all different, whichever voice files they are cut from |
| Batch.BatchCancelled | src/gui/main_window.py:733-734 | a flag raised before a spot discards every file of the batch |
| Batch.ChoicesFromLists | src/gui/main_window.py:714-780 | each spot's background comes from the chosen music (the first when there is one segment) and its ending from the chosen endings |
| Batch.ThreadOutcome | src/gui/main_window.py:677-690 | the success handler runs exactly when the batch returned files and the flag is down; the cancel handler exactly when the batch returned and the flag is up; an error goes to the error handler whatever the flag |
| Batch.MontageThreadOutcome | src/gui/main_window.py:677-803 | a successful batch has one file per valid spot and at least one; no valid spot never succeeds; cancellation is reported exactly when the batch returned and the flag was raised; an error goes to the error handler whatever the flag |
| Batch.SaveAdvancedSettings | src/gui/main_window.py:991-1010 | saving the settings dialog leaves the window's settings as they were |
| Batch.DefaultsAlwaysRun | src/gui/main_window.py:768 | however often the dialog is saved, the montage is given no settings and works with the defaults |
| Batch.SaveAllKeeps | src/gui/main_window.py:1005-1008 | saves in sequence keep the window's settings |
| Batch.FirstTimestamp | src/gui/main_window.py:878 | the regex search finds the first position where a trailing timestamp matches |
| Batch.StripTimestamp | src/gui/main_window.py:878 | the name loses a trailing `_YYYYMMDD[_]HHMMSS` from its first matching position, and is unchanged exactly when there is none |
| Batch.StripTimestampExample | src/gui/main_window.py:876-878 | "Reklam_20251126_211943" becomes "Reklam" |
| Batch.ZipPath | src/gui/main_window.py:875-880 | the archive lies next to the output folder and ends in ".zip" |
| Text.Strip | src/utils/config.py:53 | `strip` leaves no whitespace at either end and is empty exactly for all-whitespace text |
| Text.Split | src/utils/config.py:113 | `split` gives at least one part, none holding the separator |
| Text.SplitJoin | src/gui/components/update_modal.py:169 | joining the parts of a split restores the text |
| Text.NatToStringRoundTrip | src/gui/components/preset_browser.py:312 | `int` of the decimal text of a number is the number |
| Text.RemoveSingleIsWithout | src/gui/components/update_modal.py:166 | replacing a one-character pattern removes every occurrence of it |
| Text.RemoveAllKeepsOthers | src/gui/components/update_modal.py:166 | removing a run of one character loses nothing but that character |
| Paths.Basename | src/utils/file_utils.py:47 | the basename holds no separator |
| Paths.DirnameBasename | src/utils/file_utils.py:47-48 | the folder begins the path and the basename ends it, after a separator unless it is the whole path; the two never overlap and only separators lie between them |
| Paths.Extension | src/utils/file_utils.py:88 | the extension ends the path and is empty or a dot-started suffix of the basename |
| Paths.StemExtension | src/audio/processor.py:412 | `os.path.splitext` loses nothing: the root followed by the extension is the path |
| Paths.Join | src/audio/processor.py:416 | `os.path.join` starts with the folder, ends with the name and puts at most one separator between |
| Sorting.SortBy | src/audio/analyzer.py:33 | `sorted` gives a permutation of its input in key order, and elements with equal keys keep their input order (stability) |
| Sorting.SortSortedIsIdentity | src/audio/analyzer.py:33 | sorting an input already in key order returns it unchanged |

## Left out

- Frame rate and channel conversion (processor.py:111-149, 233-239, 300-339): every clip is one level per millisecond, so resampling and down-mixing change nothing in the model.
- Sample values, float rounding and dB arithmetic: levels are exact reals, so `max_dBFS` after a gain is exact.
- The compressor, the S-curve `0.5 * (1 - cos(pi t))`, the overlay's sample mixing, decoding, speech detection, and beat and RMS analysis are parameters (`Io`, `Analysis`), not definitions.
- Export, deletion of old output files, the MP3 and WAV codec parameters, and logging: file-system side effects with no bearing on the result.
- Paths follow POSIX: one separator `/`, no drive letters, no `os.sep` on Windows.
- Threads: the cancellation flag is a tick at which it is raised (`Batch.Raised`), and the analysis thread is one function call. Interleavings other than the order of polls are not modelled.
- Text.Lower: covers ASCII and the Turkish letters Ç Ö Ü Ğ Ş; `İ`, which Python lowers to two code points, and other scripts are left unchanged.
- `\d` and `str.isdigit` are taken as the ASCII digits only; other Unicode digits are not modelled.
- Mixer.FindMusicalOutroPoint: a non-positive sample rate is treated like a failed analysis, where Python would divide by zero inside the same `try`.
- Writing the zip archive, the arcnames and the check for existing files (main_window.py:883-890): only the archive path is modelled.
- The default output folder, built from the clock, the progress modal, message boxes, icons and all widgets.
- Configuration file location, `save` with `json.dump`, and `json.loads`: the file is a `ConfigFile` value and JSON text a `dump`/`parse` parameter pair.
- Config.SetPath: Python's `set` mutates nested dictionaries in place, so another holder of a reference sees the change; the model returns a new document.
- Presets.Toggle: Python's `set` of chosen paths is an unordered set and `list(set)` follows hash order; the model keeps insertion order, so "the first paths" in `Presets.ApplyLimits` are the first inserted.
- Previews with `ffplay`, the category buttons and the widget state of the preset browser.
- Presets.PresetPaths: the entry names must not hold a separator, as names `os.listdir` returns never do.
- FileUtils.FormatPathDisplay: its bound of `max_len` is stated for paths without repeated separators; a path whose folder ends in several separators can be longer than its folder plus basename suggests.
- Processor.TotalNeeded: promises nothing for a negative `outro_fall` setting beyond covering the voice, because the corrected length clamps the fall time at zero where the source would add a negative fall.
- Batch.AnalyseAll: takes a list of voice paths and keeps one entry per position; the source's `segments_by_file` dictionary is keyed by path, so a path listed twice keeps only one entry there and its spots are counted once, where the model counts them at each position.
- The update check, download and installation of the update dialog; only `_format_release_notes` is modelled.
- The first `_open_advanced_settings` (main_window.py:200-223), which is overridden by the second definition in the same class and so never runs.

## Findings

| source | as written | input that shows it | evidently intended | confidence | as-written member | corrected member |
|---|---|---|---|---|---|---|
| src/audio/processor.py:194-197 | without an ending, `total_needed = int(outro_target_ms) + outro_fall_duration`, even when the musical end point lies before the end of the voice | default settings, no ending, a 30 s voice and a 10 s background with no beat and no quiet frame: the end point is the music's end, 10 000 ms, so the background is extended to 20 s, the mix is 23 s long and the last 10 s of the voice are cut off | the background always reaches at least past the intro and the whole voice | not executed | Processor.VoiceCutAsWritten | Processor.VoiceAlwaysFits |
| src/utils/file_utils.py:53-57 | `remaining_len = max_len - len(base_name) - 3`, then `dir[:remaining_len] + "..." + os.sep + base_name` | a 71-character path: 40 × "a", "/", 30 × "b" with `max_len` 60 gives 61 characters | the display fits in `max_len` characters (the separator was not counted) | not executed | FileUtils.FormatPathDisplayOvershoots | FileUtils.FormatPathDisplay |

The montage itself (`Processor.RenderAll`, `Processor.SesMontaj`) renders
with the background length as the source computes it, so it keeps the cut
voice of the first row; `Processor.RenderSpot` with `corrected` set renders
with the intended length, and `Processor.VoiceAlwaysFits` is stated about
that length.
