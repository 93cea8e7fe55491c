/** The spot montage (the processor module): for every detected speech range,
    lay the voice over a background that rises in, ducks under the voice and
    fades out (or is cut and followed by an ending sting), then compress,
    master and name the result. */
module Processor {
  import opened Common
  import opened Text
  import opened Paths
  import opened Audio
  import opened Effects
  import opened Analyzer
  import opened Mixer

  /** Timing defaults (ms). */
  const IntroDurationMs: int := 3000
  const OutroRiseDurationMs: int := 2000
  const OutroFallDurationMs: int := 3000
  const MinOutroBodyMs: int := 3500

  /** Level defaults (dB). */
  const StartFonDb: real := -5.0
  const DuckedFonDb: real := -10.2
  const MidFonDb: real := -1.94
  const VoiceDb: real := -4.0
  const PeakHeadroomDb: real := -1.0
  const SilenceDb: real := -80.0

  /** The compressor runs only when the mix peaks at or above this level. */
  const CompressorThresholdDb: real := -22.0
  const CompressorSkipMarginDb: real := 5.0

  /** Every clip is resampled to this rate before mixing (Hz). */
  const TargetFrameRate: int := 44100
  /** Inputs quieter than this are normalised first (dBFS). */
  const QuietPeakDb: real := -0.5
  /** A fade-out window must be longer than this to be used (ms). */
  const MinFadeMs: int := 100
  /** The final peak the mastering chain settles on (dBFS). */
  const SoftLimitDb: real := -0.3

  // ---------------------------------------------------------------- settings

  /** The keyword arguments that may override each default. */
  datatype Overrides = Overrides(
    startFonDb: Option<real>, duckedFonDb: Option<real>, midFonDb: Option<real>, voiceDb: Option<real>,
    introMs: Option<real>, outroRiseMs: Option<real>, outroFallMs: Option<real>)

  const NoOverrides: Overrides := Overrides(None, None, None, None, None, None, None)

  /** The values the montage works with. */
  datatype Settings = Settings(
    introMs: int, outroRiseMs: int, outroFallMs: int,
    startFonDb: real, duckedFonDb: real, midFonDb: real, voiceDb: real,
    maxGapMs: int)

  const DefaultSettings: Settings :=
    Settings(IntroDurationMs, OutroRiseDurationMs, OutroFallDurationMs,
             StartFonDb, DuckedFonDb, MidFonDb, VoiceDb, MaxGapMs)

  /** `d.get(key, default)`. */
  function Lookup(m: map<string, real>, key: string, default: real): real {
    if key in m then m[key] else default
  }

  /** `int(x)` when given, else the default. */
  function IntOr(x: Option<real>, default: int): int {
    if x.Some? then Trunc(x.value) else default
  }

  function RealOr(x: Option<real>, default: real): real {
    if x.Some? then x.value else default
  }

  /** A non-empty advanced-settings dictionary overrides everything (each key
      falling back to its default, durations truncated to whole ms) and is
      the only way to change the merge gap; otherwise each keyword argument
      overrides its default and the gap stays 1400 ms. */
  function ResolveSettings(advanced: Option<map<string, real>>, o: Overrides): (s: Settings)
    ensures advanced.Some? && |advanced.value| > 0 ==>
              var m := advanced.value;
              && s.introMs == Trunc(Lookup(m, "intro_duration", IntroDurationMs as real))
              && s.outroRiseMs == Trunc(Lookup(m, "outro_rise", OutroRiseDurationMs as real))
              && s.outroFallMs == Trunc(Lookup(m, "outro_fall", OutroFallDurationMs as real))
              && s.startFonDb == Lookup(m, "start_fon_db", StartFonDb)
              && s.duckedFonDb == Lookup(m, "ducked_fon_db", DuckedFonDb)
              && s.midFonDb == Lookup(m, "mid_fon_db", MidFonDb)
              && s.voiceDb == Lookup(m, "voice_db", VoiceDb)
              && s.maxGapMs == Trunc(Lookup(m, "max_gap_ms", MaxGapMs as real))
    ensures !(advanced.Some? && |advanced.value| > 0) ==>
              && s.maxGapMs == MaxGapMs
              && s.introMs == IntOr(o.introMs, IntroDurationMs)
              && s.outroRiseMs == IntOr(o.outroRiseMs, OutroRiseDurationMs)
              && s.outroFallMs == IntOr(o.outroFallMs, OutroFallDurationMs)
              && s.startFonDb == RealOr(o.startFonDb, StartFonDb)
              && s.duckedFonDb == RealOr(o.duckedFonDb, DuckedFonDb)
              && s.midFonDb == RealOr(o.midFonDb, MidFonDb)
              && s.voiceDb == RealOr(o.voiceDb, VoiceDb)
  {
    if advanced.Some? && |advanced.value| > 0 then
      var m := advanced.value;
      Settings(
        Trunc(Lookup(m, "intro_duration", IntroDurationMs as real)),
        Trunc(Lookup(m, "outro_rise", OutroRiseDurationMs as real)),
        Trunc(Lookup(m, "outro_fall", OutroFallDurationMs as real)),
        Lookup(m, "start_fon_db", StartFonDb),
        Lookup(m, "ducked_fon_db", DuckedFonDb),
        Lookup(m, "mid_fon_db", MidFonDb),
        Lookup(m, "voice_db", VoiceDb),
        Trunc(Lookup(m, "max_gap_ms", MaxGapMs as real)))
    else
      Settings(
        IntOr(o.introMs, IntroDurationMs), IntOr(o.outroRiseMs, OutroRiseDurationMs),
        IntOr(o.outroFallMs, OutroFallDurationMs),
        RealOr(o.startFonDb, StartFonDb), RealOr(o.duckedFonDb, DuckedFonDb),
        RealOr(o.midFonDb, MidFonDb), RealOr(o.voiceDb, VoiceDb),
        MaxGapMs)
  }

  /** With no advanced settings and no keyword overrides (or an empty
      dictionary) the montage runs on the documented defaults; a non-empty
      dictionary makes the keyword arguments irrelevant. */
  lemma SettingsDefaults(advanced: Option<map<string, real>>, o: Overrides, o': Overrides)
    ensures (advanced.None? || advanced == Some(map[])) ==> ResolveSettings(advanced, NoOverrides) == DefaultSettings
    ensures advanced.Some? && |advanced.value| > 0 ==> ResolveSettings(advanced, o) == ResolveSettings(advanced, o')
  {
    assert Trunc(3000.0) == 3000 && Trunc(2000.0) == 2000;
  }

  // ---------------------------------------------------------------- loading

  /** Why a montage fails. */
  datatype MontageError =
    | LoadFailed(path: string, reason: AnalysisError)  // the decoder raised
    | NoBackground                                     // no music path given
    | AnalysisFailed(reason: AnalysisError)            // segment analysis raised
    | NoSpeech                                         // analysis found nothing
    | NoValidSegments                                  // nothing of 1000 ms or more
    | EmptyBackground                                  // `ceil(needed / len(fon))` divided by zero

  /** Everything the montage reaches outside its own logic: the decoder, the
      silence detector, the music analysis, pydub's sample mixing and
      compressor (which may raise: `None`), the S-curve, and the answers of
      the cancellation callback at each poll. */
  datatype Io = Io(
    decode: string -> Result<Clip, AnalysisError>,
    detect: Clip -> seq<Range>,
    analyseMusic: string -> Result<Analysis, string>,
    mixLevel: (Level, Level) -> Level,
    compress: Clip -> Option<Clip>,
    sCurve: real -> real,
    cancelled: nat -> bool)

  /** A clip whose peak is below -0.5 dBFS (or that is silent) is normalised;
      a louder one is used as it is. */
  function NormalizeIfQuiet(c: Clip): (r: Clip)
    ensures |r| == |c|
    ensures !PeakBelow(Peak(c), QuietPeakDb) ==> r == c
    ensures Peak(c).Silence? ==> r == c
    ensures Peak(c).Db? && Peak(c).db < QuietPeakDb ==> Peak(r) == Db(NormalizeTargetDb)
  {
    if PeakBelow(Peak(c), QuietPeakDb) then NormalizeInMemory(c) else c
  }

  // ---------------------------------------------------------------- one spot

  /** Where the music should end, measured from the start of the spot: the
      end of the voice when an ending sting follows, else the musical end
      point found in the background. */
  function OutroTarget(io: Io, fonPath: string, s: Settings, voiceLen: nat, hasEnding: bool): real {
    if hasEnding then (s.introMs + voiceLen) as real
    else FindMusicalOutroPoint(io.analyseMusic(fonPath), (s.introMs + voiceLen) as real, None)
  }

  /** `total_needed` as written: without an ending, the musical end point
      plus the fall time, even when that point lies before the voice ends. */
  function TotalNeededAsWritten(s: Settings, voiceLen: nat, target: real, hasEnding: bool): (n: int)
    ensures hasEnding ==> n == s.introMs + voiceLen
    ensures !hasEnding ==> n == Trunc(target) + s.outroFallMs
  {
    if hasEnding then s.introMs + voiceLen else Trunc(target) + s.outroFallMs
  }

  /** `total_needed` as evidently intended: the background must at least
      reach the end of the voice. */
  function TotalNeeded(s: Settings, voiceLen: nat, target: real, hasEnding: bool): (n: int)
    ensures n >= s.introMs + voiceLen
    ensures n >= TotalNeededAsWritten(s, voiceLen, target, hasEnding)
    ensures s.outroFallMs >= 0 ==>
              var asWritten := TotalNeededAsWritten(s, voiceLen, target, hasEnding);
              (n == asWritten <==> hasEnding || Trunc(target) >= s.introMs + voiceLen)
  {
    if hasEnding then s.introMs + voiceLen
    else Max(Trunc(target), s.introMs + voiceLen) + Max(0, s.outroFallMs)
  }

  /** The background repeated until it is at least `needed` ms long. A
      background of no length cannot be repeated: the source divides by its
      length. */
  function ExtendBackground(fon: Clip, needed: int): (r: Result<Clip, MontageError>)
    ensures r.Err? <==> |fon| == 0 && needed > 0
    ensures r.Err? ==> r.error == EmptyBackground
    ensures r.Ok? ==> |r.value| >= needed && |r.value| >= |fon| && r.value[..|fon|] == fon
    ensures r.Ok? && |fon| > 0 ==> forall k :: 0 <= k < |r.value| ==> r.value[k] == fon[k % |fon|]
    ensures r.Ok? && |fon| < needed ==> |r.value| % |fon| == 0 && |r.value| - |fon| < needed
    ensures r.Ok? && |fon| >= needed ==> r.value == fon
  {
    if |fon| < needed then
      if |fon| == 0 then Err(EmptyBackground)
      else
        var times := CeilDiv(needed, |fon|);
        CopiesNeeded(|fon|, needed);
        Ok(Repeat(fon, times))
    else
      assert forall k :: 0 <= k < |fon| ==> fon[k] == fon[k % |fon|] by {
        forall k | 0 <= k < |fon| ensures fon[k] == fon[k % |fon|] {
          ModOfSplit(k, |fon|, 0, k);
        }
      }
      Ok(fon)
  }

  /** `math.ceil(needed / len)` copies are the fewest whole copies that
      reach `needed`. */
  lemma CopiesNeeded(len: int, needed: int)
    requires 0 < len < needed
    ensures var times := CeilDiv(needed, len);
            times > 0 && len * times >= needed && len * times - len < needed && (len * times) % len == 0
  {
    var times := CeilDiv(needed, len);
    assert times * len >= needed;
    assert (times - 1) * len < needed;
    ModOfSplit(len * times, len, times, 0);
  }

  /** The fade-out after the voice, when no ending sting is used: from the
      ducked level down to -80 dB along an ease-in curve, over the stretch
      from the end of the voice to the musical end point (pushed to at least
      3.5 s after the voice), cut at the end of the extended background. A
      window of 100 ms or less falls back to the whole remaining tail, and
      with no tail left the fall time is filled with silence. */
  function OutroDown(fonExt: Clip, outroStart: int, target: real, s: Settings, sCurve: real -> real): (r: Clip)
    ensures var fadeEnd := Min(Max(Trunc(target), outroStart + MinOutroBodyMs), |fonExt|);
            var tail := |fonExt| - outroStart;
            && (0 <= outroStart && fadeEnd - outroStart > MinFadeMs ==> |r| == fadeEnd - outroStart)
            && (0 <= outroStart && fadeEnd - outroStart <= MinFadeMs && tail > 0 ==> |r| == tail)
            && (fadeEnd - outroStart <= MinFadeMs && tail <= 0 ==> r == Silent(s.outroFallMs))
    ensures var fadeEnd := Min(Max(Trunc(target), outroStart + MinOutroBodyMs), |fonExt|);
            && (0 <= outroStart && fadeEnd - outroStart > MinFadeMs ==>
                  r == EasedGainRamp(fonExt[outroStart..fadeEnd], s.duckedFonDb, SilenceDb, None, EaseIn))
            && (0 <= outroStart < |fonExt| && fadeEnd - outroStart <= MinFadeMs ==>
                  r == EasedGainRamp(fonExt[outroStart..], s.duckedFonDb, SilenceDb, None, EaseIn))
  {
    var totalEnd := if Trunc(target) - outroStart < MinOutroBodyMs then outroStart + MinOutroBodyMs else Trunc(target);
    var fadeEnd := Min(totalEnd, |fonExt|);
    var fall := fadeEnd - outroStart;
    var curve := CurveNamed("ease_in", sCurve);
    if fall > MinFadeMs then
      EasedGainRamp(Slice(fonExt, outroStart, fadeEnd), s.duckedFonDb, SilenceDb, None, curve)
    else if |fonExt| - outroStart > 0 then
      EasedGainRamp(PySliceFrom(fonExt, outroStart), s.duckedFonDb, SilenceDb, None, curve)
    else
      Silent(s.outroFallMs)
  }

  /** Over the whole fade-out each millisecond is the background at the same
      offset past the voice, moved by a gain between the ducked level and
      -80 dB that never rises as the fade goes on (for a ducked level above
      -80 dB). */
  lemma OutroFadesOut(fonExt: Clip, outroStart: int, target: real, s: Settings, sCurve: real -> real, k: nat, k': nat)
    requires 0 <= outroStart < |fonExt|
    requires k <= k' < |OutroDown(fonExt, outroStart, target, s, sCurve)|
    ensures var r := OutroDown(fonExt, outroStart, target, s, sCurve);
            var gk := RampGainAt(|r|, s.duckedFonDb, SilenceDb, None, EaseIn, k);
            var gk' := RampGainAt(|r|, s.duckedFonDb, SilenceDb, None, EaseIn, k');
            && outroStart + k' < |fonExt|
            && r[k] == AddGain(fonExt[outroStart + k], gk)
            && MinR(s.duckedFonDb, SilenceDb) <= gk <= MaxR(s.duckedFonDb, SilenceDb)
            && (SilenceDb <= s.duckedFonDb ==> gk' <= gk)
  {
    var r := OutroDown(fonExt, outroStart, target, s, sCurve);
    var fadeEnd := Min(Max(Trunc(target), outroStart + MinOutroBodyMs), |fonExt|);
    var c := if fadeEnd - outroStart > MinFadeMs then fonExt[outroStart..fadeEnd] else fonExt[outroStart..];
    assert r == EasedGainRamp(c, s.duckedFonDb, SilenceDb, None, EaseIn);
    EasedRampGains(c, s.duckedFonDb, SilenceDb, None, EaseIn, k, k');
    assert c[k] == fonExt[outroStart + k];
  }

  /** The background of one spot: the intro ramp from the start level down
      to the ducked level (ease-out), the ducked body under the voice, then
      either the ending sting (when one is given and not empty) or the
      fade-out. */
  function Background(fonExt: Clip, s: Settings, voiceLen: nat, target: real, ending: Option<Clip>,
                      sCurve: real -> real): (bg: Clip)
    ensures var introPart := Slice(fonExt, 0, s.introMs);
            var body := Slice(fonExt, s.introMs, s.introMs + voiceLen);
            |bg| >= |introPart| + |body|
    ensures 0 <= s.introMs && s.introMs + voiceLen <= |fonExt| ==>
              && |bg| >= s.introMs + voiceLen
              && bg[..s.introMs] == EasedGainRamp(fonExt[..s.introMs], s.startFonDb, s.duckedFonDb, None, EaseOut)
              && (forall k :: s.introMs <= k < s.introMs + voiceLen ==> bg[k] == AddGain(fonExt[k], s.duckedFonDb))
              && bg[s.introMs + voiceLen..] ==
                 (if ending.Some? then ending.value else OutroDown(fonExt, s.introMs + voiceLen, target, s, sCurve))
  {
    var introFon := EasedGainRamp(Slice(fonExt, 0, s.introMs), s.startFonDb, s.duckedFonDb, None,
                                  CurveNamed("ease_out", sCurve));
    var body := ApplyGain(Slice(fonExt, s.introMs, s.introMs + voiceLen), s.duckedFonDb);
    var tail :=
      if ending.Some? then (if |ending.value| > 0 then ending.value else [])
      else OutroDown(fonExt, s.introMs + voiceLen, target, s, sCurve);
    introFon + body + tail
  }

  /** Over the intro each millisecond is the background moved by a gain
      between the start level and the ducked level that only ever moves
      towards the ducked level. */
  lemma BackgroundIntroDucks(fonExt: Clip, s: Settings, voiceLen: nat, target: real, ending: Option<Clip>,
                             sCurve: real -> real, k: nat, k': nat)
    requires s.introMs + voiceLen <= |fonExt|
    requires k <= k' < s.introMs
    ensures var bg := Background(fonExt, s, voiceLen, target, ending, sCurve);
            var gk := RampGainAt(s.introMs, s.startFonDb, s.duckedFonDb, None, EaseOut, k);
            var gk' := RampGainAt(s.introMs, s.startFonDb, s.duckedFonDb, None, EaseOut, k');
            && k' < |bg|
            && bg[k] == AddGain(fonExt[k], gk)
            && MinR(s.startFonDb, s.duckedFonDb) <= gk <= MaxR(s.startFonDb, s.duckedFonDb)
            && (s.duckedFonDb <= s.startFonDb ==> gk' <= gk)
            && (s.startFonDb <= s.duckedFonDb ==> gk <= gk')
  {
    var bg := Background(fonExt, s, voiceLen, target, ending, sCurve);
    var c := fonExt[..s.introMs];
    EasedRampGains(c, s.startFonDb, s.duckedFonDb, None, EaseOut, k, k');
    assert bg[k] == bg[..s.introMs][k];
  }

  /** The ending sting brought to the voice level: normalised to -0.1 dBFS,
      then moved by `voice_db + 0.1`. */
  function PrepareEnding(raw: Clip, s: Settings): (r: Clip)
    ensures |r| == |raw|
    ensures Peak(raw).Db? && !(-NormalizeToleranceDb <= NormalizeTargetDb - Peak(raw).db <= NormalizeToleranceDb) ==>
              Peak(r) == Db(NormalizeTargetDb + (s.voiceDb - NormalizeTargetDb))
    ensures Peak(raw).Db? && -NormalizeToleranceDb <= NormalizeTargetDb - Peak(raw).db <= NormalizeToleranceDb ==>
              Peak(r) == AddGain(Peak(raw), s.voiceDb - NormalizeTargetDb)
    ensures Peak(raw).Silence? ==> Peak(r).Silence?
  {
    var n := NormalizeInMemory(raw);
    PeakGain(n, s.voiceDb - NormalizeTargetDb);
    ApplyGain(n, s.voiceDb - NormalizeTargetDb)
  }

  /** `int(int(pos * rate / 1000) / (rate / 1000))`: the overlay position
      snapped to a whole sample and back to whole milliseconds. */
  function OverlayPosition(introMs: int, rate: int): int
    requires rate > 0
  {
    var samplesPerMs := rate as real / 1000.0;
    Trunc(Trunc(introMs as real * samplesPerMs) as real / samplesPerMs)
  }

  /** For any rate of at least 1 kHz the snapped position is the intro
      length when the intro is a whole number of samples, and one
      millisecond earlier otherwise. */
  lemma OverlayPositionQuantised(introMs: nat, rate: int)
    requires rate >= 1000
    ensures (introMs * rate) % 1000 == 0 ==> OverlayPosition(introMs, rate) == introMs
    ensures (introMs * rate) % 1000 != 0 ==> OverlayPosition(introMs, rate) == introMs - 1
  {
    var q, r := (introMs * rate) / 1000, (introMs * rate) % 1000;
    SamplesOfIntro(introMs, rate, q, r);
    TruncOffset(q, r as real / 1000.0);
    MillisOfSamples(introMs, rate, q, r);
    TruncBelow(introMs, r as real / rate as real);
  }

  /** Position times rate over 1000, written as whole samples and a
      fraction; the fraction is non-zero only for a non-zero position. */
  lemma SamplesOfIntro(introMs: nat, rate: int, q: int, r: int)
    requires rate >= 1000 && q == (introMs * rate) / 1000 && r == (introMs * rate) % 1000
    ensures q >= 0 && introMs as real * (rate as real / 1000.0) == q as real + r as real / 1000.0
    ensures introMs * rate == 1000 * q + r && 0.0 <= r as real / 1000.0 < 1.0
    ensures 0.0 <= r as real / rate as real < 1.0
    ensures r != 0 ==> introMs >= 1 && r as real / rate as real > 0.0
  {
    assert introMs * rate == 1000 * q + r;
    assert (introMs * rate) as real == 1000.0 * q as real + r as real;
    assert r as real < rate as real;
  }

  /** Whole samples back in milliseconds: the position less the fraction
      of a millisecond that was dropped. */
  lemma MillisOfSamples(introMs: nat, rate: int, q: int, r: int)
    requires rate >= 1000 && introMs * rate == 1000 * q + r
    ensures q as real / (rate as real / 1000.0) == introMs as real - r as real / rate as real
  {
    assert q as real * 1000.0 == introMs as real * rate as real - r as real;
    assert q as real / (rate as real / 1000.0) == q as real * 1000.0 / rate as real;
  }

  /** A non-negative whole number plus a fraction truncates to the whole
      number. */
  lemma TruncOffset(q: int, f: real)
    requires q >= 0 && 0.0 <= f < 1.0
    ensures Trunc(q as real + f) == q
  {
  }

  /** A whole number less a fraction truncates to itself when the fraction
      is zero and to the number below otherwise. */
  lemma TruncBelow(n: nat, e: real)
    requires 0.0 <= e < 1.0 && (e > 0.0 ==> n >= 1)
    ensures e == 0.0 ==> Trunc(n as real - e) == n
    ensures e > 0.0 ==> Trunc(n as real - e) == n - 1
  {
  }

  /** At 44.1 kHz a whole millisecond is a whole sample only every 10 ms:
      the voice lands exactly at the intro end when that is a multiple of
      10 ms and one millisecond earlier otherwise. */
  lemma OverlayPositionAt44k(introMs: nat)
    ensures introMs % 10 == 0 ==> OverlayPosition(introMs, TargetFrameRate) == introMs
    ensures introMs % 10 != 0 ==> OverlayPosition(introMs, TargetFrameRate) == introMs - 1
  {
    OverlayPositionQuantised(introMs, TargetFrameRate);
    var a, b := introMs / 10, introMs % 10;
    var k := introMs * 44100;
    assert k == 1000 * (441 * a + 44 * b) + 100 * b;
    ModOfSplit(k, 1000, 441 * a + 44 * b, 100 * b);
  }

  /** pydub's `background.overlay(voice, position)`: the voice is mixed in
      from the position on (a negative position counts from the end) and
      cut at the end of the background, whose length never changes. */
  function Overlay(bg: Clip, voice: Clip, position: int, mix: (Level, Level) -> Level): (r: Clip)
    ensures |r| == |bg|
    ensures var p := SliceBound(position, |bg|);
            forall k :: 0 <= k < |bg| ==>
              r[k] == if p <= k < p + |voice| then mix(bg[k], voice[k - p]) else bg[k]
  {
    var p := SliceBound(position, |bg|);
    seq(|bg|, k requires 0 <= k < |bg| => if p <= k < p + |voice| then mix(bg[k], voice[k - p]) else bg[k])
  }

  /** The whole voice makes it into the mix when the background reaches past
      its end. */
  predicate VoiceFits(bgLen: int, position: int, voiceLen: int) {
    0 <= position && position + voiceLen <= bgLen
  }

  /** The compressor runs only on a mix peaking at -17 dBFS or more; when it
      raises, the mix stays as it was. */
  function CompressIfLoud(c: Clip, compress: Clip -> Option<Clip>): (r: Clip)
    ensures PeakBelow(Peak(c), CompressorThresholdDb + CompressorSkipMarginDb) ==> r == c
    ensures !PeakBelow(Peak(c), CompressorThresholdDb + CompressorSkipMarginDb) ==>
              r == (if compress(c).Some? then compress(c).value else c)
  {
    if PeakBelow(Peak(c), CompressorThresholdDb + CompressorSkipMarginDb) then c
    else match compress(c)
      case Some(d) => d
      case None => c
  }

  /** pydub's `effects.normalize` with its default 0.1 dB headroom: the peak
      moves to -0.1 dBFS; a silent clip is returned as it is. */
  function PydubNormalize(c: Clip): (r: Clip)
    ensures |r| == |c|
    ensures Peak(c).Silence? ==> r == c
    ensures Peak(c).Db? ==> Peak(r) == Db(NormalizeTargetDb)
  {
    match Peak(c)
    case Silence => c
    case Db(p) =>
      PeakGain(c, NormalizeTargetDb - p);
      ApplyGain(c, NormalizeTargetDb - p)
  }

  /** Mastering step 1: a peak above -1 dBFS is pulled down to -1. */
  function LimitPeak(c: Clip): (r: Clip)
    ensures |r| == |c|
    ensures Peak(c).Silence? ==> r == c
    ensures Peak(c).Db? ==> Peak(r) == Db(MinR(Peak(c).db, PeakHeadroomDb))
    ensures exists g :: r == ApplyGain(c, g)
  {
    match Peak(c)
    case Silence =>
      assert c == ApplyGain(c, 0.0);
      c
    case Db(p) =>
      if p > PeakHeadroomDb then
        PeakGain(c, PeakHeadroomDb - p);
        ApplyGain(c, PeakHeadroomDb - p)
      else
        assert c == ApplyGain(c, 0.0);
        c
  }

  /** Mastering step 2: a peak outside [-0.3, 0] dBFS is normalised to -0.1
      and then, being above -0.3, pulled down to -0.3. */
  function SoftLimit(c: Clip): (r: Clip)
    ensures |r| == |c|
    ensures Peak(c).Silence? ==> r == c
    ensures Peak(c).Db? && SoftLimitDb <= Peak(c).db <= 0.0 ==> r == c
    ensures Peak(c).Db? && !(SoftLimitDb <= Peak(c).db <= 0.0) ==> Peak(r) == Db(SoftLimitDb)
    ensures exists g :: r == ApplyGain(c, g)
  {
    var current := Peak(c);
    if PeakBelow(current, SoftLimitDb) || PeakAbove(current, 0.0) then
      var n := PydubNormalize(c);
      var g := if current.Db? then NormalizeTargetDb - current.db else 0.0;
      assert n == ApplyGain(c, g);
      var after := Peak(n);
      if PeakAbove(after, SoftLimitDb) then
        PeakGain(n, SoftLimitDb - after.db);
        GainGain(c, g, SoftLimitDb - after.db);
        ApplyGain(n, SoftLimitDb - after.db)
      else
        n
    else
      assert c == ApplyGain(c, 0.0);
      c
  }

  /** The mastering chain: peak limiting, then normalisation and soft
      limiting. */
  function Master(c: Clip): (r: Clip)
    ensures |r| == |c|
  {
    SoftLimit(LimitPeak(c))
  }

  /** Every audible mix leaves mastering peaking at exactly -0.3 dBFS, and a
      silent one stays silent; mastering only ever changes the overall gain. */
  lemma MasterPeak(c: Clip)
    ensures Peak(c).Db? ==> Peak(Master(c)) == Db(SoftLimitDb)
    ensures Peak(c).Silence? ==> Master(c) == c
    ensures exists g :: Master(c) == ApplyGain(c, g)
  {
    var l := LimitPeak(c);
    var g1 :| l == ApplyGain(c, g1);
    var g2 :| SoftLimit(l) == ApplyGain(l, g2);
    GainGain(c, g1, g2);
  }

  /** Python's truthiness of an optional path: given and not empty. */
  predicate Given(p: Option<string>) {
    p.Some? && |p.value| > 0
  }

  /** One spot, from the voice range to the mastered clip: the background
      is extended (which fails on an empty background), the ending sting is
      decoded when one is given (which may fail), and the voice is mixed in,
      compressed and mastered. `corrected` chooses the intended background
      length over the one as written (see TotalNeeded). */
  function RenderSpot(ham: Clip, fon: Clip, range: Range, s: Settings, io: Io, fonPath: string,
                      endingPath: Option<string>, corrected: bool): (r: Result<Clip, MontageError>)
    ensures r.Err? ==> r.error == EmptyBackground
                       || (Given(endingPath) && io.decode(endingPath.value).Err?
                           && r.error == LoadFailed(endingPath.value, io.decode(endingPath.value).error))
  {
    var voice := Slice(ham, range.start, range.end);
    var hasEnding := Given(endingPath);
    var target := OutroTarget(io, fonPath, s, |voice|, hasEnding);
    var needed := if corrected then TotalNeeded(s, |voice|, target, hasEnding)
                  else TotalNeededAsWritten(s, |voice|, target, hasEnding);
    match ExtendBackground(fon, needed)
    case Err(e) => Err(e)
    case Ok(fonExt) =>
      var loaded := if hasEnding then Some(io.decode(endingPath.value)) else None;
      if loaded.Some? && loaded.value.Err? then Err(LoadFailed(endingPath.value, loaded.value.error))
      else
        var ending := if loaded.Some? then Some(PrepareEnding(loaded.value.value, s)) else None;
        var bg := Background(fonExt, s, |voice|, target, ending, io.sCurve);
        var mixed := Overlay(bg, ApplyGain(voice, s.voiceDb), OverlayPosition(s.introMs, TargetFrameRate), io.mixLevel);
        var compressed := CompressIfLoud(mixed, io.compress);
        Ok(Master(compressed))
  }

  /** A spot fails exactly when the background is empty but needed, or
      else when the ending sting does not decode. */
  lemma RenderSpotErrors(ham: Clip, fon: Clip, range: Range, s: Settings, io: Io, fonPath: string,
                         endingPath: Option<string>, corrected: bool)
    ensures var voiceLen := |Slice(ham, range.start, range.end)|;
            var target := OutroTarget(io, fonPath, s, voiceLen, Given(endingPath));
            var needed := if corrected then TotalNeeded(s, voiceLen, target, Given(endingPath))
                          else TotalNeededAsWritten(s, voiceLen, target, Given(endingPath));
            var r := RenderSpot(ham, fon, range, s, io, fonPath, endingPath, corrected);
            && (|fon| == 0 && needed > 0 ==> r == Err(EmptyBackground))
            && (!(|fon| == 0 && needed > 0) && Given(endingPath) && io.decode(endingPath.value).Err? ==>
                  r == Err(LoadFailed(endingPath.value, io.decode(endingPath.value).error)))
            && (!(|fon| == 0 && needed > 0) && !(Given(endingPath) && io.decode(endingPath.value).Err?) ==> r.Ok?)
  {
  }

  /** With the intended background length the whole voice is always mixed
      in: the background covers the intro and the voice. */
  lemma VoiceAlwaysFits(fon: Clip, s: Settings, voiceLen: nat, target: real, ending: Option<Clip>,
                        sCurve: real -> real)
    requires s.introMs >= 0
    requires ExtendBackground(fon, TotalNeeded(s, voiceLen, target, ending.Some?)).Ok?
    ensures var fonExt := ExtendBackground(fon, TotalNeeded(s, voiceLen, target, ending.Some?)).value;
            var bg := Background(fonExt, s, voiceLen, target, ending, sCurve);
            VoiceFits(|bg|, OverlayPosition(s.introMs, TargetFrameRate), voiceLen)
  {
    var fonExt := ExtendBackground(fon, TotalNeeded(s, voiceLen, target, ending.Some?)).value;
    assert |fonExt| >= s.introMs + voiceLen;
    OverlayPositionBounds(s.introMs);
  }

  /** The snapped position is the intro length or one millisecond before. */
  lemma OverlayPositionBounds(introMs: nat)
    ensures introMs - 1 <= OverlayPosition(introMs, TargetFrameRate) <= introMs
    ensures 0 <= OverlayPosition(introMs, TargetFrameRate)
  {
    OverlayPositionAt44k(introMs);
  }

  /** As written, a voice longer than the background music loses its end:
      with 10 s of music whose analysis finds no beat or quiet frame after the
      hold, a 30 s voice and the default settings, the music end point is the
      music's own end (10 s), only 13 s of background are prepared (two
      copies, 20 s), and the mix is 23 s long, so 10 s of the voice are cut. */
  lemma VoiceCutAsWritten(fon: Clip, voiceLen: nat, io: Io, fonPath: string)
    requires |fon| == 10000 && voiceLen == 30000
    requires io.analyseMusic(fonPath) == Ok(Analysis(220500, [], []))
    ensures var s := DefaultSettings;
            var target := OutroTarget(io, fonPath, s, voiceLen, false);
            var needed := TotalNeededAsWritten(s, voiceLen, target, false);
            var fonExt := ExtendBackground(fon, needed).value;
            var bg := Background(fonExt, s, voiceLen, target, None, io.sCurve);
            target == 10000.0 && |fonExt| == 20000 && |bg| == 23000 &&
            !VoiceFits(|bg|, OverlayPosition(s.introMs, TargetFrameRate), voiceLen)
  {
    var s := DefaultSettings;
    var a := Analysis(220500, [], []);
    assert DurationMs(a, SampleRate) == 10000.0;
    assert Candidates(a, SampleRate, 33000.0) == [] by {
      assert Median([]) == None;
      assert QuietTimes(a, SampleRate) == [];
      assert a.beatTimesMs + QuietTimes(a, SampleRate) == [];
    }
    var target := OutroTarget(io, fonPath, s, voiceLen, false);
    assert target == 10000.0;
    assert Trunc(10000.0) == 10000;
    var needed := TotalNeededAsWritten(s, voiceLen, target, false);
    assert needed == 13000;
    assert CeilDiv(13000, 10000) == 2;
    var fonExt := ExtendBackground(fon, needed).value;
    assert |fonExt| == 20000;
    var bg := Background(fonExt, s, voiceLen, target, None, io.sCurve);
    var outro := OutroDown(fonExt, 33000, target, s, io.sCurve);
    assert |outro| == 3000;
    assert |bg| == 3000 + 17000 + 3000;
    OverlayPositionAt44k(3000);
  }

  // ---------------------------------------------------------------- naming

  /** Python's `str(n)` for any integer. */
  function IntToString(n: int): (s: string)
    ensures '.' !in s && ' ' !in s && |s| >= 1
    ensures n >= 0 ==> s == NatToString(n)
    ensures n < 0 ==> s == "-" + NatToString(-n)
  {
    if n < 0 then "-" + NatToString(-n) else NatToString(n)
  }

  lemma IntToStringInjective(m: int, n: int)
    requires IntToString(m) == IntToString(n)
    ensures m == n
  {
    if m >= 0 && n >= 0 {
      NatToStringInjective(m, n);
    } else if m < 0 && n < 0 {
      assert NatToString(-m) == IntToString(m)[1..];
      NatToStringInjective(-m, -n);
    }
  }

  /** `os.path.join(output_dir, f"{stem} {idx + offset}.{format}")`, where
      the stem is the voice file's basename without its extension. */
  function OutputPath(hamPath: string, outputDir: string, outputFormat: string, spotNumber: int): (p: string)
    ensures EndsWith(p, "." + outputFormat) && StartsWith(p, outputDir)
  {
    var name := SpotFileName(hamPath, outputFormat, spotNumber);
    Paths.Join(outputDir, name)
  }

  /** `f"{stem} {number}.{format}"`. */
  function SpotFileName(hamPath: string, outputFormat: string, spotNumber: int): (name: string)
    ensures |name| > 0 && name[0] != Sep
    ensures EndsWith(name, "." + outputFormat)
    ensures name == (Stem(Basename(hamPath)) + " ") + (IntToString(spotNumber) + ("." + outputFormat))
  {
    var stem := Stem(Basename(hamPath));
    var suffix := "." + outputFormat;
    var tail := IntToString(spotNumber) + suffix;
    StemHasNoSep(hamPath);
    EndsWithConcat(IntToString(spotNumber), suffix);
    FileNameShape(stem, tail, suffix);
    (stem + " ") + tail
  }

  lemma FileNameShape(stem: string, tail: string, suffix: string)
    requires Sep !in stem && EndsWith(tail, suffix)
    ensures var name := (stem + " ") + tail; name[0] != Sep && EndsWith(name, suffix)
  {
    var name := (stem + " ") + tail;
    if |stem| > 0 {
      assert name[0] == stem[0];
      assert stem[0] in stem;
    } else {
      assert name[0] == ' ';
    }
    assert name[|name| - |suffix|..] == tail[|tail| - |suffix|..];
  }

  lemma EndsWithConcat(a: string, b: string)
    ensures EndsWith(a + b, b)
  {
    assert (a + b)[|a|..] == b;
  }

  lemma StemHasNoSep(p: string)
    ensures Sep !in Stem(Basename(p))
  {
    var b := Basename(p);
    var stem := Stem(b);
    assert stem == b[..|stem|];
    PrefixKeepsOut(b, |stem|, Sep);
  }

  lemma PrefixKeepsOut(s: string, n: nat, c: char)
    requires n <= |s| && c !in s
    ensures c !in s[..n]
  {
  }

  /** Different spot numbers never share an output file, whichever voice
      files they belong to: the number is the last word of the name. */
  lemma OutputPathsDistinct(hamPath: string, hamPath': string, outputDir: string, outputFormat: string, m: int, n: int)
    requires m != n
    ensures OutputPath(hamPath, outputDir, outputFormat, m) != OutputPath(hamPath', outputDir, outputFormat, n)
  {
    var a := SpotFileName(hamPath, outputFormat, m);
    var b := SpotFileName(hamPath', outputFormat, n);
    if OutputPath(hamPath, outputDir, outputFormat, m) == OutputPath(hamPath', outputDir, outputFormat, n) {
      JoinInjective(outputDir, a, b);
      FinalWord(Stem(Basename(hamPath)) + " ", Stem(Basename(hamPath')) + " ",
                IntToString(m), IntToString(n), "." + outputFormat);
      IntToStringInjective(m, n);
    }
  }

  /** Equal texts made of a space-terminated head, a word without spaces and
      a common suffix have the same word. */
  lemma FinalWord(x: string, y: string, d: string, e: string, suffix: string)
    requires |x| > 0 && x[|x| - 1] == ' ' && |y| > 0 && y[|y| - 1] == ' '
    requires ' ' !in d && ' ' !in e
    requires x + (d + suffix) == y + (e + suffix)
    ensures d == e
  {
    var a := x + (d + suffix);
    assert a[..|a| - |suffix|] == x + d;
    assert (y + (e + suffix))[..|a| - |suffix|] == y + e;
    LastWord(x, y, d, e);
  }

  lemma JoinInjective(dir: string, a: string, b: string)
    requires |a| == 0 || a[0] != Sep
    requires |b| == 0 || b[0] != Sep
    requires Paths.Join(dir, a) == Paths.Join(dir, b)
    ensures a == b
  {
    var j := Paths.Join(dir, a);
    if |dir| == 0 || dir[|dir| - 1] == Sep {
      assert a == j[|dir|..] == b;
    } else {
      assert a == j[|dir| + 1..] == b;
    }
  }

  /** Two texts that each end in a space followed by a word without spaces
      end in the same word when they are equal. */
  lemma LastWord(x: string, y: string, d: string, e: string)
    requires |x| > 0 && x[|x| - 1] == ' ' && |y| > 0 && y[|y| - 1] == ' '
    requires ' ' !in d && ' ' !in e
    requires x + d == y + e
    ensures d == e
  {
    var u := x + d;
    if |d| < |e| {
      SpaceBeforeWord(x, d, y, e);
      assert false;
    } else if |e| < |d| {
      SpaceBeforeWord(y, e, x, d);
      assert false;
    } else {
      assert d == u[|x|..] == e;
    }
  }

  /** When a text ends in a space and a word, a longer final word of an equal
      text takes in that space. */
  lemma SpaceBeforeWord(x: string, d: string, y: string, e: string)
    requires |x| > 0 && x[|x| - 1] == ' '
    requires x + d == y + e && |d| < |e|
    ensures ' ' in e
  {
    var u := x + d;
    assert u[|u| - |d| - 1] == x[|x| - 1];
    assert u[|u| - |d| - 1] == e[|e| - |d| - 1];
  }

  // ---------------------------------------------------------------- montage

  /** The arguments of `ses_montaj`: the voice recording, where and in
      which format to write, the background music, ranges analysed earlier
      (if any), the settings, the number the first spot's file name is
      offset by, and the optional ending sting. */
  datatype MontageRequest = MontageRequest(
    hamPath: string, outputDir: string, outputFormat: string, fonPath: Option<string>,
    mergedRanges: Option<seq<Range>>, advanced: Option<map<string, real>>, overrides: Overrides,
    spotIndexOffset: int, endingPath: Option<string>)

  /** One exported spot: its number (which names its file) and its audio. */
  datatype Export = Export(spotNumber: int, audio: Clip)

  /** What a montage leaves behind: the spots exported in order, the
      progress values reported, and whether it stopped because the
      cancellation callback said so. */
  datatype MontageRun = MontageRun(exported: seq<Export>, progress: seq<int>, cancelled: bool)

  /** The list `ses_montaj` returns: the paths of the exported spots, or
      nothing after a cancellation (the files already written stay). */
  function ReturnedPaths(req: MontageRequest, run: MontageRun): (ps: seq<string>)
    ensures run.cancelled ==> ps == []
    ensures !run.cancelled ==> |ps| == |run.exported|
    ensures !run.cancelled ==> forall j :: 0 <= j < |ps| ==>
              ps[j] == OutputPath(req.hamPath, req.outputDir, req.outputFormat, run.exported[j].spotNumber)
  {
    if run.cancelled then []
    else seq(|run.exported|, j requires 0 <= j < |run.exported| =>
               OutputPath(req.hamPath, req.outputDir, req.outputFormat, run.exported[j].spotNumber))
  }

  /** `int(idx / total * 95)`: the progress reported before spot `idx`. */
  function SpotProgress(idx: int, total: int): int
    requires total > 0
  {
    Trunc(idx as real / total as real * 95.0)
  }

  /** Spot progress stays within [0, 95] and never goes back. */
  lemma SpotProgressBounds(idx: int, jdx: int, total: int)
    requires 1 <= idx <= jdx <= total
    ensures 0 <= SpotProgress(idx, total) <= SpotProgress(jdx, total) <= 95
  {
    var t := total as real;
    var x := idx as real / t;
    var y := jdx as real / t;
    QuotientBounds(idx as real, t);
    QuotientBounds(jdx as real, t);
    QuotientGap(idx as real, jdx as real, t);
    QuotientBounds(jdx as real - idx as real, t);
    assert 0.0 <= x * 95.0 <= y * 95.0 <= 95.0;
  }

  /** A share of a positive whole lies in [0, 1]. */
  lemma QuotientBounds(a: real, t: real)
    requires 0.0 <= a <= t && 0.0 < t
    ensures 0.0 <= a / t <= 1.0
  {
    assert (a / t) * t == a;
  }

  lemma QuotientGap(a: real, b: real, t: real)
    requires 0.0 < t
    ensures b / t - a / t == (b - a) / t
  {
  }

  /** The spots from position `i` on: poll the cancellation callback
      (`cancelled(i)` is its answer at the poll before range `i`), report
      progress, take the rendering of range `i` (`rendered[i]`, which may be
      an error) and export it as spot number `i + 1 + offset`; after the
      last one report 100. */
  function RenderFrom(rendered: seq<Result<Clip, MontageError>>, i: nat, cancelled: nat -> bool, offset: int):
    (r: Result<MontageRun, MontageError>)
    requires i <= |rendered|
    ensures r.Err? ==> exists j :: i <= j < |rendered| && rendered[j] == Err(r.error)
    ensures r.Ok? ==>
              var run := r.value;
              && |run.exported| <= |rendered| - i
              && (!run.cancelled ==> |run.exported| == |rendered| - i)
              && |run.progress| == |run.exported| + (if run.cancelled then 0 else 1)
              && (!run.cancelled ==> run.progress[|run.progress| - 1] == 100)
    decreases |rendered| - i
  {
    if i == |rendered| then Ok(MontageRun([], [100], false))
    else if cancelled(i) then Ok(MontageRun([], [], true))
    else
      match rendered[i]
      case Err(e) => Err(e)
      case Ok(audio) =>
        match RenderFrom(rendered, i + 1, cancelled, offset)
        case Err(e) => Err(e)
        case Ok(rest) =>
          Ok(MontageRun([Export(i + 1 + offset, audio)] + rest.exported,
                        [SpotProgress(i + 1, |rendered|)] + rest.progress, rest.cancelled))
  }

  /** One step of a run that did not stop at position `i`: it exports the
      spot of range `i` and continues with the run from `i + 1`. */
  lemma RunStep(rendered: seq<Result<Clip, MontageError>>, i: nat, cancelled: nat -> bool, offset: int)
    requires i < |rendered| && !cancelled(i)
    requires RenderFrom(rendered, i, cancelled, offset).Ok?
    ensures var r := RenderFrom(rendered, i, cancelled, offset).value;
            var rest := RenderFrom(rendered, i + 1, cancelled, offset);
            && rest.Ok?
            && rendered[i].Ok?
            && r.exported == [Export(i + 1 + offset, rendered[i].value)] + rest.value.exported
            && r.progress == [SpotProgress(i + 1, |rendered|)] + rest.value.progress
            && r.cancelled == rest.value.cancelled
  {
  }

  /** A run stops early exactly when the callback asks it to at one of the
      remaining polls and never skips a poll; it succeeds whenever every
      rendering does. */
  lemma {:induction false} RunCancellation(rendered: seq<Result<Clip, MontageError>>, i: nat, cancelled: nat -> bool,
                                           offset: int)
    requires i <= |rendered|
    ensures var r := RenderFrom(rendered, i, cancelled, offset);
            r.Ok? ==>
              && (r.value.cancelled <==> exists j :: i <= j < |rendered| && cancelled(j))
              && (r.value.cancelled ==> cancelled(i + |r.value.exported|))
              && forall j :: i <= j < i + |r.value.exported| ==> !cancelled(j)
    ensures (forall j :: i <= j < |rendered| ==> rendered[j].Ok?) ==> RenderFrom(rendered, i, cancelled, offset).Ok?
    decreases |rendered| - i
  {
    var r := RenderFrom(rendered, i, cancelled, offset);
    if i < |rendered| && !cancelled(i) {
      RunCancellation(rendered, i + 1, cancelled, offset);
      if r.Ok? {
        RunStep(rendered, i, cancelled, offset);
      }
    }
  }

  /** Spot `j` of a run from position `i` is the rendering of range
      `i + j`, numbered `i + j + 1` plus the offset, and is preceded by its
      progress report. */
  lemma RunSpots(rendered: seq<Result<Clip, MontageError>>, i: nat, cancelled: nat -> bool, offset: int)
    requires i <= |rendered|
    ensures var r := RenderFrom(rendered, i, cancelled, offset);
            r.Ok? ==> forall j :: 0 <= j < |r.value.exported| ==>
              && r.value.progress[j] == SpotProgress(i + j + 1, |rendered|)
              && r.value.exported[j].spotNumber == i + j + 1 + offset
              && rendered[i + j] == Ok(r.value.exported[j].audio)
  {
    var r := RenderFrom(rendered, i, cancelled, offset);
    if r.Ok? {
      forall j | 0 <= j < |r.value.exported|
        ensures && r.value.progress[j] == SpotProgress(i + j + 1, |rendered|)
                && r.value.exported[j].spotNumber == i + j + 1 + offset
                && rendered[i + j] == Ok(r.value.exported[j].audio)
      {
        RunSpotAt(rendered, i, cancelled, offset, j);
      }
    }
  }

  /** Spot `j` of a successful run from position `i`: the rendering of
      range `i + j`, numbered `i + j + 1` plus the offset, after the progress
      report for that range. */
  lemma {:induction false} RunSpotAt(rendered: seq<Result<Clip, MontageError>>, i: nat, cancelled: nat -> bool,
                                     offset: int, j: nat)
    requires i <= |rendered| && RenderFrom(rendered, i, cancelled, offset).Ok?
    requires j < |RenderFrom(rendered, i, cancelled, offset).value.exported|
    ensures var r := RenderFrom(rendered, i, cancelled, offset).value;
            && r.progress[j] == SpotProgress(i + j + 1, |rendered|)
            && r.exported[j].spotNumber == i + j + 1 + offset
            && rendered[i + j] == Ok(r.exported[j].audio)
    decreases j
  {
    assert i < |rendered| && !cancelled(i);
    RunStep(rendered, i, cancelled, offset);
    if j > 0 {
      RunSpotAt(rendered, i + 1, cancelled, offset, j - 1);
      assert i + 1 + (j - 1) == i + j;
    }
  }

  /** The progress reported from position `i` on never goes back and stays
      within [0, 100]. */
  lemma RunProgress(rendered: seq<Result<Clip, MontageError>>, i: nat, cancelled: nat -> bool, offset: int)
    requires i <= |rendered|
    ensures var r := RenderFrom(rendered, i, cancelled, offset);
            r.Ok? ==>
              var p := r.value.progress;
              && (forall a, b :: 0 <= a < b < |p| ==> p[a] <= p[b])
              && (forall a :: 0 <= a < |p| ==> 0 <= p[a] <= 100)
  {
    RunProgressBounded(rendered, i, cancelled, offset);
    RunProgressOrdered(rendered, i, cancelled, offset);
  }

  /** Every progress report of a run lies between 0 and 100. */
  lemma RunProgressBounded(rendered: seq<Result<Clip, MontageError>>, i: nat, cancelled: nat -> bool, offset: int)
    requires i <= |rendered|
    ensures var r := RenderFrom(rendered, i, cancelled, offset);
            r.Ok? ==> forall a :: 0 <= a < |r.value.progress| ==> 0 <= r.value.progress[a] <= 100
  {
    var r := RenderFrom(rendered, i, cancelled, offset);
    if r.Ok? {
      var p := r.value.progress;
      forall a | 0 <= a < |p|
        ensures 0 <= p[a] <= 100
      {
        if a < |r.value.exported| {
          RunSpotAt(rendered, i, cancelled, offset, a);
          SpotProgressBounds(i + a + 1, i + a + 1, |rendered|);
        }
      }
    }
  }

  /** The progress reports of a run never go down. */
  lemma RunProgressOrdered(rendered: seq<Result<Clip, MontageError>>, i: nat, cancelled: nat -> bool, offset: int)
    requires i <= |rendered|
    ensures var r := RenderFrom(rendered, i, cancelled, offset);
            r.Ok? ==> forall a, b :: 0 <= a < b < |r.value.progress| ==> r.value.progress[a] <= r.value.progress[b]
  {
    var r := RenderFrom(rendered, i, cancelled, offset);
    if r.Ok? {
      var p := r.value.progress;
      var n := |r.value.exported|;
      forall a, b | 0 <= a < b < |p|
        ensures p[a] <= p[b]
      {
        RunSpotAt(rendered, i, cancelled, offset, a);
        if b < n {
          RunSpotAt(rendered, i, cancelled, offset, b);
          SpotProgressBounds(i + a + 1, i + b + 1, |rendered|);
        } else {
          SpotProgressBounds(i + a + 1, i + a + 1, |rendered|);
        }
      }
    }
  }


  /** The speech ranges to cut: the ones given, or (when none or an empty
      list is given) the analysis of the voice recording. */
  function SpeechRanges(req: MontageRequest, s: Settings, io: Io): (r: Result<seq<Range>, MontageError>)
    ensures req.mergedRanges.Some? && |req.mergedRanges.value| > 0 ==> r == Ok(req.mergedRanges.value)
    ensures !(req.mergedRanges.Some? && |req.mergedRanges.value| > 0) ==>
              var analysed := AnalyzeAudioSegments(io.decode(req.hamPath), io.detect, Some(s.maxGapMs));
              && (analysed.Err? ==> r == Err(AnalysisFailed(analysed.error)))
              && (analysed.Ok? ==> r.Ok? && forall x :: x in r.value ==> LongEnough(x))
  {
    if req.mergedRanges.Some? && |req.mergedRanges.value| > 0 then Ok(req.mergedRanges.value)
    else
      match AnalyzeAudioSegments(io.decode(req.hamPath), io.detect, Some(s.maxGapMs))
      case Err(e) => Err(AnalysisFailed(e))
      case Ok(ranges) => Ok(ranges)
  }

  /** The rendering of every valid range, in order, with the background
      length as the source computes it. */
  function RenderAll(ham: Clip, fon: Clip, valid: seq<Range>, s: Settings, io: Io, fonPath: string,
                     endingPath: Option<string>): (rs: seq<Result<Clip, MontageError>>)
    ensures |rs| == |valid|
  {
    if |valid| == 0 then []
    else [RenderSpot(ham, fon, valid[0], s, io, fonPath, endingPath, false)]
         + RenderAll(ham, fon, valid[1..], s, io, fonPath, endingPath)
  }

  /** Position `j` of RenderAll is the rendering of range `j`. */
  lemma {:induction false} RenderAllAt(ham: Clip, fon: Clip, valid: seq<Range>, s: Settings, io: Io, fonPath: string,
                                       endingPath: Option<string>, j: nat)
    requires j < |valid|
    ensures RenderAll(ham, fon, valid, s, io, fonPath, endingPath)[j]
              == RenderSpot(ham, fon, valid[j], s, io, fonPath, endingPath, false)
  {
    if j > 0 {
      RenderAllAt(ham, fon, valid[1..], s, io, fonPath, endingPath, j - 1);
    }
  }

  /** A failed rendering in RenderAll is a spot failure. */
  lemma RenderAllErrorAt(ham: Clip, fon: Clip, valid: seq<Range>, s: Settings, io: Io, fonPath: string,
                         endingPath: Option<string>, j: nat)
    requires j < |valid|
    ensures var r := RenderAll(ham, fon, valid, s, io, fonPath, endingPath)[j];
            r.Err? ==> r.error == EmptyBackground
                       || (Given(endingPath) && io.decode(endingPath.value).Err?
                           && r.error == LoadFailed(endingPath.value, io.decode(endingPath.value).error))
  {
    RenderAllAt(ham, fon, valid, s, io, fonPath, endingPath, j);
  }

  /** The inputs a montage renders from once decoding and analysis have
      succeeded: the normalised voice and music, the settings and the valid
      ranges. */
  datatype Prepared = Prepared(ham: Clip, fon: Clip, s: Settings, valid: seq<Range>)

  /** Everything `ses_montaj` does before its loop: resolve the settings,
      decode the voice and the music (failing on a missing music path),
      normalise quiet inputs, find the speech ranges and keep those of at
      least 1000 ms. */
  function Prepare(req: MontageRequest, io: Io): (r: Result<Prepared, MontageError>)
    ensures io.decode(req.hamPath).Err? ==> r == Err(LoadFailed(req.hamPath, io.decode(req.hamPath).error))
    ensures io.decode(req.hamPath).Ok? && !Given(req.fonPath) ==> r == Err(NoBackground)
    ensures io.decode(req.hamPath).Ok? && Given(req.fonPath) && io.decode(req.fonPath.value).Err? ==>
              r == Err(LoadFailed(req.fonPath.value, io.decode(req.fonPath.value).error))
    ensures var ranges := SpeechRanges(req, ResolveSettings(req.advanced, req.overrides), io);
            io.decode(req.hamPath).Ok? && Given(req.fonPath) && io.decode(req.fonPath.value).Ok? ==>
              && (ranges.Err? ==> r == Err(ranges.error))
              && (ranges.Ok? && |ranges.value| == 0 ==> r == Err(NoSpeech))
              && (ranges.Ok? && |ranges.value| > 0 && |KeepValid(ranges.value)| == 0 ==> r == Err(NoValidSegments))
    ensures r.Ok? ==>
              && io.decode(req.hamPath).Ok? && Given(req.fonPath) && io.decode(req.fonPath.value).Ok?
              && r.value.ham == NormalizeIfQuiet(io.decode(req.hamPath).value)
              && r.value.fon == NormalizeIfQuiet(io.decode(req.fonPath.value).value)
              && r.value.s == ResolveSettings(req.advanced, req.overrides)
              && var ranges := SpeechRanges(req, r.value.s, io);
                 ranges.Ok? && r.value.valid == KeepValid(ranges.value) && |r.value.valid| > 0
  {
    var s := ResolveSettings(req.advanced, req.overrides);
    match io.decode(req.hamPath)
    case Err(e) => Err(LoadFailed(req.hamPath, e))
    case Ok(hamRaw) =>
      if !Given(req.fonPath) then Err(NoBackground)
      else
        match io.decode(req.fonPath.value)
        case Err(e) => Err(LoadFailed(req.fonPath.value, e))
        case Ok(fonRaw) =>
          match SpeechRanges(req, s, io)
          case Err(e) => Err(e)
          case Ok(ranges) =>
            if |ranges| == 0 then Err(NoSpeech)
            else
              var valid := KeepValid(ranges);
              if |valid| == 0 then Err(NoValidSegments)
              else Ok(Prepared(NormalizeIfQuiet(hamRaw), NormalizeIfQuiet(fonRaw), s, valid))
  }

  /** `ses_montaj`: prepare, then render one spot per valid range. */
  function SesMontaj(req: MontageRequest, io: Io): (r: Result<MontageRun, MontageError>)
    ensures Prepare(req, io).Err? ==> r == Err(Prepare(req, io).error)
    ensures r.Ok? ==> Prepare(req, io).Ok?
    ensures Prepare(req, io).Ok? ==>
              var p := Prepare(req, io).value;
              r == RenderFrom(RenderAll(p.ham, p.fon, p.valid, p.s, io, req.fonPath.value, req.endingPath), 0,
                              io.cancelled, req.spotIndexOffset)
  {
    match Prepare(req, io)
    case Err(e) => Err(e)
    case Ok(p) =>
      RenderFrom(RenderAll(p.ham, p.fon, p.valid, p.s, io, req.fonPath.value, req.endingPath), 0,
                 io.cancelled, req.spotIndexOffset)
  }

  /** A montage that was not cancelled exports one spot per valid range and
      returns its paths, numbered from the offset plus one; a cancelled
      montage stopped at the first poll that asked it to and returns
      nothing. */
  lemma MontageSpots(req: MontageRequest, io: Io)
    ensures SesMontaj(req, io).Ok? ==>
              var run := SesMontaj(req, io).value;
              var p := Prepare(req, io).value;
              && (!run.cancelled ==> |run.exported| == |p.valid| && |ReturnedPaths(req, run)| == |p.valid|)
              && (run.cancelled <==> exists j :: 0 <= j < |p.valid| && io.cancelled(j))
              && (run.cancelled ==> ReturnedPaths(req, run) == [] && io.cancelled(|run.exported|))
              && forall j :: 0 <= j < |run.exported| ==> run.exported[j].spotNumber == j + 1 + req.spotIndexOffset
  {
    if SesMontaj(req, io).Ok? {
      var p := Prepare(req, io).value;
      var rendered := RenderAll(p.ham, p.fon, p.valid, p.s, io, req.fonPath.value, req.endingPath);
      RunSpots(rendered, 0, io.cancelled, req.spotIndexOffset);
      RunCancellation(rendered, 0, io.cancelled, req.spotIndexOffset);
    }
  }

  /** Each exported spot holds the rendering of its valid range. */
  lemma MontageSpotAudio(req: MontageRequest, io: Io, j: nat)
    ensures SesMontaj(req, io).Ok? && j < |SesMontaj(req, io).value.exported| ==>
              var p := Prepare(req, io).value;
              && j < |p.valid|
              && RenderSpot(p.ham, p.fon, p.valid[j], p.s, io, req.fonPath.value, req.endingPath, false)
                   == Ok(SesMontaj(req, io).value.exported[j].audio)
  {
    if SesMontaj(req, io).Ok? && j < |SesMontaj(req, io).value.exported| {
      var p := Prepare(req, io).value;
      var rendered := RenderAll(p.ham, p.fon, p.valid, p.s, io, req.fonPath.value, req.endingPath);
      RunSpots(rendered, 0, io.cancelled, req.spotIndexOffset);
      RenderAllAt(p.ham, p.fon, p.valid, p.s, io, req.fonPath.value, req.endingPath, j);
    }
  }

  /** A montage fails after preparation only with the failure of one of its
      spots: an empty background or an ending sting that does not decode. */
  lemma MontageSpotFailure(req: MontageRequest, io: Io)
    ensures Prepare(req, io).Ok? && SesMontaj(req, io).Err? ==>
              var e := SesMontaj(req, io).error;
              e == EmptyBackground
              || (Given(req.endingPath) && io.decode(req.endingPath.value).Err?
                  && e == LoadFailed(req.endingPath.value, io.decode(req.endingPath.value).error))
  {
    if Prepare(req, io).Ok? && SesMontaj(req, io).Err? {
      var p := Prepare(req, io).value;
      var rendered := RenderAll(p.ham, p.fon, p.valid, p.s, io, req.fonPath.value, req.endingPath);
      var j :| 0 <= j < |rendered| && rendered[j] == Err(SesMontaj(req, io).error);
      RenderAllErrorAt(p.ham, p.fon, p.valid, p.s, io, req.fonPath.value, req.endingPath, j);
    }
  }

  /** The progress reported by a montage never goes back, stays within
      [0, 100], and a montage that ran to the end reports 100 last. */
  lemma MontageProgress(req: MontageRequest, io: Io)
    ensures SesMontaj(req, io).Ok? ==>
              var p := SesMontaj(req, io).value.progress;
              && (forall a, b :: 0 <= a < b < |p| ==> p[a] <= p[b])
              && (forall a :: 0 <= a < |p| ==> 0 <= p[a] <= 100)
              && (!SesMontaj(req, io).value.cancelled ==> p[|p| - 1] == 100)
  {
    if SesMontaj(req, io).Ok? {
      var p := Prepare(req, io).value;
      RunProgress(RenderAll(p.ham, p.fon, p.valid, p.s, io, req.fonPath.value, req.endingPath), 0,
                  io.cancelled, req.spotIndexOffset);
    }
  }

  /** No two spots of one montage are written to the same file. */
  lemma MontagePathsDistinct(req: MontageRequest, io: Io)
    ensures SesMontaj(req, io).Ok? ==>
              var run := SesMontaj(req, io).value;
              var ps := ReturnedPaths(req, run);
              forall a, b :: 0 <= a < b < |ps| ==> ps[a] != ps[b]
  {
    if SesMontaj(req, io).Ok? {
      var run := SesMontaj(req, io).value;
      var p := Prepare(req, io).value;
      RunSpots(RenderAll(p.ham, p.fon, p.valid, p.s, io, req.fonPath.value, req.endingPath), 0,
               io.cancelled, req.spotIndexOffset);
      NumberedPathsDistinct(req, run);
    }
  }

  /** Spots numbered consecutively are returned under different paths. */
  lemma NumberedPathsDistinct(req: MontageRequest, run: MontageRun)
    requires forall j :: 0 <= j < |run.exported| ==> run.exported[j].spotNumber == j + 1 + req.spotIndexOffset
    ensures var ps := ReturnedPaths(req, run); forall a, b :: 0 <= a < b < |ps| ==> ps[a] != ps[b]
  {
    var ps := ReturnedPaths(req, run);
    forall a, b | 0 <= a < b < |ps|
      ensures ps[a] != ps[b]
    {
      OutputPathsDistinct(req.hamPath, req.hamPath, req.outputDir, req.outputFormat,
                          run.exported[a].spotNumber, run.exported[b].spotNumber);
    }
  }

  /** A montage of one given range of at least 1000 ms exports exactly one
      spot, numbered one past the offset, unless its single poll asks it to
      stop, in which case it exports nothing. */
  lemma SesMontajSingleRange(req: MontageRequest, io: Io, x: Range)
    requires req.mergedRanges == Some([x]) && LongEnough(x)
    ensures SesMontaj(req, io).Ok? ==>
              var run := SesMontaj(req, io).value;
              && (run.cancelled <==> io.cancelled(0))
              && (io.cancelled(0) ==> run.exported == [])
              && (!io.cancelled(0) ==> |run.exported| == 1 && run.exported[0].spotNumber == req.spotIndexOffset + 1)
  {
    if SesMontaj(req, io).Ok? {
      var p := Prepare(req, io).value;
      assert SpeechRanges(req, p.s, io) == Ok([x]);
      assert KeepValid([x]) == [x] by {
        assert [x][1..] == [];
      }
      var rendered := RenderAll(p.ham, p.fon, p.valid, p.s, io, req.fonPath.value, req.endingPath);
      assert |rendered| == 1;
      RenderOne(rendered, io.cancelled, req.spotIndexOffset);
    }
  }

  /** A run over a single rendering either stops at its one poll or exports
      that rendering as spot one past the offset. */
  lemma RenderOne(rendered: seq<Result<Clip, MontageError>>, cancelled: nat -> bool, offset: int)
    requires |rendered| == 1
    ensures var r := RenderFrom(rendered, 0, cancelled, offset);
            r.Ok? ==>
              && (cancelled(0) <==> r.value.cancelled)
              && (cancelled(0) ==> r.value.exported == [])
              && (!cancelled(0) ==> |r.value.exported| == 1 && r.value.exported[0].spotNumber == offset + 1)
  {
    var r := RenderFrom(rendered, 0, cancelled, offset);
    if r.Ok? && !cancelled(0) {
      RunStep(rendered, 0, cancelled, offset);
    }
  }
}
