/** Choosing where the background music should end (the mixer module):
    the first beat or quiet frame after a minimum hold, plus one measure. */
module Mixer {
  import opened Common
  import opened Sorting

  /** Analysis sample rate used when none is given (Hz). */
  const SampleRate: int := 22050
  /** Hop between RMS frames (samples). */
  const HopLength: int := 512
  /** The music keeps playing at least this long after the voice (ms). */
  const MinHoldMs: real := 4000.0
  /** One measure when the tempo cannot be estimated (ms). */
  const OneMeasureFallbackMs: real := 2500.0
  /** Shortest acceptable stretch from voice end to music end (ms). */
  const MinTotalOutroMs: real := 5000.0
  /** Stretch used when nothing better is found (ms). */
  const FallbackOutroMs: real := 7000.0
  /** Frames quieter than this share of the median RMS are "low energy". */
  const RmsThresholdRatio: real := 0.7

  /** What decoding and analysing the background gives: the number of mono
      samples, the beat times (ms) and the RMS value of every frame. Beat
      tracking and RMS computation are signal processing outside this
      model. */
  datatype Analysis = Analysis(sampleCount: nat, beatTimesMs: seq<real>, rms: seq<real>)

  function RealLe(a: real, b: real): bool { a <= b }

  lemma RealLeIsTotalPreorder()
    ensures TotalPreorder(RealLe)
  {
  }

  /** The values in ascending order. */
  function Ascending(s: seq<real>): (t: seq<real>)
    ensures |t| == |s| && multiset(t) == multiset(s)
    ensures forall i, j :: 0 <= i < j < |t| ==> t[i] <= t[j]
  {
    RealLeIsTotalPreorder();
    var t := SortBy(s, RealLe);
    assert forall i, j :: 0 <= i < j < |t| ==> RealLe(t[i], t[j]);
    t
  }

  /** `np.median`: the middle value, or the mean of the two middle values;
      none for an empty array (numpy's nan). */
  function Median(s: seq<real>): (m: Option<real>)
    ensures m.None? <==> |s| == 0
    ensures m.Some? ==> var t := Ascending(s);
              forall k :: 0 <= k < |t| ==>
                (k <= (|t| - 1) / 2 ==> t[k] <= m.value) && (k >= |t| / 2 ==> m.value <= t[k])
  {
    var t := Ascending(s);
    var n := |t|;
    if n == 0 then None
    else if n % 2 == 1 then Some(t[n / 2])
    else Some((t[n / 2 - 1] + t[n / 2]) / 2.0)
  }

  /** `np.diff`: differences of neighbours. */
  function Diff(s: seq<real>): (d: seq<real>)
    ensures |d| == Max(0, |s| - 1)
    ensures forall i :: 0 <= i < |d| ==> d[i] == s[i + 1] - s[i]
  {
    if |s| <= 1 then [] else seq(|s| - 1, i requires 0 <= i < |s| - 1 => s[i + 1] - s[i])
  }

  /** `frames_to_time(i, sr, hop_length=512) * 1000`. */
  function FrameTimeMs(i: int, sr: int): real
    requires sr > 0
  {
    (i * HopLength) as real / sr as real * 1000.0
  }

  /** The times of the frames whose RMS is below `thr`, in frame order. */
  function LowEnergyTimes(rms: seq<real>, thr: real, sr: int): (ts: seq<real>)
    requires sr > 0
    ensures forall x :: x in ts <==> exists i :: 0 <= i < |rms| && rms[i] < thr && x == FrameTimeMs(i, sr)
    decreases |rms|
  {
    if |rms| == 0 then []
    else
      var n := |rms| - 1;
      var front := LowEnergyTimes(rms[..n], thr, sr);
      assert forall i :: 0 <= i < n ==> rms[..n][i] == rms[i];
      front + (if rms[n] < thr then [FrameTimeMs(n, sr)] else [])
  }

  /** The values of `s` strictly after `t`, in order. */
  function After(s: seq<real>, t: real): (r: seq<real>)
    ensures forall x :: x in r <==> x in s && x > t
  {
    if |s| == 0 then [] else (if s[0] > t then [s[0]] else []) + After(s[1..], t)
  }

  /** Nothing is after a bound that every value stays within. */
  lemma {:induction false} AfterNothing(s: seq<real>, t: real)
    requires forall x :: x in s ==> x <= t
    ensures After(s, t) == []
  {
    if |s| > 0 {
      assert s[0] in s;
      assert forall x :: x in s[1..] ==> x in s;
      AfterNothing(s[1..], t);
    }
  }

  /** The smallest value: `sorted(set(...))[0]`. */
  function Least(s: seq<real>): (m: real)
    requires |s| > 0
    ensures m in s
    ensures forall x :: x in s ==> m <= x
  {
    if |s| == 1 then s[0]
    else
      var rest := Least(s[1..]);
      assert forall x :: x in s ==> x == s[0] || x in s[1..];
      MinR(s[0], rest)
  }

  /** The ending candidates: beats and quiet frames after the hold. */
  function Candidates(a: Analysis, sr: int, startMs: real): (c: seq<real>)
    requires sr > 0
    ensures forall x :: x in c <==> x > startMs + MinHoldMs && (x in a.beatTimesMs || IsQuietFrameTime(a, sr, x))
  {
    After(a.beatTimesMs + QuietTimes(a, sr), startMs + MinHoldMs)
  }

  /** The times of the frames quieter than 70% of the median RMS. */
  function QuietTimes(a: Analysis, sr: int): seq<real>
    requires sr > 0
  {
    match Median(a.rms)
    case None => []
    case Some(med) => LowEnergyTimes(a.rms, med * RmsThresholdRatio, sr)
  }

  /** `x` is the time of a frame whose RMS is below 70% of the median. */
  predicate IsQuietFrameTime(a: Analysis, sr: int, x: real)
    requires sr > 0
  {
    x in QuietTimes(a, sr)
  }

  /** One measure: four times the median beat interval when more than four
      beats were found, else the fallback. */
  function OneMeasure(beats: seq<real>): (m: real)
    ensures |beats| <= 4 ==> m == OneMeasureFallbackMs
    ensures |beats| > 4 ==> exists d :: Median(Diff(beats)) == Some(d) && m == 4.0 * d
  {
    if |beats| > 4 then
      match Median(Diff(beats))
      case Some(d) => 4.0 * d
      case None => assert false; 0.0
    else OneMeasureFallbackMs
  }

  /** `find_musical_outro_point`: the music end (ms) for a voice ending at
      `startMs`. `analysed` is the decoded and analysed background, or the
      error that loading or analysis raised; the sample rate defaults to
      22050 Hz, and a non-positive one fails like a load error. Any failure
      gives the voice end plus 7 s. */
  function FindMusicalOutroPoint(analysed: Result<Analysis, string>, startMs: real, sr: Option<int>): (r: real)
    ensures var rate := if sr.None? then SampleRate else sr.value;
            analysed.Err? || rate <= 0 ==> r == startMs + FallbackOutroMs
    ensures var rate := if sr.None? then SampleRate else sr.value;
            analysed.Ok? && rate > 0 ==>
              var dur := DurationMs(analysed.value, rate);
              r <= dur && (dur >= startMs + FallbackOutroMs ==> r >= startMs + MinTotalOutroMs)
  {
    var rate := if sr.None? then SampleRate else sr.value;
    if analysed.Err? || rate <= 0 then startMs + FallbackOutroMs
    else
      var a := analysed.value;
      var dur := DurationMs(a, rate);
      var cands := Candidates(a, rate, startMs);
      if |cands| == 0 then MinR(dur, startMs + MinHoldMs + FallbackOutroMs)
      else
        var point := MinR(Least(cands) + OneMeasure(a.beatTimesMs), dur);
        if point - startMs < MinTotalOutroMs then MinR(dur, startMs + FallbackOutroMs) else point
  }

  /** `len(y) / sr * 1000`. */
  function DurationMs(a: Analysis, sr: int): real
    requires sr > 0
  {
    a.sampleCount as real / sr as real * 1000.0
  }

  /** When there is a candidate, the music ends one measure after the first
      one, cut at the music's end; if that leaves less than 5 s after the
      voice, it ends 7 s after the voice or at its own end if that comes
      first. The first candidate is the earliest beat or quiet frame after
      the hold. */
  lemma MusicalEndingChosen(a: Analysis, startMs: real, sr: Option<int>)
    requires var rate := if sr.None? then SampleRate else sr.value; rate > 0
    ensures var rate := if sr.None? then SampleRate else sr.value;
            var cands := Candidates(a, rate, startMs);
            |cands| > 0 ==>
              var first := Least(cands);
              var end := first + OneMeasure(a.beatTimesMs);
              && first > startMs + MinHoldMs
              && (first in a.beatTimesMs || IsQuietFrameTime(a, rate, first))
              && (forall x :: x in a.beatTimesMs && x > startMs + MinHoldMs ==> first <= x)
              && (forall x :: IsQuietFrameTime(a, rate, x) && x > startMs + MinHoldMs ==> first <= x)
              && (end <= DurationMs(a, rate) && end - startMs >= MinTotalOutroMs ==>
                    FindMusicalOutroPoint(Ok(a), startMs, sr) == end)
              && (var p := MinR(end, DurationMs(a, rate));
                  FindMusicalOutroPoint(Ok(a), startMs, sr)
                    == if p - startMs < MinTotalOutroMs then MinR(DurationMs(a, rate), startMs + FallbackOutroMs) else p)
  {
  }

  /** With no beat and no quiet frame after the hold, the music runs 11 s
      past the voice end, or to its own end if that comes first. */
  lemma NoCandidateEnding(a: Analysis, startMs: real, sr: Option<int>)
    requires var rate := if sr.None? then SampleRate else sr.value; rate > 0
    requires forall x :: x in a.beatTimesMs ==> x <= startMs + MinHoldMs
    requires var rate := if sr.None? then SampleRate else sr.value;
             forall x :: IsQuietFrameTime(a, rate, x) ==> x <= startMs + MinHoldMs
    ensures var rate := if sr.None? then SampleRate else sr.value;
            FindMusicalOutroPoint(Ok(a), startMs, sr) == MinR(DurationMs(a, rate), startMs + 11000.0)
  {
    var rate := if sr.None? then SampleRate else sr.value;
    assert forall x :: x in QuietTimes(a, rate) ==> x <= startMs + MinHoldMs by {
      forall x | x in QuietTimes(a, rate) ensures x <= startMs + MinHoldMs {
        assert IsQuietFrameTime(a, rate, x);
      }
    }
    AfterNothing(a.beatTimesMs + QuietTimes(a, rate), startMs + MinHoldMs);
  }
}
