/** The main window's batch logic: choosing the files of a batch, numbering
    the spots of all voice files consecutively, cancelling, reporting the
    outcome and naming the archive. */
module Batch {
  import opened Common
  import opened Text
  import opened Paths
  import opened Analyzer
  import opened Processor
  import opened FileUtils

  // ---------------------------------------------------------------- selection

  /** A voice file with the speech ranges its analysis found. */
  datatype Voice = Voice(path: string, ranges: seq<Range>)

  /** The parts of the window's state the batch depends on. The analysed
      voice files keep the order in which they were selected. */
  datatype Window = Window(
    hamPaths: seq<string>, analysed: seq<Voice>, analysisDone: bool,
    fonPaths: seq<string>, endingPaths: seq<string>, advanced: map<string, real>)

  /** The window as it starts: nothing chosen, no advanced settings. */
  const InitialWindow: Window := Window([], [], false, [], [], map[])

  /** `sum(len(v) for v in analyzed_segments_map.values())`. */
  function SegmentsTotal(a: seq<Voice>): (n: nat)
    ensures |a| == 0 ==> n == 0
  {
    if |a| == 0 then 0 else |a[0].ranges| + SegmentsTotal(a[1..])
  }

  /** The number of ranges of at least 1000 ms over all voice files. */
  function TotalValidSpots(a: seq<Voice>): (n: nat)
    ensures n <= SegmentsTotal(a)
  {
    if |a| == 0 then 0 else |KeepValid(a[0].ranges)| + TotalValidSpots(a[1..])
  }

  /** The kinds of file the window lets the user choose. */
  datatype FileKind = Ham | Fon | Ending

  /** The warning shown when music is chosen before the voice analysis. */
  const VoiceFirstWarning: string := "Öncelikle Ham Ses Dosyanızı Seçmelisiniz!"

  /** The chosen paths that pass validation, in order. */
  function ValidPaths(chosen: seq<string>, info: string -> FileInfo): (v: seq<string>)
    ensures |v| <= |chosen|
    ensures forall p :: p in v <==> p in chosen && ValidateAudioFile(p, info(p)).None?
  {
    if |chosen| == 0 then []
    else
      (if ValidateAudioFile(chosen[0], info(chosen[0])).None? then [chosen[0]] else [])
      + ValidPaths(chosen[1..], info)
  }

  /** One warning per rejected path: its basename and the reason. */
  function InvalidWarnings(chosen: seq<string>, info: string -> FileInfo): (w: seq<string>)
    ensures |w| + |ValidPaths(chosen, info)| == |chosen|
  {
    if |chosen| == 0 then []
    else
      var rest := InvalidWarnings(chosen[1..], info);
      match ValidateAudioFile(chosen[0], info(chosen[0]))
      case None => rest
      case Some(msg) => [Basename(chosen[0]) + ": " + msg] + rest
  }

  /** The single-spot rule: when the analysis found exactly one range, only
      the first of several chosen files is kept. */
  function SingleSpotRule(segmentsTotal: nat, paths: seq<string>): (r: seq<string>)
    ensures segmentsTotal == 1 && |paths| > 1 ==> r == [paths[0]]
    ensures !(segmentsTotal == 1 && |paths| > 1) ==> r == paths
  {
    if segmentsTotal == 1 && |paths| > 1 then [paths[0]] else paths
  }

  /** `_select_file`: the window after the user picks `chosen` (empty when
      the dialog is dismissed) as files of `kind`, with the warnings shown.
      Music and endings can only be chosen once the voice analysis has found
      speech; a new voice selection discards the previous analysis. */
  function SelectFiles(w: Window, kind: FileKind, chosen: seq<string>, info: string -> FileInfo):
    (r: (Window, seq<string>))
  {
    if kind != Ham && (|w.hamPaths| == 0 || !w.analysisDone) then (w, [VoiceFirstWarning])
    else
      var valid := ValidPaths(chosen, info);
      var warnings := InvalidWarnings(chosen, info);
      if |valid| == 0 then (w, warnings)
      else
        match kind
        case Ham => (w.(hamPaths := valid, analysed := [], analysisDone := false), warnings)
        case Fon => (w.(fonPaths := SingleSpotRule(SegmentsTotal(w.analysed), valid)), warnings)
        case Ending => (w.(endingPaths := SingleSpotRule(SegmentsTotal(w.analysed), valid)), warnings)
  }

  /** What a selection does: music before a successful analysis is refused
      with a warning and nothing changes; otherwise every rejected file is
      warned about, and a selection with an accepted file replaces the list
      of its kind with accepted files only, a single one when the analysis
      found a single range. A new voice selection forgets the analysis. */
  lemma SelectFilesEffect(w: Window, kind: FileKind, chosen: seq<string>, info: string -> FileInfo)
    ensures var (w', warnings) := SelectFiles(w, kind, chosen, info);
            && (kind != Ham && (|w.hamPaths| == 0 || !w.analysisDone) ==>
                  w' == w && warnings == [VoiceFirstWarning])
            && (kind == Ham || (|w.hamPaths| > 0 && w.analysisDone) ==>
                  && |warnings| == |chosen| - |ValidPaths(chosen, info)|
                  && (|ValidPaths(chosen, info)| == 0 ==> w' == w))
            && (kind == Ham && |ValidPaths(chosen, info)| > 0 ==>
                  && w'.hamPaths == ValidPaths(chosen, info) && w'.analysed == [] && !w'.analysisDone
                  && w'.fonPaths == w.fonPaths && w'.endingPaths == w.endingPaths)
            && (kind == Fon ==> w'.hamPaths == w.hamPaths && w'.analysed == w.analysed
                                && w'.endingPaths == w.endingPaths)
            && (kind == Ending ==> w'.hamPaths == w.hamPaths && w'.analysed == w.analysed
                                   && w'.fonPaths == w.fonPaths)
            && (forall p :: p in w'.fonPaths ==> p in w.fonPaths || (p in chosen && ValidateAudioFile(p, info(p)).None?))
            && (forall p :: p in w'.endingPaths ==>
                  p in w.endingPaths || (p in chosen && ValidateAudioFile(p, info(p)).None?))
            && (kind == Fon && w'.fonPaths != w.fonPaths && SegmentsTotal(w.analysed) == 1 ==> |w'.fonPaths| == 1)
            && (kind == Ending && w'.endingPaths != w.endingPaths && SegmentsTotal(w.analysed) == 1 ==>
                  |w'.endingPaths| == 1)
  {
  }

  /** `_run_analysis_in_background`: each voice file with its ranges, or
      none when its analysis raised. */
  function AnalyseAll(paths: seq<string>, analyse: string -> Result<seq<Range>, AnalysisError>): (a: seq<Voice>)
    ensures |a| == |paths|
    ensures forall k :: 0 <= k < |a| ==> a[k].path == paths[k]
    ensures forall k :: 0 <= k < |a| ==>
              a[k].ranges == (if analyse(paths[k]).Ok? then analyse(paths[k]).value else [])
  {
    if |paths| == 0 then []
    else
      var r := analyse(paths[0]);
      [Voice(paths[0], if r.Ok? then r.value else [])] + AnalyseAll(paths[1..], analyse)
  }

  /** `_update_analysis_ui`: the window once the analysis has finished, with
      the message shown under the voice step. */
  function AnalysisFinished(w: Window, a: seq<Voice>): (r: (Window, string))
    ensures r.0 == w.(analysed := a, analysisDone := SegmentsTotal(a) > 0)
    ensures SegmentsTotal(a) > 0 ==> r.1 == IntToString(SegmentsTotal(a)) + " spot bulundu ✓"
    ensures SegmentsTotal(a) == 0 ==> r.1 == "Konuşma bulunamadı ✗"
  {
    var count := SegmentsTotal(a);
    var w' := w.(analysed := a, analysisDone := count > 0);
    if count > 0 then (w', IntToString(count) + " spot bulundu ✓") else (w', "Konuşma bulunamadı ✗")
  }

  /** After an analysis, music can be chosen exactly when speech was found. */
  lemma MusicNeedsSpeech(w: Window, a: seq<Voice>, chosen: seq<string>, info: string -> FileInfo)
    requires |w.hamPaths| > 0
    ensures var w' := AnalysisFinished(w, a).0;
            SelectFiles(w', Fon, chosen, info).1 == [VoiceFirstWarning] && SelectFiles(w', Fon, chosen, info).0 == w'
              <== SegmentsTotal(a) == 0
    ensures var w' := AnalysisFinished(w, a).0;
            SegmentsTotal(a) > 0 && |ValidPaths(chosen, info)| > 0 ==>
              SelectFiles(w', Fon, chosen, info).0.fonPaths == SingleSpotRule(SegmentsTotal(a), ValidPaths(chosen, info))
  {
  }

  // ---------------------------------------------------------------- batch

  /** One spot of the batch: a voice file and one of its valid ranges. */
  datatype Job = Job(hamPath: string, range: Range)

  /** The spots of a batch in order: for each voice file, its ranges of at
      least 1000 ms. */
  function Jobs(a: seq<Voice>): (js: seq<Job>)
  {
    if |a| == 0 then []
    else SpotsOf(a[0].path, KeepValid(a[0].ranges)) + Jobs(a[1..])
  }

  function SpotsOf(path: string, ranges: seq<Range>): (js: seq<Job>)
    ensures |js| == |ranges|
    ensures forall k :: 0 <= k < |js| ==> js[k] == Job(path, ranges[k])
  {
    seq(|ranges|, k requires 0 <= k < |ranges| => Job(path, ranges[k]))
  }

  /** There are as many spots as valid ranges, each one a valid range of an
      analysed voice file, and every valid range of every file is a spot. */
  lemma {:induction false} JobsAreValidRanges(a: seq<Voice>)
    ensures |Jobs(a)| == TotalValidSpots(a)
    ensures forall j :: j in Jobs(a) ==> LongEnough(j.range) && exists v :: v in a && v.path == j.hamPath && j.range in v.ranges
    ensures forall v, x :: v in a && x in v.ranges && LongEnough(x) ==> Job(v.path, x) in Jobs(a)
  {
    if |a| > 0 {
      JobsAreValidRanges(a[1..]);
      var here := SpotsOf(a[0].path, KeepValid(a[0].ranges));
      assert Jobs(a) == here + Jobs(a[1..]);
      forall j | j in Jobs(a)
        ensures LongEnough(j.range) && exists v :: v in a && v.path == j.hamPath && j.range in v.ranges
      {
        if j in here {
          var k :| 0 <= k < |here| && here[k] == j;
          assert KeepValid(a[0].ranges)[k] in KeepValid(a[0].ranges);
          assert a[0] in a;
        } else {
          var v :| v in a[1..] && v.path == j.hamPath && j.range in v.ranges;
          assert v in a;
        }
      }
      forall v, x | v in a && x in v.ranges && LongEnough(x)
        ensures Job(v.path, x) in Jobs(a)
      {
        if v == a[0] {
          var valid := KeepValid(a[0].ranges);
          assert x in valid;
          var k :| 0 <= k < |valid| && valid[k] == x;
          assert here[k] == Job(v.path, x);
        } else {
          assert v in a[1..];
        }
      }
    }
  }

  /** Why a batch fails: a montage raised, or `random.choice` was given an
      empty list of backgrounds, or no spot was produced for no visible
      reason. */
  datatype BatchError = MontageFailed(error: MontageError) | NoBackgroundChosen | UnknownFailure

  /** `effective_fons`: a batch with a single range uses only the first
      background. */
  function EffectiveFons(a: seq<Voice>, fons: seq<string>): seq<string> {
    SingleSpotRule(SegmentsTotal(a), fons)
  }

  /** The background of one spot: the only one, or `random.choice` (the
      random draw is a parameter); an empty list raises. */
  function ChooseFon(fons: seq<string>, draw: nat): (r: Result<string, BatchError>)
    ensures r.Err? <==> |fons| == 0
    ensures r.Ok? ==> r.value in fons
    ensures |fons| == 1 ==> r == Ok(fons[0])
  {
    if |fons| == 1 then Ok(fons[0])
    else if |fons| == 0 then Err(NoBackgroundChosen)
    else Ok(fons[draw % |fons|])
  }

  /** The ending of one spot: none without endings, else the only one or a
      random one. */
  function ChooseEnding(endings: seq<string>, draw: nat): (r: Option<string>)
    ensures r.None? <==> |endings| == 0
    ensures r.Some? ==> r.value in endings
    ensures |endings| == 1 ==> r == Some(endings[0])
  {
    if |endings| == 0 then None
    else if |endings| == 1 then Some(endings[0])
    else Some(endings[draw % |endings|])
  }

  /** The random draws of a batch, per spot. */
  datatype Draws = Draws(fon: nat -> nat, ending: nat -> nat)

  /** The moment the shared cancellation flag is raised, counted in polls:
      the batch polls at tick `2k` before spot `k`, the montage of spot `k`
      polls at tick `2k + 1`, and the outcome is decided at tick `2N` for
      `N` spots. Once raised, the flag stays raised. */
  predicate Raised(stop: Option<nat>, tick: nat) {
    stop.Some? && stop.value <= tick
  }

  /** `advanced_settings if advanced_settings else None`. */
  function AdvancedArg(m: map<string, real>): (r: Option<map<string, real>>)
    ensures r.Some? <==> |m| > 0
  {
    if |m| > 0 then Some(m) else None
  }

  /** The `ses_montaj` call of one spot: one range, numbered after the
      files written so far. */
  function JobRequest(w: Window, outputDir: string, outputFormat: string, job: Job, fon: string,
                      ending: Option<string>, offset: nat): MontageRequest
  {
    MontageRequest(job.hamPath, outputDir, outputFormat, Some(fon), Some([job.range]),
                   AdvancedArg(w.advanced), NoOverrides, offset, ending)
  }

  /** The outside world of the montage of spot `k`: its poll reads the
      shared flag at tick `2k + 1`. */
  function JobIo(io: Io, stop: Option<nat>, k: nat): (r: Io)
    ensures r.cancelled(0) == Raised(stop, 2 * k + 1)
  {
    io.(cancelled := (n: nat) => Raised(stop, 2 * k + 1 + n))
  }

  /** A file the batch wrote: the voice file it was cut from and its spot
      number, which together with the output folder and format give its
      path. */
  datatype Written = Written(hamPath: string, spotNumber: int)

  /** The files a montage returns, as records: none after a cancellation. */
  function Records(req: MontageRequest, run: MontageRun): (ws: seq<Written>)
    ensures run.cancelled ==> ws == []
    ensures !run.cancelled ==> |ws| == |run.exported|
    ensures !run.cancelled ==> forall j :: 0 <= j < |ws| ==> ws[j] == Written(req.hamPath, run.exported[j].spotNumber)
  {
    if run.cancelled then []
    else seq(|run.exported|, j requires 0 <= j < |run.exported| => Written(req.hamPath, run.exported[j].spotNumber))
  }

  /** The path of each written file. */
  function FilePaths(outputDir: string, outputFormat: string, ws: seq<Written>): (ps: seq<string>)
    ensures |ps| == |ws|
    ensures forall j :: 0 <= j < |ws| ==> ps[j] == OutputPath(ws[j].hamPath, outputDir, outputFormat, ws[j].spotNumber)
  {
    seq(|ws|, j requires 0 <= j < |ws| => OutputPath(ws[j].hamPath, outputDir, outputFormat, ws[j].spotNumber))
  }

  /** The records of a montage name exactly the paths `ses_montaj` returns. */
  lemma RecordsArePaths(req: MontageRequest, run: MontageRun)
    ensures FilePaths(req.outputDir, req.outputFormat, Records(req, run)) == ReturnedPaths(req, run)
  {
  }

  /** The montage of spot `k` and the files it returns. A spot of at least
      1000 ms whose poll finds the flag down gives exactly one file,
      numbered one past the files already written. */
  function SpotMontage(w: Window, outputDir: string, outputFormat: string, job: Job, fon: string,
                       ending: Option<string>, offset: nat, io: Io, stop: Option<nat>, k: nat):
    (r: Result<seq<Written>, BatchError>)
    ensures r.Err? ==> r.error.MontageFailed?
    ensures r.Ok? && LongEnough(job.range) && !Raised(stop, 2 * k + 1) ==> r.value == [Written(job.hamPath, offset + 1)]
    ensures r.Ok? && LongEnough(job.range) && Raised(stop, 2 * k + 1) ==> r.value == []
  {
    var req := JobRequest(w, outputDir, outputFormat, job, fon, ending, offset);
    var jio := JobIo(io, stop, k);
    var res := SesMontaj(req, jio);
    if LongEnough(job.range) then
      SesMontajSingleRange(req, jio, job.range);
      assert jio.cancelled(0) == Raised(stop, 2 * k + 1);
      assert req.hamPath == job.hamPath && req.spotIndexOffset == offset;
      assert res.Ok? && !Raised(stop, 2 * k + 1) ==>
               !res.value.cancelled && |res.value.exported| == 1 && res.value.exported[0].spotNumber == offset + 1;
      assert res.Ok? && Raised(stop, 2 * k + 1) ==> res.value.cancelled;
      Collected(req, res)
    else Collected(req, res)
  }

  /** What the batch keeps of one montage: its records, or its error. */
  function Collected(req: MontageRequest, res: Result<MontageRun, MontageError>): (r: Result<seq<Written>, BatchError>)
    ensures r.Ok? <==> res.Ok?
    ensures res.Err? ==> r == Err(MontageFailed(res.error))
    ensures res.Ok? && res.value.cancelled ==> r == Ok([])
    ensures res.Ok? && !res.value.cancelled && |res.value.exported| == 1 ==>
              r == Ok([Written(req.hamPath, res.value.exported[0].spotNumber)])
  {
    match res
    case Err(e) => Err(MontageFailed(e))
    case Ok(run) =>
      assert !run.cancelled && |run.exported| == 1 ==> Records(req, run) == [Written(req.hamPath, run.exported[0].spotNumber)];
      Ok(Records(req, run))
  }

  /** The loop of `_run_multi_montaj` from spot `k` on, with the files
      written so far: poll the flag (a raised flag discards everything),
      choose the background and the ending, run the montage of the spot
      numbered after the files so far, and collect what it returns. */
  function BatchFrom(w: Window, jobs: seq<Job>, fons: seq<string>, outputDir: string, outputFormat: string,
                     io: Io, stop: Option<nat>, draws: Draws, k: nat, files: seq<Written>):
    (r: Result<seq<Written>, BatchError>)
    requires k <= |jobs|
    ensures r.Ok? && r.value != [] ==> |files| <= |r.value| && r.value[..|files|] == files
    ensures r.Err? && r.error == NoBackgroundChosen ==> |fons| == 0
    decreases |jobs| - k
  {
    if k == |jobs| then Ok(files)
    else if Raised(stop, 2 * k) then Ok([])
    else
      match ChooseFon(fons, draws.fon(k))
      case Err(e) => Err(e)
      case Ok(fon) =>
        match SpotMontage(w, outputDir, outputFormat, jobs[k], fon, ChooseEnding(w.endingPaths, draws.ending(k)),
                          |files|, io, stop, k)
        case Err(e) => Err(e)
        case Ok(more) =>
          var r := BatchFrom(w, jobs, fons, outputDir, outputFormat, io, stop, draws, k + 1, files + more);
          assert r.Ok? && r.value != [] ==> r.value[..|files|] == (files + more)[..|files|];
          r
  }

  /** `_run_multi_montaj`: the paths of all files written. */
  function RunMultiMontaj(w: Window, outputDir: string, outputFormat: string, io: Io, stop: Option<nat>,
                          draws: Draws): Result<seq<string>, BatchError>
  {
    match BatchFrom(w, Jobs(w.analysed), EffectiveFons(w.analysed, w.fonPaths), outputDir, outputFormat, io, stop,
                    draws, 0, [])
    case Err(e) => Err(e)
    case Ok(ws) => Ok(FilePaths(outputDir, outputFormat, ws))
  }

  /** The files of spots `k` to the end, numbered from `k + 1`. */
  function NumberedFrom(jobs: seq<Job>, k: nat): (ws: seq<Written>)
    requires k <= |jobs|
    ensures |ws| == |jobs| - k
    ensures forall i :: 0 <= i < |ws| ==> ws[i] == Written(jobs[k + i].hamPath, k + i + 1)
  {
    seq(|jobs| - k, i requires 0 <= i < |jobs| - k => Written(jobs[k + i].hamPath, k + i + 1))
  }

  /** A batch run from spot `k` with no raised flag writes one file per
      remaining spot, numbered on from the files already written. */
  lemma {:induction false} BatchNumbering(w: Window, jobs: seq<Job>, fons: seq<string>, outputDir: string,
                                          outputFormat: string, io: Io, stop: Option<nat>, draws: Draws, k: nat,
                                          files: seq<Written>)
    requires k <= |jobs| && |files| == k
    requires forall j :: 0 <= j < |jobs| ==> LongEnough(jobs[j].range)
    requires !Raised(stop, 2 * |jobs|)
    ensures var r := BatchFrom(w, jobs, fons, outputDir, outputFormat, io, stop, draws, k, files);
            r.Ok? ==> r.value == files + NumberedFrom(jobs, k)
    decreases |jobs| - k
  {
    if k == |jobs| {
      assert NumberedFrom(jobs, k) == [];
    } else if BatchFrom(w, jobs, fons, outputDir, outputFormat, io, stop, draws, k, files).Ok? {
      var x := Written(jobs[k].hamPath, k + 1);
      var rest := NumberedFrom(jobs, k + 1);
      BatchStep(w, jobs, fons, outputDir, outputFormat, io, stop, draws, k, files);
      BatchNumbering(w, jobs, fons, outputDir, outputFormat, io, stop, draws, k + 1, files + [x]);
      NumberedFromStep(jobs, k);
      AppendAssoc(files, [x], rest);
    }
  }

  lemma NumberedFromStep(jobs: seq<Job>, k: nat)
    requires k < |jobs|
    ensures [Written(jobs[k].hamPath, k + 1)] + NumberedFrom(jobs, k + 1) == NumberedFrom(jobs, k)
  {
    assert ([Written(jobs[k].hamPath, k + 1)] + NumberedFrom(jobs, k + 1))[0] == NumberedFrom(jobs, k)[0];
  }

  lemma AppendAssoc<T>(a: seq<T>, b: seq<T>, c: seq<T>)
    ensures (a + b) + c == a + (b + c)
  {
  }

  /** One spot of a batch whose flag is down writes the spot's file and
      carries on. */
  lemma BatchStep(w: Window, jobs: seq<Job>, fons: seq<string>, outputDir: string, outputFormat: string,
                  io: Io, stop: Option<nat>, draws: Draws, k: nat, files: seq<Written>)
    requires k < |jobs| && |files| == k && LongEnough(jobs[k].range) && !Raised(stop, 2 * k + 1)
    requires BatchFrom(w, jobs, fons, outputDir, outputFormat, io, stop, draws, k, files).Ok?
    ensures BatchFrom(w, jobs, fons, outputDir, outputFormat, io, stop, draws, k, files)
              == BatchFrom(w, jobs, fons, outputDir, outputFormat, io, stop, draws, k + 1,
                           files + [Written(jobs[k].hamPath, k + 1)])
  {
  }

  /** The paths of the spots numbered 1 to N, each named after its own
      voice file; no two are the same. */
  function SpotPaths(jobs: seq<Job>, outputDir: string, outputFormat: string): (ps: seq<string>)
    ensures |ps| == |jobs|
    ensures forall j :: 0 <= j < |jobs| ==> ps[j] == OutputPath(jobs[j].hamPath, outputDir, outputFormat, j + 1)
    ensures forall a, b :: 0 <= a < b < |ps| ==> ps[a] != ps[b]
  {
    SpotPathsDistinct(jobs, outputDir, outputFormat);
    seq(|jobs|, j requires 0 <= j < |jobs| => OutputPath(jobs[j].hamPath, outputDir, outputFormat, j + 1))
  }


  /** A batch that no cancellation reached writes exactly one file per
      valid range, numbered 1 to N across all voice files. */
  lemma BatchSpots(w: Window, outputDir: string, outputFormat: string, io: Io, stop: Option<nat>, draws: Draws)
    requires !Raised(stop, 2 * TotalValidSpots(w.analysed))
    ensures var r := RunMultiMontaj(w, outputDir, outputFormat, io, stop, draws);
            r.Ok? ==> |r.value| == TotalValidSpots(w.analysed) && r.value == SpotPaths(Jobs(w.analysed), outputDir, outputFormat)
  {
    var jobs := Jobs(w.analysed);
    JobsLongEnough(w.analysed);
    var fons := EffectiveFons(w.analysed, w.fonPaths);
    BatchNumbering(w, jobs, fons, outputDir, outputFormat, io, stop, draws, 0, []);
    var b := BatchFrom(w, jobs, fons, outputDir, outputFormat, io, stop, draws, 0, []);
    var r := RunMultiMontaj(w, outputDir, outputFormat, io, stop, draws);
    if r.Ok? {
      assert b.Ok? && r.value == FilePaths(outputDir, outputFormat, b.value);
      assert b.value == NumberedFrom(jobs, 0) by {
        assert [] + NumberedFrom(jobs, 0) == NumberedFrom(jobs, 0);
      }
      NumberedPathsAreSpotPaths(jobs, outputDir, outputFormat);
    }
  }

  /** The paths of the files numbered 1 to N are the spot paths. */
  lemma NumberedPathsAreSpotPaths(jobs: seq<Job>, outputDir: string, outputFormat: string)
    ensures FilePaths(outputDir, outputFormat, NumberedFrom(jobs, 0)) == SpotPaths(jobs, outputDir, outputFormat)
  {
    var ws := NumberedFrom(jobs, 0);
    var ps := FilePaths(outputDir, outputFormat, ws);
    var qs := SpotPaths(jobs, outputDir, outputFormat);
    forall j | 0 <= j < |jobs|
      ensures ps[j] == qs[j]
    {
      assert ws[j] == Written(jobs[j].hamPath, j + 1);
    }
  }

  lemma JobsLongEnough(a: seq<Voice>)
    ensures |Jobs(a)| == TotalValidSpots(a)
    ensures forall j :: 0 <= j < |Jobs(a)| ==> LongEnough(Jobs(a)[j].range)
  {
    JobsAreValidRanges(a);
    var jobs := Jobs(a);
    forall j | 0 <= j < |jobs|
      ensures LongEnough(jobs[j].range)
    {
      assert jobs[j] in jobs;
    }
  }

  /** The files numbered 1 to N in one folder are all different, whichever
      voice files they are cut from. */
  lemma SpotPathsDistinct(jobs: seq<Job>, outputDir: string, outputFormat: string)
    ensures forall a, b :: 0 <= a < b < |jobs| ==>
              OutputPath(jobs[a].hamPath, outputDir, outputFormat, a + 1)
                != OutputPath(jobs[b].hamPath, outputDir, outputFormat, b + 1)
  {
    forall a, b | 0 <= a < b < |jobs|
      ensures OutputPath(jobs[a].hamPath, outputDir, outputFormat, a + 1)
                != OutputPath(jobs[b].hamPath, outputDir, outputFormat, b + 1)
    {
      OutputPathsDistinct(jobs[a].hamPath, jobs[b].hamPath, outputDir, outputFormat, a + 1, b + 1);
    }
  }

  /** A flag raised before spot `k`'s poll makes the batch return nothing,
      whatever was written before. */
  lemma BatchCancelled(w: Window, jobs: seq<Job>, fons: seq<string>, outputDir: string, outputFormat: string,
                       io: Io, stop: Option<nat>, draws: Draws, k: nat, files: seq<Written>)
    requires k < |jobs| && Raised(stop, 2 * k)
    ensures BatchFrom(w, jobs, fons, outputDir, outputFormat, io, stop, draws, k, files) == Ok([])
  {
  }

  /** Every spot's background is one of the effective backgrounds, the
      first one when the analysis found a single range, and its ending is
      one of the chosen endings, none when there are none. */
  lemma ChoicesFromLists(w: Window, draws: Draws, k: nat)
    ensures var fons := EffectiveFons(w.analysed, w.fonPaths);
            var c := ChooseFon(fons, draws.fon(k));
            && (c.Ok? ==> c.value in w.fonPaths)
            && (SegmentsTotal(w.analysed) == 1 && |w.fonPaths| > 0 ==> c == Ok(w.fonPaths[0]))
            && (c.Err? <==> |w.fonPaths| == 0)
    ensures var e := ChooseEnding(w.endingPaths, draws.ending(k));
            (e.None? <==> |w.endingPaths| == 0) && (e.Some? ==> e.value in w.endingPaths)
  {
  }

  // ---------------------------------------------------------------- outcome

  /** How `_montaj_thread` ends: the error handler, the cancellation
      handler or the success handler with the files. */
  datatype Outcome = Failed(error: BatchError) | Cancelled | Completed(files: seq<string>)

  /** The outcome of a batch result, given whether the flag is raised when
      the thread looks at it. */
  function ThreadOutcome(r: Result<seq<string>, BatchError>, flagRaised: bool): (o: Outcome)
    ensures o.Completed? <==> r.Ok? && !flagRaised && r.value != []
    ensures o.Completed? ==> o.files == r.value
    ensures o.Cancelled? <==> r.Ok? && flagRaised
    ensures r.Err? ==> o == Failed(r.error)
  {
    match r
    case Err(e) => Failed(e)
    case Ok(files) =>
      if flagRaised then Cancelled
      else if files != [] then Completed(files)
      else Failed(UnknownFailure)
  }

  /** The whole montage thread. */
  function MontageThread(w: Window, outputDir: string, outputFormat: string, io: Io, stop: Option<nat>,
                         draws: Draws): Outcome
  {
    ThreadOutcome(RunMultiMontaj(w, outputDir, outputFormat, io, stop, draws),
                  Raised(stop, 2 * |Jobs(w.analysed)|))
  }

  /** A batch reaches the success handler exactly when it was not cancelled
      and produced files, and then with one file per valid range; a batch
      with no valid range never succeeds. */
  lemma MontageThreadOutcome(w: Window, outputDir: string, outputFormat: string, io: Io, stop: Option<nat>,
                             draws: Draws)
    ensures var o := MontageThread(w, outputDir, outputFormat, io, stop, draws);
            && (o.Completed? ==> |o.files| == TotalValidSpots(w.analysed) > 0)
            && (TotalValidSpots(w.analysed) == 0 ==> !o.Completed?)
            && (o.Cancelled? <==> Raised(stop, 2 * TotalValidSpots(w.analysed))
                                  && RunMultiMontaj(w, outputDir, outputFormat, io, stop, draws).Ok?)
  {
    JobsAreValidRanges(w.analysed);
    var o := MontageThread(w, outputDir, outputFormat, io, stop, draws);
    if o.Completed? {
      BatchSpots(w, outputDir, outputFormat, io, stop, draws);
    }
  }

  /** The advanced settings: the settings dialog that runs keeps its values
      to itself, so the window's dictionary stays empty, the montage is
      given none and works with the defaults. */
  function SaveAdvancedSettings(w: Window, values: map<string, real>): (w': Window)
    ensures w'.advanced == w.advanced
  {
    w
  }

  lemma DefaultsAlwaysRun(values: seq<map<string, real>>, job: Job, fon: string, ending: Option<string>,
                          outputDir: string, outputFormat: string, offset: nat)
    ensures var w := SaveAll(InitialWindow, values);
            var req := JobRequest(w, outputDir, outputFormat, job, fon, ending, offset);
            req.advanced.None? && ResolveSettings(req.advanced, req.overrides) == DefaultSettings
  {
    SaveAllKeeps(InitialWindow, values);
    SettingsDefaults(None, NoOverrides, NoOverrides);
  }

  /** The window after the dialog was saved with each of `values` in turn. */
  function SaveAll(w: Window, values: seq<map<string, real>>): Window {
    if |values| == 0 then w else SaveAll(SaveAdvancedSettings(w, values[0]), values[1..])
  }

  lemma {:induction false} SaveAllKeeps(w: Window, values: seq<map<string, real>>)
    ensures SaveAll(w, values).advanced == w.advanced
  {
    if |values| > 0 {
      SaveAllKeeps(SaveAdvancedSettings(w, values[0]), values[1..]);
    }
  }

  // ---------------------------------------------------------------- archive

  /** `_\d{8}_?\d{0,6}$` matches at position `i` of `s`. */
  predicate TimestampAt(s: string, i: nat) {
    && i + 9 <= |s| && s[i] == '_'
    && (forall k :: i + 1 <= k < i + 9 ==> IsDigit(s[k]))
    && var rest := s[i + 9..];
       var digits := if |rest| > 0 && rest[0] == '_' then rest[1..] else rest;
       |digits| <= 6 && forall k :: 0 <= k < |digits| ==> IsDigit(digits[k])
  }

  /** The first position at or after `i` where the timestamp matches, or
      `|s|` when there is none. */
  function FirstTimestamp(s: string, i: nat): (j: nat)
    requires i <= |s|
    ensures i <= j <= |s|
    ensures j < |s| ==> TimestampAt(s, j)
    ensures forall k :: i <= k < j ==> !TimestampAt(s, k)
    decreases |s| - i
  {
    if i == |s| || TimestampAt(s, i) then i else FirstTimestamp(s, i + 1)
  }

  /** `re.sub(r'_\d{8}_?\d{0,6}$', '', name)`: a trailing date and time
      stamp is removed from the leftmost place it matches. */
  function StripTimestamp(name: string): (r: string)
    ensures StartsWith(name, r)
    ensures r == name <==> forall k :: 0 <= k < |name| ==> !TimestampAt(name, k)
    ensures r != name ==> TimestampAt(name, |r|) && forall k :: 0 <= k < |r| ==> !TimestampAt(name, k)
  {
    name[..FirstTimestamp(name, 0)]
  }

  /** A folder named with a date and a time loses both. */
  lemma StripTimestampExample()
    ensures StripTimestamp("Reklam_20251126_211943") == "Reklam"
  {
    var s := "Reklam_20251126_211943";
    forall k | 0 <= k < 6
      ensures !TimestampAt(s, k)
    {
      assert s[k] != '_';
    }
    assert TimestampAt(s, 6) by {
      var rest := s[15..];
      assert rest == "_211943";
      var digits := rest[1..];
      assert digits == "211943";
      assert forall k :: 0 <= k < |digits| ==> IsDigit(digits[k]);
      assert forall k :: 7 <= k < 15 ==> IsDigit(s[k]);
    }
    assert FirstTimestamp(s, 0) == 6 by {
      assert FirstTimestamp(s, 6) == 6;
    }
  }

  /** `_create_zip_archive`'s archive path: next to the output folder, named
      after it without its timestamp. */
  function ZipPath(outputFolder: string): (p: string)
    ensures EndsWith(p, ".zip") && StartsWith(p, Dirname(outputFolder))
  {
    var name := StripTimestamp(Basename(outputFolder)) + ".zip";
    EndsWithConcat(StripTimestamp(Basename(outputFolder)), ".zip");
    assert name[0] != Sep by {
      if |StripTimestamp(Basename(outputFolder))| > 0 {
        assert name[0] == Basename(outputFolder)[0];
        assert Basename(outputFolder)[0] in Basename(outputFolder);
      }
    }
    Paths.Join(Dirname(outputFolder), name)
  }
}
