/** Speech-segment detection (the analyzer module): merging nearby
    non-silent ranges and keeping the long ones. */
module Analyzer {
  import opened Common
  import opened Sorting
  import opened Audio
  import opened Effects

  /** Ranges closer than this are merged (ms). */
  const MaxGapMs: int := 1400
  /** Merged ranges shorter than this are dropped (ms). */
  const MinSegmentLengthMs: int := 1000

  /** A `(start, end)` pair of milliseconds. */
  datatype Range = Range(start: int, end: int)

  /** Ranges ordered by their start only, as `key=lambda x: x[0]` does. */
  function StartLe(a: Range, b: Range): bool { a.start <= b.start }

  lemma StartLeIsTotalPreorder()
    ensures TotalPreorder(StartLe)
  {
  }

  /** `x` lies inside `o`. */
  predicate Within(x: Range, o: Range) {
    o.start <= x.start && x.end <= o.end
  }

  /** Every range of `s` lies inside some range of `r`. */
  predicate CoveredBy(s: seq<Range>, r: seq<Range>) {
    forall j :: 0 <= j < |s| ==> exists o :: 0 <= o < |r| && Within(s[j], r[o])
  }

  /** Starts never go down and each range begins more than `g` after every
      earlier range ends. */
  predicate Separated(s: seq<Range>, g: int) {
    forall i, j :: 0 <= i < j < |s| ==> s[i].start <= s[j].start && s[j].start - s[i].end > g
  }

  predicate StartsSorted(s: seq<Range>) {
    forall i, j :: 0 <= i < j < |s| ==> s[i].start <= s[j].start
  }

  /** The merge loop over the sorted tail `rest`, with the run
      `[curStart, curEnd)` still open. */
  function MergeRun(curStart: int, curEnd: int, rest: seq<Range>, g: int): (r: seq<Range>)
    ensures 1 <= |r| <= |rest| + 1
    ensures r[0].start == curStart && r[0].end >= curEnd
    decreases |rest|
  {
    if |rest| == 0 then [Range(curStart, curEnd)]
    else if rest[0].start - curEnd <= g then MergeRun(curStart, Max(curEnd, rest[0].end), rest[1..], g)
    else [Range(curStart, curEnd)] + MergeRun(rest[0].start, rest[0].end, rest[1..], g)
  }

  /** On a sorted tail the loop emits separated runs. */
  lemma {:induction false} MergeRunSeparated(curStart: int, curEnd: int, rest: seq<Range>, g: int)
    requires StartsSorted(rest)
    requires forall j :: 0 <= j < |rest| ==> curStart <= rest[j].start
    ensures Separated(MergeRun(curStart, curEnd, rest, g), g)
    decreases |rest|
  {
    if |rest| > 0 {
      var x, tail := rest[0], rest[1..];
      assert StartsSorted(tail);
      if x.start - curEnd <= g {
        MergeRunSeparated(curStart, Max(curEnd, x.end), tail, g);
      } else {
        MergeRunSeparated(x.start, x.end, tail, g);
        var more := MergeRun(x.start, x.end, tail, g);
        var r := [Range(curStart, curEnd)] + more;
        forall i, j | 0 <= i < j < |r|
          ensures r[i].start <= r[j].start && r[j].start - r[i].end > g
        {
          if i == 0 {
            assert r[j] == more[j - 1];
            if j > 1 {
              assert more[0].start <= more[j - 1].start;
            }
          } else {
            assert r[i] == more[i - 1] && r[j] == more[j - 1];
          }
        }
      }
    }
  }

  /** Every run the loop emits starts at the open run's start or at some
      range's start. */
  lemma {:induction false} MergeRunStarts(curStart: int, curEnd: int, rest: seq<Range>, g: int)
    ensures StartsDrawnFrom(MergeRun(curStart, curEnd, rest, g), curStart, rest)
    decreases |rest|
  {
    if |rest| > 0 {
      var x, tail := rest[0], rest[1..];
      var r := MergeRun(curStart, curEnd, rest, g);
      forall v | StartOf(tail, v) ensures StartOf(rest, v) {
        var j :| 0 <= j < |tail| && tail[j].start == v;
        assert rest[j + 1] == tail[j];
      }
      if x.start - curEnd <= g {
        MergeRunStarts(curStart, Max(curEnd, x.end), tail, g);
        assert r == MergeRun(curStart, Max(curEnd, x.end), tail, g);
      } else {
        var more := MergeRun(x.start, x.end, tail, g);
        MergeRunStarts(x.start, x.end, tail, g);
        assert r == [Range(curStart, curEnd)] + more;
        forall o | 1 <= o < |r| ensures r[o].start == curStart || StartOf(rest, r[o].start) {
          var m := more[o - 1];
          assert r[o] == m;
          assert m.start == x.start || StartOf(tail, m.start);
          if m.start == x.start {
            assert rest[0].start == m.start;
          }
        }
      }
    }
  }

  /** Every run the loop emits ends at the open run's end or at some range's
      end. */
  lemma {:induction false} MergeRunEnds(curStart: int, curEnd: int, rest: seq<Range>, g: int)
    ensures EndsDrawnFrom(MergeRun(curStart, curEnd, rest, g), curEnd, rest)
    decreases |rest|
  {
    if |rest| > 0 {
      var x, tail := rest[0], rest[1..];
      var r := MergeRun(curStart, curEnd, rest, g);
      forall v | EndOf(tail, v) ensures EndOf(rest, v) {
        var j :| 0 <= j < |tail| && tail[j].end == v;
        assert rest[j + 1] == tail[j];
      }
      assert EndOf(rest, x.end);
      if x.start - curEnd <= g {
        MergeRunEnds(curStart, Max(curEnd, x.end), tail, g);
        assert r == MergeRun(curStart, Max(curEnd, x.end), tail, g);
      } else {
        var more := MergeRun(x.start, x.end, tail, g);
        MergeRunEnds(x.start, x.end, tail, g);
        assert r == [Range(curStart, curEnd)] + more;
        forall o | 1 <= o < |r| ensures r[o].end == curEnd || EndOf(rest, r[o].end) {
          var m := more[o - 1];
          assert r[o] == m;
          assert m.end == x.end || EndOf(tail, m.end);
        }
      }
    }
  }

  /** Each range of `r` starts at `first` or where some range of `s` starts. */
  predicate StartsDrawnFrom(r: seq<Range>, first: int, s: seq<Range>) {
    forall o :: 0 <= o < |r| ==> r[o].start == first || StartOf(s, r[o].start)
  }

  /** Each range of `r` ends at `first` or where some range of `s` ends. */
  predicate EndsDrawnFrom(r: seq<Range>, first: int, s: seq<Range>) {
    forall o :: 0 <= o < |r| ==> r[o].end == first || EndOf(s, r[o].end)
  }

  /** Some range of `s` starts at `v`. */
  predicate StartOf(s: seq<Range>, v: int) {
    exists j | 0 <= j < |s| :: s[j].start == v
  }

  /** Some range of `s` ends at `v`. */
  predicate EndOf(s: seq<Range>, v: int) {
    exists j | 0 <= j < |s| :: s[j].end == v
  }

  /** Every range of a tail whose starts are not before the open run lies
      inside some emitted run. */
  lemma {:induction false} MergeRunCovers(curStart: int, curEnd: int, rest: seq<Range>, g: int)
    requires StartsSorted(rest)
    requires forall j :: 0 <= j < |rest| ==> curStart <= rest[j].start
    ensures CoveredBy(rest, MergeRun(curStart, curEnd, rest, g))
    decreases |rest|
  {
    if |rest| > 0 {
      var x, tail := rest[0], rest[1..];
      var r := MergeRun(curStart, curEnd, rest, g);
      if x.start - curEnd <= g {
        assert StartsSorted(tail);
        MergeRunCovers(curStart, Max(curEnd, x.end), tail, g);
        assert r == MergeRun(curStart, Max(curEnd, x.end), tail, g);
        forall j | 0 <= j < |rest| ensures exists o :: 0 <= o < |r| && Within(rest[j], r[o]) {
          if j == 0 {
            assert Within(x, r[0]);
          } else {
            assert rest[j] == tail[j - 1];
            var o :| 0 <= o < |r| && Within(tail[j - 1], r[o]);
          }
        }
      } else {
        var more := MergeRun(x.start, x.end, tail, g);
        assert StartsSorted(tail);
        MergeRunCovers(x.start, x.end, tail, g);
        assert r == [Range(curStart, curEnd)] + more;
        assert Within(x, r[1]);
        forall j | 1 <= j < |rest| ensures exists o :: 0 <= o < |r| && Within(rest[j], r[o]) {
          assert rest[j] == tail[j - 1];
          var o :| 0 <= o < |more| && Within(tail[j - 1], more[o]);
          assert r[o + 1] == more[o];
        }
      }
    }
  }

  /** `merge_close_segments`: sorts the ranges by start, then merges every
      range that starts no more than `maxGap` ms after the current run ends
      (1400 ms when no gap is given). */
  function MergeCloseSegments(segments: seq<Range>, maxGap: Option<int>): (r: seq<Range>)
    ensures |r| == 0 <==> |segments| == 0
    ensures |r| <= |segments|
    ensures Separated(r, GapOrDefault(maxGap))
  {
    if |segments| == 0 then []
    else
      var sorted := SortedByStart(segments);
      MergeRunSeparated(sorted[0].start, sorted[0].end, sorted[1..], GapOrDefault(maxGap));
      MergeRun(sorted[0].start, sorted[0].end, sorted[1..], GapOrDefault(maxGap))
  }

  /** `max_gap`, or 1400 ms when it is `None`. */
  function GapOrDefault(maxGap: Option<int>): int {
    if maxGap.None? then MaxGapMs else maxGap.value
  }

  /** `sorted(segments, key=lambda x: x[0])`. */
  function SortedByStart(segments: seq<Range>): (sorted: seq<Range>)
    ensures |sorted| == |segments|
    ensures multiset(sorted) == multiset(segments)
    ensures StartsSorted(sorted)
    ensures |sorted| > 0 ==> (StartsSorted(sorted[1..]) &&
              forall j :: 1 <= j < |sorted| ==> sorted[0].start <= sorted[j].start)
  {
    StartLeIsTotalPreorder();
    var sorted := SortBy(segments, StartLe);
    assert StartsSorted(sorted) by {
      forall i, j | 0 <= i < j < |sorted| ensures sorted[i].start <= sorted[j].start {
        assert StartLe(sorted[i], sorted[j]);
      }
    }
    sorted
  }

  /** Every input range lies inside some merged range. */
  lemma MergeCovers(segments: seq<Range>, maxGap: Option<int>)
    ensures CoveredBy(segments, MergeCloseSegments(segments, maxGap))
  {
    var r := MergeCloseSegments(segments, maxGap);
    if |segments| > 0 {
      var sorted := SortedByStart(segments);
      var tail := sorted[1..];
      MergeRunCovers(sorted[0].start, sorted[0].end, tail, GapOrDefault(maxGap));
      assert Within(sorted[0], r[0]);
      forall j | 0 <= j < |segments| ensures exists o :: 0 <= o < |r| && Within(segments[j], r[o]) {
        assert segments[j] in multiset(segments);
        var k :| 0 <= k < |sorted| && sorted[k] == segments[j];
        if k > 0 {
          assert tail[k - 1] == sorted[k];
        }
      }
    }
  }

  /** Every merged range starts where some input range starts and ends where
      some input range ends. */
  lemma MergeFromInputs(segments: seq<Range>, maxGap: Option<int>)
    ensures var r := MergeCloseSegments(segments, maxGap);
            forall o :: 0 <= o < |r| ==> StartOf(segments, r[o].start) && EndOf(segments, r[o].end)
  {
    var r := MergeCloseSegments(segments, maxGap);
    if |segments| > 0 {
      var sorted := SortedByStart(segments);
      var tail := sorted[1..];
      MergeRunStarts(sorted[0].start, sorted[0].end, tail, GapOrDefault(maxGap));
      MergeRunEnds(sorted[0].start, sorted[0].end, tail, GapOrDefault(maxGap));
      assert r == MergeRun(sorted[0].start, sorted[0].end, tail, GapOrDefault(maxGap));
      forall k | 0 <= k < |sorted|
        ensures StartOf(segments, sorted[k].start) && EndOf(segments, sorted[k].end)
      {
        assert sorted[k] in multiset(sorted);
        var j :| 0 <= j < |segments| && segments[j] == sorted[k];
      }
      forall v | StartOf(tail, v) ensures StartOf(segments, v) {
        var j :| 0 <= j < |tail| && tail[j].start == v;
        assert tail[j] == sorted[j + 1];
      }
      forall v | EndOf(tail, v) ensures EndOf(segments, v) {
        var j :| 0 <= j < |tail| && tail[j].end == v;
        assert tail[j] == sorted[j + 1];
      }
    }
  }

  /** Merging is idempotent: merged ranges are already far enough apart. */
  lemma MergeIdempotent(segments: seq<Range>, maxGap: Option<int>)
    ensures var m := MergeCloseSegments(segments, maxGap);
            MergeCloseSegments(m, maxGap) == m
  {
    var m := MergeCloseSegments(segments, maxGap);
    if |m| > 0 {
      StartLeIsTotalPreorder();
      assert SortedBy(m, StartLe);
      SortSortedIsIdentity(m, StartLe);
      MergeRunOnSeparated(m, GapOrDefault(maxGap));
    }
  }

  /** Running the merge loop over ranges that are already separated by more
      than the gap gives them back unchanged. */
  lemma {:induction false} MergeRunOnSeparated(s: seq<Range>, g: int)
    requires |s| >= 1 && Separated(s, g)
    ensures MergeRun(s[0].start, s[0].end, s[1..], g) == s
    decreases |s|
  {
    if |s| > 1 {
      var tail := s[1..];
      assert Separated(tail, g);
      MergeRunOnSeparated(tail, g);
      assert s[1].start - s[0].end > g;
      assert tail[1..] == s[2..];
      assert s == [s[0]] + tail;
    }
  }

  /** With a non-negative gap, a well-formed range that starts inside
      another range, or no more than the gap after its end, ends up in the
      same merged range as it. */
  lemma OverlappingShareOutput(segments: seq<Range>, maxGap: Option<int>, a: int, b: int)
    requires 0 <= a < |segments| && 0 <= b < |segments|
    requires segments[a].start <= segments[b].start <= segments[a].end + GapOrDefault(maxGap)
    requires segments[b].start <= segments[b].end
    requires GapOrDefault(maxGap) >= 0
    ensures var r := MergeCloseSegments(segments, maxGap);
            exists o :: 0 <= o < |r| && Within(segments[a], r[o]) && Within(segments[b], r[o])
  {
    var r := MergeCloseSegments(segments, maxGap);
    MergeCovers(segments, maxGap);
    var o :| 0 <= o < |r| && Within(segments[a], r[o]);
    var p :| 0 <= p < |r| && Within(segments[b], r[p]);
    assert o == p;
  }

  /** A merged range is long enough to be a spot. */
  predicate LongEnough(x: Range) {
    x.end - x.start >= MinSegmentLengthMs
  }

  /** The list comprehension keeping the ranges of at least 1000 ms, in
      order. */
  function KeepValid(s: seq<Range>): (r: seq<Range>)
    ensures |r| <= |s|
    ensures forall x :: x in r <==> x in s && LongEnough(x)
  {
    if |s| == 0 then []
    else (if LongEnough(s[0]) then [s[0]] else []) + KeepValid(s[1..])
  }

  /** Filtering a concatenation filters each part. */
  lemma {:induction false} KeepValidConcat(a: seq<Range>, b: seq<Range>)
    ensures KeepValid(a + b) == KeepValid(a) + KeepValid(b)
  {
    if |a| > 0 {
      assert (a + b)[1..] == a[1..] + b;
      KeepValidConcat(a[1..], b);
    } else {
      assert a + b == b;
    }
  }

  /** Dropping ranges keeps the survivors separated: later starts only grow. */
  lemma {:induction false} KeepValidSeparated(s: seq<Range>, g: int)
    requires Separated(s, g)
    ensures Separated(KeepValid(s), g)
  {
    if |s| > 0 {
      var tail := s[1..];
      assert Separated(tail, g);
      KeepValidSeparated(tail, g);
      var kept := KeepValid(tail);
      if LongEnough(s[0]) {
        var r := [s[0]] + kept;
        forall i, j | 0 <= i < j < |r|
          ensures r[i].start <= r[j].start && r[j].start - r[i].end > g
        {
          if i == 0 {
            assert r[j] in tail;
          }
        }
      }
    }
  }

  /** Why an analysis fails: the file is missing, or anything else the
      decoder or detector raised. */
  datatype AnalysisError = FileNotFound | Failure(msg: string)

  /** `analyze_audio_segments`: normalise the decoded clip, detect its
      non-silent ranges, merge them and keep the long ones. The decoder and
      the silence detector are parameters; their errors are re-raised. */
  function AnalyzeAudioSegments(loaded: Result<Clip, AnalysisError>, detect: Clip -> seq<Range>,
                                maxGap: Option<int>): (r: Result<seq<Range>, AnalysisError>)
    ensures loaded.Err? <==> r.Err?
    ensures loaded.Err? ==> r.error == loaded.error
    ensures r.Ok? ==> forall x :: x in r.value ==> LongEnough(x)
    ensures r.Ok? ==> Separated(r.value, GapOrDefault(maxGap))
    ensures r.Ok? ==> var found := detect(NormalizeInMemory(loaded.value));
              forall j :: 0 <= j < |found| && found[j].end - found[j].start >= MinSegmentLengthMs ==>
                exists x :: x in r.value && Within(found[j], x)
    ensures r.Ok? ==> var merged := MergeCloseSegments(detect(NormalizeInMemory(loaded.value)), maxGap);
              forall x :: x in r.value <==> x in merged && LongEnough(x)
  {
    match loaded
    case Err(e) => Err(e)
    case Ok(raw) =>
      var found := detect(NormalizeInMemory(raw));
      var merged := MergeCloseSegments(found, maxGap);
      KeepValidSeparated(merged, GapOrDefault(maxGap));
      MergeCovers(found, maxGap);
      var valid := KeepValid(merged);
      KeptCover(found, merged);
      Ok(valid)
  }

  /** Every detected range long enough on its own still lies inside one
      of the kept merged ranges. */
  lemma KeptCover(found: seq<Range>, merged: seq<Range>)
    requires CoveredBy(found, merged)
    ensures forall j :: 0 <= j < |found| && found[j].end - found[j].start >= MinSegmentLengthMs ==>
              exists x :: x in KeepValid(merged) && Within(found[j], x)
  {
    forall j | 0 <= j < |found| && found[j].end - found[j].start >= MinSegmentLengthMs
      ensures exists x :: x in KeepValid(merged) && Within(found[j], x)
    {
      var o :| 0 <= o < |merged| && Within(found[j], merged[o]);
      assert LongEnough(merged[o]);
      assert merged[o] in KeepValid(merged);
    }
  }
}
