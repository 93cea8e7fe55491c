/** The audio abstraction the pipeline works on. A pydub `AudioSegment` is
    modelled millisecond by millisecond: a clip is the sequence of the peak
    levels of its milliseconds, so `len(segment)` is the sequence length and
    `segment.max_dBFS` is the largest level. Samples, sample rates and
    channel layouts are below this resolution. */
module Audio {
  import opened Common

  /** The peak level of one millisecond: digital silence (`-inf` dBFS) or a
      level in dBFS. */
  datatype Level = Silence | Db(db: real)

  type Clip = seq<Level>

  /** `a <= b` on levels, silence being the lowest. */
  predicate LevelLe(a: Level, b: Level) {
    a.Silence? || (b.Db? && a.db <= b.db)
  }

  function MaxLevel(a: Level, b: Level): (r: Level)
    ensures LevelLe(a, r) && LevelLe(b, r)
    ensures r == a || r == b
  {
    if LevelLe(a, b) then b else a
  }

  /** `max_dBFS`: the loudest millisecond, or silence for an empty or silent
      clip. */
  function Peak(c: Clip): (p: Level)
    ensures forall k :: 0 <= k < |c| ==> LevelLe(c[k], p)
    ensures p.Db? ==> exists k :: 0 <= k < |c| && c[k] == p
  {
    if |c| == 0 then Silence
    else
      var rest := Peak(c[1..]);
      var p := MaxLevel(c[0], rest);
      assert forall k :: 1 <= k < |c| ==> LevelLe(c[k], rest) by {
        forall k | 1 <= k < |c| ensures LevelLe(c[k], rest) {
          assert c[k] == c[1..][k - 1];
        }
      }
      assert rest.Db? ==> exists k :: 1 <= k < |c| && c[k] == rest by {
        if rest.Db? {
          var j :| 0 <= j < |c[1..]| && c[1..][j] == rest;
          assert c[j + 1] == rest;
        }
      }
      p
  }

  /** A Python comparison `max_dBFS < x`, where silence is `-inf`. */
  predicate PeakBelow(p: Level, x: real) {
    p.Silence? || p.db < x
  }

  /** A Python comparison `max_dBFS > x`, where silence is `-inf`. */
  predicate PeakAbove(p: Level, x: real) {
    p.Db? && p.db > x
  }

  /** `apply_gain(g)` on one millisecond: silence stays silent. */
  function AddGain(l: Level, g: real): Level {
    match l
    case Silence => Silence
    case Db(x) => Db(x + g)
  }

  /** `segment.apply_gain(g)`. */
  function ApplyGain(c: Clip, g: real): (r: Clip)
    ensures |r| == |c|
    ensures forall k :: 0 <= k < |c| ==> r[k] == AddGain(c[k], g)
  {
    seq(|c|, k requires 0 <= k < |c| => AddGain(c[k], g))
  }

  /** `AudioSegment.silent(duration=d)`; a negative duration gives no frames. */
  function Silent(d: int): (r: Clip)
    ensures |r| == Max(0, d)
    ensures forall k :: 0 <= k < |r| ==> r[k] == Silence
  {
    seq(Max(0, d), k => Silence)
  }

  /** `segment * n`: the clip repeated n times (nothing for n <= 0). */
  function Repeat(c: Clip, n: int): (r: Clip)
    ensures |r| == |c| * Max(0, n)
    ensures n > 0 ==> r[..|c|] == c
    ensures forall k :: 0 <= k < |r| ==> r[k] == c[k % |c|]
    ensures forall k :: 0 <= k < |r| ==> r[k] in c
  {
    if n <= 0 then []
    else
      var rest := Repeat(c, n - 1);
      assert |c| * n == |c| + |c| * (n - 1);
      RepeatOnce(c, rest);
      c + rest
  }

  /** One more copy in front keeps every millisecond at its place in the
      period. */
  lemma RepeatOnce(c: Clip, rest: Clip)
    requires |c| > 0 || |rest| == 0
    requires forall k :: 0 <= k < |rest| ==> rest[k] == c[k % |c|]
    ensures forall k :: 0 <= k < |c + rest| ==> (c + rest)[k] == c[k % |c|]
  {
    forall k | 0 <= k < |c + rest|
      ensures (c + rest)[k] == c[k % |c|]
    {
      if k < |c| {
        ModOfSplit(k, |c|, 0, k);
      } else {
        ModMinusPeriod(k, |c|);
        assert (c + rest)[k] == rest[k - |c|];
      }
    }
  }

  /** Taking away one period leaves the remainder as it was. */
  lemma ModMinusPeriod(k: int, d: int)
    requires 0 < d <= k
    ensures (k - d) % d == k % d
  {
    var q, r := (k - d) / d, (k - d) % d;
    assert k - d == d * q + r;
    ModOfSplit(k, d, q + 1, r);
  }

  /** `segment[a:b]` with Python slice semantics (pydub clamps the bounds to
      the clip's length). */
  function Slice(c: Clip, a: int, b: int): (r: Clip)
    ensures |r| <= |c|
    ensures 0 <= a <= b <= |c| ==> r == c[a..b]
  {
    PySlice(c, a, b)
  }

  /** The peak of two clips played one after the other is the louder of
      their peaks. */
  lemma {:induction false} PeakConcat(a: Clip, b: Clip)
    ensures Peak(a + b) == MaxLevel(Peak(a), Peak(b))
  {
    if |a| == 0 {
      assert a + b == b;
    } else {
      assert (a + b)[1..] == a[1..] + b;
      PeakConcat(a[1..], b);
      MaxLevelAssoc(a[0], Peak(a[1..]), Peak(b));
    }
  }

  lemma MaxLevelAssoc(x: Level, y: Level, z: Level)
    ensures MaxLevel(x, MaxLevel(y, z)) == MaxLevel(MaxLevel(x, y), z)
  {
  }

  /** A constant gain shifts the peak by exactly that gain. */
  lemma {:induction false} PeakGain(c: Clip, g: real)
    ensures Peak(ApplyGain(c, g)) == AddGain(Peak(c), g)
  {
    if |c| > 0 {
      assert ApplyGain(c, g)[1..] == ApplyGain(c[1..], g);
      PeakGain(c[1..], g);
    }
  }

  /** Two gains in a row are one gain of their sum. */
  lemma GainGain(c: Clip, g: real, h: real)
    ensures ApplyGain(ApplyGain(c, g), h) == ApplyGain(c, g + h)
  {
  }
}
