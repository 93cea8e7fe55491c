/** The background-music catalogue dialog: which category opens first, the
    order its files are listed in, and the selection the user builds and
    hands back. */
module Presets {
  import opened Common
  import opened Text
  import opened Paths
  import opened Sorting

  // ---------------------------------------------------------------- category

  /** The category shown when the dialog opens: the requested one if it is
      a known category, else the first category, else "AI Music". */
  function DefaultCategory(categories: seq<string>, requested: Option<string>): (c: string)
    ensures requested.Some? && requested.value != "" && requested.value in categories ==> c == requested.value
    ensures !(requested.Some? && requested.value != "" && requested.value in categories) ==>
              c == (if |categories| > 0 then categories[0] else "AI Music")
    ensures |categories| > 0 ==> c in categories
  {
    if requested.Some? && requested.value != "" && requested.value in categories then requested.value
    else if |categories| > 0 then categories[0]
    else "AI Music"
  }

  // ---------------------------------------------------------------- selection

  /** The dialog's state: the chosen paths (a set, kept here in the order
      they were added, without repeats), whether the dialog is closing, and
      the number of spots it was opened for (`None` when not given). */
  datatype Browser = Browser(selected: seq<string>, closing: bool, totalSpots: Option<int>)

  /** A freshly opened dialog. */
  function Open(totalSpots: Option<int>): (b: Browser)
    ensures b.selected == [] && !b.closing && b.totalSpots == totalSpots
  {
    Browser([], false, totalSpots)
  }

  /** One spot only: at most one music may be chosen. */
  predicate SingleSpot(b: Browser) {
    b.totalSpots == Some(1)
  }

  predicate Distinct(s: seq<string>) {
    forall i, j :: 0 <= i < j < |s| ==> s[i] != s[j]
  }

  /** `set.remove(x)`: the sequence without `x`. */
  function Remove(s: seq<string>, x: string): (r: seq<string>)
    ensures forall y :: y in r <==> y in s && y != x
    ensures Distinct(s) ==> Distinct(r)
    ensures |r| <= |s|
  {
    if |s| == 0 then []
    else
      var rest := Remove(s[1..], x);
      assert Distinct(s) ==> Distinct(s[1..]) && s[0] !in s[1..];
      if s[0] == x then rest else [s[0]] + rest
  }

  /** `_toggle_select(path)`: ignored once the dialog is closing. With one
      spot, choosing a path replaces any earlier choice and choosing the
      chosen path clears it; otherwise the path is added or removed. */
  function Toggle(b: Browser, path: string): (r: Browser)
    ensures r.closing == b.closing && r.totalSpots == b.totalSpots
    ensures b.closing ==> r == b
    ensures Distinct(b.selected) ==> Distinct(r.selected)
  {
    if b.closing then b
    else if path in b.selected then b.(selected := Remove(b.selected, path))
    else if SingleSpot(b) then b.(selected := [path])
    else b.(selected := b.selected + [path])
  }

  /** The set of chosen paths. */
  function Chosen(b: Browser): set<string> {
    set p | p in b.selected
  }

  /** With several spots, a toggle is the symmetric difference of the
      chosen set with the path. */
  lemma ToggleMultiSpot(b: Browser, path: string)
    requires !b.closing && !SingleSpot(b)
    ensures Chosen(Toggle(b, path)) == (Chosen(b) - {path}) + ({path} - Chosen(b))
  {
  }

  /** With one spot, a toggle leaves exactly the new path chosen, or
      nothing when the path was the chosen one; at most one path is ever
      chosen. */
  lemma ToggleSingleSpot(b: Browser, path: string)
    requires !b.closing && SingleSpot(b) && |b.selected| <= 1
    ensures path in b.selected ==> Toggle(b, path).selected == []
    ensures path !in b.selected ==> Toggle(b, path).selected == [path]
    ensures |Toggle(b, path).selected| <= 1
  {
    if path in b.selected {
      assert b.selected == [path];
      assert Remove(b.selected, path) == Remove([], path);
    }
  }

  /** Toggling the same path twice gives back the chosen set (with several
      spots; with one spot, when nothing else was chosen). */
  lemma ToggleTwice(b: Browser, path: string)
    requires !SingleSpot(b) || Chosen(b) <= {path}
    ensures Chosen(Toggle(Toggle(b, path), path)) == Chosen(b)
  {
    if !b.closing && SingleSpot(b) && path !in b.selected {
      assert Chosen(b) == {};
    }
  }

  /** What pressing "apply" leads to. */
  datatype ApplyOutcome =
    | Ignored                                 // the dialog is already closing
    | NothingChosen                           // an info message; the dialog stays open
    | Applied(chosen: seq<string>, warned: bool)
    | Raised                                  // comparing with a missing spot count fails

  /** The most musics that may be passed on. */
  function Limit(b: Browser): Option<int> {
    if SingleSpot(b) then Some(1) else b.totalSpots
  }

  /** `_apply_selection`: nothing happens while closing; an empty choice
      only shows a message; otherwise the first paths up to the spot count
      are passed on (with a warning when some are dropped) and the dialog
      closes. */
  function Apply(b: Browser): (r: (Browser, ApplyOutcome))
  {
    if b.closing then (b, Ignored)
    else if |b.selected| == 0 then (b, NothingChosen)
    else
      match Limit(b)
      case None => (b, Raised)
      case Some(n) =>
        if |b.selected| > n then (b.(closing := true), Applied(PyPrefix(b.selected, n), true))
        else (b.(closing := true), Applied(b.selected, false))
  }

  /** The music passed on by "apply" comes from the choice, in order, never
      more than the spots allow, and is cut only with a warning; the dialog
      closes exactly when something is passed on. */
  lemma ApplyLimits(b: Browser)
    ensures var (b', out) := Apply(b);
            && (out.Applied? <==> !b.closing && |b.selected| > 0 && Limit(b).Some?)
            && (b'.closing <==> b.closing || out.Applied?)
            && (out.Applied? ==>
                  && IsPrefixOf(out.chosen, b.selected)
                  && (SingleSpot(b) ==> |out.chosen| == 1)
                  && (Limit(b).value >= 0 ==> |out.chosen| == Min(|b.selected|, Limit(b).value))
                  && (out.warned <==> |b.selected| > Limit(b).value))
            && (out.NothingChosen? <==> !b.closing && |b.selected| == 0)
            && b'.selected == b.selected
  {
  }

  predicate IsPrefixOf(a: seq<string>, b: seq<string>) {
    |a| <= |b| && b[..|a|] == a
  }

  /** `_on_cancel`: clears the choice and closes, passing nothing on;
      ignored once the dialog is closing. */
  function Cancel(b: Browser): (r: Browser)
    ensures b.closing ==> r == b
    ensures !b.closing ==> r.closing && r.selected == [] && r.totalSpots == b.totalSpots
  {
    if b.closing then b else Browser([], true, b.totalSpots)
  }

  /** After "apply" passed something on, or after "cancel", every further
      press is ignored. */
  lemma ClosedIsFinal(b: Browser, path: string)
    requires b.closing
    ensures Toggle(b, path) == b && Cancel(b) == b && Apply(b) == (b, Ignored)
  {
  }

  // ---------------------------------------------------------------- listing order

  predicate TextRun(s: string) {
    forall k :: 0 <= k < |s| ==> !IsDigit(s[k])
  }

  /** `part.isdigit()` for the parts `re.split` yields. */
  predicate NumberRun(s: string) {
    |s| > 0 && forall k :: 0 <= k < |s| ==> IsDigit(s[k])
  }

  /** The length of the leading run of non-digits. */
  function TextPrefixLen(s: string): (n: nat)
    ensures n <= |s| && TextRun(s[..n]) && (n < |s| ==> IsDigit(s[n]))
  {
    if |s| == 0 || IsDigit(s[0]) then 0
    else
      var m := TextPrefixLen(s[1..]);
      assert s[..m + 1] == [s[0]] + s[1..][..m];
      m + 1
  }

  /** The length of the leading run of digits. */
  function DigitPrefixLen(s: string): (n: nat)
    ensures n <= |s| && (forall k :: 0 <= k < n ==> IsDigit(s[k])) && (n < |s| ==> !IsDigit(s[n]))
  {
    if |s| == 0 || !IsDigit(s[0]) then 0 else DigitPrefixLen(s[1..]) + 1
  }

  function Concat(parts: seq<string>): string {
    if |parts| == 0 then "" else parts[0] + Concat(parts[1..])
  }

  /** `re.split(r'(\d+)', s)`: text runs and digit runs, alternating,
      starting and ending with a (possibly empty) text run; together they
      make up `s`. */
  function DigitRuns(s: string): (parts: seq<string>)
    ensures |parts| % 2 == 1
    ensures Concat(parts) == s
    ensures forall i :: 0 <= i < |parts| ==> (i % 2 == 0 ==> TextRun(parts[i])) && (i % 2 == 1 ==> NumberRun(parts[i]))
    decreases |s|
  {
    var t := TextPrefixLen(s);
    if t == |s| then
      assert s[..t] == s;
      [s]
    else
      var d := DigitPrefixLen(s[t..]);
      var a, b := s[..t], s[t..][..d];
      var rest := DigitRuns(s[t + d..]);
      RunsStep(s, t, d, rest);
      [a, b] + rest
  }

  /** One step of the split: the text run, the digit run after it, then the
      parts of the remainder. */
  lemma RunsStep(s: string, t: nat, d: nat, rest: seq<string>)
    requires t < |s| && TextRun(s[..t]) && IsDigit(s[t])
    requires d <= |s| - t && (forall k :: 0 <= k < d ==> IsDigit(s[t..][k])) && (d < |s| - t ==> !IsDigit(s[t..][d]))
    requires |rest| % 2 == 1 && Concat(rest) == s[t + d..]
    requires forall i :: 0 <= i < |rest| ==> (i % 2 == 0 ==> TextRun(rest[i])) && (i % 2 == 1 ==> NumberRun(rest[i]))
    ensures var parts := [s[..t], s[t..][..d]] + rest;
            && |parts| % 2 == 1
            && Concat(parts) == s
            && forall i :: 0 <= i < |parts| ==> (i % 2 == 0 ==> TextRun(parts[i])) && (i % 2 == 1 ==> NumberRun(parts[i]))
  {
    var a, b := s[..t], s[t..][..d];
    assert d > 0;
    assert NumberRun(b);
    ConcatTwoMore(a, b, rest);
    assert s == a + (b + s[t + d..]);
    var parts := [a, b] + rest;
    forall i | 2 <= i < |parts|
      ensures parts[i] == rest[i - 2] && i % 2 == (i - 2) % 2
    {
    }
  }

  lemma ConcatTwoMore(a: string, b: string, rest: seq<string>)
    ensures Concat([a, b] + rest) == a + (b + Concat(rest))
  {
    assert ([a, b] + rest)[1..] == [b] + rest;
    assert ([b] + rest)[1..] == rest;
  }

  /** One element of a sort key: `(0, int(part))` or `(1, part.lower())`. */
  datatype KeyPart = Num(n: nat) | Txt(s: string)

  /** `natural_sort_key(path)`. */
  function NaturalKey(path: string): (key: seq<KeyPart>)
    ensures |key| == |DigitRuns(Lower(Basename(path)))|
    ensures forall i :: 0 <= i < |key| ==> (key[i].Num? <==> i % 2 == 1)
  {
    var parts := DigitRuns(Lower(Basename(path)));
    assert forall i :: 0 <= i < |parts| ==> (NumberRun(parts[i]) <==> i % 2 == 1) by {
      forall i | 0 <= i < |parts| ensures NumberRun(parts[i]) <==> i % 2 == 1 {
        if i % 2 == 0 && |parts[i]| > 0 {
          assert !IsDigit(parts[i][0]);
        }
      }
    }
    KeyOfParts(DigitRuns(Lower(Basename(path))))
  }

  /** Each part as a key element: digit runs by value, the others as text. */
  function KeyOfParts(parts: seq<string>): (key: seq<KeyPart>)
    ensures |key| == |parts|
    ensures forall i :: 0 <= i < |key| ==> (key[i].Num? <==> NumberRun(parts[i]))
  {
    seq(|parts|, i requires 0 <= i < |parts| =>
      if NumberRun(parts[i]) then Num(DigitsValue(parts[i])) else Txt(Lower(parts[i])))
  }

  /** Python's ordering of sequences: the first difference decides, and a
      proper prefix comes first. */
  predicate LexLess<T(==)>(a: seq<T>, b: seq<T>, lt: (T, T) -> bool)
    decreases |a|
  {
    |b| > 0 && (|a| == 0 || lt(a[0], b[0]) || (a[0] == b[0] && LexLess(a[1..], b[1..], lt)))
  }

  function CharLess(x: char, y: char): bool { x < y }

  /** Python's `<` on strings: code point by code point. */
  predicate StrLess(a: string, b: string) {
    LexLess(a, b, CharLess)
  }

  /** Tuples `(0, n)` come before `(1, s)`; then the second element decides. */
  function PartLess(x: KeyPart, y: KeyPart): bool {
    match (x, y)
    case (Num(m), Num(n)) => m < n
    case (Num(_), Txt(_)) => true
    case (Txt(_), Num(_)) => false
    case (Txt(s), Txt(t)) => StrLess(s, t)
  }

  predicate KeyLess(a: seq<KeyPart>, b: seq<KeyPart>) {
    LexLess(a, b, PartLess)
  }

  /** `lt` is a strict total order. */
  ghost predicate StrictTotal<T(!new)>(lt: (T, T) -> bool) {
    && (forall x :: !lt(x, x))
    && (forall x, y, z :: lt(x, y) && lt(y, z) ==> lt(x, z))
    && (forall x, y :: x == y || lt(x, y) || lt(y, x))
  }

  lemma {:induction false} LexIrreflexive<T(!new)>(a: seq<T>, lt: (T, T) -> bool)
    requires StrictTotal(lt)
    ensures !LexLess(a, a, lt)
    decreases |a|
  {
    if |a| > 0 {
      LexIrreflexive(a[1..], lt);
    }
  }

  lemma {:induction false} LexTransitive<T(!new)>(a: seq<T>, b: seq<T>, c: seq<T>, lt: (T, T) -> bool)
    requires StrictTotal(lt) && LexLess(a, b, lt) && LexLess(b, c, lt)
    ensures LexLess(a, c, lt)
    decreases |a|
  {
    if |a| > 0 && a[0] == b[0] && b[0] == c[0] {
      LexTransitive(a[1..], b[1..], c[1..], lt);
    }
  }

  lemma {:induction false} LexTotal<T(!new)>(a: seq<T>, b: seq<T>, lt: (T, T) -> bool)
    requires StrictTotal(lt)
    ensures a == b || LexLess(a, b, lt) || LexLess(b, a, lt)
    decreases |a|
  {
    if |a| > 0 && |b| > 0 && a[0] == b[0] {
      LexTotal(a[1..], b[1..], lt);
      if a[1..] == b[1..] {
        assert a == [a[0]] + a[1..] && b == [b[0]] + b[1..];
      }
    }
  }

  /** The order of sequences inherits a strict total order from their
      elements. */
  lemma LexStrictTotal<T(!new)>(lt: (T, T) -> bool)
    requires StrictTotal(lt)
    ensures StrictTotal((a: seq<T>, b: seq<T>) => LexLess(a, b, lt))
  {
    forall a: seq<T> ensures !LexLess(a, a, lt) {
      LexIrreflexive(a, lt);
    }
    forall a: seq<T>, b: seq<T>, c: seq<T> | LexLess(a, b, lt) && LexLess(b, c, lt)
      ensures LexLess(a, c, lt)
    {
      LexTransitive(a, b, c, lt);
    }
    forall a: seq<T>, b: seq<T> ensures a == b || LexLess(a, b, lt) || LexLess(b, a, lt) {
      LexTotal(a, b, lt);
    }
  }

  lemma PartLessStrictTotal()
    ensures StrictTotal(PartLess)
  {
    assert StrictTotal(CharLess);
    LexStrictTotal(CharLess);
    forall x: KeyPart ensures !PartLess(x, x) {
      if x.Txt? { LexIrreflexive(x.s, CharLess); }
    }
    forall x: KeyPart, y: KeyPart, z: KeyPart | PartLess(x, y) && PartLess(y, z)
      ensures PartLess(x, z)
    {
      if x.Txt? && y.Txt? && z.Txt? { LexTransitive(x.s, y.s, z.s, CharLess); }
    }
    forall x: KeyPart, y: KeyPart ensures x == y || PartLess(x, y) || PartLess(y, x) {
      if x.Txt? && y.Txt? { LexTotal(x.s, y.s, CharLess); }
    }
  }

  /** `key(a) <= key(b)`. */
  function PresetLe(a: string, b: string): bool {
    !KeyLess(NaturalKey(b), NaturalKey(a))
  }

  /** Comparing items by their keys is a total preorder. */
  lemma KeyedTotalPreorder<T(!new)>(le: (T, T) -> bool, key: T -> seq<KeyPart>)
    requires forall a, b :: le(a, b) == !KeyLess(key(b), key(a))
    ensures TotalPreorder(le)
  {
    PartLessStrictTotal();
    forall a, b ensures le(a, b) || le(b, a) {
      var ka, kb := key(a), key(b);
      if KeyLess(kb, ka) && KeyLess(ka, kb) {
        LexTransitive(ka, kb, ka, PartLess);
        LexIrreflexive(ka, PartLess);
      }
    }
    forall a, b, c | le(a, b) && le(b, c)
      ensures le(a, c)
    {
      var ka, kb, kc := key(a), key(b), key(c);
      LexTotal(ka, kb, PartLess);
      LexTotal(kb, kc, PartLess);
      if ka != kb && kb != kc {
        LexTransitive(ka, kb, kc, PartLess);
        if KeyLess(kc, ka) {
          LexTransitive(kc, ka, kc, PartLess);
          LexIrreflexive(kc, PartLess);
        }
      }
    }
  }

  lemma PresetLeTotalPreorder()
    ensures TotalPreorder(PresetLe)
  {
    KeyedTotalPreorder(PresetLe, NaturalKey);
  }

  /** The accepted audio extensions of a catalogue folder. */
  const PresetExtensions: seq<string> := [".wav", ".mp3", ".m4a", ".flac", ".aac", ".ogg"]

  /** A directory entry: its name and whether it is a regular file. */
  datatype Entry = Entry(name: string, isFile: bool)

  predicate IsPreset(e: Entry) {
    e.isFile && exists x | x in PresetExtensions :: EndsWith(Lower(e.name), x)
  }

  /** The paths of the audio files in a folder listing, in listing order. */
  function PresetPaths(folder: string, entries: seq<Entry>): (ps: seq<string>)
    requires forall i :: 0 <= i < |entries| ==> Sep !in entries[i].name
    ensures |ps| <= |entries|
  {
    if |entries| == 0 then []
    else (if IsPreset(entries[0]) then [Paths.Join(folder, entries[0].name)] else []) + PresetPaths(folder, entries[1..])
  }

  /** The catalogue as listed: the folder's audio files in natural order,
      files with equal keys in listing order. */
  function ListPresets(folder: string, entries: seq<Entry>): (ps: seq<string>)
    requires forall i :: 0 <= i < |entries| ==> Sep !in entries[i].name
    ensures multiset(ps) == multiset(PresetPaths(folder, entries))
    ensures forall i, j :: 0 <= i < j < |ps| ==> !KeyLess(NaturalKey(ps[j]), NaturalKey(ps[i]))
    ensures forall p :: Ties(ps, p, PresetLe) == Ties(PresetPaths(folder, entries), p, PresetLe)
  {
    PresetLeTotalPreorder();
    var ps := SortBy(PresetPaths(folder, entries), PresetLe);
    assert forall i, j :: 0 <= i < j < |ps| ==> PresetLe(ps[i], ps[j]);
    ps
  }

  /** A name made of a text and a number splits into the text, the number
      and an empty tail. */
  lemma {:induction false} TextThenNumber(t: string, d: string)
    requires TextRun(t) && NumberRun(d)
    ensures DigitRuns(t + d) == [t, d, ""]
  {
    var s := t + d;
    TextPrefixAt(t, d);
    assert s[..|t|] == t && s[|t|..] == d && s[|t|..][..|d|] == d;
    DigitPrefixAll(d);
    assert s[|t| + |d|..] == "";
    assert DigitRuns("") == [""];
  }

  lemma {:induction false} TextPrefixAt(t: string, d: string)
    requires TextRun(t) && NumberRun(d)
    ensures TextPrefixLen(t + d) == |t|
    decreases |t|
  {
    if |t| == 0 {
      assert t + d == d;
    } else {
      assert (t + d)[1..] == t[1..] + d;
      TextPrefixAt(t[1..], d);
    }
  }

  lemma {:induction false} DigitPrefixAll(d: string)
    requires forall k :: 0 <= k < |d| ==> IsDigit(d[k])
    ensures DigitPrefixLen(d) == |d|
    decreases |d|
  {
    if |d| > 0 {
      DigitPrefixAll(d[1..]);
    }
  }

  /** Numbers in names compare by value: "x2" is listed before "x10",
      although "x10" < "x2" as plain strings. */
  lemma NumbersCompareByValue(t: string, m: nat, n: nat)
    requires TextRun(t) && Sep !in t && m < n
    ensures KeyLess(NaturalKey(t + NatToString(m)), NaturalKey(t + NatToString(n)))
  {
    KeyOfTextNumber(t, m);
    KeyOfTextNumber(t, n);
  }

  /** The key of a name made of a text and a number. */
  lemma KeyOfTextNumber(t: string, m: nat)
    requires TextRun(t) && Sep !in t
    ensures NaturalKey(t + NatToString(m)) == [Txt(Lower(Lower(t))), Num(m), Txt("")]
  {
    var d := NatToString(m);
    var name := t + d;
    BasenameOfName(name);
    LowerTextNumber(t, d);
    TextThenNumber(Lower(t), d);
    NatToStringRoundTrip(m);
    KeyOfRuns(name, Lower(t), d);
  }

  /** A name without a separator is its own basename. */
  lemma BasenameOfName(name: string)
    requires Sep !in name
    ensures Basename(name) == name
  {
    assert RFind(name, Sep) == -1;
  }

  /** Lower-casing keeps a text free of digits and leaves digits alone. */
  lemma LowerTextNumber(t: string, d: string)
    requires TextRun(t) && NumberRun(d)
    ensures Lower(t + d) == Lower(t) + d && TextRun(Lower(t))
  {
    assert forall k :: 0 <= k < |d| ==> LowerChar(d[k]) == d[k];
  }

  /** The key of a name that splits into a text, a number and an empty
      tail. */
  lemma KeyOfRuns(name: string, x: string, d: string)
    requires DigitRuns(Lower(Basename(name))) == [x, d, ""] && TextRun(x) && NumberRun(d)
    ensures NaturalKey(name) == [Txt(Lower(x)), Num(DigitsValue(d)), Txt("")]
  {
    KeyOfThree(x, d);
    assert NaturalKey(name) == KeyOfParts(DigitRuns(Lower(Basename(name))));
  }

  /** The key elements of a text run, a digit run and an empty tail. */
  lemma KeyOfThree(x: string, d: string)
    requires TextRun(x) && NumberRun(d)
    ensures KeyOfParts([x, d, ""]) == [Txt(Lower(x)), Num(DigitsValue(d)), Txt("")]
  {
    var k := KeyOfParts([x, d, ""]);
    assert !NumberRun(x) by {
      if |x| > 0 { assert !IsDigit(x[0]); }
    }
    assert k[0] == Txt(Lower(x));
    assert k[1] == Num(DigitsValue(d));
    assert Lower("") == "";
    assert k[2] == Txt("");
  }

  /** The concrete case: "x2" before "x10". */
  lemma TwoBeforeTen()
    ensures KeyLess(NaturalKey("x2"), NaturalKey("x10"))
    ensures StrLess("x10", "x2")
  {
    NaturalTwoBeforeTen();
    PlainTenBeforeTwo();
  }

  lemma NaturalTwoBeforeTen()
    ensures KeyLess(NaturalKey("x2"), NaturalKey("x10"))
  {
    assert NatToString(2) == "2";
    assert NatToString(10) == "10";
    assert "x" + "2" == "x2" && "x" + "10" == "x10";
    assert TextRun("x") && Sep !in "x";
    NumbersCompareByValue("x", 2, 10);
  }

  lemma PlainTenBeforeTwo()
    ensures StrLess("x10", "x2")
  {
    assert "x10"[1..] == "10" && "x2"[1..] == "2";
    assert CharLess('1', '2');
    assert LexLess("10", "2", CharLess);
  }
}
