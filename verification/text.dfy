/** Python `str` operations used by the source, over `seq<char>` (a char is a
    Unicode scalar value). */
module Text {
  import opened Common

  /** Characters for which Python's `str.isspace()` holds: bidirectional
      classes WS, B, S and general category Zs. */
  predicate IsSpace(c: char) {
    c == ' ' || ('\t' <= c <= '\U{0d}') || ('\U{1c}' <= c <= '\U{1f}') ||
    c == '\U{85}' || c == '\U{a0}' || c == '\U{1680}' ||
    ('\U{2000}' <= c <= '\U{200a}') || c == '\U{2028}' || c == '\U{2029}' ||
    c == '\U{202f}' || c == '\U{205f}' || c == '\U{3000}'
  }

  /** Python's `s.lstrip(chars)`: drops the leading run of characters in `cs`. */
  function LStripChars(s: string, cs: set<char>): (r: string)
    ensures |r| <= |s| && r == s[|s| - |r|..]
    ensures |r| > 0 ==> r[0] !in cs
    ensures forall k :: 0 <= k < |s| - |r| ==> s[k] in cs
  {
    if |s| > 0 && s[0] in cs then LStripChars(s[1..], cs) else s
  }

  /** Python's `s.lstrip()`. */
  function LStrip(s: string): (r: string)
    ensures |r| <= |s| && r == s[|s| - |r|..]
    ensures |r| > 0 ==> !IsSpace(r[0])
    ensures forall k :: 0 <= k < |s| - |r| ==> IsSpace(s[k])
  {
    if |s| > 0 && IsSpace(s[0]) then LStrip(s[1..]) else s
  }

  /** Python's `s.rstrip()`. */
  function RStrip(s: string): (r: string)
    ensures |r| <= |s| && r == s[..|r|]
    ensures |r| > 0 ==> !IsSpace(r[|r| - 1])
    ensures forall k :: |r| <= k < |s| ==> IsSpace(s[k])
  {
    if |s| > 0 && IsSpace(s[|s| - 1]) then RStrip(s[..|s| - 1]) else s
  }

  /** Python's `s.strip()`. */
  function Strip(s: string): (r: string)
    ensures |r| > 0 ==> !IsSpace(r[0]) && !IsSpace(r[|r| - 1])
    ensures |r| == 0 <==> forall k :: 0 <= k < |s| ==> IsSpace(s[k])
  {
    var l := LStrip(s);
    var r := RStrip(l);
    assert |r| == 0 ==> |l| == 0;
    r
  }

  /** A text with no whitespace at either end is its own strip. */
  lemma StripUnchanged(s: string)
    requires |s| > 0 && !IsSpace(s[0]) && !IsSpace(s[|s| - 1])
    ensures Strip(s) == s
  {
    assert LStrip(s) == s;
  }

  /** A text made only of characters in `cs` loses all of them. */
  lemma LStripCharsAll(s: string, cs: set<char>)
    requires forall k :: 0 <= k < |s| ==> s[k] in cs
    ensures LStripChars(s, cs) == ""
  {
    var r := LStripChars(s, cs);
    assert r == s[|s| - |r|..];
  }

  /** Python's `str.lower()` on one character, for the letters that occur in
      the texts the source inspects: ASCII and the Turkish letters with a
      one-character lower-case form. */
  function LowerChar(c: char): char {
    if 'A' <= c <= 'Z' then (c as int + 32) as char
    else if c == '\U{c7}' then '\U{e7}'     // Ç
    else if c == '\U{d6}' then '\U{f6}'     // Ö
    else if c == '\U{dc}' then '\U{fc}'     // Ü
    else if c == '\U{11e}' then '\U{11f}'   // Ğ
    else if c == '\U{15e}' then '\U{15f}'   // Ş
    else c
  }

  /** Python's `s.lower()` (character by character, see LowerChar). */
  function Lower(s: string): (r: string)
    ensures |r| == |s| && forall k :: 0 <= k < |s| ==> r[k] == LowerChar(s[k])
  {
    seq(|s|, k requires 0 <= k < |s| => LowerChar(s[k]))
  }

  predicate StartsWith(s: string, p: string) {
    |p| <= |s| && s[..|p|] == p
  }

  predicate EndsWith(s: string, p: string) {
    |p| <= |s| && s[|s| - |p|..] == p
  }

  /** A text ending in `p` is what comes before `p`, then `p`. */
  lemma EndsWithSplit(s: string, p: string)
    requires EndsWith(s, p)
    ensures s[..|s| - |p|] + p == s
  {
    assert s == s[..|s| - |p|] + s[|s| - |p|..];
  }

  /** `p` occurs in `s` starting at position `i`. */
  predicate OccursAt(s: string, p: string, i: int) {
    0 <= i <= |s| - |p| && s[i..i + |p|] == p
  }

  /** Python's `p in s` for strings. */
  predicate Contains(s: string, p: string) {
    exists i | 0 <= i <= |s| :: OccursAt(s, p, i)
  }

  /** Python's `s.replace(p, "")`: removes the non-overlapping occurrences of
      `p`, scanning left to right. */
  function RemoveAll(s: string, p: string): (r: string)
    requires |p| > 0
    ensures |r| <= |s|
    decreases |s|
  {
    if |s| < |p| then s
    else if s[..|p|] == p then RemoveAll(s[|p|..], p)
    else [s[0]] + RemoveAll(s[1..], p)
  }

  /** The characters of `s` other than `c`, in order. */
  function Without(s: string, c: char): (r: string)
    ensures c !in r
    ensures |r| <= |s|
  {
    if |s| == 0 then [] else (if s[0] == c then [] else [s[0]]) + Without(s[1..], c)
  }

  lemma {:induction false} WithoutConcat(a: string, b: string, c: char)
    ensures Without(a + b, c) == Without(a, c) + Without(b, c)
    decreases |a|
  {
    if |a| == 0 {
      assert a + b == b;
    } else {
      var h := if a[0] == c then [] else [a[0]];
      assert (a + b)[0] == a[0] && (a + b)[1..] == a[1..] + b;
      WithoutConcat(a[1..], b, c);
      assert Without(a + b, c) == h + (Without(a[1..], c) + Without(b, c));
      assert Without(a, c) == h + Without(a[1..], c);
    }
  }

  /** Removing occurrences of a pattern made only of `c` does not change
      which non-`c` characters remain. */
  lemma {:induction false} RemoveAllKeepsOthers(s: string, p: string, c: char)
    requires |p| > 0 && forall k :: 0 <= k < |p| ==> p[k] == c
    ensures Without(RemoveAll(s, p), c) == Without(s, c)
    decreases |s|
  {
    if |s| < |p| {
    } else if s[..|p|] == p {
      var head, tail := s[..|p|], s[|p|..];
      assert RemoveAll(s, p) == RemoveAll(tail, p);
      RemoveAllKeepsOthers(tail, p, c);
      assert s == head + tail;
      WithoutConcat(head, tail, c);
      AllCharsGone(head, c);
      assert Without(s, c) == Without(tail, c);
    } else {
      var tail := s[1..];
      assert RemoveAll(s, p) == [s[0]] + RemoveAll(tail, p);
      RemoveAllKeepsOthers(tail, p, c);
      assert s == [s[0]] + tail;
      WithoutConcat([s[0]], tail, c);
      WithoutConcat([s[0]], RemoveAll(tail, p), c);
    }
  }

  lemma {:induction false} AllCharsGone(s: string, c: char)
    requires forall k :: 0 <= k < |s| ==> s[k] == c
    ensures Without(s, c) == []
  {
    if |s| > 0 {
      AllCharsGone(s[1..], c);
    }
  }

  /** Removing the one-character pattern `[c]` is removing every `c`. */
  lemma {:induction false} RemoveSingleIsWithout(s: string, c: char)
    ensures RemoveAll(s, [c]) == Without(s, c)
    decreases |s|
  {
    if |s| >= 1 {
      RemoveSingleIsWithout(s[1..], c);
      if s[..1] == [c] {
        assert s[0] == c;
      } else {
        assert s[0] != c;
      }
    }
  }

  /** Python's `s.split(sep)` for a one-character separator: always at least
      one part; parts never contain the separator. */
  function Split(s: string, sep: char): (parts: seq<string>)
    ensures |parts| >= 1
    ensures forall i :: 0 <= i < |parts| ==> sep !in parts[i]
    decreases |s|
  {
    if |s| == 0 then [""]
    else
      var rest := Split(s[1..], sep);
      if s[0] == sep then [""] + rest
      else [[s[0]] + rest[0]] + rest[1..]
  }

  /** Python's `sep.join(parts)`. */
  function Join(parts: seq<string>, sep: char): string
    decreases |parts|
  {
    if |parts| == 0 then ""
    else if |parts| == 1 then parts[0]
    else parts[0] + [sep] + Join(parts[1..], sep)
  }

  /** Splitting and joining back on the same separator is the identity. */
  lemma {:induction false} SplitJoin(s: string, sep: char)
    ensures Join(Split(s, sep), sep) == s
    decreases |s|
  {
    if |s| > 0 {
      SplitJoin(s[1..], sep);
      var rest := Split(s[1..], sep);
      if s[0] == sep {
        assert Split(s, sep) == [""] + rest;
        assert ([""] + rest)[1..] == rest;
      } else {
        if |rest| == 1 {
        } else {
          assert ([[s[0]] + rest[0]] + rest[1..])[1..] == rest[1..];
          assert Join(rest, sep) == rest[0] + [sep] + Join(rest[1..], sep);
        }
      }
    }
  }

  /** One decimal digit. */
  function DigitChar(d: nat): char
    requires d < 10
  {
    ('0' as int + d) as char
  }

  predicate IsDigit(c: char) { '0' <= c <= '9' }

  /** Python's `str(n)` for a non-negative integer. */
  function NatToString(n: nat): (s: string)
    ensures |s| >= 1 && forall k :: 0 <= k < |s| ==> IsDigit(s[k])
    ensures n >= 10 ==> s[0] != '0'
  {
    if n < 10 then [DigitChar(n)] else NatToString(n / 10) + [DigitChar(n % 10)]
  }

  /** Python's `int(s)` on a string of decimal digits. */
  function DigitsValue(s: string): nat
    requires forall k :: 0 <= k < |s| ==> IsDigit(s[k])
  {
    if |s| == 0 then 0
    else
      assert IsDigit(s[|s| - 1]);
      10 * DigitsValue(s[..|s| - 1]) + (s[|s| - 1] as int - '0' as int)
  }

  /** Reading back the decimal text of a number gives the number. */
  lemma {:induction false} NatToStringRoundTrip(n: nat)
    ensures DigitsValue(NatToString(n)) == n
  {
    if n >= 10 {
      NatToStringRoundTrip(n / 10);
      var s := NatToString(n);
      assert s[..|s| - 1] == NatToString(n / 10);
    }
  }

  /** Different numbers are printed differently. */
  lemma NatToStringInjective(m: nat, n: nat)
    requires NatToString(m) == NatToString(n)
    ensures m == n
  {
    NatToStringRoundTrip(m);
    NatToStringRoundTrip(n);
  }
}
