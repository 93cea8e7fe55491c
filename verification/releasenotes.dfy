/** How the update dialog shows a release's notes: markdown headings
    removed, one decorated line per non-blank input line, each prefixed by
    the emoji of the first topic it mentions. */
module ReleaseNotes {
  import opened Common
  import opened Text

  /** The bullet character '•'. */
  const Bullet: char := '\U{2022}'

  /** What is shown when the release has no notes at all. */
  const NoNotesLines: seq<string> := [
    "\U{2022} Geli\U{15f}tirilmi\U{15f} performans",
    "\U{2022} Hata d\U{fc}zeltmeleri",
    "\U{2022} Genel iyile\U{15f}tirmeler"
  ]
  const NoNotesText: string := Join(NoNotesLines, '\n')

  /** What is shown when the notes have no non-blank line. */
  const FallbackLines: seq<string> := [
    "\U{1F504} Geli\U{15f}tirilmi\U{15f} Senkronizasyon",
    "\U{1F3B5} Ses Analizi Geli\U{15f}tirmeleri",
    "\U{1F3AF} Spot Analiz Geli\U{15f}tirmeleri",
    "\U{1F3A8} Aray\U{fc}z G\U{fc}ncellemeleri",
    "\U{1F41B} Bug Fix"
  ]

  /** The topics, in the order they are tried, and their emoji. */
  const EmojiMap: seq<(string, string)> := [
    ("senkronizasyon", "\U{1F504}"),
    ("ses analizi", "\U{1F3B5}"),
    ("spot analiz", "\U{1F3AF}"),
    ("aray\U{fc}z", "\U{1F3A8}"),
    ("bug", "\U{1F41B}"),
    ("fix", "\U{1F527}"),
    ("geli\U{15f}tirme", "\U{26A1}"),
    ("iyile\U{15f}tirme", "\U{2728}"),
    ("performans", "\U{1F680}"),
    ("hata", "\U{274C}"),
    ("d\U{fc}zeltme", "\U{2705}")
  ]

  /** `.replace("##", "").replace("###", "").replace("#", "")`: the chain
      removes every '#', whatever the headings looked like. */
  function RemoveHashes(notes: string): (r: string)
    ensures r == Without(notes, '#')
  {
    var a := RemoveAll(notes, "##");
    var b := RemoveAll(a, "###");
    RemoveSingleIsWithout(b, '#');
    RemoveAllKeepsOthers(a, "###", '#');
    RemoveAllKeepsOthers(notes, "##", '#');
    RemoveAll(b, "#")
  }

  /** The first topic (by position in `m`) that the lower-cased line
      mentions, if any. */
  function FirstTopic(lower: string, m: seq<(string, string)>): (r: Option<nat>)
    ensures r.None? <==> forall i :: 0 <= i < |m| ==> !Contains(lower, m[i].0)
    ensures r.Some? ==> r.value < |m| && Contains(lower, m[r.value].0) &&
                        forall j :: 0 <= j < r.value ==> !Contains(lower, m[j].0)
  {
    if |m| == 0 then None
    else if Contains(lower, m[0].0) then Some(0)
    else
      match FirstTopic(lower, m[1..])
      case None => None
      case Some(k) => Some(k + 1)
  }

  /** The prefix of a line: its first topic's emoji, else the bullet. */
  function Emoji(line: string): (e: string)
    ensures '\n' !in e && |e| == 1
    ensures (forall i :: 0 <= i < |EmojiMap| ==> !Contains(Lower(line), EmojiMap[i].0)) ==> e == [Bullet]
    ensures forall i ::
              (0 <= i < |EmojiMap| && Contains(Lower(line), EmojiMap[i].0) &&
               (forall j :: 0 <= j < i ==> !Contains(Lower(line), EmojiMap[j].0))) ==> e == EmojiMap[i].1
  {
    match FirstTopic(Lower(line), EmojiMap)
    case None => [Bullet]
    case Some(k) => EmojiIsOneChar(k); EmojiMap[k].1
  }

  /** Every emoji of the table is a single character. */
  lemma EmojiIsOneChar(k: nat)
    requires k < |EmojiMap|
    ensures |EmojiMap[k].1| == 1 && '\n' !in EmojiMap[k].1
  {
  }

  /** A stripped line without its leading run of '-', '*' and '•' and the
      whitespace after it. */
  function StripBullets(line: string): (r: string)
    ensures '\n' !in line ==> '\n' !in r
  {
    if StartsWith(line, "-") || StartsWith(line, "*") || StartsWith(line, [Bullet]) then
      var rest := LStripChars(line, {'-', '*', Bullet});
      assert rest == line[|line| - |rest|..];
      StripKeepsOut(rest, '\n');
      Strip(rest)
    else line
  }

  /** Stripping never brings in a character. */
  lemma StripKeepsOut(s: string, c: char)
    ensures c !in s ==> c !in Strip(s)
  {
    var l := LStrip(s);
    assert l == s[|s| - |l|..];
    var r := RStrip(l);
    assert r == l[..|r|];
    assert Strip(s) == r;
  }

  /** The line holds nothing but whitespace. */
  predicate Blank(line: string) {
    forall k :: 0 <= k < |line| ==> IsSpace(line[k])
  }

  /** One output line for one input line; none for a blank one. */
  function FormatLine(raw: string): (r: Option<string>)
    ensures r.None? <==> Blank(raw)
    ensures '\n' !in raw && r.Some? ==> '\n' !in r.value
  {
    var line := Strip(raw);
    if line == "" then None
    else
      StripKeepsOut(raw, '\n');
      var text := StripBullets(line);
      Some(Emoji(text) + " " + text)
  }

  /** The results of `f` on the lines it keeps, in order. */
  function Collect(lines: seq<string>, f: string -> Option<string>): (r: seq<string>)
    ensures |r| == |Kept(lines, f)|
    ensures forall i :: 0 <= i < |r| ==> Some(r[i]) == f(Kept(lines, f)[i])
  {
    if |lines| == 0 then []
    else
      var rest := Collect(lines[1..], f);
      match f(lines[0])
      case None => rest
      case Some(l) => [l] + rest
  }

  /** The lines on which `f` gives something, in order. */
  function Kept(lines: seq<string>, f: string -> Option<string>): (r: seq<string>)
    ensures |r| <= |lines|
    ensures forall i :: 0 <= i < |r| ==> r[i] in lines && f(r[i]).Some?
  {
    if |lines| == 0 then []
    else
      var rest := Kept(lines[1..], f);
      assert forall x :: x in lines[1..] ==> x in lines;
      if f(lines[0]).None? then rest else [lines[0]] + rest
  }

  /** The lines of the formatted notes, blank input lines skipped. */
  function FormatLines(lines: seq<string>): (r: seq<string>)
  {
    Collect(lines, FormatLine)
  }

  /** One formatted line per non-blank input line, in order. */
  lemma FormatLinesPerLine(lines: seq<string>)
    ensures |FormatLines(lines)| == |NonBlank(lines)|
    ensures forall i :: 0 <= i < |NonBlank(lines)| ==> Some(FormatLines(lines)[i]) == FormatLine(NonBlank(lines)[i])
  {
    KeptNonBlank(lines);
  }

  /** The lines `FormatLine` keeps are the non-blank ones. */
  lemma {:induction false} KeptNonBlank(lines: seq<string>)
    ensures Kept(lines, FormatLine) == NonBlank(lines)
  {
    if |lines| > 0 {
      KeptNonBlank(lines[1..]);
    }
  }

  /** The input lines that hold something other than whitespace, in order. */
  function NonBlank(lines: seq<string>): (r: seq<string>)
    ensures |r| <= |lines|
    ensures forall i :: 0 <= i < |r| ==> r[i] in lines && !Blank(r[i])
  {
    if |lines| == 0 then []
    else
      var rest := NonBlank(lines[1..]);
      if Blank(lines[0]) then rest else [lines[0]] + rest
  }

  /** The cleaned notes: no '#', outer whitespace stripped, split into lines. */
  function CleanLines(notes: string): (lines: seq<string>)
    ensures |lines| >= 1 && forall i :: 0 <= i < |lines| ==> '\n' !in lines[i]
  {
    Split(Strip(RemoveHashes(notes)), '\n')
  }

  /** `_format_release_notes(notes)`; `None` stands for a missing notes
      value. */
  function FormatReleaseNotes(notes: Option<string>): (r: string)
  {
    if notes.None? || notes.value == "" then NoNotesText
    else
      var formatted := FormatLines(CleanLines(notes.value));
      if |formatted| == 0 then Join(FallbackLines, '\n') else Join(formatted, '\n')
  }

  /** The lines the dialog shows, as a list. */
  function ShownLines(notes: Option<string>): (ls: seq<string>)
  {
    if notes.None? || notes.value == "" then NoNotesLines
    else
      var formatted := FormatLines(CleanLines(notes.value));
      if |formatted| == 0 then FallbackLines else formatted
  }

  /** The text is its lines joined by newlines, with no newline at the
      end: splitting it gives the lines back. */
  lemma FormatReleaseNotesLines(notes: Option<string>)
    ensures Split(FormatReleaseNotes(notes), '\n') == ShownLines(notes)
    ensures FormatReleaseNotes(notes) == Join(ShownLines(notes), '\n')
    ensures notes.None? || notes.value == "" ==> |ShownLines(notes)| == 3
  {
    FixedLinesHaveNoNewline();
    if notes.None? || notes.value == "" {
      SplitJoinedLines(NoNotesLines, '\n');
    } else {
      var formatted := FormatLines(CleanLines(notes.value));
      if |formatted| == 0 {
        SplitJoinedLines(FallbackLines, '\n');
      } else {
        var nb := Kept(CleanLines(notes.value), FormatLine);
        assert forall i :: 0 <= i < |formatted| ==> '\n' !in formatted[i] by {
          forall i | 0 <= i < |formatted| ensures '\n' !in formatted[i] {
            assert nb[i] in CleanLines(notes.value);
            assert Some(formatted[i]) == FormatLine(nb[i]);
          }
        }
        SplitJoinedLines(formatted, '\n');
      }
    }
  }

  /** Splitting parts joined by a separator they do not contain gives the
      parts back. */
  lemma {:induction false} SplitJoinedLines(parts: seq<string>, sep: char)
    requires |parts| >= 1 && forall i :: 0 <= i < |parts| ==> sep !in parts[i]
    ensures Split(Join(parts, sep), sep) == parts
    decreases |parts|
  {
    if |parts| == 1 {
      SplitNoSep(parts[0], sep);
    } else {
      SplitJoinedLines(parts[1..], sep);
      SplitAfterPart(parts[0], Join(parts[1..], sep), sep);
      assert parts == [parts[0]] + parts[1..];
    }
  }

  /** A string without the separator is one part. */
  lemma {:induction false} SplitNoSep(s: string, sep: char)
    requires sep !in s
    ensures Split(s, sep) == [s]
    decreases |s|
  {
    if |s| > 0 {
      SplitNoSep(s[1..], sep);
      assert [s[0]] + s[1..] == s;
    }
  }

  /** A part without the separator, then the separator, then the rest,
      splits into the part followed by the rest's parts. */
  lemma {:induction false} SplitAfterPart(a: string, b: string, sep: char)
    requires sep !in a
    ensures Split(a + [sep] + b, sep) == [a] + Split(b, sep)
    decreases |a|
  {
    if |a| == 0 {
      assert a + [sep] + b == [sep] + b;
      assert ([sep] + b)[1..] == b;
    } else {
      SplitAfterPart(a[1..], b, sep);
      assert (a + [sep] + b)[1..] == a[1..] + [sep] + b;
      assert [a[0]] + a[1..] == a;
    }
  }

  /** The fixed texts are made of whole lines. */
  lemma FixedLinesHaveNoNewline()
    ensures forall i :: 0 <= i < |NoNotesLines| ==> '\n' !in NoNotesLines[i]
    ensures forall i :: 0 <= i < |FallbackLines| ==> '\n' !in FallbackLines[i]
  {
    forall i | 0 <= i < |NoNotesLines| ensures '\n' !in NoNotesLines[i] {
      NoNotesLineWhole(i);
    }
    forall i | 0 <= i < |FallbackLines| ensures '\n' !in FallbackLines[i] {
      FallbackLineWhole(i);
    }
  }

  lemma NoNotesLineWhole(i: nat)
    requires i < |NoNotesLines|
    ensures '\n' !in NoNotesLines[i]
  {
  }

  lemma FallbackLineWhole(i: nat)
    requires i < |FallbackLines|
    ensures '\n' !in FallbackLines[i]
  {
  }

  /** Notes that hold nothing but '#' and whitespace give the five
      fallback lines; any other notes give at least one line of their own. */
  lemma FallbackWhenBlank(notes: string)
    requires notes != ""
    ensures FormatLines(CleanLines(notes)) == [] <==> Strip(RemoveHashes(notes)) == ""
    ensures Strip(RemoveHashes(notes)) == "" ==> ShownLines(Some(notes)) == FallbackLines
  {
    var cleaned := Strip(RemoveHashes(notes));
    var lines := CleanLines(notes);
    if cleaned == "" {
      assert lines == [""];
      assert FormatLine("").None?;
    } else {
      FirstLineNotBlank(cleaned);
      assert FormatLine(lines[0]).Some?;
      assert |Kept(lines, FormatLine)| > 0;
    }
  }

  /** The first part of a text that starts with a non-blank character
      holds that character. */
  lemma FirstLineNotBlank(s: string)
    requires |s| > 0 && !IsSpace(s[0])
    ensures |Split(s, '\n')[0]| > 0 && Split(s, '\n')[0][0] == s[0]
    ensures !(forall k :: 0 <= k < |Split(s, '\n')[0]| ==> IsSpace(Split(s, '\n')[0][k]))
  {
    assert s[0] != '\n';
  }

  /** A line that is only bullets still gives a line: the bullet prefix
      and nothing after it. */
  lemma BulletOnlyLine(line: string)
    requires |line| > 0 && forall k :: 0 <= k < |line| ==> line[k] in {'-', '*', Bullet}
    ensures FormatLine(line) == Some([Bullet, ' '])
  {
    BulletsStripped(line);
    EmptyLineEmoji();
    assert FormatLine(line) == Some([Bullet] + " " + "");
    assert [Bullet] + " " + "" == [Bullet, ' '];
  }

  /** A line of bullets only is already stripped and loses everything to
      the bullet removal. */
  lemma BulletsStripped(line: string)
    requires |line| > 0 && forall k :: 0 <= k < |line| ==> line[k] in {'-', '*', Bullet}
    ensures Strip(line) == line && StripBullets(line) == ""
  {
    assert line[0] in {'-', '*', Bullet} && line[|line| - 1] in {'-', '*', Bullet};
    StripUnchanged(line);
    LStripCharsAll(line, {'-', '*', Bullet});
  }

  /** An empty line mentions no topic and gets the bullet. */
  lemma EmptyLineEmoji()
    ensures Emoji("") == [Bullet]
  {
    TopicsAreNonEmpty();
    assert Lower("") == "";
  }

  /** Every topic has at least one character, so an empty line mentions
      none of them. */
  lemma TopicsAreNonEmpty()
    ensures forall i :: 0 <= i < |EmojiMap| ==> |EmojiMap[i].0| > 0 && !Contains("", EmojiMap[i].0)
  {
  }
}
