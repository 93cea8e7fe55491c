/** Python's `os.path` helpers with POSIX semantics ('/' separates path
    components). */
module Paths {
  import opened Common
  import opened Text

  const Sep: char := '/'

  /** Python's `s.rfind(c)`: the last position of `c`, or -1. */
  function RFind(s: string, c: char): (i: int)
    ensures -1 <= i < |s|
    ensures i >= 0 ==> s[i] == c
    ensures forall k :: i < k < |s| ==> s[k] != c
  {
    if |s| == 0 then -1
    else if s[|s| - 1] == c then |s| - 1
    else RFind(s[..|s| - 1], c)
  }

  /** `os.path.basename(p)`: everything after the last separator. */
  function Basename(p: string): (r: string)
    ensures Sep !in r
  {
    p[RFind(p, Sep) + 1..]
  }

  /** True when `s` is non-empty and made only of separators. */
  predicate AllSeps(s: string) {
    |s| > 0 && forall k :: 0 <= k < |s| ==> s[k] == Sep
  }

  /** Python's `s.rstrip('/')`. */
  function RStripSeps(s: string): (r: string)
    ensures |r| <= |s| && r == s[..|r|]
    ensures |r| > 0 ==> r[|r| - 1] != Sep
  {
    if |s| > 0 && s[|s| - 1] == Sep then RStripSeps(s[..|s| - 1]) else s
  }

  /** `os.path.dirname(p)`: everything up to the last separator, with the
      trailing separators removed unless the head is the root itself. */
  function Dirname(p: string): (r: string)
    ensures |r| <= |p| && r == p[..|r|]
    ensures RFind(p, Sep) == -1 ==> r == ""
  {
    var head := p[..RFind(p, Sep) + 1];
    if |head| > 0 && !AllSeps(head) then RStripSeps(head) else head
  }

  /** Splitting off the basename: the directory part and the basename make up
      the path, with only separators between them. */
  lemma DirnameBasename(p: string)
    ensures EndsWith(p, Basename(p)) && StartsWith(p, Dirname(p))
    ensures |Basename(p)| == |p| || p[|p| - |Basename(p)| - 1] == Sep
    ensures |Dirname(p)| + |Basename(p)| <= |p|
    ensures forall k :: |Dirname(p)| <= k < |p| - |Basename(p)| ==> p[k] == Sep
  {
    var i := RFind(p, Sep);
    var head := p[..i + 1];
    if |head| > 0 && !AllSeps(head) {
      var r := RStripSeps(head);
      assert forall k :: |r| <= k < |head| ==> head[k] == Sep by {
        RStripSepsDropsOnlySeps(head);
      }
    }
  }

  lemma {:induction false} RStripSepsDropsOnlySeps(s: string)
    ensures forall k :: |RStripSeps(s)| <= k < |s| ==> s[k] == Sep
  {
    if |s| > 0 && s[|s| - 1] == Sep {
      RStripSepsDropsOnlySeps(s[..|s| - 1]);
    }
  }

  /** The extension found by `os.path.splitext(p)`: from the last '.' of the
      basename to the end, unless the basename's dots are all leading. */
  function Extension(p: string): (ext: string)
    ensures EndsWith(p, ext)
    ensures ext == "" || (ext[0] == '.' && Sep !in ext)
    ensures '.' !in Basename(p) ==> ext == ""
  {
    p[SplitIndex(p)..]
  }

  /** Where `os.path.splitext(p)` cuts: the last '.' of the basename when
      some character before it in the basename is not a dot, otherwise the
      end of the path. */
  function SplitIndex(p: string): (i: int)
    ensures 0 <= i <= |p|
    ensures i < |p| ==> p[i] == '.' && RFind(p, Sep) < i
  {
    var sepIndex := RFind(p, Sep);
    var dotIndex := RFind(p, '.');
    if dotIndex > sepIndex && exists k | sepIndex + 1 <= k < dotIndex :: p[k] != '.'
    then dotIndex
    else |p|
  }

  /** The root returned by `os.path.splitext(p)`: the path without its
      extension. */
  function Stem(p: string): (root: string)
    ensures |root| <= |p| && root == p[..|root|]
  {
    p[..SplitIndex(p)]
  }

  /** `os.path.splitext` splits: the root followed by the extension is the
      path. */
  lemma StemExtension(p: string)
    ensures Stem(p) + Extension(p) == p
  {
    assert p == p[..SplitIndex(p)] + p[SplitIndex(p)..];
  }

  /** `os.path.join(dir, name)` for a name that does not start at the root. */
  function Join(dir: string, name: string): (r: string)
    requires |name| == 0 || name[0] != Sep
    ensures EndsWith(r, name) && StartsWith(r, dir)
    ensures |r| == |dir| + |name| || (|r| == |dir| + 1 + |name| && r[|dir|] == Sep)
  {
    if |dir| == 0 || dir[|dir| - 1] == Sep then dir + name else dir + [Sep] + name
  }
}
