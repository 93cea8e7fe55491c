/** File helpers: shortening a path for display, and the checks an audio
    file must pass before it is accepted. */
module FileUtils {
  import opened Common
  import opened Text
  import opened Paths

  /** The display width used when none is given. */
  const DefaultDisplayLen: int := 60
  /** The largest accepted file (bytes): 1 GiB. */
  const MaxFileSize: int := 1024 * 1024 * 1024
  /** The accepted extensions, compared in lower case. */
  const ValidExtensions: seq<string> := [".wav", ".mp3", ".m4a", ".flac", ".aac", ".ogg"]

  // ---------------------------------------------------------------- display

  /** `format_path_display` as written: a path that fits is kept; a long
      basename is shown as "..." and its last `maxLen - 5` characters; a
      path whose directory fits is kept; otherwise the directory is cut to
      `maxLen - |base| - 3` characters and followed by "...", the separator
      and the basename. */
  function FormatPathDisplayAsWritten(path: string, maxLen: int): (r: string)
    ensures |path| <= maxLen ==> r == path
    ensures |path| > maxLen && |Basename(path)| > maxLen - 5 && maxLen > 5 ==>
              r == "..." + Basename(path)[|Basename(path)| - (maxLen - 5)..] && |r| == maxLen - 2
    ensures |path| > maxLen && |Basename(path)| <= maxLen - 5 ==> EndsWith(r, Basename(path))
    ensures |path| > maxLen && |Basename(path)| <= maxLen - 5 && |Dirname(path)| > maxLen - |Basename(path)| - 3 ==>
              |r| == maxLen + 1
  {
    if |path| <= maxLen then path
    else
      var base := Basename(path);
      var dir := Dirname(path);
      if |base| > maxLen - 5 then "..." + PySliceFrom(base, -(maxLen - 5))
      else
        var remaining := maxLen - |base| - 3;
        if |dir| <= remaining then path
        else
          var r := PyPrefix(dir, remaining) + "..." + [Sep] + base;
          assert r == (PyPrefix(dir, remaining) + "..." + [Sep]) + base;
          r
  }

  /** The last branch overshoots by one: a 71-character path with a
      30-character basename, shown in 60 characters, comes back 61
      characters long. */
  lemma FormatPathDisplayOvershoots()
    ensures var path := seq(40, k => 'a') + "/" + seq(30, k => 'b');
            |FormatPathDisplayAsWritten(path, DefaultDisplayLen)| == DefaultDisplayLen + 1
  {
    var path := seq(40, k => 'a') + "/" + seq(30, k => 'b');
    var base := seq(30, k => 'b');
    assert RFind(path, Sep) == 40 by {
      assert path[40] == Sep;
      assert forall k :: 40 < k < |path| ==> path[k] == 'b';
    }
    assert Basename(path) == base;
    assert |Dirname(path)| == 40 by {
      assert path[..41] == seq(40, k => 'a') + "/";
      assert !AllSeps(path[..41]) by {
        assert path[..41][0] == 'a';
      }
      assert RStripSeps(path[..41]) == seq(40, k => 'a') by {
        assert path[..41][40] == Sep;
        assert path[..41][..40] == seq(40, k => 'a');
      }
    }
  }

  /** `format_path_display` with the dot budget counted in full ("...",
      then the separator: four characters), so the result never exceeds
      `maxLen` once `maxLen` leaves room for the shortened basename. A path
      with several separators before its basename can still take the
      "directory fits" branch and come back whole, so the bound is stated
      for paths with at most one separator there. */
  function FormatPathDisplay(path: string, maxLen: int): (r: string)
    ensures |path| <= maxLen ==> r == path
    ensures maxLen > 5 && |path| <= |Dirname(path)| + 1 + |Basename(path)| ==> |r| <= maxLen
    ensures |path| > maxLen && |Basename(path)| <= maxLen - 5 ==> EndsWith(r, Basename(path))
    ensures |path| > maxLen && maxLen > 5 && |Basename(path)| > maxLen - 5 ==>
              r == "..." + Basename(path)[|Basename(path)| - (maxLen - 5)..]
  {
    if |path| <= maxLen then path
    else
      var base := Basename(path);
      var dir := Dirname(path);
      if |base| > maxLen - 5 then "..." + PySliceFrom(base, -(maxLen - 5))
      else
        var remaining := maxLen - |base| - 4;
        if |dir| <= remaining then path
        else
          var r := PyPrefix(dir, remaining) + "..." + [Sep] + base;
          assert r == (PyPrefix(dir, remaining) + "..." + [Sep]) + base;
          r
  }

  // ---------------------------------------------------------------- validation

  /** What the file system says about a path. */
  datatype FileInfo = FileInfo(exists_: bool, readable: bool, size: int)

  /** `validate_audio_file`: the first failing check gives its message; a
      file passing all of them gives no message. */
  function ValidateAudioFile(path: string, info: FileInfo): (r: Option<string>)
    ensures !info.exists_ ==> r == Some("Dosya bulunamadı.")
    ensures info.exists_ && !info.readable ==> r == Some("Dosya okunamıyor.")
    ensures info.exists_ && info.readable && info.size == 0 ==> r == Some("Dosya boş.")
    ensures info.exists_ && info.readable && info.size != 0 && info.size > MaxFileSize ==>
              r == Some("Dosya çok büyük (maksimum 1GB).")
    ensures r.None? <==> AcceptedFile(path, info)
  {
    if !info.exists_ then Some("Dosya bulunamadı.")
    else if !info.readable then Some("Dosya okunamıyor.")
    else if info.size == 0 then Some("Dosya boş.")
    else if info.size > MaxFileSize then Some("Dosya çok büyük (maksimum 1GB).")
    else
      var ext := Lower(Extension(path));
      if ext !in ValidExtensions then Some("Desteklenmeyen dosya formatı: " + ext)
      else None
  }

  /** The conditions of an acceptable audio file, all at once. */
  predicate AcceptedFile(path: string, info: FileInfo) {
    && info.exists_ && info.readable
    && info.size != 0 && info.size <= MaxFileSize
    && Lower(Extension(path)) in ValidExtensions
  }

  /** A file of exactly 1 GiB is accepted, one byte more is not, and the
      extension check ignores case. */
  lemma ValidationBoundaries(path: string)
    requires Lower(Extension(path)) == ".wav"
    ensures ValidateAudioFile(path, FileInfo(true, true, MaxFileSize)).None?
    ensures ValidateAudioFile(path, FileInfo(true, true, MaxFileSize + 1)) == Some("Dosya çok büyük (maksimum 1GB).")
  {
  }

  /** An upper-case extension is accepted like its lower-case form. */
  lemma ExtensionCaseIgnored(path: string)
    requires Extension(path) == ".WAV"
    ensures ValidateAudioFile(path, FileInfo(true, true, 1)).None?
  {
    LowerWav();
    assert ".wav" in ValidExtensions;
  }

  lemma LowerWav()
    ensures Lower(".WAV") == ".wav"
  {
  }
}
