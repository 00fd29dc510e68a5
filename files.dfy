/**
 * Directory entries as the two back ends see them after `os.listdir`, and
 * `os.path.splitext` on a bare file name.
 */
module Files {
  import opened Wrappers
  import opened Text

  /**
   * The 10 KiB threshold both back ends hard-code for a real download
   * (app.py:270; app_production.py:174, 185 and 210).
   */
  const MinFileSize: nat := 10240

  /** A regular file of the scratch directory and the size `os.path.getsize` reported for it. */
  datatype FileEntry = FileEntry(name: string, size: nat)

  /** A download still in progress: the extraction library's `.part` suffix. */
  predicate IsPartial(name: string)
  {
    EndsWith(name, ".part")
  }

  /** Index of the last dot of `s`, if any. */
  function LastDot(s: string): (r: Option<nat>)
    ensures r.None? ==> '.' !in s
    ensures r.Some? ==> r.value < |s| && s[r.value] == '.' && '.' !in s[r.value + 1..]
  {
    if s == [] then None
    else if s[|s| - 1] == '.' then Some(|s| - 1)
    else
      var r := LastDot(s[..|s| - 1]);
      assert s == s[..|s| - 1] + [s[|s| - 1]];
      r
  }

  /**
   * `os.path.splitext(name)[1]` for a name without directory part: from the
   * last dot on, unless everything before that dot is dots (".bashrc").
   */
  function SplitExt(name: string): (ext: string)
    ensures ext == [] || (ext[0] == '.' && EndsWith(name, ext) && '.' !in ext[1..] && |ext| < |name|)
  {
    match LastDot(name)
    case None => []
    case Some(d) =>
      if exists j :: 0 <= j < d && name[j] != '.' then name[d..] else []
  }

  /** A name without a dot has no extension. */
  lemma NoDotNoExt(name: string)
    requires '.' !in name
    ensures SplitExt(name) == []
  {
  }

  /** The extension of `base + ext` is `ext`, when `base` is not all dots and `ext` has one dot, in front. */
  lemma SplitExtOfJoin(base: string, ext: string)
    requires exists j :: 0 <= j < |base| && base[j] != '.'
    requires |ext| >= 1 && ext[0] == '.' && '.' !in ext[1..]
    ensures SplitExt(base + ext) == ext
  {
    var name := base + ext;
    var d := |base|;
    assert name[d + 1..] == ext[1..];
    LastDotIs(name, d);
    var j :| 0 <= j < |base| && base[j] != '.';
    assert name[j] == base[j];
    assert name[d..] == ext;
  }

  /** A dot with no dot after it is the last dot. */
  lemma {:induction false} LastDotIs(s: string, d: nat)
    requires d < |s| && s[d] == '.' && '.' !in s[d + 1..]
    ensures LastDot(s) == Some(d)
    decreases |s|
  {
    if d < |s| - 1 {
      var t := s[..|s| - 1];
      assert s[d + 1..] == t[d + 1..] + [s[|s| - 1]];
      assert s[|s| - 1] != '.';
      LastDotIs(t, d);
    }
  }
}
