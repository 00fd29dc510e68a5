/**
 * What app_production.py decides from the request's format type and from
 * the format list the extraction library reports: the selector plan, the
 * accepted format types, the DRM flag of `get_video_info`, the image-only
 * rejection, and the DRM test on error messages.
 */
module MediaFormats {
  import opened Text

  const Mp3Plan: seq<string> :=
    ["bestaudio[ext=m4a]/bestaudio[ext=webm]/bestaudio", "bestaudio/best", "worstaudio/worst", "audio"]

  const VideoPlan: seq<string> :=
    ["best[ext=mp4]/best", "worst[ext=mp4]/worst", "bestvideo+bestaudio/best",
     "bestvideo[height<=720]+bestaudio/best", "bestvideo[height<=480]+bestaudio/best", "best"]

  /** The `/api/download` route accepts "video" and "mp3" and rejects every other value. */
  predicate IsAcceptedFormat(formatType: string)
  {
    formatType == "video" || formatType == "mp3"
  }

  /** The selectors `download_video` tries, in order: the audio plan for "mp3", the video plan otherwise. */
  function StrategyPlan(formatType: string): (plan: seq<string>)
    ensures formatType == "mp3" ==> |plan| == 4 && plan == Mp3Plan
    ensures formatType != "mp3" ==> |plan| == 6 && plan == VideoPlan
  {
    if formatType == "mp3" then Mp3Plan else VideoPlan
  }

  /**
   * One entry of the reported format list: whether its `has_drm` and `drm`
   * keys are truthy, its printed text, and its video and audio codecs
   * ("none" when the key is missing).
   */
  datatype FormatInfo = FormatInfo(hasDrm: bool, drm: bool, text: string, vcodec: string, acodec: string)

  predicate FlagsDrm(f: FormatInfo)
  {
    f.hasDrm || f.drm || Contains(Lower(f.text), "drm")
  }

  /** The `has_drm` scan of `get_video_info` (app_production.py:52-57), stopping at the first hit. */
  method ScanForDrm(formats: seq<FormatInfo>) returns (hasDrm: bool)
    ensures hasDrm <==> exists i :: 0 <= i < |formats| && FlagsDrm(formats[i])
  {
    hasDrm := false;
    var i := 0;
    while i < |formats|
      invariant 0 <= i <= |formats|
      invariant !hasDrm
      invariant forall j :: 0 <= j < i ==> !FlagsDrm(formats[j])
    {
      var f := formats[i];
      if f.hasDrm || f.drm || Contains(Lower(f.text), "drm") {
        hasDrm := true;
        break;
      }
      i := i + 1;
    }
  }

  /** A format with a video codec, or, for "mp3", with an audio codec. */
  predicate IsUsable(f: FormatInfo, formatType: string)
  {
    f.vcodec != "none" || (f.acodec != "none" && formatType == "mp3")
  }

  /** The `has_video_audio` scan (app_production.py:137-144), stopping at the first usable format. */
  method HasUsableFormat(formats: seq<FormatInfo>, formatType: string) returns (found: bool)
    ensures found <==> exists i :: 0 <= i < |formats| && IsUsable(formats[i], formatType)
  {
    found := false;
    var i := 0;
    while i < |formats|
      invariant 0 <= i <= |formats|
      invariant !found
      invariant forall j :: 0 <= j < i ==> !IsUsable(formats[j], formatType)
    {
      var f := formats[i];
      if f.vcodec != "none" || (f.acodec != "none" && formatType == "mp3") {
        found := true;
        break;
      }
      i := i + 1;
    }
  }

  /** A download is rejected as image-only when formats were reported and none of them is usable. */
  predicate IsImageOnly(formats: seq<FormatInfo>, formatType: string)
  {
    formats != [] && forall i :: 0 <= i < |formats| ==> !IsUsable(formats[i], formatType)
  }

  /** An empty format list is never rejected, and an audio-only list is rejected for video but not for "mp3". */
  lemma ImageOnlyCases(formats: seq<FormatInfo>)
    ensures !IsImageOnly([], "video") && !IsImageOnly([], "mp3")
    ensures (formats != [] && forall i :: 0 <= i < |formats| ==> formats[i].vcodec == "none" && formats[i].acodec != "none")
      ==> IsImageOnly(formats, "video") && !IsImageOnly(formats, "mp3")
  {
    if formats != [] {
      assert IsUsable(formats[0], "mp3") || formats[0].acodec == "none";
    }
  }

  /** An error message that reads as DRM: it mentions "drm", "protected" or "encrypted", in any case. */
  predicate MentionsDrm(message: string)
  {
    var m := Lower(message);
    Contains(m, "drm") || Contains(m, "protected") || Contains(m, "encrypted")
  }

  /** How `get_video_info` reports a failed extraction (app_production.py:66-70). */
  datatype InfoError = InfoDrmProtected | InfoFailed(message: string)

  function InfoFailure(message: string): (e: InfoError)
    ensures e == InfoDrmProtected <==> MentionsDrm(message)
    ensures e.InfoFailed? ==> e.message == message
  {
    if MentionsDrm(message) then InfoDrmProtected else InfoFailed(message)
  }

  /** The text the exhausted format loop raises around the last error (app_production.py:265). */
  const WrapPrefix: string := "Error al descargar: "

  /**
   * Wrapping a message that does not read as DRM does not make it read as
   * DRM, so the handler that re-tests the raised message (app_production.py:269-275)
   * passes the wrapped error through unchanged.
   */
  lemma WrappingKeepsNonDrm(message: string)
    requires !MentionsDrm(message)
    ensures !MentionsDrm(WrapPrefix + message)
  {
    PrefixReadsClean(WrapPrefix);
    assert Lower(WrapPrefix + message) == Lower(WrapPrefix) + Lower(message);
    var low := Lower(WrapPrefix);
    assert low[|low| - 1] == ' ';
    NoStraddle(low, Lower(message), "drm");
    NoStraddle(low, Lower(message), "protected");
    NoStraddle(low, Lower(message), "encrypted");
  }

  lemma PrefixReadsClean(prefix: string)
    requires prefix == "Error al descargar: "
    ensures !Contains(Lower(prefix), "drm") && !Contains(Lower(prefix), "protected") && !Contains(Lower(prefix), "encrypted")
    ensures |prefix| > 0 && Lower(prefix)[|prefix| - 1] == ' '
  {
    PrefixLacks(prefix, "drm", 'm');
    PrefixLacks(prefix, "protected", 'p');
    PrefixLacks(prefix, "encrypted", 'n');
  }

  /** The lower-cased prefix misses `word`, for it holds `c` of the word in neither case. */
  lemma PrefixLacks(prefix: string, word: string, c: char)
    requires prefix == "Error al descargar: "
    requires c in word && c in "mpn"
    ensures !Contains(Lower(prefix), word)
  {
    LowerAvoids(prefix, c);
    MissingCharRulesOut(Lower(prefix), word, c);
  }

  /** A word that cannot hold the last character of `a` lies wholly in `a` or wholly in `b`. */
  lemma {:induction false} NoStraddle(a: string, b: string, p: string)
    requires a != [] && a[|a| - 1] !in p
    requires !Contains(a, p) && !Contains(b, p)
    ensures !Contains(a + b, p)
    decreases |a|
  {
    if |p| <= |a| {
      assert (a + b)[..|p|] == a[..|p|];
    } else if |p| <= |a + b| {
      assert (a + b)[..|p|][|a| - 1] == a[|a| - 1];
      assert p[|a| - 1] != a[|a| - 1];
    }
    assert !StartsWith(a + b, p);
    if |a| == 1 {
      assert (a + b)[1..] == b;
    } else {
      assert (a + b)[1..] == a[1..] + b;
      assert a[1..][|a[1..]| - 1] == a[|a| - 1];
      NoStraddle(a[1..], b, p);
    }
  }
}
