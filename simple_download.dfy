/**
 * The rest of `download_video` in app.py around the retry driver: whether
 * the request is for audio, the format plan, the `visitor_data` scan of the
 * cookie file, the choice of the downloaded file and its final extension.
 */
module SimpleDownload {
  import opened Wrappers
  import opened Text
  import opened Files
  import opened Sanitize
  import opened RetryDriver

  /** Player clients in the order they are tried. */
  const Clients: seq<string> := ["mweb", "tv_embedded", "web", "android", "ios"]

  const AudioPrimary: string := "bestaudio/best"
  const VideoPrimary: string := "best[ext=mp4]/best[height<=720]/best[height<=480]/best"
  const VideoFallbacks: seq<string> :=
    ["best[ext=mp4]/best", "bestvideo+bestaudio/best", "worstvideo+worstaudio/worst", "best", "worst"]
  const AudioFallbacks: seq<string> := ["bestaudio", "worstaudio"]

  /** A request is for audio when its format id, lower-cased, mentions "audio" and not "video". */
  predicate IsAudioRequest(formatId: Option<string>)
  {
    formatId.Some? && Contains(Lower(formatId.value), "audio") && !Contains(Lower(formatId.value), "video")
  }

  /** The route passes `bestaudio/best` for "mp3" and nothing otherwise. */
  function RouteFormatId(formatType: string): Option<string>
  {
    if formatType == "mp3" then Some(AudioPrimary) else None
  }

  /** Through the HTTP route a request is for audio exactly when it asked for "mp3". */
  lemma RouteAudioExactlyForMp3(formatType: string)
    ensures IsAudioRequest(RouteFormatId(formatType)) <==> formatType == "mp3"
  {
    if formatType == "mp3" {
      AudioSelectorIsAudio(AudioPrimary);
    }
  }

  lemma AudioSelectorIsAudio(selector: string)
    requires selector == "bestaudio/best"
    ensures IsAudioRequest(Some(selector))
  {
    var low := Lower(selector);
    assert low[4..9] == "audio";
    ContainsAt(low, "audio", 4);
    if 'v' in low {
      LowerCharSource(selector, 'v');
    }
    MissingCharRulesOut(low, "video", 'v');
  }

  /** The selectors tried for every client: the primary one, then the fallbacks of the request's kind. */
  function FormatPlan(isAudio: bool): (plan: seq<string>)
    ensures isAudio ==> |plan| == 3 && plan[0] == AudioPrimary
    ensures !isAudio ==> |plan| == 6 && plan[0] == VideoPrimary
    ensures plan[1..] == if isAudio then AudioFallbacks else VideoFallbacks
  {
    if isAudio then [AudioPrimary] + AudioFallbacks else [VideoPrimary] + VideoFallbacks
  }

  /** A cookie-file line that yields `visitor_data`: names the cookie, is no comment, has a seventh field. */
  predicate YieldsVisitorData(line: string)
  {
    Contains(line, "VISITOR_INFO1_LIVE") && !StartsWith(Strip(line), "#") && |Split(Strip(line), '\t')| >= 7
  }

  /**
   * The cookie scan (app.py:84-90): field 6 of the first line that yields
   * one; matching lines with fewer fields are passed over.
   */
  method FindVisitorData(lines: seq<string>) returns (visitor: Option<string>)
    ensures visitor.None? <==> forall i :: 0 <= i < |lines| ==> !YieldsVisitorData(lines[i])
    ensures visitor.Some? ==> exists i :: (0 <= i < |lines| && YieldsVisitorData(lines[i])
      && visitor.value == Split(Strip(lines[i]), '\t')[6]
      && forall j :: 0 <= j < i ==> !YieldsVisitorData(lines[j]))
  {
    visitor := None;
    var i := 0;
    while i < |lines|
      invariant 0 <= i <= |lines|
      invariant forall j :: 0 <= j < i ==> !YieldsVisitorData(lines[j])
    {
      var line := lines[i];
      var stripped := Strip(line);
      if Contains(line, "VISITOR_INFO1_LIVE") && !StartsWith(stripped, "#") {
        var parts := Split(stripped, '\t');
        if |parts| >= 7 {
          visitor := Some(parts[6]);
          assert YieldsVisitorData(lines[i]) && visitor.value == Split(Strip(lines[i]), '\t')[6];
          return;
        }
      }
      i := i + 1;
    }
  }

  /**
   * The largest of the non-`.part` files (app.py:256-267):
   * the first of the largest, or nothing when every file is partial.
   */
  method PickDownloadedFile(listing: seq<FileEntry>) returns (pick: Option<nat>)
    ensures pick.None? <==> forall j :: 0 <= j < |listing| ==> IsPartial(listing[j].name)
    ensures pick.Some? ==> pick.value < |listing| && !IsPartial(listing[pick.value].name)
    ensures pick.Some? ==> forall j :: 0 <= j < |listing| && !IsPartial(listing[j].name) ==>
      listing[j].size <= listing[pick.value].size
    ensures pick.Some? ==> forall j :: 0 <= j < pick.value && !IsPartial(listing[j].name) ==>
      listing[j].size < listing[pick.value].size
  {
    pick := None;
    var i := 0;
    while i < |listing|
      invariant 0 <= i <= |listing|
      invariant pick.None? <==> forall j :: 0 <= j < i ==> IsPartial(listing[j].name)
      invariant pick.Some? ==> pick.value < i && !IsPartial(listing[pick.value].name)
      invariant pick.Some? ==> forall j :: 0 <= j < i && !IsPartial(listing[j].name) ==>
        listing[j].size <= listing[pick.value].size
      invariant pick.Some? ==> forall j :: 0 <= j < pick.value && !IsPartial(listing[j].name) ==>
        listing[j].size < listing[pick.value].size
    {
      if !IsPartial(listing[i].name) && (pick.None? || listing[i].size > listing[pick.value].size) {
        pick := Some(i);
      }
      i := i + 1;
    }
  }

  /** `.mp3` for audio re-encoded by ffmpeg, the lower-cased native extension for audio without it, `.mp4` for video. */
  function FinalExtension(isAudio: bool, ffmpeg: bool, fileName: string): (ext: string)
    ensures !isAudio ==> ext == ".mp4"
    ensures isAudio && ffmpeg ==> ext == ".mp3"
    ensures isAudio && !ffmpeg ==> ext == Lower(SplitExt(fileName))
  {
    if isAudio then (if ffmpeg then ".mp3" else Lower(SplitExt(fileName))) else ".mp4"
  }

  /** Without ffmpeg, a file named `base.ext` keeps its extension, lower-cased. */
  lemma NativeExtensionKept(base: string, ext: string)
    requires exists j :: 0 <= j < |base| && base[j] != '.'
    requires |ext| >= 1 && ext[0] == '.' && '.' !in ext[1..]
    ensures FinalExtension(true, false, base + ext) == Lower(ext)
  {
    SplitExtOfJoin(base, ext);
  }

  datatype Download = Download(file: string, filename: string, title: string)

  datatype DownloadError = DriveFailed(reason: DriveError) | NoFileFound | FileTooSmall(size: nat)

  /**
   * `download_video` of app.py with the extraction library as `extract`,
   * ffmpeg's presence as `ffmpeg` and the scratch directory after the
   * successful attempt as `listing`.
   */
  method DownloadVideo(formatId: Option<string>, ffmpeg: bool, extract: (string, string) -> Outcome, listing: seq<FileEntry>)
    returns (r: Result<Download, DownloadError>)
    ensures var d := Drive(Clients, FormatPlan(IsAudioRequest(formatId)), extract);
      && (d.title.None? <==> r.Err? && r.error.DriveFailed?)
      && (d.title.None? ==> r.error.reason == FinalError(d.blocks, d.lastError) && r.error.reason != NoStrategyWorked)
      && (r.Ok? ==> d.title == Some(r.value.title))
    ensures r.Ok? ==> exists i :: (0 <= i < |listing| && listing[i].name == r.value.file
      && !IsPartial(listing[i].name) && listing[i].size >= MinFileSize
      && (forall j :: 0 <= j < |listing| && !IsPartial(listing[j].name) ==> listing[j].size <= listing[i].size)
      && (forall j :: 0 <= j < i && !IsPartial(listing[j].name) ==> listing[j].size < listing[i].size)
      && r.value.filename == r.value.title + FinalExtension(IsAudioRequest(formatId), ffmpeg, listing[i].name))
    ensures Drive(Clients, FormatPlan(IsAudioRequest(formatId)), extract).title.Some? ==>
      (r == Err(NoFileFound) <==> forall j :: 0 <= j < |listing| ==> IsPartial(listing[j].name))
    ensures r.Err? && r.error.FileTooSmall? ==>
      && r.error.size < MinFileSize
      && (exists i :: 0 <= i < |listing| && !IsPartial(listing[i].name) && listing[i].size == r.error.size)
      && (forall j :: 0 <= j < |listing| && !IsPartial(listing[j].name) ==> listing[j].size <= r.error.size)
    ensures Drive(Clients, FormatPlan(IsAudioRequest(formatId)), extract).title.Some? ==>
      (exists j :: 0 <= j < |listing| && !IsPartial(listing[j].name) && listing[j].size >= MinFileSize) ==> r.Ok?
  {
    var isAudio := IsAudioRequest(formatId);
    var plan := FormatPlan(isAudio);
    var title, lastError, blocks, attempts := TryClientsAndFormats(Clients, plan, extract);
    if title.None? {
      GenericErrorNeedsEmptyGrid(Clients, plan, extract);
      return Err(DriveFailed(FinalError(blocks, lastError)));
    }
    var pick := PickDownloadedFile(listing);
    if pick.None? {
      return Err(NoFileFound);
    }
    var file := listing[pick.value];
    if file.size < MinFileSize {
      return Err(FileTooSmall(file.size));
    }
    var ext := FinalExtension(isAudio, ffmpeg, file.name);
    r := Ok(Download(file.name, title.value + ext, title.value));
  }

  /**
   * The attachment name of the `/api/download` route (app.py:323) sanitizes
   * `title + ext` again: a name that fits is kept as it is ...
   */
  lemma DownloadNameKeepsShortName(title: string, ext: string)
    requires IsClean(title) && IsClean(ext) && |title| + |ext| <= MaxNameLength
    ensures SanitizeFilename(title + ext) == title + ext
  {
    SanitizeUnchanged(title + ext);
  }

  /** ... while a title already at the 200-character limit loses its extension. */
  lemma DownloadNameDropsExtension(title: string, ext: string)
    requires IsClean(title) && IsClean(ext) && |title| == MaxNameLength
    ensures SanitizeFilename(title + ext) == title
  {
    RemoveForbiddenClean(title + ext);
    assert (title + ext)[..MaxNameLength] == title;
  }
}
