# Video downloader back ends — a verified model

The repository is a small web back end that takes a video URL and returns an
audio or video file. The work of fetching and decoding is done by an
extraction library. The repository's own logic is the policy around that
library, and this project models it in Dafny:

- **Simple back end (app.py).** `download_video` decides whether the request
  is for audio and builds a format plan. It scans the cookie file for
  `visitor_data`. It then tries every player client over every format
  selector. Each extraction error is classified by substring tests, and the
  class decides whether to try the next selector or the next client and
  whether the error counts as a block. When every try fails, the function
  picks one final error. Otherwise it takes the largest finished file and
  gives it an extension.
- **Production back end (app_production.py).**
  - `get_video_info` raises a DRM flag from the reported formats.
  - `download_video` tries a fixed plan of format selectors for "video" or
    "mp3". A try fails when formats were reported and none has a video
    codec (for "mp3": none has a video or an audio codec). Otherwise
    it polls the scratch directory up to thirty times for a media file whose
    size has settled, and falls back to the largest file. It checks the size
    (empty, under 10 KiB, over the configured maximum), picks the extension,
    and copies the file into the download directory under the first free
    name among `title.ext`, `title_1.ext`, `title_2.ext` and so on.
  - A failure that mentions DRM ends the download. Every other failure moves
    on to the next selector.
  - The `/api/download` route accepts only the formats "video" and "mp3".
- **Both back ends** share `sanitize_filename`.
- **Web UI.** `formatDuration` renders a duration in seconds.

The extraction library, the presence of ffmpeg, and everything a try observes
on disk are parameters. `extract` maps a client and a selector to an
outcome. An `AttemptWorld` holds one try's extraction result, its polls, its
fallback listing and the size of its copy. Each back end's loops are
`method`s proved against specification functions (`Drive`,
`FirstAccepted`, `FallbackMax`, `AttemptVerdict`, `FirstDecisive`). Lemmas
then state what the back end promises about those functions. The download
directory of the production back end is a class, `DownloadStore`, whose
`files` set each try updates.

Modules, one per file:

| file | module | models |
|---|---|---|
| wrappers.dfy | Wrappers | `Option`, `Result` |
| text.dfy | Text | lower-casing, prefix/suffix/substring tests, `strip`, `split` |
| decimal.dfy | Decimal | decimal numerals and two-digit padding |
| sanitize.dfy | Sanitize | `sanitize_filename` |
| duration.dfy | Duration | `formatDuration` |
| files.dfy | Files | directory entries, `.part` files, `os.path.splitext` |
| retry_driver.dfy | RetryDriver | app.py error classifier, client × format loop, final error |
| simple_download.dfy | SimpleDownload | the rest of app.py `download_video` |
| media_formats.dfy | MediaFormats | production format plan, DRM scan, usable-format check |
| artifact_locator.dfy | ArtifactLocator | production polling, candidate and fallback |
| store_naming.dfy | StoreNaming | production collision suffixes |
| production_download.dfy | ProductionDownload | production tries, size checks, extension, route check |

## Model

| member | source | states |
|---|---|---|
| Sanitize.SanitizeFilename | app.py:20-25 | The result holds none of the nine forbidden characters and has at most 200 characters. It is a prefix of the title with those characters deleted. It is exactly 200 characters long when more than 200 survive, and otherwise it is everything that survives. |
| Sanitize.RemoveForbidden | app_production.py:35 | Deleting the forbidden characters never lengthens a text, and the result is clean. |
| Sanitize.RemoveForbiddenConcat | app.py:22 | Deleting characters distributes over concatenation. |
| Sanitize.RemoveForbiddenClean | app.py:22 | A clean text is left unchanged. |
| Sanitize.SanitizeUnchanged | app_production.py:33-38 | A clean title of at most 200 characters is returned unchanged. |
| Sanitize.SanitizeIdempotent | app_production.py:33-38 | Sanitizing twice gives the same result as sanitizing once. |
| Sanitize.SanitizeExample | app.py:20-25 | "My:Video/Title?" becomes "MyVideoTitle". |
| Text.Lower | app.py:47 | `str.lower` on ASCII letters; its contract is `LowerIdempotent` and `ClassifyIgnoresCase`. |
| Text.LowerIdempotent | app.py:211 | Lower-casing a lower-cased text changes nothing. |
| Text.Strip | app.py:85-86 | The result is no longer than the text and neither starts nor ends with whitespace. |
| Text.StripKeepsMiddle | app.py:85-86 | The result is the slice of the text between its leading and trailing whitespace, and everything cut off on either side is whitespace. |
| Text.Split | app.py:86 | `str.split` with a separator yields at least one piece; `SplitJoin` pins the pieces. |
| Text.SplitJoin | app.py:86 | No piece holds the separator, and joining the pieces with the separator gives the text back. |
| Duration.Decomposition | src/ui/VideoCard.js:18-20 | Hours, minutes and seconds recompose the duration; minutes and seconds are below 60. |
| Duration.FormatDuration | src/ui/VideoCard.js:15-26 | Renders a duration; its contract is given by `UnknownExactly`, `LongForm`, `ShortForm` and `RoundTrip`. |
| Duration.LongForm | src/ui/VideoCard.js:22-24 | From one hour on, the text is the unpadded hours, then minutes and seconds as exactly two digits each, and those digits read back as the minutes and seconds. |
| Duration.ShortForm | src/ui/VideoCard.js:25 | Below one hour, the text is the unpadded minutes, then the seconds as exactly two digits. |
| Duration.ReadTwoFields | src/ui/VideoCard.js:25 | An M:SS text reads back as minutes × 60 + seconds. |
| Duration.ReadThreeFields | src/ui/VideoCard.js:23 | An H:MM:SS text reads back as hours × 3600 + minutes × 60 + seconds. |
| Duration.RoundTrip | src/ui/VideoCard.js:15-26 | Every positive duration is read back exactly from its rendering. |
| Duration.Injective | src/ui/VideoCard.js:15-26 | Two different positive durations never render the same. |
| Duration.UnknownExactly | src/ui/VideoCard.js:16 | The text is "Desconocida" exactly when the duration is absent or zero. |
| Duration.UnknownReadsAsNothing | src/ui/VideoCard.js:16 | "Desconocida" cannot be mistaken for a rendered duration. |
| Decimal.NatToString | src/ui/VideoCard.js:23 | A numeral is non-empty and all digits. It has one digit exactly below 10 and at most two exactly below 100. |
| Decimal.ParseNatToString | src/ui/VideoCard.js:23 | A numeral reads back as its number. |
| Decimal.NatToStringInjective | src/ui/VideoCard.js:25 | Different numbers have different numerals. |
| Decimal.PadTwo | src/ui/VideoCard.js:23 | The padded numeral is all digits and reads back as the number. It has exactly two characters below 100 and equals the plain numeral from 10 on. |
| RetryDriver.ClassifyTable | app.py:214-240 | Gives the classification as an if-and-only-if table over the lower-cased message. JSON-block phrases come first, then format-unavailable phrases, then signature/challenge/sabr, then "bot"; anything else is another error. |
| RetryDriver.Classify | app.py:211-240 | The first-match substring classifier; `ClassifyTable` gives its table and `ClassifyIgnoresCase` its case blindness. |
| RetryDriver.ClassifyIgnoresCase | app.py:211 | A message and its lower-cased form are classified alike. |
| RetryDriver.BotPhraseHasBot | app.py:233 | The long bot-check phrase adds nothing beyond "bot". |
| RetryDriver.TryClientsAndFormats | app.py:184-244 | The nested loops end in exactly the state the specification walk `Drive` computes: attempts, title, last error and block count. |
| RetryDriver.Drive | app.py:189-244 | The specification of the nested loops; `DriveIsWalk` ties it to the row-by-row walk. |
| RetryDriver.RunClientIsRow | app.py:200-240 | One client's inner loop appends the row of selectors it tried. It gains a title exactly when the row succeeds, and it adds one block exactly when the row ends in a JSON block or bot check. A row never both succeeds and blocks. |
| RetryDriver.RunClientsIsWalk | app.py:189-244 | The outer loop's attempts are the concatenated rows, up to the first succeeding row. |
| RetryDriver.DriveIsWalk | app.py:189-244 | The driver's attempts, success and block count are those of the reference walk. |
| RetryDriver.RowOutcomes | app.py:200-240 | Every attempt of a row except possibly the last failed. |
| RetryDriver.WalkOutcomes | app.py:189-244 | Every attempt before the last failed. |
| RetryDriver.StopsAtFirstSuccess | app.py:204-208 | The driver stops at the first successful extraction, and the title is that extraction's title, sanitized. |
| RetryDriver.DriveTitle | app.py:206 | The title comes from the last attempt. |
| RetryDriver.ClientTitle | app.py:206 | The title comes from the last attempt of the row. |
| RetryDriver.RunClientKeepsError | app.py:210 | Once set, the last error stays set through a client. |
| RetryDriver.RunClientsKeepsError | app.py:210 | Once set, the last error stays set through the remaining clients. |
| RetryDriver.AttemptBound | app.py:189-200 | At most clients × selectors extractions are attempted. |
| RetryDriver.WalkBound | app.py:189-200 | The walk has at most clients × selectors attempts. |
| RetryDriver.EveryClientTriedOnFailure | app.py:189-193 | When no extraction succeeds, every client was tried with the first selector. |
| RetryDriver.WalkHasRowStart | app.py:189-202 | Without a success, each client's first attempt is in the walk. |
| RetryDriver.BlocksBound | app.py:214-236 | The block count never exceeds the number of clients. |
| RetryDriver.BlockedRowsBound | app.py:214-236 | At most one block is counted per client. |
| RetryDriver.TwoBlockedClientsMeanIpBlock | app.py:246-249 | If two clients are blocked on their first selector and nothing succeeds, the final error is the IP-block error. |
| RetryDriver.FinalError | app.py:246-253 | The final error: IP block from two blocks on, else the last error, else the generic error; its contract is `TwoBlockedClientsMeanIpBlock` and `GenericErrorNeedsEmptyGrid`. |
| RetryDriver.TwoBlockedRows | app.py:215-236 | Two such clients give at least two blocks. |
| RetryDriver.OneBlockedRow | app.py:215-236 | One such client gives at least one block. |
| RetryDriver.GenericErrorNeedsEmptyGrid | app.py:250-253 | With a non-empty plan, the generic "no format or client" error is never the final error. |
| RetryDriver.UnavailableClientFallsThrough | app.py:225-227 | A client for which every selector is unavailable is walked through in full, and the next client's success is taken. |
| RetryDriver.UnavailableRow | app.py:225-227 | A row of unavailable selectors is tried in full and fails. |
| Files.LastDot | app.py:274 | Finds the last dot of a name, or reports that there is none. |
| Files.SplitExt | app_production.py:217 | The extension is empty, or it starts with the one dot it contains, ends the name and is shorter than the name. |
| Files.SplitExtOfJoin | app.py:274 | The extension of `base + ext` is `ext` when `base` is not all dots. |
| Files.NoDotNoExt | app.py:274 | A name without a dot has no extension. |
| SimpleDownload.RouteAudioExactlyForMp3 | app.py:315 | The route's format id makes the request audio exactly for "mp3". |
| SimpleDownload.IsAudioRequest | app.py:47 | The audio test on the format id; `RouteAudioExactlyForMp3` and `AudioSelectorIsAudio` give its contract. |
| SimpleDownload.RouteFormatId | app.py:315 | The format id the route passes; `RouteAudioExactlyForMp3` gives its contract. |
| SimpleDownload.AudioSelectorIsAudio | app.py:47 | "bestaudio/best" is classified as audio. |
| SimpleDownload.FormatPlan | app.py:171-182 | The plan is the primary selector (chosen at app.py:47-53) followed by the five video fallbacks (six entries), or by "bestaudio" and "worstaudio" for audio (three entries). |
| SimpleDownload.FindVisitorData | app.py:84-90 | Returns nothing exactly when no line names the cookie outside a comment with seven tab-separated fields. Otherwise it returns field 6 of the first such line. |
| SimpleDownload.PickDownloadedFile | app.py:256-267 | Returns nothing exactly when every file is partial. Otherwise it returns the first non-partial file of the largest size. |
| SimpleDownload.FinalExtension | app.py:273-276 | Video gives ".mp4". Audio gives ".mp3" with ffmpeg, and the lower-cased native extension without it. |
| SimpleDownload.NativeExtensionKept | app.py:274 | Without ffmpeg, an audio file `base.ext` keeps `ext`, lower-cased. |
| SimpleDownload.DownloadVideo | app.py:28-285 | Fails in the driver exactly when no extraction succeeded, with the final error of `Drive` (never the generic one). After a successful drive it fails as no-file exactly when every file is partial. It fails as too-small exactly with the size of the largest non-partial file, when that is under 10240 bytes. Whenever some non-partial file has at least 10240 bytes it succeeds, with the first file of the largest size in listing order, named title + extension. |
| SimpleDownload.DownloadNameKeepsShortName | app.py:323 | The attachment name keeps a clean `title + ext` of at most 200 characters unchanged. |
| SimpleDownload.DownloadNameDropsExtension | app.py:323 | For a title already at 200 characters, the attachment name is the title alone: the extension is cut off. |
| MediaFormats.StrategyPlan | app_production.py:78-93 | "mp3" gives the four audio selectors; any other format gives the six video selectors. |
| MediaFormats.ScanForDrm | app_production.py:52-57 | The flag is raised exactly when some format has `has_drm` or `drm` set, or its text mentions "drm" in any case. |
| MediaFormats.HasUsableFormat | app_production.py:137-144 | True exactly when some format has a video codec, or, for "mp3", an audio codec. |
| MediaFormats.ImageOnlyCases | app_production.py:146-147 | An empty format list is never rejected. An audio-only list is rejected for video and accepted for "mp3". |
| MediaFormats.InfoFailure | app_production.py:66-70 | An info failure is reported as DRM exactly when its message mentions drm, protected or encrypted. Otherwise the original message is kept. |
| MediaFormats.WrappingKeepsNonDrm | app_production.py:265-275 | Prefixing "Error al descargar: " to a message that does not read as DRM does not make it read as DRM. So the outer handler passes the wrapped error through. |
| MediaFormats.NoStraddle | app_production.py:269-275 | A word that cannot hold the last character of the prefix cannot straddle the prefix and the message. |
| ArtifactLocator.PickCandidate | app_production.py:164-178 | Returns nothing exactly when no media file (not .part, not .mhtml, not an image in any case) exceeds 10240 bytes. Otherwise it returns the first media file of the largest size. |
| ArtifactLocator.FirstAccepted | app_production.py:153-187 | Finds the first poll from k on, up to 30, whose candidate's two readings agree and exceed 10240; no earlier poll accepts. None means no poll in the range accepts. |
| ArtifactLocator.WaitForSettledFile | app_production.py:150-187 | Settles on the first accepting poll, returning its candidate and size. It ends with the no-file error exactly when no poll accepts and the 30th listing is empty. It gives up exactly when no poll accepts and the 30th listing is not empty. |
| ArtifactLocator.FallbackMax | app_production.py:189-202 | Bounds every non-partial size from above, and is 0 or the size of some non-partial file. |
| ArtifactLocator.PickFallback | app_production.py:189-202 | Returns nothing exactly when every non-partial file is empty. Otherwise it returns the first non-partial file of the largest size, images and .mhtml included. |
| ArtifactLocator.FallbackMaxZero | app_production.py:192-200 | With only empty non-partial files, the fallback size is 0. |
| ArtifactLocator.CandidateSkipsNoise | app_production.py:164-178 | Among a 9 KiB `.part` file, a 50 KiB thumbnail and a 500 KiB video, the video is the candidate. |
| ArtifactLocator.FallbackAdmitsImages | app_production.py:189-202 | A thumbnail beside an unfinished download is never a poll candidate, but it is the fallback pick. |
| ArtifactLocator.LocateSize | app_production.py:150-205 | A located file is never empty, and a settled file is above 10240 bytes. |
| ArtifactLocator.LocatedNameUnique | app_production.py:150-202 | The settled candidate, or the fallback pick, is a single file: the located name is unique. |
| ArtifactLocator.LocateFile | app_production.py:150-205 | Succeeds exactly when `LocateSize` does, with that size, naming the settled candidate or the fallback pick. Its errors are those of `LocateSize`. |
| StoreNaming.StoredNamesDiffer | app_production.py:227-234 | Different counters give different names. |
| StoreNaming.FirstNamesCount | app_production.py:230-234 | The first n names tried are n distinct names. |
| StoreNaming.TakenNamesBound | app_production.py:230-234 | If the first n names are all taken, the directory holds at least n files. |
| StoreNaming.ChooseStoredName | app_production.py:227-234 | The returned name is free and is the n-th name tried. Every earlier name is taken, so it is the first free one, and n is at most the number of files in the directory. |
| ProductionDownload.SavedTitle | app_production.py:135 | The saved title is the reported title, sanitized, or "video" when none is reported. It is clean and at most 200 characters long. |
| ProductionDownload.SizeCheck | app_production.py:207-213 | The size passes exactly when it is between 10240 and the maximum. Zero is "empty". A size below 10240 is "too small" even above the maximum. "Too large" applies only from 10240 on. |
| ProductionDownload.ProductionExtension | app_production.py:215-225 | Video gives ".mp4", and "mp3" with ffmpeg gives ".mp3". Without ffmpeg the result is always a listed audio extension, and it is the file's own lower-cased extension exactly when that one is listed. |
| ProductionDownload.NativeAudioExtension | app_production.py:216-221 | Without ffmpeg, `base.ext` keeps a listed extension, lower-cased, and otherwise gets ".m4a". |
| ProductionDownload.AttemptVerdict | app_production.py:129-259 | An extraction failure is the try's error. The try is rejected as image-only exactly when formats were reported and none has a video codec (for mp3: none has a video or an audio codec), so an audio-only list is rejected for a video request. It saves a file exactly when the extraction succeeded, the list is usable, a file is located, its size is between 10240 and the maximum and the copy is not empty. A copy failure means an empty copy. |
| ProductionDownload.DrmOnlyFromExtraction | app_production.py:248-252 | A try's error reads as DRM exactly when the extraction itself failed with a DRM message. |
| ProductionDownload.SettledFileIsLargeEnough | app_production.py:180-213 | A file that settled during the polls never fails as empty or too small. |
| ProductionDownload.Verdicts | app_production.py:128-131 | There is one verdict per selector of the plan. |
| ProductionDownload.VerdictAt | app_production.py:128-131 | The i-th verdict is the verdict of the i-th selector of the plan. |
| ProductionDownload.FirstDecisive | app_production.py:248-259 | A try at or after the given one that saves a file or fails with a DRM message, or the plan's end (that it is the first such try is `BeforeDecisiveTry`). |
| ProductionDownload.NoDecisiveTry | app_production.py:261-265 | When no try is decisive, every try failed without a DRM message. |
| ProductionDownload.BeforeDecisiveTry | app_production.py:248-259 | Every try before the decisive one failed without a DRM message. |
| ProductionDownload.OutcomeDecided | app_production.py:248-267 | In any outcome, success holds exactly when the first decisive try saved a file, a DRM abort exactly when it failed with a DRM message, and exhaustion exactly when no try is decisive; then no failure reads as DRM. The selectors tried are a prefix of the plan. |
| ProductionDownload.OutcomeGrowsDirectory | app_production.py:227-259 | A download never removes a file from the directory, and a saved file is new to it. |
| ProductionDownload.OutcomeWithoutFailedCopies | app_production.py:227-259 | When no copy comes out empty, the directory gains the saved file and nothing else. |
| ProductionDownload.FailedTry | app_production.py:248-259 | A try that fails, but not in its copy, adds its selector to those tried and leaves the directory unchanged. |
| ProductionDownload.FailedCopy | app_production.py:227-239 | A try whose copy comes out empty adds its selector to those tried and its file to the directory. That file's name is the first free `title[_n]` in the directory as the try found it. |
| ProductionDownload.LeftoversDistinct | app_production.py:227-239 | Files left by different empty copies have different names, none of them in the directory before the download. |
| ProductionDownload.FirstFreeCopyUnique | app_production.py:227-234 | The name a try copies to is determined by its extraction, its located file and the directory it finds. |
| ProductionDownload.SavedTry | app_production.py:241-247 | The first decisive try, when it saves a file, gives the successful outcome with that file and title. |
| ProductionDownload.DrmTry | app_production.py:248-252 | The first decisive try, when it fails with a DRM message, gives the DRM outcome. |
| ProductionDownload.ExhaustedTries | app_production.py:261-265 | When every try failed without DRM, the outcome reports the last failure. |
| ProductionDownload.DownloadStore.Attempt | app_production.py:129-259 | A try fails exactly when its verdict is an error, and with that error. On success, or on an empty copy, the directory gains exactly one new file, named with the first free counter for the sanitized title and the extension of the located file. On every other failure the directory is unchanged. |
| ProductionDownload.DownloadStore.TryNext | app_production.py:128-259 | One pass of the loop: the try of the i-th selector fails exactly when its verdict is an error. A saving or DRM try gives the final outcome; any other failure extends the state of the tries so far. |
| ProductionDownload.DownloadStore.DownloadVideo | app_production.py:72-275 | Ends in `DownloadOutcome`. With k the first decisive try: on success, try k saved the file, the selectors tried are the first k + 1, the title is the sanitized title of try k's extraction, and the name is the first free `title[_n]` with the extension of the file that try located. A DRM abort is decided by try k, and no selector after it is tried. Otherwise every selector was tried and the last failure is reported. The directory gains the files left by empty copies before k, and the saved file. Each of those files is named with the first free counter in the directory as its own try found it, that is, the directory before the call plus the files left by earlier tries. |
| ProductionDownload.DownloadStore.HandleDownload | app_production.py:319-327 | A missing format means "video". Any format other than "video" or "mp3" is refused without a try and leaves the directory unchanged. For a valid format the route returns the download's saved file, or fails with the download's own error, and the download, the selectors tried and the directory satisfy `DownloadOutcome` as for `DownloadVideo`. |
| ProductionDownload.DownloadStore.constructor | app_production.py:27-31 | The store starts with the given files and size limit. |

Three behaviours of the code are worth stating outright:

- **The block counter does not short-circuit (app.py).** The count of
  blocked clients does not stop the client loop early: app.py:220-223 only
  sleeps. The count matters only when choosing the final error
  (app.py:246-253).
- **The fallback accepts any non-partial file (app_production.py).** The
  fallback scan admits every non-partial file, thumbnails and `.mhtml`
  storyboards included (app_production.py:190-191). `FallbackAdmitsImages`
  shows the consequence.
- **The DRM flag does not block a download.** The `has_drm` flag computed by
  `get_video_info` (app_production.py:52-64) is read neither by the download
  route (app_production.py:306-339) nor by `download_video`
  (app_production.py:72-275). A download ends as DRM only when an error
  message mentions DRM.

## Left out

- The extraction library, the ffmpeg probe, the network and the clock are
  parameters or omitted. The sleeps (app.py:222,244; app_production.py:154,182)
  only delay the next step.
- Reading the cookie file, writing the `YOUTUBE_COOKIES` variable to a
  temporary file, and the options passed to the extraction library are
  omitted. The cookie file is given as its lines.
- Text.Lower: lower-casing covers ASCII letters only. Python's `str.lower`
  also folds other alphabets. For error messages this matters only when
  non-ASCII capitals would lower-case to one of the tested ASCII phrases.
- SimpleDownload.FinalExtension: without ffmpeg the native extension is
  returned in the result's `filename` (app.py:274). An extension with
  non-ASCII capitals, such as `.ÖGG`, becomes `.ögg` in Python but stays
  `.Ögg` in the model.
- Creating, emptying and removing the scratch directory is omitted, as are
  the JSON/HTTP glue of the routes, `send_file`, `/api/list`, `/health`,
  `get_local_ip` and the JavaScript UI other than `formatDuration`.
  `formatSize` is left out as floating point.
- A file that vanishes between listing and reading its size is not
  modelled, and listings carry sizes. The `os.path.getsize` calls
  (app_production.py:181,183,207,238) and `shutil.copy2` (line 236) are
  unguarded, and the `OSError`s they raise carry a path. Both the scratch
  file name (line 96) and `final_filename` (line 227) hold the title, so a
  title containing "drm", "protected" or "encrypted" would turn such an
  error into a DRM abort at lines 251-252. The model does not capture this.
- ProductionDownload.DownloadStore.Attempt: the size checked after locating
  is taken to be the settled reading, or the size in the fallback listing.
  The third read of the same file is not modelled separately, so a writer
  still changing the file after it settled is not captured.
- ProductionDownload.DownloadStore.Attempt: the copy is modelled by the size
  of its result. A copy that raises an exception itself is not modelled. Its
  message carries the destination path, so whether it ends the download as
  DRM depends on the title, as described above.
- ProductionDownload.ReadsAsDrm: only extraction failures are tested for the
  DRM words. The modelled errors raised inside a try (image-only, no file,
  empty, too small, too large, empty copy) carry fixed Spanish texts, with a
  decimal size or a path at most, and the model treats them as never reading
  as DRM. This is weaker than the source for the path-carrying errors above.
- The post-loop DRM re-test (app_production.py:263-264) is not modelled as a
  branch. `DownloadVideo`'s loop invariant proves the last error never
  reads as DRM there. The "No se pudo descargar el archivo." branch
  (app_production.py:267) is unreachable because the plan is never empty.
- The outer handler (app_production.py:269-275) is modelled only through
  `WrappingKeepsNonDrm`. Exceptions raised before the loop, such as
  `mkdtemp` failing, are not modelled.
- Duration.FormatDuration: durations are whole non-negative seconds.
  The back end passes the extraction library's `duration` through unchanged
  (app_production.py:61), and it may be fractional; 5.5 seconds renders as
  "0:5.5", which is not M:SS. JavaScript numbers also lose integer precision
  above 2^53 and print in exponent form from 1e21. `RoundTrip` and
  `Injective` hold for whole seconds only.
- StoreNaming.ChooseStoredName: the chosen name is free only for one
  request at a time. Two concurrent requests can both find `title.ext` free
  between the `exists()` test (app_production.py:231) and the copy (line
  236); concurrency is not modelled.
- ProductionDownload.DownloadStore.HandleDownload: a format given as JSON
  `null` is not modelled. The route would refuse it; the model's `None`
  stands for a missing format, which means "video".
- `MAX_FILE_SIZE` is modelled as any integer. Parsing it from the
  environment is not modelled, and `DefaultMaxFileSize` is its default.
