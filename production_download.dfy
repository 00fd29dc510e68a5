/**
 * The production download path (app_production.py:72-275 and the format
 * check of the `/api/download` route): each selector of the plan is tried
 * in turn; a try succeeds when a media file is located, passes the size
 * checks and is copied into the download directory under a free name.
 *
 * What each try observes from outside (the extraction library's answer,
 * the polls of the scratch directory, the fallback listing and the size of
 * the copy) is an `AttemptWorld` given as a parameter.
 */
module ProductionDownload {
  import opened Wrappers
  import opened Text
  import opened Sanitize
  import opened Files
  import opened MediaFormats
  import opened ArtifactLocator
  import opened StoreNaming

  /** The download size limit when none is configured: 2 GiB. */
  const DefaultMaxFileSize: int := 2 * 1024 * 1024 * 1024

  /** The extraction with download: the reported title (if any) and format list, or the text of what it raised. */
  datatype Extraction =
    | Extracted(title: Option<string>, formats: seq<FormatInfo>)
    | ExtractionFailed(message: string)

  /** What one try observes: the extraction, the polls, the fallback listing, and the size of the copy. */
  datatype AttemptWorld = AttemptWorld(extraction: Extraction, poll: nat -> Poll, fallback: seq<FileEntry>, copiedSize: nat)

  /** Why one try failed; only an extraction failure carries a message of outside origin. */
  datatype AttemptError =
    | ExtractFailed(message: string)
    | ImagesOnly
    | NotLocated(cause: LocateError)
    | EmptyFile
    | TooSmall(size: nat)
    | TooLarge(size: nat)
    | CopyFailed

  /** A try's error aborts the whole download when its text mentions DRM. */
  predicate ReadsAsDrm(e: AttemptError)
  {
    e.ExtractFailed? && MentionsDrm(e.message)
  }

  /** The title the download is saved under: the reported one, "video" when missing, sanitized. */
  function SavedTitle(title: Option<string>): (t: string)
    ensures IsClean(t) && |t| <= MaxNameLength
    ensures title.None? ==> t == "video"
    ensures title.Some? ==> t == SanitizeFilename(title.value)
  {
    var raw := if title.Some? then title.value else "video";
    assert title.None? ==> SanitizeFilename(raw) == raw by {
      if title.None? {
        SanitizeUnchanged(raw);
      }
    }
    SanitizeFilename(raw)
  }

  /** The size checks, in their order (app_production.py:207-213). */
  function SizeCheck(size: nat, maxFileSize: int): (r: Option<AttemptError>)
    ensures r.None? <==> MinFileSize <= size && size <= maxFileSize
    ensures r == Some(EmptyFile) <==> size == 0
    ensures r == Some(TooSmall(size)) <==> 0 < size < MinFileSize
    ensures r == Some(TooLarge(size)) <==> MinFileSize <= size && size > maxFileSize
    ensures r.Some? ==> r.value in {EmptyFile, TooSmall(size), TooLarge(size)}
  {
    if size == 0 then Some(EmptyFile)
    else if size < MinFileSize then Some(TooSmall(size))
    else if size > maxFileSize then Some(TooLarge(size))
    else None
  }

  /** The audio extensions a file downloaded for "mp3" keeps when ffmpeg is missing. */
  const NativeAudioExtensions: seq<string> := [".m4a", ".webm", ".opus", ".ogg", ".aac"]

  /** The extension of the saved file (app_production.py:215-225). */
  function ProductionExtension(formatType: string, ffmpeg: bool, fileName: string): (ext: string)
    ensures formatType != "mp3" ==> ext == ".mp4"
    ensures formatType == "mp3" && ffmpeg ==> ext == ".mp3"
    ensures formatType == "mp3" && !ffmpeg ==> ext in NativeAudioExtensions
    ensures formatType == "mp3" && !ffmpeg ==>
      (ext == Lower(SplitExt(fileName)) <==> Lower(SplitExt(fileName)) in NativeAudioExtensions)
  {
    if formatType == "mp3" then
      if !ffmpeg then
        var native := Lower(SplitExt(fileName));
        if native in NativeAudioExtensions then native else ".m4a"
      else ".mp3"
    else ".mp4"
  }

  /** Without ffmpeg, an "mp3" download named `base.ext` keeps a listed audio extension, and otherwise becomes `.m4a`. */
  lemma NativeAudioExtension(base: string, ext: string)
    requires exists j :: 0 <= j < |base| && base[j] != '.'
    requires |ext| >= 1 && ext[0] == '.' && '.' !in ext[1..]
    ensures Lower(ext) in NativeAudioExtensions ==> ProductionExtension("mp3", false, base + ext) == Lower(ext)
    ensures Lower(ext) !in NativeAudioExtensions ==> ProductionExtension("mp3", false, base + ext) == ".m4a"
  {
    SplitExtOfJoin(base, ext);
  }

  /**
   * The verdict of one try, independent of the directory's contents: None
   * when the try saves a file, else the error it raises.
   */
  function AttemptVerdict(world: AttemptWorld, formatType: string, ffmpeg: bool, maxFileSize: int): (v: Option<AttemptError>)
    ensures world.extraction.ExtractionFailed? ==> v == Some(ExtractFailed(world.extraction.message))
    ensures v == Some(ImagesOnly) <==> world.extraction.Extracted? && IsImageOnly(world.extraction.formats, formatType)
    ensures v.None? <==>
      && world.extraction.Extracted?
      && !IsImageOnly(world.extraction.formats, formatType)
      && LocateSize(world.poll, world.fallback).Ok?
      && MinFileSize <= LocateSize(world.poll, world.fallback).value <= maxFileSize
      && world.copiedSize > 0
    ensures v == Some(CopyFailed) ==> world.copiedSize == 0
  {
    match world.extraction
    case ExtractionFailed(m) => Some(ExtractFailed(m))
    case Extracted(_, formats) =>
      if IsImageOnly(formats, formatType) then Some(ImagesOnly)
      else
        match LocateSize(world.poll, world.fallback)
        case Err(cause) => Some(NotLocated(cause))
        case Ok(size) =>
          var check := SizeCheck(size, maxFileSize);
          if check.Some? then check
          else if world.copiedSize == 0 then Some(CopyFailed)
          else None
  }

  /** A try's error reads as DRM exactly when the extraction itself failed with a DRM message. */
  lemma DrmOnlyFromExtraction(world: AttemptWorld, formatType: string, ffmpeg: bool, maxFileSize: int)
    ensures (var v := AttemptVerdict(world, formatType, ffmpeg, maxFileSize);
             v.Some? && ReadsAsDrm(v.value))
        <==> world.extraction.ExtractionFailed? && MentionsDrm(world.extraction.message)
  {
  }

  /** A file that settled during the polls is above the minimum, so it never fails as empty or too small. */
  lemma SettledFileIsLargeEnough(world: AttemptWorld, formatType: string, ffmpeg: bool, maxFileSize: int)
    requires FirstAccepted(world.poll, 1).Some?
    ensures AttemptVerdict(world, formatType, ffmpeg, maxFileSize) != Some(EmptyFile)
    ensures forall n :: AttemptVerdict(world, formatType, ffmpeg, maxFileSize) != Some(TooSmall(n))
  {
  }

  /** The verdict of every selector of the plan, in order. */
  function Verdicts(formatType: string, ffmpeg: bool, world: string -> AttemptWorld, maxFileSize: int): (vs: seq<Option<AttemptError>>)
    ensures |vs| == |StrategyPlan(formatType)|
  {
    VerdictsOf(StrategyPlan(formatType), formatType, ffmpeg, world, maxFileSize)
  }

  /** The verdicts of the selectors of `plan`, in order. */
  function VerdictsOf(plan: seq<string>, formatType: string, ffmpeg: bool, world: string -> AttemptWorld, maxFileSize: int): (vs: seq<Option<AttemptError>>)
    ensures |vs| == |plan|
  {
    if plan == [] then []
    else [AttemptVerdict(world(plan[0]), formatType, ffmpeg, maxFileSize)] + VerdictsOf(plan[1..], formatType, ffmpeg, world, maxFileSize)
  }

  /** The `i`th verdict is the verdict of the `i`th selector. */
  lemma {:induction false} VerdictAt(plan: seq<string>, formatType: string, ffmpeg: bool, world: string -> AttemptWorld, maxFileSize: int, i: nat)
    requires i < |plan|
    ensures VerdictsOf(plan, formatType, ffmpeg, world, maxFileSize)[i] == AttemptVerdict(world(plan[i]), formatType, ffmpeg, maxFileSize)
  {
    if i > 0 {
      VerdictAt(plan[1..], formatType, ffmpeg, world, maxFileSize, i - 1);
    }
  }

  /** A try that ends the download: it saved a file, or it failed with a DRM message. */
  predicate Decisive(v: Option<AttemptError>)
  {
    v.None? || ReadsAsDrm(v.value)
  }

  /** The first decisive try from `i` on, or `|vs|` when none is. */
  function FirstDecisive(vs: seq<Option<AttemptError>>, i: nat): (k: nat)
    requires i <= |vs|
    ensures i <= k <= |vs|
    ensures k < |vs| ==> Decisive(vs[k])
    decreases |vs| - i
  {
    if i == |vs| then |vs|
    else if Decisive(vs[i]) then i
    else FirstDecisive(vs, i + 1)
  }

  /** When no try is decisive, every try failed and none of the failures reads as DRM. */
  lemma {:induction false} NoDecisiveTry(vs: seq<Option<AttemptError>>, i: nat)
    requires i <= |vs| && FirstDecisive(vs, i) == |vs|
    ensures forall j :: i <= j < |vs| ==> vs[j].Some? && !ReadsAsDrm(vs[j].value)
    decreases |vs| - i
  {
    if i < |vs| {
      NoDecisiveTry(vs, i + 1);
    }
  }

  /** The tries before the decisive one all failed without a DRM message. */
  lemma {:induction false} BeforeDecisiveTry(vs: seq<Option<AttemptError>>, i: nat)
    requires i <= |vs|
    ensures forall j :: i <= j < FirstDecisive(vs, i) ==> vs[j].Some? && !ReadsAsDrm(vs[j].value)
    decreases |vs| - i
  {
    if i < |vs| && !Decisive(vs[i]) {
      BeforeDecisiveTry(vs, i + 1);
    }
  }

  /** What a successful download reports: the saved file's name and the title. */
  datatype Saved = Saved(filename: string, title: string)

  datatype DownloadError =
    | DrmProtected            // some try failed with a DRM message
    | Exhausted(last: AttemptError)  // every try failed; the last failure is reported

  predicate CopyNeverFails(vs: seq<Option<AttemptError>>)
  {
    forall j :: 0 <= j < |vs| ==> vs[j] != Some(CopyFailed)
  }

  /**
   * The name a try in `w` copies its download to when the directory holds
   * `dir`: the saved title with the extension of a file it located and the
   * first counter whose name is free (app_production.py:227-234).
   */
  ghost predicate FirstFreeCopy(w: AttemptWorld, formatType: string, ffmpeg: bool, dir: set<string>, name: string)
  {
    match w.extraction
    case ExtractionFailed(_) => false
    case Extracted(title, _) =>
      exists located: string, n: nat ::
        && IsLocatedName(w.poll, w.fallback, located)
        && name == StoredName(SavedTitle(title), ProductionExtension(formatType, ffmpeg, located), n)
        && name !in dir
        && (forall m :: 0 <= m < n ==> StoredName(SavedTitle(title), ProductionExtension(formatType, ffmpeg, located), m) in dir)
  }

  /** A try's copy name is determined by its world and the directory it finds. */
  lemma FirstFreeCopyUnique(w: AttemptWorld, formatType: string, ffmpeg: bool, dir: set<string>, a: string, b: string)
    requires FirstFreeCopy(w, formatType, ffmpeg, dir, a) && FirstFreeCopy(w, formatType, ffmpeg, dir, b)
    ensures a == b
  {
    var title := SavedTitle(w.extraction.title);
    var la: string, na: nat :| IsLocatedName(w.poll, w.fallback, la)
      && a == StoredName(title, ProductionExtension(formatType, ffmpeg, la), na) && a !in dir
      && (forall m :: 0 <= m < na ==> StoredName(title, ProductionExtension(formatType, ffmpeg, la), m) in dir);
    var lb: string, nb: nat :| IsLocatedName(w.poll, w.fallback, lb)
      && b == StoredName(title, ProductionExtension(formatType, ffmpeg, lb), nb) && b !in dir
      && (forall m :: 0 <= m < nb ==> StoredName(title, ProductionExtension(formatType, ffmpeg, lb), m) in dir);
    LocatedNameUnique(w.poll, w.fallback, la, lb);
    assert na <= nb;
    assert nb <= na;
  }

  /** The directory as the `j`th try finds it: `before` and the files that the earlier empty copies left behind. */
  ghost function FilesAt(before: set<string>, leftovers: map<nat, string>, j: nat): set<string>
  {
    before + (set k | k in leftovers && k < j :: leftovers[k])
  }

  /**
   * What `download_video` promises, for the selectors `plan` and their
   * verdicts `vs`, with the directory `before` and `after` the call.
   * `tried` lists the selectors handed to the library, in order;
   * `leftovers` maps each try whose copy came out empty to the file it left
   * behind; `located` and `n` are the located file and the name counter of
   * the try that saved the download. In each case the tries before the
   * decisive one are summed up by `TriedSoFar`.
   */
  ghost predicate DownloadOutcome(formatType: string, ffmpeg: bool, world: string -> AttemptWorld,
    plan: seq<string>, vs: seq<Option<AttemptError>>,
    before: set<string>, after: set<string>, r: Result<Saved, DownloadError>,
    tried: seq<string>, leftovers: map<nat, string>, located: string, n: nat)
  {
    match r
    case Ok(saved) =>
      // the first decisive try saved the file: its title, the extension of
      // the file it located, and the first counter free in the directory
      var k := FirstDecisive(vs, 0);
      && k < |vs| == |plan| && vs[k].None?
      && TriedSoFar(formatType, ffmpeg, world, plan, vs, before, before + leftovers.Values, k, plan[..k], leftovers)
      && tried == plan[..k + 1]
      && var w := world(plan[k]);
         var ext := ProductionExtension(formatType, ffmpeg, located);
         && w.extraction.Extracted?
         && saved.title == SavedTitle(w.extraction.title)
         && IsLocatedName(w.poll, w.fallback, located)
         && saved.filename == StoredName(saved.title, ext, n)
         && saved.filename !in before + leftovers.Values
         && (forall m :: 0 <= m < n ==> StoredName(saved.title, ext, m) in before + leftovers.Values)
         && after == before + leftovers.Values + {saved.filename}
    case Err(DrmProtected) =>
      // the first decisive try failed with a DRM message
      var k := FirstDecisive(vs, 0);
      && k < |vs| == |plan| && vs[k].Some?
      && TriedSoFar(formatType, ffmpeg, world, plan, vs, before, after, k, plan[..k], leftovers)
      && tried == plan[..k + 1]
    case Err(Exhausted(last)) =>
      // no try was decisive: every selector was tried and the last failure is reported
      && 0 < |vs| == |plan| && FirstDecisive(vs, 0) == |vs|
      && Some(last) == vs[|vs| - 1]
      && TriedSoFar(formatType, ffmpeg, world, plan, vs, before, after, |vs|, tried, leftovers)
      && tried == plan
  }

  /**
   * The outcome is decided by the first decisive try: a saved file exactly
   * when it saved one, a DRM abort exactly when it failed, and the last
   * failure, none of them about DRM, exactly when no try was decisive.
   */
  lemma OutcomeDecided(formatType: string, ffmpeg: bool, world: string -> AttemptWorld,
    plan: seq<string>, vs: seq<Option<AttemptError>>,
    before: set<string>, after: set<string>, r: Result<Saved, DownloadError>,
    tried: seq<string>, leftovers: map<nat, string>, located: string, n: nat)
    requires DownloadOutcome(formatType, ffmpeg, world, plan, vs, before, after, r, tried, leftovers, located, n)
    ensures var k := FirstDecisive(vs, 0);
      && (r.Ok? <==> k < |vs| && vs[k].None?)
      && (r == Err(DrmProtected) <==> k < |vs| && vs[k].Some?)
      && (r.Err? && r.error.Exhausted? <==> k == |vs|)
    ensures r.Err? && r.error.Exhausted? ==> forall j :: 0 <= j < |vs| ==> vs[j].Some? && !ReadsAsDrm(vs[j].value)
    ensures |tried| <= |plan| && tried == plan[..|tried|]
  {
    if r.Err? && r.error.Exhausted? {
      NoDecisiveTry(vs, 0);
    }
  }

  /** A download never removes a file, and a saved file is new to the directory. */
  lemma OutcomeGrowsDirectory(formatType: string, ffmpeg: bool, world: string -> AttemptWorld,
    plan: seq<string>, vs: seq<Option<AttemptError>>,
    before: set<string>, after: set<string>, r: Result<Saved, DownloadError>,
    tried: seq<string>, leftovers: map<nat, string>, located: string, n: nat)
    requires DownloadOutcome(formatType, ffmpeg, world, plan, vs, before, after, r, tried, leftovers, located, n)
    ensures before <= after
    ensures r.Ok? ==> r.value.filename in after && r.value.filename !in before
  {
  }

  /** Without empty copies, a download adds the saved file to the directory and nothing else. */
  lemma OutcomeWithoutFailedCopies(formatType: string, ffmpeg: bool, world: string -> AttemptWorld,
    plan: seq<string>, vs: seq<Option<AttemptError>>,
    before: set<string>, after: set<string>, r: Result<Saved, DownloadError>,
    tried: seq<string>, leftovers: map<nat, string>, located: string, n: nat)
    requires DownloadOutcome(formatType, ffmpeg, world, plan, vs, before, after, r, tried, leftovers, located, n)
    requires CopyNeverFails(vs)
    ensures after == before + (if r.Ok? then {r.value.filename} else {})
    ensures r.Ok? ==> r.value.filename !in before
  {
    assert leftovers.Keys == {};
  }

  /**
   * The state after the first `i` selectors of `plan` were tried, none of
   * them decisive, with verdicts `vs`: `tried` is the selectors tried so far,
   * and the directory holds the files that the empty copies among them left
   * behind.
   */
  ghost predicate TriedSoFar(formatType: string, ffmpeg: bool, world: string -> AttemptWorld,
    plan: seq<string>, vs: seq<Option<AttemptError>>,
    before: set<string>, files: set<string>, i: nat, tried: seq<string>, leftovers: map<nat, string>)
  {
    && i <= |plan| == |vs|
    && tried == plan[..i]
    && PinnedLeftovers(formatType, ffmpeg, world, plan, vs, before, i, leftovers)
    && (forall j :: 0 <= j < i && vs[j] == Some(CopyFailed) ==> j in leftovers)
    && files == before + leftovers.Values
  }

  /** Every recorded leftover comes from a try before `i` and is the first free name at its try. */
  ghost predicate PinnedLeftovers(formatType: string, ffmpeg: bool, world: string -> AttemptWorld,
    plan: seq<string>, vs: seq<Option<AttemptError>>, before: set<string>, i: nat, leftovers: map<nat, string>)
  {
    forall j :: j in leftovers ==>
      j < i && LeftBehind(formatType, ffmpeg, world, plan, vs, FilesAt(before, leftovers, j), j, leftovers[j])
  }

  /**
   * The `j`th try's copy came out empty and left `name` behind: the first
   * free name for its download in the directory `dir` it found.
   */
  ghost predicate LeftBehind(formatType: string, ffmpeg: bool, world: string -> AttemptWorld,
    plan: seq<string>, vs: seq<Option<AttemptError>>, dir: set<string>, j: nat, name: string)
  {
    && j < |plan| && j < |vs| && vs[j] == Some(CopyFailed)
    && FirstFreeCopy(world(plan[j]), formatType, ffmpeg, dir, name)
  }

  /** A try that failed, but not in the copy, extends the state by one try and leaves the directory as it was. */
  lemma {:induction false} FailedTry(formatType: string, ffmpeg: bool, world: string -> AttemptWorld,
    plan: seq<string>, vs: seq<Option<AttemptError>>,
    before: set<string>, files: set<string>, i: nat, tried: seq<string>, leftovers: map<nat, string>)
    requires TriedSoFar(formatType, ffmpeg, world, plan, vs, before, files, i, tried, leftovers)
    requires i < |plan| && vs[i].Some? && vs[i] != Some(CopyFailed)
    ensures TriedSoFar(formatType, ffmpeg, world, plan, vs, before, files, i + 1, tried + [plan[i]], leftovers)
  {
    PrefixGrows(plan, i);
  }

  /** A try whose copy came out empty extends the state by one try and by the file it left behind. */
  lemma {:induction false} FailedCopy(formatType: string, ffmpeg: bool, world: string -> AttemptWorld,
    plan: seq<string>, vs: seq<Option<AttemptError>>,
    before: set<string>, files: set<string>, i: nat, tried: seq<string>, leftovers: map<nat, string>, stored: string)
    requires TriedSoFar(formatType, ffmpeg, world, plan, vs, before, files, i, tried, leftovers)
    requires i < |plan| && vs[i] == Some(CopyFailed)
    requires FirstFreeCopy(world(plan[i]), formatType, ffmpeg, files, stored)
    ensures TriedSoFar(formatType, ffmpeg, world, plan, vs, before, files + {stored}, i + 1, tried + [plan[i]], leftovers[i := stored])
  {
    PrefixGrows(plan, i);
    CopyLeavesFirstFree(formatType, ffmpeg, world, plan, vs, before, files, i, leftovers, stored);
    LeftoversGrow(formatType, ffmpeg, world, plan, vs, before, i, leftovers, stored);
    FilesGrow(before, files, leftovers, i, stored);
  }

  /** Recording a new leftover adds exactly that file to the directory. */
  lemma FilesGrow(before: set<string>, files: set<string>, leftovers: map<nat, string>, i: nat, stored: string)
    requires files == before + leftovers.Values && i !in leftovers
    ensures files + {stored} == before + leftovers[i := stored].Values
  {
    ValuesOfNewKey(leftovers, i, stored);
  }

  /** The `i`th try's empty copy leaves the first free name in the directory it found. */
  lemma CopyLeavesFirstFree(formatType: string, ffmpeg: bool, world: string -> AttemptWorld,
    plan: seq<string>, vs: seq<Option<AttemptError>>,
    before: set<string>, files: set<string>, i: nat, leftovers: map<nat, string>, stored: string)
    requires forall j :: j in leftovers ==> j < i
    requires files == before + leftovers.Values
    requires i < |plan| && i < |vs| && vs[i] == Some(CopyFailed)
    requires FirstFreeCopy(world(plan[i]), formatType, ffmpeg, files, stored)
    ensures LeftBehind(formatType, ffmpeg, world, plan, vs, FilesAt(before, leftovers, i), i, stored)
  {
    FilesAtAll(before, leftovers, i);
  }

  /** Recording the `i`th try's leftover keeps every recorded leftover the first free name at its try. */
  lemma LeftoversGrow(formatType: string, ffmpeg: bool, world: string -> AttemptWorld,
    plan: seq<string>, vs: seq<Option<AttemptError>>, before: set<string>, i: nat,
    leftovers: map<nat, string>, stored: string)
    requires PinnedLeftovers(formatType, ffmpeg, world, plan, vs, before, i, leftovers)
    requires LeftBehind(formatType, ffmpeg, world, plan, vs, FilesAt(before, leftovers, i), i, stored)
    ensures PinnedLeftovers(formatType, ffmpeg, world, plan, vs, before, i + 1, leftovers[i := stored])
  {
    var grown := leftovers[i := stored];
    forall j | j in grown
      ensures j < i + 1 && LeftBehind(formatType, ffmpeg, world, plan, vs, FilesAt(before, grown, j), j, grown[j])
    {
      LeftoverKept(formatType, ffmpeg, world, plan, vs, before, i, leftovers, stored, j);
    }
  }

  /** One recorded leftover, the `i`th or an earlier one, still names the first free file at its try. */
  lemma LeftoverKept(formatType: string, ffmpeg: bool, world: string -> AttemptWorld,
    plan: seq<string>, vs: seq<Option<AttemptError>>, before: set<string>, i: nat,
    leftovers: map<nat, string>, stored: string, j: nat)
    requires PinnedLeftovers(formatType, ffmpeg, world, plan, vs, before, i, leftovers)
    requires LeftBehind(formatType, ffmpeg, world, plan, vs, FilesAt(before, leftovers, i), i, stored)
    requires j in leftovers[i := stored]
    ensures j < i + 1
    ensures LeftBehind(formatType, ffmpeg, world, plan, vs, FilesAt(before, leftovers[i := stored], j), j, leftovers[i := stored][j])
  {
    FilesAtExtend(before, leftovers, i, stored, j);
    if j != i {
      assert leftovers[i := stored][j] == leftovers[j];
    }
  }

  /** Once every recorded try is before `i`, the directory at try `i` holds `before` and every leftover. */
  lemma FilesAtAll(before: set<string>, leftovers: map<nat, string>, i: nat)
    requires forall j :: j in leftovers ==> j < i
    ensures FilesAt(before, leftovers, i) == before + leftovers.Values
  {
    assert forall x :: x in leftovers.Values ==> exists k :: k in leftovers && leftovers[k] == x;
  }

  /** Recording try `i`'s leftover does not change the directory that tries up to `i` found. */
  lemma FilesAtExtend(before: set<string>, leftovers: map<nat, string>, i: nat, stored: string, j: nat)
    requires forall k :: k in leftovers ==> k < i
    requires j <= i
    ensures FilesAt(before, leftovers[i := stored], j) == FilesAt(before, leftovers, j)
  {
    var grown := leftovers[i := stored];
    assert forall k :: k in grown && k < j ==> k in leftovers && grown[k] == leftovers[k];
  }

  /** The files left behind by different empty copies have different names. */
  lemma LeftoversDistinct(formatType: string, ffmpeg: bool, world: string -> AttemptWorld,
    plan: seq<string>, vs: seq<Option<AttemptError>>,
    before: set<string>, files: set<string>, i: nat, tried: seq<string>, leftovers: map<nat, string>, j: nat, k: nat)
    requires TriedSoFar(formatType, ffmpeg, world, plan, vs, before, files, i, tried, leftovers)
    requires j in leftovers && k in leftovers && j < k
    ensures leftovers[j] != leftovers[k] && leftovers[k] !in before
  {
    assert LeftBehind(formatType, ffmpeg, world, plan, vs, FilesAt(before, leftovers, k), k, leftovers[k]);
  }

  /** A try that saved the file decides the download: it succeeds with that file. */
  lemma {:induction false} SavedTry(formatType: string, ffmpeg: bool, world: string -> AttemptWorld,
    plan: seq<string>, vs: seq<Option<AttemptError>>,
    before: set<string>, files: set<string>, i: nat, tried: seq<string>, leftovers: map<nat, string>,
    stored: string, located: string, n: nat)
    requires TriedSoFar(formatType, ffmpeg, world, plan, vs, before, files, i, tried, leftovers)
    requires i < |vs| && vs[i].None? && FirstDecisive(vs, 0) == FirstDecisive(vs, i)
    requires var w := world(plan[i]);
      var ext := ProductionExtension(formatType, ffmpeg, located);
      && w.extraction.Extracted? && IsLocatedName(w.poll, w.fallback, located)
      && stored == StoredName(SavedTitle(w.extraction.title), ext, n) && stored !in files
      && (forall m :: 0 <= m < n ==> StoredName(SavedTitle(w.extraction.title), ext, m) in files)
    ensures DownloadOutcome(formatType, ffmpeg, world, plan, vs, before, files + {stored},
      Ok(Saved(stored, SavedTitle(world(plan[i]).extraction.title))), tried + [plan[i]], leftovers, located, n)
  {
    PrefixGrows(plan, i);
  }

  /** A try that failed with a DRM message decides the download: it aborts. */
  lemma {:induction false} DrmTry(formatType: string, ffmpeg: bool, world: string -> AttemptWorld,
    plan: seq<string>, vs: seq<Option<AttemptError>>,
    before: set<string>, files: set<string>, i: nat, tried: seq<string>, leftovers: map<nat, string>,
    located: string, n: nat)
    requires TriedSoFar(formatType, ffmpeg, world, plan, vs, before, files, i, tried, leftovers)
    requires i < |vs| && vs[i].Some? && ReadsAsDrm(vs[i].value) && FirstDecisive(vs, 0) == FirstDecisive(vs, i)
    ensures DownloadOutcome(formatType, ffmpeg, world, plan, vs, before, files, Err(DrmProtected), tried + [plan[i]], leftovers, located, n)
  {
    PrefixGrows(plan, i);
  }

  /** When every try failed without a DRM message, the last failure is reported. */
  lemma {:induction false} ExhaustedTries(formatType: string, ffmpeg: bool, world: string -> AttemptWorld,
    plan: seq<string>, vs: seq<Option<AttemptError>>,
    before: set<string>, files: set<string>, tried: seq<string>, leftovers: map<nat, string>,
    located: string, n: nat, last: AttemptError)
    requires TriedSoFar(formatType, ffmpeg, world, plan, vs, before, files, |vs|, tried, leftovers)
    requires 0 < |vs| && FirstDecisive(vs, 0) == |vs| && Some(last) == vs[|vs| - 1]
    ensures DownloadOutcome(formatType, ffmpeg, world, plan, vs, before, files, Err(Exhausted(last)), tried, leftovers, located, n)
  {
    assert plan[..|plan|] == plan;
    NoDecisiveTry(vs, 0);
  }

  /** The first `i + 1` selectors are the first `i` followed by the `i`th. */
  lemma PrefixGrows(plan: seq<string>, i: nat)
    requires i < |plan|
    ensures plan[..i + 1] == plan[..i] + [plan[i]]
  {
  }

  /** Adding a fresh key to a map adds its value to the map's values. */
  lemma ValuesOfNewKey(m: map<nat, string>, key: nat, v: string)
    requires key !in m
    ensures m[key := v].Values == m.Values + {v}
  {
    forall x | x in m.Values
      ensures x in m[key := v].Values
    {
      var k :| k in m && m[k] == x;
      assert m[key := v][k] == x;
    }
    assert m[key := v][key] == v;
  }

  /** The download directory (`DOWNLOAD_DIR`) by file name, and the configured size limit. */
  class DownloadStore {
    var files: set<string>
    const maxFileSize: int

    constructor(maxFileSize: int, files: set<string>)
      ensures this.maxFileSize == maxFileSize && this.files == files
    {
      this.maxFileSize := maxFileSize;
      this.files := files;
    }

    /**
     * One try of `download_video`'s loop body (app_production.py:129-259).
     * A copy that comes out empty leaves the file it created behind.
     */
    method Attempt(formatType: string, ffmpeg: bool, world: AttemptWorld)
      returns (r: Result<Saved, AttemptError>, ghost stored: string, ghost located: string, ghost n: nat)
      modifies this
      ensures r.Err? <==> AttemptVerdict(world, formatType, ffmpeg, maxFileSize).Some?
      ensures r.Err? ==> AttemptVerdict(world, formatType, ffmpeg, maxFileSize) == Some(r.error)
      ensures r.Ok? || r == Err(CopyFailed) ==>
        stored !in old(files) && files == old(files) + {stored}
        && world.extraction.Extracted? && IsLocatedName(world.poll, world.fallback, located)
        && stored == StoredName(SavedTitle(world.extraction.title), ProductionExtension(formatType, ffmpeg, located), n)
        && (forall k :: 0 <= k < n ==> StoredName(SavedTitle(world.extraction.title), ProductionExtension(formatType, ffmpeg, located), k) in old(files))
      ensures r.Ok? ==> r.value == Saved(stored, SavedTitle(world.extraction.title))
      ensures !(r.Ok? || r == Err(CopyFailed)) ==> files == old(files)
    {
      stored, located, n := "", "", 0;
      match world.extraction {
        case ExtractionFailed(m) =>
          return Err(ExtractFailed(m)), stored, located, n;
        case Extracted(rawTitle, formats) =>
          var title := SavedTitle(rawTitle);
          var usable := HasUsableFormat(formats, formatType);
          if !usable && formats != [] {
            return Err(ImagesOnly), stored, located, n;
          }
          var found := LocateFile(world.poll, world.fallback);
          if found.Err? {
            return Err(NotLocated(found.error)), stored, located, n;
          }
          var file := found.value;
          if file.size == 0 {
            return Err(EmptyFile), stored, located, n;
          }
          if file.size < MinFileSize {
            return Err(TooSmall(file.size)), stored, located, n;
          }
          if file.size > maxFileSize {
            return Err(TooLarge(file.size)), stored, located, n;
          }
          located := file.name;
          var ext := ProductionExtension(formatType, ffmpeg, file.name);
          var name, counter := ChooseStoredName(files, title, ext);
          stored, n := name, counter;
          files := files + {name};
          if world.copiedSize == 0 {
            return Err(CopyFailed), stored, located, n;
          }
          return Ok(Saved(name, title)), stored, located, n;
      }
    }

    /**
     * One pass of `download_video`'s loop: the try of the `i`th selector,
     * with what it adds to the tries before it.
     */
    method TryNext(formatType: string, ffmpeg: bool, world: string -> AttemptWorld, i: nat,
                   ghost before: set<string>, ghost tried: seq<string>, ghost leftovers: map<nat, string>)
      returns (res: Result<Saved, AttemptError>, ghost leftoversNow: map<nat, string>, ghost located: string, ghost n: nat)
      requires var vs := Verdicts(formatType, ffmpeg, world, maxFileSize);
        i < |vs| && FirstDecisive(vs, 0) == FirstDecisive(vs, i)
      requires TriedSoFar(formatType, ffmpeg, world, StrategyPlan(formatType), Verdicts(formatType, ffmpeg, world, maxFileSize),
        before, files, i, tried, leftovers)
      modifies this
      ensures var plan := StrategyPlan(formatType);
        var vs := Verdicts(formatType, ffmpeg, world, maxFileSize);
        && i < |vs|
        && (res.Ok? <==> vs[i].None?)
        && (res.Err? ==> vs[i] == Some(res.error))
        && (res.Ok? ==> DownloadOutcome(formatType, ffmpeg, world, plan, vs, before, files, Ok(res.value), tried + [plan[i]], leftoversNow, located, n))
        && (res.Err? && ReadsAsDrm(res.error) ==>
              DownloadOutcome(formatType, ffmpeg, world, plan, vs, before, files, Err(DrmProtected), tried + [plan[i]], leftoversNow, located, n))
        && (res.Err? && !ReadsAsDrm(res.error) ==>
              TriedSoFar(formatType, ffmpeg, world, plan, vs, before, files, i + 1, tried + [plan[i]], leftoversNow))
    {
      var plan := StrategyPlan(formatType);
      ghost var vs := Verdicts(formatType, ffmpeg, world, maxFileSize);
      ghost var filesBefore := files;
      leftoversNow := leftovers;
      ghost var stored: string;
      res, stored, located, n := Attempt(formatType, ffmpeg, world(plan[i]));
      VerdictAt(plan, formatType, ffmpeg, world, maxFileSize, i);
      if res.Ok? {
        SavedTry(formatType, ffmpeg, world, plan, vs, before, filesBefore, i, tried, leftovers, stored, located, n);
      } else if ReadsAsDrm(res.error) {
        DrmTry(formatType, ffmpeg, world, plan, vs, before, files, i, tried, leftovers, located, n);
      } else if res.error == CopyFailed {
        assert FirstFreeCopy(world(plan[i]), formatType, ffmpeg, filesBefore, stored);
        FailedCopy(formatType, ffmpeg, world, plan, vs, before, filesBefore, i, tried, leftovers, stored);
        leftoversNow := leftovers[i := stored];
      } else {
        FailedTry(formatType, ffmpeg, world, plan, vs, before, filesBefore, i, tried, leftovers);
      }
    }

    /**
     * `download_video` (app_production.py:72-275): the tries of the plan in
     * order, stopping at the first success or DRM failure; otherwise the
     * last failure is reported.
     */
    method DownloadVideo(formatType: string, ffmpeg: bool, world: string -> AttemptWorld)
      returns (r: Result<Saved, DownloadError>,
               ghost tried: seq<string>, ghost leftovers: map<nat, string>, ghost located: string, ghost n: nat)
      modifies this
      ensures DownloadOutcome(formatType, ffmpeg, world, StrategyPlan(formatType), Verdicts(formatType, ffmpeg, world, maxFileSize),
        old(files), files, r, tried, leftovers, located, n)
    {
      var plan := StrategyPlan(formatType);
      ghost var vs := Verdicts(formatType, ffmpeg, world, maxFileSize);
      tried, leftovers, located, n := [], map[], "", 0;
      var lastError: Option<AttemptError> := None;
      var i := 0;
      while i < |plan|
        invariant 0 <= i <= |plan|
        invariant FirstDecisive(vs, 0) == FirstDecisive(vs, i)
        invariant TriedSoFar(formatType, ffmpeg, world, plan, vs, old(files), files, i, tried, leftovers)
        invariant i == 0 <==> lastError.None?
        invariant i > 0 ==> lastError == vs[i - 1] && !ReadsAsDrm(lastError.value)
      {
        var res;
        res, leftovers, located, n := TryNext(formatType, ffmpeg, world, i, old(files), tried, leftovers);
        tried := tried + [plan[i]];
        if res.Ok? {
          return Ok(res.value), tried, leftovers, located, n;
        }
        lastError := Some(res.error);
        if ReadsAsDrm(res.error) {
          return Err(DrmProtected), tried, leftovers, located, n;
        }
        i := i + 1;
      }
      ExhaustedTries(formatType, ffmpeg, world, plan, vs, old(files), files, tried, leftovers, located, n, lastError.value);
      r := Err(Exhausted(lastError.value));
    }

    /**
     * The `/api/download` route's format check (app_production.py:319-325):
     * a missing format means "video"; anything but "video" or "mp3" is
     * refused before any try.
     */
    method HandleDownload(format: Option<string>, ffmpeg: bool, world: string -> AttemptWorld)
      returns (r: Result<Saved, RouteError>, ghost download: Result<Saved, DownloadError>,
               ghost tried: seq<string>, ghost leftovers: map<nat, string>, ghost located: string, ghost n: nat)
      modifies this
      ensures var formatType := if format.Some? then format.value else "video";
        && (r == Err(InvalidFormat) <==> !IsAcceptedFormat(formatType))
        && (!IsAcceptedFormat(formatType) ==> files == old(files) && tried == [])
        && (IsAcceptedFormat(formatType) ==>
              && (r.Ok? <==> download.Ok?)
              && (download.Ok? ==> r.value == download.value)
              && (download.Err? ==> r == Err(Failed(download.error)))
              && DownloadOutcome(formatType, ffmpeg, world, StrategyPlan(formatType), Verdicts(formatType, ffmpeg, world, maxFileSize),
                   old(files), files, download, tried, leftovers, located, n))
    {
      var formatType := if format.Some? then format.value else "video";
      download, tried, leftovers, located, n := Err(DrmProtected), [], map[], "", 0;
      if formatType != "video" && formatType != "mp3" {
        return Err(InvalidFormat), download, tried, leftovers, located, n;
      }
      var result;
      result, tried, leftovers, located, n := DownloadVideo(formatType, ffmpeg, world);
      download := result;
      match result {
        case Ok(saved) => r := Ok(saved);
        case Err(e) => r := Err(Failed(e));
      }
    }
  }

  datatype RouteError = InvalidFormat | Failed(reason: DownloadError)
}
