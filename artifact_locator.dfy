/**
 * How the production back end finds the file the extraction library wrote
 * into its scratch directory (app_production.py:150-202): up to thirty
 * polls for a media file whose size has settled, then a fallback scan.
 *
 * The directory is not read here: each poll is given as the listing it saw
 * plus the two size readings of its candidate taken half a second apart.
 */
module ArtifactLocator {
  import opened Wrappers
  import opened Text
  import opened Files

  /** Number of one-second polls before giving up on a settled file. */
  const MaxPolls: nat := 30

  /** A thumbnail: one of the image extensions, compared case-insensitively. */
  predicate IsImageName(name: string)
  {
    var low := Lower(name);
    EndsWith(low, ".jpg") || EndsWith(low, ".jpeg") || EndsWith(low, ".png")
    || EndsWith(low, ".webp") || EndsWith(low, ".gif")
  }

  /** A name a poll may pick: not partial, not a storyboard page, not an image. */
  predicate IsMediaName(name: string)
  {
    !IsPartial(name) && !EndsWith(name, ".mhtml") && !IsImageName(name)
  }

  /** Entry `i` is the poll's candidate: the first media file of the strictly largest size, above the minimum. */
  predicate IsPollCandidate(listing: seq<FileEntry>, i: int)
  {
    0 <= i < |listing| && IsMediaName(listing[i].name) && listing[i].size > MinFileSize
    && (forall j :: 0 <= j < |listing| && IsMediaName(listing[j].name) ==> listing[j].size <= listing[i].size)
    && (forall j :: 0 <= j < i && IsMediaName(listing[j].name) ==> listing[j].size < listing[i].size)
  }

  /** No media file of the listing is above the minimum. */
  predicate NoPollCandidate(listing: seq<FileEntry>)
  {
    forall j :: 0 <= j < |listing| && IsMediaName(listing[j].name) ==> listing[j].size <= MinFileSize
  }

  /** The candidate scan of one poll (app_production.py:164-178). */
  method PickCandidate(listing: seq<FileEntry>) returns (pick: Option<nat>)
    ensures pick.None? <==> NoPollCandidate(listing)
    ensures pick.Some? ==> IsPollCandidate(listing, pick.value)
  {
    var maxSize := 0;
    pick := None;
    var i := 0;
    while i < |listing|
      invariant 0 <= i <= |listing|
      invariant pick.None? ==> maxSize == 0
      invariant pick.None? <==> forall j :: 0 <= j < i && IsMediaName(listing[j].name) ==> listing[j].size <= MinFileSize
      invariant pick.Some? ==> pick.value < i && maxSize == listing[pick.value].size
      invariant pick.Some? ==> IsMediaName(listing[pick.value].name) && maxSize > MinFileSize
      invariant pick.Some? ==> forall j :: 0 <= j < i && IsMediaName(listing[j].name) ==> listing[j].size <= maxSize
      invariant pick.Some? ==> forall j :: 0 <= j < pick.value && IsMediaName(listing[j].name) ==> listing[j].size < maxSize
    {
      var f := listing[i];
      var media := IsMediaName(f.name);
      if media && f.size > maxSize && f.size > MinFileSize {
        maxSize := f.size;
        pick := Some(i);
      }
      i := i + 1;
    }
  }

  /**
   * What one poll observed: the listing, and the size of its candidate
   * read once and again half a second later.
   */
  datatype Poll = Poll(listing: seq<FileEntry>, before: nat, after: nat)

  /** A poll ends the wait: it has a candidate whose two readings agree and exceed the minimum. */
  predicate Accepts(p: Poll)
  {
    (exists i :: 0 <= i < |p.listing| && IsPollCandidate(p.listing, i)) && p.before == p.after && p.before > MinFileSize
  }

  /** The first poll numbered `k` to `MaxPolls` that ends the wait. */
  function FirstAccepted(poll: nat -> Poll, k: nat): (r: Option<nat>)
    ensures r.Some? ==> k <= r.value <= MaxPolls && Accepts(poll(r.value))
    ensures r.Some? ==> forall m :: k <= m < r.value ==> !Accepts(poll(m))
    ensures r.None? ==> forall m :: k <= m <= MaxPolls ==> !Accepts(poll(m))
    decreases MaxPolls + 1 - k
  {
    if k > MaxPolls then None
    else if Accepts(poll(k)) then Some(k)
    else FirstAccepted(poll, k + 1)
  }

  /** The first poll from `k` on that accepts is the one after a run of rejecting polls. */
  lemma FirstAcceptedAt(poll: nat -> Poll, k: nat, m: nat)
    requires k <= m <= MaxPolls && Accepts(poll(m))
    requires forall j :: k <= j < m ==> !Accepts(poll(j))
    ensures FirstAccepted(poll, k) == Some(m)
  {
    var r := FirstAccepted(poll, k);
    assert r.Some?;
    assert r.value <= m;
    assert m <= r.value;
  }

  /** With no accepting poll from `k` to `MaxPolls`, none is found. */
  lemma FirstAcceptedNone(poll: nat -> Poll, k: nat)
    requires forall j :: k <= j <= MaxPolls ==> !Accepts(poll(j))
    ensures FirstAccepted(poll, k).None?
  {
  }

  datatype WaitOutcome =
    | Settled(pollNumber: nat, index: nat, size: nat)
    | EmptyAtLastPoll
    | NeverSettled

  /**
   * The polling loop (app_production.py:150-187). Poll `k` (1 to 30) is
   * `poll(k)`; the wait ends at the first accepting poll, and an empty
   * listing on the last poll ends it with an error.
   */
  method WaitForSettledFile(poll: nat -> Poll) returns (r: WaitOutcome)
    ensures r.Settled? <==> FirstAccepted(poll, 1).Some?
    ensures r.Settled? ==> r.pollNumber == FirstAccepted(poll, 1).value
    ensures r.Settled? ==> IsPollCandidate(poll(r.pollNumber).listing, r.index) && r.size == poll(r.pollNumber).before
    ensures r == EmptyAtLastPoll <==> FirstAccepted(poll, 1).None? && poll(MaxPolls).listing == []
    ensures r == NeverSettled <==> FirstAccepted(poll, 1).None? && poll(MaxPolls).listing != []
  {
    var attempt := 0;
    while attempt < MaxPolls
      invariant 0 <= attempt <= MaxPolls
      invariant forall m :: 1 <= m <= attempt ==> !Accepts(poll(m))
      invariant attempt == MaxPolls ==> poll(MaxPolls).listing != []
    {
      attempt := attempt + 1;
      var p := poll(attempt);
      if p.listing == [] {
        if attempt < MaxPolls {
          continue;
        }
        FirstAcceptedNone(poll, 1);
        return EmptyAtLastPoll;
      }
      var pick := PickCandidate(p.listing);
      if pick.Some? {
        if p.before == p.after && p.before > MinFileSize {
          FirstAcceptedAt(poll, 1, attempt);
          return Settled(attempt, pick.value, p.before);
        }
      }
    }
    FirstAcceptedNone(poll, 1);
    r := NeverSettled;
  }

  /** The largest size among the non-partial files, 0 when there is none. */
  function FallbackMax(listing: seq<FileEntry>): (m: nat)
    ensures forall j :: 0 <= j < |listing| && !IsPartial(listing[j].name) ==> listing[j].size <= m
    ensures m == 0 || exists j :: 0 <= j < |listing| && !IsPartial(listing[j].name) && listing[j].size == m
  {
    if listing == [] then 0
    else
      var init := listing[..|listing| - 1];
      var last := listing[|listing| - 1];
      var m := FallbackMax(init);
      assert forall j :: 0 <= j < |init| ==> init[j] == listing[j];
      if !IsPartial(last.name) && last.size > m then last.size else m
  }

  /** Entry `i` is the fallback: the first non-partial file of the largest size, which is not 0. */
  predicate IsFallbackPick(listing: seq<FileEntry>, i: int)
  {
    0 <= i < |listing| && !IsPartial(listing[i].name) && listing[i].size > 0
    && (forall j :: 0 <= j < |listing| && !IsPartial(listing[j].name) ==> listing[j].size <= listing[i].size)
    && (forall j :: 0 <= j < i && !IsPartial(listing[j].name) ==> listing[j].size < listing[i].size)
  }

  /**
   * The fallback scan after the polls (app_production.py:189-202): every
   * file except `.part` ones takes part, images and storyboards included.
   */
  method PickFallback(listing: seq<FileEntry>) returns (pick: Option<nat>)
    ensures pick.None? <==> FallbackMax(listing) == 0
    ensures pick.Some? ==> IsFallbackPick(listing, pick.value) && listing[pick.value].size == FallbackMax(listing)
  {
    var maxSize := 0;
    pick := None;
    var i := 0;
    while i < |listing|
      invariant 0 <= i <= |listing|
      invariant pick.None? ==> maxSize == 0
      invariant pick.None? <==> forall j :: 0 <= j < i && !IsPartial(listing[j].name) ==> listing[j].size == 0
      invariant pick.Some? ==> pick.value < i && maxSize == listing[pick.value].size && maxSize > 0
      invariant pick.Some? ==> !IsPartial(listing[pick.value].name)
      invariant pick.Some? ==> forall j :: 0 <= j < i && !IsPartial(listing[j].name) ==> listing[j].size <= maxSize
      invariant pick.Some? ==> forall j :: 0 <= j < pick.value && !IsPartial(listing[j].name) ==> listing[j].size < maxSize
    {
      var f := listing[i];
      if !EndsWith(f.name, ".part") && f.size > maxSize {
        maxSize := f.size;
        pick := Some(i);
      }
      i := i + 1;
    }
    if pick.None? {
      FallbackMaxZero(listing);
    }
  }

  lemma {:induction false} FallbackMaxZero(listing: seq<FileEntry>)
    requires forall j :: 0 <= j < |listing| && !IsPartial(listing[j].name) ==> listing[j].size == 0
    ensures FallbackMax(listing) == 0
  {
    if listing != [] {
      var init := listing[..|listing| - 1];
      assert forall j :: 0 <= j < |init| ==> init[j] == listing[j];
      FallbackMaxZero(init);
    }
  }

  lemma PartialName(name: string)
    requires name == "video.mp4.part"
    ensures IsPartial(name)
  {
    assert name[|name| - 5..] == ".part";
  }

  lemma ThumbnailName(name: string)
    requires name == "thumb.jpg"
    ensures IsImageName(name) && !IsPartial(name)
  {
    assert Lower(name)[|name| - 4..] == ".jpg";
    assert name[|name| - 5] != '.';
  }

  lemma VideoName(name: string)
    requires name == "video.mp4"
    ensures IsMediaName(name)
  {
    assert name[|name| - 1] == '4';
    assert Lower(name)[|name| - 1] == '4';
  }

  /** A partial download and a thumbnail beside the finished video: the video is the candidate. */
  lemma CandidateSkipsNoise(listing: seq<FileEntry>)
    requires listing == [FileEntry("video.mp4.part", 9216), FileEntry("thumb.jpg", 51200), FileEntry("video.mp4", 512000)]
    ensures IsPollCandidate(listing, 2)
  {
    PartialName(listing[0].name);
    ThumbnailName(listing[1].name);
    VideoName(listing[2].name);
  }

  /**
   * The fallback takes images too: a thumbnail beside an unfinished
   * download is never a poll candidate but is the fallback pick.
   */
  lemma FallbackAdmitsImages(listing: seq<FileEntry>)
    requires listing == [FileEntry("thumb.jpg", 51200), FileEntry("video.mp4.part", 9216)]
    ensures NoPollCandidate(listing)
    ensures IsImageName(listing[0].name) && IsFallbackPick(listing, 0)
  {
    ThumbnailName(listing[0].name);
    PartialName(listing[1].name);
  }

  datatype LocateError =
    | NoFileDownloaded   // the last poll saw an empty directory
    | FileNotFound       // no settled file and no non-empty fallback

  /** A located file: its name and the size the size checks will see. */
  datatype Located = Located(name: string, size: nat)

  /**
   * What locating yields, independently of which entry is named: the size
   * of the first settled poll, else an error for an empty last poll, else
   * the largest fallback size, else an error.
   */
  function LocateSize(poll: nat -> Poll, fallback: seq<FileEntry>): (r: Result<nat, LocateError>)
    ensures r.Ok? ==> r.value > 0
    ensures FirstAccepted(poll, 1).Some? ==> r.Ok? && r.value > MinFileSize
  {
    match FirstAccepted(poll, 1)
    case Some(k) => Ok(poll(k).before)
    case None =>
      if poll(MaxPolls).listing == [] then Err(NoFileDownloaded)
      else if FallbackMax(fallback) == 0 then Err(FileNotFound)
      else Ok(FallbackMax(fallback))
  }

  /** The name `LocateFile` may return: the settled poll's candidate, or the fallback pick. */
  predicate IsLocatedName(poll: nat -> Poll, fallback: seq<FileEntry>, name: string)
  {
    match FirstAccepted(poll, 1)
    case Some(k) => exists i :: 0 <= i < |poll(k).listing| && IsPollCandidate(poll(k).listing, i) && poll(k).listing[i].name == name
    case None => exists i :: 0 <= i < |fallback| && IsFallbackPick(fallback, i) && fallback[i].name == name
  }

  /** `LocateFile` can locate only one name: the candidate of a listing is unique. */
  lemma LocatedNameUnique(poll: nat -> Poll, fallback: seq<FileEntry>, a: string, b: string)
    requires IsLocatedName(poll, fallback, a) && IsLocatedName(poll, fallback, b)
    ensures a == b
  {
    match FirstAccepted(poll, 1)
    case Some(k) =>
      var listing := poll(k).listing;
      var i :| 0 <= i < |listing| && IsPollCandidate(listing, i) && listing[i].name == a;
      var j :| 0 <= j < |listing| && IsPollCandidate(listing, j) && listing[j].name == b;
      assert i <= j;
      assert j <= i;
    case None =>
      var i :| 0 <= i < |fallback| && IsFallbackPick(fallback, i) && fallback[i].name == a;
      var j :| 0 <= j < |fallback| && IsFallbackPick(fallback, j) && fallback[j].name == b;
      assert i <= j;
      assert j <= i;
  }

  /** Polling followed by the fallback scan (app_production.py:150-202). */
  method LocateFile(poll: nat -> Poll, fallback: seq<FileEntry>) returns (r: Result<Located, LocateError>)
    ensures r.Ok? <==> LocateSize(poll, fallback).Ok?
    ensures r.Ok? ==> r.value.size == LocateSize(poll, fallback).value && IsLocatedName(poll, fallback, r.value.name)
    ensures r.Err? ==> r.error == LocateSize(poll, fallback).error
  {
    var waited := WaitForSettledFile(poll);
    match waited {
      case Settled(k, i, size) =>
        var entry := poll(k).listing[i];
        return Ok(Located(entry.name, size));
      case EmptyAtLastPoll =>
        return Err(NoFileDownloaded);
      case NeverSettled =>
        var pick := PickFallback(fallback);
        if pick.None? {
          return Err(FileNotFound);
        }
        var entry := fallback[pick.value];
        return Ok(Located(entry.name, entry.size));
    }
  }
}
