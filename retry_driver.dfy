/**
 * The retry driver of `download_video` in app.py: every player client in
 * turn, every format selector within a client, one extraction call per
 * pair, and a substring classifier on the lower-cased error message that
 * decides whether to try the next format, leave the client, and whether the
 * failure counts towards the "blocked" counter.
 */
module RetryDriver {
  import opened Wrappers
  import opened Text
  import opened Sanitize

  /** What one extraction call does for a (client, format) pair: a title or an error message. */
  datatype Outcome = Extracted(title: string) | Failed(message: string)

  datatype Attempt = Attempt(client: string, format: string)

  datatype ErrorClass = JsonBlocked | FormatUnavailable | SignatureProblem | BotDetected | OtherError

  predicate JsonBlockSignal(m: string)
  {
    Contains(m, "failed to parse json") || Contains(m, "failed to extract any player response")
  }

  predicate FormatSignal(m: string)
  {
    Contains(m, "format is not available") || Contains(m, "requested format")
  }

  predicate SignatureSignal(m: string)
  {
    Contains(m, "signature") || Contains(m, "challenge") || Contains(m, "sabr")
  }

  predicate BotSignal(m: string)
  {
    Contains(m, "bot") || Contains(m, "confirm that you are not a bot")
  }

  /** The substring tests of the `except` block, first match wins. */
  function Classify(message: string): ErrorClass
  {
    var m := Lower(message);
    if JsonBlockSignal(m) then JsonBlocked
    else if FormatSignal(m) then FormatUnavailable
    else if SignatureSignal(m) then SignatureProblem
    else if BotSignal(m) then BotDetected
    else OtherError
  }

  /** Lower-cased message tests, in the source's order of priority. */
  lemma ClassifyTable(message: string)
    ensures var m := Lower(message);
      && (Classify(message) == JsonBlocked <==> JsonBlockSignal(m))
      && (Classify(message) == FormatUnavailable <==> !JsonBlockSignal(m) && FormatSignal(m))
      && (Classify(message) == SignatureProblem <==>
            !JsonBlockSignal(m) && !FormatSignal(m) && SignatureSignal(m))
      && (Classify(message) == BotDetected <==>
            !JsonBlockSignal(m) && !FormatSignal(m) && !SignatureSignal(m) && Contains(m, "bot"))
      && (Classify(message) == OtherError <==>
            !JsonBlockSignal(m) && !FormatSignal(m) && !SignatureSignal(m) && !Contains(m, "bot"))
  {
    var m := Lower(message);
    if Contains(m, "confirm that you are not a bot") {
      BotPhraseHasBot(m);
    }
  }

  /** The message is lower-cased before any test, so its case never changes the class. */
  lemma ClassifyIgnoresCase(message: string)
    ensures Classify(Lower(message)) == Classify(message)
  {
    LowerIdempotent(message);
  }

  /** The longer bot phrase adds nothing: any text holding it holds "bot". */
  lemma BotPhraseHasBot(m: string)
    requires Contains(m, "confirm that you are not a bot")
    ensures Contains(m, "bot")
  {
    var phrase := "confirm that you are not a bot";
    assert phrase[27..30] == "bot";
    ContainsAt(phrase, "bot", 27);
    ContainsTrans(m, phrase, "bot");
  }

  /** JSON blocks, signature trouble and bot checks abandon the client's remaining formats. */
  predicate LeavesClient(k: ErrorClass)
  {
    k == JsonBlocked || k == SignatureProblem || k == BotDetected
  }

  /** JSON blocks and bot checks add one to `json_blocked_count`. */
  predicate CountsAsBlock(k: ErrorClass)
  {
    k == JsonBlocked || k == BotDetected
  }

  /** The loop variables of the driver: the attempts made (for the record), `title`, `last_error`, `json_blocked_count`. */
  datatype DriveState = DriveState(attempts: seq<Attempt>, title: Option<string>, lastError: Option<string>, blocks: nat)

  const Start := DriveState([], None, None, 0)

  /** The inner loop: one client over the format selectors. */
  function RunClient(client: string, formats: seq<string>, extract: (string, string) -> Outcome, st: DriveState): DriveState
    decreases |formats|
  {
    if formats == [] then st
    else
      var tried := st.attempts + [Attempt(client, formats[0])];
      match extract(client, formats[0])
      case Extracted(t) => st.(attempts := tried, title := Some(SanitizeFilename(t)))
      case Failed(msg) =>
        var k := Classify(msg);
        var next := DriveState(tried, st.title, Some(msg), st.blocks + if CountsAsBlock(k) then 1 else 0);
        if LeavesClient(k) then next else RunClient(client, formats[1..], extract, next)
  }

  /** The outer loop: clients in order, stopping once a title was obtained. */
  function RunClients(clients: seq<string>, formats: seq<string>, extract: (string, string) -> Outcome, st: DriveState): DriveState
    decreases |clients|
  {
    if clients == [] || st.title.Some? then st
    else RunClients(clients[1..], formats, extract, RunClient(clients[0], formats, extract, st))
  }

  function Drive(clients: seq<string>, formats: seq<string>, extract: (string, string) -> Outcome): DriveState
  {
    RunClients(clients, formats, extract, Start)
  }

  /**
   * The nested loops of `download_video` (app.py:184-244). The two sleeps
   * after blocked clients only delay the next attempt and are not modelled.
   */
  method TryClientsAndFormats(clients: seq<string>, formats: seq<string>, extract: (string, string) -> Outcome)
    returns (title: Option<string>, lastError: Option<string>, blocks: nat, ghost attempts: seq<Attempt>)
    ensures title == Drive(clients, formats, extract).title
    ensures lastError == Drive(clients, formats, extract).lastError
    ensures blocks == Drive(clients, formats, extract).blocks
    ensures attempts == Drive(clients, formats, extract).attempts
  {
    title, lastError, blocks, attempts := None, None, 0, [];
    var success := false;
    var i := 0;
    while i < |clients|
      invariant 0 <= i <= |clients|
      invariant success <==> title.Some?
      invariant RunClients(clients[i..], formats, extract, DriveState(attempts, title, lastError, blocks))
             == Drive(clients, formats, extract)
    {
      if success {
        break;
      }
      var client := clients[i];
      ghost var before := DriveState(attempts, title, lastError, blocks);
      assert clients[i..][1..] == clients[i + 1..];
      var j := 0;
      while j < |formats|
        invariant 0 <= j <= |formats|
        invariant !success && title.None?
        invariant RunClient(client, formats[j..], extract, DriveState(attempts, title, lastError, blocks))
               == RunClient(client, formats, extract, before)
      {
        var fmt := formats[j];
        assert formats[j..][1..] == formats[j + 1..];
        attempts := attempts + [Attempt(client, fmt)];
        match extract(client, fmt) {
          case Extracted(t) =>
            title := Some(SanitizeFilename(t));
            success := true;
            break;
          case Failed(msg) =>
            lastError := Some(msg);
            var k := Classify(msg);
            if k == JsonBlocked {
              blocks := blocks + 1;
              break;
            } else if k == FormatUnavailable {
              j := j + 1;
              continue;
            } else if k == SignatureProblem {
              break;
            } else if k == BotDetected {
              blocks := blocks + 1;
              break;
            }
        }
        j := j + 1;
      }
      i := i + 1;
    }
  }

  /** How the request fails when no attempt succeeded. */
  datatype DriveError = IpBlocked | Raised(message: string) | NoStrategyWorked

  /** app.py:246-253: two or more blocks win over the last error, which wins over the generic error. */
  function FinalError(blocks: nat, lastError: Option<string>): DriveError
  {
    if blocks >= 2 then IpBlocked
    else if lastError.Some? then Raised(lastError.value)
    else NoStrategyWorked
  }

  // ---------------------------------------------------------------------
  // A reference description of the walk: rows of the client x format grid

  /** The attempts of one client over the given selectors, in order. */
  function Row(client: string, formats: seq<string>): (r: seq<Attempt>)
    ensures |r| == |formats|
  {
    seq(|formats|, k requires 0 <= k < |formats| => Attempt(client, formats[k]))
  }

  /** How many selectors a client gets through before it succeeds, leaves, or runs out. */
  function RowLength(client: string, formats: seq<string>, extract: (string, string) -> Outcome): (n: nat)
    ensures n <= |formats| && (formats != [] ==> n >= 1)
    decreases |formats|
  {
    if formats == [] then 0
    else match extract(client, formats[0])
      case Extracted(_) => 1
      case Failed(msg) => if LeavesClient(Classify(msg)) then 1 else 1 + RowLength(client, formats[1..], extract)
  }

  /** Whether one of the client's selectors succeeds before it leaves. */
  function RowSucceeds(client: string, formats: seq<string>, extract: (string, string) -> Outcome): bool
    decreases |formats|
  {
    formats != [] &&
    match extract(client, formats[0])
      case Extracted(_) => true
      case Failed(msg) => !LeavesClient(Classify(msg)) && RowSucceeds(client, formats[1..], extract)
  }

  /** Whether the client's row ends in a failure that counts as a block. */
  function RowBlocked(client: string, formats: seq<string>, extract: (string, string) -> Outcome): bool
    decreases |formats|
  {
    formats != [] &&
    match extract(client, formats[0])
      case Extracted(_) => false
      case Failed(msg) =>
        if LeavesClient(Classify(msg)) then CountsAsBlock(Classify(msg))
        else RowBlocked(client, formats[1..], extract)
  }

  /** The grid walked client-major: each client's row, up to and including the first row that succeeds. */
  function Walk(clients: seq<string>, formats: seq<string>, extract: (string, string) -> Outcome): seq<Attempt>
    decreases |clients|
  {
    if clients == [] then []
    else
      var n := RowLength(clients[0], formats, extract);
      Row(clients[0], formats[..n]) + if RowSucceeds(clients[0], formats, extract) then [] else Walk(clients[1..], formats, extract)
  }

  /** Number of blocked rows in the walk. */
  function BlockedRows(clients: seq<string>, formats: seq<string>, extract: (string, string) -> Outcome): nat
    decreases |clients|
  {
    if clients == [] || RowSucceeds(clients[0], formats, extract) then 0
    else (if RowBlocked(clients[0], formats, extract) then 1 else 0) + BlockedRows(clients[1..], formats, extract)
  }

  /** Whether some client's row succeeds. */
  function AnyRowSucceeds(clients: seq<string>, formats: seq<string>, extract: (string, string) -> Outcome): bool
    decreases |clients|
  {
    clients != [] && (RowSucceeds(clients[0], formats, extract) || AnyRowSucceeds(clients[1..], formats, extract))
  }

  /** One client's run, described by its row. */
  lemma {:induction false} RunClientIsRow(client: string, formats: seq<string>, extract: (string, string) -> Outcome, st: DriveState)
    requires st.title.None?
    ensures var r := RunClient(client, formats, extract, st);
      && r.attempts == st.attempts + Row(client, formats[..RowLength(client, formats, extract)])
      && (r.title.Some? <==> RowSucceeds(client, formats, extract))
      && r.blocks == st.blocks + (if RowBlocked(client, formats, extract) then 1 else 0)
      && (formats != [] && !RowSucceeds(client, formats, extract) ==> r.lastError.Some?)
      && !(RowSucceeds(client, formats, extract) && RowBlocked(client, formats, extract))
    decreases |formats|
  {
    if formats != [] {
      var a := Attempt(client, formats[0]);
      var n := RowLength(client, formats, extract);
      match extract(client, formats[0])
      case Extracted(t) =>
        assert Row(client, formats[..n]) == [a];
      case Failed(msg) =>
        var k := Classify(msg);
        var next := DriveState(st.attempts + [a], st.title, Some(msg), st.blocks + if CountsAsBlock(k) then 1 else 0);
        if LeavesClient(k) {
          assert Row(client, formats[..n]) == [a];
        } else {
          RunClientIsRow(client, formats[1..], extract, next);
          assert formats[..n] == [formats[0]] + formats[1..][..n - 1];
          assert Row(client, formats[..n]) == [a] + Row(client, formats[1..][..n - 1]);
        }
    }
  }

  /** The whole run, described by the walk. */
  lemma {:induction false} RunClientsIsWalk(clients: seq<string>, formats: seq<string>, extract: (string, string) -> Outcome, st: DriveState)
    requires st.title.None?
    ensures var r := RunClients(clients, formats, extract, st);
      && r.attempts == st.attempts + Walk(clients, formats, extract)
      && (r.title.Some? <==> AnyRowSucceeds(clients, formats, extract))
      && r.blocks == st.blocks + BlockedRows(clients, formats, extract)
      && (clients != [] && formats != [] && r.title.None? ==> r.lastError.Some?)
    decreases |clients|
  {
    if clients != [] {
      var mid := RunClient(clients[0], formats, extract, st);
      RunClientIsRow(clients[0], formats, extract, st);
      if RowSucceeds(clients[0], formats, extract) {
        assert AnyRowSucceeds(clients, formats, extract);
      } else {
        RunClientsIsWalk(clients[1..], formats, extract, mid);
        if formats != [] && clients[1..] == [] {
          assert RunClients(clients[1..], formats, extract, mid) == mid;
        }
        if formats != [] {
          RunClientsKeepsError(clients[1..], formats, extract, mid);
        }
      }
    }
  }

  /** Once recorded, a last error stays recorded. */
  lemma {:induction false} RunClientsKeepsError(clients: seq<string>, formats: seq<string>, extract: (string, string) -> Outcome, st: DriveState)
    requires st.lastError.Some?
    ensures RunClients(clients, formats, extract, st).lastError.Some?
    decreases |clients|
  {
    if clients != [] && st.title.None? {
      RunClientKeepsError(clients[0], formats, extract, st);
      RunClientsKeepsError(clients[1..], formats, extract, RunClient(clients[0], formats, extract, st));
    }
  }

  lemma {:induction false} RunClientKeepsError(client: string, formats: seq<string>, extract: (string, string) -> Outcome, st: DriveState)
    requires st.lastError.Some?
    ensures RunClient(client, formats, extract, st).lastError.Some?
    decreases |formats|
  {
    if formats != [] {
      match extract(client, formats[0])
      case Extracted(_) =>
      case Failed(msg) =>
        var k := Classify(msg);
        var next := DriveState(st.attempts + [Attempt(client, formats[0])], st.title, Some(msg), st.blocks + if CountsAsBlock(k) then 1 else 0);
        if !LeavesClient(k) {
          RunClientKeepsError(client, formats[1..], extract, next);
        }
    }
  }

  /** The driver's attempts are the client-major walk; its block count counts the blocked rows. */
  lemma DriveIsWalk(clients: seq<string>, formats: seq<string>, extract: (string, string) -> Outcome)
    ensures Drive(clients, formats, extract).attempts == Walk(clients, formats, extract)
    ensures Drive(clients, formats, extract).title.Some? <==> AnyRowSucceeds(clients, formats, extract)
    ensures Drive(clients, formats, extract).blocks == BlockedRows(clients, formats, extract)
  {
    RunClientsIsWalk(clients, formats, extract, Start);
    assert Start.attempts + Walk(clients, formats, extract) == Walk(clients, formats, extract);
  }

  predicate Succeeded(a: Attempt, extract: (string, string) -> Outcome)
  {
    extract(a.client, a.format).Extracted?
  }

  /** Within a row every attempt but the last fails; the last succeeds exactly when the row does. */
  lemma {:induction false} RowOutcomes(client: string, formats: seq<string>, extract: (string, string) -> Outcome)
    ensures var row := Row(client, formats[..RowLength(client, formats, extract)]);
      && (forall k :: 0 <= k < |row| - 1 ==> !Succeeded(row[k], extract))
      && (RowSucceeds(client, formats, extract) <==> |row| > 0 && Succeeded(row[|row| - 1], extract))
    decreases |formats|
  {
    if formats != [] {
      var n := RowLength(client, formats, extract);
      var row := Row(client, formats[..n]);
      match extract(client, formats[0])
      case Extracted(_) =>
      case Failed(msg) =>
        if !LeavesClient(Classify(msg)) {
          RowOutcomes(client, formats[1..], extract);
          var rest := Row(client, formats[1..][..n - 1]);
          assert row == [Attempt(client, formats[0])] + rest;
        }
    }
  }

  /** Every attempt of the walk but the last fails; the last succeeds exactly when some row does. */
  lemma {:induction false} WalkOutcomes(clients: seq<string>, formats: seq<string>, extract: (string, string) -> Outcome)
    ensures var w := Walk(clients, formats, extract);
      && (forall k :: 0 <= k < |w| - 1 ==> !Succeeded(w[k], extract))
      && (AnyRowSucceeds(clients, formats, extract) <==> |w| > 0 && Succeeded(w[|w| - 1], extract))
    decreases |clients|
  {
    if clients != [] {
      var w := Walk(clients, formats, extract);
      var row := Row(clients[0], formats[..RowLength(clients[0], formats, extract)]);
      RowOutcomes(clients[0], formats, extract);
      if RowSucceeds(clients[0], formats, extract) {
        assert w == row;
        assert AnyRowSucceeds(clients, formats, extract);
      } else {
        var rest := Walk(clients[1..], formats, extract);
        WalkOutcomes(clients[1..], formats, extract);
        assert w == row + rest;
        assert formats != [] ==> !Succeeded(row[|row| - 1], extract);
        forall k | 0 <= k < |w| - 1
          ensures !Succeeded(w[k], extract)
        {
          if k >= |row| {
            assert w[k] == rest[k - |row|];
          } else {
            assert w[k] == row[k];
          }
        }
        if |rest| > 0 {
          assert w[|w| - 1] == rest[|rest| - 1];
        }
      }
    }
  }

  /**
   * First success wins: the driver reports a title exactly when its last
   * attempt succeeded, every earlier attempt failed, and the title is the
   * sanitized title of that last attempt.
   */
  lemma StopsAtFirstSuccess(clients: seq<string>, formats: seq<string>, extract: (string, string) -> Outcome)
    ensures var d := Drive(clients, formats, extract);
      && (forall k :: 0 <= k < |d.attempts| - 1 ==> !Succeeded(d.attempts[k], extract))
      && (d.title.Some? <==> |d.attempts| > 0 && Succeeded(d.attempts[|d.attempts| - 1], extract))
      && (d.title.Some? ==>
            var last := d.attempts[|d.attempts| - 1];
            d.title.value == SanitizeFilename(extract(last.client, last.format).title))
  {
    DriveIsWalk(clients, formats, extract);
    WalkOutcomes(clients, formats, extract);
    DriveTitle(clients, formats, extract, Start);
  }

  lemma {:induction false} DriveTitle(clients: seq<string>, formats: seq<string>, extract: (string, string) -> Outcome, st: DriveState)
    requires st.title.None?
    ensures var r := RunClients(clients, formats, extract, st);
      r.title.Some? ==> (|r.attempts| > 0 &&
        var last := r.attempts[|r.attempts| - 1];
        extract(last.client, last.format).Extracted?
        && r.title.value == SanitizeFilename(extract(last.client, last.format).title))
    decreases |clients|
  {
    if clients != [] {
      var mid := RunClient(clients[0], formats, extract, st);
      ClientTitle(clients[0], formats, extract, st);
      if mid.title.None? {
        DriveTitle(clients[1..], formats, extract, mid);
      }
    }
  }

  lemma {:induction false} ClientTitle(client: string, formats: seq<string>, extract: (string, string) -> Outcome, st: DriveState)
    requires st.title.None?
    ensures var r := RunClient(client, formats, extract, st);
      r.title.Some? ==> (|r.attempts| > 0 &&
        var last := r.attempts[|r.attempts| - 1];
        extract(last.client, last.format).Extracted?
        && r.title.value == SanitizeFilename(extract(last.client, last.format).title))
    decreases |formats|
  {
    if formats != [] {
      match extract(client, formats[0])
      case Extracted(_) =>
      case Failed(msg) =>
        var k := Classify(msg);
        if !LeavesClient(k) {
          ClientTitle(client, formats[1..], extract,
            DriveState(st.attempts + [Attempt(client, formats[0])], st.title, Some(msg), st.blocks + if CountsAsBlock(k) then 1 else 0));
        }
    }
  }

  /** At most one attempt per grid cell: |clients| x |formats| attempts in all. */
  lemma {:induction false} AttemptBound(clients: seq<string>, formats: seq<string>, extract: (string, string) -> Outcome)
    ensures |Drive(clients, formats, extract).attempts| <= |clients| * |formats|
  {
    DriveIsWalk(clients, formats, extract);
    WalkBound(clients, formats, extract);
  }

  lemma {:induction false} WalkBound(clients: seq<string>, formats: seq<string>, extract: (string, string) -> Outcome)
    ensures |Walk(clients, formats, extract)| <= |clients| * |formats|
    decreases |clients|
  {
    if clients != [] {
      WalkBound(clients[1..], formats, extract);
      assert |clients| * |formats| == |formats| + |clients[1..]| * |formats|;
    }
  }

  /**
   * Exhaustion: when nothing succeeds, every client was tried with the first
   * selector, whatever the block count reached on the way.
   */
  lemma {:induction false} EveryClientTriedOnFailure(clients: seq<string>, formats: seq<string>, extract: (string, string) -> Outcome, i: nat)
    requires formats != [] && i < |clients|
    requires Drive(clients, formats, extract).title.None?
    ensures Attempt(clients[i], formats[0]) in Drive(clients, formats, extract).attempts
  {
    DriveIsWalk(clients, formats, extract);
    WalkHasRowStart(clients, formats, extract, i);
  }

  lemma {:induction false} WalkHasRowStart(clients: seq<string>, formats: seq<string>, extract: (string, string) -> Outcome, i: nat)
    requires formats != [] && i < |clients|
    requires !AnyRowSucceeds(clients, formats, extract)
    ensures Attempt(clients[i], formats[0]) in Walk(clients, formats, extract)
    decreases |clients|
  {
    var row := Row(clients[0], formats[..RowLength(clients[0], formats, extract)]);
    var rest := Walk(clients[1..], formats, extract);
    assert Walk(clients, formats, extract) == row + rest;
    if i == 0 {
      assert row[0] == Attempt(clients[0], formats[0]);
    } else {
      assert clients[1..][i - 1] == clients[i];
      WalkHasRowStart(clients[1..], formats, extract, i - 1);
    }
  }

  /** A block count of at most one per client: blocks never exceed the number of clients. */
  lemma {:induction false} BlocksBound(clients: seq<string>, formats: seq<string>, extract: (string, string) -> Outcome)
    ensures Drive(clients, formats, extract).blocks <= |clients|
  {
    DriveIsWalk(clients, formats, extract);
    BlockedRowsBound(clients, formats, extract);
  }

  lemma {:induction false} BlockedRowsBound(clients: seq<string>, formats: seq<string>, extract: (string, string) -> Outcome)
    ensures BlockedRows(clients, formats, extract) <= |clients|
    decreases |clients|
  {
    if clients != [] {
      BlockedRowsBound(clients[1..], formats, extract);
    }
  }

  /** A client whose first selector fails with a JSON block or a bot check counts one blocked row. */
  predicate BlockedAtFirst(client: string, formats: seq<string>, extract: (string, string) -> Outcome)
  {
    formats != [] && extract(client, formats[0]).Failed? && CountsAsBlock(Classify(extract(client, formats[0]).message))
  }

  /**
   * Two different clients blocked at their first selector, and no success
   * anywhere: the request fails with the IP-block error, never with the raw
   * message.
   */
  lemma TwoBlockedClientsMeanIpBlock(clients: seq<string>, formats: seq<string>, extract: (string, string) -> Outcome, i: nat, j: nat)
    requires i < j < |clients|
    requires BlockedAtFirst(clients[i], formats, extract) && BlockedAtFirst(clients[j], formats, extract)
    requires Drive(clients, formats, extract).title.None?
    ensures var d := Drive(clients, formats, extract); FinalError(d.blocks, d.lastError) == IpBlocked
  {
    DriveIsWalk(clients, formats, extract);
    TwoBlockedRows(clients, formats, extract, i, j);
  }

  lemma {:induction false} TwoBlockedRows(clients: seq<string>, formats: seq<string>, extract: (string, string) -> Outcome, i: nat, j: nat)
    requires i < j < |clients|
    requires BlockedAtFirst(clients[i], formats, extract) && BlockedAtFirst(clients[j], formats, extract)
    requires !AnyRowSucceeds(clients, formats, extract)
    ensures BlockedRows(clients, formats, extract) >= 2
    decreases |clients|
  {
    assert !RowSucceeds(clients[0], formats, extract);
    assert clients[1..][j - 1] == clients[j];
    if i == 0 {
      OneBlockedRow(clients[1..], formats, extract, j - 1);
    } else {
      assert clients[1..][i - 1] == clients[i];
      TwoBlockedRows(clients[1..], formats, extract, i - 1, j - 1);
    }
  }

  lemma {:induction false} OneBlockedRow(clients: seq<string>, formats: seq<string>, extract: (string, string) -> Outcome, i: nat)
    requires i < |clients|
    requires BlockedAtFirst(clients[i], formats, extract)
    requires !AnyRowSucceeds(clients, formats, extract)
    ensures BlockedRows(clients, formats, extract) >= 1
    decreases |clients|
  {
    assert !RowSucceeds(clients[0], formats, extract);
    if i > 0 {
      assert clients[1..][i - 1] == clients[i];
      OneBlockedRow(clients[1..], formats, extract, i - 1);
    }
  }

  /**
   * The generic "no format or client" error needs an empty grid: with at
   * least one client and one selector a failed run always has a last error.
   */
  lemma GenericErrorNeedsEmptyGrid(clients: seq<string>, formats: seq<string>, extract: (string, string) -> Outcome)
    requires clients != [] && formats != []
    requires Drive(clients, formats, extract).title.None?
    ensures var d := Drive(clients, formats, extract); FinalError(d.blocks, d.lastError) != NoStrategyWorked
  {
    RunClientsIsWalk(clients, formats, extract, Start);
  }

  /**
   * A client whose every selector is unavailable is walked to its end, and
   * the next client's first selector is tried right after it.
   */
  lemma UnavailableClientFallsThrough(clients: seq<string>, formats: seq<string>, extract: (string, string) -> Outcome, t: string)
    requires |clients| >= 2 && formats != []
    requires forall k :: 0 <= k < |formats| ==>
      extract(clients[0], formats[k]).Failed? && Classify(extract(clients[0], formats[k]).message) == FormatUnavailable
    requires extract(clients[1], formats[0]) == Extracted(t)
    ensures Drive(clients, formats, extract).attempts == Row(clients[0], formats) + [Attempt(clients[1], formats[0])]
    ensures Drive(clients, formats, extract).title == Some(SanitizeFilename(t))
  {
    DriveIsWalk(clients, formats, extract);
    UnavailableRow(clients[0], formats, extract);
    assert formats[..|formats|] == formats;
    var rest := clients[1..];
    assert rest[0] == clients[1];
    assert Row(rest[0], formats[..RowLength(rest[0], formats, extract)]) == [Attempt(clients[1], formats[0])];
    assert Walk(rest, formats, extract) == [Attempt(clients[1], formats[0])];
    StopsAtFirstSuccess(clients, formats, extract);
  }

  lemma {:induction false} UnavailableRow(client: string, formats: seq<string>, extract: (string, string) -> Outcome)
    requires forall k :: 0 <= k < |formats| ==>
      extract(client, formats[k]).Failed? && Classify(extract(client, formats[k]).message) == FormatUnavailable
    ensures RowLength(client, formats, extract) == |formats|
    ensures !RowSucceeds(client, formats, extract)
    decreases |formats|
  {
    if formats != [] {
      assert extract(client, formats[0]).Failed?;
      UnavailableRow(client, formats[1..], extract);
    }
  }
}
