/**
 * What one download of the batch downloader does to the local file
 * system, and what the retry loop over CDN candidates and attempts does,
 * as functions of the server's replies.
 */
module Fetching {
  import opened Wrappers
  import opened Paths
  import opened Integrity
  import opened Cdn

  /** The outcome of a download, and of a task (`MultimediaOnly` is only a task's). */
  datatype Outcome = Success | Skipped | Failed | MultimediaOnly

  /**
   * The server's reply to a download request: a request error or an error
   * status, or a body with its `Content-Length` (0 when absent, `None` when
   * it is not an integer), the chunks received and whether the stream
   * broke off after them.
   */
  datatype GetReply = Refused | Body(contentLength: Option<int>, chunks: seq<seq<byte>>, cutOff: bool)

  /** The reply to the next download request; a request nobody answers fails. */
  function NextReply(replies: seq<GetReply>): GetReply
  {
    if replies == [] then Refused else replies[0]
  }

  /** The bytes of the chunks, in order. */
  function Flatten(chunks: seq<seq<byte>>): seq<byte>
  {
    if chunks == [] then [] else Flatten(chunks[..|chunks| - 1]) + chunks[|chunks| - 1]
  }

  /** The local files and the replies still to come from the server. */
  datatype Net = Net(fs: FileSystem, heads: seq<HeadReply>, replies: seq<GetReply>)

  /**
   * The part of `download_file` after the existence check: the body goes
   * to the `.tmp` sibling, which is renamed over the target only when the
   * stream ended and its length agrees with a positive `Content-Length`.
   */
  function Fetch(fs: FileSystem, save: Path, reply: GetReply): (Outcome, FileSystem)
  {
    match reply
    case Refused => (Failed, fs)
    case Body(contentLength, chunks, cutOff) =>
      if contentLength.None? || Name(save) == "" then (Failed, fs)
      else
        var temp := TempPath(save);
        var data := Flatten(chunks);
        var fs1 := fs[temp := data];
        if cutOff then (Failed, fs1)
        else if contentLength.value > 0 && |data| != contentLength.value then (Failed, Unlink(fs1, temp))
        else (Success, Rename(fs1, temp, save))
  }

  /** `download_file(url, save_path, task_id)` with the integrity checker in `mode`. */
  function DownloadFileSpec(mode: Mode, net: Net, url: string, save: Path): (r: (Outcome, Net))
    ensures r.0 != MultimediaOnly
  {
    var verdict := FileVerdict(mode, net.fs, save, url, NextHead(net.heads));
    var heads := if UsesHead(mode, net.fs, save, url) then Rest(net.heads) else net.heads;
    if save in net.fs && verdict.complete then (Skipped, net.(heads := heads))
    else if verdict.reason == BadRemoteLength then (Failed, net.(heads := heads))
    else
      var (outcome, fs) := Fetch(net.fs, save, NextReply(net.replies));
      (outcome, Net(fs, heads, Rest(net.replies)))
  }

  /** A complete file is not downloaded again: nothing changes and no download request is made. */
  lemma DownloadSkipsComplete(mode: Mode, net: Net, url: string, save: Path)
    requires save in net.fs && FileVerdict(mode, net.fs, save, url, NextHead(net.heads)).complete
    ensures var (o, net') := DownloadFileSpec(mode, net, url, save);
            o == Skipped && net'.fs == net.fs && net'.replies == net.replies
  {
  }

  /**
   * A HEAD reply whose length is not an integer makes the download fail
   * before any download request: nothing changes but the HEAD reply used.
   */
  lemma DownloadBadHeadLength(mode: Mode, net: Net, url: string, save: Path)
    requires UsesHead(mode, net.fs, save, url) && NextHead(net.heads) == HeadBadLength
    ensures DownloadFileSpec(mode, net, url, save) == (Failed, net.(heads := Rest(net.heads)))
  {
  }

  /**
   * A target without a name (the root, or an empty path) has no `.tmp`
   * sibling: a download that is not skipped fails and writes nothing.
   */
  lemma DownloadNameless(mode: Mode, net: Net, url: string, save: Path)
    requires Name(save) == ""
    ensures var (o, net') := DownloadFileSpec(mode, net, url, save);
            o != Success && net'.fs == net.fs
  {
  }

  /**
   * A successful download stores exactly the bytes received at the target,
   * their number equal to a positive `Content-Length`, and removes the
   * temporary file.
   */
  lemma DownloadSuccess(mode: Mode, net: Net, url: string, save: Path)
    requires DownloadFileSpec(mode, net, url, save).0 == Success
    ensures var net' := DownloadFileSpec(mode, net, url, save).1;
            var reply := NextReply(net.replies);
            && reply.Body? && reply.contentLength.Some? && !reply.cutOff && Name(save) != ""
            && save in net'.fs && net'.fs[save] == Flatten(reply.chunks)
            && (reply.contentLength.value > 0 ==> |net'.fs[save]| == reply.contentLength.value)
            && (TempPath(save) != save ==> TempPath(save) !in net'.fs)
  {
  }

  /**
   * Whether `download_file` gets as far as its download request: the
   * target is missing or incomplete, and the integrity check did not raise.
   */
  predicate Requests(mode: Mode, net: Net, url: string, save: Path)
  {
    var verdict := FileVerdict(mode, net.fs, save, url, NextHead(net.heads));
    !(save in net.fs && verdict.complete) && verdict.reason != BadRemoteLength
  }

  /**
   * A download either makes its request, and then does what `Fetch` does
   * with the next reply, or changes no file and uses no download reply.
   */
  lemma DownloadRequests(mode: Mode, net: Net, url: string, save: Path)
    ensures var (o, net') := DownloadFileSpec(mode, net, url, save);
            var heads := if UsesHead(mode, net.fs, save, url) then Rest(net.heads) else net.heads;
            && net'.heads == heads
            && (Requests(mode, net, url, save) ==>
                  (o, net'.fs) == Fetch(net.fs, save, NextReply(net.replies)) && net'.replies == Rest(net.replies))
            && (!Requests(mode, net, url, save) ==> o != Success && net'.fs == net.fs && net'.replies == net.replies)
  {
  }

  /**
   * A fetch that is not a success leaves the target as it was (unless the
   * target itself has the `.tmp` suffix); a broken-off stream leaves the
   * partial body in the temporary file, a body of the wrong length is deleted.
   */
  lemma FetchFailure(fs: FileSystem, save: Path, reply: GetReply)
    requires Name(save) != "" && Suffix(Name(save)) != ".tmp"
    requires Fetch(fs, save, reply).0 != Success
    ensures var fs' := Fetch(fs, save, reply).1;
            var temp := TempPath(save);
            && Lookup(fs', save) == Lookup(fs, save)
            && (reply.Body? && reply.contentLength.Some? && reply.cutOff ==> temp in fs' && fs'[temp] == Flatten(reply.chunks))
            && (reply.Body? && reply.contentLength.Some? && !reply.cutOff
                && reply.contentLength.value > 0 && |Flatten(reply.chunks)| != reply.contentLength.value ==>
                  temp !in fs')
  {
    TempPathDiffers(save);
  }

  /**
   * A download that is not a success leaves the target as it was (unless
   * the target itself has the `.tmp` suffix); once its request is made, a
   * broken-off stream leaves the partial body in the temporary file and a
   * body of the wrong length is deleted.
   */
  lemma DownloadFailure(mode: Mode, net: Net, url: string, save: Path)
    requires Name(save) != "" && Suffix(Name(save)) != ".tmp"
    requires DownloadFileSpec(mode, net, url, save).0 != Success
    ensures var net' := DownloadFileSpec(mode, net, url, save).1;
            var reply := NextReply(net.replies);
            var temp := TempPath(save);
            && Lookup(net'.fs, save) == Lookup(net.fs, save)
            && (Requests(mode, net, url, save) && reply.Body? && reply.contentLength.Some? && reply.cutOff ==>
                  temp in net'.fs && net'.fs[temp] == Flatten(reply.chunks))
            && (Requests(mode, net, url, save) && reply.Body? && reply.contentLength.Some? && !reply.cutOff
                && reply.contentLength.value > 0 && |Flatten(reply.chunks)| != reply.contentLength.value ==>
                  temp !in net'.fs)
  {
    DownloadRequests(mode, net, url, save);
    if Requests(mode, net, url, save) {
      FetchFailure(net.fs, save, NextReply(net.replies));
    }
  }

  /** The files a download to `save` may change: the target and its temporary sibling, none when it has no name. */
  function Touched(save: Path): set<Path>
  {
    if Name(save) == "" then {} else {save, TempPath(save)}
  }

  /** A fetch touches no file but the target and the target's temporary sibling. */
  lemma FetchFrame(fs: FileSystem, save: Path, reply: GetReply)
    ensures SameExcept(fs, Fetch(fs, save, reply).1, Touched(save))
  {
  }

  /**
   * A download touches no file but its target and the target's temporary
   * sibling, and uses at most one HEAD reply and one download reply.
   */
  lemma DownloadFrame(mode: Mode, net: Net, url: string, save: Path)
    ensures var net' := DownloadFileSpec(mode, net, url, save).1;
            && SameExcept(net.fs, net'.fs, Touched(save))
            && |net.heads| <= |net'.heads| + 1 && |net.replies| <= |net'.replies| + 1
  {
    DownloadRequests(mode, net, url, save);
    FetchFrame(net.fs, save, NextReply(net.replies));
  }

  /** The outcome of the retry loop: how many retries it counted and whether it switched CDN. */
  datatype RetryRun = RetryRun(outcome: Outcome, net: Net, retries: nat, switched: bool)

  /** `max_retries`: three attempts per candidate with retrying enabled, one without. */
  function MaxRetries(enableRetry: bool): nat
  {
    if enableRetry then 3 else 1
  }

  /**
   * Attempts `a` to `m - 1` on candidate `u`; a retry is counted for each
   * attempt after the first, and a CDN switch when `u` is not the original URL.
   */
  function TryCandidate(mode: Mode, enableRetry: bool, net: Net, url: string, save: Path, u: string, a: nat, m: nat): (r: RetryRun)
    ensures r.outcome != MultimediaOnly
    decreases m - a
  {
    if a >= m then RetryRun(Failed, net, 0, false)
    else
      var retry := if a > 0 && enableRetry then 1 else 0;
      var (o, net1) := DownloadFileSpec(mode, net, u, save);
      if o != Failed then RetryRun(o, net1, retry, u != url)
      else
        var r := TryCandidate(mode, enableRetry, net1, url, save, u, a + 1, m);
        r.(retries := r.retries + retry)
  }

  /** `r` with `k` more retries counted. */
  function MoreRetries(r: RetryRun, k: nat): RetryRun
  {
    r.(retries := r.retries + k)
  }

  /** One attempt on a candidate, then the remaining ones if it fails. */
  lemma TryCandidateStep(mode: Mode, enableRetry: bool, net: Net, url: string, save: Path, u: string, a: nat, m: nat,
                         o: Outcome, net1: Net)
    requires a < m && (o, net1) == DownloadFileSpec(mode, net, u, save)
    ensures var retry := if a > 0 && enableRetry then 1 else 0;
            TryCandidate(mode, enableRetry, net, url, save, u, a, m)
            == if o != Failed then RetryRun(o, net1, retry, u != url)
               else MoreRetries(TryCandidate(mode, enableRetry, net1, url, save, u, a + 1, m), retry)
  {
  }

  /** The candidates in order, each with all its attempts, until one succeeds or is skipped. */
  function TryAll(mode: Mode, enableRetry: bool, net: Net, url: string, save: Path, cands: seq<string>, m: nat): (r: RetryRun)
    ensures r.outcome != MultimediaOnly
    decreases |cands|
  {
    if cands == [] then RetryRun(Failed, net, 0, false)
    else
      var r := TryCandidate(mode, enableRetry, net, url, save, cands[0], 0, m);
      if r.outcome != Failed then r
      else
        var r2 := TryAll(mode, enableRetry, r.net, url, save, cands[1..], m);
        r2.(retries := r2.retries + r.retries)
  }

  /** One candidate of the list, from index `i`: its attempts, then the rest of the list if they fail. */
  lemma TryAllAt(mode: Mode, enableRetry: bool, net: Net, url: string, save: Path, cands: seq<string>, i: nat, m: nat)
    requires i < |cands|
    ensures var r := TryCandidate(mode, enableRetry, net, url, save, cands[i], 0, m);
            var r2 := TryAll(mode, enableRetry, r.net, url, save, cands[i + 1..], m);
            TryAll(mode, enableRetry, net, url, save, cands[i..], m)
            == if r.outcome != Failed then r else r2.(retries := r2.retries + r.retries)
  {
    assert cands[i..][0] == cands[i] && cands[i..][1..] == cands[i + 1..];
  }

  /** `download_file_with_retry(url, save_path, task_id)` */
  function RetrySpec(mode: Mode, enableRetry: bool, net: Net, url: string, save: Path): (r: RetryRun)
    ensures r.outcome != MultimediaOnly
  {
    TryAll(mode, enableRetry, net, url, save, CdnCandidates(url), MaxRetries(enableRetry))
  }

  /** Failing attempts neither switch CDN nor count more than `m - a - 1` retries. */
  lemma {:induction false} TryCandidateCounts(mode: Mode, enableRetry: bool, net: Net, url: string, save: Path, u: string, a: nat, m: nat)
    ensures var r := TryCandidate(mode, enableRetry, net, url, save, u, a, m);
            && (r.switched ==> r.outcome != Failed && u != url)
            && (!enableRetry ==> r.retries == 0)
            && r.retries <= (if m > a then m - a - (if a == 0 then 1 else 0) else 0)
    decreases m - a
  {
    if a < m {
      var (o, net1) := DownloadFileSpec(mode, net, u, save);
      if o == Failed {
        TryCandidateCounts(mode, enableRetry, net1, url, save, u, a + 1, m);
      }
    }
  }

  /** `n` times `k`, as a sum. */
  function Budget(n: nat, k: nat): nat
  {
    if n == 0 then 0 else Budget(n - 1, k) + k
  }

  /** Only a download that succeeded or was skipped switches CDN; retries stay below one per extra attempt. */
  lemma {:induction false} TryAllCounts(mode: Mode, enableRetry: bool, net: Net, url: string, save: Path, cands: seq<string>, m: nat)
    requires m >= 1
    ensures var r := TryAll(mode, enableRetry, net, url, save, cands, m);
            && (r.switched ==> r.outcome != Failed)
            && (!enableRetry ==> r.retries == 0)
            && r.retries <= Budget(|cands|, m - 1)
    decreases |cands|
  {
    if cands != [] {
      var r := TryCandidate(mode, enableRetry, net, url, save, cands[0], 0, m);
      TryCandidateCounts(mode, enableRetry, net, url, save, cands[0], 0, m);
      if r.outcome == Failed {
        TryAllCounts(mode, enableRetry, r.net, url, save, cands[1..], m);
      }
    }
  }

  /** `n` times `k`. */
  lemma {:induction false} BudgetProduct(n: nat, k: nat)
    ensures Budget(n, k) == n * k
  {
    if n > 0 {
      BudgetProduct(n - 1, k);
    }
  }

  /** Attempts `a` to `m - 1` on one candidate make at most `m - a` downloads, each using at most one reply of each kind. */
  lemma {:induction false} TryCandidateReplies(mode: Mode, enableRetry: bool, net: Net, url: string, save: Path, u: string, a: nat, m: nat)
    ensures var r := TryCandidate(mode, enableRetry, net, url, save, u, a, m);
            var k := if m > a then m - a else 0;
            |net.replies| <= |r.net.replies| + k && |net.heads| <= |r.net.heads| + k
    decreases m - a
  {
    if a < m {
      var (o, net1) := DownloadFileSpec(mode, net, u, save);
      DownloadFrame(mode, net, u, save);
      if o == Failed {
        TryCandidateReplies(mode, enableRetry, net1, url, save, u, a + 1, m);
      }
    }
  }

  lemma {:induction false} TryAllReplies(mode: Mode, enableRetry: bool, net: Net, url: string, save: Path, cands: seq<string>, m: nat)
    ensures var r := TryAll(mode, enableRetry, net, url, save, cands, m);
            |net.replies| <= |r.net.replies| + Budget(|cands|, m) && |net.heads| <= |r.net.heads| + Budget(|cands|, m)
    decreases |cands|
  {
    if cands != [] {
      var r := TryCandidate(mode, enableRetry, net, url, save, cands[0], 0, m);
      TryCandidateReplies(mode, enableRetry, net, url, save, cands[0], 0, m);
      if r.outcome == Failed {
        TryAllReplies(mode, enableRetry, r.net, url, save, cands[1..], m);
      }
    }
  }

  /**
   * `download_file_with_retry` calls `download_file` at most
   * `max_retries` times per candidate URL, so it uses at most that many
   * download replies and HEAD replies: nine with retrying, three without.
   */
  lemma RetryAttempts(mode: Mode, enableRetry: bool, net: Net, url: string, save: Path)
    ensures var r := RetrySpec(mode, enableRetry, net, url, save);
            var bound := |CdnCandidates(url)| * MaxRetries(enableRetry);
            && |net.replies| - |r.net.replies| <= bound && |net.heads| - |r.net.heads| <= bound
            && bound <= (if enableRetry then 9 else 3)
  {
    var cands := CdnCandidates(url);
    CandidateCount(url);
    TryAllReplies(mode, enableRetry, net, url, save, cands, MaxRetries(enableRetry));
    BudgetProduct(|cands|, MaxRetries(enableRetry));
  }

  /** There is one candidate, or three when the URL names a CDN node. */
  lemma CandidateCount(url: string)
    ensures |CdnCandidates(url)| <= 3
  {
    if AnyNodeIn(url) {
      CandidatesWithNode(url);
    }
  }

  lemma {:induction false} BudgetMonotone(n: nat, n': nat, k: nat)
    requires n <= n' && k <= 2
    ensures Budget(n, k) <= Budget(n', 2)
    decreases n'
  {
    if n < n' {
      BudgetMonotone(n, n' - 1, k);
    } else if n > 0 {
      BudgetMonotone(n - 1, n' - 1, k);
    }
  }

  /**
   * With retrying enabled at most six retries are counted for a URL, and
   * none without; a CDN switch is counted only for a download that
   * succeeded or was skipped.
   */
  lemma RetryCounts(mode: Mode, enableRetry: bool, net: Net, url: string, save: Path)
    ensures var r := RetrySpec(mode, enableRetry, net, url, save);
            && (r.switched ==> r.outcome != Failed)
            && (!enableRetry ==> r.retries == 0)
            && r.retries <= 6
  {
    var cands := CdnCandidates(url);
    CandidateCount(url);
    TryAllCounts(mode, enableRetry, net, url, save, cands, MaxRetries(enableRetry));
    BudgetMonotone(|cands|, 3, MaxRetries(enableRetry) - 1);
    assert Budget(3, 2) == 6;
  }

  /** Attempts on one candidate keep the target unless one succeeds, and touch only it and its temporary sibling. */
  lemma {:induction false} TryCandidateKeeps(mode: Mode, enableRetry: bool, net: Net, url: string, save: Path, u: string, a: nat, m: nat)
    requires Suffix(Name(save)) != ".tmp"
    ensures var r := TryCandidate(mode, enableRetry, net, url, save, u, a, m);
            && (r.outcome != Success ==> Lookup(r.net.fs, save) == Lookup(net.fs, save))
            && SameExcept(net.fs, r.net.fs, Touched(save))
    decreases m - a
  {
    if a < m {
      var (o, net1) := DownloadFileSpec(mode, net, u, save);
      DownloadFrame(mode, net, u, save);
      if o != Success && Name(save) != "" {
        DownloadFailure(mode, net, u, save);
      }
      if o == Failed {
        TryCandidateKeeps(mode, enableRetry, net1, url, save, u, a + 1, m);
      }
    }
  }

  lemma {:induction false} TryAllKeeps(mode: Mode, enableRetry: bool, net: Net, url: string, save: Path, cands: seq<string>, m: nat)
    requires Suffix(Name(save)) != ".tmp"
    ensures var r := TryAll(mode, enableRetry, net, url, save, cands, m);
            && (r.outcome != Success ==> Lookup(r.net.fs, save) == Lookup(net.fs, save))
            && SameExcept(net.fs, r.net.fs, Touched(save))
    decreases |cands|
  {
    if cands != [] {
      var r := TryCandidate(mode, enableRetry, net, url, save, cands[0], 0, m);
      TryCandidateKeeps(mode, enableRetry, net, url, save, cands[0], 0, m);
      if r.outcome == Failed {
        TryAllKeeps(mode, enableRetry, r.net, url, save, cands[1..], m);
      }
    }
  }

  /**
   * However many candidates and attempts it takes, a download with retries
   * changes no file but its target and the target's temporary sibling, and
   * leaves the target as it was unless it ends in a success.
   */
  lemma RetryKeeps(mode: Mode, enableRetry: bool, net: Net, url: string, save: Path)
    requires Suffix(Name(save)) != ".tmp"
    ensures var r := RetrySpec(mode, enableRetry, net, url, save);
            && (r.outcome != Success ==> Lookup(r.net.fs, save) == Lookup(net.fs, save))
            && SameExcept(net.fs, r.net.fs, Touched(save))
  {
    TryAllKeeps(mode, enableRetry, net, url, save, CdnCandidates(url), MaxRetries(enableRetry));
  }

  lemma {:induction false} TryCandidateFrame(mode: Mode, enableRetry: bool, net: Net, url: string, save: Path, u: string, a: nat, m: nat)
    ensures SameExcept(net.fs, TryCandidate(mode, enableRetry, net, url, save, u, a, m).net.fs, Touched(save))
    decreases m - a
  {
    if a < m {
      var (o, net1) := DownloadFileSpec(mode, net, u, save);
      DownloadFrame(mode, net, u, save);
      if o == Failed {
        TryCandidateFrame(mode, enableRetry, net1, url, save, u, a + 1, m);
      }
    }
  }

  lemma {:induction false} TryAllFrame(mode: Mode, enableRetry: bool, net: Net, url: string, save: Path, cands: seq<string>, m: nat)
    ensures SameExcept(net.fs, TryAll(mode, enableRetry, net, url, save, cands, m).net.fs, Touched(save))
    decreases |cands|
  {
    if cands != [] {
      var r := TryCandidate(mode, enableRetry, net, url, save, cands[0], 0, m);
      TryCandidateFrame(mode, enableRetry, net, url, save, cands[0], 0, m);
      if r.outcome == Failed {
        TryAllFrame(mode, enableRetry, r.net, url, save, cands[1..], m);
      }
    }
  }

  /** Whatever the target's name, a download with retries changes no file but the target and its temporary sibling. */
  lemma RetryFrame(mode: Mode, enableRetry: bool, net: Net, url: string, save: Path)
    ensures SameExcept(net.fs, RetrySpec(mode, enableRetry, net, url, save).net.fs, Touched(save))
  {
    TryAllFrame(mode, enableRetry, net, url, save, CdnCandidates(url), MaxRetries(enableRetry));
  }

  /** A download that succeeds or is skipped leaves a file at its target. */
  lemma {:induction false} TryCandidateDone(mode: Mode, enableRetry: bool, net: Net, url: string, save: Path, u: string, a: nat, m: nat)
    ensures var r := TryCandidate(mode, enableRetry, net, url, save, u, a, m);
            r.outcome != Failed ==> save in r.net.fs
    decreases m - a
  {
    if a < m {
      var (o, net1) := DownloadFileSpec(mode, net, u, save);
      if o == Failed {
        TryCandidateDone(mode, enableRetry, net1, url, save, u, a + 1, m);
      }
    }
  }

  lemma {:induction false} TryAllDone(mode: Mode, enableRetry: bool, net: Net, url: string, save: Path, cands: seq<string>, m: nat)
    ensures var r := TryAll(mode, enableRetry, net, url, save, cands, m);
            r.outcome != Failed ==> save in r.net.fs
    decreases |cands|
  {
    if cands != [] {
      var r := TryCandidate(mode, enableRetry, net, url, save, cands[0], 0, m);
      TryCandidateDone(mode, enableRetry, net, url, save, cands[0], 0, m);
      if r.outcome == Failed {
        TryAllDone(mode, enableRetry, r.net, url, save, cands[1..], m);
      }
    }
  }

  /** A download with retries that does not fail leaves a file at its target. */
  lemma RetryDone(mode: Mode, enableRetry: bool, net: Net, url: string, save: Path)
    ensures var r := RetrySpec(mode, enableRetry, net, url, save);
            r.outcome != Failed ==> save in r.net.fs
  {
    TryAllDone(mode, enableRetry, net, url, save, CdnCandidates(url), MaxRetries(enableRetry));
  }
}
