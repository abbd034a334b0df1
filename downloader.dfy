/**
 * The batch downloader: its counters, failure and multimedia records, and
 * the steps that take a task from its save path to a downloaded PDF and
 * the multimedia beside it. The server is given by its answers: metadata
 * by URL, and the replies to HEAD and download requests in the order the
 * requests are made.
 */
module Downloader {
  import opened Strings
  import opened Wrappers
  import opened Paths
  import opened Integrity
  import opened Cdn
  import opened Fetching
  import opened Resources
  import opened Tasks
  import opened Selection
  import opened Sequences

  /** The `stats` dictionary, without its start and end times. */
  datatype Stats = Stats(
    total: nat, success: nat, failed: nat, skipped: nat, multimedia: nat,
    videosDownloaded: nat, videosSkippedDrm: nat, audiosDownloaded: nat,
    retryCount: nat, cdnSwitchCount: nat)

  const ZeroStats := Stats(0, 0, 0, 0, 0, 0, 0, 0, 0, 0)

  /** The counter `download_batch` raises for the outcome of one task. */
  function StatsBump(s: Stats, o: Outcome): (r: Stats)
    ensures r.success == s.success + (if o == Success then 1 else 0)
    ensures r.failed == s.failed + (if o == Failed then 1 else 0)
    ensures r.skipped == s.skipped + (if o == Skipped then 1 else 0)
    ensures r.multimedia == s.multimedia + (if o == MultimediaOnly then 1 else 0)
    ensures r.total == s.total
  {
    match o
    case Success => s.(success := s.success + 1)
    case Failed => s.(failed := s.failed + 1)
    case Skipped => s.(skipped := s.skipped + 1)
    case MultimediaOnly => s.(multimedia := s.multimedia + 1)
  }

  /** The counters of task outcomes are the same in both. */
  predicate SameTaskCounts(s: Stats, s': Stats)
  {
    s'.total == s.total && s'.success == s.success && s'.failed == s.failed
    && s'.skipped == s.skipped && s'.multimedia == s.multimedia
  }

  /** The `error` of a failure record; `Crashed` is the exception of a task without a save path. */
  datatype FailReason = NoPdfUrl | DownloadFailed | Crashed

  /** An entry of `failed_tasks`; `pdfUrl` is `""` where the record has none. */
  datatype FailedTask = FailedTask(task: Task, error: FailReason, pdfUrl: string)

  /** An entry of `multimedia_resources`. */
  datatype MediaRecord = MediaRecord(task: Task, media: Media)

  /** `is_thematic_course(task)` */
  predicate IsThematicCourse(t: Task)
  {
    Contains(t.pageUrl, "contentType=thematic_course")
  }

  /** The resource list URL `get_thematic_resources` requests. */
  function ThematicListUrl(contentId: string): string
  {
    "https://s-file-1.ykt.cbern.com.cn/zxx/ndrs/special_edu/thematic_course/" + contentId + "/resources/list.json"
  }

  /** Some multimedia record belongs to a task with this id. */
  predicate HasRecordFor(records: seq<MediaRecord>, id: string)
  {
    exists i :: 0 <= i < |records| && records[i].task.id == id
  }

  /** The videos marked DRM-protected. */
  function CountDrm(videos: seq<Video>): nat
  {
    if videos == [] then 0
    else CountDrm(videos[..|videos| - 1]) + (if videos[|videos| - 1].hasDrm then 1 else 0)
  }

  /** The videos that are downloaded: MP4s without DRM. */
  function CountMp4(videos: seq<Video>): nat
  {
    if videos == [] then 0
    else
      var v := videos[|videos| - 1];
      CountMp4(videos[..|videos| - 1]) + (if !v.hasDrm && v.format == "mp4" then 1 else 0)
  }

  /** A video is downloaded when it has no DRM and is an MP4. */
  predicate Fetchable(v: Video)
  {
    !v.hasDrm && v.format == "mp4"
  }

  /** Where the video numbered `index` of a task is saved. */
  function VideoPath(outputDir: Path, savePath: Path, v: Video, index: nat): Path
    requires savePath != []
  {
    MultimediaSavePath(outputDir, savePath, "assets_video", MediaInfo(v.title, "", v.format), index)
  }

  /** Where the audio numbered `index` of a task is saved. */
  function AudioPath(outputDir: Path, savePath: Path, a: Audio, index: nat): Path
    requires savePath != []
  {
    MultimediaSavePath(outputDir, savePath, "assets_audio", MediaInfo(a.title, a.hotzoneNumber, a.format), index)
  }

  /** The files the first `k` videos of a task may change: the target and temporary file of each fetchable one. */
  function VideoFiles(outputDir: Path, savePath: Path, videos: seq<Video>, k: nat): set<Path>
    requires savePath != [] && k <= |videos|
  {
    if k == 0 then {}
    else
      VideoFiles(outputDir, savePath, videos, k - 1)
        + (if Fetchable(videos[k - 1]) then Touched(VideoPath(outputDir, savePath, videos[k - 1], k)) else {})
  }

  /** The files the first `k` audios of a task may change: the target and temporary file of each. */
  function AudioFiles(outputDir: Path, savePath: Path, audios: seq<Audio>, k: nat): set<Path>
    requires savePath != [] && k <= |audios|
  {
    if k == 0 then {}
    else AudioFiles(outputDir, savePath, audios, k - 1) + Touched(AudioPath(outputDir, savePath, audios[k - 1], k))
  }

  /** Changes outside `a`, then outside `b`, are changes outside both. */
  lemma SameExceptTrans(fs: FileSystem, fs1: FileSystem, fs2: FileSystem, a: set<Path>, b: set<Path>)
    requires SameExcept(fs, fs1, a) && SameExcept(fs1, fs2, b)
    ensures SameExcept(fs, fs2, a + b)
  {
  }

  /** The tasks of failure records, `[item["task"] for item in failed_data]`. */
  function TasksOf(records: seq<FailedTask>): (r: seq<Task>)
    ensures |r| == |records| && forall i :: 0 <= i < |r| ==> r[i] == records[i].task
  {
    if records == [] then [] else TasksOf(records[..|records| - 1]) + [records[|records| - 1].task]
  }

  /** The tasks whose outcome is `Failed`, in order. */
  function FailedOf(ts: seq<Task>, rs: seq<Outcome>): seq<Task>
    requires |ts| == |rs|
  {
    if ts == [] then []
    else FailedOf(ts[..|ts| - 1], rs[..|rs| - 1]) + (if rs[|rs| - 1] == Failed then [ts[|ts| - 1]] else [])
  }

  /** How many outcomes are `o`. */
  function Count(rs: seq<Outcome>, o: Outcome): nat
  {
    if rs == [] then 0 else Count(rs[..|rs| - 1], o) + (if rs[|rs| - 1] == o then 1 else 0)
  }

  /** `after` is `before` with one more failure record, for task `t`. */
  predicate OneFailureFor(before: seq<FailedTask>, after: seq<FailedTask>, t: Task)
  {
    |after| == |before| + 1 && after[..|before|] == before && after[|before|].task == t
  }

  lemma AppendFailure(before: seq<FailedTask>, rec: FailedTask)
    ensures OneFailureFor(before, before + [rec], rec.task)
  {
    assert (before + [rec])[..|before|] == before;
  }

  lemma CountStep(rs: seq<Outcome>, r: Outcome, o: Outcome)
    ensures Count(rs + [r], o) == Count(rs, o) + (if r == o then 1 else 0)
  {
    assert (rs + [r])[..|rs|] == rs;
  }

  /** The failure records of a batch after one more task: one more record exactly when it failed. */
  lemma BatchFailedStep(o: seq<FailedTask>, before: seq<FailedTask>, after: seq<FailedTask>,
                        batch: seq<Task>, k: nat, results: seq<Outcome>, r: Outcome)
    requires k < |batch| && |results| == k
    requires |before| >= |o| && before[..|o|] == o
    requires TasksOf(before[|o|..]) == FailedOf(batch[..k], results)
    requires r == Failed ==> OneFailureFor(before, after, batch[k])
    requires r != Failed ==> after == before
    ensures |after| >= |o| && after[..|o|] == o
    ensures TasksOf(after[|o|..]) == FailedOf(batch[..k + 1], results + [r])
  {
    var n := |o|;
    assert batch[..k + 1][..k] == batch[..k] && batch[..k + 1][k] == batch[k];
    assert (results + [r])[..k] == results && (results + [r])[k] == r;
    if r == Failed {
      assert after[..n] == before[..n];
      assert after[n..] == before[n..] + [after[|before|]];
      assert TasksOf(after[n..]) == TasksOf(before[n..]) + [batch[k]];
    }
  }

  /** `IntegratedBatchDownloader` */
  class BatchDownloader {
    const outputDir: Path
    const enableMultimedia: bool
    const enableRetry: bool
    const integrityMode: Mode
    const checker: IntegrityChecker
    /** Textbook details by `api_url`; a URL that is not a key cannot be fetched or parsed. */
    const details: map<string, seq<DetailItem>>
    /** Hot-zone data by URL. */
    const hotZones: map<string, HotZoneData>
    /** Thematic resource lists by URL. */
    const thematicLists: map<string, seq<ThematicResource>>
    /** HLS playlists by URL. */
    const playlists: map<string, string>

    var fs: FileSystem
    /** The replies to the download requests still to be made. */
    var replies: seq<GetReply>
    var stats: Stats
    var failedTasks: seq<FailedTask>
    var multimediaRecords: seq<MediaRecord>
    /** The session's `Referer` header. */
    var referer: string
    var tasks: seq<Task>

    predicate Valid()
      reads this, checker
    {
      checker.mode == integrityMode
    }

    function NetState(): Net
      reads this, checker
    {
      Net(fs, checker.heads, replies)
    }

    /** The output directory defaults to `教材库`. */
    constructor (outputDir: string, enableMultimedia: bool, enableRetry: bool, integrityMode: Mode,
                 details: map<string, seq<DetailItem>>, hotZones: map<string, HotZoneData>,
                 thematicLists: map<string, seq<ThematicResource>>, playlists: map<string, string>,
                 fs: FileSystem, heads: seq<HeadReply>, replies: seq<GetReply>)
      ensures Valid() && fresh(checker)
      ensures this.outputDir == Parts(if outputDir == "" then LibraryRoot else outputDir)
      ensures this.enableMultimedia == enableMultimedia && this.enableRetry == enableRetry
      ensures this.integrityMode == integrityMode && checker.heads == heads
      ensures this.details == details && this.hotZones == hotZones
      ensures this.thematicLists == thematicLists && this.playlists == playlists
      ensures this.fs == fs && this.replies == replies && stats == ZeroStats
      ensures failedTasks == [] && multimediaRecords == [] && tasks == [] && referer == ""
    {
      this.outputDir := Parts(if outputDir == "" then LibraryRoot else outputDir);
      this.enableMultimedia := enableMultimedia;
      this.enableRetry := enableRetry;
      this.integrityMode := integrityMode;
      checker := new IntegrityChecker(integrityMode, heads);
      this.details := details;
      this.hotZones := hotZones;
      this.thematicLists := thematicLists;
      this.playlists := playlists;
      this.fs := fs;
      this.replies := replies;
      stats := ZeroStats;
      failedTasks := [];
      multimediaRecords := [];
      referer := "";
      tasks := [];
    }

    /** `load_tasks`: the task file's tasks, or in retry mode the tasks of the failure records. */
    method LoadTasks(retryFailed: bool, fileTasks: seq<Task>, failedData: seq<FailedTask>)
      modifies this
      ensures tasks == if retryFailed then TasksOf(failedData) else fileTasks
      ensures stats == old(stats).(total := |tasks|)
      ensures fs == old(fs) && replies == old(replies) && failedTasks == old(failedTasks)
      ensures multimediaRecords == old(multimediaRecords) && referer == old(referer)
    {
      if retryFailed {
        tasks := TasksOf(failedData);
      } else {
        tasks := fileTasks;
      }
      stats := stats.(total := |tasks|);
    }

    /** Writes the non-empty chunks of a body to a freshly truncated file, counting the bytes. */
    method WriteChunks(tempPath: Path, chunks: seq<seq<byte>>) returns (downloaded: nat)
      modifies this
      ensures fs == old(fs)[tempPath := Flatten(chunks)] && downloaded == |Flatten(chunks)|
      ensures replies == old(replies) && stats == old(stats) && failedTasks == old(failedTasks)
      ensures multimediaRecords == old(multimediaRecords) && referer == old(referer) && tasks == old(tasks)
    {
      fs := fs[tempPath := []];
      downloaded := 0;
      for i := 0 to |chunks|
        invariant fs == old(fs)[tempPath := Flatten(chunks[..i])]
        invariant downloaded == |Flatten(chunks[..i])|
        invariant replies == old(replies) && stats == old(stats) && failedTasks == old(failedTasks)
        invariant multimediaRecords == old(multimediaRecords) && referer == old(referer) && tasks == old(tasks)
      {
        var chunk := chunks[i];
        assert chunks[..i + 1][..i] == chunks[..i];
        assert Flatten(chunks[..i + 1]) == Flatten(chunks[..i]) + chunk;
        if chunk != [] {
          ghost var next := Flatten(chunks[..i + 1]);
          assert fs[tempPath] + chunk == next;
          assert fs[tempPath := next] == old(fs)[tempPath := next];
          fs := fs[tempPath := fs[tempPath] + chunk];
          downloaded := downloaded + |chunk|;
        } else {
          assert Flatten(chunks[..i]) + chunk == Flatten(chunks[..i]);
        }
      }
      assert chunks[..|chunks|] == chunks;
    }

    /** `download_file(url, save_path, task_id)` */
    method DownloadFile(url: string, save: Path) returns (result: Outcome)
      requires Valid()
      modifies this, checker
      ensures Valid()
      ensures (result, NetState()) == DownloadFileSpec(integrityMode, old(NetState()), url, save)
      ensures stats == old(stats) && failedTasks == old(failedTasks) && multimediaRecords == old(multimediaRecords)
      ensures referer == old(referer) && tasks == old(tasks)
    {
      if save in fs {
        var v := checker.CheckFileIntegrity(fs, save, url);
        if v.complete {
          return Skipped;
        }
        if v.reason == BadRemoteLength {
          return Failed;
        }
      }
      var reply := NextReply(replies);
      replies := Rest(replies);
      if reply.Refused? || reply.contentLength.None? || Name(save) == "" {
        return Failed;
      }
      var totalSize := reply.contentLength.value;
      var tempPath := TempPath(save);
      var downloaded := WriteChunks(tempPath, reply.chunks);
      if reply.cutOff {
        return Failed;
      }
      if totalSize > 0 && downloaded != totalSize {
        fs := Unlink(fs, tempPath);
        return Failed;
      }
      fs := Rename(fs, tempPath, save);
      return Success;
    }

    /** The attempts on one CDN candidate, the inner loop of `download_file_with_retry`. */
    method TryCandidateAttempts(url: string, save: Path, urlToTry: string, maxRetries: nat) returns (result: Outcome)
      requires Valid()
      modifies this, checker
      ensures Valid()
      ensures var r := TryCandidate(integrityMode, enableRetry, old(NetState()), url, save, urlToTry, 0, maxRetries);
              && result == r.outcome && NetState() == r.net
              && stats == old(stats).(retryCount := old(stats).retryCount + r.retries,
                                      cdnSwitchCount := old(stats).cdnSwitchCount + (if r.switched then 1 else 0))
      ensures failedTasks == old(failedTasks) && multimediaRecords == old(multimediaRecords)
      ensures referer == old(referer) && tasks == old(tasks)
    {
      var attempt := 0;
      ghost var acc: nat := 0;
      ghost var spec := TryCandidate(integrityMode, enableRetry, old(NetState()), url, save, urlToTry, 0, maxRetries);
      while attempt < maxRetries
        invariant Valid()
        invariant stats == old(stats).(retryCount := old(stats).retryCount + acc)
        invariant spec == MoreRetries(TryCandidate(integrityMode, enableRetry, NetState(), url, save, urlToTry, attempt, maxRetries), acc)
        invariant failedTasks == old(failedTasks) && multimediaRecords == old(multimediaRecords)
        invariant referer == old(referer) && tasks == old(tasks)
      {
        ghost var net := NetState();
        if attempt > 0 && enableRetry {
          stats := stats.(retryCount := stats.retryCount + 1);
          acc := acc + 1;
        }
        var r := DownloadFile(urlToTry, save);
        TryCandidateStep(integrityMode, enableRetry, net, url, save, urlToTry, attempt, maxRetries, r, NetState());
        if r == Success || r == Skipped {
          if urlToTry != url {
            stats := stats.(cdnSwitchCount := stats.cdnSwitchCount + 1);
          }
          return r;
        }
        attempt := attempt + 1;
      }
      return Failed;
    }

    /** `download_file_with_retry(url, save_path, task_id)` */
    method DownloadFileWithRetry(url: string, save: Path) returns (result: Outcome)
      requires Valid()
      modifies this, checker
      ensures Valid()
      ensures var r := RetrySpec(integrityMode, enableRetry, old(NetState()), url, save);
              && result == r.outcome && NetState() == r.net
              && stats == old(stats).(retryCount := old(stats).retryCount + r.retries,
                                      cdnSwitchCount := old(stats).cdnSwitchCount + (if r.switched then 1 else 0))
      ensures failedTasks == old(failedTasks) && multimediaRecords == old(multimediaRecords)
      ensures referer == old(referer) && tasks == old(tasks)
    {
      var maxRetries := if enableRetry then 3 else 1;
      var urlsToTry := GenerateCdnUrls(url);
      result := TryCandidates(url, save, urlsToTry, maxRetries);
    }

    /** The candidates in turn, the outer loop of `download_file_with_retry`. */
    method TryCandidates(url: string, save: Path, urlsToTry: seq<string>, maxRetries: nat) returns (result: Outcome)
      requires Valid()
      modifies this, checker
      ensures Valid()
      ensures var r := TryAll(integrityMode, enableRetry, old(NetState()), url, save, urlsToTry, maxRetries);
              && result == r.outcome && NetState() == r.net
              && stats == old(stats).(retryCount := old(stats).retryCount + r.retries,
                                      cdnSwitchCount := old(stats).cdnSwitchCount + (if r.switched then 1 else 0))
      ensures failedTasks == old(failedTasks) && multimediaRecords == old(multimediaRecords)
      ensures referer == old(referer) && tasks == old(tasks)
    {
      var i := 0;
      ghost var acc: nat := 0;
      ghost var spec := TryAll(integrityMode, enableRetry, old(NetState()), url, save, urlsToTry, maxRetries);
      while i < |urlsToTry|
        invariant Valid() && i <= |urlsToTry|
        invariant stats == old(stats).(retryCount := old(stats).retryCount + acc)
        invariant spec == MoreRetries(TryAll(integrityMode, enableRetry, NetState(), url, save, urlsToTry[i..], maxRetries), acc)
        invariant failedTasks == old(failedTasks) && multimediaRecords == old(multimediaRecords)
        invariant referer == old(referer) && tasks == old(tasks)
      {
        ghost var net := NetState();
        ghost var rc := TryCandidate(integrityMode, enableRetry, net, url, save, urlsToTry[i], 0, maxRetries);
        TryAllAt(integrityMode, enableRetry, net, url, save, urlsToTry, i, maxRetries);
        TryCandidateCounts(integrityMode, enableRetry, net, url, save, urlsToTry[i], 0, maxRetries);
        result := TryCandidateAttempts(url, save, urlsToTry[i], maxRetries);
        if result == Success || result == Skipped {
          return;
        }
        acc := acc + rc.retries;
        i := i + 1;
      }
      return Failed;
    }

    /**
     * A multimedia file fetched with `download_file_with_retry`, as the
     * multimedia loops see it: only its target and temporary file may
     * change, and only the retry counters move.
     */
    method DownloadMediaFile(url: string, path: Path) returns (result: Outcome)
      requires Valid()
      modifies this, checker
      ensures Valid()
      ensures SameExcept(old(fs), fs, Touched(path))
      ensures stats == old(stats).(retryCount := stats.retryCount, cdnSwitchCount := stats.cdnSwitchCount)
      ensures !enableRetry ==> stats.retryCount == old(stats).retryCount
      ensures failedTasks == old(failedTasks) && multimediaRecords == old(multimediaRecords)
      ensures referer == old(referer) && tasks == old(tasks)
    {
      ghost var before := NetState();
      result := DownloadFileWithRetry(url, path);
      RetryFrame(integrityMode, enableRetry, before, url, path);
      RetryCounts(integrityMode, enableRetry, before, url, path);
    }

    /** The files the multimedia of a task may change: those of its videos, then those of its audios. */
    function MediaFiles(task: Task, media: Media): set<Path>
      requires Parts(task.savePath) != []
    {
      VideoFiles(outputDir, Parts(task.savePath), media.videos, |media.videos|)
        + AudioFiles(outputDir, Parts(task.savePath), media.audios, |media.audios|)
    }

    /** `download_multimedia_resources(task, multimedia_resources)` */
    method DownloadMultimediaResources(task: Task, media: Media)
      requires Valid() && Parts(task.savePath) != []
      modifies this, checker
      ensures Valid()
      ensures stats.videosSkippedDrm == old(stats).videosSkippedDrm + CountDrm(media.videos)
      ensures stats.videosDownloaded <= old(stats).videosDownloaded + CountMp4(media.videos)
      ensures stats.audiosDownloaded <= old(stats).audiosDownloaded + |media.audios|
      ensures SameTaskCounts(old(stats), stats)
      ensures !enableRetry ==> stats.retryCount == old(stats).retryCount
      ensures SameExcept(old(fs), fs, VideoFiles(outputDir, Parts(task.savePath), media.videos, |media.videos|)
                                      + AudioFiles(outputDir, Parts(task.savePath), media.audios, |media.audios|))
      ensures failedTasks == old(failedTasks) && multimediaRecords == old(multimediaRecords)
      ensures referer == old(referer) && tasks == old(tasks)
    {
      var savePath := Parts(task.savePath);
      ghost var fs0 := fs;
      DownloadVideos(savePath, media.videos);
      ghost var fs1 := fs;
      DownloadAudios(savePath, media.audios);
      SameExceptTrans(fs0, fs1, fs, VideoFiles(outputDir, savePath, media.videos, |media.videos|),
                      AudioFiles(outputDir, savePath, media.audios, |media.audios|));
    }

    /**
     * The video half of `download_multimedia_resources`: DRM-protected videos
     * counted and skipped, MP4s fetched, other formats passed over.
     */
    method DownloadVideos(savePath: Path, videos: seq<Video>)
      requires Valid() && savePath != []
      modifies this, checker
      ensures Valid()
      ensures stats.videosSkippedDrm == old(stats).videosSkippedDrm + CountDrm(videos)
      ensures stats.videosDownloaded <= old(stats).videosDownloaded + CountMp4(videos)
      ensures stats.audiosDownloaded == old(stats).audiosDownloaded
      ensures SameTaskCounts(old(stats), stats)
      ensures !enableRetry ==> stats.retryCount == old(stats).retryCount
      ensures SameExcept(old(fs), fs, VideoFiles(outputDir, savePath, videos, |videos|))
      ensures failedTasks == old(failedTasks) && multimediaRecords == old(multimediaRecords)
      ensures referer == old(referer) && tasks == old(tasks)
    {
      for k := 0 to |videos|
        invariant Valid()
        invariant stats.videosSkippedDrm == old(stats).videosSkippedDrm + CountDrm(videos[..k])
        invariant stats.videosDownloaded <= old(stats).videosDownloaded + CountMp4(videos[..k])
        invariant stats.audiosDownloaded == old(stats).audiosDownloaded
        invariant SameTaskCounts(old(stats), stats)
        invariant !enableRetry ==> stats.retryCount == old(stats).retryCount
        invariant SameExcept(old(fs), fs, VideoFiles(outputDir, savePath, videos, k))
        invariant failedTasks == old(failedTasks) && multimediaRecords == old(multimediaRecords)
        invariant referer == old(referer) && tasks == old(tasks)
      {
        var video := videos[k];
        assert videos[..k + 1][..k] == videos[..k];
        if video.hasDrm {
          stats := stats.(videosSkippedDrm := stats.videosSkippedDrm + 1);
        } else if video.format == "mp4" {
          var path := VideoPath(outputDir, savePath, video, k + 1);
          ghost var before := fs;
          var result := DownloadMediaFile(video.url, path);
          SameExceptTrans(old(fs), before, fs, VideoFiles(outputDir, savePath, videos, k), Touched(path));
          if result == Success || result == Skipped {
            stats := stats.(videosDownloaded := stats.videosDownloaded + 1);
          }
        }
      }
      assert videos[..|videos|] == videos;
    }

    /** One audio of `download_multimedia_resources`, fetched to `path` and counted when it succeeds or is skipped. */
    method DownloadAudio(audio: Audio, path: Path)
      requires Valid()
      modifies this, checker
      ensures Valid()
      ensures SameExcept(old(fs), fs, Touched(path))
      ensures stats.audiosDownloaded <= old(stats).audiosDownloaded + 1
      ensures stats == old(stats).(audiosDownloaded := stats.audiosDownloaded, retryCount := stats.retryCount,
                                   cdnSwitchCount := stats.cdnSwitchCount)
      ensures !enableRetry ==> stats.retryCount == old(stats).retryCount
      ensures failedTasks == old(failedTasks) && multimediaRecords == old(multimediaRecords)
      ensures referer == old(referer) && tasks == old(tasks)
    {
      var result := DownloadMediaFile(audio.url, path);
      if result == Success || result == Skipped {
        stats := stats.(audiosDownloaded := stats.audiosDownloaded + 1);
      }
    }

    /** The audio half of `download_multimedia_resources`: every audio fetched. */
    method DownloadAudios(savePath: Path, audios: seq<Audio>)
      requires Valid() && savePath != []
      modifies this, checker
      ensures Valid()
      ensures stats.videosSkippedDrm == old(stats).videosSkippedDrm
      ensures stats.videosDownloaded == old(stats).videosDownloaded
      ensures stats.audiosDownloaded <= old(stats).audiosDownloaded + |audios|
      ensures SameTaskCounts(old(stats), stats)
      ensures !enableRetry ==> stats.retryCount == old(stats).retryCount
      ensures SameExcept(old(fs), fs, AudioFiles(outputDir, savePath, audios, |audios|))
      ensures failedTasks == old(failedTasks) && multimediaRecords == old(multimediaRecords)
      ensures referer == old(referer) && tasks == old(tasks)
    {
      for k := 0 to |audios|
        invariant Valid()
        invariant stats.videosSkippedDrm == old(stats).videosSkippedDrm
        invariant stats.videosDownloaded == old(stats).videosDownloaded
        invariant stats.audiosDownloaded <= old(stats).audiosDownloaded + k
        invariant SameTaskCounts(old(stats), stats)
        invariant !enableRetry ==> stats.retryCount == old(stats).retryCount
        invariant SameExcept(old(fs), fs, AudioFiles(outputDir, savePath, audios, k))
        invariant failedTasks == old(failedTasks) && multimediaRecords == old(multimediaRecords)
        invariant referer == old(referer) && tasks == old(tasks)
      {
        var path := AudioPath(outputDir, savePath, audios[k], k + 1);
        ghost var before := fs;
        DownloadAudio(audios[k], path);
        SameExceptTrans(old(fs), before, fs, AudioFiles(outputDir, savePath, audios, k), Touched(path));
      }
    }

    /** The audios of a textbook's hot-zone data, or none when there is no data to read. */
    function HotZoneAudiosOf(items: seq<DetailItem>): seq<Audio>
    {
      var url := HotZoneUrl(items);
      if url != "" && url in hotZones then HotZoneAudios(hotZones[url]) else []
    }

    /** `extract_audio_from_hot_zone(task, resource_data)` */
    method ExtractAudioFromHotZone(task: Task, items: seq<DetailItem>)
      requires Valid() && Parts(task.savePath) != []
      modifies this, checker
      ensures Valid()
      ensures var audios := HotZoneAudiosOf(items);
              multimediaRecords == old(multimediaRecords) + (if audios != [] then [MediaRecord(task, Media([], audios))] else [])
      ensures SameExcept(old(fs), fs, MediaFiles(task, Media([], HotZoneAudiosOf(items))))
      ensures SameTaskCounts(old(stats), stats)
      ensures failedTasks == old(failedTasks) && referer == old(referer) && tasks == old(tasks)
    {
      var hotZoneUrl := "";
      var j := 0;
      while j < |items|
        invariant 0 <= j <= |items|
        invariant forall i :: 0 <= i < j ==> !IsHotZoneItem(items[i])
        invariant hotZoneUrl == ""
      {
        if items[j].fileFlag == "hot_zone" && items[j].storages != [] {
          hotZoneUrl := items[j].storages[0];
          break;
        }
        j := j + 1;
      }
      assert hotZoneUrl == HotZoneUrl(items);
      if hotZoneUrl == "" || hotZoneUrl !in hotZones {
        return;
      }
      var audioList := HotZoneAudios(hotZones[hotZoneUrl]);
      if audioList != [] {
        var media := Media([], audioList);
        DownloadMultimediaResources(task, media);
        multimediaRecords := multimediaRecords + [MediaRecord(task, media)];
      }
    }

    /** `get_normal_pdf_url(task)`; `""` is the source's `None`. */
    method GetNormalPdfUrl(task: Task) returns (pdfUrl: string)
      requires Valid() && Parts(task.savePath) != []
      modifies this, checker
      ensures Valid()
      ensures pdfUrl == if task.apiUrl in details then NormalPdfUrl(details[task.apiUrl]) else ""
      ensures var audios := if enableMultimedia && task.apiUrl in details then HotZoneAudiosOf(details[task.apiUrl]) else [];
              multimediaRecords == old(multimediaRecords) + (if audios != [] then [MediaRecord(task, Media([], audios))] else [])
      ensures !enableMultimedia ==> NetState() == old(NetState())
      ensures enableMultimedia && task.apiUrl in details ==>
                SameExcept(old(fs), fs, MediaFiles(task, Media([], HotZoneAudiosOf(details[task.apiUrl]))))
      ensures task.apiUrl !in details ==> NetState() == old(NetState())
      ensures SameTaskCounts(old(stats), stats)
      ensures failedTasks == old(failedTasks) && referer == old(referer) && tasks == old(tasks)
    {
      if task.apiUrl !in details {
        return "";
      }
      var items := details[task.apiUrl];
      pdfUrl := "";
      var j := 0;
      while j < |items|
        invariant 0 <= j <= |items|
        invariant forall i :: 0 <= i < j ==> !IsPdfItem(items[i])
        invariant pdfUrl == ""
      {
        if items[j].format == "pdf" && items[j].storages != [] {
          pdfUrl := items[j].storages[0];
          break;
        }
        j := j + 1;
      }
      assert pdfUrl == NormalPdfUrl(items);
      if enableMultimedia {
        ExtractAudioFromHotZone(task, items);
      }
    }

    /** The scan `get_thematic_pdf_url` makes of a task's resource list, if the list is non-empty. */
    function ThematicScan(task: Task): Option<Scan>
    {
      var url := ThematicListUrl(task.contentId);
      if url in thematicLists && thematicLists[url] != [] then Some(ScanAll(thematicLists[url], enableMultimedia, playlists))
      else None
    }

    /** `get_thematic_pdf_url(task)` */
    method GetThematicPdfUrl(task: Task) returns (pdfUrl: string)
      requires Valid() && Parts(task.savePath) != []
      modifies this, checker
      ensures Valid()
      ensures var scan := ThematicScan(task);
              pdfUrl == if scan.Some? then scan.value.pdfUrl else ""
      ensures var scan := ThematicScan(task);
              multimediaRecords == old(multimediaRecords)
                + (if scan.Some? && HasMedia(scan.value.media) then [MediaRecord(task, scan.value.media)] else [])
      ensures !enableMultimedia ==> NetState() == old(NetState())
      ensures var scan := ThematicScan(task);
              SameExcept(old(fs), fs, if scan.Some? then MediaFiles(task, scan.value.media) else {})
      ensures SameTaskCounts(old(stats), stats)
      ensures failedTasks == old(failedTasks) && referer == old(referer) && tasks == old(tasks)
    {
      var url := ThematicListUrl(task.contentId);
      if url !in thematicLists || thematicLists[url] == [] {
        return "";
      }
      var media;
      pdfUrl, media := ClassifyResources(thematicLists[url], enableMultimedia, playlists);
      if enableMultimedia && HasMedia(media) {
        DownloadMultimediaResources(task, media);
      }
      if HasMedia(media) {
        multimediaRecords := multimediaRecords + [MediaRecord(task, media)];
      }
    }

    /** The PDF URL of a task, from its resource list or its details; `""` when there is none. */
    function PdfUrlOf(task: Task): string
    {
      if IsThematicCourse(task) then
        var scan := ThematicScan(task);
        if scan.Some? then scan.value.pdfUrl else ""
      else if task.apiUrl in details then NormalPdfUrl(details[task.apiUrl])
      else ""
    }

    /** The multimedia records that looking up a task's PDF URL adds: at most one, for the task. */
    function PdfUrlRecords(task: Task): seq<MediaRecord>
    {
      if IsThematicCourse(task) then
        var scan := ThematicScan(task);
        if scan.Some? && HasMedia(scan.value.media) then [MediaRecord(task, scan.value.media)] else []
      else
        var audios := if enableMultimedia && task.apiUrl in details then HotZoneAudiosOf(details[task.apiUrl]) else [];
        if audios != [] then [MediaRecord(task, Media([], audios))] else []
    }

    /**
     * The files that looking up a task's PDF URL may change: with multimedia
     * on, those of the resource list's multimedia or of the hot-zone audios.
     */
    function PdfUrlFiles(task: Task): set<Path>
      requires Parts(task.savePath) != []
    {
      if !enableMultimedia then {}
      else if IsThematicCourse(task) then
        var scan := ThematicScan(task);
        if scan.Some? then MediaFiles(task, scan.value.media) else {}
      else if task.apiUrl in details then MediaFiles(task, Media([], HotZoneAudiosOf(details[task.apiUrl])))
      else {}
    }

    /** `get_pdf_url(task)` */
    method GetPdfUrl(task: Task) returns (pdfUrl: string)
      requires Valid() && Parts(task.savePath) != []
      modifies this, checker
      ensures Valid()
      ensures pdfUrl == PdfUrlOf(task)
      ensures multimediaRecords == old(multimediaRecords) + PdfUrlRecords(task)
      ensures !enableMultimedia ==> NetState() == old(NetState())
      ensures SameExcept(old(fs), fs, PdfUrlFiles(task))
      ensures SameTaskCounts(old(stats), stats)
      ensures failedTasks == old(failedTasks) && referer == old(referer) && tasks == old(tasks)
    {
      if IsThematicCourse(task) {
        pdfUrl := GetThematicPdfUrl(task);
      } else {
        pdfUrl := GetNormalPdfUrl(task);
      }
    }

    /**
     * The early check of `process_task`: in smart and local mode a
     * complete PDF ends the task, unless the multimedia of a thematic
     * course is still to be looked at.
     */
    method CompletePdfSkips(task: Task, savePath: Path) returns (skip: bool)
      requires Valid()
      modifies checker
      ensures Valid() && checker.heads == old(checker.heads)
      ensures skip == (savePath in fs && integrityMode != Strict
                       && FileVerdict(integrityMode, fs, savePath, "", HeadFailed).complete
                       && (!enableMultimedia || !IsThematicCourse(task)))
    {
      skip := false;
      if savePath in fs {
        if integrityMode == Smart || integrityMode == Local {
          var v := checker.CheckFileIntegrity(fs, savePath, "");
          if v.complete {
            if !enableMultimedia {
              return true;
            }
            if !IsThematicCourse(task) {
              return true;
            }
          }
        }
      }
    }

    /**
     * The rest of `process_task`: the PDF URL, then the download of the PDF.
     * `beforePdf` is the state the PDF download starts from, after the
     * multimedia that looking up the URL fetches.
     */
    method DownloadTaskPdf(task: Task, savePath: Path) returns (result: Outcome, ghost beforePdf: Net)
      requires Valid() && Parts(task.savePath) != []
      modifies this, checker
      ensures Valid()
      ensures result == Failed ==> OneFailureFor(old(failedTasks), failedTasks, task)
      ensures result != Failed ==> failedTasks == old(failedTasks)
      ensures result == MultimediaOnly ==> IsThematicCourse(task) && HasRecordFor(multimediaRecords, task.id)
      ensures !enableMultimedia ==> beforePdf == old(NetState())
      ensures SameExcept(old(fs), beforePdf.fs, PdfUrlFiles(task))
      ensures multimediaRecords == old(multimediaRecords) + PdfUrlRecords(task)
      ensures PdfUrlOf(task) == "" ==>
                result == (if IsThematicCourse(task) && HasRecordFor(multimediaRecords, task.id) then MultimediaOnly else Failed)
                && failedTasks == old(failedTasks) + (if result == Failed then [FailedTask(task, NoPdfUrl, "")] else [])
                && NetState() == beforePdf
      ensures PdfUrlOf(task) != "" ==>
                var r := RetrySpec(integrityMode, enableRetry, beforePdf, PdfUrlOf(task), savePath);
                && result == r.outcome && NetState() == r.net && result != MultimediaOnly
                && failedTasks == old(failedTasks) + (if result == Failed then [FailedTask(task, DownloadFailed, PdfUrlOf(task))] else [])
      ensures stats.multimedia == old(stats).multimedia + (if result == MultimediaOnly then 1 else 0)
      ensures stats.total == old(stats).total && stats.success == old(stats).success
      ensures stats.failed == old(stats).failed && stats.skipped == old(stats).skipped
      ensures (result == Success || result == Skipped) ==> savePath in fs
      ensures tasks == old(tasks)
    {
      var pdfUrl := GetPdfUrl(task);
      beforePdf := NetState();
      result := FinishTask(task, savePath, pdfUrl);
    }

    /**
     * The end of `process_task` once the PDF URL is looked up: the outcome
     * of a task without one, or the download of the PDF.
     */
    method FinishTask(task: Task, savePath: Path, pdfUrl: string) returns (result: Outcome)
      requires Valid()
      modifies this, checker
      ensures Valid()
      ensures result == Failed ==> OneFailureFor(old(failedTasks), failedTasks, task)
      ensures result != Failed ==> failedTasks == old(failedTasks)
      ensures result == MultimediaOnly ==> IsThematicCourse(task) && HasRecordFor(multimediaRecords, task.id)
      ensures multimediaRecords == old(multimediaRecords)
      ensures pdfUrl == "" ==>
                result == (if IsThematicCourse(task) && HasRecordFor(multimediaRecords, task.id) then MultimediaOnly else Failed)
                && failedTasks == old(failedTasks) + (if result == Failed then [FailedTask(task, NoPdfUrl, "")] else [])
                && NetState() == old(NetState())
      ensures pdfUrl != "" ==>
                var r := RetrySpec(integrityMode, enableRetry, old(NetState()), pdfUrl, savePath);
                && result == r.outcome && NetState() == r.net && result != MultimediaOnly
                && failedTasks == old(failedTasks) + (if result == Failed then [FailedTask(task, DownloadFailed, pdfUrl)] else [])
      ensures stats.multimedia == old(stats).multimedia + (if result == MultimediaOnly then 1 else 0)
      ensures stats.total == old(stats).total && stats.success == old(stats).success
      ensures stats.failed == old(stats).failed && stats.skipped == old(stats).skipped
      ensures (result == Success || result == Skipped) ==> savePath in fs
      ensures tasks == old(tasks)
    {
      if pdfUrl == "" {
        result := NoPdfOutcome(task);
        return;
      }
      ghost var before := failedTasks;
      result := DownloadPdf(task, savePath, pdfUrl);
      AppendFailure(before, FailedTask(task, DownloadFailed, pdfUrl));
    }

    /**
     * A task without a PDF URL: a thematic course whose multimedia was
     * recorded counts as multimedia only, any other task fails.
     */
    method NoPdfOutcome(task: Task) returns (result: Outcome)
      modifies this
      ensures result == (if IsThematicCourse(task) && HasRecordFor(multimediaRecords, task.id) then MultimediaOnly else Failed)
      ensures failedTasks == old(failedTasks) + (if result == Failed then [FailedTask(task, NoPdfUrl, "")] else [])
      ensures result == Failed ==> OneFailureFor(old(failedTasks), failedTasks, task)
      ensures stats == old(stats).(multimedia := old(stats).multimedia + (if result == MultimediaOnly then 1 else 0))
      ensures fs == old(fs) && replies == old(replies) && multimediaRecords == old(multimediaRecords)
      ensures referer == old(referer) && tasks == old(tasks)
    {
      if IsThematicCourse(task) && HasRecordFor(multimediaRecords, task.id) {
        stats := stats.(multimedia := stats.multimedia + 1);
        return MultimediaOnly;
      }
      AppendFailure(failedTasks, FailedTask(task, NoPdfUrl, ""));
      failedTasks := failedTasks + [FailedTask(task, NoPdfUrl, "")];
      return Failed;
    }

    /** The download of a task's PDF once its URL is known, with a failure record when it fails. */
    method DownloadPdf(task: Task, savePath: Path, pdfUrl: string) returns (result: Outcome)
      requires Valid()
      modifies this, checker
      ensures Valid() && result != MultimediaOnly
      ensures var r := RetrySpec(integrityMode, enableRetry, old(NetState()), pdfUrl, savePath);
              result == r.outcome && NetState() == r.net
      ensures failedTasks == old(failedTasks) + (if result == Failed then [FailedTask(task, DownloadFailed, pdfUrl)] else [])
      ensures SameTaskCounts(old(stats), stats)
      ensures result != Failed ==> savePath in fs
      ensures referer == task.pageUrl && multimediaRecords == old(multimediaRecords) && tasks == old(tasks)
    {
      referer := task.pageUrl;
      ghost var net := NetState();
      result := DownloadFileWithRetry(pdfUrl, savePath);
      RetryDone(integrityMode, enableRetry, net, pdfUrl, savePath);
      if result == Failed {
        failedTasks := failedTasks + [FailedTask(task, DownloadFailed, pdfUrl)];
      }
    }

    /**
     * The early return of `process_task`: in smart and local mode a
     * complete PDF at the task's path in `fs0` ends the task, unless the
     * multimedia of a thematic course is still to be looked at.
     */
    predicate SkipsComplete(task: Task, fs0: FileSystem)
    {
      var parts := Parts(task.savePath);
      parts != [] && integrityMode != Strict
      && PdfPath(outputDir, parts) in fs0
      && FileVerdict(integrityMode, fs0, PdfPath(outputDir, parts), "", HeadFailed).complete
      && (!enableMultimedia || !IsThematicCourse(task))
    }

    /**
     * `process_task(task)`. `beforePdf` is the state the PDF download
     * starts from, after the multimedia that looking up the URL fetches.
     */
    method ProcessTask(task: Task) returns (result: Outcome, ghost beforePdf: Net)
      requires Valid()
      modifies this, checker
      ensures Valid()
      ensures Parts(task.savePath) == [] ==>
                result == Failed && failedTasks == old(failedTasks) + [FailedTask(task, Crashed, "")]
      ensures result == Failed ==> OneFailureFor(old(failedTasks), failedTasks, task)
      ensures result != Failed ==> failedTasks == old(failedTasks)
      ensures result == MultimediaOnly ==> IsThematicCourse(task) && HasRecordFor(multimediaRecords, task.id)
      ensures stats.multimedia == old(stats).multimedia + (if result == MultimediaOnly then 1 else 0)
      ensures stats.total == old(stats).total && stats.success == old(stats).success
      ensures stats.failed == old(stats).failed && stats.skipped == old(stats).skipped
      ensures (result == Success || result == Skipped) ==>
                Parts(task.savePath) != [] && PdfPath(outputDir, Parts(task.savePath)) in fs
      ensures SkipsComplete(task, old(fs)) ==> result == Skipped && fs == old(fs) && replies == old(replies)
      ensures Parts(task.savePath) != [] && !SkipsComplete(task, old(fs)) && !enableMultimedia ==>
                beforePdf == old(NetState())
      ensures Parts(task.savePath) != [] && !SkipsComplete(task, old(fs)) ==>
                SameExcept(old(fs), beforePdf.fs, PdfUrlFiles(task))
                && multimediaRecords == old(multimediaRecords) + PdfUrlRecords(task)
      ensures Parts(task.savePath) != [] && !SkipsComplete(task, old(fs)) && PdfUrlOf(task) == "" ==>
                result == (if IsThematicCourse(task) && HasRecordFor(multimediaRecords, task.id) then MultimediaOnly else Failed)
                && failedTasks == old(failedTasks) + (if result == Failed then [FailedTask(task, NoPdfUrl, "")] else [])
                && NetState() == beforePdf
      ensures Parts(task.savePath) != [] && !SkipsComplete(task, old(fs)) && PdfUrlOf(task) != "" ==>
                var r := RetrySpec(integrityMode, enableRetry, beforePdf, PdfUrlOf(task), PdfPath(outputDir, Parts(task.savePath)));
                && result == r.outcome && NetState() == r.net && result != MultimediaOnly
                && failedTasks == old(failedTasks) + (if result == Failed then [FailedTask(task, DownloadFailed, PdfUrlOf(task))] else [])
      ensures tasks == old(tasks)
    {
      beforePdf := NetState();
      var parts := Parts(task.savePath);
      if parts == [] {
        AppendFailure(failedTasks, FailedTask(task, Crashed, ""));
        failedTasks := failedTasks + [FailedTask(task, Crashed, "")];
        return Failed, beforePdf;
      }
      var savePath := PdfPath(outputDir, parts);
      var skip := CompletePdfSkips(task, savePath);
      if skip {
        return Skipped, beforePdf;
      }
      result, beforePdf := DownloadTaskPdf(task, savePath);
    }

    /** One task of `download_batch`: `process_task`, then the counter of its outcome raised. */
    method ProcessAndCount(task: Task) returns (r: Outcome)
      requires Valid()
      modifies this, checker
      ensures Valid()
      ensures r == Failed ==> OneFailureFor(old(failedTasks), failedTasks, task)
      ensures r != Failed ==> failedTasks == old(failedTasks)
      ensures stats.success == old(stats).success + (if r == Success then 1 else 0)
      ensures stats.failed == old(stats).failed + (if r == Failed then 1 else 0)
      ensures stats.skipped == old(stats).skipped + (if r == Skipped then 1 else 0)
      ensures stats.multimedia == old(stats).multimedia + (if r == MultimediaOnly then 2 else 0)
      ensures stats.total == old(stats).total && tasks == old(tasks)
    {
      ghost var beforePdf;
      r, beforePdf := ProcessTask(task);
      stats := StatsBump(stats, r);
    }

    /**
     * `download_batch(tasks_subset)`, one task after another; an empty
     * subset means all tasks. A task with multimedia only is counted twice.
     */
    method DownloadBatch(tasksSubset: seq<Task>) returns (results: seq<Outcome>)
      requires Valid()
      modifies this, checker
      ensures Valid()
      ensures |failedTasks| >= |old(failedTasks)| && failedTasks[..|old(failedTasks)|] == old(failedTasks)
      ensures var batch := if tasksSubset != [] then tasksSubset else old(tasks);
              && |results| == |batch|
              && TasksOf(failedTasks[|old(failedTasks)|..]) == FailedOf(batch, results)
      ensures stats.success == old(stats).success + Count(results, Success)
      ensures stats.failed == old(stats).failed + Count(results, Failed)
      ensures stats.skipped == old(stats).skipped + Count(results, Skipped)
      ensures stats.multimedia == old(stats).multimedia + 2 * Count(results, MultimediaOnly)
      ensures stats.total == old(stats).total && tasks == old(tasks)
    {
      var batch := if tasksSubset != [] then tasksSubset else tasks;
      results := [];
      for k := 0 to |batch|
        invariant Valid() && |results| == k
        invariant |failedTasks| >= |old(failedTasks)| && failedTasks[..|old(failedTasks)|] == old(failedTasks)
        invariant TasksOf(failedTasks[|old(failedTasks)|..]) == FailedOf(batch[..k], results)
        invariant stats.success == old(stats).success + Count(results, Success)
        invariant stats.failed == old(stats).failed + Count(results, Failed)
        invariant stats.skipped == old(stats).skipped + Count(results, Skipped)
        invariant stats.multimedia == old(stats).multimedia + 2 * Count(results, MultimediaOnly)
        invariant stats.total == old(stats).total && tasks == old(tasks)
      {
        ghost var before := failedTasks;
        var r := ProcessAndCount(batch[k]);
        BatchFailedStep(old(failedTasks), before, failedTasks, batch, k, results, r);
        CountStep(results, r, Success);
        CountStep(results, r, Failed);
        CountStep(results, r, Skipped);
        CountStep(results, r, MultimediaOnly);
        results := results + [r];
      }
      assert batch[..|batch|] == batch;
    }

    /** `filter_tasks(stage, subject, version, limit, exclude_teacher_books)` */
    method FilterTasks(f: Filter) returns (filtered: seq<Task>)
      ensures filtered == Filtered(tasks, f)
    {
      filtered := [];
      var k := 0;
      while k < |tasks|
        invariant 0 <= k <= |tasks|
        invariant filtered == Matching(tasks[..k], f)
        invariant f.limit != 0 ==> |filtered| < Cap(f.limit)
      {
        var task := tasks[k];
        var metadata := task.metadata;
        MatchingStep(tasks, k, f);
        k := k + 1;
        if f.excludeTeacherBooks {
          if metadata.grade == TeacherBook || Contains(task.savePath, TeacherBook) {
            continue;
          }
        }
        if f.stage != "" {
          var taskStage := metadata.stage;
          if NormalizeString(f.stage) == TeachingGuide && taskStage == "" {
          } else if NormalizeString(taskStage) != NormalizeString(f.stage) {
            continue;
          }
        }
        if f.subject != "" && NormalizeString(metadata.subject) != NormalizeString(f.subject) {
          continue;
        }
        if f.version != "" && NormalizeString(metadata.version) != NormalizeString(f.version) {
          continue;
        }
        filtered := filtered + [task];
        if f.limit != 0 && |filtered| >= f.limit {
          MatchingExtends(tasks, k, f);
          return;
        }
      }
      assert tasks[..|tasks|] == tasks;
    }

    /**
     * `run(stage, subject, version, limit, exclude_teacher_books)` after the
     * tasks are loaded: the selection, then the batch unless it is empty.
     */
    method Run(retryFailed: bool, f: Filter) returns (results: seq<Outcome>)
      requires Valid()
      modifies this, checker
      ensures Valid()
      ensures |results| == |TasksToDownload(retryFailed, old(tasks), f)|
      ensures TasksToDownload(retryFailed, old(tasks), f) == [] ==>
                fs == old(fs) && replies == old(replies) && stats == old(stats) && failedTasks == old(failedTasks)
      ensures |failedTasks| >= |old(failedTasks)| && failedTasks[..|old(failedTasks)|] == old(failedTasks)
      ensures TasksOf(failedTasks[|old(failedTasks)|..]) == FailedOf(TasksToDownload(retryFailed, old(tasks), f), results)
      ensures stats.success == old(stats).success + Count(results, Success)
      ensures stats.failed == old(stats).failed + Count(results, Failed)
      ensures stats.skipped == old(stats).skipped + Count(results, Skipped)
      ensures stats.multimedia == old(stats).multimedia + 2 * Count(results, MultimediaOnly)
      ensures stats.success + stats.failed + stats.skipped
              == old(stats.success + stats.failed + stats.skipped) + |results| - Count(results, MultimediaOnly)
    {
      var tasksToDownload;
      if retryFailed {
        tasksToDownload := if f.limit != 0 then PySlice(tasks, f.limit) else tasks;
      } else if f.stage != "" || f.subject != "" || f.version != "" || f.limit != 0 || f.excludeTeacherBooks {
        tasksToDownload := FilterTasks(f);
      } else {
        tasksToDownload := tasks;
      }
      if tasksToDownload == [] {
        return [];
      }
      results := DownloadBatch(tasksToDownload);
      CountsCoverAll(results);
    }
  }

  /** One more task is selected or not. */
  lemma MatchingStep(tasks: seq<Task>, k: nat, f: Filter)
    requires k < |tasks|
    ensures Matching(tasks[..k + 1], f) == Matching(tasks[..k], f) + (if Selected(f, tasks[k]) then [tasks[k]] else [])
  {
    assert tasks[..k + 1][..k] == tasks[..k];
  }

  /** Once the limit is reached, the selected tasks so far are the first `Cap(limit)` selected tasks. */
  lemma MatchingExtends(tasks: seq<Task>, k: nat, f: Filter)
    requires k <= |tasks| && f.limit != 0 && |Matching(tasks[..k], f)| >= Cap(f.limit)
    requires |Matching(tasks[..k], f)| <= Cap(f.limit)
    ensures Matching(tasks[..k], f) == Filtered(tasks, f)
  {
    assert tasks == tasks[..k] + tasks[k..];
    KeepAppend(tasks[..k], tasks[k..], t => Selected(f, t));
  }

  /** Every outcome is one of the four. */
  lemma {:induction false} CountsCoverAll(rs: seq<Outcome>)
    ensures Count(rs, Success) + Count(rs, Failed) + Count(rs, Skipped) + Count(rs, MultimediaOnly) == |rs|
    decreases |rs|
  {
    if rs != [] {
      CountsCoverAll(rs[..|rs| - 1]);
    }
  }

  /** The task counters of a summary: successes, failures, skips and multimedia-only tasks. */
  datatype Tally = Tally(success: nat, failed: nat, skipped: nat, multimedia: nat)

  function TallyTotal(t: Tally): nat
  {
    t.success + t.failed + t.skipped + t.multimedia
  }

  /** One outcome counted once. */
  function Bump(t: Tally, o: Outcome): Tally
  {
    match o
    case Success => t.(success := t.success + 1)
    case Failed => t.(failed := t.failed + 1)
    case Skipped => t.(skipped := t.skipped + 1)
    case MultimediaOnly => t.(multimedia := t.multimedia + 1)
  }

  /** One outcome as `process_task` and `download_batch` count it together. */
  function BumpAsWritten(t: Tally, o: Outcome): Tally
  {
    if o == MultimediaOnly then Bump(Bump(t, o), o) else Bump(t, o)
  }

  /** The counters of a batch, each task counted once. */
  function TallyOf(rs: seq<Outcome>): Tally
  {
    if rs == [] then Tally(0, 0, 0, 0) else Bump(TallyOf(rs[..|rs| - 1]), rs[|rs| - 1])
  }

  /** The counters of a batch as the downloader keeps them. */
  function TallyAsWritten(rs: seq<Outcome>): Tally
  {
    if rs == [] then Tally(0, 0, 0, 0) else BumpAsWritten(TallyAsWritten(rs[..|rs| - 1]), rs[|rs| - 1])
  }

  /** Counted once, the summary's counters add up to the number of tasks in the batch. */
  lemma {:induction false} TallyOfTotal(rs: seq<Outcome>)
    ensures TallyTotal(TallyOf(rs)) == |rs|
    ensures TallyOf(rs) == Tally(Count(rs, Success), Count(rs, Failed), Count(rs, Skipped), Count(rs, MultimediaOnly))
    decreases |rs|
  {
    if rs != [] {
      var init, last := rs[..|rs| - 1], rs[|rs| - 1];
      TallyOfTotal(init);
      assert rs == init + [last];
      CountStep(init, last, Success);
      CountStep(init, last, Failed);
      CountStep(init, last, Skipped);
      CountStep(init, last, MultimediaOnly);
    }
    CountsCoverAll(rs);
  }

  /** The downloader's counters are those of `DownloadBatch`: multimedia-only tasks count twice. */
  lemma {:induction false} TallyAsWrittenCounts(rs: seq<Outcome>)
    ensures TallyAsWritten(rs)
            == Tally(Count(rs, Success), Count(rs, Failed), Count(rs, Skipped), 2 * Count(rs, MultimediaOnly))
    decreases |rs|
  {
    if rs != [] {
      TallyAsWrittenCounts(rs[..|rs| - 1]);
    }
  }

  /** A batch of one thematic course with multimedia and no PDF reports two such courses. */
  lemma MultimediaCountedTwice()
    ensures TallyAsWritten([MultimediaOnly]).multimedia == 2
    ensures TallyTotal(TallyAsWritten([MultimediaOnly])) != |[MultimediaOnly]|
    ensures TallyOf([MultimediaOnly]).multimedia == 1
  {
    assert [MultimediaOnly][..0] == [];
  }
}
