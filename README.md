# smartedu-cn textbook tools, modelled in Dafny

The four Python tools of smartedu-cn feed one another; this project models
their core logic and proves properties of it:

- **The catalog analyser** (`api_analysis_simple.py`). It turns the raw book
  records of the national smart-education platform into two things. The
  first is a five-level tree: stage, subject, version, grade and semester.
  Each level is counted and sorted. The second is a pair of groupings: by
  `' > '`-joined catalog path, and by the `stage_subject` download list.
- **The task generator** (`generate_download_tasks.py`). It parses those
  lists back and standardises every field by abbreviation maps. It then
  cleans titles and builds a safe file name and a save path under `教材库`
  (the textbook library). Each task gets an id `task_0001`, `task_0002`, and
  so on. Finally the tasks are counted.
- **The batch downloader** (`batch_downloader.py`). It selects tasks by
  stage, subject, version and limit. For each task it finds the PDF URL; a
  thematic course also yields video, audio and document resources, and a
  textbook may have hot-zone audio. It skips files an integrity check calls
  complete. It downloads through a `.tmp` sibling with retries and fails
  over between the CDN nodes `r1`, `r2` and `r3`. It journals failures and
  counts outcomes.
- **The front-end mapping** (`generate_frontend_textbooks.py`). It keeps the
  PDF tasks and numbers them 1..n. It picks a Baidu-disk share per stage and
  a size label, and counts books per stage.

Every network reply is a parameter of the model. That covers the detail
JSON, the hot-zone data, the thematic resource lists, HLS playlists, HEAD
replies and GET bodies. The file system is a `map` from paths (sequences of
components) to byte sequences. The downloader's state is a class,
`Downloader.BatchDownloader`. Its fields are the file system, the queue of
replies still to come, the statistics, the failure journal and the
multimedia records. Its methods are proved against specification functions
in `Fetching`, `Resources` and `Selection`. The generator's task list and
counter, the analyser's book list and tree, and the integrity checker's
mode are also classes, each with `modifies` clauses.

Modules:

| module | file | models |
|---|---|---|
| `Integrity` | integrity.dfy | `IntegrityChecker`: local, smart and strict verdicts |
| `Cdn` | cdn.dfy | `extract_cdn_node`, `generate_cdn_urls` |
| `Fetching` | fetch.dfy | `download_file` and `download_file_with_retry` as functions of the network state |
| `Paths` | paths.dfy | `pathlib` paths, suffix, stem, rename |
| `Resources` | resources.dfy | PDF and hot-zone lookup, thematic classification, `check_m3u8_drm`, `sanitize_filename`, multimedia save paths |
| `Selection` | selection.dfy | `normalize_string`, `filter_tasks`, the task choice of `run` |
| `Downloader` | downloader.dfy | the downloader class: `load_tasks` to `run` |
| `TaskGen` | taskgen.dfy | the task generator |
| `Catalog` | catalog.dfy | tag extraction, `sort_grade`, group keys |
| `CatalogTree` | catalog_tree.dfy | the five-level tree, its sorting and counts |
| `SubjectTally` | subject_tally.dfy | the books the tree files under each subject, summed over the stages |
| `Analyzer` | analyzer.dfy | the analyser class |
| `Frontend` | frontend.dfy | `generate_frontend_data` |
| `Strings`, `Sequences`, `Counting`, `Wrappers` | strings.dfy, sequences.dfy, counting.dfy, wrappers.dfy | Python's string operations, comprehensions and `dict` counters |

## Model

| member | source | states |
|---|---|---|
| Integrity.SmartVerdict | python-solution/batch_downloader.py:55-107 | A `.pdf` under 10240 bytes and an `.mp3` or `.m4a` under 5120 bytes are incomplete. A large enough `.m4a` is complete. Any other suffix is complete exactly when it has at least 100 bytes. |
| Integrity.PdfVerdict | python-solution/batch_downloader.py:57-78 | A PDF of at least 10240 bytes is complete iff it starts with `%PDF-` and `%%EOF` starts within its last 1024 bytes. |
| Integrity.Mp3Verdict | python-solution/batch_downloader.py:80-101 | An `.mp3` of at least 5120 bytes is complete iff it starts with `ID3` or FF FB, or FF FB or FF FA occurs within its first 4096 bytes. |
| Integrity.LocalVerdict | python-solution/batch_downloader.py:49-52 | In local mode a file is complete iff it has at least 1024 bytes. |
| Integrity.FileVerdict | python-solution/batch_downloader.py:38-133 | A missing file is incomplete. Local and smart mode give their verdicts. Strict mode without a URL reports complete. Strict mode with a URL compares the local size with a non-zero advertised length. A zero length or a failed HEAD falls back to exactly the smart verdict. A Content-Length that is not an integer gives the incomplete verdict `BadRemoteLength`, and only that case does. |
| Integrity.Head | python-solution/batch_downloader.py:64-65 | `f.read(n)` returns the first `min(n, size)` bytes. |
| Integrity.IntegrityChecker.CheckFileIntegrity | python-solution/batch_downloader.py:38-133 | Returns `FileVerdict` for the current mode. It consumes a HEAD reply exactly when strict mode asks one. The mode is the same afterwards. |
| Integrity.IntegrityChecker.FallbackToSmartCheck | python-solution/batch_downloader.py:135-141 | Gives the smart verdict and restores the mode it changed. |
| Cdn.FirstNode | python-solution/batch_downloader.py:549 | Finds the leftmost index at which `r1`, `r2` or `r3` starts, as `re.search` does, or none. |
| Cdn.ExtractCdnNode | python-solution/batch_downloader.py:547-550 | The result is one of the three nodes or `"unknown"`. |
| Cdn.AnyNodeInIff | python-solution/batch_downloader.py:547-556 | A node name is extracted iff one of the three occurs in the URL. |
| Cdn.GenerateCdnUrls | python-solution/batch_downloader.py:552-567 | The append loop yields exactly `CdnCandidates(url)`. |
| Cdn.CdnCandidates | python-solution/batch_downloader.py:552-567 | The candidate list is never empty and begins with the original URL. |
| Cdn.CandidatesWithoutNode | python-solution/batch_downloader.py:555-556 | A URL naming no node yields just `[url]`. |
| Cdn.CandidatesWithNode | python-solution/batch_downloader.py:552-567 | Otherwise the list is the URL, then the URL with its leftmost node replaced by each other node in r1, r2, r3 order. It has three pairwise distinct entries. |
| Cdn.AlternativesOfNode | python-solution/batch_downloader.py:562-565 | The current node is skipped and the two others follow in order. |
| Cdn.ReplacedDigit | python-solution/batch_downloader.py:564 | `url.replace(current, node)` puts the node's digit where the leftmost node stood. |
| Cdn.NodeDigits | python-solution/batch_downloader.py:196-200 | The three nodes are `r1`, `r2` and `r3`, pairwise distinct. |
| Fetching.DownloadSkipsComplete | python-solution/batch_downloader.py:620-624 | A target the integrity check calls complete returns `skipped`, writes nothing and makes no GET request. |
| Fetching.DownloadFileSpec | python-solution/batch_downloader.py:613-661 | One `download_file` never yields multimedia only; the lemmas below state its cases. |
| Fetching.DownloadBadHeadLength | python-solution/batch_downloader.py:613-661 | In strict mode a HEAD reply whose Content-Length is not an integer (the `int(...)` at line 116) fails the download, as the `except Exception` at lines 659-661 does. It consumes that HEAD reply and no GET reply, and changes no file. |
| Fetching.DownloadNameless | python-solution/batch_downloader.py:629-654 | A target without a name (the root or an empty path) is never a success and no file changes. |
| Fetching.DownloadRequests | python-solution/batch_downloader.py:613-661 | The download request is made exactly when the target is not complete and the HEAD check did not raise: then the next GET reply is handled by `Fetch`; otherwise no file changes, no GET reply is used and the outcome is not success. A HEAD reply is used exactly in strict mode with a URL. |
| Fetching.DownloadSuccess | python-solution/batch_downloader.py:629-654 | `success` means the target holds exactly the bytes received. When `Content-Length` is positive, their number equals it. The `.tmp` file is gone (renamed). |
| Fetching.DownloadFailure | python-solution/batch_downloader.py:629-661 | Any other outcome leaves the target as it was. A broken-off stream leaves its partial body in the temp file. A body whose length differs from a positive `Content-Length` has its temp file deleted. |
| Fetching.FetchFailure | python-solution/batch_downloader.py:629-661 | A GET that gives no success leaves the target as it was. |
| Fetching.DownloadFrame | python-solution/batch_downloader.py:613-661 | A download touches no file but the target and its `.tmp` sibling. |
| Fetching.FetchFrame | python-solution/batch_downloader.py:629-654 | Writing one GET reply touches only the target and its `.tmp` sibling. |
| Fetching.TryCandidate | python-solution/batch_downloader.py:576-608 | The attempts on one CDN candidate until one does not fail, up to the attempt budget. Its outcome is never multimedia only; the counts, replies and frame are stated by the lemmas about it. |
| Fetching.TryAll | python-solution/batch_downloader.py:573-611 | The candidates one after another until one does not fail. Its outcome is never multimedia only. |
| Fetching.RetrySpec | python-solution/batch_downloader.py:569-611 | `download_file_with_retry` over `CdnCandidates(url)` with three attempts per candidate, or one without retry. Its outcome is never multimedia only. |
| Fetching.TryCandidateCounts | python-solution/batch_downloader.py:576-598 | On one candidate, `retry_count` grows only on attempts after the first and only with retry enabled. A CDN switch is counted only on success or skip on a non-original URL. |
| Fetching.TryAllCounts | python-solution/batch_downloader.py:573-611 | Over all candidates a switch means success or skip. Without retry no retry is counted. At most two retries are counted per candidate. |
| Fetching.CandidateCount | python-solution/batch_downloader.py:552-567 | There are at most three candidates. |
| Fetching.RetryCounts | python-solution/batch_downloader.py:569-611 | One `download_file_with_retry` counts at most six retries, none without retry, and a CDN switch only for a download that did not fail. |
| Fetching.RetryAttempts | python-solution/batch_downloader.py:569-611 | At most candidates times attempts GET and HEAD replies are used, at most 9 with retry and 3 without. |
| Fetching.TryCandidateKeeps | python-solution/batch_downloader.py:576-608 | Attempts on one candidate change only the target and its temp file. They keep the target unless one succeeds. |
| Fetching.TryAllKeeps | python-solution/batch_downloader.py:573-611 | The same over the whole candidate list. |
| Fetching.RetryKeeps | python-solution/batch_downloader.py:569-611 | Exhausted or not, retrying changes only the target and its temp file, and leaves the target unchanged unless the result is `success`. |
| Fetching.RetryFrame | python-solution/batch_downloader.py:569-611 | Retrying changes no file but the target and its `.tmp` sibling. |
| Fetching.TryCandidateDone | python-solution/batch_downloader.py:592-598 | An attempt that succeeds or skips leaves a file at the target. |
| Fetching.TryAllDone | python-solution/batch_downloader.py:573-611 | The same over the candidate list. |
| Fetching.RetryDone | python-solution/batch_downloader.py:569-611 | Every outcome but `failed` leaves a file at the target. |
| Paths.Parts | python-solution/batch_downloader.py:779 | `Path(s).parts`: no component is empty or `.`. The root `/` comes first exactly when `s` starts with `/`, and no other component holds a `/`. |
| Paths.PartsRootSlash | python-solution/batch_downloader.py:779 | A `/` before a relative string gives the root followed by that string's components. |
| Paths.PartsEmpty | python-solution/batch_downloader.py:779-780 | The empty string has no components, so `parts[0]` fails. |
| Paths.Suffix | python-solution/batch_downloader.py:57 | `.suffix` is the text from the last dot of the name, or empty. It has at most one dot. |
| Paths.Stem | python-solution/batch_downloader.py:694 | `.stem` followed by `.suffix` is the name. |
| Paths.WithSuffix | python-solution/batch_downloader.py:636 | `with_suffix` changes only the last component, to its stem plus the new suffix. |
| Paths.TempPathDiffers | python-solution/batch_downloader.py:636 | The `.tmp` sibling of a file not ending in `.tmp` is a different path. |
| Paths.Rename | python-solution/batch_downloader.py:651 | `rename` moves the contents, removes the source and changes no other path. |
| Paths.ChildExtends | python-solution/batch_downloader.py:689-698 | `p / s` is `p` followed by the components of a relative `s`. An absolute `s` discards `p`. |
| Paths.ChildAllRelative | python-solution/batch_downloader.py:714 | `p / s1 / s2 / ...` with relative names is `p` followed by all their components. |
| Paths.ChildAllRestarts | python-solution/batch_downloader.py:714 | An absolute name in the chain discards the base and every name before it. |
| Resources.FirstStorage | python-solution/batch_downloader.py:323-328 | Gives the first storage URL of the first matching item, or nothing when no item matches. |
| Resources.HotZoneEntryAudios | python-solution/batch_downloader.py:372-382 | Each JSON entry gives at most one audio, always `mp3`. |
| Resources.NumberedAudios | python-solution/batch_downloader.py:385-394 | The text fallback numbers the `.mp3` URLs `音频_1`, `AUDIO-1` and on, in order. |
| Resources.FirstItem | python-solution/batch_downloader.py:477-527 | Finds the index of the first item satisfying the test, or none with no such item. |
| Resources.ScanVideo | python-solution/batch_downloader.py:477-502 | The item loop of a video resource is one `VideoStep`: the first MP4 or HLS item with a storage URL, with its DRM flag. |
| Resources.ScanAudio | python-solution/batch_downloader.py:505-518 | The item loop of an audio resource is one `AudioStep`. |
| Resources.ScanDocument | python-solution/batch_downloader.py:521-527 | The item loop of a document resource is one `DocumentStep`: the first PDF item's URL. |
| Resources.ClassifyResources | python-solution/batch_downloader.py:472-527 | The nested loop yields exactly `ScanAll`. |
| Resources.ScanPdfUrl | python-solution/batch_downloader.py:472-527 | The PDF URL is the one of the first document resource that offers one, and empty when none does. |
| Resources.ScanMedia | python-solution/batch_downloader.py:472-518 | Media are collected only with multimedia enabled, at most one per resource. Every video is MP4 or HLS. An HLS video not marked DRM has a fetched playlist. |
| Resources.UnreachablePlaylistIsDrm | python-solution/batch_downloader.py:453-456 | A playlist that cannot be fetched counts as DRM-protected. |
| Resources.FetchedPlaylistDrm | python-solution/batch_downloader.py:431-451 | A fetched playlist is DRM-protected iff both `#EXT-X-KEY` and `ndvideo-key.ykt.eduyun.cn` occur in it. |
| Resources.ReplaceIllegalChars | python-solution/batch_downloader.py:674-676 | Each of `<>:"/\|?*` becomes `_` and every other character stays. |
| Resources.SanitizeFilename | python-solution/batch_downloader.py:671-682 | The replace loop, strip and cut yield exactly `Sanitized`. |
| Resources.ReplaceIllegalLegal | python-solution/batch_downloader.py:674-676 | No illegal character survives. |
| Resources.SanitizedLegal | python-solution/batch_downloader.py:671-682 | A sanitized name has no illegal character and at most 100 characters. |
| Resources.StrippedLegal | python-solution/batch_downloader.py:674-678 | Stripping dots and spaces after the replacement leaves no illegal character. |
| Resources.SanitizedEnds | python-solution/batch_downloader.py:678-681 | It does not start with `.` or a space. It does not end with one either, unless it was cut at 100 characters. |
| Resources.MultimediaBesidePdf | python-solution/batch_downloader.py:684-741 | A multimedia file's base folder is `<pdf stem>_<type>` inside the PDF's directory. When the joined names are relative, the file lies under that folder. |
| Resources.FolderName | python-solution/batch_downloader.py:697-698 | That folder name is a single path component. |
| Resources.MultimediaUnderBase | python-solution/batch_downloader.py:697-741 | In every branch (audio with a unit and lesson, other audio, video and other), relative joined names put the file at the base folder followed by their components. |
| Resources.MultimediaAbsoluteStep | python-solution/batch_downloader.py:714-741 | An absolute unit, lesson or file name makes the path independent of the output directory and the save path, so the file lands outside the task's folder. |
| Resources.PdfPathWellFormed | python-solution/batch_downloader.py:687-691 | The PDF path of a well-formed save path under a well-formed output directory is well formed. |
| Selection.NormalizeString | python-solution/batch_downloader.py:962-964 | `strip().lower()` is no longer than its input and has no ASCII capital. |
| Selection.FilteredProperties | python-solution/batch_downloader.py:928-960 | `filter_tasks` returns an order-preserving subsequence of selected tasks. A positive limit bounds its length, and a negative limit keeps at most one task. Without a limit every selected task is kept. |
| Selection.FilteredExcludesTeacherBooks | python-solution/batch_downloader.py:936-939 | With teacher books excluded, no kept task has grade 教师用书 or a save path containing it. |
| Selection.TeachingGuideSelectsEmptyStage | python-solution/batch_downloader.py:942-946 | Asking for stage 教学指南 also matches tasks with an empty stage. |
| Selection.EmptyFilterKeepsAll | python-solution/batch_downloader.py:928-960 | A filter with no option keeps every task. |
| Selection.PySlice | python-solution/batch_downloader.py:976 | `s[:n]`, with a negative `n` counting from the end. |
| Selection.TasksToDownloadProperties | python-solution/batch_downloader.py:971-985 | In retry mode the stage, subject and version options are ignored and a limit takes a prefix. Otherwise the run takes exactly the filtered tasks. |
| Downloader.StatsBump | python-solution/batch_downloader.py:865-872 | One outcome raises exactly its own counter by one. |
| Downloader.TasksOf | python-solution/batch_downloader.py:264 | `[item["task"] for item in failed_data]`, element by element. |
| Downloader.BatchDownloader.constructor | python-solution/batch_downloader.py:165-233 | Output directory `教材库` by default. Zero counters, an empty journal and empty records. |
| Downloader.BatchDownloader.LoadTasks | python-solution/batch_downloader.py:252-279 | Loads the task file's tasks, or in retry mode the tasks of the failure records, and sets `total`. |
| Downloader.BatchDownloader.WriteChunks | python-solution/batch_downloader.py:639-643 | The temp file holds the concatenated nonempty chunks, and `downloaded` is their length. |
| Downloader.BatchDownloader.DownloadFile | python-solution/batch_downloader.py:613-661 | The method's outcome and network state are exactly `DownloadFileSpec`. |
| Downloader.BatchDownloader.TryCandidateAttempts | python-solution/batch_downloader.py:576-608 | The inner loop gives `TryCandidate`'s outcome and state, and adds its retries and switch to the statistics. |
| Downloader.BatchDownloader.DownloadFileWithRetry | python-solution/batch_downloader.py:569-611 | The nested loop gives `RetrySpec`'s outcome and state. `retry_count` and `cdn_switch_count` grow by its counts. |
| Downloader.BatchDownloader.TryCandidates | python-solution/batch_downloader.py:575-611 | The loop over the CDN candidates gives `TryAll`'s outcome and state for the list it is given. The statistics grow by its counts. |
| Downloader.BatchDownloader.DownloadMultimediaResources | python-solution/batch_downloader.py:743-771 | Counts every DRM video as skipped. Counts at most the MP4 videos and the audios as downloaded. Changes no file but the targets (and temp files) of the fetched videos and audios. Leaves the task counters and the journal alone. |
| Downloader.BatchDownloader.DownloadVideos | python-solution/batch_downloader.py:745-760 | Counts exactly the DRM videos as skipped. At most the MP4 videos count as downloaded. Only the MP4 videos' targets and temp files may change. The audio counter is unchanged. |
| Downloader.BatchDownloader.DownloadAudios | python-solution/batch_downloader.py:762-771 | At most one download is counted per audio. Only the audios' targets and temp files may change. The video counters are unchanged. |
| Downloader.BatchDownloader.DownloadMediaFile | python-solution/batch_downloader.py:756-767 | One multimedia `download_file_with_retry`: only its target and temp file change, and only the retry counters move, the retry count not at all without retry. |
| Downloader.BatchDownloader.DownloadAudio | python-solution/batch_downloader.py:764-771 | One audio: only its target and temp file change, and the audio counter grows by at most one. |
| Downloader.BatchDownloader.ExtractAudioFromHotZone | python-solution/batch_downloader.py:346-429 | Records the hot-zone audios of a textbook only when there are some. Changes no file but the targets (and temp files) of those audios. |
| Downloader.BatchDownloader.GetNormalPdfUrl | python-solution/batch_downloader.py:308-344 | Returns the first PDF item's URL, or none. With multimedia enabled it records the hot-zone audio, and no file changes but those audios' targets (and temp files). Without multimedia, or without details, the network state is unchanged. |
| Downloader.BatchDownloader.GetThematicPdfUrl | python-solution/batch_downloader.py:458-545 | Returns the classified PDF URL. The thematic course's media are recorded only when there are some. No file changes but the targets (and temp files) of the classified media. Without multimedia the network state is unchanged. |
| Downloader.BatchDownloader.GetPdfUrl | python-solution/batch_downloader.py:300-306 | Dispatches on `contentType=thematic_course`. Appends exactly `PdfUrlRecords(task)`: the thematic media or the hot-zone audios, when there are some. Changes no file outside `PdfUrlFiles(task)`, the media files of those downloads. Without multimedia the network state is unchanged. |
| Downloader.BatchDownloader.CompletePdfSkips | python-solution/batch_downloader.py:786-800 | A task is skipped early iff its PDF exists and passes a smart or local check. A thematic course with multimedia enabled is never skipped this way. |
| Downloader.BatchDownloader.DownloadTaskPdf | python-solution/batch_downloader.py:803-832 | Without a PDF URL: multimedia only for a thematic course with recorded media, otherwise failed with a `No PDF URL found` record. With a URL: the outcome and network state are `RetrySpec` from the state after the URL lookup, never multimedia only, and a failure adds a `Download failed` record. Without multimedia, that state is the starting one; with it, that state differs from the start only in `PdfUrlFiles(task)`, and the records grow by exactly `PdfUrlRecords(task)`. |
| Downloader.BatchDownloader.FinishTask | python-solution/batch_downloader.py:804-831 | Without a PDF URL: multimedia only for a thematic course with recorded media, otherwise failed with a `No PDF URL found` record, and the network state is unchanged. With a URL: the outcome and network state are `RetrySpec` of that URL from the starting state, and a failure adds a `Download failed` record. The multimedia records are unchanged. |
| Downloader.BatchDownloader.NoPdfOutcome | python-solution/batch_downloader.py:803-816 | Without a PDF URL, a thematic course with media counts as multimedia only. Any other task fails with a `No PDF URL found` record. |
| Downloader.BatchDownloader.DownloadPdf | python-solution/batch_downloader.py:818-832 | Sets the referer. The outcome and network state are exactly `RetrySpec` of the PDF URL. A failure adds a `Download failed` record carrying the URL. |
| Downloader.BatchDownloader.ProcessTask | python-solution/batch_downloader.py:773-840 | An empty save path fails with an error record. A complete PDF in smart or local mode is skipped without any change, unless multimedia is on and the task is a thematic course. Otherwise the outcome is that of `DownloadTaskPdf` at the PDF path: `RetrySpec` of the PDF URL, or the no-URL outcome. Failure is journalled exactly once, and other outcomes add no record. Past the early returns, the state the PDF download starts from differs from the start only in `PdfUrlFiles(task)`, and the records grow by exactly `PdfUrlRecords(task)`. |
| Downloader.BatchDownloader.ProcessAndCount | python-solution/batch_downloader.py:862-873 | One task of the batch: a failure is journalled once and other outcomes add no record. The counter of the outcome rises by one, `multimedia` by two for a multimedia-only task, and no other outcome counter moves. |
| Downloader.BatchDownloader.DownloadBatch | python-solution/batch_downloader.py:842-887 | Gives one outcome per task of the subset, or of all tasks. The new journal records are exactly the failed tasks, in order. Success, failed and skipped count their outcomes. `multimedia` grows by twice the multimedia-only outcomes. |
| Downloader.BatchDownloader.FilterTasks | python-solution/batch_downloader.py:928-960 | The loop with `break` yields exactly `Filtered`. |
| Downloader.BatchDownloader.Run | python-solution/batch_downloader.py:966-988 | Runs one outcome per task of `TasksToDownload` of the loaded tasks. An empty choice changes nothing. The new journal records are exactly the failed chosen tasks, in order. Success, failed and skipped count their outcomes; `multimedia` grows by twice the multimedia-only outcomes. |
| Downloader.MatchingExtends | python-solution/batch_downloader.py:956-958 | Stopping at the limit gives the same list as the full filter. |
| Downloader.CountsCoverAll | python-solution/batch_downloader.py:865-872 | The four outcomes together number the batch. |
| Downloader.TallyOfTotal | python-solution/batch_downloader.py:865-872 | Counted once per task, the four counters add up to the batch size. |
| Downloader.TallyAsWrittenCounts | python-solution/batch_downloader.py:809 | The counters as the code raises them count multimedia-only tasks twice. |
| Downloader.MultimediaCountedTwice | python-solution/batch_downloader.py:871-872 | A batch of one multimedia-only course reports `multimedia == 2`. |
| TaskGen.StandardizeCases | python-solution/generate_download_tasks.py:175-177 | Standardising gives `""` iff the component is empty, the mapped value for a key, and a non-key unchanged. |
| TaskGen.Standardize | python-solution/generate_download_tasks.py:175-177 | `STAGE_MAP.get(x, x)` and the like, with an empty component kept empty. It has no contract of its own; `StandardizeCases` states its three cases. |
| TaskGen.MapsHaveNonEmptyValues | python-solution/generate_download_tasks.py:21-143 | No map abbreviates a non-empty name to `""`. |
| TaskGen.StripAll | python-solution/generate_download_tasks.py:164 | `[p.strip() for p in parts]`, element by element. |
| TaskGen.ParseCatalogPath | python-solution/generate_download_tasks.py:153-173 | An empty path gives five empty fields. |
| TaskGen.ParseIgnoresExtraParts | python-solution/generate_download_tasks.py:166-171 | Parts after the fifth do not change the result. |
| TaskGen.ParseCatalogPathRoundTrip | python-solution/generate_download_tasks.py:153-173 | Parsing a `' > '`-joined catalog path recovers its non-empty fields in order. Empty fields shift later ones left, padded with `""`. This holds for fields without `>` and without outer whitespace. |
| TaskGen.ParseCatalogPathFull | python-solution/generate_download_tasks.py:153-173 | A catalog with all five fields set is recovered unchanged. |
| TaskGen.CleanTitle | python-solution/generate_download_tasks.py:179-202 | The prefix loop yields exactly `CleanedTitle`. |
| TaskGen.CleanedTitleShape | python-solution/generate_download_tasks.py:179-202 | A cleaned title has no `·` or `•`, no two adjacent whitespace characters, and no whitespace at either end. |
| TaskGen.TidyShape | python-solution/generate_download_tasks.py:198-200 | The same for the dot removal, whitespace collapse and strip. |
| TaskGen.MatchAtSpec | python-solution/generate_download_tasks.py:217 | At one start, `([^（]+)（(.+)）` has a unique first group and a greedy second group. |
| TaskGen.SearchFromSpec | python-solution/generate_download_tasks.py:217 | `re.search` finds the leftmost match, or reports none exactly when there is no match. |
| TaskGen.ReplaceIllegal | python-solution/generate_download_tasks.py:234 | `[<>:"/\\|?*]` becomes `_` and every other character stays. |
| TaskGen.CleanFileNameEnding | python-solution/generate_download_tasks.py:234-236 | The clean-up keeps a `.pdf` ending. |
| TaskGen.CleanFileNameSafe | python-solution/generate_download_tasks.py:234-236 | A cleaned name has no illegal character, no `__`, no `_` at either end, and ends in `.pdf`. |
| TaskGen.GenerateFileNameSafe | python-solution/generate_download_tasks.py:204-238 | Every generated file name has those properties and is one path component. |
| TaskGen.FileNameIsComponent | python-solution/generate_download_tasks.py:204-238 | A generated name is non-empty, not `.`, and has no `/`. |
| TaskGen.GenerateFileName | python-solution/generate_download_tasks.py:204-238 | The cleaned `<base>.pdf` name. It has no contract of its own; `GenerateFileNameSafe` and `FileNameIsComponent` state its shape. |
| TaskGen.OsPathJoinParts | python-solution/generate_download_tasks.py:265 | `os.path.join` of relative parts has the parts' components, in order. |
| TaskGen.OsPathJoinRestarts | python-solution/generate_download_tasks.py:265 | An absolute part discards everything before it. |
| TaskGen.JoinedParts | python-solution/generate_download_tasks.py:265 | The file name is the last component of the joined path. |
| TaskGen.SaveDirs | python-solution/generate_download_tasks.py:250-263 | The directories always start with `教材库`. |
| TaskGen.SaveDirsTeacher | python-solution/generate_download_tasks.py:253-254 | A grade containing 教师 gives 教材库/教师用书/subject/version. |
| TaskGen.SaveDirsGuide | python-solution/generate_download_tasks.py:255-256 | Otherwise an empty stage gives 教材库/教学指南. |
| TaskGen.SaveDirsBook | python-solution/generate_download_tasks.py:257-263 | Otherwise the path is 教材库/stage/subject/version, with the grade and semester when set. |
| TaskGen.SaveDirsRelative | python-solution/generate_download_tasks.py:250-263 | Relative fields give relative directories. |
| TaskGen.SavePathParts | python-solution/generate_download_tasks.py:240-266 | The three save-path shapes, each followed by the file name, with empty components dropped. |
| TaskGen.SavePathEnds | python-solution/generate_download_tasks.py:240-266 | Every save path lies under 教材库 and ends with its file name. |
| TaskGen.GenerateSavePath | python-solution/generate_download_tasks.py:240-266 | `os.path.join` of the save directories and the file name. It has no contract of its own; `SavePathParts` and `SavePathEnds` state its components. |
| TaskGen.TaskSavePath | python-solution/generate_download_tasks.py:268-303 | A task's save path lies under 教材库 and ends with its generated file name. |
| TaskGen.TaskOf | python-solution/generate_download_tasks.py:268-303 | The task of one listed book. It has no contract of its own; `TaskSavePath`, `ListedBookTask` and `Frontend.TaskOfIsPdf` state its fields. |
| TaskGen.TaskId | python-solution/generate_download_tasks.py:148-151 | An id is `task_` followed by at least four digits. |
| TaskGen.TaskIdInjective | python-solution/generate_download_tasks.py:151 | Two ids are equal iff their counter values are. |
| TaskGen.NumberedIdsDistinct | python-solution/generate_download_tasks.py:148-151 | Tasks numbered from 1 have pairwise distinct ids. |
| TaskGen.ListedBookTask | python-solution/generate_download_tasks.py:268-303 | A book the analyser listed becomes a task that holds its non-empty catalog fields in order, its title and its id. |
| TaskGen.DefaultGroupName | python-solution/generate_download_tasks.py:314 | The group taken from a list file's name is the file-name form of the group key. |
| TaskGen.StageKeyOther | python-solution/generate_download_tasks.py:337 | A task counts under 其他 iff its stage is empty, unknown or 其他. |
| TaskGen.DownloadTaskGenerator.constructor | python-solution/generate_download_tasks.py:145-146 | Starts with counter 0 and no tasks. |
| TaskGen.DownloadTaskGenerator.GenerateTaskId | python-solution/generate_download_tasks.py:148-151 | The counter rises by exactly one and names the new id. |
| TaskGen.DownloadTaskGenerator.ProcessBook | python-solution/generate_download_tasks.py:268-303 | Gives the book's task with the next id. |
| TaskGen.DownloadTaskGenerator.AppendTask | python-solution/generate_download_tasks.py:321 | Appending the next-numbered task keeps the ids equal to positions 1..n. |
| TaskGen.DownloadTaskGenerator.LoadCatalogData | python-solution/generate_download_tasks.py:305-321 | Adds one task per book, list after list in the given order, numbered on. |
| TaskGen.DownloadTaskGenerator.LoadBooks | python-solution/generate_download_tasks.py:319-321 | Adds the tasks of one list's books, in order. |
| TaskGen.DownloadTaskGenerator.GenerateStatistics | python-solution/generate_download_tasks.py:323-352 | `total` is the number of tasks. By stage, subject, version and group, each counter is the number of tasks with that key, and each map sums to `total`. |
| Catalog.WithField | python-solution/api_analysis_simple.py:76-78 | Sets one field and keeps the other four. |
| Catalog.ExtractCatalogFromTags | python-solution/api_analysis_simple.py:60-80 | The tag loop yields exactly `CatalogFromTags`. |
| Catalog.LastTagWins | python-solution/api_analysis_simple.py:32-38 | Each of the five fields holds the name of the last tag that sets it, or `""`. Unknown dimensions and empty names set nothing. |
| Catalog.SortGradeRanks | python-solution/api_analysis_simple.py:151-160 | 一年级…九年级 rank 1..9, 高一…高三 rank 10..12, 学生读本 ranks 20, and everything else ranks 99. |
| Catalog.SortGrade | python-solution/api_analysis_simple.py:151-160 | A rank lies between 1 and 99; `SortGradeRanks` gives each rank. |
| Catalog.GroupPart | python-solution/api_analysis_simple.py:321-323 | `/` and `·` become `_` and every other character stays. |
| Catalog.SafeFileName | python-solution/api_analysis_simple.py:342 | Spaces become `_` and full-width parentheses become ASCII ones. |
| Catalog.GroupKeyShape | python-solution/api_analysis_simple.py:321-323 | A group key is the stage, `_`, then the subject, with `/` and `·` made `_`. |
| Catalog.GroupKey | python-solution/api_analysis_simple.py:321-323 | A group key holds no `/` and no `·`. |
| Catalog.CatalogPath | python-solution/api_analysis_simple.py:328-334 | The non-empty fields in path order joined by `' > '`, as at lines 284-289 too. It has no contract of its own; `TaskGen.ParseCatalogPathRoundTrip` parses it back. |
| Catalog.DownloadListFileNameSafe | python-solution/api_analysis_simple.py:339-350 | A list file name has no `/`, space or full-width parenthesis. |
| CatalogTree.TreeKeys | python-solution/api_analysis_simple.py:143-147 | Five keys, none empty. A set field is its own key, and an empty one becomes its placeholder. |
| CatalogTree.TreeOfCount | python-solution/api_analysis_simple.py:149 | The tree is five levels deep and holds each book once. |
| CatalogTree.TreeOfLookup | python-solution/api_analysis_simple.py:149 | Each key path lists exactly its books, in order. |
| CatalogTree.InsertCount | python-solution/api_analysis_simple.py:149 | Inserting adds one book and keeps the shape. |
| CatalogTree.InsertLookup | python-solution/api_analysis_simple.py:149 | The book is appended at its key path. |
| CatalogTree.InsertLookupOther | python-solution/api_analysis_simple.py:149 | Every other key path is unchanged. |
| CatalogTree.UpsertKeys | python-solution/api_analysis_simple.py:149 | A `defaultdict` level gains the key once and keeps distinct keys. |
| CatalogTree.UpsertKeepsOthers | python-solution/api_analysis_simple.py:149 | Entries under other keys are untouched. |
| CatalogTree.InsertSortedSorted | python-solution/api_analysis_simple.py:175-207 | Insertion keeps a level sorted. |
| CatalogTree.SortLevelSorted | python-solution/api_analysis_simple.py:175-207 | A level is sorted by name, by `sort_grade` at the grade level. |
| CatalogTree.SortLevelContents | python-solution/api_analysis_simple.py:175-207 | Sorting permutes the entries and keeps the book count. |
| CatalogTree.InsertSortedStable | python-solution/api_analysis_simple.py:191 | Insertion keeps, at every `sort_grade` rank, the entries of that rank in their order, with the new one last. |
| CatalogTree.SortLevelStable | python-solution/api_analysis_simple.py:191 | Sorting the grades is stable: entries of equal rank keep their input order, as in Python's `sorted`. |
| CatalogTree.SortLevelKeys | python-solution/api_analysis_simple.py:175-207 | Sorting keeps the keys and their distinctness. |
| CatalogTree.InOrderTotal | python-solution/api_analysis_simple.py:191 | The order is total: grades by `sort_grade` rank, other levels by name. |
| CatalogTree.StrLessAsymmetric | python-solution/api_analysis_simple.py:175 | String order is asymmetric. |
| CatalogTree.SumNodeCounts | python-solution/api_analysis_simple.py:211-227 | Nodes counting their entries' books add up to the books. |
| CatalogTree.TreeCounts | python-solution/api_analysis_simple.py:207-234 | A semester node counts its books and every other node the sum of its children. The stage nodes add up to the number of books. |
| Analyzer.BookInfo | python-solution/api_analysis_simple.py:131-138 | The title falls back to `ti_title`. The publisher is the first provider or `""`. The type defaults to `assets_document`. |
| Analyzer.GroupBy | python-solution/api_analysis_simple.py:278-336 | The `defaultdict(list)` fold of the books by key. It has no contract of its own; `GroupByContents`, `GroupByLengths` and `GroupByTotal` state its groups. |
| Analyzer.GroupByContents | python-solution/api_analysis_simple.py:274-336 | A group exists iff some book has its key. It lists exactly those books' entries, in order. |
| Analyzer.GroupByLengths | python-solution/api_analysis_simple.py:274-336 | Group sizes are the key counts. |
| Analyzer.GroupByTotal | python-solution/api_analysis_simple.py:280-294 | Across all groups there is one entry per book. |
| Analyzer.SmartEduAnalyzer.BuildLevel | python-solution/api_analysis_simple.py:175-234 | The nodes of one level are `NodesOf` the level, sorted, and the count is the sum of their counts. |
| Analyzer.SmartEduAnalyzer.BuildSubjects | python-solution/api_analysis_simple.py:183-230 | The subject nodes of a stage are `NodesOf` its subjects. The per-subject counters become `AddCounts` of them: each subject node's count added to the counter of its name, so the total grows by the stage's count. |
| Analyzer.SmartEduAnalyzer.BuildStage | python-solution/api_analysis_simple.py:175-234 | The stage node is `NodeOf` the stage entry, under its own name. The per-subject counters become `AddCounts` of its subject nodes, and the total grows by its count. |
| Analyzer.SmartEduAnalyzer.BuildStages | python-solution/api_analysis_simple.py:175-234 | The stage nodes are `NodesOf` the stage level. Each stage's count is recorded under its name. The per-subject counters are `SubjectTotals` of the stage nodes. The per-stage and per-subject totals both sum to the nodes' counts. |
| Analyzer.RecordStage | python-solution/api_analysis_simple.py:234 | Recording a new stage adds its count to the total, records it under its name, and leaves the later stages unrecorded. |
| Analyzer.StagesStep | python-solution/api_analysis_simple.py:175-234 | One more stage keeps the loop's state: its node appended, its count recorded, its subjects' counts added to the per-subject counters. |
| Analyzer.AddCountsGet | python-solution/api_analysis_simple.py:230 | After `by_subject[s] = by_subject.get(s, 0) + count` for each node, the counter of `s` has grown by the counts of the nodes named `s`, and by nothing else. |
| Analyzer.AddCountsKeys | python-solution/api_analysis_simple.py:230 | The counters after the fold are those before, plus one per node name. |
| Analyzer.AddCountsSum | python-solution/api_analysis_simple.py:230 | The fold adds the sum of the node counts to the total. |
| Analyzer.SubjectTotalsGet | python-solution/api_analysis_simple.py:175-234 | The per-subject counter of `s` is the total count of the subject nodes named `s` over all stages. |
| Analyzer.NodesNamed | python-solution/api_analysis_simple.py:183-227 | The nodes named `s` of a sorted level count the books of the level's entry keyed `s`. |
| Analyzer.RowSubjects | python-solution/api_analysis_simple.py:175-230 | Over a row of stage nodes, the subject nodes named `s` count the books filed under subject `s`. |
| Analyzer.TreeSubjectTotals | python-solution/api_analysis_simple.py:175-234 | The per-subject counter of `s` built from the tree of some books is the number of those books whose subject key is `s`. |
| SubjectTally.SortLevelSumBy | python-solution/api_analysis_simple.py:175 | Sorting a level keeps every total over its entries. |
| SubjectTally.UpsertKeyed | python-solution/api_analysis_simple.py:149 | Filing a book below a level adds one book to the entry of its key and none to any other. |
| SubjectTally.UpsertSubject | python-solution/api_analysis_simple.py:149 | Filing a book below the stage level adds one book under its subject and none under any other. |
| SubjectTally.TreeSubjects | python-solution/api_analysis_simple.py:149 | Summed over the stages, the tree files under subject `s` as many books as have subject key `s`. |
| SubjectTally.InsertBookSubject | python-solution/api_analysis_simple.py:149 | Filing one more book adds one book under its subject, summed over the stages, and none under any other. |
| Analyzer.SmartEduAnalyzer.ProcessSingleBook | python-solution/api_analysis_simple.py:119-149 | Appends the book once and files it at its placeholder key path. |
| Analyzer.SmartEduAnalyzer.CountPublishers | python-solution/api_analysis_simple.py:237-239 | Counts books per publisher, summing to the number of books. |
| Analyzer.SmartEduAnalyzer.BuildTreeStructure | python-solution/api_analysis_simple.py:162-253 | Every node is counted consistently. `total` is the number of books. `by_stage` holds each stage node's count. The stage, subject and publisher counts each sum to the number of books. `by_subject` is `SubjectTotals` of the stage nodes, and its counter of each subject is the number of books with that subject key. |
| Analyzer.SmartEduAnalyzer.GenerateCatalogByPath | python-solution/api_analysis_simple.py:274-296 | Groups the books by their `' > '`-joined non-empty fields. |
| Analyzer.SmartEduAnalyzer.GenerateDownloadList | python-solution/api_analysis_simple.py:311-336 | Groups the books by group key, each entry with its path. |
| Frontend.PdfTasksKept | python-solution/generate_frontend_textbooks.py:50 | The kept tasks are exactly the `.pdf` tasks, in order. |
| Frontend.TaskOfIsPdf | python-solution/generate_download_tasks.py:268-303 | A generated task names a PDF. |
| Frontend.GeneratedTasksKept | python-solution/generate_frontend_textbooks.py:50 | The filter keeps every generated task. |
| Frontend.ShareFor | python-solution/generate_frontend_textbooks.py:69 | Gives the key's own share, or the 小学 share for an unknown key. |
| Frontend.ShareKey | python-solution/generate_frontend_textbooks.py:57-67 | The share key of a stage: a 五•四学制 stage maps to 小学54, 初中54 or itself without the suffix, 特殊教育 to 特教, and any other stage to itself. It has no contract of its own; its cases are stated by the `ShareKey...` lemmas below. |
| Frontend.ShareKeysOfStages | python-solution/generate_frontend_textbooks.py:56-67 | Every catalog stage but the unknown one has its own share. |
| Frontend.UnknownStageShare | python-solution/generate_frontend_textbooks.py:66-69 | 未知学段 falls back to the 小学 share. |
| Frontend.ShareKeyPlain | python-solution/generate_frontend_textbooks.py:56-67 | A stage too short to name 五•四学制 maps to itself, except 特殊教育, which maps to 特教. |
| Frontend.ShareKeyPrimary54 | python-solution/generate_frontend_textbooks.py:57-59 | 小学（五•四学制） maps to 小学54. |
| Frontend.ShareKeyMiddle54 | python-solution/generate_frontend_textbooks.py:60-61 | 初中（五•四学制） maps to 初中54. |
| Frontend.NoPrimaryInMiddle | python-solution/generate_frontend_textbooks.py:58-61 | The middle-school five-four stage does not contain 小学. |
| Frontend.DefaultSizeByPrefix | python-solution/generate_frontend_textbooks.py:75-91 | The default size is looked up by the part before the first `（`, with `10-50MB` otherwise. |
| Frontend.DefaultSize | python-solution/generate_frontend_textbooks.py:75-91 | The default size is one of the four ranges of the size map. |
| Frontend.DefaultSizeOfStages | python-solution/generate_frontend_textbooks.py:75-91 | The default sizes of the catalog's stages. |
| Frontend.SizeOf | python-solution/generate_frontend_textbooks.py:84-91 | A measured size iff `size_bytes` > 0. Otherwise one of the four ranges. |
| Frontend.TextbooksNumbered | python-solution/generate_frontend_textbooks.py:52-107 | Entry i comes from task i with id i + 1, so the ids are 1..n. |
| Frontend.MetaStagesCounted | python-solution/generate_frontend_textbooks.py:110-121 | The meta stages are the counted stages, apart from `""`. |
| Frontend.GenerateFrontendData | python-solution/generate_frontend_textbooks.py:48-149 | Entries of the PDF tasks numbered from 1. `meta.total` is their number. The stage counts sum to it. |
| Frontend.BuildTextbooks | python-solution/generate_frontend_textbooks.py:52-107 | The `enumerate` loop yields exactly `Textbooks`. |
| Frontend.CountStages | python-solution/generate_frontend_textbooks.py:146-149 | Counts entries per stage, summing to the number of entries. |
| Strings.Lower | python-solution/batch_downloader.py:964 | `lower()` maps each character. |
| Strings.JoinSplit | python-solution/generate_download_tasks.py:164 | Joining the parts of `split(c)` with `c` gives the string back. No part contains `c`. |
| Strings.StripShape | python-solution/batch_downloader.py:678 | `strip` leaves a window with no stripped character at either end. |
| Strings.CollapseRunsNoPair | python-solution/generate_download_tasks.py:235 | `re.sub('_+', '_')` leaves no two adjacent underscores. |
| Strings.ReplaceAtLeftmost | python-solution/generate_download_tasks.py:195 | `replace` keeps the text before the leftmost occurrence and rewrites it. |
| Strings.ZeroPad | python-solution/generate_download_tasks.py:151 | `:04d` gives at least four digits. |
| Strings.ParseZeroPad | python-solution/generate_download_tasks.py:151 | The padded number reads back as the number. |
| Counting.Add | python-solution/generate_download_tasks.py:338 | `d[k] = d.get(k, 0) + n` raises one counter and keeps the others. |
| Counting.TallySum | python-solution/generate_download_tasks.py:333-350 | Counting each key once makes the counters sum to the number of keys. |
| Counting.TallyCount | python-solution/generate_download_tasks.py:333-350 | Each counter is the number of occurrences of its key. |

## Left out

- HTTP, JSON and regex `findall` are not modelled. Every server reply is a parameter: the detail items, hot-zone data, thematic resource lists, playlists, HEAD replies and GET bodies. This covers `get_thematic_resources`, `fetch_json`, the fetching in `process_books` and the `findall` of `.mp3` URLs.
- `RateLimiter` is left out because it depends on the clock, `sleep` and a lock.
- The thread pool of `download_batch` is not modelled. Tasks run one after another, so the model has no interleaving.
- The randomised back-off sleep and `format_size` are left out. The MB figure of a measured size is not modelled as a float; it is any measured value.
- Logging, `tqdm`, `argparse` and `main` are left out. So are the JSON file writes (`save_tasks`, `save_failed_tasks`, `save_multimedia_resources`), `print_summary`, `print_statistics`, `generate_directory_preview`, the JavaScript file output and `sys.exit` in `load_tasks`.
- The order in which `glob` lists the download-list files is a parameter of `TaskGen.DownloadTaskGenerator.LoadCatalogData`.
- Integrity modes other than strict, smart and local are not modelled.
- Strings.Lower: lowercases the ASCII letters only. Python's full Unicode case mapping is not modelled.
- TaskGen.CleanTitle: the shape proved is about dots, whitespace and ends. The absence of the removed prefixes afterwards is not claimed, since a removal can join text into a new occurrence.
- TaskGen.SavePathParts: assumes no field starts with `/`. With such a field, `os.path.join` discards what came before; `TaskGen.OsPathJoinRestarts` states that case.
- TaskGen.ParseCatalogPathRoundTrip: assumes fields without `>` and without outer whitespace, as the source's own round trip does.
- Frontend.MetaStagesCounted: states the meta lists as sets. The `sorted` order of the lists is not modelled.
- Downloader.BatchDownloader.DownloadMultimediaResources: states bounds on the downloaded videos and audios and which files may change, not the exact counts or the network state afterwards. Each download's outcome is `RetrySpec` of the state it starts from, but chaining that through both loops made the proofs too costly for the verifier.
- Downloader.BatchDownloader.DownloadVideos: the same; at most the MP4 videos count as downloaded, and only their targets and temporary files may change.
- Downloader.BatchDownloader.DownloadAudios: the same; at most one download per audio is counted, and only their targets and temporary files may change.
- Downloader.BatchDownloader.DownloadTaskPdf: the network state the PDF download starts from is named, and equals the starting state without multimedia. With multimedia it comes after the hot-zone or thematic downloads. Of that state only the file system is constrained, to differ from the start in at most `PdfUrlFiles(task)`. The replies and HEAD answers those downloads consume, and the media counters they raise, are not stated.
- Downloader.BatchDownloader.ProcessTask: the same for the state before the PDF download.
- Downloader.BatchDownloader.ExtractAudioFromHotZone: states which files may change and which record is added, not the replies consumed or the audio counter; the same holds for `GetNormalPdfUrl`, `GetThematicPdfUrl` and `GetPdfUrl` with multimedia on.
- Paths.Parts: a leading `//`, which `pathlib` keeps as a root of its own, is read as the root `/`. `..` stays a component, as in `pathlib`; nothing resolves it.
- Downloader.BatchDownloader.DownloadBatch: models the counters as the code raises them, with multimedia-only tasks counted twice (see Findings).
- Two tasks that map to the same file are not ruled out; the model treats them as the same path.
- `share_info` is computed but never written to an entry, so no entry carries a share.
- A task's group comes from the list's `group` key, falling back to the file stem without `download_list_`. The analyser always writes that key, and every generated task carries a group, so the `未知` default of `generate_statistics` can never apply and is not modelled.
- Paths.JoinPath, `Paths.Parts` and `TaskGen.OsPathJoin` model POSIX paths only: `/` is the sole separator, and there are no drive letters or backslashes.
- Download-list entries carry no publisher, so generated tasks have an empty publisher.

## Findings

| source | as written | input that shows it | evidently intended | confidence | as-written member | corrected member |
|---|---|---|---|---|---|---|
| python-solution/batch_downloader.py:809, python-solution/batch_downloader.py:871-872 | `process_task` raises `stats["multimedia"]` for a thematic course with multimedia and no PDF, and `download_batch` raises it again for the returned `multimedia_only` | a batch of one such task reports `multimedia == 2`, and the four counters sum to 2 for one task | each task counted once, so success, failed, skipped and multimedia add up to the batch size | not executed | Downloader.MultimediaCountedTwice | Downloader.TallyOfTotal |
