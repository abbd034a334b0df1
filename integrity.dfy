/**
 * The file-integrity classifier of the batch downloader: it decides
 * whether a file already on disk is complete, from its name, its size,
 * its leading and trailing bytes and, in strict mode, the length the
 * server advertises for it in reply to a HEAD request.
 */
module Integrity {
  import opened Strings
  import opened Paths

  /** The three values `--integrity-mode` accepts. */
  datatype Mode = Local | Smart | Strict

  /**
   * The server's reply to a HEAD request: a request error or an error
   * status, the advertised `Content-Length` (0 when the header is absent),
   * or a `Content-Length` that is not an integer.
   */
  datatype HeadReply = HeadFailed | HeadOk(contentLength: int) | HeadBadLength

  /** Why a verdict was reached; the messages of the source, without their text. */
  datatype Reason =
    | Missing
    | TooSmall(size: nat)
    | LocalOk
    | PdfTooSmall(size: nat)
    | BadPdfHeader
    | NoEofMarker
    | AudioTooSmall(size: nat)
    | BadMp3
    | SmartOk
    /** Not a verdict: `int()` of the HEAD reply's length raised, and the exception leaves the check. */
    | BadRemoteLength
    | SizeMismatch(local: nat, remote: int)
    | StrictOk
    | DefaultOk

  /** `(is_complete, reason)`. */
  datatype Verdict = Verdict(complete: bool, reason: Reason)

  /** `b'%PDF-'` */
  const PdfMagic: seq<byte> := [0x25, 0x50, 0x44, 0x46, 0x2D]
  /** `b'%%EOF'` */
  const EofMarker: seq<byte> := [0x25, 0x25, 0x45, 0x4F, 0x46]
  /** `b'ID3'` */
  const Id3Tag: seq<byte> := [0x49, 0x44, 0x33]
  /** `b'\xff\xfb'`, an MPEG frame sync. */
  const SyncFB: seq<byte> := [0xFF, 0xFB]
  /** `b'\xff\xfa'`, an MPEG frame sync. */
  const SyncFA: seq<byte> := [0xFF, 0xFA]

  const LocalMinSize := 1024
  const PdfMinSize := 10 * 1024
  const AudioMinSize := 5 * 1024
  const OtherMinSize := 100
  /** The PDF end marker is looked for in this many trailing bytes. */
  const PdfTailSize := 1024
  /** An MP3 frame sync is looked for in this many leading bytes. */
  const Mp3ScanSize := 4096

  function Min(a: int, b: int): int
  {
    if a < b then a else b
  }

  /** `f.read(n)` from the start of the file: at most `n` leading bytes. */
  function Head(data: seq<byte>, n: nat): (r: seq<byte>)
    ensures |r| == Min(n, |data|) && r == data[..|r|]
  {
    data[..Min(n, |data|)]
  }

  /** The MP3 signature test: an ID3 tag or a frame sync at the start, or a frame sync early on. */
  predicate Mp3Signature(data: seq<byte>)
  {
    Head(data, 3) == Id3Tag || Head(data, 2) == SyncFB
    || Contains(Head(data, Mp3ScanSize), SyncFB) || Contains(Head(data, Mp3ScanSize), SyncFA)
  }

  /** The smart-mode verdict for an existing file with this name and contents. */
  function SmartVerdict(name: string, data: seq<byte>): (r: Verdict)
    ensures Suffix(name) == ".pdf" && |data| < PdfMinSize ==> !r.complete
    ensures (Suffix(name) == ".mp3" || Suffix(name) == ".m4a") && |data| < AudioMinSize ==> !r.complete
    ensures Suffix(name) == ".m4a" && |data| >= AudioMinSize ==> r.complete
    ensures Suffix(name) !in {".pdf", ".mp3", ".m4a"} ==> (r.complete <==> |data| >= OtherMinSize)
  {
    var size := |data|;
    var suffix := Suffix(name);
    if suffix == ".pdf" then
      if size < PdfMinSize then Verdict(false, PdfTooSmall(size))
      else if data[..5] != PdfMagic then Verdict(false, BadPdfHeader)
      else if !Contains(data[size - PdfTailSize..], EofMarker) then Verdict(false, NoEofMarker)
      else Verdict(true, SmartOk)
    else if suffix == ".mp3" || suffix == ".m4a" then
      if size < AudioMinSize then Verdict(false, AudioTooSmall(size))
      else if suffix == ".mp3" && !Mp3Signature(data) then Verdict(false, BadMp3)
      else Verdict(true, SmartOk)
    else if size < OtherMinSize then Verdict(false, TooSmall(size))
    else Verdict(true, SmartOk)
  }

  /** The local-mode verdict for an existing file: only its size counts. */
  function LocalVerdict(data: seq<byte>): (r: Verdict)
    ensures r.complete <==> |data| >= LocalMinSize
  {
    if |data| < LocalMinSize then Verdict(false, TooSmall(|data|)) else Verdict(true, LocalOk)
  }

  /** Strict mode consults the server only for an existing file with a URL. */
  predicate UsesHead(mode: Mode, fs: FileSystem, path: Path, url: string)
  {
    path in fs && mode == Strict && url != ""
  }

  /**
   * `check_file_integrity(path, url)` in a mode, where `head` is the reply
   * the server gives if a HEAD request is made; an empty URL is `None`.
   */
  function FileVerdict(mode: Mode, fs: FileSystem, path: Path, url: string, head: HeadReply): (r: Verdict)
    ensures path !in fs ==> r == Verdict(false, Missing)
    ensures path in fs && mode == Local ==> (r.complete <==> |fs[path]| >= LocalMinSize)
    ensures path in fs && mode == Smart ==> r == SmartVerdict(Name(path), fs[path])
    ensures path in fs && mode == Strict && url == "" ==> r.complete
    ensures UsesHead(mode, fs, path, url) && head.HeadOk? && head.contentLength != 0 ==>
              (r.complete <==> |fs[path]| == head.contentLength)
    ensures UsesHead(mode, fs, path, url) && (head == HeadFailed || head == HeadOk(0)) ==>
              r == SmartVerdict(Name(path), fs[path])
    ensures r.reason == BadRemoteLength <==> UsesHead(mode, fs, path, url) && head == HeadBadLength
    ensures r.reason == BadRemoteLength ==> !r.complete
  {
    if path !in fs then Verdict(false, Missing)
    else
      var data := fs[path];
      match mode
      case Local => LocalVerdict(data)
      case Smart => SmartVerdict(Name(path), data)
      case Strict =>
        if url == "" then Verdict(true, DefaultOk)
        else match head
          case HeadFailed => SmartVerdict(Name(path), data)
          case HeadOk(remote) =>
            if remote == 0 then SmartVerdict(Name(path), data)
            else if |data| != remote then Verdict(false, SizeMismatch(|data|, remote))
            else Verdict(true, StrictOk)
          case HeadBadLength => Verdict(false, BadRemoteLength)
  }

  /** A PDF large enough for the smart check is complete iff it starts with `%PDF-` and `%%EOF` occurs in its last 1024 bytes. */
  lemma PdfVerdict(name: string, data: seq<byte>)
    requires Suffix(name) == ".pdf" && |data| >= PdfMinSize
    ensures SmartVerdict(name, data).complete <==>
              data[..5] == PdfMagic
              && exists i :: |data| - PdfTailSize <= i && OccursAt(data, EofMarker, i)
  {
    var lo := |data| - PdfTailSize;
    var tail := data[lo..];
    ContainsIff(tail, EofMarker);
    forall i | OccursAt(tail, EofMarker, i) ensures OccursAt(data, EofMarker, lo + i) {
      SliceOfSlice(data, lo, |data|, i, i + |EofMarker|);
    }
    forall i | lo <= i && OccursAt(data, EofMarker, i) ensures OccursAt(tail, EofMarker, i - lo) {
      SliceOfSlice(data, lo, |data|, i - lo, i - lo + |EofMarker|);
    }
  }

  /**
   * An `.mp3` large enough for the smart check is complete iff it starts
   * with `ID3` or FF FB, or FF FB or FF FA occurs within its first 4096 bytes.
   */
  lemma Mp3Verdict(name: string, data: seq<byte>)
    requires Suffix(name) == ".mp3" && |data| >= AudioMinSize
    ensures SmartVerdict(name, data).complete <==>
              data[..3] == Id3Tag || data[..2] == SyncFB
              || exists i :: i + 2 <= Mp3ScanSize
                               && (OccursAt(data, SyncFB, i) || OccursAt(data, SyncFA, i))
  {
    var h := data[..Mp3ScanSize];
    assert Head(data, Mp3ScanSize) == h;
    ContainsIff(h, SyncFB);
    ContainsIff(h, SyncFA);
    forall i, pat | pat in {SyncFB, SyncFA} && OccursAt(h, pat, i)
      ensures i + 2 <= Mp3ScanSize && OccursAt(data, pat, i)
    {
      SliceOfSlice(data, 0, Mp3ScanSize, i, i + 2);
    }
    forall i, pat | pat in {SyncFB, SyncFA} && i + 2 <= Mp3ScanSize && OccursAt(data, pat, i)
      ensures OccursAt(h, pat, i)
    {
      SliceOfSlice(data, 0, Mp3ScanSize, i, i + 2);
    }
  }

  /** The reply to the next HEAD request; a request nobody answers fails. */
  function NextHead(heads: seq<HeadReply>): HeadReply
  {
    if heads == [] then HeadFailed else heads[0]
  }

  function Rest<T>(s: seq<T>): seq<T>
  {
    if s == [] then [] else s[1..]
  }

  /**
   * `IntegrityChecker`: the mode and the server's replies to its HEAD
   * requests, consumed one per request.
   */
  class IntegrityChecker {
    var mode: Mode
    var heads: seq<HeadReply>

    constructor (mode: Mode, heads: seq<HeadReply>)
      ensures this.mode == mode && this.heads == heads
    {
      this.mode := mode;
      this.heads := heads;
    }

    /** `check_file_integrity(file_path, url)`. */
    method CheckFileIntegrity(fs: FileSystem, path: Path, url: string) returns (v: Verdict)
      modifies this
      decreases if mode == Strict then 2 else 0
      ensures mode == old(mode)
      ensures v == FileVerdict(old(mode), fs, path, url, NextHead(old(heads)))
      ensures heads == if UsesHead(old(mode), fs, path, url) then Rest(old(heads)) else old(heads)
    {
      if path !in fs {
        return Verdict(false, Missing);
      }
      var size := |fs[path]|;
      if mode == Local {
        if size < LocalMinSize {
          return Verdict(false, TooSmall(size));
        }
        return Verdict(true, LocalOk);
      } else if mode == Smart {
        v := SmartVerdict(Name(path), fs[path]);
        return;
      } else if mode == Strict && url != "" {
        var reply := NextHead(heads);
        heads := Rest(heads);
        if reply.HeadFailed? {
          v := FallbackToSmartCheck(fs, path);
          return;
        }
        if reply.HeadBadLength? {
          return Verdict(false, BadRemoteLength);
        }
        var remote := reply.contentLength;
        if remote == 0 {
          v := FallbackToSmartCheck(fs, path);
          return;
        }
        if size != remote {
          return Verdict(false, SizeMismatch(size, remote));
        }
        return Verdict(true, StrictOk);
      }
      return Verdict(true, DefaultOk);
    }

    /** `_fallback_to_smart_check`: a smart-mode check, with the mode restored afterwards. */
    method FallbackToSmartCheck(fs: FileSystem, path: Path) returns (v: Verdict)
      modifies this
      decreases 1
      ensures mode == old(mode) && heads == old(heads)
      ensures v == FileVerdict(Smart, fs, path, "", HeadFailed)
    {
      var originalMode := mode;
      mode := Smart;
      v := CheckFileIntegrity(fs, path, "");
      mode := originalMode;
    }
  }
}
