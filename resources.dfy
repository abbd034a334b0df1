/**
 * The decisions the downloader takes on already-parsed resource
 * descriptions: where a textbook's PDF and hot-zone data are, which
 * videos, audios and document of a thematic course it takes, whether an
 * HLS playlist is DRM-protected, and where multimedia files are saved.
 */
module Resources {
  import opened Strings
  import opened Paths
  import opened Wrappers

  /** An entry of `ti_items` in a textbook's details. */
  datatype DetailItem = DetailItem(format: string, fileFlag: string, storages: seq<string>)

  predicate IsPdfItem(it: DetailItem)
  {
    it.format == "pdf" && it.storages != []
  }

  predicate IsHotZoneItem(it: DetailItem)
  {
    it.fileFlag == "hot_zone" && it.storages != []
  }

  /**
   * The first storage URL of the first item satisfying `p`, or `""` when
   * there is none (the source's `None`; an empty URL is just as falsy).
   */
  function FirstStorage(items: seq<DetailItem>, p: DetailItem -> bool): (r: string)
    requires forall i :: 0 <= i < |items| && p(items[i]) ==> items[i].storages != []
    ensures (forall i :: 0 <= i < |items| ==> !p(items[i])) ==> r == ""
    ensures forall i :: 0 <= i < |items| && p(items[i]) && (forall j :: 0 <= j < i ==> !p(items[j])) ==>
              r == items[i].storages[0]
  {
    if items == [] then ""
    else if p(items[0]) then items[0].storages[0]
    else
      var r := FirstStorage(items[1..], p);
      assert forall i :: 1 <= i < |items| ==> items[1..][i - 1] == items[i];
      r
  }

  /** The PDF URL of a textbook, `get_normal_pdf_url`'s search. */
  function NormalPdfUrl(items: seq<DetailItem>): string
  {
    FirstStorage(items, IsPdfItem)
  }

  /** The hot-zone data URL of a textbook, `extract_audio_from_hot_zone`'s search. */
  function HotZoneUrl(items: seq<DetailItem>): string
  {
    FirstStorage(items, IsHotZoneItem)
  }

  /** An audio file to fetch; `hotzoneNumber` is `""` when the source has none. */
  datatype Audio = Audio(title: string, url: string, format: string, hotzoneNumber: string)

  /** A video of a thematic course. */
  datatype Video = Video(title: string, resourceId: string, url: string, format: string, hasDrm: bool)

  /** The `{"videos": ..., "audios": ...}` found for one task (`images` stays empty). */
  datatype Media = Media(videos: seq<Video>, audios: seq<Audio>)

  /** `any(multimedia_resources.values())` */
  predicate HasMedia(m: Media)
  {
    m.videos != [] || m.audios != []
  }

  /** An element of the hot-zone JSON array; a missing key is `None`. */
  datatype HotZoneEntry = HotZoneEntry(audioSrc: Option<string>, audioName: Option<string>, hotzoneNumber: string)

  /**
   * The hot-zone data as the downloader decodes it: a JSON array, some
   * other JSON value, or text that is not JSON, given by the `.mp3` URLs
   * found in it.
   */
  datatype HotZoneData = JsonList(entries: seq<HotZoneEntry>) | JsonOther | PlainText(mp3Urls: seq<string>)

  function HotZoneEntryAudios(entries: seq<HotZoneEntry>): (r: seq<Audio>)
    ensures |r| <= |entries|
    ensures forall a :: a in r ==> a.format == "mp3"
  {
    if entries == [] then []
    else
      var e := entries[0];
      (if e.audioSrc.Some? && e.audioName.Some?
       then [Audio(e.audioName.value, e.audioSrc.value, "mp3", e.hotzoneNumber)] else [])
      + HotZoneEntryAudios(entries[1..])
  }

  function NumberedAudios(urls: seq<string>, from: nat): (r: seq<Audio>)
    ensures |r| == |urls|
    ensures forall i :: 0 <= i < |urls| ==>
              r[i] == Audio("音频_" + NatToString(from + i + 1), urls[i], "mp3", "AUDIO-" + NatToString(from + i + 1))
  {
    if urls == [] then []
    else [Audio("音频_" + NatToString(from + 1), urls[0], "mp3", "AUDIO-" + NatToString(from + 1))]
         + NumberedAudios(urls[1..], from + 1)
  }

  /**
   * The audios of the hot-zone data: the array entries with both
   * `audio_src` and `audio_name`, or the URLs of plain text numbered from 1.
   */
  function HotZoneAudios(d: HotZoneData): seq<Audio>
  {
    match d
    case JsonList(entries) => HotZoneEntryAudios(entries)
    case JsonOther => []
    case PlainText(urls) => NumberedAudios(urls, 0)
  }

  const DrmKeyServer := "ndvideo-key.ykt.eduyun.cn"
  const ExtXKey := "#EXT-X-KEY"

  /**
   * `check_m3u8_drm(url)`; `playlists` holds the playlists the server
   * returns, and a URL that is not a key cannot be fetched.
   */
  predicate M3u8Drm(playlists: map<string, string>, url: string)
  {
    url !in playlists || (Contains(playlists[url], ExtXKey) && Contains(playlists[url], DrmKeyServer))
  }

  /** An item of a thematic-course resource; `encryption` is `""` when `custom_properties` has none. */
  datatype ThematicItem = ThematicItem(format: string, storages: seq<string>, encryption: string)

  /** A resource of a thematic course; absent fields are `None`. */
  datatype ThematicResource = ThematicResource(
    typeCode: string, title: Option<string>, id: string, items: seq<ThematicItem>)

  function TitleOf(r: ThematicResource): string
  {
    if r.title.Some? then r.title.value else "未知资源"
  }

  const VideoFormats := ["mp4", "video/mp4", "m3u8", "video/m3u8"]
  const AudioFormats := ["mp3", "audio/mp3", "wav", "m4a"]

  predicate IsVideoItem(it: ThematicItem)
  {
    it.format in VideoFormats && it.storages != []
  }

  predicate IsAudioItem(it: ThematicItem)
  {
    it.format in AudioFormats && it.storages != []
  }

  predicate IsThematicPdfItem(it: ThematicItem)
  {
    it.format == "pdf" && it.storages != []
  }

  /** The index of the first item satisfying `p`, if any. */
  function FirstItem(items: seq<ThematicItem>, p: ThematicItem -> bool): (r: Option<nat>)
    ensures r.Some? ==> r.value < |items| && p(items[r.value]) && forall j :: 0 <= j < r.value ==> !p(items[j])
    ensures r.None? ==> forall j :: 0 <= j < |items| ==> !p(items[j])
  {
    FirstItemFrom(items, p, 0)
  }

  function FirstItemFrom(items: seq<ThematicItem>, p: ThematicItem -> bool, from: nat): (r: Option<nat>)
    ensures r.Some? ==> from <= r.value < |items| && p(items[r.value]) && forall j :: from <= j < r.value ==> !p(items[j])
    ensures r.None? ==> forall j :: from <= j < |items| ==> !p(items[j])
    decreases |items| - from
  {
    if from >= |items| then None
    else if p(items[from]) then Some(from)
    else FirstItemFrom(items, p, from + 1)
  }

  /** The video record `get_thematic_pdf_url` makes of a resource's item. */
  function VideoOf(r: ThematicResource, it: ThematicItem, playlists: map<string, string>): Video
    requires it.storages != []
  {
    var url := it.storages[0];
    var format := if Contains(it.format, "m3u8") then "m3u8" else "mp4";
    var drm := it.encryption == "drm";
    Video(TitleOf(r), r.id, url, format, if format == "m3u8" && !drm then M3u8Drm(playlists, url) else drm)
  }

  function AudioOf(r: ThematicResource, it: ThematicItem): Audio
    requires it.storages != []
  {
    Audio(TitleOf(r), it.storages[0], Replace(it.format, "audio/", ""), "")
  }

  /** What the scan of a thematic course has found so far. */
  datatype Scan = Scan(pdfUrl: string, media: Media)

  /** A video resource adds the video of its first usable item. */
  function VideoStep(s: Scan, r: ThematicResource, playlists: map<string, string>): Scan
  {
    match FirstItem(r.items, IsVideoItem)
    case None => s
    case Some(i) => s.(media := s.media.(videos := s.media.videos + [VideoOf(r, r.items[i], playlists)]))
  }

  /** An audio resource adds the audio of its first usable item. */
  function AudioStep(s: Scan, r: ThematicResource): Scan
  {
    match FirstItem(r.items, IsAudioItem)
    case None => s
    case Some(i) => s.(media := s.media.(audios := s.media.audios + [AudioOf(r, r.items[i])]))
  }

  /** A document resource sets the PDF URL from its first PDF item. */
  function DocumentStep(s: Scan, r: ThematicResource): Scan
  {
    match FirstItem(r.items, IsThematicPdfItem)
    case None => s
    case Some(i) => s.(pdfUrl := r.items[i].storages[0])
  }

  /** One resource of the scan. */
  function ScanStep(s: Scan, r: ThematicResource, enableMultimedia: bool, playlists: map<string, string>): Scan
  {
    if r.typeCode == "assets_video" && enableMultimedia then VideoStep(s, r, playlists)
    else if r.typeCode == "assets_audio" && enableMultimedia then AudioStep(s, r)
    else if r.typeCode == "assets_document" && s.pdfUrl == "" then DocumentStep(s, r)
    else s
  }

  /** The scan of all resources, in order. */
  function ScanAll(rs: seq<ThematicResource>, enableMultimedia: bool, playlists: map<string, string>): Scan
  {
    if rs == [] then Scan("", Media([], []))
    else ScanStep(ScanAll(rs[..|rs| - 1], enableMultimedia, playlists), rs[|rs| - 1], enableMultimedia, playlists)
  }

  /** The PDF URL a document resource offers, `""` when it offers none. */
  function DocumentPdf(r: ThematicResource): string
  {
    match FirstItem(r.items, IsThematicPdfItem)
    case None => ""
    case Some(i) => r.items[i].storages[0]
  }

  predicate IsDocument(r: ThematicResource)
  {
    r.typeCode == "assets_document"
  }

  /** The item loop for a video resource. */
  method ScanVideo(resource: ThematicResource, media: Media, playlists: map<string, string>) returns (media': Media)
    ensures Scan("", media') == VideoStep(Scan("", media), resource, playlists)
  {
    media' := media;
    var items := resource.items;
    var j := 0;
    while j < |items|
      invariant 0 <= j <= |items|
      invariant forall i :: 0 <= i < j ==> !IsVideoItem(items[i])
    {
      var item := items[j];
      var hasDrm := item.encryption == "drm";
      if item.format in VideoFormats && item.storages != [] {
        var videoUrl := item.storages[0];
        var actualFormat := if Contains(item.format, "m3u8") then "m3u8" else "mp4";
        if actualFormat == "m3u8" && !hasDrm {
          hasDrm := M3u8Drm(playlists, videoUrl);
        }
        media' := media.(videos := media.videos + [Video(TitleOf(resource), resource.id, videoUrl, actualFormat, hasDrm)]);
        assert FirstItem(items, IsVideoItem) == Some(j);
        return;
      }
      j := j + 1;
    }
  }

  /** The item loop for an audio resource. */
  method ScanAudio(resource: ThematicResource, media: Media) returns (media': Media)
    ensures Scan("", media') == AudioStep(Scan("", media), resource)
  {
    media' := media;
    var items := resource.items;
    var j := 0;
    while j < |items|
      invariant 0 <= j <= |items|
      invariant forall i :: 0 <= i < j ==> !IsAudioItem(items[i])
    {
      var item := items[j];
      if item.format in AudioFormats && item.storages != [] {
        media' := media.(audios := media.audios + [Audio(TitleOf(resource), item.storages[0], Replace(item.format, "audio/", ""), "")]);
        assert FirstItem(items, IsAudioItem) == Some(j);
        return;
      }
      j := j + 1;
    }
  }

  /** The item loop for a document resource. */
  method ScanDocument(resource: ThematicResource) returns (pdfUrl: string)
    ensures Scan(pdfUrl, Media([], [])) == DocumentStep(Scan("", Media([], [])), resource)
  {
    pdfUrl := "";
    var items := resource.items;
    var j := 0;
    while j < |items|
      invariant 0 <= j <= |items|
      invariant forall i :: 0 <= i < j ==> !IsThematicPdfItem(items[i])
    {
      var item := items[j];
      if item.format == "pdf" && item.storages != [] {
        pdfUrl := item.storages[0];
        assert FirstItem(items, IsThematicPdfItem) == Some(j);
        return;
      }
      j := j + 1;
    }
  }

  /**
   * The classification loop of `get_thematic_pdf_url`: the first item of
   * each video, audio or document resource that has a usable format and a
   * storage URL; documents are looked at until a PDF URL is found.
   */
  method ClassifyResources(resources: seq<ThematicResource>, enableMultimedia: bool, playlists: map<string, string>)
    returns (pdfUrl: string, media: Media)
    ensures Scan(pdfUrl, media) == ScanAll(resources, enableMultimedia, playlists)
  {
    pdfUrl := "";
    media := Media([], []);
    for k := 0 to |resources|
      invariant Scan(pdfUrl, media) == ScanAll(resources[..k], enableMultimedia, playlists)
    {
      var resource := resources[k];
      assert resources[..k + 1][..k] == resources[..k];
      if resource.typeCode == "assets_video" && enableMultimedia {
        media := ScanVideo(resource, media, playlists);
      } else if resource.typeCode == "assets_audio" && enableMultimedia {
        media := ScanAudio(resource, media);
      } else if resource.typeCode == "assets_document" && pdfUrl == "" {
        pdfUrl := ScanDocument(resource);
      }
    }
    assert resources[..|resources|] == resources;
  }

  /**
   * The PDF URL of a thematic course is the PDF offered by the first
   * document resource that offers a non-empty one, and `""` when none does.
   */
  lemma {:induction false} ScanPdfUrl(rs: seq<ThematicResource>, enableMultimedia: bool, playlists: map<string, string>)
    ensures var u := ScanAll(rs, enableMultimedia, playlists).pdfUrl;
            && (u == "" ==> forall i :: 0 <= i < |rs| && IsDocument(rs[i]) ==> DocumentPdf(rs[i]) == "")
            && (u != "" ==> exists i :: 0 <= i < |rs| && IsDocument(rs[i]) && DocumentPdf(rs[i]) == u
                              && forall j :: 0 <= j < i && IsDocument(rs[j]) ==> DocumentPdf(rs[j]) == "")
    decreases |rs|
  {
    if rs != [] {
      var init := rs[..|rs| - 1];
      var last := rs[|rs| - 1];
      ScanPdfUrl(init, enableMultimedia, playlists);
      var before := ScanAll(init, enableMultimedia, playlists).pdfUrl;
      var u := ScanAll(rs, enableMultimedia, playlists).pdfUrl;
      assert forall i :: 0 <= i < |init| ==> rs[i] == init[i];
      if before != "" {
        assert u == before;
        var i :| 0 <= i < |init| && IsDocument(init[i]) && DocumentPdf(init[i]) == before
                 && forall j :: 0 <= j < i && IsDocument(init[j]) ==> DocumentPdf(init[j]) == "";
        assert IsDocument(rs[i]) && DocumentPdf(rs[i]) == u;
      } else if IsDocument(last) {
        assert u == DocumentPdf(last);
        if u != "" {
          assert IsDocument(rs[|rs| - 1]) && DocumentPdf(rs[|rs| - 1]) == u;
        }
      } else {
        assert u == before;
      }
    }
  }

  /**
   * Videos and audios are only collected with multimedia enabled; every
   * video is an MP4 or an HLS playlist, marked DRM-protected when its item
   * says so or, for a playlist, when the playlist probe says so.
   */
  lemma {:induction false} ScanMedia(rs: seq<ThematicResource>, enableMultimedia: bool, playlists: map<string, string>)
    ensures var m := ScanAll(rs, enableMultimedia, playlists).media;
            && (!enableMultimedia ==> m == Media([], []))
            && |m.videos| + |m.audios| <= |rs|
            && (forall v :: v in m.videos ==> v.format in {"mp4", "m3u8"})
            && (forall v :: v in m.videos && v.format == "m3u8" && !v.hasDrm ==> v.url in playlists)
  {
    ScanMediaOk(rs, enableMultimedia, playlists);
  }

  /** What `ScanMedia` states of the media collected from `n` resources. */
  predicate MediaOk(m: Media, n: nat, enableMultimedia: bool, playlists: map<string, string>)
  {
    && (!enableMultimedia ==> m == Media([], []))
    && |m.videos| + |m.audios| <= n
    && (forall v :: v in m.videos ==> v.format in {"mp4", "m3u8"})
    && (forall v :: v in m.videos && v.format == "m3u8" && !v.hasDrm ==> v.url in playlists)
  }

  lemma {:induction false} ScanMediaOk(rs: seq<ThematicResource>, enableMultimedia: bool, playlists: map<string, string>)
    ensures MediaOk(ScanAll(rs, enableMultimedia, playlists).media, |rs|, enableMultimedia, playlists)
    decreases |rs|
  {
    if rs != [] {
      var init := rs[..|rs| - 1];
      ScanMediaOk(init, enableMultimedia, playlists);
      ScanStepOk(ScanAll(init, enableMultimedia, playlists), rs[|rs| - 1], |init|, enableMultimedia, playlists);
    }
  }

  /** One resource adds at most one video or audio, and keeps `MediaOk`. */
  lemma ScanStepOk(s: Scan, r: ThematicResource, n: nat, enableMultimedia: bool, playlists: map<string, string>)
    requires MediaOk(s.media, n, enableMultimedia, playlists)
    ensures MediaOk(ScanStep(s, r, enableMultimedia, playlists).media, n + 1, enableMultimedia, playlists)
  {
    if r.typeCode == "assets_video" && enableMultimedia {
      VideoStepOk(s, r, n, enableMultimedia, playlists);
    } else if r.typeCode == "assets_audio" && enableMultimedia {
      match FirstItem(r.items, IsAudioItem)
      case None =>
      case Some(i) =>
        var m := s.media.(audios := s.media.audios + [AudioOf(r, r.items[i])]);
        assert m.videos == s.media.videos;
    }
  }

  lemma VideoStepOk(s: Scan, r: ThematicResource, n: nat, enableMultimedia: bool, playlists: map<string, string>)
    requires MediaOk(s.media, n, enableMultimedia, playlists) && enableMultimedia
    ensures MediaOk(VideoStep(s, r, playlists).media, n + 1, enableMultimedia, playlists)
  {
    match FirstItem(r.items, IsVideoItem)
    case None =>
    case Some(i) =>
      var v := VideoOf(r, r.items[i], playlists);
      assert v.format in {"mp4", "m3u8"};
      assert v.format == "m3u8" && !v.hasDrm ==> v.url in playlists;
      var vs := s.media.videos + [v];
      assert forall w :: w in vs ==> w in s.media.videos || w == v;
  }

  /** An HLS playlist that cannot be fetched is treated as DRM-protected. */
  lemma UnreachablePlaylistIsDrm(playlists: map<string, string>, url: string)
    requires url !in playlists
    ensures M3u8Drm(playlists, url)
  {
  }

  /**
   * A fetched playlist is DRM-protected exactly when it names a key
   * (`#EXT-X-KEY`) and the DRM key server somewhere in its text.
   */
  lemma FetchedPlaylistDrm(playlists: map<string, string>, url: string)
    requires url in playlists
    ensures M3u8Drm(playlists, url) <==>
              (exists i :: OccursAt(playlists[url], ExtXKey, i))
              && (exists j :: OccursAt(playlists[url], DrmKeyServer, j))
  {
    ContainsIff(playlists[url], ExtXKey);
    ContainsIff(playlists[url], DrmKeyServer);
  }

  /** The characters `sanitize_filename` replaces by `_`. */
  const IllegalChars: seq<char> := ['<', '>', ':', '"', '/', '\\', '|', '?', '*']

  /** Every illegal character replaced by `_`. */
  function ReplaceIllegal(s: string): (r: string)
    ensures |r| == |s|
  {
    if s == [] then [] else [if s[0] in IllegalChars then '_' else s[0]] + ReplaceIllegal(s[1..])
  }

  /** Each illegal character becomes `_` and every other character stays. */
  lemma {:induction false} ReplaceIllegalChars(s: string)
    ensures forall k :: 0 <= k < |s| ==> ReplaceIllegal(s)[k] == if s[k] in IllegalChars then '_' else s[k]
  {
    if s != [] {
      ReplaceIllegalChars(s[1..]);
      forall k | 1 <= k < |s| ensures ReplaceIllegal(s)[k] == ReplaceIllegal(s[1..])[k - 1] {
      }
    }
  }

  const MaxFileNameLength := 100

  /** The name `sanitize_filename` returns. */
  function Sanitized(s: string): string
  {
    var t := Strip(ReplaceIllegal(s), {'.', ' '});
    if |t| > MaxFileNameLength then t[..MaxFileNameLength] else t
  }

  /** `sanitize_filename(filename)` */
  method SanitizeFilename(filename: string) returns (r: string)
    ensures r == Sanitized(filename)
  {
    r := filename;
    for i := 0 to |IllegalChars|
      invariant |r| == |filename|
      invariant forall k :: 0 <= k < |r| ==> r[k] == if filename[k] in IllegalChars[..i] then '_' else filename[k]
    {
      r := ReplaceChar(r, IllegalChars[i], '_');
      assert forall c :: c in IllegalChars[..i + 1] <==> c in IllegalChars[..i] || c == IllegalChars[i];
    }
    assert IllegalChars[..|IllegalChars|] == IllegalChars;
    ReplaceIllegalChars(filename);
    assert r == ReplaceIllegal(filename);
    r := Strip(r, {'.', ' '});
    if |r| > MaxFileNameLength {
      r := r[..MaxFileNameLength];
    }
  }

  /** No illegal character survives the replacement. */
  lemma ReplaceIllegalLegal(s: string)
    ensures forall k :: 0 <= k < |ReplaceIllegal(s)| ==> ReplaceIllegal(s)[k] !in IllegalChars
  {
    ReplaceIllegalChars(s);
    assert '_' !in IllegalChars;
  }

  /** No character of `t` is one of `cs`. */
  predicate Avoids(t: string, cs: seq<char>)
  {
    forall k :: 0 <= k < |t| ==> t[k] !in cs
  }

  /** A window of a sequence avoids whatever the whole sequence avoids. */
  lemma WindowAvoids(u: string, lo: int, hi: int, cs: seq<char>)
    requires 0 <= lo <= hi <= |u| && Avoids(u, cs)
    ensures Avoids(u[lo..hi], cs)
  {
    forall k | 0 <= k < hi - lo ensures u[lo..hi][k] !in cs {
      assert u[lo..hi][k] == u[lo + k];
    }
  }

  /** A prefix of a sequence avoids whatever the whole sequence avoids. */
  lemma PrefixAvoids(t: string, n: int, cs: seq<char>)
    requires 0 <= n <= |t| && Avoids(t, cs)
    ensures Avoids(t[..n], cs)
  {
    forall k | 0 <= k < n ensures t[..n][k] !in cs {
      assert t[..n][k] == t[k];
    }
  }

  /** Stripping dots and spaces from a name with its illegal characters replaced leaves none. */
  lemma StrippedLegal(s: string)
    ensures Avoids(Strip(ReplaceIllegal(s), {'.', ' '}), IllegalChars)
  {
    var u := ReplaceIllegal(s);
    ReplaceIllegalLegal(s);
    var t := Strip(u, {'.', ' '});
    StripShape(u, {'.', ' '});
    var lo, hi :| 0 <= lo <= hi <= |u| && t == u[lo..hi];
    WindowAvoids(u, lo, hi, IllegalChars);
  }

  /** A sanitized name has no illegal character and at most 100 characters. */
  lemma SanitizedLegal(s: string)
    ensures forall k :: 0 <= k < |Sanitized(s)| ==> Sanitized(s)[k] !in IllegalChars
    ensures |Sanitized(s)| <= MaxFileNameLength
  {
    var t := Strip(ReplaceIllegal(s), {'.', ' '});
    StrippedLegal(s);
    var r := Sanitized(s);
    if |t| > MaxFileNameLength {
      PrefixAvoids(t, MaxFileNameLength, IllegalChars);
      assert r == t[..MaxFileNameLength];
    } else {
      assert r == t;
    }
    assert Avoids(r, IllegalChars);
  }

  /**
   * A sanitized name does not start with a dot or a space; it does not end
   * with one either unless it was cut at 100 characters.
   */
  lemma SanitizedEnds(s: string)
    ensures var r := Sanitized(s);
            && (r != [] ==> r[0] != '.' && r[0] != ' ')
            && (|Strip(ReplaceIllegal(s), {'.', ' '})| <= MaxFileNameLength && r != [] ==>
                  r[|r| - 1] != '.' && r[|r| - 1] != ' ')
  {
    StripShape(ReplaceIllegal(s), {'.', ' '});
  }

  /** The directory name `resource_type_mapping` gives a resource type. */
  function TypeDirectory(resourceType: string): string
  {
    if resourceType == "assets_video" then "视频"
    else if resourceType == "assets_audio" then "音频"
    else if resourceType == "assets_image" then "图片"
    else if resourceType == "assets_document" then "文档"
    else "其他"
  }

  const LibraryRoot := "教材库"

  /** The PDF path of a task: its save path moved from the library root to the output directory. */
  function PdfPath(outputDir: Path, savePath: Path): Path
    requires savePath != []
  {
    if savePath[0] == LibraryRoot then outputDir + savePath[1..] else JoinPath(outputDir, savePath)
  }

  /** A multimedia item as `get_multimedia_save_path` reads it. */
  datatype MediaInfo = MediaInfo(title: string, hotzoneNumber: string, format: string)

  /** The file name prefix: the hot-zone number, or the index as two digits. */
  function FilePrefix(hotzoneNumber: string, index: nat): string
  {
    if hotzoneNumber != "" then hotzoneNumber else ZeroPad(index, 2)
  }

  /** The folder `<stem>_<type>` next to a task's PDF that its multimedia files go under. */
  function BaseDir(outputDir: Path, savePath: Path, resourceType: string): Path
    requires savePath != []
  {
    var pdfPath := PdfPath(outputDir, savePath);
    Child(Parent(pdfPath), Stem(Name(pdfPath)) + "_" + TypeDirectory(resourceType))
  }

  /**
   * The names joined under the base folder: for an audio title of the form
   * `unit_lesson_...` a unit and a lesson folder, then the file name.
   */
  function MediaSteps(resourceType: string, info: MediaInfo, index: nat): seq<string>
  {
    if resourceType == "assets_audio" then
      var parts := Split(info.title, '_');
      if |parts| >= 2 then
        var unitPart := Strip(parts[0], Whitespace);
        var lessonPart := Strip(parts[1], Whitespace);
        var contentPart := if |parts| > 2 then Strip(Join("_", parts[2..]), Whitespace) else info.title;
        [unitPart, lessonPart, FilePrefix(info.hotzoneNumber, index) + "_" + Sanitized(contentPart) + ".mp3"]
      else
        [FilePrefix(info.hotzoneNumber, index) + "_" + Sanitized(info.title) + ".mp3"]
    else
      [ZeroPad(index, 2) + "_" + Sanitized(info.title) + "." + info.format]
  }

  /** `get_multimedia_save_path(task, resource_type, resource_info, index)` */
  function MultimediaSavePath(outputDir: Path, savePath: Path, resourceType: string, info: MediaInfo, index: nat): Path
    requires savePath != []
  {
    ChildAll(BaseDir(outputDir, savePath, resourceType), MediaSteps(resourceType, info, index))
  }

  /** None of the names joined under the base folder is absolute. */
  predicate RelativeSteps(steps: seq<string>)
  {
    forall i :: 0 <= i < |steps| ==> !IsAbsolute(steps[i])
  }

  /** The stem of a name without `/` has no `/`. */
  lemma StemNoSlash(name: string)
    requires '/' !in name
    ensures '/' !in Stem(name)
  {
    var st := Stem(name);
    forall k | 0 <= k < |st| ensures st[k] != '/' {
      assert (st + Suffix(name))[k] == st[k];
    }
  }

  /**
   * Multimedia files of a task are saved under `<stem>_<type>` next to its
   * PDF, when the names joined under that folder are relative: the path
   * starts with the PDF's directory followed by that folder.
   */
  lemma MultimediaBesidePdf(outputDir: Path, savePath: Path, resourceType: string, info: MediaInfo, index: nat)
    requires savePath != [] && WellFormed(outputDir) && WellFormed(savePath)
    ensures var pdfPath := PdfPath(outputDir, savePath);
            var dir := Parent(pdfPath) + [Stem(Name(pdfPath)) + "_" + TypeDirectory(resourceType)];
            var p := MultimediaSavePath(outputDir, savePath, resourceType, info, index);
            BaseDir(outputDir, savePath, resourceType) == dir
            && (RelativeSteps(MediaSteps(resourceType, info, index)) ==> |p| >= |dir| && p[..|dir|] == dir)
  {
    var pdfPath := PdfPath(outputDir, savePath);
    PdfPathWellFormed(outputDir, savePath);
    NameNoSlash(pdfPath);
    StemNoSlash(Name(pdfPath));
    var folder := Stem(Name(pdfPath)) + "_" + TypeDirectory(resourceType);
    FolderName(Stem(Name(pdfPath)), resourceType);
    var dir := Parent(pdfPath) + [folder];
    assert Child(Parent(pdfPath), folder) == dir;
    MultimediaUnderBase(outputDir, savePath, resourceType, info, index);
  }

  /** The PDF path of a task is well formed when the output directory and the save path are. */
  lemma PdfPathWellFormed(outputDir: Path, savePath: Path)
    requires savePath != [] && WellFormed(outputDir) && WellFormed(savePath)
    ensures WellFormed(PdfPath(outputDir, savePath))
  {
    var p := PdfPath(outputDir, savePath);
    if savePath[0] == LibraryRoot {
      var rest := savePath[1..];
      forall i | 0 <= i < |p| ensures p[i] != "" && p[i] != "." && ('/' in p[i] ==> i == 0 && p[i] == Root) {
        if i >= |outputDir| {
          assert p[i] == savePath[i - |outputDir| + 1];
        }
      }
    } else if !Rooted(savePath) {
      forall i | 0 <= i < |p| ensures p[i] != "" && p[i] != "." && ('/' in p[i] ==> i == 0 && p[i] == Root) {
        if i >= |outputDir| {
          assert p[i] == savePath[i - |outputDir|];
        }
      }
    }
  }

  /** The name of a well-formed path has no `/`. */
  lemma NameNoSlash(p: Path)
    requires WellFormed(p)
    ensures '/' !in Name(p)
  {
  }

  /** The folder `<stem>_<type>` is a single path component. */
  lemma FolderName(stem: string, resourceType: string)
    requires '/' !in stem
    ensures Parts(stem + "_" + TypeDirectory(resourceType)) == [stem + "_" + TypeDirectory(resourceType)]
  {
    var td := TypeDirectory(resourceType);
    assert '/' !in td && |td| == 2;
    var folder := stem + "_" + td;
    assert folder[|stem|] == '_';
    forall k | 0 <= k < |folder| ensures folder[k] != '/' {
      if k < |stem| {
        assert folder[k] == stem[k];
      } else if k > |stem| {
        assert folder[k] == td[k - |stem| - 1];
      }
    }
    PartsOfName(folder);
  }

  /**
   * With relative names, a multimedia path is the base folder followed by
   * their components; an absolute unit, lesson or file name discards the
   * base folder and every name before it, so the file lands outside it.
   */
  lemma MultimediaUnderBase(outputDir: Path, savePath: Path, resourceType: string, info: MediaInfo, index: nat)
    requires savePath != []
    ensures var base := BaseDir(outputDir, savePath, resourceType);
            var steps := MediaSteps(resourceType, info, index);
            var p := MultimediaSavePath(outputDir, savePath, resourceType, info, index);
            RelativeSteps(steps) ==> p == base + PartsAll(steps) && |p| >= |base| && p[..|base|] == base
  {
    var steps := MediaSteps(resourceType, info, index);
    if RelativeSteps(steps) {
      ChildAllRelative(BaseDir(outputDir, savePath, resourceType), steps);
    }
  }

  /** An absolute name among the steps makes the path independent of the output directory and the save path. */
  lemma MultimediaAbsoluteStep(outputDir: Path, savePath: Path, resourceType: string, info: MediaInfo, index: nat, j: nat)
    requires savePath != []
    requires var steps := MediaSteps(resourceType, info, index); j < |steps| && IsAbsolute(steps[j])
    ensures var steps := MediaSteps(resourceType, info, index);
            MultimediaSavePath(outputDir, savePath, resourceType, info, index) == ChildAll([], steps[j..])
  {
    ChildAllRestarts(BaseDir(outputDir, savePath, resourceType), [], MediaSteps(resourceType, info, index), j);
  }
}
