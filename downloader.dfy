/**
 * The download service: a `YouTubeDownloader` that keeps, per user, a busy flag and the
 * last video looked up, and that owns the files it downloads. yt-dlp is reached through
 * two oracles: `probe` is `extract_info(url, download=False)` and `fetch` is
 * `download([url])` with a given format string.
 */
module Downloader {
  import opened Wrappers
  import opened Text
  import opened Formats
  import opened Resolutions
  import opened Selection
  import opened Messages
  import opened Decimal

  type UserId = int
  type Path = string

  /** The keys of the info dictionary the service reads. */
  datatype Info = Info(title: Field<string>, thumbnail: Field<string>, duration: Field<int>, formats: Field<seq<Format>>)

  /** What `extract_info` does: return the info dictionary, or raise an error with this text. */
  datatype ProbeResult = Probed(info: Info) | ProbeFailed(message: string)

  /** What `download` does: finish, leaving the output file or not, or raise an error with this text. */
  datatype FetchOutcome = Fetched(created: bool) | FetchFailed(message: string)

  /** `VideoInfo`; `None` stands for a Python `None` copied from the info dictionary. */
  datatype VideoInfo = VideoInfo(
    url: string,
    title: Option<string>,
    thumbnail: Option<string>,
    duration: Option<int>,
    availableResolutions: seq<string>)

  datatype DownloadResult = DownloadResult(
    success: bool,
    videoPath: Option<Path>,
    error: Option<string>,
    videoInfo: Option<VideoInfo>)

  const DefaultTitle: string := "Без названия"

  function Failed(message: string): DownloadResult {
    DownloadResult(false, None, Some(message), None)
  }

  /** `info.get(key, default)`: the default when the key is missing, `None` when it holds `None`. */
  function GetOr<T>(f: Field<T>, default: T): Option<T> {
    match f
    case Missing => Some(default)
    case Null => None
    case Given(v) => Some(v)
  }

  /** The formats `_download_video` selects from: a missing or `None` list selects nothing. */
  function FormatsOf(info: Info): seq<Format> {
    if info.formats.Given? then info.formats.value else []
  }

  /**
   * Lines 89-117 of `get_video_info` as a value: the `VideoInfo` built from the info
   * dictionary, or the text of the error raised when `formats` holds `None`.
   */
  function DescribeVideo(url: string, info: Info): (r: Result<VideoInfo, string>)
    ensures r.Err? <==> info.formats.Null?
    ensures r.Err? ==> r.error == NotIterableMessage
    ensures r.Ok? ==> r.value.url == url && r.value.availableResolutions != []
  {
    if info.formats.Null? then Err(NotIterableMessage)
    else Ok(VideoInfo(
      url,
      GetOr(info.title, DefaultTitle),
      GetOr(info.thumbnail, ""),
      GetOr(info.duration, 0),
      Qualities(FormatsOf(info))))
  }

  /** The quality list offered for the given formats. */
  function Qualities(formats: seq<Format>): seq<string> {
    DisplayResolutions(SortSet(HeightSet(formats)))
  }

  /** The outcome of the lookup: the `VideoInfo`, or the text of the error raised. */
  function LookupOutcome(url: string, p: ProbeResult): (r: Result<VideoInfo, string>)
    ensures r.Err? <==> p.ProbeFailed? || p.info.formats.Null?
    ensures p.ProbeFailed? ==> r == Err(p.message)
    ensures r.Ok? ==> r.value.url == url && r.value.availableResolutions != []
  {
    match p
    case ProbeFailed(e) => Err(e)
    case Probed(info) => DescribeVideo(url, info)
  }

  /** Some format has a truthy height of at least `v`. */
  predicate OffersHeight(formats: seq<Format>, v: int) {
    exists i | 0 <= i < |formats| :: HasHeight(formats[i]) && formats[i].height.value >= v
  }

  /** The sorted height list reaches `v` exactly when some format offers it. */
  lemma ReachesOffered(formats: seq<Format>, v: int)
    ensures Reaches(SortSet(HeightSet(formats)), v) <==> OffersHeight(formats, v)
  {
    var heights := SortSet(HeightSet(formats));
    if Reaches(heights, v) {
      var h :| h in heights && v <= h;
      var i :| 0 <= i < |formats| && formats[i].height == Given(h);
    }
    if OffersHeight(formats, v) {
      var i :| 0 <= i < |formats| && HasHeight(formats[i]) && formats[i].height.value >= v;
      assert formats[i].height.value in heights;
    }
  }

  /**
   * The quality buttons a lookup offers: always 480; 360 only when no format reaches 480;
   * 720 when some format reaches 720 or none reaches 480. The rest of the record copies
   * the url and reads the dictionary as `info.get` does: a missing key gives the default
   * (the placeholder title, `""`, `0`), a key holding `None` gives `None`, and a present
   * value is copied.
   */
  lemma DescribeVideoFacts(url: string, info: Info)
    requires !info.formats.Null?
    ensures DescribeVideo(url, info).Ok?
    ensures var v := DescribeVideo(url, info).value;
      && v.url == url
      && (info.title.Missing? ==> v.title == Some(DefaultTitle))
      && (info.title.Null? ==> v.title == None)
      && (info.title.Given? ==> v.title == Some(info.title.value))
      && (info.thumbnail.Missing? ==> v.thumbnail == Some(""))
      && (info.thumbnail.Null? ==> v.thumbnail == None)
      && (info.thumbnail.Given? ==> v.thumbnail == Some(info.thumbnail.value))
      && (info.duration.Missing? ==> v.duration == Some(0))
      && (info.duration.Null? ==> v.duration == None)
      && (info.duration.Given? ==> v.duration == Some(info.duration.value))
      && "480" in v.availableResolutions
      && ("360" in v.availableResolutions <==> !OffersHeight(FormatsOf(info), 480))
      && ("720" in v.availableResolutions <==> OffersHeight(FormatsOf(info), 720) || !OffersHeight(FormatsOf(info), 480))
  {
    var heights := SortSet(HeightSet(FormatsOf(info)));
    ReachesOffered(FormatsOf(info), 480);
    ReachesOffered(FormatsOf(info), 720);
    DisplayResolutionsCases(heights);
    var r := DisplayResolutions(heights);
    assert r == ["360", "480", "720"] || r == ["480"] || r == ["480", "720"];
  }

  /**
   * Lines 210-287 of `_download_video` as a value: `None` when the output file exists after
   * the download, otherwise the text of the error raised on the way.
   */
  function DownloadError(
    url: string, resolution: Option<string>,
    probe: string -> ProbeResult, fetch: (string, string) -> FetchOutcome): (r: Option<string>)
  {
    match probe(url)
    case ProbeFailed(e) => Some(e)
    case Probed(info) =>
      match PlanFormat(FormatsOf(info), resolution)
      case Err(e) => Some(e)
      case Ok(formatString) =>
        match fetch(url, formatString)
        case FetchFailed(e) => Some(e)
        case Fetched(created) => if created then None else Some(FileNotCreatedMessage)
  }

  /**
   * A download succeeds exactly when the probe succeeds, a format string can be planned
   * and yt-dlp creates the file; a failed probe is reported with its own message.
   */
  lemma DownloadErrorCases(url: string, resolution: Option<string>,
    probe: string -> ProbeResult, fetch: (string, string) -> FetchOutcome)
    ensures probe(url).ProbeFailed? ==> DownloadError(url, resolution, probe, fetch) == Some(probe(url).message)
    ensures DownloadError(url, resolution, probe, fetch).None? <==>
      && probe(url).Probed?
      && PlanFormat(FormatsOf(probe(url).info), resolution).Ok?
      && fetch(url, PlanFormat(FormatsOf(probe(url).info), resolution).value) == Fetched(true)
  {
  }

  /** Without a resolution the service always asks yt-dlp for `"best"`. */
  lemma LegacyAsksForBest(url: string, probe: string -> ProbeResult, fetch: (string, string) -> FetchOutcome)
    ensures probe(url).Probed? ==>
      DownloadError(url, None, probe, fetch) ==
        match fetch(url, "best")
        case FetchFailed(e) => Some(e)
        case Fetched(created) => if created then None else Some(FileNotCreatedMessage)
  {
    if probe(url).Probed? {
      PlanFormatCases(FormatsOf(probe(url).info), None);
    }
  }

  /** Lines 89-117 of `get_video_info`: the `VideoInfo` built from an info dictionary whose `formats` is not `None`. */
  method Describe(url: string, info: Info) returns (v: VideoInfo)
    requires !info.formats.Null?
    ensures DescribeVideo(url, info) == Ok(v)
  {
    var heights := CollectHeights(FormatsOf(info));
    v := VideoInfo(
      url,
      GetOr(info.title, DefaultTitle),
      GetOr(info.thumbnail, ""),
      GetOr(info.duration, 0),
      DisplayResolutions(heights));
  }

  class YouTubeDownloader {
    /** `active_downloads`: whether a request of the user is under way. */
    var activeDownloads: map<UserId, bool>
    /** `video_cache`: the last video each user looked up. */
    var videoCache: map<UserId, VideoInfo>
    /** The files present in the download directory. */
    var files: set<Path>

    /** No request is under way. */
    ghost predicate NoneBusy()
      reads this
    {
      forall u | u in activeDownloads :: !activeDownloads[u]
    }

    constructor(existing: set<Path>)
      ensures activeDownloads == map[] && videoCache == map[] && files == existing
      ensures NoneBusy()
    {
      activeDownloads := map[];
      videoCache := map[];
      files := existing;
    }

    /** `active_downloads.get(user_id, False)`: a user never seen is not busy. */
    function IsUserDownloading(user: UserId): (busy: bool)
      reads this
      ensures busy <==> user in activeDownloads && activeDownloads[user]
      ensures NoneBusy() ==> !busy
    {
      if user in activeDownloads then activeDownloads[user] else false
    }

    /**
     * `get_video_info`: rejects a busy user untouched; otherwise marks the user busy for the
     * lookup, caches the `VideoInfo` on success, and clears the flag whatever happens.
     */
    method GetVideoInfo(url: string, user: UserId, probe: string -> ProbeResult) returns (r: DownloadResult)
      modifies this
      ensures files == old(files)
      ensures old(IsUserDownloading(user)) ==>
        r == Failed(BusyInfoMessage) && activeDownloads == old(activeDownloads) && videoCache == old(videoCache)
      ensures !old(IsUserDownloading(user)) ==>
        && activeDownloads == old(activeDownloads)[user := false]
        && match LookupOutcome(url, probe(url))
           case Ok(v) => r == DownloadResult(true, None, None, Some(v)) && videoCache == old(videoCache)[user := v]
           case Err(e) => r == Failed(InfoErrorText(e)) && videoCache == old(videoCache)
      ensures r == Failed(BusyInfoMessage) <==> old(IsUserDownloading(user))
      ensures old(NoneBusy()) ==> NoneBusy()
    {
      if IsUserDownloading(user) {
        return Failed(BusyInfoMessage);
      }
      activeDownloads := activeDownloads[user := true];
      match probe(url) {
        case ProbeFailed(e) =>
          assert LookupOutcome(url, probe(url)) == Err(e);
          InfoBusyIsDistinct(e);
          r := Failed(InfoErrorText(e));
        case Probed(info) =>
          if info.formats.Null? {
            assert LookupOutcome(url, probe(url)) == Err(NotIterableMessage);
            InfoBusyIsDistinct(NotIterableMessage);
            r := Failed(InfoErrorText(NotIterableMessage));
          } else {
            var v := Describe(url, info);
            assert LookupOutcome(url, probe(url)) == Ok(v);
            videoCache := videoCache[user := v];
            r := DownloadResult(true, None, None, Some(v));
          }
      }
      activeDownloads := activeDownloads[user := false];
    }

    /**
     * `_download_video`: downloads `url` into `out` and returns `out`, or removes `out` and
     * fails with the shortened error text; the per-user state is not touched.
     */
    method DownloadVideo(
      url: string, resolution: Option<string>, out: Path,
      probe: string -> ProbeResult, fetch: (string, string) -> FetchOutcome) returns (r: Result<Path, string>)
      modifies this
      ensures activeDownloads == old(activeDownloads) && videoCache == old(videoCache)
      ensures match DownloadError(url, resolution, probe, fetch)
        case None => r == Ok(out) && files == old(files) + {out}
        case Some(e) => r == Err(VideoErrorText(e)) && files == old(files) - {out}
      ensures r.Ok? ==> r.value in files
      ensures r.Err? ==> out !in files
    {
      var failure: Option<string> := None;
      match probe(url) {
        case ProbeFailed(e) =>
          failure := Some(e);
        case Probed(info) =>
          var formats := FormatsOf(info);
          var selectedId: Option<string> := None;
          if Truthy(resolution) && formats != [] {
            match ParseInt(resolution.value) {
              case None =>
                failure := Some(ValueErrorText(resolution.value));
              case Some(target) =>
                var best := SelectFormat(formats, target);
                if best.Some? {
                  selectedId := best.value.id;
                }
            }
          }
          if failure.None? {
            match fetch(url, FormatString(selectedId, resolution)) {
              case FetchFailed(e) =>
                failure := Some(e);
              case Fetched(created) =>
                if created {
                  files := files + {out};
                } else {
                  failure := Some(FileNotCreatedMessage);
                }
            }
          }
      }
      if failure.Some? {
        files := files - {out};
        return Err(VideoErrorText(failure.value));
      }
      return Ok(out);
    }

    /**
     * `download_video_by_resolution`: rejects a busy user, then a user with no cached video,
     * both untouched; otherwise downloads the cached url at `resolution` with the user marked
     * busy. A failure of the statistics write `statError` turns the result into a failure
     * but leaves the downloaded file in place.
     */
    method DownloadVideoByResolution(
      user: UserId, resolution: string, out: Path,
      probe: string -> ProbeResult, fetch: (string, string) -> FetchOutcome,
      statError: Option<string>) returns (r: DownloadResult)
      modifies this
      ensures videoCache == old(videoCache)
      ensures old(IsUserDownloading(user)) ==>
        r == Failed(BusyDownloadMessage) && activeDownloads == old(activeDownloads) && files == old(files)
      ensures !old(IsUserDownloading(user)) && user !in old(videoCache) ==>
        r == Failed(StaleSessionMessage) && activeDownloads == old(activeDownloads) && files == old(files)
      ensures !old(IsUserDownloading(user)) && user in old(videoCache) ==>
        && activeDownloads == old(activeDownloads)[user := false]
        && match DownloadError(old(videoCache)[user].url, Some(resolution), probe, fetch)
           case Some(e) =>
             r == Failed(DownloadErrorText(VideoErrorText(e))) && files == old(files) - {out}
           case None =>
             && files == old(files) + {out}
             && r == (if statError.Some? then Failed(DownloadErrorText(statError.value))
                      else DownloadResult(true, Some(out), None, None))
      ensures r == Failed(BusyDownloadMessage) <==> old(IsUserDownloading(user))
      ensures r == Failed(StaleSessionMessage) <==> !old(IsUserDownloading(user)) && user !in old(videoCache)
      ensures old(NoneBusy()) ==> NoneBusy()
    {
      if IsUserDownloading(user) {
        DownloadRejectionsAreDistinct("");
        return Failed(BusyDownloadMessage);
      }
      if user !in videoCache {
        DownloadRejectionsAreDistinct("");
        return Failed(StaleSessionMessage);
      }
      var v := videoCache[user];
      activeDownloads := activeDownloads[user := true];
      var path := DownloadVideo(v.url, Some(resolution), out, probe, fetch);
      if path.Err? {
        DownloadRejectionsAreDistinct(path.error);
        r := Failed(DownloadErrorText(path.error));
      } else if statError.Some? {
        DownloadRejectionsAreDistinct(statError.value);
        r := Failed(DownloadErrorText(statError.value));
      } else {
        r := DownloadResult(true, Some(path.value), None, None);
      }
      activeDownloads := activeDownloads[user := false];
    }

    /**
     * `download_and_process`: the older entry point; downloads `url` at the best quality with
     * the user marked busy, and reports errors without the outer prefix or a second cut.
     */
    method DownloadAndProcess(
      url: string, user: UserId, out: Path,
      probe: string -> ProbeResult, fetch: (string, string) -> FetchOutcome,
      statError: Option<string>) returns (r: DownloadResult)
      modifies this
      ensures videoCache == old(videoCache)
      ensures old(IsUserDownloading(user)) ==>
        r == Failed(BusyDownloadMessage) && activeDownloads == old(activeDownloads) && files == old(files)
      ensures !old(IsUserDownloading(user)) ==>
        && activeDownloads == old(activeDownloads)[user := false]
        && match DownloadError(url, None, probe, fetch)
           case Some(e) => r == Failed(VideoErrorText(e)) && files == old(files) - {out}
           case None =>
             && files == old(files) + {out}
             && r == (if statError.Some? then Failed(statError.value) else DownloadResult(true, Some(out), None, None))
      ensures old(NoneBusy()) ==> NoneBusy()
    {
      if IsUserDownloading(user) {
        return Failed(BusyDownloadMessage);
      }
      activeDownloads := activeDownloads[user := true];
      var path := DownloadVideo(url, None, out, probe, fetch);
      if path.Err? {
        r := Failed(path.error);
      } else if statError.Some? {
        r := Failed(statError.value);
      } else {
        r := DownloadResult(true, Some(path.value), None, None);
      }
      activeDownloads := activeDownloads[user := false];
    }

    /** `cleanup`: removes the file when the path is a non-empty string; nothing else changes. */
    method Cleanup(videoPath: Option<Path>)
      modifies this
      ensures activeDownloads == old(activeDownloads) && videoCache == old(videoCache)
      ensures files == if Truthy(videoPath) then old(files) - {videoPath.value} else old(files)
    {
      if Truthy(videoPath) && videoPath.value in files {
        files := files - {videoPath.value};
      }
    }

    /** `clear_cache`: forgets the user's cached video, if any; nothing else changes. */
    method ClearCache(user: UserId)
      modifies this
      ensures activeDownloads == old(activeDownloads) && files == old(files)
      ensures user !in videoCache
      ensures videoCache == old(videoCache) - {user}
    {
      if user in videoCache {
        videoCache := videoCache - {user};
      }
    }
  }

  /** The info dictionary of the example session: a 480 format with audio and a video-only 720. */
  function ExampleInfo(): Info {
    Info(Given("T"), Missing, Given(65), Given([
      Format(Given(480), Given("v"), Given("a"), Given("x")),
      Format(Given(720), Given("v"), Given("none"), Given("y"))]))
  }

  /** The lookup of the example offers 480 and 720. */
  lemma ExampleLookup()
    ensures DescribeVideo("X", ExampleInfo()) == Ok(VideoInfo("X", Some("T"), Some(""), Some(65), ["480", "720"]))
  {
    var formats := FormatsOf(ExampleInfo());
    DescribeVideoFacts("X", ExampleInfo());
    assert OffersHeight(formats, 720) by { assert HasHeight(formats[1]); }
    DisplayResolutionsCases(SortSet(HeightSet(formats)));
  }

  /** Asking the example for 720 picks the video-only 720 with a best-audio fallback. */
  lemma ExampleFormat()
    ensures PlanFormat(FormatsOf(ExampleInfo()), Some("720")) == Ok("y+bestaudio/y/best")
  {
    var formats := FormatsOf(ExampleInfo());
    ParseTierTokens();
    assert formats[..1] == [formats[0]];
    assert Candidates(formats, 720) == [Candidate(Some("x"), 480, true, 240), Candidate(Some("y"), 720, false, 0)];
    assert SelectedId(formats, 720) == Some("y");
    assert PlanFormat(formats, Some("720")) == Ok(FormatString(Some("y"), Some("720")));
    assert "y" + "+bestaudio/" + "y" + "/best" == "y+bestaudio/y/best";
  }

  /**
   * One session: the lookup offers both qualities; asking for 720 downloads with the format
   * `ExampleFormat` names; the first `cleanup` removes the file and the second finds nothing
   * to remove.
   */
  method SessionExample() returns (info: DownloadResult, download: DownloadResult, afterCleanup: set<Path>, afterRepeat: set<Path>)
    ensures info.success && info.videoInfo.Some?
    ensures info.videoInfo.value.availableResolutions == ["480", "720"]
    ensures download == DownloadResult(true, Some("downloads/1_0a1b2c3d.mp4"), None, None)
    ensures afterCleanup == {} && afterRepeat == {}
  {
    var probe := (u: string) => Probed(ExampleInfo());
    var fetch := (u: string, f: string) => if f == "y+bestaudio/y/best" then Fetched(true) else FetchFailed("unexpected format");
    ExampleLookup();
    ExampleFormat();
    var d := new YouTubeDownloader({});
    info := d.GetVideoInfo("X", 1, probe);
    download := d.DownloadVideoByResolution(1, "720", "downloads/1_0a1b2c3d.mp4", probe, fetch, None);
    d.Cleanup(download.videoPath);
    afterCleanup := d.files;
    d.Cleanup(download.videoPath);
    afterRepeat := d.files;
  }

  /**
   * Run one request after another, as a sequential run does, a user is never found busy:
   * the constructor starts with no user busy and every operation keeps it so. The busy
   * replies only answer a request that arrives while another one for the same user is
   * still waiting on yt-dlp. The download is refused as stale exactly when the lookup
   * before it failed.
   */
  method SequentialRequestsNeverBusy(
    user: UserId, url: string, resolution: string, out: Path,
    probe: string -> ProbeResult, fetch: (string, string) -> FetchOutcome,
    statError: Option<string>) returns (info: DownloadResult, download: DownloadResult, again: DownloadResult)
    ensures info != Failed(BusyInfoMessage)
    ensures download != Failed(BusyDownloadMessage)
    ensures again != Failed(BusyInfoMessage)
    ensures download == Failed(StaleSessionMessage) <==> !info.success
  {
    var d := new YouTubeDownloader({});
    info := d.GetVideoInfo(url, user, probe);
    download := d.DownloadVideoByResolution(user, resolution, out, probe, fetch, statError);
    again := d.GetVideoInfo(url, user, probe);
  }
}
