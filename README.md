# Shorts downloader bot: the download service and the Shorts-link filter

This project models the core of a Telegram bot that downloads YouTube Shorts.

`YouTubeDownloader` (bot/services/youtube.py) does three things:

- looks a video up and caches, per user, the quality buttons to offer;
- downloads the cached video at the chosen quality into a fresh file, choosing a yt-dlp format by closeness to the requested height and then by audio;
- keeps a per-user busy flag so that one user never runs two requests at once.

`IsYouTubeShorts` (bot/filters/youtube_link.py) decides which messages are Shorts links.

The modules follow the code:

- `Formats` is a yt-dlp format record, with Python's truthiness of its keys. `Missing`, `Null` and `Given` distinguish `fmt.get(key, "none")` on a missing key from a key holding `None`.
- `Resolutions` covers the distinct sorted heights and the quality list of `get_video_info`.
- `Decimal` is `int(resolution)`.
- `Selection` holds the candidate loop, the stable sort by `(diff, not has_audio)`, and the format string of `_download_video`.
- `Messages` holds the fixed texts and the 100- and 150-character cuts of error text.
- `ShortsLink` is the regular-expression search of the filter.
- `Downloader` is the class itself: the maps `activeDownloads` and `videoCache`, and a set `files` standing for the download directory.

yt-dlp is reached through two oracles passed to the methods:

- `probe` is `extract_info(url, download=False)`. It returns an `Info` or fails with an error text.
- `fetch` is `download([url])` with a given format string. It reports whether the output file exists afterwards, or fails with an error text.

Other inputs are modelled as follows:

- The random file name is the parameter `out`.
- `add_download_stat` is the parameter `statError`: `None` when the write succeeds, or the text of its error. It runs inside the `try`, so its failure turns a finished download into a failure and leaves the downloaded file in place.

Some behaviour of the code is easy to misread; the model follows the code:

- No error exists for "no suitable format": without a video format the format string falls back to `"best"`.
- The service never clears the cache itself.
- `download_and_process` reports the inner error text, with its 150-character cut and no second cut.
- The `"bestvideo+bestaudio/best"` branch can never be reached, because `selected_format_id` is set only when a resolution was given.

## Model

| member | source | states |
|---|---|---|
| Resolutions.HeightSet | bot/services/youtube.py:89-95 | a height is collected iff some format holds it and it is non-zero |
| Resolutions.SortSet | bot/services/youtube.py:97 | `sorted(list(s))` is strictly ascending and has exactly the elements of `s` |
| Resolutions.AscendingUnique | bot/services/youtube.py:97 | two strictly ascending lists with the same elements are equal, so the sorted height list is determined by the set |
| Resolutions.CollectHeights | bot/services/youtube.py:89-97 | the loop yields a strictly ascending list holding exactly the distinct truthy heights, equal to `SortSet(HeightSet(formats))` |
| Resolutions.ExampleHeightSet | bot/services/youtube.py:89-95 | heights 720, 480, 720, 360 are collected as the set {360, 480, 720} |
| Resolutions.DeduplicationExample | bot/services/youtube.py:89-97 | heights 720, 480, 720, 360 give `[360, 480, 720]` |
| Resolutions.DisplayResolutions | bot/services/youtube.py:101-109 | the quality list is never empty, and it lists "720" only together with "480" |
| Resolutions.KeptStandardTiers | bot/services/youtube.py:101-106 | the comprehension keeps "480" and then "720", each iff some height reaches it |
| Resolutions.DisplayResolutionsCases | bot/services/youtube.py:101-109 | the list is `["360","480","720"]` when no height reaches 480, `["480"]` when 480 is reached but 720 is not, and `["480","720"]` when 720 is reached |
| Resolutions.DisplayKeepsReachedTiers | bot/services/youtube.py:102-106 | when 480 is reached, a standard resolution is listed iff some height reaches it |
| Decimal.ParseInt | bot/services/youtube.py:225 | `int(resolution)` succeeds iff the token is an optional sign followed by one or more digits |
| Decimal.DigitsOfDecimal | bot/services/youtube.py:225 | the digits of a decimal numeral read back to its value |
| Decimal.ParseDecimal | bot/services/youtube.py:225 | `int(str(n)) == n`, also with a `+` or `-` sign |
| Decimal.ParseTierTokens | bot/services/youtube.py:109 | the offered tokens "360", "480" and "720" parse to their heights |
| Selection.Candidates | bot/services/youtube.py:228-246 | the loop appends at most one candidate per format |
| Selection.CandidatesComplete | bot/services/youtube.py:236-246 | every format with a truthy height and a video codec contributes its candidate |
| Selection.CandidatesOrigin | bot/services/youtube.py:228-246 | every candidate comes from a video format, and the candidates of earlier video formats come before it |
| Selection.CandidatesEmpty | bot/services/youtube.py:236-251 | there is no candidate iff no format has a truthy height and a video codec |
| Selection.Insert | bot/services/youtube.py:249 | inserting adds exactly one element |
| Selection.SortByKey | bot/services/youtube.py:249 | the sort keeps the length |
| Selection.InsertSorted | bot/services/youtube.py:249 | insertion keeps the list sorted by key and adds exactly the inserted element to its multiset |
| Selection.SortByKeySorted | bot/services/youtube.py:249 | the sort yields a permutation sorted by `(diff, not has_audio)` |
| Selection.FirstBest | bot/services/youtube.py:249-252 | the chosen index has the least key, and every earlier candidate has a strictly larger key |
| Selection.SortHead | bot/services/youtube.py:249-252 | the head of the stable sort is the first candidate with the least key |
| Selection.SelectFormat | bot/services/youtube.py:224-254 | nothing is chosen iff no format is a video format; otherwise the choice is a video format, none is strictly closer, among equally close ones a format with audio wins, and ties go to the earliest |
| Selection.FormatStringShape | bot/services/youtube.py:263-273 | every format string ends in the fallback `best`; with no selected id it is `"best"` alone, and with a selected id and a resolution it starts with that id |
| Selection.PlanFormatOutcome | bot/services/youtube.py:219-273 | planning fails exactly when a resolution token is given, the video has formats and the token is not an integer, with the `ValueError` text of `int()`; a planned format string ends in `best` |
| Selection.PlanFormatCases | bot/services/youtube.py:219-273 | the format string is `"{id}+bestaudio/{id}/best"` when a resolution was given and the choice has a truthy id, and `"best"` otherwise; a token that is not an integer raises; `"bestvideo+bestaudio/best"` never occurs |
| Selection.SelectionExamples | bot/services/youtube.py:236-254 | a silent 480 beats a 500 with audio at target 480; of two 480s the one with audio wins; at target 720 a video-only 720 beats a 480 with audio |
| Messages.InfoErrorText | bot/services/youtube.py:122-136 | an error containing "403" or "Forbidden" gives the fixed guidance text; any other gives the prefix and at most 100 characters of the error |
| Messages.VideoErrorText | bot/services/youtube.py:300-308 | the re-raised text is the prefix and at most 150 characters of the error |
| Messages.DownloadErrorText | bot/services/youtube.py:164-169 | a failed resolution download reports the prefix and at most 100 characters of the error |
| Messages.GuidanceIsDistinct | bot/services/youtube.py:127-136 | a generic lookup error never equals the guidance text |
| Messages.NestedTruncation | bot/services/youtube.py:164-169 | the 100-character cut falls on the re-raised text, so at most 74 characters of the inner error remain |
| Messages.InfoBusyIsDistinct | bot/services/youtube.py:72-136 | no lookup error text equals the busy rejection |
| Messages.DownloadRejectionsAreDistinct | bot/services/youtube.py:145-169 | no download error text equals the busy or the stale-session rejection, and those two differ |
| ShortsLink.IsYouTubeShorts | bot/filters/youtube_link.py:7-12 | a missing or empty text is rejected |
| ShortsLink.SearchFindsLink | bot/filters/youtube_link.py:11-12 | with optional prefix groups, the search succeeds iff a marker followed by a non-whitespace character occurs |
| ShortsLink.AcceptanceRule | bot/filters/youtube_link.py:7-12 | a text is accepted iff it contains `youtube.com/shorts/` or `youtu.be/shorts/` directly followed by a non-whitespace character |
| ShortsLink.LinkShift | bot/filters/youtube_link.py:12 | a link keeps its place when text is added on both sides |
| ShortsLink.LinkUnshift | bot/filters/youtube_link.py:12 | a link after a prefix is a link of the rest of the text |
| ShortsLink.LinkMeansNonEmpty | bot/filters/youtube_link.py:8-12 | a text holding a link is not empty |
| ShortsLink.ClosedUnderExtension | bot/filters/youtube_link.py:12 | a text containing an accepted text is accepted |
| ShortsLink.LinkStartsWithY | bot/filters/youtube_link.py:11 | a link starts with a lower-case `y` |
| ShortsLink.NoYRejected | bot/filters/youtube_link.py:11 | a text without a lower-case `y` is rejected, so matching is case-sensitive |
| ShortsLink.LinkHasDot | bot/filters/youtube_link.py:11 | a link contains a literal dot |
| ShortsLink.NoDotRejected | bot/filters/youtube_link.py:11 | a text without a dot is rejected, so the escaped dots match only dots |
| ShortsLink.PrefixHasNoY | bot/filters/youtube_link.py:11 | no character of the optional prefix groups is a `y` |
| ShortsLink.OptionalPrefixesIrrelevant | bot/filters/youtube_link.py:11-12 | writing `http://`, `https://`, `www.` or a combination in front never changes the verdict |
| ShortsLink.MarkerNotInsideMarker | bot/filters/youtube_link.py:11 | no marker occurs inside a marker and ends before that marker does |
| ShortsLink.BareMarkerRejected | bot/filters/youtube_link.py:11 | a marker followed only by whitespace, or by nothing, is rejected |
| ShortsLink.LinkAfterPrefix | bot/filters/youtube_link.py:11-12 | an optional prefix, a marker and a non-whitespace character form a match |
| ShortsLink.LinksAccepted | bot/filters/youtube_link.py:11-12 | a Shorts link with a video id is accepted with or without a scheme and `www.` |
| Downloader.DescribeVideo | bot/services/youtube.py:89-117 | building the `VideoInfo` fails exactly when the `formats` key holds `None`, with the "not iterable" error of the loop; otherwise the record keeps the url and offers at least one quality |
| Downloader.LookupOutcome | bot/services/youtube.py:85-136 | a lookup fails exactly when yt-dlp fails, with its message, or when the `formats` key holds `None`; a lookup that succeeds keeps the url and offers at least one quality |
| Downloader.DownloadErrorCases | bot/services/youtube.py:210-287 | a download succeeds exactly when the probe succeeds, a format string can be planned and yt-dlp creates the file; a failed probe is reported with its own message |
| Downloader.Describe | bot/services/youtube.py:89-117 | the height loop and the quality list build exactly the `VideoInfo` of `DescribeVideo` |
| Downloader.ReachesOffered | bot/services/youtube.py:105 | the sorted heights reach a tier iff some format has a truthy height at least that tier |
| Downloader.DescribeVideoFacts | bot/services/youtube.py:89-117 | a lookup keeps the url; title, thumbnail and duration each read as `info.get` does: a missing key gives the default (`"Без названия"`, `""`, `0`), a key holding `None` gives `None`, a present value is copied; it always offers "480", offers "360" iff no format reaches 480, and offers "720" iff some format reaches 720 or none reaches 480 |
| Downloader.LegacyAsksForBest | bot/services/youtube.py:184 | without a resolution, the download asks yt-dlp for `"best"` |
| Downloader.ExampleLookup | bot/services/youtube.py:89-117 | formats 480 with audio and 720 without audio are offered as `["480","720"]` |
| Downloader.ExampleFormat | bot/services/youtube.py:224-269 | asking that video for 720 requests `"y+bestaudio/y/best"` |
| Downloader.SessionExample | bot/services/youtube.py:70-319 | lookup, a 720 download and `cleanup` twice: both qualities are offered, the file path is returned, and the second cleanup finds nothing left |
| Downloader.SequentialRequestsNeverBusy | bot/services/youtube.py:39-172 | on a new service, a lookup, a resolution download and a second lookup run one after another never meet a busy user, and the download is refused as stale exactly when the lookup failed |
| Downloader.YouTubeDownloader.constructor | bot/services/youtube.py:39-43 | a new service has no flags and no cached videos |
| Downloader.YouTubeDownloader.IsUserDownloading | bot/services/youtube.py:46-47 | a user is busy iff their flag is present and true; an unknown user is not busy |
| Downloader.YouTubeDownloader.GetVideoInfo | bot/services/youtube.py:70-139 | a busy user gets the busy rejection and nothing changes, and only a busy user gets it; otherwise only the user's flag is written and it ends false; on success the `VideoInfo` is cached under the user, overwriting any earlier one; on failure the cache is unchanged and the error is shortened or replaced by the guidance text |
| Downloader.YouTubeDownloader.DownloadVideo | bot/services/youtube.py:194-310 | on success the returned path is the output file and it exists; on any failure the output file does not exist afterwards and the error is the prefix and at most 150 characters of the cause |
| Downloader.YouTubeDownloader.DownloadVideoByResolution | bot/services/youtube.py:141-172 | a busy user, then a user with no cached video, are rejected with their own texts and nothing changes; otherwise the cached url is downloaded, only the user's flag is written and it ends false, and failures carry at most 100 characters |
| Downloader.YouTubeDownloader.DownloadAndProcess | bot/services/youtube.py:174-192 | a busy user is rejected and nothing changes; otherwise the url is downloaded at the best quality, only the user's flag is written and it ends false, and a failure reports the re-raised text |
| Downloader.YouTubeDownloader.Cleanup | bot/services/youtube.py:312-316 | a non-empty path is removed if present; a missing or empty path, or a repeat call, changes nothing |
| Downloader.YouTubeDownloader.ClearCache | bot/services/youtube.py:321-324 | only the user's cache entry is removed; a repeat call changes nothing |

## Left out

- yt-dlp itself (`extract_info`, `download`) is represented only by the `probe` and `fetch` oracles.
- `_get_ydl_opts` (bot/services/youtube.py:49-68) is not part of this model: the option dictionary and the cookies-file check only configure yt-dlp.
- The `asyncio` structure is not modelled; every operation runs to completion before the next begins. No `await` lies between the busy check and the setting of the flag. In such a sequential run no user is ever found busy: the constructor starts with no flag set, every operation keeps `NoneBusy`, and `SequentialRequestsNeverBusy` shows it. The busy branches answer a request that arrives while another one for the same user is still waiting on yt-dlp. The model does not represent that interleaving, so their contracts hold only from a state in which a flag is already true.
- `uuid.uuid4()` naming of the output file becomes the parameter `out`; the `mkdir` of the download directory is not modelled.
- `print` logging and the float file size in megabytes are not modelled.
- SQLite persistence (`add_download_stat` and the database modules) is not part of this model, except for whether the statistics write fails.
- Decimal.ParseInt: does not model the surrounding whitespace, underscores between digits or non-ASCII digits that Python's `int` also accepts.
- Selection.SortByKey: stability is stated through its head, as `SortHead` and `FirstBest`, rather than for the whole sorted list, because only the head is used.
- Messages.VideoErrorText: the inner error texts are those of the oracles; the exact wording of yt-dlp's errors and the quoting in Python's `ValueError` message are approximated.
- Downloader.YouTubeDownloader.Cleanup: does not model a failing `os.remove`, whose error the source only logs.
- Downloader.DescribeVideo: heights are integers; a float or string height, an info dictionary that is not a dictionary, and a format entry without `get` are not modelled.
- Downloader.YouTubeDownloader.DownloadVideo: does not model a failing `os.path.getsize` after a successful download.
- The aiogram handlers, keyboards, middleware, broadcast and configuration are not part of this model.
