/** The fixed texts the download service returns and how it shortens error text. */
module Messages {
  import opened Text

  /** The second sentence of both busy rejections. */
  const PleaseWait: string := " Дождитесь завершения."
  const BusyInfoMessage: string := "Вы уже обрабатываете видео." + PleaseWait
  const BusyDownloadMessage: string := "Вы уже загружаете видео." + PleaseWait
  const StaleSessionMessage: string := "Информация о видео не найдена." + " Отправьте ссылку заново."
  const AccessDeniedHeading: string := "⚠️ Не удалось получить доступ к видео.\n\n"
  const AccessDeniedMessage: string :=
    AccessDeniedHeading + "Попробуйте:\n" + "1. Другую ссылку\n" + "2. Обновить бота (pip install --upgrade yt-dlp)"
  const InfoErrorPrefix: string := "Ошибка: "
  const DownloadErrorPrefix: string := "Не удалось скачать: "
  const VideoErrorPrefix: string := "Не удалось скачать видео: "
  const FileNotCreatedMessage: string := "Файл не был создан после скачивания"
  /** `str(e)` of the `TypeError` raised by iterating over a `formats` key that holds `None`. */
  const NotIterableMessage: string := "'NoneType' object is not iterable"

  /** The error looks like an HTTP 403 from the video site. */
  predicate IsAccessDenied(e: string) {
    Contains(e, "403") || Contains(e, "Forbidden")
  }

  /** `r` is `prefix` followed by the first `min(n, |e|)` characters of `e`. */
  predicate Truncated(r: string, prefix: string, e: string, n: nat) {
    && |prefix| <= |r|
    && |r| - |prefix| == (if |e| < n then |e| else n)
    && r == prefix + e[..|r| - |prefix|]
  }

  /** The error text of a failed `get_video_info`. */
  function InfoErrorText(e: string): (r: string)
    ensures IsAccessDenied(e) ==> r == AccessDeniedMessage
    ensures !IsAccessDenied(e) ==> Truncated(r, InfoErrorPrefix, e, 100)
  {
    if IsAccessDenied(e) then AccessDeniedMessage else InfoErrorPrefix + Take(e, 100)
  }

  /** The text of the exception `_download_video` re-raises. */
  function VideoErrorText(e: string): (r: string)
    ensures Truncated(r, VideoErrorPrefix, e, 150)
  {
    VideoErrorPrefix + Take(e, 150)
  }

  /** The error text of a failed `download_video_by_resolution`. */
  function DownloadErrorText(e: string): (r: string)
    ensures Truncated(r, DownloadErrorPrefix, e, 100)
  {
    DownloadErrorPrefix + Take(e, 100)
  }

  /** The access guidance can never be mistaken for a generic error. */
  lemma GuidanceIsDistinct(e: string)
    requires !IsAccessDenied(e)
    ensures InfoErrorText(e) != AccessDeniedMessage
  {
    var r := InfoErrorText(e);
    assert r[0] == InfoErrorPrefix[0];
    assert AccessDeniedHeading[0] == '\U{26A0}';
    assert InfoErrorPrefix[0] == 'О';
  }

  /**
   * A failed resolution download reports at most `100 - |VideoErrorPrefix|` characters
   * of the underlying error: the 100-character cut applies to the re-raised text, which
   * already starts with the inner prefix.
   */
  lemma NestedTruncation(e: string)
    ensures DownloadErrorText(VideoErrorText(e))
      == DownloadErrorPrefix + VideoErrorPrefix + Take(e, 100 - |VideoErrorPrefix|)
    ensures |DownloadErrorText(VideoErrorText(e))| <= |DownloadErrorPrefix| + 100
  {
    var inner := VideoErrorText(e);
    var n := 100 - |VideoErrorPrefix|;
    assert |VideoErrorPrefix| == 26;
    if |e| <= n {
      assert Take(inner, 100) == inner;
    } else {
      assert Take(inner, 100) == VideoErrorPrefix + e[..n];
    }
  }

  /** A failed lookup never reads like the busy rejection, so the two can be told apart. */
  lemma InfoBusyIsDistinct(e: string)
    ensures InfoErrorText(e) != BusyInfoMessage
  {
    var r := InfoErrorText(e);
    assert BusyInfoMessage[0] == 'В';
    assert AccessDeniedHeading[0] == '\U{26A0}';
    assert InfoErrorPrefix[0] == 'О';
    assert r[0] == (if IsAccessDenied(e) then AccessDeniedHeading[0] else InfoErrorPrefix[0]);
  }

  /** A failed resolution download never reads like the busy or the stale-session rejection. */
  lemma DownloadRejectionsAreDistinct(e: string)
    ensures DownloadErrorText(e) != BusyDownloadMessage
    ensures DownloadErrorText(e) != StaleSessionMessage
    ensures BusyDownloadMessage != StaleSessionMessage
  {
    var r := DownloadErrorText(e);
    assert r[0] == DownloadErrorPrefix[0] == 'Н';
    assert BusyDownloadMessage[0] == 'В';
    assert StaleSessionMessage[0] == 'И';
  }
}
