/**
 * One entry of the `formats` list that yt-dlp's `extract_info` returns, reduced to the
 * keys the download service reads, and the truthiness tests it applies to them.
 */
module Formats {
  import opened Wrappers

  /** A key of a format record: missing, present with the value `None`, or present with a value. */
  datatype Field<T> = Missing | Null | Given(value: T)

  datatype Format = Format(height: Field<int>, vcodec: Field<string>, acodec: Field<string>, formatId: Field<string>)

  /** `fmt.get("height")` is truthy: present, not `None` and not `0`. */
  predicate HasHeight(f: Format) {
    f.height.Given? && f.height.value != 0
  }

  /**
   * `fmt.get(key, "none") != "none"`: a missing key reads as `"none"`; a key present
   * with the value `None` reads as `None`, which differs from `"none"`.
   */
  predicate CodecPresent(c: Field<string>) {
    !c.Missing? && c != Given("none")
  }

  /** The filter of the selection loop: `height and vcodec != "none"`. */
  predicate IsVideoFormat(f: Format) {
    HasHeight(f) && CodecPresent(f.vcodec)
  }

  /** `fmt.get("format_id")`. */
  function IdOf(f: Format): Option<string> {
    if f.formatId.Given? then Some(f.formatId.value) else None
  }
}
