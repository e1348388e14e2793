/**
 * `getSafeImageUrl`, shared by the sponsor section and the teams page: image paths stored in
 * the database are made usable as `src` attributes.
 */
module Images {
  import opened Wrappers
  import opened Text

  /** The image shown when a record has none. */
  const Placeholder: string := "/placeholder.svg"

  /**
   * A missing or empty path becomes the placeholder; an absolute URL (`http...`) or a
   * root-relative path (`/...`) is kept; any other path is made root-relative.
   */
  function SafeImageUrl(url: Option<string>): (r: string)
    ensures url.None? || url.value == [] ==> r == Placeholder
    ensures url.Some? && (StartsWith(url.value, "http") || StartsWith(url.value, "/")) ==> r == url.value
    ensures url.Some? && url.value != [] && !StartsWith(url.value, "http") && !StartsWith(url.value, "/") ==>
              r == "/" + url.value
  {
    if url.None? || url.value == [] then Placeholder
    else if StartsWith(url.value, "http") || StartsWith(url.value, "https") then url.value
    else if StartsWith(url.value, "/") then url.value
    else "/" + url.value
  }

  /** Every image source is root-relative or absolute. */
  lemma SafeImageUrlIsUsable(url: Option<string>)
    ensures StartsWith(SafeImageUrl(url), "/") || StartsWith(SafeImageUrl(url), "http")
  {
    var r := SafeImageUrl(url);
    if url.None? || url.value == [] {
      assert r[..1] == "/";
    } else if !StartsWith(url.value, "http") && !StartsWith(url.value, "/") {
      assert r[..1] == "/";
    }
  }

  /** Making a path safe twice is making it safe once. */
  lemma SafeImageUrlIdempotent(url: Option<string>)
    ensures SafeImageUrl(Some(SafeImageUrl(url))) == SafeImageUrl(url)
  {
    SafeImageUrlIsUsable(url);
  }
}
