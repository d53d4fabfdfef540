/**
  The video result card (`VideoResult`): which image it shows, whether its video url is a
  direct media file, and what a click asks the application to open.
 */
module VideoResult {
  import opened Wrappers
  import opened JsString
  import opened SearchTypes

  /** `item.pagemap?.cse_thumbnail?.[0]?.src`. */
  function FirstThumbnailSrc(item: SearchResultItem): (src: Option<string>)
    ensures src.Some? <==>
      item.pagemap.Some? && item.pagemap.value.cseThumbnail.Some? && |item.pagemap.value.cseThumbnail.value| > 0
    ensures src.Some? ==> src.value == item.pagemap.value.cseThumbnail.value[0].src
  {
    if item.pagemap.Some? && item.pagemap.value.cseThumbnail.Some? && |item.pagemap.value.cseThumbnail.value| > 0
    then Some(item.pagemap.value.cseThumbnail.value[0].src)
    else None
  }

  /** `item.coverImageUrl || item.pagemap?.cse_thumbnail?.[0]?.src`: the cover when non-empty, else the first thumbnail. */
  function ImageUrl(v: VideoSearchResultItem): (img: Option<string>)
    ensures v.coverImageUrl.Some? && v.coverImageUrl.value != "" ==> img == v.coverImageUrl
    ensures !(v.coverImageUrl.Some? && v.coverImageUrl.value != "") ==> img == FirstThumbnailSrc(v.item)
  {
    if v.coverImageUrl.Some? && v.coverImageUrl.value != "" then v.coverImageUrl
    else FirstThumbnailSrc(v.item)
  }

  /** A media file suffix the pattern `/\.(mp4|webm|ogg)$/` accepts, case-sensitively. */
  predicate HasVideoSuffix(url: string)
  {
    EndsWith(url, ".mp4") || EndsWith(url, ".webm") || EndsWith(url, ".ogg")
  }

  /** `item.videoUrl?.match(/\.(mp4|webm|ogg)$/)` is truthy. */
  predicate IsDirectVideoLink(v: VideoSearchResultItem)
  {
    v.videoUrl.Some? && HasVideoSuffix(v.videoUrl.value)
  }

  /** What a click passes to `onResultClick`: the url to open and the title. */
  datatype Click = Click(url: string, title: string)

  /** `handleClick`: open the video file itself when it is direct, the result's page otherwise. */
  function ClickTarget(v: VideoSearchResultItem): (c: Click)
    ensures c.title == v.item.title
    ensures IsDirectVideoLink(v) ==> c.url == v.videoUrl.value
    ensures !IsDirectVideoLink(v) ==> c.url == v.item.link
  {
    Click(if IsDirectVideoLink(v) then v.videoUrl.value else v.item.link, v.item.title)
  }

  /** A click opens either a direct media file or the result's own page, never another url. */
  lemma ClickOpensMediaOrPage(v: VideoSearchResultItem)
    ensures var c := ClickTarget(v);
      (c.url == v.item.link) || (Some(c.url) == v.videoUrl && HasVideoSuffix(c.url))
  {
  }

  /** The suffix test is case-sensitive: an upper-case extension is not direct. */
  lemma UpperCaseSuffixIsNotDirect(item: SearchResultItem, stem: string)
    ensures !IsDirectVideoLink(VideoSearchResultItem(item, Some(stem + ".MP4"), None))
    ensures IsDirectVideoLink(VideoSearchResultItem(item, Some(stem + ".mp4"), None))
  {
    var up := stem + ".MP4";
    var low := stem + ".mp4";
    assert up[|up| - 4..] == ".MP4";
    assert up[|up| - 1] == '4';
    assert low[|low| - 4..] == ".mp4";
  }
}
