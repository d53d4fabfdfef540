/** The records of `src/lib/types.ts` that the modelled operations read or build. */
module SearchTypes {
  import opened Wrappers

  datatype Thumbnail = Thumbnail(src: string)

  /** `pagemap`, with only the members the operations read. */
  datatype Pagemap = Pagemap(cseThumbnail: Option<seq<Thumbnail>>, metatags: Option<seq<map<string, string>>>)

  /** `SearchResultItem`. */
  datatype SearchResultItem = SearchResultItem(
    title: string,
    link: string,
    displayLink: string,
    snippet: string,
    pagemap: Option<Pagemap>)

  /** `VideoSearchResultItem`: a search item with the two optional video members. */
  datatype VideoSearchResultItem = VideoSearchResultItem(
    item: SearchResultItem,
    videoUrl: Option<string>,
    coverImageUrl: Option<string>)

  datatype SearchInformation = SearchInformation(formattedTotalResults: string, formattedSearchTime: string)

  /** `SearchResults` as the search API returns it: `items` may be missing. */
  datatype SearchResults = SearchResults(searchInformation: SearchInformation, items: Option<seq<SearchResultItem>>)

  /** The result of `searchVideos`: `items` always present. */
  datatype VideoSearchResults = VideoSearchResults(searchInformation: SearchInformation, items: seq<VideoSearchResultItem>)

  /** A search item without video data, as `return item` hands it on. */
  function Plain(item: SearchResultItem): VideoSearchResultItem
  {
    VideoSearchResultItem(item, None, None)
  }
}
