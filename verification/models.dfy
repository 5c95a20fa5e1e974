/** The records the metadata store keeps per page. */
module Models {
  import opened Wrappers

  /** One line of the sitemap: where a page lives and when it was last indexed. */
  datatype SitemapEntry = SitemapEntry(
    slug: string,
    url: string,
    title: Option<string>,
    description: Option<string>,
    lastIndexedAt: string)

  /** The stored copy of a page: its metadata, headings and full text. */
  datatype PageDoc = PageDoc(
    slug: string,
    url: string,
    title: Option<string>,
    description: Option<string>,
    headings: seq<string>,
    content: string)
}
