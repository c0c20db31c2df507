/** The record shapes shared by the scraper services. */
module Models {

  /** Python's `Optional[T]`: `None` or a present value. */
  datatype Option<+T> = None | Some(value: T)

  /**
   * One crawled page, as the services hand it around.
   * `links` holds one string dictionary per outbound link; `timestamp` is an
   * opaque clock reading supplied by the caller.
   */
  datatype Page = Page(
    siteId: string,
    url: string,
    statusCode: int,
    bodyHtml: Option<string>,
    bodyText: Option<string>,
    links: seq<map<string, string>>,
    timestamp: int,
    error: Option<string>,
    processed: bool
  )

  /**
   * Truthiness of `page.error` in Python: both a missing error and the empty
   * string read as "no error".
   */
  function HasError(p: Page): (failed: bool)
    ensures p.error == None ==> !failed
    ensures p.error == Some("") ==> !failed
    ensures p.error.Some? && |p.error.value| > 0 ==> failed
  {
    p.error.Some? && p.error.value != ""
  }
}
