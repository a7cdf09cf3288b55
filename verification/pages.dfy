/**
 What the scraper gets back from the network, reduced to what it reads.
 Requests are pure functions of the requested address; HTML parsing is
 replaced by the values the parser would hand back.
 */
module Pages {
  import opened Wrappers

  const HttpOk := 200

  /** A plain response: status code and text body. */
  datatype Response = Response(status: int, body: string)

  /** A compound's detail page: status code and the text of the first link
      after the "External chemical identifiers:" label, if both exist. */
  datatype DetailPage = DetailPage(status: int, anchorText: Option<string>)

  /** A plant's listing page: status code and, if the page has a table, the
      texts of the `td` cells of each `tr` row, header row included. */
  datatype ListingPage = ListingPage(status: int, table: Option<seq<seq<string>>>)

  /** The remote sites, keyed by address. The structure download is known
      only by its status code. */
  datatype Web = Web(
    listing: string -> ListingPage,
    detail: string -> DetailPage,
    pubchem: string -> Response,
    structure: string -> int)
}
