/**
  The result pager (`Pagination`): a Previous and a Next button around the current page
  number. A disabled button fires nothing; an enabled one passes only the target page.
 */
module Pagination {
  import opened Wrappers

  datatype Pager = Pager(previousEnabled: bool, nextEnabled: bool)

  /** `disabled={currentPage <= 1}` and `disabled={!hasNextPage}`. */
  function Buttons(currentPage: int, hasNextPage: bool): (p: Pager)
    ensures p.previousEnabled <==> currentPage > 1
    ensures p.nextEnabled <==> hasNextPage
  {
    Pager(!(currentPage <= 1), !(!hasNextPage))
  }

  /** The page a Previous click requests, if the button is enabled. */
  function PreviousClick(currentPage: int, hasNextPage: bool): (page: Option<int>)
    ensures page.Some? <==> Buttons(currentPage, hasNextPage).previousEnabled
    ensures page.Some? ==> page.value == currentPage - 1 && page.value >= 1
  {
    if Buttons(currentPage, hasNextPage).previousEnabled then Some(currentPage - 1) else None
  }

  /** The page a Next click requests, if the button is enabled. */
  function NextClick(currentPage: int, hasNextPage: bool): (page: Option<int>)
    ensures page.Some? <==> hasNextPage
    ensures page.Some? ==> page.value == currentPage + 1
  {
    if Buttons(currentPage, hasNextPage).nextEnabled then Some(currentPage + 1) else None
  }

  /** Going forward then back returns to the page one started on. */
  lemma NextThenPrevious(currentPage: int, hasNextPage: bool)
    requires currentPage >= 1 && hasNextPage
    ensures PreviousClick(NextClick(currentPage, true).value, hasNextPage) == Some(currentPage)
  {
  }

  /** From any page at least 1, no click ever requests a page below 1. */
  lemma PagesStayPositive(currentPage: int, hasNextPage: bool)
    requires currentPage >= 1
    ensures forall p :: p in [PreviousClick(currentPage, hasNextPage), NextClick(currentPage, hasNextPage)] && p.Some? ==> p.value >= 1
  {
  }
}
