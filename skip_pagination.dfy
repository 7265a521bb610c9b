/**
 * The pager under the grid: Previous and Next targets, the numbered links
 * and the ellipsis.
 */
module SkipPagination {

  /** The page Previous goes to: one back, never below 1. */
  function PrevTarget(currentPage: int): (target: int)
    ensures target >= 1
    ensures currentPage > 1 ==> target == currentPage - 1
    ensures currentPage <= 1 ==> target == 1
  {
    if currentPage - 1 > 1 then currentPage - 1 else 1
  }

  /** The page Next goes to: one on, never past `totalPages`; with no pages that is page 0. */
  function NextTarget(currentPage: int, totalPages: int): (target: int)
    ensures target <= totalPages
    ensures currentPage < totalPages ==> target == currentPage + 1
    ensures currentPage >= totalPages ==> target == totalPages
  {
    if totalPages < currentPage + 1 then totalPages else currentPage + 1
  }

  /** The numbered links: `min(5, totalPages)` of them, numbered from 1. */
  function PageLinks(totalPages: int): (links: seq<int>)
    ensures |links| == if totalPages < 0 then 0 else if totalPages < 5 then totalPages else 5
    ensures forall i :: 0 <= i < |links| ==> links[i] == i + 1
  {
    var n := if totalPages < 0 then 0 else if totalPages < 5 then totalPages else 5;
    seq(n, i requires 0 <= i < n => i + 1)
  }

  predicate LinkActive(pageNumber: int, currentPage: int) {
    pageNumber == currentPage
  }

  predicate ShowEllipsis(currentPage: int, totalPages: int) {
    totalPages > 5 && currentPage > 3
  }

  /** The ellipsis appears only when there are more pages than the five links show. */
  lemma EllipsisOnlyWhenLinksTruncated(currentPage: int, totalPages: int)
    ensures ShowEllipsis(currentPage, totalPages) ==> |PageLinks(totalPages)| == 5 < totalPages
    ensures ShowEllipsis(currentPage, totalPages) ==> currentPage > 3
    ensures totalPages <= 5 ==> !ShowEllipsis(currentPage, totalPages)
  {
  }

  /** Every link leads to an existing page, and at most one link is active. */
  lemma LinksAreValidPages(totalPages: int, currentPage: int, i: nat, j: nat)
    requires i < |PageLinks(totalPages)| && j < |PageLinks(totalPages)|
    ensures 1 <= PageLinks(totalPages)[i] <= totalPages
    ensures LinkActive(PageLinks(totalPages)[i], currentPage) && LinkActive(PageLinks(totalPages)[j], currentPage) ==> i == j
    ensures LinkActive(PageLinks(totalPages)[i], currentPage) <==> currentPage == i + 1
  {
  }

  /** Some link is active exactly when the current page is among the first five pages. */
  lemma SomeLinkActive(totalPages: int, currentPage: int)
    ensures (exists i :: 0 <= i < |PageLinks(totalPages)| && LinkActive(PageLinks(totalPages)[i], currentPage))
        <==> 1 <= currentPage <= totalPages && currentPage <= 5
  {
    if 1 <= currentPage <= totalPages && currentPage <= 5 {
      assert LinkActive(PageLinks(totalPages)[currentPage - 1], currentPage);
    }
  }

  /** From any page 1 < k <= totalPages, Previous then Next comes back to k, and Next then Previous from k < totalPages too. */
  lemma PrevNextRoundTrip(k: int, totalPages: int)
    ensures 1 < k <= totalPages ==> NextTarget(PrevTarget(k), totalPages) == k
    ensures 1 <= k < totalPages ==> PrevTarget(NextTarget(k, totalPages)) == k
  {
  }

  /** The buttons never lead to a negative page, starting from page 0 or later. */
  lemma TargetsNotNegative(currentPage: int, totalPages: int)
    requires currentPage >= 0 && totalPages >= 0
    ensures PrevTarget(currentPage) >= 0 && NextTarget(currentPage, totalPages) >= 0
  {
  }
}
