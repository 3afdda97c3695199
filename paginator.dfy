/** The pagination links of the contest site, after
    python-lib/prologin/concours/stechec/templatetags/paginator.py: the
    page numbers within `adjacent` of the current page that exist, and
    whether the first and the last page need links of their own. */
module Paginator {

  /** The numbers of `range(lo, hi)` that are pages, that is in
      [1, numPages], in ascending order. */
  function PagesIn(lo: int, hi: int, numPages: int): (r: seq<int>)
    decreases if hi < lo then 0 else hi - lo
  {
    if hi <= lo then []
    else PagesIn(lo, hi - 1, numPages) + (if 0 < hi - 1 <= numPages then [hi - 1] else [])
  }

  /** `page_numbers`. */
  function PageNumbers(number: int, adjacent: int, numPages: int): seq<int>
  {
    PagesIn(number - adjacent, number + adjacent + 1, numPages)
  }

  predicate Ascending(s: seq<int>)
  {
    forall i, j :: 0 <= i < j < |s| ==> s[i] < s[j]
  }

  lemma {:induction false} PagesInSpec(lo: int, hi: int, numPages: int)
    ensures forall n :: n in PagesIn(lo, hi, numPages) <==> lo <= n < hi && 1 <= n <= numPages
    ensures Ascending(PagesIn(lo, hi, numPages))
    ensures |PagesIn(lo, hi, numPages)| <= if hi < lo then 0 else hi - lo
    decreases if hi < lo then 0 else hi - lo
  {
    if lo < hi {
      var init := PagesIn(lo, hi - 1, numPages);
      PagesInSpec(lo, hi - 1, numPages);
      assert PagesIn(lo, hi, numPages) == init + (if 0 < hi - 1 <= numPages then [hi - 1] else []);
      forall i | 0 <= i < |init|
        ensures init[i] < hi - 1
      {
        assert init[i] in init;
      }
    }
  }

  /** The page numbers are exactly the pages within `adjacent` of the
      current one, ascending, at most 2 * adjacent + 1 of them; the current
      page is among them when it exists. */
  lemma PageNumbersSpec(number: int, adjacent: int, numPages: int)
    ensures var r := PageNumbers(number, adjacent, numPages);
      (forall n :: n in r <==> number - adjacent <= n <= number + adjacent && 1 <= n <= numPages) &&
      Ascending(r) &&
      (adjacent >= 0 ==> |r| <= 2 * adjacent + 1) &&
      (adjacent >= 0 && 1 <= number <= numPages ==> number in r)
  {
    PagesInSpec(number - adjacent, number + adjacent + 1, numPages);
  }

  /** What the template receives besides the page and the paginator. */
  datatype Links = Links(pageNumbers: seq<int>, showFirst: bool, showLast: bool)

  /** `paginator`. */
  function Paginate(number: int, adjacent: int, numPages: int): Links
  {
    var r := PageNumbers(number, adjacent, numPages);
    Links(r, 1 !in r, numPages !in r)
  }

  /** The first page gets a link of its own exactly when it is out of
      reach of the current one or there is no page at all, and likewise
      the last one. */
  lemma PaginateLinks(number: int, adjacent: int, numPages: int)
    ensures var l := Paginate(number, adjacent, numPages);
      (l.showFirst <==> !(number - adjacent <= 1 <= number + adjacent && 1 <= numPages)) &&
      (l.showLast <==> !(number - adjacent <= numPages <= number + adjacent && 1 <= numPages))
  {
    PageNumbersSpec(number, adjacent, numPages);
  }
}
