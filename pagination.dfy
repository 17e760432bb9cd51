/**
 * Pagination of the gallery: how many pages a list of images needs, which
 * slice of the list each page shows, and where each thumbnail of a page sits
 * in the 4-column grid.
 */
module Pagination {
  import opened Paths

  /** Thumbnails shown per page (a 4 x 4 grid). */
  const ImagesPerPage: nat := 16
  /** Columns of the thumbnail grid. */
  const GridColumns: nat := 4

  function Min(a: int, b: int): int
  {
    if a <= b then a else b
  }

  /** Number of pages needed for `n` images: the ceiling of n / ImagesPerPage. */
  function TotalPages(n: nat): (total: nat)
    ensures n <= total * ImagesPerPage
    ensures n > 0 ==> (total - 1) * ImagesPerPage < n
    ensures total >= 1 <==> n >= 1
  {
    (n + ImagesPerPage - 1) / ImagesPerPage
  }

  /** Index of the first image of `page`. */
  function PageStart(page: nat): nat
  {
    page * ImagesPerPage
  }

  /** One past the index of the last image of `page`, clipped to the list. */
  function PageEnd(page: nat, n: nat): int
  {
    Min(PageStart(page) + ImagesPerPage, n)
  }

  /**
   * The images shown on `page`: the slice [start, end) of `paths`, empty when
   * the page lies beyond the list (slicing past the end yields nothing).
   */
  function PageItems(paths: seq<Path>, page: nat): (items: seq<Path>)
    ensures |items| <= ImagesPerPage
    ensures page < TotalPages(|paths|) ==>
              1 <= |items| && PageStart(page) + |items| <= |paths| &&
              |items| == Min(ImagesPerPage, |paths| - PageStart(page)) &&
              items == paths[PageStart(page)..PageStart(page) + |items|]
    ensures page >= TotalPages(|paths|) ==> items == []
  {
    var start, end := PageStart(page), PageEnd(page, |paths|);
    if start <= end then paths[start..end] else []
  }

  /** The pages 0 .. k-1 laid end to end. */
  function ConcatPages(paths: seq<Path>, k: nat): seq<Path>
  {
    if k == 0 then [] else ConcatPages(paths, k - 1) + PageItems(paths, k - 1)
  }

  /** The first k pages together are exactly the first min(16k, n) images. */
  lemma {:induction false} ConcatPagesIsPrefix(paths: seq<Path>, k: nat)
    ensures ConcatPages(paths, k) == paths[..Min(k * ImagesPerPage, |paths|)]
  {
    if k > 0 {
      ConcatPagesIsPrefix(paths, k - 1);
      var a := Min((k - 1) * ImagesPerPage, |paths|);
      var b := Min(k * ImagesPerPage, |paths|);
      if (k - 1) * ImagesPerPage < |paths| {
        assert PageItems(paths, k - 1) == paths[a..b];
        assert paths[..b] == paths[..a] + paths[a..b];
      } else {
        assert PageItems(paths, k - 1) == [];
        assert a == b;
      }
    }
  }

  /** Concatenating every page reproduces the image list, each path once and in order. */
  lemma PagesReassemble(paths: seq<Path>)
    ensures ConcatPages(paths, TotalPages(|paths|)) == paths
  {
    ConcatPagesIsPrefix(paths, TotalPages(|paths|));
    assert paths[..|paths|] == paths;
  }

  /** Image i is shown on page i / 16 in slot i % 16. */
  lemma PageOfIndex(paths: seq<Path>, i: nat)
    requires i < |paths|
    ensures i / ImagesPerPage < TotalPages(|paths|)
    ensures i % ImagesPerPage < |PageItems(paths, i / ImagesPerPage)|
    ensures PageItems(paths, i / ImagesPerPage)[i % ImagesPerPage] == paths[i]
  {
  }

  /** A page of a duplicate-free list is duplicate-free. */
  lemma PageItemsDistinct(paths: seq<Path>, page: nat)
    requires Distinct(paths)
    ensures Distinct(PageItems(paths, page))
  {
    var items := PageItems(paths, page);
    if page < TotalPages(|paths|) {
      forall i, j | 0 <= i < j < |items| ensures items[i] != items[j] {
        assert items[i] == paths[PageStart(page) + i];
        assert items[j] == paths[PageStart(page) + j];
      }
    }
  }

  /** Grid cell (row, col) of slot `index`, as Python's divmod(index, 4). */
  function GridCell(index: nat): (cell: (nat, nat))
    ensures cell.1 < GridColumns
    ensures cell.0 * GridColumns + cell.1 == index
  {
    (index / GridColumns, index % GridColumns)
  }

  /** The slots of one page fill a 4 x 4 grid, each slot in its own cell. */
  lemma GridCellsOfPage(i: nat, j: nat)
    requires i < ImagesPerPage && j < ImagesPerPage
    ensures GridCell(i).0 < GridColumns && GridCell(i).1 < GridColumns
    ensures i != j ==> GridCell(i) != GridCell(j)
  {
  }

  /** The example of 20 images: two pages, of 16 and 4 thumbnails. */
  lemma TwentyImages(paths: seq<Path>)
    requires |paths| == 20
    ensures TotalPages(|paths|) == 2
    ensures PageItems(paths, 0) == paths[..16]
    ensures PageItems(paths, 1) == paths[16..]
  {
  }
}
