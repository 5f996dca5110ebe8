/** The paging of the country table (src/lib/components/CountryTable.tsx):
    page `page` (counted from 1) shows `countries.slice(offset - pageSize,
    offset)` with `offset = page * pageSize`, and the previous and next
    buttons move one page. */
module CountryTable {
  import opened JsBuiltins

  /** The page size when the caller gives none. */
  const DefaultPageSize: int := 5

  /** The `visible` rows of `page`. */
  function Visible<T>(countries: seq<T>, page: int, pageSize: int): (r: seq<T>)
    ensures |r| <= |countries|
  {
    var offset := page * pageSize;
    Slice(countries, offset - pageSize, offset)
  }

  /** Page `page >= 1` is the window `[(page - 1) * pageSize, page * pageSize)`
      of the list, cut off at its end; it is empty when that window starts
      at or after the end. */
  lemma VisibleWindow<T>(countries: seq<T>, page: int, pageSize: int)
    requires page >= 1 && pageSize >= 0
    ensures var n := |countries|;
            var lo, hi := Min((page - 1) * pageSize, n), Min(page * pageSize, n);
            Visible(countries, page, pageSize) == countries[lo..hi]
  {
    OffsetStep(page - 1, pageSize);
    SliceNonNegative(countries, (page - 1) * pageSize, page * pageSize);
  }

  /** The offset grows by `pageSize` from one page to the next. */
  lemma OffsetStep(k: int, pageSize: int)
    requires k >= 0 && pageSize >= 0
    ensures (k + 1) * pageSize == k * pageSize + pageSize
    ensures 0 <= k * pageSize <= (k + 1) * pageSize
  {
  }

  /** A page holds at most `pageSize` rows. */
  lemma VisibleLength<T>(countries: seq<T>, page: int, pageSize: int)
    requires page >= 1 && pageSize >= 0
    ensures |Visible(countries, page, pageSize)| <= pageSize
  {
    VisibleWindow(countries, page, pageSize);
    OffsetStep(page - 1, pageSize);
  }

  /** Page 1 shows the first `pageSize` rows, or all when there are fewer. */
  lemma FirstPage<T>(countries: seq<T>, pageSize: int)
    requires pageSize >= 0
    ensures Visible(countries, 1, pageSize) == countries[..Min(pageSize, |countries|)]
  {
    VisibleWindow(countries, 1, pageSize);
  }

  /** With the default page size, page 1 shows the first five rows, or all of
      them when there are fewer. */
  lemma DefaultFirstPage<T>(countries: seq<T>)
    ensures |Visible(countries, 1, DefaultPageSize)| == Min(5, |countries|)
    ensures Visible(countries, 1, DefaultPageSize) == countries[..Min(5, |countries|)]
  {
    FirstPage(countries, DefaultPageSize);
  }

  /** Page 0 is empty: `slice(-pageSize, 0)` ends at 0. */
  lemma PageZero<T>(countries: seq<T>, pageSize: int)
    requires pageSize >= 0
    ensures Visible(countries, 0, pageSize) == []
  {
  }

  /** A page that starts at or after the end of the list is empty. */
  lemma PastTheEnd<T>(countries: seq<T>, page: int, pageSize: int)
    requires page >= 1 && pageSize >= 0
    requires (page - 1) * pageSize >= |countries|
    ensures Visible(countries, page, pageSize) == []
  {
    VisibleWindow(countries, page, pageSize);
    OffsetStep(page - 1, pageSize);
  }

  /** The rows of pages `1..k`, one after the other. */
  function Pages<T>(countries: seq<T>, k: nat, pageSize: int): seq<T>
    decreases k
  {
    if k == 0 then [] else Pages(countries, k - 1, pageSize) + Visible(countries, k, pageSize)
  }

  /** Pages `1..k` together are the first `k * pageSize` rows. */
  lemma {:induction false} PagesArePrefix<T>(countries: seq<T>, k: nat, pageSize: int)
    requires pageSize >= 0
    ensures Pages(countries, k, pageSize) == countries[..Min(k * pageSize, |countries|)]
    decreases k
  {
    if k > 0 {
      PagesArePrefix(countries, k - 1, pageSize);
      VisibleWindow(countries, k, pageSize);
      OffsetStep(k - 1, pageSize);
      var n := |countries|;
      PrefixThenWindow(countries, Min((k - 1) * pageSize, n), Min(k * pageSize, n));
    }
  }

  /** A prefix followed by the window after it is a longer prefix. */
  lemma PrefixThenWindow<T>(s: seq<T>, lo: int, hi: int)
    requires 0 <= lo <= hi <= |s|
    ensures s[..lo] + s[lo..hi] == s[..hi]
  {
  }

  /** How many pages the list fills: `ceil(n / pageSize)`. */
  function PageCount(n: nat, pageSize: int): (k: nat)
    requires pageSize > 0
    ensures k * pageSize >= n
    ensures k > 0 ==> (k - 1) * pageSize < n
  {
    (n + pageSize - 1) / pageSize
  }

  /** Reading every page from 1 to the last gives back the whole list, each
      row once and in order. */
  lemma AllPages<T>(countries: seq<T>, pageSize: int)
    requires pageSize > 0
    ensures Pages(countries, PageCount(|countries|, pageSize), pageSize) == countries
  {
    PagesArePrefix(countries, PageCount(|countries|, pageSize), pageSize);
  }

  /** The previous-page button. */
  function PrevPage(page: int): (r: int)
    ensures r < page && page - r == 1
  {
    page - 1
  }

  /** The next-page button. */
  function NextPage(page: int): (r: int)
    ensures r > page && r - page == 1 && PrevPage(r) == page
  {
    page + 1
  }

  /** The next trigger undoes the previous trigger. */
  lemma PrevThenNext(page: int)
    ensures NextPage(PrevPage(page)) == page
  {
  }

  /** The next page carries on where the current one ends: the two are the
      window over rows `[(page - 1) * pageSize, (page + 1) * pageSize)`. */
  lemma NextPageContinues<T>(countries: seq<T>, page: int, pageSize: int)
    requires page >= 1 && pageSize >= 0
    ensures var n := |countries|;
            Visible(countries, page, pageSize) + Visible(countries, NextPage(page), pageSize)
            == countries[Min((page - 1) * pageSize, n)..Min((page + 1) * pageSize, n)]
  {
    var n := |countries|;
    VisibleWindow(countries, page, pageSize);
    VisibleWindow(countries, page + 1, pageSize);
    OffsetStep(page - 1, pageSize);
    OffsetStep(page, pageSize);
    var a, b, c := Min((page - 1) * pageSize, n), Min(page * pageSize, n), Min((page + 1) * pageSize, n);
    assert countries[a..b] + countries[b..c] == countries[a..c];
  }
}
