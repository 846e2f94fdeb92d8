/**
 * The framework paginator as the views use it: every listing is cut into
 * pages of POST_CNT items, numbered from 1, and the page a request asks for
 * is resolved the way get_page resolves it.
 */
module Paginator {

  import opened Wrappers

  /** POST_CNT, the page size every listing hands to the paginator. */
  const PostCnt: nat := 10

  /** One page of a listing: its number, its items and the page count. */
  datatype Page<T> = Page(number: nat, items: seq<T>, numPages: nat)

  /**
   * Number of pages for `count` items: the ceiling of count / PostCnt, and
   * one (empty) page when there is nothing to show.
   */
  function NumPages(count: nat): (n: nat)
    ensures n >= 1
    ensures count <= n * PostCnt
    ensures count > 0 ==> (n - 1) * PostCnt < count
    ensures count == 0 ==> n == 1
  {
    if count == 0 then 1 else (count + PostCnt - 1) / PostCnt
  }

  /**
   * The page number get_page settles on. `None` stands for a missing or
   * non-integer argument, which gives the first page; a number outside
   * 1..NumPages (below 1 as well as beyond the end) gives the last page.
   */
  function PageNumber(count: nat, requested: Option<int>): (k: nat)
    ensures 1 <= k <= NumPages(count)
    ensures requested.None? ==> k == 1
    ensures requested.Some? && 1 <= requested.value <= NumPages(count) ==> k == requested.value
    ensures requested.Some? && !(1 <= requested.value <= NumPages(count)) ==> k == NumPages(count)
  {
    match requested
    case None => 1
    case Some(n) => if 1 <= n <= NumPages(count) then n else NumPages(count)
  }

  /** The items of page `k`: at offset (k - 1) * PostCnt, at most PostCnt of them. */
  function PageItems<T>(items: seq<T>, k: nat): (page: seq<T>)
    requires 1 <= k <= NumPages(|items|)
    ensures |page| <= PostCnt
    ensures k < NumPages(|items|) ==> |page| == PostCnt
    ensures k == NumPages(|items|) ==> |page| == |items| - (k - 1) * PostCnt
    ensures (k - 1) * PostCnt + |page| <= |items|
    ensures forall i :: 0 <= i < |page| ==> page[i] == items[(k - 1) * PostCnt + i]
  {
    var bottom := (k - 1) * PostCnt;
    var top := if bottom + PostCnt >= |items| then |items| else bottom + PostCnt;
    items[bottom..top]
  }

  /** get_page: resolve the requested number, then cut that page. */
  function GetPage<T>(items: seq<T>, requested: Option<int>): (p: Page<T>)
    ensures 1 <= p.number <= p.numPages
    ensures p.number == PageNumber(|items|, requested)
    ensures p.items == PageItems(items, p.number)
    ensures p.numPages == NumPages(|items|)
    ensures |p.items| <= PostCnt
    ensures (p.number - 1) * PostCnt + |p.items| <= |items|
    ensures forall i :: 0 <= i < |p.items| ==> p.items[i] == items[(p.number - 1) * PostCnt + i]
  {
    var k := PageNumber(|items|, requested);
    Page(k, PageItems(items, k), NumPages(|items|))
  }

  /** Pages 1 to k, concatenated in order. */
  function Pages<T>(items: seq<T>, k: nat): seq<T>
    requires k <= NumPages(|items|)
  {
    if k == 0 then [] else Pages(items, k - 1) + PageItems(items, k)
  }

  /** The first k pages are the first k * PostCnt items (all of them, at the end). */
  lemma {:induction false} PagesArePrefix<T>(items: seq<T>, k: nat)
    requires k <= NumPages(|items|)
    ensures k * PostCnt <= |items| ==> Pages(items, k) == items[..k * PostCnt]
    ensures k * PostCnt > |items| ==> Pages(items, k) == items
  {
    if k > 0 {
      PagesArePrefix(items, k - 1);
      var n := NumPages(|items|);
      assert (k - 1) * PostCnt <= |items|;
      var prev := items[..(k - 1) * PostCnt];
      assert Pages(items, k - 1) == prev;
      var page := PageItems(items, k);
      if k * PostCnt <= |items| {
        assert prev + page == items[..k * PostCnt];
      } else {
        assert k == n;
        assert prev + page == items;
      }
    }
  }

  /** Concatenating every page in order gives back the whole listing. */
  lemma AllPagesReproduce<T>(items: seq<T>)
    ensures Pages(items, NumPages(|items|)) == items
  {
    var n := NumPages(|items|);
    PagesArePrefix(items, n);
    if n * PostCnt <= |items| {
      assert n * PostCnt == |items|;
    }
  }

  /** Every item of the listing is on exactly the page its position says. */
  lemma ItemOnItsPage<T>(items: seq<T>, i: nat)
    requires i < |items|
    ensures 1 <= i / PostCnt + 1 <= NumPages(|items|)
    ensures GetPage(items, Some(i / PostCnt + 1)).items[i % PostCnt] == items[i]
  {
    var k := i / PostCnt + 1;
    assert (k - 1) * PostCnt <= i;
    var n := NumPages(|items|);
    assert k <= n;
    var p := GetPage(items, Some(k));
    assert p.number == k;
    assert (k - 1) * PostCnt + i % PostCnt == i;
    assert i % PostCnt < |p.items|;
  }

  /** Thirteen items: ten on page one, three on page two, and page 3 clamps to 2. */
  lemma ThirteenItems<T>(items: seq<T>)
    requires |items| == 13
    ensures NumPages(|items|) == 2
    ensures |GetPage(items, None).items| == 10
    ensures |GetPage(items, Some(2)).items| == 3
    ensures GetPage(items, Some(3)) == GetPage(items, Some(2))
    ensures GetPage(items, Some(0)).number == 2
  {
  }
}
