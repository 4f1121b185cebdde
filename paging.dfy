/** The page arithmetic of `Phonebook.pagination` and the page navigation of
    `Phonebook.show_all_records`, as functions of the page state. */
module Paging {
  import opened Text

  /** `items_on_page`. */
  const ItemsOnPage: nat := 9

  function Min(a: int, b: int): int { if a <= b then a else b }
  function Max(a: int, b: int): int { if a <= b then b else a }

  /** Index of the first item on `page` (pages count from 1). */
  function PageStart(page: int): int {
    (page - 1) * ItemsOnPage
  }

  /** `data[start_index:end_index]`: the contiguous run of at most nine items
      starting at the first item of `page`, empty when the page lies past the
      end of the data. */
  function PageSlice<T>(data: seq<T>, page: int): (r: seq<T>)
    requires page >= 1
    ensures |r| == if PageStart(page) >= |data| then 0
                   else Min(ItemsOnPage, |data| - PageStart(page))
    ensures forall i :: 0 <= i < |r| ==> r[i] == data[PageStart(page) + i]
  {
    var start := PageStart(page);
    if start >= |data| then []
    else data[start..Min(start + ItemsOnPage, |data|)]
  }

  /** `(len(data) - 1) // items_on_page + 1`: the number of pages `n` items
      fill, at least one. */
  function PageCount(n: nat): (r: nat)
    requires n >= 1
    ensures r >= 1
    ensures (r - 1) * ItemsOnPage < n <= r * ItemsOnPage
  {
    (n - 1) / ItemsOnPage + 1
  }

  /** The value of `pages` after `pagination` has seen `n` items: recomputed
      only when there is more than one page's worth, otherwise left as it was. */
  function PagesAfter(n: nat, pages: int): (r: int)
    ensures n > ItemsOnPage ==> r >= 2 && (r - 1) * ItemsOnPage < n <= r * ItemsOnPage
    ensures n <= ItemsOnPage ==> r == pages
  {
    if n > ItemsOnPage then PageCount(n) else pages
  }

  /** The pages `1..k`, one after another. */
  function FirstPages<T>(data: seq<T>, k: nat): seq<T> {
    if k == 0 then [] else FirstPages(data, k - 1) + PageSlice(data, k)
  }

  /** The first `k` pages are exactly the first `9 * k` items (or all of them). */
  lemma {:induction false} FirstPagesArePrefix<T>(data: seq<T>, k: nat)
    ensures FirstPages(data, k) == data[..Min(k * ItemsOnPage, |data|)]
  {
    if k > 0 {
      FirstPagesArePrefix(data, k - 1);
      assert k * ItemsOnPage == (k - 1) * ItemsOnPage + ItemsOnPage;
      var before := Min((k - 1) * ItemsOnPage, |data|);
      var after := Min(k * ItemsOnPage, |data|);
      var page := PageSlice(data, k);
      assert page == data[before..after];
      assert data[..before] + data[before..after] == data[..after];
    }
  }

  /** Paging loses and repeats nothing: the pages up to the page count, read
      in order, give back the whole data, and every later page is empty. */
  lemma PagesPartitionData<T>(data: seq<T>)
    requires |data| >= 1
    ensures FirstPages(data, PageCount(|data|)) == data
    ensures forall page :: page > PageCount(|data|) ==> PageSlice(data, page) == []
  {
    FirstPagesArePrefix(data, PageCount(|data|));
    assert data[..|data|] == data;
  }

  /** 20 items make 3 pages: the third holds the last two items and the
      fourth is empty. */
  lemma PagingExample<T>(data: seq<T>)
    requires |data| == 20
    ensures PageCount(|data|) == 3
    ensures PageSlice(data, 3) == data[18..]
    ensures PageSlice(data, 4) == []
  {
  }

  /** The page navigation keys. */
  predicate IsBackKey(input: string) { input == "<" || input == "p" }
  predicate IsForwardKey(input: string) { input == ">" || input == "n" }

  /** The new value of `page` after one input of the navigation loop: back
      only from a page above 1, forward only below `pages`. The page stays
      within `1..max(1, pages)` once it is there. */
  function NextPage(page: int, pages: int, input: string): (r: int)
    ensures r < page <==> IsBackKey(input) && page > 1
    ensures r > page <==> IsForwardKey(input) && page < pages
    ensures page - 1 <= r <= page + 1
    ensures 1 <= page <= Max(1, pages) ==> 1 <= r <= Max(1, pages)
  {
    if IsBackKey(input) && page > 1 then page - 1
    else if IsForwardKey(input) && page < pages then page + 1
    else page
  }

  /** The value of `page` after a run of navigation inputs. */
  function PageAfterInputs(page: int, pages: int, inputs: seq<string>): int
    decreases |inputs|
  {
    if inputs == [] then page
    else PageAfterInputs(NextPage(page, pages, inputs[0]), pages, inputs[1..])
  }

  /** Each input moves the page by at most one. */
  lemma {:induction false} PageAfterInputsMoves(page: int, pages: int, inputs: seq<string>)
    ensures page - |inputs| <= PageAfterInputs(page, pages, inputs) <= page + |inputs|
    decreases |inputs|
  {
    if inputs != [] {
      PageAfterInputsMoves(NextPage(page, pages, inputs[0]), pages, inputs[1..]);
    }
  }

  /** Any run of inputs keeps the page within `1..max(1, pages)`. */
  lemma {:induction false} PageAfterInputsBounds(page: int, pages: int, inputs: seq<string>)
    requires 1 <= page <= Max(1, pages)
    ensures 1 <= PageAfterInputs(page, pages, inputs) <= Max(1, pages)
    decreases |inputs|
  {
    if inputs != [] {
      PageAfterInputsBounds(NextPage(page, pages, inputs[0]), pages, inputs[1..]);
    }
  }

  /** A page is never lowered below 1 by any run of inputs, whatever `pages`
      is. */
  lemma {:induction false} PageAfterInputsPositive(page: int, pages: int, inputs: seq<string>)
    requires page >= 1
    ensures PageAfterInputs(page, pages, inputs) >= 1
    decreases |inputs|
  {
    if inputs != [] {
      PageAfterInputsPositive(NextPage(page, pages, inputs[0]), pages, inputs[1..]);
    }
  }

  /** What one input does to the navigation loop: `q` leaves it, a numeral
      chooses a record and leaves it, anything else (the page keys included)
      redraws the page. */
  datatype Navigation = Leave | Redraw | Choose(record: nat)

  function NavigationOf(input: string): (r: Navigation)
    ensures r.Leave? <==> input == "q"
    ensures r.Choose? <==> IsNumeral(input)
    ensures IsBackKey(input) || IsForwardKey(input) ==> r.Redraw?
    ensures r.Choose? ==> r.record == ParseNat(input)
  {
    if input == "q" then
      assert !IsDigit(input[0]);
      Leave
    else if IsNumeral(input) then Choose(ParseNat(input))
    else Redraw
  }
}
