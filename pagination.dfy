/** The paged list view shared by both interfaces (src/interfaces.py,
    `_show_books_with_pagination`): page arithmetic, the window of records shown,
    the navigation keys and the view's loop over the keys it reads. */
module Pagination {
  import opened Books

  /** `total_pages = (N - 1) // 5 + 1`, for the view's fixed page size of 5 records. Dafny's `/` rounds down for a positive divisor,
      as Python's `//` does, so an empty list has 0 pages and any other list
      ceil(N / 5) pages. */
  function TotalPages(n: nat): (t: int)
    ensures n == 0 ==> t == 0
    ensures n > 0 ==> t >= 1 && (t - 1) * 5 < n <= t * 5
  {
    (n - 1) / 5 + 1
  }

  /** The page number the header prints: `current_page + bool(N)`. On a page the view
      can be on, the header "page k of T" has 1 <= k <= T for a non-empty list and reads
      "0 of 0" for an empty one. */
  function DisplayedPage(page: int, n: nat): (r: int)
    ensures InRange(page, n) && n > 0 ==> 1 <= r <= TotalPages(n)
    ensures InRange(page, n) && n == 0 ==> r == 0 && TotalPages(n) == 0
  {
    page + (if n > 0 then 1 else 0)
  }

  /** The page positions the view can be on: page 0, and any page of a non-empty list. */
  predicate InRange(page: int, n: nat) {
    0 <= page && (page == 0 || page < TotalPages(n))
  }

  /** The records shown on a page: `books[start:end]` with `start = page * 5` and
      `end = min(start + 5, N)`; Python's slice is empty when `start` is past `end`. */
  function Window(books: seq<Book>, page: int): (r: seq<Book>)
    requires page >= 0
    ensures |r| <= 5
    ensures forall k :: 0 <= k < |r| ==> page * 5 + k < |books| && r[k] == books[page * 5 + k]
    ensures page * 5 < |books| ==> |r| == if |books| - page * 5 < 5 then |books| - page * 5 else 5
    ensures page * 5 >= |books| ==> r == []
  {
    var start := page * 5;
    var end := if start + 5 < |books| then start + 5 else |books|;
    if start <= end then books[start..end] else []
  }

  /** The pages that hold records are exactly the pages 0 .. T-1. */
  lemma WindowNonEmpty(books: seq<Book>, page: int)
    requires page >= 0
    ensures Window(books, page) != [] <==> page < TotalPages(|books|)
  {
  }

  /** The windows of the pages from `page` to the last one, one after another. */
  function WindowsFrom(books: seq<Book>, page: nat): seq<Book>
    decreases |books| - page * 5
  {
    if page * 5 >= |books| then [] else Window(books, page) + WindowsFrom(books, page + 1)
  }

  /** Paging from `page` on shows every record from position `page * 5` on, each once and in order. */
  lemma {:induction false} WindowsFromCover(books: seq<Book>, page: nat)
    requires page * 5 <= |books|
    ensures WindowsFrom(books, page) == books[page * 5..]
    decreases |books| - page * 5
  {
    if page * 5 < |books| {
      if (page + 1) * 5 <= |books| {
        WindowsFromCover(books, page + 1);
        assert Window(books, page) == books[page * 5 .. page * 5 + 5];
        assert books[page * 5..] == books[page * 5 .. page * 5 + 5] + books[(page + 1) * 5..];
      } else {
        assert WindowsFrom(books, page + 1) == [];
        assert Window(books, page) == books[page * 5..];
      }
    }
  }

  /** The pages of the view show every record exactly once, in list order. */
  lemma PagesCoverList(books: seq<Book>)
    ensures WindowsFrom(books, 0) == books
  {
    WindowsFromCover(books, 0);
  }

  /** What one key press does to the view. */
  datatype Step = Stay(page: int) | Leave

  /** The key dispatch: "1" advances unless on the last page, "2" goes back unless on
      the first, "3" leaves, and anything else (or a blocked move) stays put. */
  function Navigate(page: int, total: int, key: string): (r: Step)
    ensures r.Leave? <==> key == "3"
    ensures r.Stay? ==> page - 1 <= r.page <= page + 1
    ensures r.Stay? && r.page == page + 1 ==> key == "1" && page < total - 1
    ensures r.Stay? && r.page == page - 1 ==> key == "2" && page > 0
    ensures key == "1" && page < total - 1 ==> r == Stay(page + 1)
    ensures key == "2" && page > 0 ==> r == Stay(page - 1)
  {
    if key == "1" && page < total - 1 then Stay(page + 1)
    else if key == "2" && page > 0 then Stay(page - 1)
    else if key == "3" then Leave
    else Stay(page)
  }

  /** Navigation never leaves the range of pages: the loop's invariant. */
  lemma NavigateKeepsRange(page: int, n: nat, key: string)
    requires InRange(page, n)
    ensures Navigate(page, TotalPages(n), key).Stay? ==> InRange(Navigate(page, TotalPages(n), key).page, n)
  {
  }

  /** One screen of the view: the current page, the header numbers and the rows shown. */
  datatype Screen = Screen(page: int, shown: int, total: int, rows: seq<Book>)

  function ScreenAt(books: seq<Book>, page: int): Screen
    requires page >= 0
  {
    Screen(page, DisplayedPage(page, |books|), TotalPages(|books|), Window(books, page))
  }

  /** The page the view is on after reading the first `i` keys, none of them "3"
      (key "3" ends the view, so no page follows it). */
  function PageAfter(n: nat, keys: seq<string>, i: nat): (p: int)
    requires i <= |keys|
    ensures InRange(p, n)
  {
    if i == 0 then 0
    else
      var prev := PageAfter(n, keys, i - 1);
      NavigateKeepsRange(prev, n, keys[i - 1]);
      match Navigate(prev, TotalPages(n), keys[i - 1])
      case Leave => prev
      case Stay(q) => q
  }

  /** The view starts on page 0 and each key moves it by at most one page. */
  lemma PageAfterSteps(n: nat, keys: seq<string>, i: nat)
    requires i < |keys|
    ensures PageAfter(n, keys, 0) == 0
    ensures PageAfter(n, keys, i) - 1 <= PageAfter(n, keys, i + 1) <= PageAfter(n, keys, i) + 1
  {
  }

  /** What the view shows for a list and the keys read: one screen per page visited,
      starting on page 0 and moving as the keys say, until the first key "3" (after
      which no key is read) or until the keys run out (`exited` is false then). */
  predicate IsView(books: seq<Book>, keys: seq<string>, screens: seq<Screen>, exited: bool) {
    && (exited <==> exists j :: 0 <= j < |keys| && keys[j] == "3")
    && (!exited ==> |screens| == |keys| + 1)
    && (exited ==> 1 <= |screens| <= |keys| && keys[|screens| - 1] == "3")
    && (forall j :: 0 <= j < |screens| - 1 && j < |keys| ==> keys[j] != "3")
    && (forall j {:trigger screens[j]} :: 0 <= j < |screens| ==>
          screens[j] == ScreenAt(books, PageAfter(|books|, keys, j)))
  }

  /** `_show_books_with_pagination`: draws a screen, reads a key and moves, until key "3". */
  method ShowBooksWithPagination(books: seq<Book>, keys: seq<string>)
    returns (screens: seq<Screen>, exited: bool)
    ensures IsView(books, keys, screens, exited)
    ensures forall j :: 0 <= j < |screens| ==> InRange(screens[j].page, |books|)
  {
    var n := |books|;
    var total := (n - 1) / 5 + 1;
    var page := 0;
    var i := 0;
    screens := [];
    while true
      invariant 0 <= i <= |keys|
      invariant page == PageAfter(n, keys, i)
      invariant |screens| == i
      invariant forall j {:trigger screens[j]} :: 0 <= j < i ==> screens[j] == ScreenAt(books, PageAfter(n, keys, j))
      invariant forall j :: 0 <= j < i ==> keys[j] != "3"
      decreases |keys| - i
    {
      screens := screens + [Screen(page, page + (if n > 0 then 1 else 0), total, Window(books, page))];
      if i == |keys| {
        exited := false;
        break;
      }
      var key := keys[i];
      i := i + 1;
      match Navigate(page, total, key)
      case Leave =>
        exited := true;
        break;
      case Stay(next) =>
        page := next;
    }
  }
}
