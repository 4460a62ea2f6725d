/**
 * The popup's bookmark search: the filtered, capped result list and the
 * keyboard-driven selection over it.
 */
module Popup {
  import opened Wrappers
  import opened Text
  import opened Types
  import opened Lists

  /** The most results the popup lists. */
  const MaxResults: nat := 50

  /** A bookmark whose lower-cased title or url includes the (already lower-cased) term. */
  predicate MatchesTerm(b: Bookmark, term: string) {
    Contains(ToLower(b.title), term) || Contains(ToLower(b.url), term)
  }

  /** `bookmarks.filter(b => title or url includes term)` */
  function MatchingBookmarks(bookmarks: seq<Bookmark>, term: string): (r: seq<Bookmark>)
    ensures forall b :: b in r <==> b in bookmarks && MatchesTerm(b, term)
    ensures |r| <= |bookmarks|
  {
    if bookmarks == [] then []
    else
      assert bookmarks == [bookmarks[0]] + bookmarks[1..];
      (if MatchesTerm(bookmarks[0], term) then [bookmarks[0]] else []) + MatchingBookmarks(bookmarks[1..], term)
  }

  /** The filter keeps the bookmarks' order: it works on each part of the list separately. */
  lemma {:induction false} MatchingAppend(a: seq<Bookmark>, b: seq<Bookmark>, term: string)
    ensures MatchingBookmarks(a + b, term) == MatchingBookmarks(a, term) + MatchingBookmarks(b, term)
  {
    if a == [] {
      assert a + b == b;
    } else {
      assert (a + b)[1..] == a[1..] + b;
      MatchingAppend(a[1..], b, term);
    }
  }

  /** The empty term matches every bookmark. */
  lemma {:induction false} MatchingEmptyTerm(bookmarks: seq<Bookmark>)
    ensures MatchingBookmarks(bookmarks, []) == bookmarks
  {
    if bookmarks != [] {
      ContainsEmpty(ToLower(bookmarks[0].title));
      MatchingEmptyTerm(bookmarks[1..]);
    }
  }

  /** `filteredBookmarks`: the first 50 bookmarks for an empty search, else the first 50 that match it. */
  function FilteredBookmarks(bookmarks: seq<Bookmark>, search: string): (r: seq<Bookmark>)
    ensures |r| <= MaxResults
    ensures forall b :: b in r ==> b in bookmarks
  {
    var term := ToLower(search);
    if term == [] then Take(bookmarks, MaxResults)
    else Take(MatchingBookmarks(bookmarks, term), MaxResults)
  }

  /**
   * The empty-search shortcut agrees with the filter: for every search the
   * result is the first 50 bookmarks whose title or url includes the
   * lower-cased search, in their original order.
   */
  lemma FilteredIsCappedMatch(bookmarks: seq<Bookmark>, search: string)
    ensures FilteredBookmarks(bookmarks, search) == Take(MatchingBookmarks(bookmarks, ToLower(search)), MaxResults)
  {
    if search == [] {
      MatchingEmptyTerm(bookmarks);
    }
  }

  /** An empty search lists the first min(50, n) bookmarks as they are. */
  lemma FilteredEmptySearch(bookmarks: seq<Bookmark>)
    ensures FilteredBookmarks(bookmarks, "") == bookmarks[..if |bookmarks| <= MaxResults then |bookmarks| else MaxResults]
  {
  }

  /**
   * Every listed bookmark matches the search, and when fewer than 50 are
   * listed every matching bookmark is among them.
   */
  lemma FilteredSoundAndComplete(bookmarks: seq<Bookmark>, search: string)
    ensures forall b :: b in FilteredBookmarks(bookmarks, search) ==> MatchesTerm(b, ToLower(search))
    ensures |FilteredBookmarks(bookmarks, search)| < MaxResults ==>
              forall b :: b in bookmarks && MatchesTerm(b, ToLower(search)) ==> b in FilteredBookmarks(bookmarks, search)
  {
    FilteredIsCappedMatch(bookmarks, search);
  }

  /** `prev => Math.min(prev + 1, count - 1)`: one row down, stopping at the last row. */
  function ArrowDownIndex(prev: int, count: nat): (r: int)
    ensures r <= count - 1 && r <= prev + 1
    ensures r == prev + 1 || r == count - 1
    ensures -1 <= prev < count && count > 0 ==> 0 <= r < count
    ensures -1 <= prev && count == 0 ==> r == -1
  {
    if prev + 1 < count - 1 then prev + 1 else count - 1
  }

  /** `prev => Math.max(prev - 1, 0)`: one row up, stopping at the first row. */
  function ArrowUpIndex(prev: int): (r: int)
    ensures r >= 0
    ensures r == prev - 1 || r == 0
    ensures prev <= r + 1
  {
    if prev - 1 > 0 then prev - 1 else 0
  }

  function Max(a: int, b: int): int {
    if a < b then b else a
  }

  /** The popup component's state: the loaded bookmarks, the search text and the selected row. */
  class PopupState {
    var bookmarks: seq<Bookmark>
    var search: string
    var selectedIndex: int
    var loading: bool

    /** The rows currently listed. */
    function Filtered(): seq<Bookmark>
      reads this
    {
      FilteredBookmarks(bookmarks, search)
    }

    /**
     * The selection is a listed row, or -1 after ArrowDown over an empty
     * list, or 0 over an empty list; nothing is loaded before loading ends.
     */
    ghost predicate Valid()
      reads this
    {
      && -1 <= selectedIndex <= Max(0, |Filtered()| - 1)
      && (loading ==> bookmarks == [])
    }

    /** The initial state of the `useState` hooks. */
    constructor ()
      ensures Valid()
      ensures bookmarks == [] && search == "" && selectedIndex == 0 && loading
    {
      bookmarks := [];
      search := "";
      selectedIndex := 0;
      loading := true;
    }

    /** The mount effect: `setBookmarks(data)` and `setLoading(false)`, once. */
    method LoadBookmarks(data: seq<Bookmark>)
      requires Valid() && loading
      modifies this
      ensures Valid()
      ensures bookmarks == data && !loading
      ensures search == old(search) && selectedIndex == old(selectedIndex)
    {
      bookmarks := data;
      loading := false;
    }

    /** `setSearch(value)`, then the effect on `[search]` puts the selection back on the first row. */
    method SetSearch(value: string)
      requires Valid()
      modifies this
      ensures Valid()
      ensures search == value && bookmarks == old(bookmarks) && loading == old(loading)
      ensures selectedIndex == if value != old(search) then 0 else old(selectedIndex)
    {
      if value != search {
        search := value;
        selectedIndex := 0;
      }
    }

    /**
     * `handleKeyDown`: ArrowDown and ArrowUp move the selection and stay on a
     * listed row; Enter returns the url to open when the selected row exists;
     * other keys do nothing.
     */
    method KeyDown(key: string) returns (toOpen: Option<string>)
      requires Valid()
      modifies this
      ensures Valid()
      ensures bookmarks == old(bookmarks) && search == old(search) && loading == old(loading)
      ensures key == "ArrowDown" ==> selectedIndex == ArrowDownIndex(old(selectedIndex), |Filtered()|)
      ensures key == "ArrowUp" ==> selectedIndex == ArrowUpIndex(old(selectedIndex))
      ensures key != "ArrowDown" && key != "ArrowUp" ==> selectedIndex == old(selectedIndex)
      ensures toOpen.Some? <==> key == "Enter" && 0 <= selectedIndex < |Filtered()|
      ensures toOpen.Some? ==> toOpen.value == Filtered()[selectedIndex].url
      ensures key == "Enter" && |Filtered()| > 0 && selectedIndex != -1 ==> toOpen.Some?
    {
      toOpen := None;
      var rows := FilteredBookmarks(bookmarks, search);
      if key == "ArrowDown" {
        selectedIndex := ArrowDownIndex(selectedIndex, |rows|);
      } else if key == "ArrowUp" {
        selectedIndex := ArrowUpIndex(selectedIndex);
      } else if key == "Enter" {
        if 0 <= selectedIndex < |rows| {
          toOpen := Some(rows[selectedIndex].url);
        }
      }
    }
  }
}
