/**
 * The posts timeline: 20 posts per page, a page change guarded by `[1, totalPages]`, and the
 * posts of the current page grouped by calendar day, the groups in the order their day first
 * appears and each group in page order (the `reduce` that pushes into an object keyed by
 * `toDateString()`, read back with `Object.entries`).
 */
module PostsTimeline {
  import opened Seqs
  import opened Records
  import opened Dates
  import opened Pagination

  const ItemsPerPage: nat := 20

  /** The day key of a post: `new Date(post.timestamp * 1000).toDateString()`. */
  function DayOf(cal: Calendar, p: Post): int {
    cal.day(p.timestamp * 1000)
  }

  /** The day keys of `page`, each once, in the order they first appear. */
  function Days(page: seq<Post>, cal: Calendar): seq<int> {
    if page == [] then [] else Add(Days(page[..|page| - 1], cal), DayOf(cal, page[|page| - 1]))
  }

  /** The posts of `page` on day `k`, in page order. */
  function SameDay(page: seq<Post>, cal: Calendar, k: int): seq<Post> {
    if page == [] then []
    else
      SameDay(page[..|page| - 1], cal, k) +
      (if DayOf(cal, page[|page| - 1]) == k then [page[|page| - 1]] else [])
  }

  /** The groups of `keys`, one after the other: what the rendered timeline lists. */
  function Grouped(page: seq<Post>, cal: Calendar, keys: seq<int>): seq<Post> {
    if keys == [] then [] else Grouped(page, cal, keys[..|keys| - 1]) + SameDay(page, cal, keys[|keys| - 1])
  }

  /** `groupedPosts` and the order of `Object.entries(groupedPosts)`. */
  method GroupByDay(page: seq<Post>, cal: Calendar) returns (keys: seq<int>, groups: map<int, seq<Post>>)
    ensures keys == Days(page, cal)
    ensures forall k :: k in groups <==> k in keys
    ensures forall k :: k in groups ==> groups[k] == SameDay(page, cal, k)
  {
    keys := [];
    groups := map[];
    var i := 0;
    while i < |page|
      invariant 0 <= i <= |page|
      invariant keys == Days(page[..i], cal)
      invariant forall k :: k in groups <==> k in keys
      invariant forall k :: k in groups ==> groups[k] == SameDay(page[..i], cal, k)
    {
      var post := page[i];
      var key := DayOf(cal, post);
      assert page[..i + 1][..i] == page[..i];
      assert forall k :: (SameDay(page[..i + 1], cal, k) ==
        SameDay(page[..i], cal, k) + (if key == k then [post] else []));
      if key !in groups {
        NewDayEmpty(page[..i], cal, key);
        groups := groups[key := []];
        keys := keys + [key];
      }
      groups := groups[key := groups[key] + [post]];
      i := i + 1;
    }
    assert page[..i] == page;
  }

  /** Every day of the page is a key, every key is the day of some post, and no key repeats. */
  lemma {:induction false} DaysMembers(page: seq<Post>, cal: Calendar)
    ensures NoDups(Days(page, cal))
    ensures forall k :: k in Days(page, cal) <==> exists i :: 0 <= i < |page| && DayOf(cal, page[i]) == k
  {
    if page != [] {
      var init := page[..|page| - 1];
      DaysMembers(init, cal);
      assert forall i :: 0 <= i < |init| ==> init[i] == page[i];
    }
  }

  /** A day that is not yet a key has an empty group. */
  lemma {:induction false} NewDayEmpty(page: seq<Post>, cal: Calendar, k: int)
    requires k !in Days(page, cal)
    ensures SameDay(page, cal, k) == []
  {
    if page != [] {
      NewDayEmpty(page[..|page| - 1], cal, k);
    }
  }

  /** A group holds the posts of the page on its day and no others. */
  lemma {:induction false} SameDayMembers(page: seq<Post>, cal: Calendar, k: int)
    ensures forall p :: p in SameDay(page, cal, k) <==> p in page && DayOf(cal, p) == k
  {
    if page != [] {
      var init := page[..|page| - 1];
      SameDayMembers(init, cal, k);
      assert page == init + [page[|page| - 1]];
    }
  }

  /** A group is the page filtered by its day, so it keeps page order. */
  lemma {:induction false} SameDayIsFilter(page: seq<Post>, cal: Calendar, k: int)
    ensures SameDay(page, cal, k) == Filter(page, p => DayOf(cal, p) == k)
    ensures IsSubseq(SameDay(page, cal, k), page)
  {
    if page != [] {
      var init := page[..|page| - 1];
      var last := page[|page| - 1];
      SameDayIsFilter(init, cal, k);
      assert page == init + [last];
      FilterAppend(init, [last], p => DayOf(cal, p) == k);
    }
    FilterIsSubseq(page, p => DayOf(cal, p) == k);
  }

  /** Appending `x` to the page extends the group of its day by `x` and leaves every other group as it is. */
  lemma SameDayAppend(page: seq<Post>, cal: Calendar, k: int, x: Post)
    ensures SameDay(page + [x], cal, k) == SameDay(page, cal, k) + (if DayOf(cal, x) == k then [x] else [])
  {
    assert (page + [x])[..|page + [x]| - 1] == page;
  }

  /** The multiset bookkeeping of one step: both halves grow by their share. */
  lemma MultisetJoin<T>(a: seq<T>, b: seq<T>, a': seq<T>, b': seq<T>, ea: multiset<T>, eb: multiset<T>)
    requires multiset(a') == multiset(a) + ea && multiset(b') == multiset(b) + eb
    ensures multiset(a' + b') == multiset(a + b) + (ea + eb)
  {
  }

  /** The groups of `keys` are those of all keys but the last, then the last key's group. */
  lemma GroupedLast(page: seq<Post>, cal: Calendar, keys: seq<int>)
    requires keys != []
    ensures Grouped(page, cal, keys) == Grouped(page, cal, keys[..|keys| - 1]) + SameDay(page, cal, keys[|keys| - 1])
  {
  }

  /** With distinct keys, a day is either among the earlier keys or the last one, never both. */
  lemma ShareSplit<T>(x: T, d: int, keys: seq<int>)
    requires NoDups(keys) && keys != []
    ensures (if d in keys[..|keys| - 1] then multiset{x} else multiset{}) +
            (if d == keys[|keys| - 1] then multiset{x} else multiset{}) ==
            if d in keys then multiset{x} else multiset{}
  {
    NoDupsInit(keys);
    assert keys == keys[..|keys| - 1] + [keys[|keys| - 1]];
  }

  /**
   * Appending a post `x` to the page adds `x` once to the concatenated groups of distinct
   * keys when its day is one of them, and nothing otherwise.
   */
  lemma {:induction false} GroupedStep(page: seq<Post>, cal: Calendar, keys: seq<int>, x: Post)
    requires NoDups(keys)
    ensures multiset(Grouped(page + [x], cal, keys)) ==
      multiset(Grouped(page, cal, keys)) + (if DayOf(cal, x) in keys then multiset{x} else multiset{})
  {
    if keys != [] {
      var init := keys[..|keys| - 1];
      var k := keys[|keys| - 1];
      var d := DayOf(cal, x);
      NoDupsInit(keys);
      GroupedStep(page, cal, init, x);
      SameDayAppend(page, cal, k, x);
      MultisetJoin(Grouped(page, cal, init), SameDay(page, cal, k),
                   Grouped(page + [x], cal, init), SameDay(page + [x], cal, k),
                   if d in init then multiset{x} else multiset{}, if d == k then multiset{x} else multiset{});
      GroupedLast(page + [x], cal, keys);
      GroupedLast(page, cal, keys);
      ShareSplit(x, d, keys);
    }
  }

  /**
   * Every post of the page lands in exactly one group: the groups, read in key order, are a
   * permutation of the page.
   */
  lemma {:induction false} EveryPostOnce(page: seq<Post>, cal: Calendar)
    ensures multiset(Grouped(page, cal, Days(page, cal))) == multiset(page)
  {
    if page != [] {
      var init := page[..|page| - 1];
      var x := page[|page| - 1];
      var keys := Days(init, cal);
      assert page == init + [x];
      EveryPostOnce(init, cal);
      DaysMembers(init, cal);
      GroupedStep(init, cal, keys, x);
      assert multiset(page) == multiset(init) + multiset{x};
      if DayOf(cal, x) in keys {
        assert Days(page, cal) == keys;
      } else {
        NewDayGroup(init, cal, x);
        assert multiset(Grouped(page, cal, Days(page, cal))) ==
          multiset(Grouped(page, cal, keys)) + multiset{x};
      }
    }
  }

  /** A post whose day is new opens a last group of its own. */
  lemma NewDayGroup(init: seq<Post>, cal: Calendar, x: Post)
    requires DayOf(cal, x) !in Days(init, cal)
    ensures Grouped(init + [x], cal, Days(init + [x], cal)) ==
      Grouped(init + [x], cal, Days(init, cal)) + [x]
  {
    var page := init + [x];
    var keys := Days(init, cal);
    var d := DayOf(cal, x);
    assert page[..|page| - 1] == init;
    NewDayEmpty(init, cal, d);
    assert SameDay(page, cal, d) == [x];
    assert Days(page, cal) == keys + [d];
    assert (keys + [d])[..|keys + [d]| - 1] == keys;
  }

  /**
   * The timeline's view of the pagination state. `posts` is the filtered list it is given;
   * `currentPage` is the page state it shares with its parent, which starts at 1.
   */
  class Timeline {
    var posts: seq<Post>
    var currentPage: int

    ghost predicate Valid()
      reads this
    {
      currentPage >= 1
    }

    constructor(posts: seq<Post>)
      ensures Valid()
      ensures this.posts == posts && currentPage == 1
    {
      this.posts := posts;
      currentPage := 1;
    }

    /** `Math.ceil(posts.length / itemsPerPage)`. */
    function TotalPagesNow(): nat
      reads this
    {
      TotalPages(|posts|, ItemsPerPage)
    }

    /** The posts on the current page. */
    function CurrentPosts(): seq<Post>
      reads this
    {
      PageItems(posts, currentPage, ItemsPerPage)
    }

    /** `handlePageChange`: an out-of-range page is ignored; an accepted one shows posts. */
    method HandlePageChange(newPage: int)
      requires Valid()
      modifies this
      ensures Valid()
      ensures posts == old(posts)
      ensures ValidPage(newPage, TotalPagesNow()) ==> currentPage == newPage && CurrentPosts() != []
      ensures !ValidPage(newPage, TotalPagesNow()) ==> currentPage == old(currentPage)
    {
      if 1 <= newPage <= TotalPages(|posts|, ItemsPerPage) {
        currentPage := newPage;
        PageItemsRange(posts, currentPage, ItemsPerPage);
      }
    }

    /** The day groups of the current page. */
    method GroupedPosts(cal: Calendar) returns (keys: seq<int>, groups: map<int, seq<Post>>)
      ensures keys == Days(CurrentPosts(), cal)
      ensures forall k :: k in groups <==> k in keys
      ensures forall k :: k in groups ==> groups[k] == SameDay(CurrentPosts(), cal, k)
    {
      keys, groups := GroupByDay(PageItems(posts, currentPage, ItemsPerPage), cal);
    }
  }
}
