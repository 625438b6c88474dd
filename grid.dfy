/**
 * The stories grid: its own page state over the filtered stories it is given, 50 per page,
 * reset to page 1 whenever the list changes, a guarded page change, and card keys built from
 * the timestamp and the story's index in the whole list.
 */
module StoriesGrid {
  import opened Records
  import opened Pagination

  const ItemsPerPage: nat := 50

  /** `` `${story.timestamp}-${startIndex + index}` ``, kept as its two parts. */
  datatype CardKey = CardKey(timestamp: int, index: int)

  /** The keys of the cards on `page`. */
  function CardKeys(stories: seq<Story>, page: int): (r: seq<CardKey>)
    ensures |r| == |PageItems(stories, page, ItemsPerPage)|
  {
    var shown := PageItems(stories, page, ItemsPerPage);
    seq(|shown|, i requires 0 <= i < |shown| => CardKey(shown[i].timestamp, PageStart(page, ItemsPerPage) + i))
  }

  /**
   * Each card's key carries the index of its story in the whole list, so the keys on a page
   * are distinct even when timestamps repeat.
   */
  lemma CardKeysGlobal(stories: seq<Story>, page: int)
    requires page >= 1
    ensures forall i :: 0 <= i < |CardKeys(stories, page)| ==>
      0 <= CardKeys(stories, page)[i].index < |stories| &&
      stories[CardKeys(stories, page)[i].index] == PageItems(stories, page, ItemsPerPage)[i] &&
      CardKeys(stories, page)[i].timestamp == stories[CardKeys(stories, page)[i].index].timestamp
    ensures forall i, j :: 0 <= i < j < |CardKeys(stories, page)| ==>
      CardKeys(stories, page)[i] != CardKeys(stories, page)[j]
  {
    var keys := CardKeys(stories, page);
    forall i | 0 <= i < |keys|
      ensures 0 <= keys[i].index < |stories| && stories[keys[i].index] == PageItems(stories, page, ItemsPerPage)[i]
    {
      PageItemsAt(stories, page, ItemsPerPage, i);
    }
  }

  class Grid {
    var stories: seq<Story>
    var currentPage: int

    ghost predicate Valid()
      reads this
    {
      currentPage >= 1
    }

    constructor(stories: seq<Story>)
      ensures Valid()
      ensures this.stories == stories && currentPage == 1
    {
      this.stories := stories;
      currentPage := 1;
    }

    /** The stories on the current page. */
    function CurrentStories(): seq<Story>
      reads this
    {
      PageItems(stories, currentPage, ItemsPerPage)
    }

    /** A new `stories` list: the effect on `[stories]` sends the grid back to page 1. */
    method SetStories(s: seq<Story>)
      modifies this
      ensures Valid()
      ensures stories == s && currentPage == 1
      ensures s != [] ==> CurrentStories() == PageItems(s, 1, ItemsPerPage) && CurrentStories() != []
    {
      stories := s;
      currentPage := 1;
      PageItemsRange(s, 1, ItemsPerPage);
    }

    /** `handlePageChange`: out-of-range pages are ignored. */
    method HandlePageChange(newPage: int)
      requires Valid()
      modifies this
      ensures Valid()
      ensures stories == old(stories)
      ensures ValidPage(newPage, TotalPages(|stories|, ItemsPerPage)) ==>
        currentPage == newPage && CurrentStories() != []
      ensures !ValidPage(newPage, TotalPages(|stories|, ItemsPerPage)) ==> currentPage == old(currentPage)
    {
      if 1 <= newPage <= TotalPages(|stories|, ItemsPerPage) {
        currentPage := newPage;
        PageItemsRange(stories, currentPage, ItemsPerPage);
      }
    }
  }
}
