/**
 * The media carousel of the post detail view: an index into `allMedia` moved by the previous
 * and next buttons (wrapping around at both ends) and by the thumbnails, and a flag for the
 * enlarged-media modal.
 */
module PostDetail {
  import opened Wrappers
  import opened PostInfo
  import opened PostView

  /** `prev < allMedia.length - 1 ? prev + 1 : 0`. */
  function NextIndex(i: int, n: nat): (r: int)
    ensures 0 <= i < n ==> 0 <= r < n
    ensures 0 <= i < n - 1 ==> r == i + 1
    ensures i == n - 1 ==> r == 0
  {
    if i < n - 1 then i + 1 else 0
  }

  /** `prev > 0 ? prev - 1 : allMedia.length - 1`. */
  function PrevIndex(i: int, n: nat): (r: int)
    ensures 0 <= i < n ==> 0 <= r < n
    ensures 0 < i ==> r == i - 1
    ensures i == 0 ==> r == n - 1
  {
    if i > 0 then i - 1 else n - 1
  }

  /** Next then previous, or previous then next, comes back to the same media. */
  lemma NextPrevInverse(i: int, n: nat)
    requires 0 <= i < n
    ensures PrevIndex(NextIndex(i, n), n) == i
    ensures NextIndex(PrevIndex(i, n), n) == i
  {
  }

  /** `k` presses of next. */
  function NextTimes(i: int, n: nat, k: nat): int {
    if k == 0 then i else NextIndex(NextTimes(i, n, k - 1), n)
  }

  /** Pressing next `k` times without reaching the end moves `k` places forward. */
  lemma {:induction false} NextTimesForward(i: int, n: nat, k: nat)
    requires 0 <= i && i + k < n
    ensures NextTimes(i, n, k) == i + k
  {
    if k > 0 {
      NextTimesForward(i, n, k - 1);
    }
  }

  /** `a` presses and then `b` more are `a + b` presses. */
  lemma {:induction false} NextTimesAdd(i: int, n: nat, a: nat, b: nat)
    ensures NextTimes(i, n, a + b) == NextTimes(NextTimes(i, n, a), n, b)
  {
    if b > 0 {
      NextTimesAdd(i, n, a, b - 1);
    }
  }

  /** After as many presses of next as there are media, the carousel is back where it started. */
  lemma NextFullCircle(i: int, n: nat)
    requires 0 <= i < n
    ensures NextTimes(i, n, n) == i
  {
    NextTimesForward(i, n, n - 1 - i);
    NextTimesAdd(i, n, n - 1 - i, 1);
    assert NextTimes(i, n, n - i) == 0;
    NextTimesAdd(i, n, n - i, i);
    NextTimesForward(0, n, i);
  }

  /** A press on the carousel: the previous or next arrow, or a thumbnail. */
  datatype Press = PressPrev | PressNext | PressThumb(idx: int)

  /** The thumbnails are drawn from `allMedia.map((media, idx) => …)`, so they carry valid indices. */
  predicate ValidPress(p: Press, n: nat) {
    p.PressThumb? ==> 0 <= p.idx < n
  }

  function After(i: int, n: nat, p: Press): int {
    match p
    case PressPrev => PrevIndex(i, n)
    case PressNext => NextIndex(i, n)
    case PressThumb(idx) => idx
  }

  function Run(i: int, n: nat, presses: seq<Press>): int
    decreases |presses|
  {
    if presses == [] then i else Run(After(i, n, presses[0]), n, presses[1..])
  }

  /**
   * From any valid index, in particular from the initial 0 when there is media, any sequence
   * of presses keeps the index inside `[0, allMedia.length)`, so `currentMedia` is always defined.
   */
  lemma {:induction false} RunInRange(i: int, n: nat, presses: seq<Press>)
    requires 0 <= i < n
    requires forall k :: 0 <= k < |presses| ==> ValidPress(presses[k], n)
    ensures 0 <= Run(i, n, presses) < n
    decreases |presses|
  {
    if presses != [] {
      assert ValidPress(presses[0], n);
      assert forall k :: 0 <= k < |presses[1..]| ==> presses[1..][k] == presses[k + 1];
      RunInRange(After(i, n, presses[0]), n, presses[1..]);
    }
  }

  /** The detail view's carousel state for one post. */
  class Carousel {
    /** The media it cycles through: `allMedia`. */
    const media: seq<MediaEntry>
    var currentMediaIndex: int
    var showMediaModal: bool

    ghost predicate Valid()
      reads this
    {
      && (media != [] ==> 0 <= currentMediaIndex < |media|)
      && (forall m :: m in media ==> IsVisual(m))
    }

    constructor(info: Info)
      ensures Valid()
      ensures media == AllMedia(info) && currentMediaIndex == 0 && !showMediaModal
    {
      media := AllMedia(info);
      AllMediaProps(info);
      currentMediaIndex := 0;
      showMediaModal := false;
    }

    /** `currentMedia = allMedia[currentMediaIndex]`; `None` only when there is no media. */
    function CurrentMedia(): (r: Option<MediaEntry>)
      requires Valid()
      reads this
      ensures r.None? <==> media == []
      ensures r.Some? ==> r.value in media && IsVisual(r.value)
    {
      if media == [] then None else Some(media[currentMediaIndex])
    }

    /** The counter `currentMediaIndex + 1 / allMedia.length`. */
    function Counter(): (r: (int, int))
      requires Valid()
      requires media != []
      reads this
      ensures 1 <= r.0 <= r.1 && r.1 == |media|
    {
      (currentMediaIndex + 1, |media|)
    }

    /** `handleNextMedia`. */
    method Next()
      requires Valid()
      modifies this
      ensures Valid()
      ensures currentMediaIndex == NextIndex(old(currentMediaIndex), |media|)
      ensures showMediaModal == old(showMediaModal)
    {
      currentMediaIndex := if currentMediaIndex < |media| - 1 then currentMediaIndex + 1 else 0;
    }

    /** `handlePrevMedia`. */
    method Prev()
      requires Valid()
      modifies this
      ensures Valid()
      ensures currentMediaIndex == PrevIndex(old(currentMediaIndex), |media|)
      ensures showMediaModal == old(showMediaModal)
    {
      currentMediaIndex := if currentMediaIndex > 0 then currentMediaIndex - 1 else |media| - 1;
    }

    /** A thumbnail click: `setCurrentMediaIndex(idx)`. */
    method Select(idx: int)
      requires Valid() && 0 <= idx < |media|
      modifies this
      ensures Valid()
      ensures currentMediaIndex == idx && showMediaModal == old(showMediaModal)
    {
      currentMediaIndex := idx;
    }

    /** `openMediaModal`. */
    method Open()
      requires Valid()
      modifies this
      ensures Valid()
      ensures showMediaModal && currentMediaIndex == old(currentMediaIndex)
    {
      showMediaModal := true;
    }

    /** `closeMediaModal`. */
    method Close()
      requires Valid()
      modifies this
      ensures Valid()
      ensures !showMediaModal && currentMediaIndex == old(currentMediaIndex)
    {
      showMediaModal := false;
    }
  }
}
