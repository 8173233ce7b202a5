/** The playback cursor of widgets/cover_carousel.py (`CoverCarousel`): the
    list of tracks on show and the index of the current one, moved by the
    Next and Previous buttons and clamped when the list is replaced. The
    cover widgets, their sizes and the scroll animation are presentation and
    are not modelled. */
module Carousel {
  import opened Tracks

  /** The index `next` moves to: one on, unless already at the last track. */
  function NextIndex(curr: int, count: int): int
  {
    if curr < count - 1 then curr + 1 else curr
  }

  /** The index `previous` moves to: one back, unless already at the first
      track. */
  function PreviousIndex(curr: int): int
  {
    if curr > 0 then curr - 1 else curr
  }

  /** Next moves on exactly when the index is before the last position, and
      Previous moves back exactly when it is after the first; otherwise the
      index stays. */
  lemma MoveRules(curr: int, count: int)
    ensures NextIndex(curr, count) == curr + 1 <==> curr < count - 1
    ensures NextIndex(curr, count) == curr <==> curr >= count - 1
    ensures PreviousIndex(curr) == curr - 1 <==> curr > 0
    ensures PreviousIndex(curr) == curr <==> curr <= 0
  {
  }

  /** Both moves keep a valid index of a non-empty list valid. */
  lemma MovesStayInRange(curr: int, count: int)
    requires 0 <= curr < count
    ensures 0 <= NextIndex(curr, count) < count
    ensures 0 <= PreviousIndex(curr) < count
  {
  }

  /** Previous undoes Next away from the last track, and Next undoes
      Previous away from the first. */
  lemma MovesUndoEachOther(curr: int, count: int)
    requires 0 <= curr < count
    ensures curr < count - 1 ==> PreviousIndex(NextIndex(curr, count)) == curr
    ensures curr > 0 ==> NextIndex(PreviousIndex(curr), count) == curr
  {
  }

  /** The track highlighted beside the current one (line 153): the next
      one, or the current one again at the end of the list. It is the
      `min(curr + 1, len - 1)` rule of the notes key. */
  function FocusNext(curr: int, count: int): (n: int)
    ensures curr <= count - 1 ==> n == Min(curr + 1, count - 1)
    ensures 0 <= curr < count ==> 0 <= n < count && curr <= n <= curr + 1
  {
    if curr + 1 < count then curr + 1 else curr
  }

  class CoverCarousel {
    var items: seq<Track>
    var currentIndex: int

    /** The index is a position of the list, or -1 once the list has been
        replaced by an empty one. */
    ghost predicate Valid()
      reads this
    {
      -1 <= currentIndex <= |items| - 1
    }

    /** Lines 82-120. The initial focus looks up the widgets at index 0,
        which an empty list does not have. */
    constructor(items: seq<Track>)
      requires items != []
      ensures Valid()
      ensures this.items == items && currentIndex == 0
    {
      this.items := items;
      currentIndex := 0;
    }

    /** Lines 122-138: the new list, and the index clamped to its last
        position. A list that does not shrink keeps the index; an empty one
        sets it to -1. */
    method SetItems(newItems: seq<Track>)
      requires Valid()
      modifies this
      ensures Valid()
      ensures items == newItems
      ensures currentIndex == Min(old(currentIndex), |newItems| - 1)
      ensures |newItems| >= |old(items)| ==> currentIndex == old(currentIndex)
      ensures newItems == [] ==> currentIndex == -1
    {
      items := newItems;
      currentIndex := Min(currentIndex, |items| - 1);
    }

    /** Lines 140-143. */
    method Next()
      requires Valid()
      modifies this`currentIndex
      ensures Valid()
      ensures currentIndex == NextIndex(old(currentIndex), |items|)
      ensures old(currentIndex) >= 0 ==> currentIndex >= 0
    {
      if currentIndex < |items| - 1 {
        currentIndex := currentIndex + 1;
      }
    }

    /** Lines 145-148. */
    method Previous()
      requires Valid()
      modifies this`currentIndex
      ensures Valid()
      ensures currentIndex == PreviousIndex(old(currentIndex))
      ensures old(currentIndex) >= 0 ==> currentIndex >= 0
    {
      if currentIndex > 0 {
        currentIndex := currentIndex - 1;
      }
    }

    /** The pair of positions `update_focus` enlarges and centres: the
        current track and the one beside it. */
    function FocusPair(): (r: (int, int))
      reads this
      requires Valid() && items != [] && currentIndex >= 0
      ensures r.0 == currentIndex
      ensures 0 <= r.0 <= r.1 < |items| && r.1 <= r.0 + 1
    {
      (currentIndex, FocusNext(currentIndex, |items|))
    }
  }
}
