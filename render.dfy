/** Which view `App` shows, which cards it renders and which card takes pointer input. */
module Render {
  import opened SwipeSession

  /** A card is rendered unless its index is above the current one. */
  predicate IsRendered(index: nat, currentIndex: int): (r: bool)
    ensures currentIndex < 0 ==> !r
    ensures r ==> forall j: nat :: j < index ==> IsRendered(j, currentIndex)
  {
    !(index > currentIndex)
  }

  /** Only the card at the current index receives pointer events. */
  predicate IsInteractive(index: nat, currentIndex: int): (r: bool)
    ensures r ==> IsRendered(index, currentIndex)
    ensures r ==> forall j: nat :: IsRendered(j, currentIndex) ==> j <= index
  {
    index == currentIndex
  }

  /** The indices, in mapping order, of the cards the main view renders out of `n`. */
  function RenderedCards(n: nat, currentIndex: int): (r: seq<nat>)
    ensures |r| == if currentIndex < 0 then 0 else if currentIndex < n then currentIndex + 1 else n
    ensures forall k :: 0 <= k < |r| ==> r[k] == k && IsRendered(r[k], currentIndex)
  {
    if n == 0 then []
    else RenderedCards(n - 1, currentIndex) + (if IsRendered(n - 1, currentIndex) then [n - 1] else [])
  }

  /** In a session the rendered cards are exactly the undecided ones, and exactly one of
      them, the last rendered, takes pointer input; with no card left none is rendered. */
  lemma OnlyCurrentCardInteractive(s: State)
    requires Inv(s)
    ensures var r := RenderedCards(|s.cats|, s.cursor);
      && |r| + |Decided(s.cats, s.cursor)| == |s.cats|
      && (s.cursor == -1 <==> r == [])
      && (r != [] ==> IsInteractive(r[|r| - 1], s.cursor))
      && (forall k :: 0 <= k < |r| - 1 ==> !IsInteractive(r[k], s.cursor))
  {
  }

  /** The three screens of `App`. */
  datatype View = LoadingView | CollectionView | SwipingView

  function ViewOf(s: State): (v: View)
    ensures v != LoadingView ==> s.ready && |s.cats| > 0
    ensures v == CollectionView <==> s.ready && |s.cats| > 0 && s.finished
    ensures Inv(s) && v == CollectionView ==> s.cursor == -1
  {
    if |s.cats| == 0 || !s.ready then LoadingView
    else if s.finished then CollectionView
    else SwipingView
  }

  /** The collection is shown only after a decision on card 0 ended the batch, and the
      swiping view is left without a card only while the finish timer is pending. */
  lemma ViewMatchesProgress(s: State)
    requires Inv(s)
    ensures ViewOf(s) == CollectionView ==> s.cursor == -1 && |Decided(s.cats, s.cursor)| == |s.cats| > 0
    ensures ViewOf(s) == SwipingView && s.cursor == -1 ==> s.finishTimers == 1
  {
  }

  /** Once the collection is shown, nothing brings the session back to the cards. */
  lemma CollectionIsFinal(s: State, es: seq<Event>)
    requires ViewOf(s) == CollectionView
    ensures ViewOf(Run(s, es)) == CollectionView
  {
    FinishedIsFinal(s, es);
  }
}
