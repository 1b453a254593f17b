/** The session state `App` keeps between renders, as an object whose methods update
    it in place, each proved to perform the matching transition of `SwipeSession`. */
module App {
  import opened SwipeSession
  import opened Controls

  class Session {
    var cats: seq<Cat>
    var likedCats: seq<Cat>
    var currentIndex: int
    /** The synchronous mirror of `currentIndex` that callbacks read. */
    var currentIndexRef: int
    var isFinished: bool
    var lastDirection: Option<Direction>
    var isReady: bool
    /** Scheduled and not yet fired: the readiness timeout and the finish timeout. */
    var readyTimers: nat
    var finishTimers: nat

    /** The session as a value; the cursor is the ref, which callbacks consult. */
    ghost function State(): State
      reads this
    {
      SwipeSession.State(cats, likedCats, currentIndexRef, lastDirection, isFinished,
                         isReady, readyTimers, finishTimers)
    }

    ghost predicate Valid()
      reads this
    {
      currentIndex == currentIndexRef && Inv(State())
    }

    /** The state before the batch is loaded. */
    constructor ()
      ensures Valid() && State() == Initial()
    {
      cats, likedCats := [], [];
      currentIndex := -1;
      currentIndexRef := -1;
      isFinished, lastDirection, isReady := false, None, false;
      readyTimers, finishTimers := 0, 0;
    }

    /** The setup after the whole batch was fetched: the cursor goes to the top card and
        readiness is deferred to a timer. Runs once, on a fresh session. */
    method LoadCats(list: seq<Cat>)
      requires Valid() && State() == Initial()
      modifies this
      ensures Valid() && LikedInv(State())
      ensures State() == Load(old(State()), list)
      ensures currentIndex == currentIndexRef == |list| - 1 && !isReady
    {
      cats := list;
      currentIndex := |list| - 1;
      currentIndexRef := |list| - 1;
      readyTimers := readyTimers + 1;
      LoadEstablishesInv(list);
    }

    /** The readiness timeout fires. */
    method FireReadyTimer()
      requires Valid()
      modifies this
      ensures Valid() && State() == FireReady(old(State()))
      ensures old(readyTimers) > 0 ==> isReady
    {
      if readyTimers > 0 {
        isReady := true;
        readyTimers := readyTimers - 1;
      }
    }

    /** The finish timeout fires. */
    method FireFinishTimer()
      requires Valid()
      modifies this
      ensures Valid() && State() == FireFinish(old(State()))
      ensures old(finishTimers) > 0 ==> isFinished
    {
      if finishTimers > 0 {
        isFinished := true;
        finishTimers := finishTimers - 1;
      }
    }

    /** Moves the cursor and its mirror together. */
    method UpdateCurrentIndex(val: int)
      modifies this`currentIndex, this`currentIndexRef
      ensures currentIndex == val && currentIndexRef == val
    {
      currentIndex := val;
      currentIndexRef := val;
    }

    /** The gesture callback of card `index`, carrying `cat`: a stale or duplicate
        callback changes nothing; the current card's is the decision step. */
    method Swiped(direction: Direction, cat: Cat, index: nat)
      requires Valid()
      modifies this
      ensures Valid() && State() == Decide(old(State()), direction, cat, index)
      ensures index != old(currentIndexRef) ==> unchanged(this)
      ensures index == old(currentIndexRef) ==> currentIndex == old(currentIndex) - 1
      ensures old(LikedInv(State())) && (index < |cats| ==> cat == cats[index]) ==> LikedInv(State())
    {
      if index != currentIndexRef {
        return;
      }
      ghost var before := State();
      lastDirection := Some(direction);
      if direction == Right {
        likedCats := likedCats + [cat];
      }
      if currentIndexRef == 0 {
        finishTimers := finishTimers + 1;
      }
      UpdateCurrentIndex(index - 1);
      StepPreservesInv(before, SwipeSession.Swiped(direction, cat, index));
      if LikedInv(before) && (index < |cats| ==> cat == cats[index]) {
        StepPreservesLikedInv(before, SwipeSession.Swiped(direction, cat, index));
      }
    }

    /** The programmatic swipe: asks the current card's handle (`handles[i]`: card i's
        handle is live) to swipe, and changes no session state itself. */
    method Swipe(dir: Direction, handles: seq<bool>) returns (request: Option<SwipeRequest>)
      requires Valid() && |handles| == |cats|
      ensures request == SwipeFor(State(), dir, handles)
      ensures request.Some? ==> request.value.card == currentIndexRef < |cats|
    {
      if isReady && currentIndexRef >= 0 && handles[currentIndexRef] {
        request := Some(SwipeRequest(currentIndexRef, dir));
      } else {
        request := None;
      }
    }

    /** The keydown handler: the arrow keys ask for a swipe, other keys, a finished
        session or one not yet ready do nothing. */
    method HandleKeyDown(key: string, handles: seq<bool>) returns (request: Option<SwipeRequest>)
      requires Valid() && |handles| == |cats|
      ensures request == KeyDown(State(), key, handles)
      ensures request.Some? ==> !isFinished && isReady && (key == "ArrowLeft" || key == "ArrowRight")
    {
      request := None;
      if isFinished || !isReady {
        return;
      }
      if key == "ArrowLeft" {
        request := Swipe(Left, handles);
      }
      if key == "ArrowRight" {
        request := Swipe(Right, handles);
      }
    }
  }
}
