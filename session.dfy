/** The swipe-session state machine of `App` as values: the state a session holds,
    the transitions that change it, and the properties every reachable state keeps. */
module SwipeSession {
  import opened Subsequence

  datatype Option<T> = None | Some(value: T)

  /** A direction the gesture library can report. The cards forbid "up" and "down",
      but the decision step only asks whether the direction is "right". */
  datatype Direction = Left | Right | Up | Down

  /** A fetched cat: its position-derived id and the URL it was fetched from.
      The image blob and its object URL are browser handles and are not modelled. */
  datatype Cat = Cat(id: nat, originalUrl: string)

  /** One snapshot of the session. `cursor` is `currentIndex` (and its ref mirror);
      `readyTimers` and `finishTimers` count the deferred callbacks that are
      scheduled and have not fired yet. */
  datatype State = State(
    cats: seq<Cat>,
    liked: seq<Cat>,
    cursor: int,
    lastDirection: Option<Direction>,
    finished: bool,
    ready: bool,
    readyTimers: nat,
    finishTimers: nat)

  /** The state before the batch arrives. */
  function Initial(): (s: State)
    ensures Inv(s) && s.cursor == -1 && s.liked == [] && !s.ready && !s.finished
    ensures forall d: Direction, c: Cat, i: nat :: Decide(s, d, c, i) == s
  {
    State([], [], -1, None, false, false, 0, 0)
  }

  /** The post-load setup: store the batch, put the cursor on its top card,
      and schedule the readiness flag. */
  function Load(s: State, list: seq<Cat>): (t: State)
    ensures s == Initial() ==> Inv(t) && LikedInv(t) && !t.ready && t.readyTimers == 1
    ensures t.cats == list && t.cursor == |list| - 1 && t.liked == s.liked
  {
    s.(cats := list, cursor := |list| - 1, readyTimers := s.readyTimers + 1)
  }

  /** The decision step, for a gesture reported on card `index` carrying `cat`. */
  function Decide(s: State, dir: Direction, cat: Cat, index: nat): (t: State)
    ensures index != s.cursor ==> t == s
    ensures index == s.cursor ==> t.cursor == s.cursor - 1 && t.lastDirection == Some(dir)
    ensures t.liked == s.liked || (dir == Right && t.liked == s.liked + [cat])
    ensures t.cats == s.cats && t.ready == s.ready && t.finished == s.finished
    ensures Inv(s) ==> Inv(t)
  {
    if index != s.cursor then s
    else s.(lastDirection := Some(dir),
            liked := if dir == Right then s.liked + [cat] else s.liked,
            finishTimers := if s.cursor == 0 then s.finishTimers + 1 else s.finishTimers,
            cursor := index - 1)
  }

  /** The 500 ms readiness timer fires (nothing happens when none is pending). */
  function FireReady(s: State): (t: State)
    ensures t.ready <==> s.ready || s.readyTimers > 0
    ensures t.cats == s.cats && t.cursor == s.cursor && t.liked == s.liked && t.finished == s.finished
    ensures Inv(s) ==> Inv(t)
  {
    if s.readyTimers == 0 then s else s.(ready := true, readyTimers := s.readyTimers - 1)
  }

  /** The 300 ms finish timer fires (nothing happens when none is pending). */
  function FireFinish(s: State): (t: State)
    ensures t.finished <==> s.finished || s.finishTimers > 0
    ensures t.cats == s.cats && t.cursor == s.cursor && t.liked == s.liked && t.ready == s.ready
    ensures Inv(s) ==> Inv(t) && FinishScheduled(t) == FinishScheduled(s)
  {
    if s.finishTimers == 0 then s else s.(finished := true, finishTimers := s.finishTimers - 1)
  }

  /** What can happen to a loaded session: a gesture callback or a timer. */
  datatype Event =
    | Swiped(dir: Direction, cat: Cat, index: nat)
    | ReadyTimerFires
    | FinishTimerFires

  function Step(s: State, e: Event): State {
    match e
    case Swiped(dir, cat, index) => Decide(s, dir, cat, index)
    case ReadyTimerFires => FireReady(s)
    case FinishTimerFires => FireFinish(s)
  }

  function Run(s: State, es: seq<Event>): State
    decreases |es|
  {
    if es == [] then s else Run(Step(s, es[0]), es[1..])
  }

  /** The cats already decided when the cursor is at `cursor`, in decision order:
      the top card first, down to the card just above the cursor. */
  function Decided(cats: seq<Cat>, cursor: int): (d: seq<Cat>)
    requires -1 <= cursor < |cats|
    ensures |d| == |cats| - 1 - cursor
    ensures forall k :: 0 <= k < |d| ==> d[k] == cats[|cats| - 1 - k]
    decreases |cats| - cursor
  {
    if cursor == |cats| - 1 then [] else Decided(cats, cursor + 1) + [cats[cursor + 1]]
  }

  /** How many finish timers have ever been scheduled: pending ones plus the one that fired. */
  function FinishScheduled(s: State): nat {
    s.finishTimers + if s.finished then 1 else 0
  }

  /** The invariant of every session state reachable from `Initial()`. */
  ghost predicate Inv(s: State) {
    && -1 <= s.cursor < |s.cats|
    && (s.lastDirection.None? <==> s.cursor == |s.cats| - 1)
    && FinishScheduled(s) == (if |s.cats| > 0 && s.cursor == -1 then 1 else 0)
    && s.readyTimers + (if s.ready then 1 else 0) <= 1
  }

  /** The liked list is an ordered subset of the cats decided so far. */
  ghost predicate LikedInv(s: State)
    requires Inv(s)
  {
    IsSubsequence(s.liked, Decided(s.cats, s.cursor))
  }

  /** A gesture callback carries the cat of the card it was made for (as every card's
      `onSwipe` closure does). */
  ghost predicate FromCard(cats: seq<Cat>, e: Event) {
    e.Swiped? && e.index < |cats| ==> e.cat == cats[e.index]
  }

  // ----- the decision step -----

  /** A callback for any card other than the current one changes nothing. */
  lemma StaleDecisionIgnored(s: State, dir: Direction, cat: Cat, index: nat)
    requires index != s.cursor
    ensures Decide(s, dir, cat, index) == s
  {
  }

  /** An accepted decision moves the cursor exactly one card down, records the
      direction, appends exactly `cat` on "right" and nothing otherwise, and leaves
      the batch, readiness and the finished flag alone. */
  lemma AcceptedDecision(s: State, dir: Direction, cat: Cat)
    requires Inv(s) && s.cursor >= 0
    ensures var t := Decide(s, dir, cat, s.cursor);
      && t.cursor == s.cursor - 1
      && t.lastDirection == Some(dir)
      && (dir == Right ==> t.liked == s.liked + [cat])
      && (dir != Right ==> t.liked == s.liked)
      && t.cats == s.cats && t.ready == s.ready && t.finished == s.finished
  {
  }

  /** Finish is scheduled only by the decision on card 0, and only when nothing was
      scheduled before; afterwards the cursor is -1 and no card index passes the guard. */
  lemma FinishScheduledOnlyOnce(s: State, dir: Direction, cat: Cat, index: nat)
    requires Inv(s)
    ensures var t := Decide(s, dir, cat, index);
      && (t.finishTimers > s.finishTimers <==> index == 0 && s.cursor == 0)
      && (t.finishTimers > s.finishTimers ==> FinishScheduled(s) == 0 && FinishScheduled(t) == 1)
      && (t.cursor == -1 ==> forall d: Direction, c: Cat, i: nat :: Decide(t, d, c, i) == t)
  {
  }

  // ----- invariant preservation -----

  lemma LoadEstablishesInv(list: seq<Cat>)
    ensures Inv(Initial())
    ensures var t := Load(Initial(), list);
      Inv(t) && LikedInv(t) && t.cursor == |list| - 1 && t.liked == []
      && !t.ready && t.readyTimers == 1
  {
  }

  lemma {:induction false} StepPreservesInv(s: State, e: Event)
    requires Inv(s)
    ensures Inv(Step(s, e)) && Step(s, e).cats == s.cats
  {
  }

  /** An accepted decision on the card the callback belongs to keeps the liked list an
      ordered subset of the decided cats. */
  lemma {:induction false} StepPreservesLikedInv(s: State, e: Event)
    requires Inv(s) && LikedInv(s) && FromCard(s.cats, e)
    ensures Inv(Step(s, e)) && LikedInv(Step(s, e))
  {
    StepPreservesInv(s, e);
    if e.Swiped? && e.index == s.cursor {
      var t := Step(s, e);
      assert Decided(s.cats, t.cursor) == Decided(s.cats, s.cursor) + [s.cats[s.cursor]];
      if e.dir == Right {
        AppendBoth(s.liked, Decided(s.cats, s.cursor), e.cat);
      } else {
        AppendRight(s.liked, Decided(s.cats, s.cursor), s.cats[s.cursor]);
      }
    }
  }

  /** Over any run of callbacks and timers: the invariant holds, the batch never
      changes, and the cursor only goes down, never below -1. */
  lemma {:induction false} RunPreservesInv(s: State, es: seq<Event>)
    requires Inv(s)
    ensures var t := Run(s, es);
      Inv(t) && t.cats == s.cats && -1 <= t.cursor <= s.cursor
    decreases |es|
  {
    if es != [] {
      StepPreservesInv(s, es[0]);
      RunPreservesInv(Step(s, es[0]), es[1..]);
    }
  }

  /** Over any run whose callbacks carry their own card's cat, the liked list stays an
      ordered subset of the batch, taken in decision order, and is no longer than the
      number of decisions accepted. */
  lemma {:induction false} RunKeepsLikedOrdered(s: State, es: seq<Event>)
    requires Inv(s) && LikedInv(s)
    requires forall k :: 0 <= k < |es| ==> FromCard(s.cats, es[k])
    ensures var t := Run(s, es);
      && Inv(t) && LikedInv(t)
      && IsSubsequence(t.liked, Decided(t.cats, t.cursor))
      && |t.liked| <= |t.cats| - 1 - t.cursor <= |t.cats|
    decreases |es|
  {
    if es == [] {
      SubsequenceLength(s.liked, Decided(s.cats, s.cursor));
    } else {
      StepPreservesLikedInv(s, es[0]);
      StepPreservesInv(s, es[0]);
      RunKeepsLikedOrdered(Step(s, es[0]), es[1..]);
    }
  }

  /** Every liked cat is one of the cats of the batch. */
  lemma LikedAreFromBatch(s: State, c: Cat)
    requires Inv(s) && LikedInv(s) && c in s.liked
    ensures c in s.cats
  {
    SubsequenceElements(s.liked, Decided(s.cats, s.cursor), c);
    var k :| 0 <= k < |Decided(s.cats, s.cursor)| && Decided(s.cats, s.cursor)[k] == c;
    assert s.cats[|s.cats| - 1 - k] == c;
  }

  /** Proof helper, not source behaviour: counts the events of a run that schedule the
      finish timer, so that "scheduled at most once" can be stated over a whole run. */
  function Schedules(s: State, es: seq<Event>): nat
    decreases |es|
  {
    if es == [] then 0
    else
      var t := Step(s, es[0]);
      (if t.finishTimers > s.finishTimers then 1 else 0) + Schedules(t, es[1..])
  }

  /** The finish transition is scheduled at most once per session, and it has been
      scheduled exactly when the cursor has passed card 0 of a non-empty batch. */
  lemma {:induction false} FinishScheduledAtMostOnce(s: State, es: seq<Event>)
    requires Inv(s)
    ensures var t := Run(s, es);
      && FinishScheduled(s) + Schedules(s, es) == FinishScheduled(t) <= 1
      && (FinishScheduled(t) == 1 <==> |t.cats| > 0 && t.cursor == -1)
    decreases |es|
  {
    if es != [] {
      StepPreservesInv(s, es[0]);
      FinishScheduledAtMostOnce(Step(s, es[0]), es[1..]);
    }
    RunPreservesInv(s, es);
  }

  /** Once finished, a session stays finished and ready, whatever happens next. */
  lemma {:induction false} FinishedIsFinal(s: State, es: seq<Event>)
    requires s.finished && s.ready
    ensures Run(s, es).finished && Run(s, es).ready && Run(s, es).cats == s.cats
    decreases |es|
  {
    if es != [] {
      FinishedIsFinal(Step(s, es[0]), es[1..]);
    }
  }

  /** Before the batch is loaded, no callback or timer changes anything: in particular
      readiness cannot come before the load. */
  lemma {:induction false} BeforeLoadNothingHappens(es: seq<Event>)
    ensures Run(Initial(), es) == Initial()
    decreases |es|
  {
    if es != [] {
      assert Step(Initial(), es[0]) == Initial();
      BeforeLoadNothingHappens(es[1..]);
    }
  }

  /** Every card of a loaded batch is decided by exactly one accepted callback each,
      top card first; after the last one the finish timer is pending. */
  lemma {:induction false} DecidingEveryCardFinishes(s: State, dirs: seq<Direction>)
    requires Inv(s) && |dirs| == s.cursor + 1
    ensures var t := Run(s, TopDown(s, dirs));
      t.cursor == -1 && (|s.cats| > 0 ==> FinishScheduled(t) == 1)
    decreases |dirs|
  {
    RunPreservesInv(s, TopDown(s, dirs));
    if dirs != [] {
      var e := Swiped(dirs[0], s.cats[s.cursor], s.cursor);
      StepPreservesInv(s, e);
      assert TopDown(s, dirs) == [e] + TopDown(Step(s, e), dirs[1..]);
      DecidingEveryCardFinishes(Step(s, e), dirs[1..]);
    }
  }

  /** Proof helper, not source behaviour: builds the run of callbacks that decides the
      remaining cards one by one, top card first, with directions `dirs`. */
  function TopDown(s: State, dirs: seq<Direction>): seq<Event>
    requires Inv(s) && |dirs| <= s.cursor + 1
    decreases |dirs|
  {
    if dirs == [] then []
    else
      var e := Swiped(dirs[0], s.cats[s.cursor], s.cursor);
      [e] + TopDown(Decide(s, dirs[0], s.cats[s.cursor], s.cursor), dirs[1..])
  }

  // ----- worked sessions over a batch of three cats [a, b, c] (card 2 is c, the top card) -----

  /** Left on c, right on b, right on a: the liked list is [b, a] in decision order, and
      the session finishes only when the finish timer fires. */
  lemma ScenarioMixedDecisions(a: Cat, b: Cat, c: Cat)
    ensures var s := Load(Initial(), [a, b, c]);
      var t := Run(s, [Swiped(Left, c, 2), Swiped(Right, b, 1), Swiped(Right, a, 0)]);
      && t.liked == [b, a] && t.cursor == -1 && t.lastDirection == Some(Right)
      && !t.finished && t.finishTimers == 1
      && Run(t, [FinishTimerFires]).finished
  {
    var s := Load(Initial(), [a, b, c]);
    var es := [Swiped(Left, c, 2), Swiped(Right, b, 1), Swiped(Right, a, 0)];
    var s1 := Decide(s, Left, c, 2);
    var s2 := Decide(s1, Right, b, 1);
    var s3 := Decide(s2, Right, a, 0);
    assert s3.liked == [b, a];
    assert es[1..][1..][1..] == [];
    assert Run(s, es) == Run(s1, es[1..]) == Run(s2, es[1..][1..]) == Run(s3, []);
    assert Run(s3, [FinishTimerFires]) == Run(FireFinish(s3), []);
  }

  /** A duplicate callback for card 2 after it was decided is ignored. */
  lemma ScenarioDuplicateCallback(a: Cat, b: Cat, c: Cat)
    ensures var s := Load(Initial(), [a, b, c]);
      var t := Run(s, [Swiped(Right, c, 2), Swiped(Left, c, 2)]);
      t.liked == [c] && t.cursor == 1 && t.lastDirection == Some(Right)
  {
    var s := Load(Initial(), [a, b, c]);
    var es := [Swiped(Right, c, 2), Swiped(Left, c, 2)];
    var s1 := Decide(s, Right, c, 2);
    assert s1.liked == [c];
    assert es[1..][1..] == [];
    assert Run(s, es) == Run(s1, es[1..]) == Run(s1, []);
  }

  /** Three lefts: nothing is liked and the session ends. */
  lemma ScenarioAllLeft(a: Cat, b: Cat, c: Cat)
    ensures var s := Load(Initial(), [a, b, c]);
      var t := Run(s, [Swiped(Left, c, 2), Swiped(Left, b, 1), Swiped(Left, a, 0), FinishTimerFires]);
      t.liked == [] && t.cursor == -1 && t.finished
  {
    var s := Load(Initial(), [a, b, c]);
    var es := [Swiped(Left, c, 2), Swiped(Left, b, 1), Swiped(Left, a, 0), FinishTimerFires];
    var s1 := Decide(s, Left, c, 2);
    var s2 := Decide(s1, Left, b, 1);
    var s3 := Decide(s2, Left, a, 0);
    assert es[1..][1..][1..][1..] == [];
    assert Run(s, es) == Run(s1, es[1..]) == Run(s2, es[1..][1..]) == Run(s3, es[1..][1..][1..])
      == Run(FireFinish(s3), []);
  }
}
