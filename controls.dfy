/** The programmatic swipe request and the keyboard handler of `App`: pure decisions
    over the session state that never change it themselves. */
module Controls {
  import opened SwipeSession
  import opened Render

  /** A request to the gesture library to throw card `card` off in direction `dir`.
      The state changes only when that card's callback reports the swipe. */
  datatype SwipeRequest = SwipeRequest(card: nat, dir: Direction)

  /** `swipe(dir)`: a request on the current card, issued only when the session is ready,
      a card is left, and that card's handle (`handles[i]`: card i is mounted) is live. */
  function SwipeFor(s: State, dir: Direction, handles: seq<bool>): (r: Option<SwipeRequest>)
    requires -1 <= s.cursor < |handles|
    ensures r.Some? <==> s.ready && s.cursor >= 0 && handles[s.cursor]
    ensures r.Some? ==> r.value == SwipeRequest(s.cursor, dir) && IsInteractive(r.value.card, s.cursor)
  {
    if s.ready && s.cursor >= 0 && handles[s.cursor] then Some(SwipeRequest(s.cursor, dir)) else None
  }

  /** A request always targets the one interactive card, and the callback it leads to is
      accepted: the cursor goes one card down and the card is liked exactly on "right". */
  lemma RequestedSwipeIsAccepted(s: State, dir: Direction, handles: seq<bool>)
    requires Inv(s) && |handles| == |s.cats|
    ensures SwipeFor(s, dir, handles).Some? <==> s.ready && s.cursor >= 0 && handles[s.cursor]
    ensures match SwipeFor(s, dir, handles)
      case None => true
      case Some(req) =>
        && req.dir == dir
        && IsInteractive(req.card, s.cursor) && req.card < |s.cats|
        && var t := Decide(s, req.dir, s.cats[req.card], req.card);
           t.cursor == s.cursor - 1
           && t.liked == s.liked + (if dir == Right then [s.cats[s.cursor]] else [])
  {
  }

  /** The directions the keydown handler passes to `swipe` for `key`, in call order. */
  function KeyDirections(finished: bool, ready: bool, key: string): (r: seq<Direction>)
    ensures |r| <= 1
    ensures r != [] ==> !finished && ready
    ensures r == [Left] <==> !finished && ready && key == "ArrowLeft"
    ensures r == [Right] <==> !finished && ready && key == "ArrowRight"
  {
    if finished || !ready then []
    else
      var left: seq<Direction> := if key == "ArrowLeft" then [Left] else [];
      var right: seq<Direction> := if key == "ArrowRight" then [Right] else [];
      assert key == "ArrowLeft" ==> key[5] == 'L';
      assert key == "ArrowRight" ==> key[5] == 'R';
      assert left == [] ==> left + right == right;
      assert right == [] ==> left + right == left;
      left + right
  }

  /** The keydown handler on state `s`: the swipe request it leads to, if any. */
  function KeyDown(s: State, key: string, handles: seq<bool>): (r: Option<SwipeRequest>)
    requires -1 <= s.cursor < |handles|
    ensures r.Some? ==> !s.finished && r == SwipeFor(s, r.value.dir, handles)
    ensures r.Some? ==> (r.value.dir == Right <==> key == "ArrowRight")
    ensures r.Some? ==> (r.value.dir == Left <==> key == "ArrowLeft")
    ensures key != "ArrowLeft" && key != "ArrowRight" ==> r.None?
  {
    var dirs := KeyDirections(s.finished, s.ready, key);
    if dirs == [] then None else SwipeFor(s, dirs[0], handles)
  }

  /** A key press decides the current card: "ArrowRight" likes it, "ArrowLeft" passes it,
      any other key, a finished or not-yet-ready session, or an empty deck requests nothing. */
  lemma KeyPressDecidesCurrentCard(s: State, key: string, handles: seq<bool>)
    requires Inv(s) && |handles| == |s.cats|
    ensures KeyDown(s, key, handles).Some? <==>
      && (key == "ArrowLeft" || key == "ArrowRight")
      && !s.finished && s.ready && s.cursor >= 0 && handles[s.cursor]
    ensures match KeyDown(s, key, handles)
      case None => true
      case Some(req) =>
        var t := Decide(s, req.dir, s.cats[req.card], req.card);
        && t.cursor == s.cursor - 1
        && (key == "ArrowRight" ==> t.liked == s.liked + [s.cats[s.cursor]])
        && (key == "ArrowLeft" ==> t.liked == s.liked)
  {
    var dirs := KeyDirections(s.finished, s.ready, key);
    if dirs != [] {
      RequestedSwipeIsAccepted(s, dirs[0], handles);
    }
  }

  /** Between the last decision and the collection view, key presses do nothing. */
  lemma KeysIgnoredAfterLastCard(s: State, key: string, handles: seq<bool>)
    requires Inv(s) && |handles| == |s.cats| && s.cursor == -1
    ensures KeyDown(s, key, handles) == None
  {
  }
}
