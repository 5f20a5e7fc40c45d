/**
 * Properties of the game's rules that relate several steps: the grid the
 * snake lives on, what makes a tick end the game, and what a run of frames
 * can and cannot change.
 */
module Properties {
  import opened Geometry
  import opened Rules

  // ---------------------------------------------------------------------------
  // The snake stays on the SIZE grid while the game is live

  lemma AdvanceKeepsGrid(b: Body)
    requires Consistent(b) && b.length >= 1 && OnGridBody(b)
    ensures OnGridBody(Advance(b))
  {
    var r := Advance(b);
    forall i | 0 <= i < r.length
      ensures OnGrid(r.xcor[i]) && OnGrid(r.ycor[i])
    {
      if i > 0 {
        assert r.xcor[i] == b.xcor[i - 1] && r.ycor[i] == b.ycor[i - 1];
      }
    }
  }

  lemma GrowKeepsGrid(b: Body)
    requires Consistent(b) && OnGridBody(b)
    ensures OnGridBody(Grow(b))
  {
    var r := Grow(b);
    forall i | 0 <= i < r.length
      ensures OnGrid(r.xcor[i]) && OnGrid(r.ycor[i])
    {
      if i < b.length {
        assert r.xcor[i] == r.xcor[..b.length][i] == b.xcor[i];
        assert r.ycor[i] == r.ycor[..b.length][i] == b.ycor[i];
      }
    }
  }

  lemma MovedKeepsGrid(s: Session)
    requires Playable(s) && OnGridBody(s.snake)
    ensures OnGridBody(Moved(s))
  {
    AdvanceKeepsGrid(s.snake);
    if Captures(s) {
      GrowKeepsGrid(Advance(s.snake));
    }
  }

  /** The head meets segment x of an on-grid snake. */
  ghost predicate Overlaps(b: Body, x: nat)
    requires x < |b.xcor| && x < |b.ycor|
  {
    b.xcor[x] == b.xcor[0] && b.ycor[x] == b.ycor[0]
  }

  /** On the grid the self-collision scan finds exactly the segments, from index
      3 on, that sit on the head's cell. */
  lemma SelfHitOnGrid(b: Body)
    requires Consistent(b) && OnGridBody(b)
    ensures SelfHit(b) <==> exists x :: 3 <= x < b.length && Overlaps(b, x)
  {
    forall x | 3 <= x < b.length
      ensures SnakeCollision(b, x) <==> Overlaps(b, x)
    {
      GridNearIffSame(b.xcor[x], b.ycor[x], b.xcor[0], b.ycor[0]);
    }
  }

  /** So a tick of an on-grid snake ends the game exactly when, after moving and
      growing, some segment from index 3 on shares the head's cell. */
  lemma TickGameOverIffOverlap(s: Session, nx: int, ny: int)
    requires Playable(s) && InSpawnRange(nx, ny) && OnGridBody(s.snake)
    ensures Tick(s, nx, ny).outcome == GameOver <==>
      exists x :: 3 <= x < Moved(s).length && Overlaps(Moved(s), x)
  {
    MovedKeepsGrid(s);
    SelfHitOnGrid(Moved(s));
  }

  // ---------------------------------------------------------------------------
  // Which snakes a tick can end

  /** The scan starts at index 3: a snake of length 2, or of length 3 that does
      not eat, cannot end the game in one tick. */
  lemma ShortSnakeSurvives(s: Session, nx: int, ny: int)
    requires Playable(s) && InSpawnRange(nx, ny)
    requires s.snake.length <= 2 || (s.snake.length == 3 && !Captures(s))
    ensures Tick(s, nx, ny).outcome != GameOver
  {
  }

  /** The segment a capture appends sits on (SIZE, SIZE) and is scanned in the
      same tick: a snake of length 3 or more that eats while its head lands on
      (SIZE, SIZE) ends the game at once. */
  lemma GrowthOnStartCellEndsGame(s: Session, nx: int, ny: int)
    requires Playable(s) && InSpawnRange(nx, ny) && s.snake.length >= 3
    requires Advance(s.snake).xcor[0] == SIZE && Advance(s.snake).ycor[0] == SIZE
    requires Captures(s)
    ensures Tick(s, nx, ny).outcome == GameOver
  {
    var b := Moved(s);
    assert b == Grow(Advance(s.snake));
    assert b.xcor[s.snake.length] == SIZE && b.ycor[s.snake.length] == SIZE;
    assert b.xcor[0] == Advance(s.snake).xcor[..s.snake.length][0];
    assert b.ycor[0] == Advance(s.snake).ycor[..s.snake.length][0];
    assert SnakeCollision(b, s.snake.length);
  }

  // ---------------------------------------------------------------------------
  // Scenarios of single ticks and frames

  /** The first tick of a new game without a capture: the head moves down one
      cell and segment 1 takes its old cell. */
  lemma FirstTickMovesDown(ax: int, ay: int, nx: int, ny: int)
    requires InSpawnRange(ax, ay) && InSpawnRange(nx, ny)
    requires !Near(ax, ay, SIZE, 2 * SIZE)
    ensures Tick(Initial(ax, ay), nx, ny) ==
      Step(Session(Body([SIZE, SIZE], [2 * SIZE, SIZE], 2, Down), ax, ay, 0), Continue)
  {
    assert Advance(Initial(ax, ay).snake).xcor == [SIZE, SIZE];
    assert Advance(Initial(ax, ay).snake).ycor == [2 * SIZE, SIZE];
  }

  /** The first tick of a new game with the apple within reach of the new head:
      one point, a third segment on (SIZE, SIZE), the apple moved to (nx, ny). */
  lemma FirstTickScores(ax: int, ay: int, nx: int, ny: int)
    requires InSpawnRange(ax, ay) && InSpawnRange(nx, ny)
    requires Near(ax, ay, SIZE, 2 * SIZE)
    ensures Tick(Initial(ax, ay), nx, ny) ==
      Step(Session(Body([SIZE, SIZE, SIZE], [2 * SIZE, SIZE, SIZE], 3, Down), nx, ny, 1), Scored)
  {
    assert Advance(Initial(ax, ay).snake).xcor == [SIZE, SIZE];
    assert Advance(Initial(ax, ay).snake).ycor == [2 * SIZE, SIZE];
  }

  /** A snake of length 6 curled so that its head moves onto the cell that
      segment 4 takes: the tick ends the game and the play loop pauses. */
  lemma CurledSnakeBitesItself(f: Frame)
    requires InSpawnRange(f.spawnX, f.spawnY) && f.events == []
    ensures
      var b := Body([60, 90, 90, 60, 30, 30], [90, 90, 60, 60, 60, 90], 6, Up);
      var s := Session(b, 700, 500, 4);
      Tick(s, f.spawnX, f.spawnY).outcome == GameOver &&
      FrameStep(App(Playing(false), s), f).mode == Playing(true)
  {
    var b := Body([60, 90, 90, 60, 30, 30], [90, 90, 60, 60, 60, 90], 6, Up);
    var s := Session(b, 700, 500, 4);
    var m := Advance(b);
    assert m.xcor == [60, 60, 90, 90, 60, 30] && m.ycor == [60, 90, 90, 60, 60, 60];
    assert !Captures(s);
    assert SnakeCollision(Moved(s), 4);
  }

  /** After a game over, Return starts a new game in the intro, and a later
      Return in the intro plays it from a score of 0 and a length of 2. */
  lemma ReplayStartsAfresh(s: Session, f1: Frame, f2: Frame)
    requires Playable(s) && InSpawnRange(f1.spawnX, f1.spawnY) && InSpawnRange(f2.spawnX, f2.spawnY)
    requires f1.events == [KeyDown(ReturnKey)] && f2.events == [KeyDown(ReturnKey)]
    ensures RunFrames(App(Playing(true), s), [f1, f2]) ==
      App(Playing(false), Initial(f1.spawnX, f1.spawnY))
  {
    assert [f1, f2][1..] == [f2] && [f2][1..] == [];
    assert HasReturn(f1.events) && !HasExit(f1.events);
    assert HasReturn(f2.events) && !HasExit(f2.events);
    var a1 := FrameStep(App(Playing(true), s), f1);
    assert a1 == App(Intro, Initial(f1.spawnX, f1.spawnY));
    var a2 := FrameStep(a1, f2);
    assert RunFrames(a1, [f2]) == RunFrames(a2, []) == a2;
  }

  // ---------------------------------------------------------------------------
  // Runs of frames

  /** No frame contains a Return key press. */
  predicate NoReturn(frames: seq<Frame>)
  {
    forall i :: 0 <= i < |frames| ==> !HasReturn(frames[i].events)
  }

  lemma NoReturnTail(frames: seq<Frame>)
    requires frames != [] && NoReturn(frames)
    ensures !HasReturn(frames[0].events) && NoReturn(frames[1..])
  {
    assert forall i :: 0 <= i < |frames| - 1 ==> frames[1..][i] == frames[i + 1];
  }

  /** Once the program has exited, no further frame changes anything. */
  lemma {:induction false} ExitedStays(s: Session, frames: seq<Frame>)
    requires Playable(s) && AllInSpawnRange(frames)
    ensures RunFrames(App(Exited, s), frames) == App(Exited, s)
    decreases |frames|
  {
    if frames != [] {
      ExitedStays(s, frames[1..]);
    }
  }

  /** Without a restart the score never decreases. */
  lemma {:induction false} ScoreNeverDecreases(a: App, frames: seq<Frame>)
    requires Playable(a.session) && AllInSpawnRange(frames) && NoReturn(frames)
    ensures RunFrames(a, frames).session.score >= a.session.score
    decreases |frames|
  {
    if frames != [] {
      NoReturnTail(frames);
      var a' := FrameStep(a, frames[0]);
      assert a'.session.score >= a.session.score;
      ScoreNeverDecreases(a', frames[1..]);
    }
  }

  /** After a game over, and until a Return, the snake's cells and length, the
      apple and the score stay frozen; only the heading can still change, and
      the loop stays paused until the program exits. */
  lemma {:induction false} FrozenAfterGameOver(a: App, frames: seq<Frame>)
    requires Playable(a.session) && AllInSpawnRange(frames) && NoReturn(frames)
    requires a.mode == Playing(true)
    ensures var r := RunFrames(a, frames);
      r.mode in {Playing(true), Exited} &&
      r.session == Steer(a.session, r.session.snake.direction)
    decreases |frames|
  {
    if frames != [] {
      NoReturnTail(frames);
      var a' := FrameStep(a, frames[0]);
      if a'.mode == Exited {
        ExitedStays(a'.session, frames[1..]);
      } else {
        FrozenAfterGameOver(a', frames[1..]);
      }
    }
  }

  /** The intro is left only through a Return; until then the game is untouched. */
  lemma {:induction false} IntroWaitsForReturn(a: App, frames: seq<Frame>)
    requires Playable(a.session) && AllInSpawnRange(frames) && NoReturn(frames)
    requires a.mode == Intro
    ensures var r := RunFrames(a, frames);
      r.mode in {Intro, Exited} && r.session == a.session
    decreases |frames|
  {
    if frames != [] {
      NoReturnTail(frames);
      var a' := FrameStep(a, frames[0]);
      if a'.mode == Exited {
        ExitedStays(a'.session, frames[1..]);
      } else {
        IntroWaitsForReturn(a', frames[1..]);
      }
    }
  }

  /** The intro and the unpaused play loop see a snake on the grid. */
  ghost predicate LiveOnGrid(a: App)
  {
    a.mode in {Intro, Playing(false)} ==> OnGridBody(a.session.snake)
  }

  lemma FrameKeepsGrid(a: App, f: Frame)
    requires Playable(a.session) && InSpawnRange(f.spawnX, f.spawnY) && LiveOnGrid(a)
    ensures LiveOnGrid(FrameStep(a, f))
  {
    if a.mode == Playing(false) {
      match PlayingEvents(a.session, f.events)
      case Leave(_) =>
      case Restart =>
      case Proceed(s) =>
        assert s.snake.xcor == a.session.snake.xcor && s.snake.ycor == a.session.snake.ycor;
        MovedKeepsGrid(s);
    }
  }

  /** In every run from that state on, then, whenever the play loop is live the
      game ends exactly on a cell overlap (TickGameOverIffOverlap applies). */
  lemma {:induction false} RunKeepsGrid(a: App, frames: seq<Frame>)
    requires Playable(a.session) && AllInSpawnRange(frames) && LiveOnGrid(a)
    ensures LiveOnGrid(RunFrames(a, frames))
    decreases |frames|
  {
    if frames != [] {
      FrameKeepsGrid(a, frames[0]);
      RunKeepsGrid(FrameStep(a, frames[0]), frames[1..]);
    }
  }

  /** The snake never gets shorter than the two segments it starts with. */
  lemma {:induction false} RunKeepsLength(a: App, frames: seq<Frame>)
    requires Playable(a.session) && AllInSpawnRange(frames) && a.session.snake.length >= 2
    ensures RunFrames(a, frames).session.snake.length >= 2
    decreases |frames|
  {
    if frames != [] {
      RunKeepsLength(FrameStep(a, frames[0]), frames[1..]);
    }
  }
}
