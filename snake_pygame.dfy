/**
 * The objects of the snake game with the fields they update in place: the
 * snake's coordinate lists, the apple's position, the score, and the game
 * that owns them and runs the intro and play loops. Drawing, fonts, images
 * and the sleeps between ticks are not part of this model; the events and
 * the random apple positions come in as arguments.
 */
module SnakePygame {
  import opened Geometry
  import opened Rules
  import Properties

  /** The player's snake: parallel lists of x and y coordinates, head first. */
  class Snake {
    var xcor: seq<int>
    var ycor: seq<int>
    var length: nat
    var direction: Direction

    /** The snake's current value. */
    function Body(): Rules.Body
      reads this
    {
      Rules.Body(xcor, ycor, length, direction)
    }

    ghost predicate Valid()
      reads this
    {
      Consistent(Body())
    }

    /** `length` segments, all on (SIZE, SIZE), heading down. */
    constructor (length: nat)
      ensures Valid() && Body() == NewBody(length)
    {
      this.length := length;
      xcor := seq(length, _ => SIZE);
      ycor := seq(length, _ => SIZE);
      direction := Down;
    }

    method MoveLeft()
      modifies this
      ensures Body() == Turn(old(Body()), Left)
    {
      direction := Left;
    }

    method MoveRight()
      modifies this
      ensures Body() == Turn(old(Body()), Right)
    {
      direction := Right;
    }

    method MoveUp()
      modifies this
      ensures Body() == Turn(old(Body()), Up)
    {
      direction := Up;
    }

    method MoveDown()
      modifies this
      ensures Body() == Turn(old(Body()), Down)
    {
      direction := Down;
    }

    /** Shift every segment into its predecessor's cell, from the tail down to
        index 1, then move the head one SIZE step along `direction`. */
    method DefaultMovement()
      requires Valid() && length >= 1
      modifies this
      ensures Valid() && Body() == Advance(old(Body()))
    {
      var i := length - 1;
      while i > 0
        invariant 0 <= i < length
        invariant |xcor| == |ycor| == length == old(length) && direction == old(direction)
        invariant forall j :: i < j < length ==> xcor[j] == old(xcor[j - 1]) && ycor[j] == old(ycor[j - 1])
        invariant forall j :: 0 <= j <= i ==> xcor[j] == old(xcor[j]) && ycor[j] == old(ycor[j])
      {
        xcor := xcor[i := xcor[i - 1]];
        ycor := ycor[i := ycor[i - 1]];
        i := i - 1;
      }
      if direction == Left {
        xcor := xcor[0 := xcor[0] - SIZE];
      }
      if direction == Right {
        xcor := xcor[0 := xcor[0] + SIZE];
      }
      if direction == Up {
        ycor := ycor[0 := ycor[0] - SIZE];
      }
      if direction == Down {
        ycor := ycor[0 := ycor[0] + SIZE];
      }
      assert xcor == Advance(old(Body())).xcor;
      assert ycor == Advance(old(Body())).ycor;
    }

    /** Append one segment on (SIZE, SIZE). */
    method IncrementLength()
      requires Valid()
      modifies this
      ensures Valid() && Body() == Grow(old(Body()))
    {
      length := length + 1;
      xcor := xcor + [SIZE];
      ycor := ycor + [SIZE];
    }
  }

  /** The apple; its position is drawn in the spawn range when it is created. */
  class Apple {
    var xcor: int
    var ycor: int

    constructor (x: int, y: int)
      requires InSpawnRange(x, y)
      ensures xcor == x && ycor == y
    {
      xcor := x;
      ycor := y;
    }
  }

  /** The score counter of the on-screen text. */
  class GameText {
    var scoreValue: nat

    constructor ()
      ensures scoreValue == 0
    {
      scoreValue := 0;
    }
  }

  /** The game: one snake, one apple and the score. */
  class Game {
    var snake: Snake
    var apple: Apple
    var gameText: GameText

    ghost predicate Valid()
      reads this, snake
    {
      snake.Valid() && snake.length >= 1
    }

    /** The game's current value. */
    function State(): Session
      reads this, snake, apple, gameText
    {
      Session(snake.Body(), apple.xcor, apple.ycor, gameText.scoreValue)
    }

    /** `Game()`: a snake of length 2, an apple at the drawn (appleX, appleY), score 0. */
    constructor (appleX: int, appleY: int)
      requires InSpawnRange(appleX, appleY)
      ensures Valid() && State() == Initial(appleX, appleY)
    {
      snake := new Snake(2);
      apple := new Apple(appleX, appleY);
      gameText := new GameText();
    }

    /** What Return does while playing: it starts a new game in place of this one. */
    method Restart(appleX: int, appleY: int)
      requires InSpawnRange(appleX, appleY)
      modifies this
      ensures Valid() && State() == Initial(appleX, appleY)
      ensures fresh(snake) && fresh(apple) && fresh(gameText)
    {
      snake := new Snake(2);
      apple := new Apple(appleX, appleY);
      gameText := new GameText();
    }

    /** One tick: move, eat and grow, then scan the segments from index 3 on
        for a hit on the head. (nx, ny) is the position drawn for a new apple. */
    method Play(nx: int, ny: int) returns (outcome: Outcome)
      requires Valid() && InSpawnRange(nx, ny)
      modifies snake, apple, gameText
      ensures Valid()
      ensures Step(State(), outcome) == Tick(old(State()), nx, ny)
    {
      snake.DefaultMovement();
      outcome := Continue;
      if IsCollision(State()) {
        apple.xcor := nx;
        apple.ycor := ny;
        snake.IncrementLength();
        gameText.scoreValue := gameText.scoreValue + 1;
        outcome := Scored;
      }
      ghost var s0 := old(State());
      ghost var before := State();
      assert before.snake == Moved(s0);
      assert before.score == (if Captures(s0) then s0.score + 1 else s0.score);
      assert before.appleX == (if Captures(s0) then nx else s0.appleX);
      assert before.appleY == (if Captures(s0) then ny else s0.appleY);
      assert outcome == (if Captures(s0) then Scored else Continue);
      var x := 3;
      while x < snake.length
        invariant State() == before && Valid()
        invariant forall j :: 3 <= j < x && j < snake.length ==> !SnakeCollision(snake.Body(), j)
      {
        if SnakeCollision(snake.Body(), x) {
          snake.xcor := seq(snake.length, _ => OFF_SCREEN);
          apple.xcor := OFF_SCREEN;
          outcome := GameOver;
          assert SelfHit(before.snake);
          assert Tick(s0, nx, ny).after.snake.xcor == snake.xcor;
          return;
        }
        x := x + 1;
      }
      assert !SelfHit(before.snake);
    }

    /** One pass of the intro loop over a batch of events. */
    method IntroFrame(events: seq<Event>) returns (mode: Mode)
      ensures mode == IntroScan(events, false)
    {
      var intro := true;
      var i := 0;
      while i < |events|
        invariant 0 <= i <= |events|
        invariant IntroScan(events, false) == IntroScan(events[i..], !intro)
      {
        assert events[i..][1..] == events[i + 1..];
        if IsExit(events[i]) {
          return Exited;
        }
        if events[i] == KeyDown(ReturnKey) {
          intro := false;
        }
        i := i + 1;
      }
      mode := if intro then Intro else Playing(false);
    }

    /** The handling of one event in the play loop; `stopped` says that it ends
        the pass, and `mode` is then where the loop continues. */
    method HandleEvent(e: Event, f: Frame) returns (stopped: bool, mode: Mode)
      requires Valid() && InSpawnRange(f.spawnX, f.spawnY)
      modifies this, snake
      ensures Valid()
      ensures match Rules.HandleEvent(old(State()), e)
        case Proceed(s) => !stopped && State() == s && snake == old(snake) && apple == old(apple) && gameText == old(gameText)
        case Leave(s) => stopped && mode == Exited && State() == s && snake == old(snake) && apple == old(apple) && gameText == old(gameText)
        case Restart => (stopped && mode == Intro && State() == Initial(f.spawnX, f.spawnY) &&
                         fresh(snake) && fresh(apple) && fresh(gameText))
    {
      stopped, mode := false, Intro;
      match e {
        case QuitEvent =>
          return true, Exited;
        case OtherEvent =>
        case KeyDown(key) =>
          match key {
            case LeftKey => snake.MoveLeft();
            case RightKey => snake.MoveRight();
            case UpKey => snake.MoveUp();
            case DownKey => snake.MoveDown();
            case ReturnKey =>
              Restart(f.spawnX, f.spawnY);
              return true, Intro;
            case EscapeKey =>
              return true, Exited;
            case OtherKey =>
          }
      }
    }

    /** The event loop of one pass of the play loop. `stopped` says that an event
        ended the pass, and `mode` is then where the loop continues. */
    method HandleEvents(f: Frame) returns (stopped: bool, mode: Mode)
      requires Valid() && InSpawnRange(f.spawnX, f.spawnY)
      modifies this, snake
      ensures Valid()
      ensures match PlayingEvents(old(State()), f.events)
        case Proceed(s) => !stopped && State() == s && snake == old(snake) && apple == old(apple) && gameText == old(gameText)
        case Leave(s) => stopped && mode == Exited && State() == s && snake == old(snake) && apple == old(apple) && gameText == old(gameText)
        case Restart => (stopped && mode == Intro && State() == Initial(f.spawnX, f.spawnY) &&
                         fresh(snake) && fresh(apple) && fresh(gameText))
    {
      stopped, mode := false, Intro;
      var i := 0;
      while i < |f.events|
        invariant 0 <= i <= |f.events|
        invariant Valid() && snake == old(snake) && apple == old(apple) && gameText == old(gameText)
        invariant PlayingEvents(old(State()), f.events) == PlayingEvents(State(), f.events[i..])
      {
        assert f.events[i..][1..] == f.events[i + 1..];
        stopped, mode := HandleEvent(f.events[i], f);
        if stopped {
          return;
        }
        i := i + 1;
      }
    }

    /** One pass of the play loop: handle the batch of events, then run a tick
        unless the game is paused. */
    method PlayingFrame(pause: bool, f: Frame) returns (mode: Mode)
      requires Valid() && InSpawnRange(f.spawnX, f.spawnY)
      modifies this, snake, apple, gameText
      ensures Valid()
      ensures App(mode, State()) == FrameStep(App(Playing(pause), old(State())), f)
      ensures (snake == old(snake) && apple == old(apple) && gameText == old(gameText)) ||
              (fresh(snake) && fresh(apple) && fresh(gameText))
    {
      var stopped;
      stopped, mode := HandleEvents(f);
      if stopped {
        return;
      }
      if pause {
        return Playing(true);
      }
      var outcome := Play(f.spawnX, f.spawnY);
      mode := Playing(outcome == GameOver);
    }

    /** `run`: start in the intro and process frames until the input ends or
        the program exits. */
    method Run(frames: seq<Frame>) returns (mode: Mode)
      requires Valid() && AllInSpawnRange(frames)
      modifies this, snake, apple, gameText
      ensures Valid()
      ensures App(mode, State()) == RunFrames(App(Intro, old(State())), frames)
    {
      mode := Intro;
      var i := 0;
      while i < |frames| && mode != Exited
        invariant 0 <= i <= |frames|
        invariant Valid()
        invariant snake == old(snake) || fresh(snake)
        invariant apple == old(apple) || fresh(apple)
        invariant gameText == old(gameText) || fresh(gameText)
        invariant RunFrames(App(Intro, old(State())), frames) == RunFrames(App(mode, State()), frames[i..])
      {
        assert frames[i..][1..] == frames[i + 1..];
        if mode == Intro {
          mode := IntroFrame(frames[i].events);
        } else {
          mode := PlayingFrame(mode.pause, frames[i]);
        }
        i := i + 1;
      }
      Properties.ExitedStays(State(), frames[i..]);
    }
  }
}
