/**
 * The game's rules as values: what one movement step, one growth step, one
 * tick of play and one frame of input do to a snapshot of the game.
 *
 * The classes in snake_pygame.dfy update their fields in place, as the
 * game does; each of their methods is proved to leave behind exactly the
 * snapshot that the function of the same step here computes.
 */
module Rules {
  import opened Geometry

  /** A snapshot of a `Snake` object: two parallel coordinate lists, head first. */
  datatype Body = Body(xcor: seq<int>, ycor: seq<int>, length: nat, direction: Direction)

  /** The snake's own invariant: `length` is the length of both lists. */
  predicate Consistent(b: Body)
  {
    b.length == |b.xcor| == |b.ycor|
  }

  /** Every coordinate of the body is a multiple of SIZE. */
  predicate OnGridBody(b: Body)
  {
    (forall i :: 0 <= i < |b.xcor| ==> OnGrid(b.xcor[i])) &&
    (forall i :: 0 <= i < |b.ycor| ==> OnGrid(b.ycor[i]))
  }

  /** The snake as constructed: `length` segments stacked on (SIZE, SIZE), heading down. */
  function NewBody(length: nat): (b: Body)
    ensures Consistent(b) && b.length == length && b.direction == Down
    ensures forall i :: 0 <= i < length ==> b.xcor[i] == SIZE && b.ycor[i] == SIZE
    ensures OnGridBody(b)
  {
    Body(seq(length, _ => SIZE), seq(length, _ => SIZE), length, Down)
  }

  /** What `move_left`, `move_right`, `move_up` and `move_down` do: set the heading,
      whatever it was before (a reversal included), and nothing else. */
  function Turn(b: Body, d: Direction): (r: Body)
    ensures r.direction == d
    ensures r.xcor == b.xcor && r.ycor == b.ycor && r.length == b.length
  {
    b.(direction := d)
  }

  /** One `default_movement`: every segment but the head takes its predecessor's
      cell, and the head moves SIZE pixels along its heading. */
  function Advance(b: Body): (r: Body)
    requires Consistent(b) && b.length >= 1
    ensures Consistent(r) && r.length == b.length && r.direction == b.direction
    ensures forall i :: 1 <= i < r.length ==> r.xcor[i] == b.xcor[i - 1] && r.ycor[i] == b.ycor[i - 1]
    ensures b.direction == Left ==> r.xcor[0] == b.xcor[0] - SIZE && r.ycor[0] == b.ycor[0]
    ensures b.direction == Right ==> r.xcor[0] == b.xcor[0] + SIZE && r.ycor[0] == b.ycor[0]
    ensures b.direction == Up ==> r.xcor[0] == b.xcor[0] && r.ycor[0] == b.ycor[0] - SIZE
    ensures b.direction == Down ==> r.xcor[0] == b.xcor[0] && r.ycor[0] == b.ycor[0] + SIZE
  {
    var (dx, dy) := match b.direction
      case Left => (-SIZE, 0)
      case Right => (SIZE, 0)
      case Up => (0, -SIZE)
      case Down => (0, SIZE);
    Body([b.xcor[0] + dx] + b.xcor[..b.length - 1],
         [b.ycor[0] + dy] + b.ycor[..b.length - 1],
         b.length, b.direction)
  }

  /** One `increment_length`: one more segment, placed on the fixed cell
      (SIZE, SIZE) rather than on the tail; the earlier segments stay put. */
  function Grow(b: Body): (r: Body)
    requires Consistent(b)
    ensures Consistent(r) && r.length == b.length + 1 && r.direction == b.direction
    ensures r.xcor[..b.length] == b.xcor && r.ycor[..b.length] == b.ycor
    ensures r.xcor[b.length] == SIZE && r.ycor[b.length] == SIZE
  {
    Body(b.xcor + [SIZE], b.ycor + [SIZE], b.length + 1, b.direction)
  }

  /** A snapshot of a `Game`: the snake, the apple's position and the score. */
  datatype Session = Session(snake: Body, appleX: int, appleY: int, score: nat)

  /** What a tick needs: a consistent snake with a head. */
  predicate Playable(s: Session)
  {
    Consistent(s.snake) && s.snake.length >= 1
  }

  /** The session a new `Game` starts with: `Snake(screen, 2)`, an apple drawn in
      the spawn range, and a score of 0. */
  function Initial(appleX: int, appleY: int): (s: Session)
    requires InSpawnRange(appleX, appleY)
    ensures Playable(s) && OnGridBody(s.snake)
    ensures s.snake.length == 2 && s.snake.xcor == [SIZE, SIZE] && s.snake.ycor == [SIZE, SIZE]
    ensures s.snake.direction == Down && s.score == 0
    ensures s.appleX == appleX && s.appleY == appleY
  {
    Session(NewBody(2), appleX, appleY, 0)
  }

  /** `Game.is_collision`: the apple is closer than THRESHOLD to the head. */
  predicate IsCollision(s: Session)
    requires |s.snake.xcor| >= 1 && |s.snake.ycor| >= 1
    ensures s.appleX == s.snake.xcor[0] && s.appleY == s.snake.ycor[0] ==> IsCollision(s)
    ensures s.appleX - s.snake.xcor[0] == THRESHOLD || s.snake.xcor[0] - s.appleX == THRESHOLD ==> !IsCollision(s)
    ensures s.appleY - s.snake.ycor[0] == THRESHOLD || s.snake.ycor[0] - s.appleY == THRESHOLD ==> !IsCollision(s)
  {
    Near(s.appleX, s.appleY, s.snake.xcor[0], s.snake.ycor[0])
  }

  /** `Game.snake_collision(..., x)`: segment x is closer than THRESHOLD to the head. */
  predicate SnakeCollision(b: Body, x: nat)
    requires x < |b.xcor| && x < |b.ycor|
    ensures x == 0 ==> SnakeCollision(b, x)
    ensures b.xcor[x] == b.xcor[0] && b.ycor[x] == b.ycor[0] ==> SnakeCollision(b, x)
    ensures b.xcor[x] - b.xcor[0] == THRESHOLD || b.xcor[0] - b.xcor[x] == THRESHOLD ==> !SnakeCollision(b, x)
  {
    Near(b.xcor[x], b.ycor[x], b.xcor[0], b.ycor[0])
  }

  /** The scan of `play`: some segment at index 3 or later hits the head. */
  ghost predicate SelfHit(b: Body)
    requires Consistent(b)
    ensures b.length <= 3 ==> !SelfHit(b)
  {
    exists x :: 3 <= x < b.length && SnakeCollision(b, x)
  }

  /** The apple is captured in this tick: it is near the head once the snake moved. */
  ghost predicate Captures(s: Session)
    requires Playable(s)
  {
    IsCollision(s.(snake := Advance(s.snake)))
  }

  /** The body after the move and, when the apple is captured, the growth of a tick. */
  ghost function Moved(s: Session): (b: Body)
    requires Playable(s)
    ensures Consistent(b) && b.length >= 1 && b.direction == s.snake.direction
    ensures b.length == if Captures(s) then s.snake.length + 1 else s.snake.length
  {
    if Captures(s) then Grow(Advance(s.snake)) else Advance(s.snake)
  }

  /** What `play` reports: the exception it raises becomes GameOver. */
  datatype Outcome = Continue | Scored | GameOver

  datatype Step = Step(after: Session, outcome: Outcome)

  /** One tick of `Game.play`, with (nx, ny) the apple position drawn for a capture. */
  ghost function Tick(s: Session, nx: int, ny: int): (r: Step)
    requires Playable(s) && InSpawnRange(nx, ny)
    ensures Playable(r.after) && r.after.snake.direction == s.snake.direction
    // a capture respawns the apple in range, grows the snake and scores one point
    ensures Captures(s) ==> r.after.snake.length == s.snake.length + 1 && r.after.score == s.score + 1
    ensures Captures(s) ==> r.after.appleY == ny && (r.outcome != GameOver ==> r.after.appleX == nx)
    ensures Captures(s) && r.outcome != GameOver ==> InSpawnRange(r.after.appleX, r.after.appleY)
    // without one, length, score and apple stay as they were
    ensures !Captures(s) ==> r.after.snake.length == s.snake.length && r.after.score == s.score
    ensures !Captures(s) ==> r.after.appleY == s.appleY && (r.outcome != GameOver ==> r.after.appleX == s.appleX)
    // the game ends exactly when the scan finds a hit
    ensures r.outcome == GameOver <==> SelfHit(Moved(s))
    ensures r.outcome == Scored <==> Captures(s) && !SelfHit(Moved(s))
    ensures r.outcome != GameOver ==> r.after.snake == Moved(s)
    // and then the snake and the apple are moved off screen
    ensures r.outcome == GameOver ==>
      r.after.appleX == OFF_SCREEN &&
      r.after.snake.ycor == Moved(s).ycor &&
      forall i :: 0 <= i < |r.after.snake.xcor| ==> r.after.snake.xcor[i] == OFF_SCREEN
  {
    var b := Moved(s);
    var fed := Captures(s);
    var ax, ay, score := if fed then nx else s.appleX, if fed then ny else s.appleY,
                         if fed then s.score + 1 else s.score;
    if SelfHit(b) then
      Step(Session(b.(xcor := seq(b.length, _ => OFF_SCREEN)), OFF_SCREEN, ay, score), GameOver)
    else
      Step(Session(b, ax, ay, score), if fed then Scored else Continue)
  }

  // ---------------------------------------------------------------------------
  // Input and the mode machine of `Game.run`

  datatype Key = LeftKey | RightKey | UpKey | DownKey | ReturnKey | EscapeKey | OtherKey

  /** The events one `pg.event.get()` can return, as far as the game looks at them. */
  datatype Event = QuitEvent | KeyDown(key: Key) | OtherEvent

  /** One iteration of a loop of `run`: the events polled, and the apple position
      the random generator would draw in it. */
  datatype Frame = Frame(events: seq<Event>, spawnX: int, spawnY: int)

  /** Where `run` is: the intro loop, the play loop with its `pause` flag, or
      ended through `sys.exit()`. */
  datatype Mode = Intro | Playing(pause: bool) | Exited

  datatype App = App(mode: Mode, session: Session)

  predicate IsExit(e: Event)
  {
    e == QuitEvent || e == KeyDown(EscapeKey)
  }

  /** An event that ends the processing of a frame in the play loop. */
  predicate IsStop(e: Event)
  {
    IsExit(e) || e == KeyDown(ReturnKey)
  }

  predicate HasExit(events: seq<Event>)
  {
    QuitEvent in events || KeyDown(EscapeKey) in events
  }

  predicate HasReturn(events: seq<Event>)
  {
    KeyDown(ReturnKey) in events
  }

  /** The arrow keys and the heading each selects. */
  function ArrowDirection(k: Key): (d: Option<Direction>)
    ensures d.None? <==> k in {ReturnKey, EscapeKey, OtherKey}
  {
    match k
    case LeftKey => Some(Left)
    case RightKey => Some(Right)
    case UpKey => Some(Up)
    case DownKey => Some(Down)
    case _ => None
  }

  datatype Option<T> = None | Some(value: T)

  /** The heading after the arrow keys among `events`, starting from `d`. */
  function LastHeading(events: seq<Event>, d: Direction): Direction
  {
    if events == [] then d
    else
      var d' := match events[0]
        case KeyDown(k) => if ArrowDirection(k).Some? then ArrowDirection(k).value else d
        case _ => d;
      LastHeading(events[1..], d')
  }

  /** The events of one intro frame. The loop runs through every event of the
      batch: Quit or Escape end the program at once; Return ends the intro once
      the batch is done; everything else is ignored. */
  function IntroScan(events: seq<Event>, confirmed: bool): (m: Mode)
    ensures m == Exited <==> HasExit(events)
    ensures m == Playing(false) <==> !HasExit(events) && (confirmed || HasReturn(events))
    ensures m == Intro <==> !HasExit(events) && !confirmed && !HasReturn(events)
  {
    if events == [] then (if confirmed then Playing(false) else Intro)
    else if IsExit(events[0]) then Exited
    else IntroScan(events[1..], confirmed || events[0] == KeyDown(ReturnKey))
  }

  /** The index of the first event that ends a play frame, or |events| if none does. */
  function FirstStop(events: seq<Event>): (k: nat)
    ensures k <= |events|
    ensures forall j :: 0 <= j < k ==> !IsStop(events[j])
    ensures k < |events| ==> IsStop(events[k])
  {
    if events == [] then 0
    else if IsStop(events[0]) then 0
    else 1 + FirstStop(events[1..])
  }

  /** What the event loop of a play frame leads to. */
  datatype Dispatch = Proceed(session: Session) | Restart | Leave(session: Session)

  /** The session with a new heading. */
  function Steer(s: Session, d: Direction): (r: Session)
    ensures r.snake == Turn(s.snake, d)
    ensures r.appleX == s.appleX && r.appleY == s.appleY && r.score == s.score
  {
    s.(snake := Turn(s.snake, d))
  }

  /** One event of the play loop: an arrow key sets the heading (also while
      paused), Quit and Escape end the program, Return starts a new game, and
      anything else is ignored. */
  function HandleEvent(s: Session, e: Event): (r: Dispatch)
    ensures r.Restart? <==> e == KeyDown(ReturnKey)
    ensures r.Leave? <==> IsExit(e)
    ensures r.Leave? ==> r.session == s
    ensures r.Proceed? ==> r.session == Steer(s, LastHeading([e], s.snake.direction))
  {
    match e
    case QuitEvent => Leave(s)
    case OtherEvent => Proceed(s)
    case KeyDown(k) =>
      if k == EscapeKey then Leave(s)
      else if k == ReturnKey then Restart
      else if ArrowDirection(k).Some? then Proceed(Steer(s, ArrowDirection(k).value))
      else Proceed(s)
  }

  /** The events of one play frame, handled in order until one of them ends the
      pass; the new game a Return starts runs loops of its own that never hand
      control back to this one. */
  function PlayingEvents(s: Session, events: seq<Event>): (r: Dispatch)
    ensures r.Proceed? <==> FirstStop(events) == |events|
    ensures r.Restart? <==> FirstStop(events) < |events| && events[FirstStop(events)] == KeyDown(ReturnKey)
    ensures r.Leave? <==> FirstStop(events) < |events| && IsExit(events[FirstStop(events)])
    ensures r.Proceed? ==> r.session == Steer(s, LastHeading(events, s.snake.direction))
    ensures r.Leave? ==> r.session == Steer(s, LastHeading(events[..FirstStop(events)], s.snake.direction))
    decreases |events|
  {
    if events == [] then Proceed(s)
    else
      match HandleEvent(s, events[0])
      case Proceed(s') =>
        assert events[1..][..FirstStop(events) - 1] == events[..FirstStop(events)][1..];
        PlayingEvents(s', events[1..])
      case other => other
  }

  /** One iteration of the loop `run` is in. */
  ghost function FrameStep(a: App, f: Frame): (r: App)
    requires Playable(a.session) && InSpawnRange(f.spawnX, f.spawnY)
    ensures Playable(r.session)
    ensures a.mode == Exited ==> r == a
    ensures a.mode == Intro ==> r.session == a.session && r.mode == IntroScan(f.events, false)
    ensures a.mode.Playing? && HasReturn(f.events) && !HasExit(f.events) ==>
      r == App(Intro, Initial(f.spawnX, f.spawnY))
    ensures a.mode.Playing? && FirstStop(f.events) < |f.events| ==>
      (f.events[FirstStop(f.events)] == KeyDown(ReturnKey) ==> r == App(Intro, Initial(f.spawnX, f.spawnY))) &&
      (IsExit(f.events[FirstStop(f.events)]) ==>
         r == App(Exited, Steer(a.session, LastHeading(f.events[..FirstStop(f.events)], a.session.snake.direction))))
    ensures a.mode == Playing(false) && FirstStop(f.events) == |f.events| ==>
      var st := Tick(Steer(a.session, LastHeading(f.events, a.session.snake.direction)), f.spawnX, f.spawnY);
      r == App(Playing(st.outcome == GameOver), st.after)
    ensures a.mode == Playing(true) && FirstStop(f.events) == |f.events| ==>
      r == App(Playing(true), Steer(a.session, LastHeading(f.events, a.session.snake.direction)))
    ensures a.mode == Playing(true) && !HasReturn(f.events) ==>
      r.mode in {Playing(true), Exited} && r.session == Steer(a.session, r.session.snake.direction)
    ensures r.session.score >= a.session.score || r == App(Intro, Initial(f.spawnX, f.spawnY))
    ensures a.session.snake.length >= 2 ==> r.session.snake.length >= 2
  {
    match a.mode
    case Exited => a
    case Intro => App(IntroScan(f.events, false), a.session)
    case Playing(pause) =>
      match PlayingEvents(a.session, f.events)
      case Leave(s) => App(Exited, s)
      case Restart => App(Intro, Initial(f.spawnX, f.spawnY))
      case Proceed(s) =>
        if pause then App(Playing(true), s)
        else
          var st := Tick(s, f.spawnX, f.spawnY);
          App(Playing(st.outcome == GameOver), st.after)
  }

  predicate AllInSpawnRange(frames: seq<Frame>)
  {
    forall i :: 0 <= i < |frames| ==> InSpawnRange(frames[i].spawnX, frames[i].spawnY)
  }

  /** `run` over a sequence of frames. */
  ghost function RunFrames(a: App, frames: seq<Frame>): (r: App)
    requires Playable(a.session) && AllInSpawnRange(frames)
    ensures Playable(r.session)
    decreases |frames|
  {
    if frames == [] then a
    else RunFrames(FrameStep(a, frames[0]), frames[1..])
  }
}
