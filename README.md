# Snake game logic in Dafny

A model of the game logic of a single-file snake game written for pygame
(`Snake_Pygame.py`), with the drawing taken out. What remains is a small
integer state machine:

- the **snake** (`Snake`): two parallel coordinate lists `xcor`/`ycor`, a
  `length` and a `direction`. `default_movement` shifts every segment into its
  predecessor's cell, from the tail down to index 1, then moves the head one
  `SIZE` (30 pixel) step along the heading. `increment_length` appends the
  fixed cell (30, 30). The four `move_*` methods only set the heading, with no
  guard against reversing;
- the **apple** (`Apple`), drawn in [30, 730] × [50, 550], and the **score**
  (`GameText.score_value`);
- the two **collision tests** (`Game.is_collision`, `Game.snake_collision`):
  Euclidean distance below 30, stated here on integers as
  `dx*dx + dy*dy < 900`;
- the **tick** (`Game.play`): move; on a capture respawn the apple, grow and
  score; then scan segments 3 .. length-1 for a hit on the head, and on a hit
  move every x coordinate and the apple's x to 2000 and end the game. The
  exception the game raises for this is the `GameOver` outcome here;
- the **loops of `Game.run`**: the intro loop (left on Return, ended by Quit
  or Escape) and the play loop (arrow keys set the heading, Return starts a
  new game, Quit or Escape end the program, and a tick runs each iteration
  until a game over sets `pause`).

Layout:

- `geometry.dfy` (module `Geometry`): the constants, `Direction`, the distance
  test `Near` and its properties (axis bound, Manhattan bound, and on the SIZE
  grid the test is exact cell equality).
- `rules.dfy` (module `Rules`): the game as values. `Body` and `Session` are
  snapshots of the objects; `Advance`, `Grow`, `Turn`, `Tick`, `IntroScan`,
  `PlayingEvents`, `FrameStep` and `RunFrames` say what each step does.
- `snake_pygame.dfy` (module `SnakePygame`): the classes `Snake`, `Apple`,
  `GameText` and `Game` with the fields the game updates in place. Every
  method is proved to produce the snapshot that the matching function of
  `Rules` computes: `DefaultMovement` runs the same descending loop as the
  game, `Play` the same scan, `Run` the same event loops.
- `properties.dfy` (module `Properties`): lemmas over the rules: the grid
  invariant, when a tick ends the game, single-tick scenarios, and what runs
  of frames keep (score not decreasing, state frozen after a game over, the
  intro left only on Return, length at least 2).

The inputs the game takes from its environment are parameters: each `Frame`
holds the batch of events one `pg.event.get()` returns and the apple position
that `random.randint` would draw in that iteration, required to lie in the
spawn range.

Behaviour of the code that a reader might not expect, and that the model keeps:

- `increment_length` appends (30, 30), not a copy of the tail. That cell is
  part of the self-collision scan in the same tick, so a snake of length 3 or
  more that eats while its head lands on (30, 30) ends the game at once
  (`Properties.GrowthOnStartCellEndsGame`). A snake of length 2, or of length 3
  that does not eat, can never end the game in one tick
  (`Properties.ShortSnakeSurvives`); a length-3 snake that eats can.
- Return in the play loop starts a new `Game` whose `run` begins with its own
  intro; that happens whether or not the game is over, and the rest of the old
  loop never runs again. The model replaces the snake, apple and score with
  fresh ones, goes to the intro, and drops the rest of that frame's events.
- Escape ends the program in every loop; there is no separate "cancel".
- The docstring of `run` (Snake_Pygame.py:210) sits at the same indentation
  as `def run(self):` (line 209), so the file as written does not parse; the
  model follows the evidently intended indentation, with the docstring inside
  `run`.
- After a game over the arrow keys still set the snake's heading, because the
  play loop handles them before it checks `pause`; cells, length, apple and
  score stay frozen.

## Model

| member | source | states |
|---|---|---|
| Rules.NewBody | Snake_Pygame.py:13-19 | a new snake has `length` segments, all on (30, 30), heading down, lists as long as `length` |
| SnakePygame.Snake.constructor | Snake_Pygame.py:13-19 | the constructed snake is consistent and equals `NewBody(length)` |
| Rules.Turn | Snake_Pygame.py:29-51 | setting the heading changes only the heading, to the given value, whatever it was (reversal allowed) |
| SnakePygame.Snake.MoveLeft | Snake_Pygame.py:29-32 | heading becomes left; coordinates and length unchanged |
| SnakePygame.Snake.MoveRight | Snake_Pygame.py:35-38 | heading becomes right; coordinates and length unchanged |
| SnakePygame.Snake.MoveUp | Snake_Pygame.py:41-44 | heading becomes up; coordinates and length unchanged |
| SnakePygame.Snake.MoveDown | Snake_Pygame.py:47-51 | heading becomes down; coordinates and length unchanged |
| Rules.Advance | Snake_Pygame.py:54-68 | every segment i >= 1 takes the old cell of segment i-1; the head moves exactly 30 along the heading axis (left x-30, right x+30, up y-30, down y+30) and keeps the other coordinate; length and heading unchanged |
| SnakePygame.Snake.DefaultMovement | Snake_Pygame.py:54-68 | the in-place descending shift loop and head update leave the snake equal to `Advance` of its old value and keep `length == |xcor| == |ycor|` |
| Rules.Grow | Snake_Pygame.py:75-80 | length grows by exactly 1, the earlier entries are unchanged, and the new last entry is (30, 30) |
| SnakePygame.Snake.IncrementLength | Snake_Pygame.py:75-80 | the snake becomes `Grow` of its old value and stays consistent |
| SnakePygame.Apple.constructor | Snake_Pygame.py:85-89 | the apple is placed at the drawn position, which lies in [30,730] x [50,550] |
| SnakePygame.GameText.constructor | Snake_Pygame.py:98-100 | the score starts at 0 |
| Rules.Initial | Snake_Pygame.py:153-163 | a new game: length 2, `xcor == ycor == [30, 30]`, heading down, score 0, apple at the drawn position, on the grid |
| SnakePygame.Game.constructor | Snake_Pygame.py:153-163 | the constructed game's state equals `Initial` of the drawn apple position |
| Geometry.SquaredDistance | Snake_Pygame.py:166-180 | the squared distance under the square root is never negative, and is zero exactly when the two points coincide |
| Geometry.Near | Snake_Pygame.py:166-180 | the test `distance < 30`: a point always collides with itself, and a point exactly 30 away along one axis never does (the bound is strict) |
| Rules.IsCollision | Snake_Pygame.py:166-171 | the apple test on the head: an apple on the head's cell is caught, one exactly 30 pixels off along an axis is not |
| Rules.SnakeCollision | Snake_Pygame.py:174-180 | segment `x` against the head: index 0, or any segment on the head's cell, collides; one exactly 30 pixels off in x does not |
| Rules.SelfHit | Snake_Pygame.py:199-205 | the scan `range(3, length)` finds a hit; a snake of length 3 or less can never hit itself, as the range is empty |
| Geometry.NearWithinBox | Snake_Pygame.py:166-180 | a distance below 30 means both axis differences are below 30; so a point exactly 30 away along an axis does not collide |
| Geometry.NearWhenManhattanClose | Snake_Pygame.py:166-180 | two points whose axis differences add up to less than 30 always collide |
| Geometry.GridNearIffSame | Snake_Pygame.py:166-180 | for points on the 30-pixel grid, the distance test holds exactly when the two points are the same cell |
| Properties.SelfHitOnGrid | Snake_Pygame.py:174-180 | on the grid, the scan over indices 3..length-1 with `snake_collision` finds a hit iff some such segment is on the head's cell |
| Rules.Tick | Snake_Pygame.py:183-206 | one tick: on a capture the apple moves into [30,730] x [50,550], length and score grow by 1; without one they stay; GameOver iff the scan from index 3 hits, and then every x and the apple's x are 2000; Scored iff captured without a hit; heading unchanged; score never decreases |
| SnakePygame.Game.Play | Snake_Pygame.py:183-206 | the in-place tick (move, capture, scan loop, off-screen move) leaves the game in the state and with the outcome that `Tick` gives |
| Properties.AdvanceKeepsGrid | Snake_Pygame.py:57-68 | moving keeps every coordinate a multiple of 30 |
| Properties.GrowKeepsGrid | Snake_Pygame.py:78-80 | growing keeps every coordinate a multiple of 30 |
| Properties.MovedKeepsGrid | Snake_Pygame.py:184-195 | the move and growth of a tick keep the snake on the grid |
| Properties.TickGameOverIffOverlap | Snake_Pygame.py:199-205 | for a snake on the grid a tick ends the game iff after moving and growing a segment at index >= 3 shares the head's cell |
| Properties.ShortSnakeSurvives | Snake_Pygame.py:199 | a snake of length 2, or of length 3 that does not eat, never ends the game in one tick |
| Properties.GrowthOnStartCellEndsGame | Snake_Pygame.py:192-205 | a snake of length >= 3 that eats while its head lands on (30, 30) ends the game in that tick, because the appended (30, 30) segment is scanned |
| Properties.FirstTickMovesDown | Snake_Pygame.py:57-68 | the first tick of a new game without capture puts the head on (30, 60) and segment 1 on (30, 30), score 0, outcome Continue |
| Properties.FirstTickScores | Snake_Pygame.py:192-196 | the first tick with the apple in reach gives Scored, score 1, length 3, apple at the newly drawn position |
| Properties.CurledSnakeBitesItself | Snake_Pygame.py:199-205 | a length-6 snake whose head moves onto segment 4's new cell ends the game, and the play loop becomes paused |
| Rules.IntroScan | Snake_Pygame.py:213-225 | an intro frame exits iff it holds Quit or Escape; otherwise it moves to play iff it holds Return, and stays in the intro otherwise |
| SnakePygame.Game.IntroFrame | Snake_Pygame.py:214-225 | the intro's event loop returns the mode `IntroScan` gives |
| Rules.FirstStop | Snake_Pygame.py:231-255 | the index of the first Quit, Escape or Return of a batch: none before it, and it is one of those if it exists |
| Rules.HandleEvent | Snake_Pygame.py:232-255 | one play-loop event: Return restarts, Quit or Escape exit with the state unchanged, and anything else proceeds with only the heading changed, to the arrow key's direction if it is one |
| SnakePygame.Game.HandleEvent | Snake_Pygame.py:232-255 | handling one event in place (the `move_*` call, the restart or the exit) gives the state and the stop signal `Rules.HandleEvent` gives |
| SnakePygame.Game.HandleEvents | Snake_Pygame.py:231-255 | the loop over a frame's events stops at the first Quit, Escape or Return and otherwise reaches the state `PlayingEvents` gives |
| Rules.PlayingEvents | Snake_Pygame.py:231-255 | a play frame's events proceed iff none is Quit, Escape or Return, and then only the heading changes, to the last arrow key's; a restart iff the first such event is Return; an exit iff it is Quit or Escape |
| SnakePygame.Game.Restart | Snake_Pygame.py:249-251 | Return replaces the game's objects with fresh ones in the `Initial` state |
| Rules.FrameStep | Snake_Pygame.py:213-263 | one loop iteration: exited stays exited; an intro frame changes only the mode; in play the first Quit, Escape or Return decides: Return restarts into the intro even when an exit follows it, Quit or Escape exits with the heading of the arrows before it; a play frame with no Return and no exit takes the last arrow heading, then an unpaused one runs one `Tick` and pauses exactly on a game over while a paused one stays paused; a paused frame without Return changes at most the heading and stays paused or exits; the score never decreases except by a restart; length stays >= 2 |
| SnakePygame.Game.PlayingFrame | Snake_Pygame.py:229-263 | the play loop's iteration (event loop, then a tick unless paused, pause set on a game over) gives the mode and state `FrameStep` gives |
| Rules.RunFrames | Snake_Pygame.py:209-263 | the run loop as the frame-by-frame fold of `FrameStep`; a playable session stays playable through every frame |
| SnakePygame.Game.Run | Snake_Pygame.py:209-263 | running from the intro over a sequence of frames ends in the mode and state `RunFrames` gives, keeping the snake consistent |
| Properties.ExitedStays | Snake_Pygame.py:217-223 | after Quit or Escape nothing changes any more |
| Properties.ScoreNeverDecreases | Snake_Pygame.py:192-196 | over any run without Return the score never decreases |
| Properties.FrozenAfterGameOver | Snake_Pygame.py:258-263 | once `pause` is set and until a Return, cells, length, apple and score are frozen, only the heading may change, and the loop stays paused or exits |
| Properties.IntroWaitsForReturn | Snake_Pygame.py:213-225 | over any run without Return the intro is never left for play and the game is untouched |
| Properties.ReplayStartsAfresh | Snake_Pygame.py:249-251 | after a game over, Return and then Return in the new intro give a live game with score 0 and length 2 |
| Properties.FrameKeepsGrid | Snake_Pygame.py:229-263 | while the game is live (intro or unpaused play) the snake stays on the 30-pixel grid after a frame |
| Properties.RunKeepsGrid | Snake_Pygame.py:229-263 | the same over any run of frames |
| Properties.RunKeepsLength | Snake_Pygame.py:75-80 | the snake never gets shorter than 2 over any run that starts with at least 2 segments |

## Left out

- Drawing: `draw_snake`, `draw_apple`, `display_score`, `display_game_over`, `intro_screen`, the `blit`/`fill` calls, fonts, images, the window icon and `pg.display.*`; none of them changes game state.
- Timing: `time.sleep(0.2)` and `clock.tick(120)`; the model counts loop iterations (frames), not time.
- `pg.quit()` and `sys.exit()`: the program's end is the mode `Exited`, after which nothing changes.
- The random generator: every frame brings the apple position it would draw, required to lie in the spawn range.
- Floating point: `sqrt(d) < 30` is modelled as `d < 900` on the exact integer `d`, which is exactly `sqrt(d) < 30` for every integer `d` the conversion to a float accepts: values near 900 are exact, and rounding a large value cannot bring its root below 30. An integer too large for a float would raise `OverflowError`, which the `except Exception` of the play loop would turn into a game over; no reachable coordinate gets there.
- Recursion of restart: the nested `Game().run()` that never returns is modelled as replacing the game's objects with fresh ones and continuing in the intro.
- The unused parameters of `is_collision` and `snake_collision`, and the unreachable `break` after `raise`.
- Event types other than quit and key presses, and keys other than the arrows, Return and Escape, are one `OtherEvent` / `OtherKey` each, which every loop ignores.
- `GameText` layout constants (font sizes and text positions): presentation only.
