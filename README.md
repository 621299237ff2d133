# Snake game-state engine, modelled in Dafny

This project models the game-state engine of a Snake game (`Snake/Snake.py`).
A snake moves on a 32 × 24 toroidal grid. It grows by eating food, and the
game ends when its head runs into its own body or into a wall. The model
covers these parts:

- **Coordinates** (`coordinates.dfy`): the grid constants, the `(x, y)` pair
  `Pos`, and the mutable class `Coordinate`. `Move` uses `ChangeValues` and
  `SwapValues` to take one step with wrap-around. The pure function `Moved`
  states the step. Lemmas prove the edge jumps and the ±1 steps, that the
  other axis stays put, and that a direction other than `l`/`r`/`u`/`d` does
  nothing. They also prove that on the grid a step equals "add the offset,
  reduce modulo the width or height", and that the opposite step undoes it.
- **Snake body** (`snakes.dfy`): the class `Snake` holds the head-first list
  of cells. `Position` prepends a moved copy of the head. It then removes the
  first element equal to the old tail value, which is what Python's
  `list.remove` does (`IndexOf`, `RemoveFirst`, `Advanced`). `ExtendTail`
  appends a copy of the tail (`Extended`). `GameOver` is `Collides`. Lemmas
  cover both cases of a move:
  - The usual shift (`AdvancedShifts`).
  - The head landing on the cell the tail is leaving. Then `remove` deletes
    the new head and the body is left unchanged (`AdvancedOntoTail`,
    `TailChaseStalls`).

  Other lemmas show that a move after a growth shifts the grown snake
  (`AdvancedAfterGrowth`) and that a move adds no cell other than the new
  head (`AdvancedWithin`).
- **Food** (`foods.dfy`): the class `Food`. `Generate` is the
  rejection-sampling loop. The random source is the sequence of pairs
  `(random(MAX_X), random(MAX_Y))` it would return. `FirstAcceptable` is the
  index the loop stops at. `Eaten` compares the head with the food.
- **Turns** (`turns.dfy`): `LegalMove`, the rule that a turn must be
  perpendicular to the current heading.
- **Level parsing** (`levels.dfy`): `PrepareDataLevel` and its header loop
  `ReadHeader` are proved equal to the pure `ParseLevel`. The parser is built
  from `Tokens` (`str.split()`), `SplitOn` (`str.split('=')`), `ParseInt`
  (`int()`) and `ParseCoordinate` (`Coordinate(*tokens)`). The three Python
  exceptions become the `LevelError` cases. Round trips proved:
  split/join, `int(str(n)) == n`, and a printed coordinate parsed back.
  `Tokens` is tied to an independent description of a line. A line is its
  words laid out with whitespace runs around and between them (`Layout`).
  `str.split()` returns a list of words exactly when the line is such a
  layout of them (`TokensCharacterized`). So a coordinate parses back
  whatever whitespace surrounds it, including the `"\n"` that `readlines()`
  leaves at the end of a line.
- **Event step** (`game.dfy`): the class `GameState` holds the game's
  globals (direction, snake, food, walls). `ProcessEvent` is proved equal to
  the pure `Step` function. An `arrow` event changes the heading only for a
  legal turn. An `alarm` event (`Tick`) runs position → game-over flag →
  eaten? → regenerate food → extend tail. Lemmas show:
  - A tick keeps the heading and the walls. Only an alarm moves the snake or
    the food.
  - The snake grows by exactly one when it eats, and otherwise keeps its
    length.
  - New food is off the snake and the walls.
  - "The food lies on no snake cell and no wall" is an invariant of settled
    ticks. A tick that ran out of samples leaves the food on the moved head.
  - With an inclusive random source, the snake and the food stay on the
    grid. The walls come from the level file and are not checked.

Where the code does something other than its own comments suggest, the
model follows the code:

- The comment at `Snake/Snake.py:68-69` calls a move "removal of the tail and
  extension of the head". The code at line 73 removes the first element equal
  to the tail, not the last element. So a head that steps onto the tail's
  cell deletes itself, and the snake stays where it was.
- The comment at `Snake/Snake.py:161` refers to the level format in a manual,
  which is not part of this model. The code at lines 168-172 needs two `=`
  characters on the header line (`x y = dir = wx wy`). With fewer parts it
  raises an IndexError, modelled as `MissingPart`, provided the snake part
  before the first `=` parses; otherwise that part's error comes first.
  Parts after the third are ignored (`HeaderExtraParts`).
- The code keeps the spaces around the direction of an `=` line, so
  `x y = R = wx wy` gives the direction `" r "` (`HeaderParts`). The model
  keeps them.
- On game over the code prints, waits and calls `close()`
  (`Snake/Snake.py:206-208`), and does not return after it. What `close()`
  does is outside this model. The model reports `gameOver` and runs the
  statements that follow line 208.
- `legal_move` returns `True` or `None`. The model returns `true` or `false`.

Nothing here has been executed. The claims are what the Dafny verifier
proves about the model.

## Model

| member | source | states |
|---|---|---|
| Coordinates.Coordinate.constructor | Snake/Snake.py:23-25 | a new coordinate holds the given x and y |
| Coordinates.Coordinate.ChangeValues | Snake/Snake.py:27-31 | adds the offsets to x and y and returns the new pair |
| Coordinates.Coordinate.SwapValues | Snake/Snake.py:33-37 | overwrites x and y and returns the new pair |
| Coordinates.Moved | Snake/Snake.py:39-47 | the step move takes; what it does is stated by the Moved lemmas below |
| Coordinates.Coordinate.Move | Snake/Snake.py:39-47 | the coordinate after move is `Moved` of the coordinate before |
| Coordinates.MovedWrapsAtBounds | Snake/Snake.py:39-47 | 'r' from MAX_X gives MIN_X, 'l' from MIN_X gives MAX_X, 'd' from MAX_Y gives MIN_Y, 'u' from MIN_Y gives MAX_Y; the other axis is kept |
| Coordinates.MovedStepsInside | Snake/Snake.py:39-47 | away from the bound it would cross, a step changes its axis by exactly -1 or +1 and nothing else |
| Coordinates.MovedKeepsOtherAxis | Snake/Snake.py:39-47 | 'l'/'r' leave y alone, 'u'/'d' leave x alone, any other string changes nothing |
| Coordinates.MovedIsToroidal | Snake/Snake.py:11-16 | on the grid, a step is the direction's offset reduced modulo 32 and 24, so an in-range coordinate stays in range |
| Coordinates.MovedOppositeUndoes | Snake/Snake.py:39-47 | on the grid, stepping in the opposite direction returns to the start |
| Snakes.IndexOf | Snake/Snake.py:73 | the index list.remove deletes at holds the value and no earlier element does |
| Snakes.RemoveFirst | Snake/Snake.py:73 | list.remove shortens the list by one and removes exactly one copy of the value (multiset) |
| Snakes.Advanced | Snake/Snake.py:67-73 | position keeps the length of the body |
| Snakes.Extended | Snake/Snake.py:81-84 | extend_tail adds one element, equal to the old tail, and keeps all earlier elements |
| Snakes.Collides | Snake/Snake.py:86-89 | game over iff the head equals some later segment or some wall |
| Snakes.Snake.constructor | Snake/Snake.py:51-53 | a new snake holds the given list |
| Snakes.Snake.GetHead | Snake/Snake.py:58-59 | the list is the head followed by the rest |
| Snakes.Snake.GetTail | Snake/Snake.py:61-62 | the list is everything before the tail followed by the tail |
| Snakes.Snake.GameOver | Snake/Snake.py:86-89 | game over iff the head is in the body or in the walls |
| Snakes.Snake.GetBody | Snake/Snake.py:58-65 | the head followed by the body is the whole list |
| Snakes.Snake.Position | Snake/Snake.py:67-73 | the body after position(direction) is `Advanced` of the body before |
| Snakes.Snake.ExtendTail | Snake/Snake.py:81-84 | the body after extend_tail is the old body plus a copy of the old tail |
| Snakes.AdvancedOntoTail | Snake/Snake.py:67-73 | if the moved head equals the old tail, remove deletes the new head and the body is unchanged |
| Snakes.AdvancedShifts | Snake/Snake.py:67-73 | if the moved head differs from the tail and the tail value occurs only at the end, the result is the new head plus the old body without its last cell |
| Snakes.RemoveFirstBehindFront | Snake/Snake.py:72-73 | removing a value that differs from the newly inserted front element leaves that front in place |
| Snakes.AdvancedHead | Snake/Snake.py:67-73 | in general the result is the new head plus the old body with its first tail-equal cell removed (when head and tail differ), and as a multiset it is the new head plus the old body minus one copy of the tail |
| Snakes.AdvancedWithin | Snake/Snake.py:67-73 | every cell after a move is the new head or an old cell |
| Snakes.AdvancedAfterGrowth | Snake/Snake.py:67-84 | a move right after extend_tail drops one tail copy, so the grown snake shifts by one cell |
| Foods.FirstAcceptable | Snake/Snake.py:102-104 | the retry loop stops at the first sample that is new and off snake and walls; all earlier samples were rejected |
| Foods.Acceptable | Snake/Snake.py:103 | the negation of the retry loop's condition: new, not in the snake, not in the walls; used by FirstAcceptable |
| Foods.Food.constructor | Snake/Snake.py:93-94 | a new food holds the given cell |
| Foods.Food.Eaten | Snake/Snake.py:111-115 | eaten iff head and food agree in x and in y |
| Foods.Food.Generate | Snake/Snake.py:99-105 | the food becomes the first acceptable sample; if the samples run out first it is unchanged and found is false |
| Foods.FirstAcceptableIsFree | Snake/Snake.py:99-105 | the generated food differs from the previous food, is not in the snake list and not in the wall list, and is one of the samples |
| Foods.FirstAcceptableInGrid | Snake/Snake.py:102-104 | when every sample is in range, the generated food is in range |
| Foods.FirstAcceptableExhausted | Snake/Snake.py:103-104 | the loop runs past all samples iff none of them is acceptable |
| Turns.LegalMove | Snake/Snake.py:150-155 | legal iff both are among the four directions and exactly one of them is horizontal: l/r while moving u/d, or u/d while moving l/r |
| Turns.NoRepeatNoReversal | Snake/Snake.py:150-155 | repeating the heading or reversing it is never legal |
| Turns.TurnsFromRight | Snake/Snake.py:150-155 | heading 'r', exactly 'u' and 'd' are accepted |
| Turns.LegalTurnLeavesPreviousCell | Snake/Snake.py:150-155 | a reversal brings the head back onto the cell it left; a legal turn never does |
| Levels.WordLength | Snake/Snake.py:178 | the first token of a line is a maximal run of non-whitespace |
| Levels.Tokens | Snake/Snake.py:178 | str.split() yields only non-empty tokens without whitespace |
| Levels.WordTokens | Snake/Snake.py:178 | a single word splits into itself |
| Levels.TokensOfLayout | Snake/Snake.py:178 | str.split() of words laid out with whitespace (non-empty between words) returns exactly those words |
| Levels.LayoutOfTokens | Snake/Snake.py:178 | every line is the layout of its tokens with its own whitespace runs as the gaps |
| Levels.TokensCharacterized | Snake/Snake.py:178 | split() returns ws iff every element of ws is a word and the line is a layout of ws |
| Levels.BlankTokens | Snake/Snake.py:178 | leading whitespace does not change what split() returns |
| Levels.WordThen | Snake/Snake.py:178 | a word followed by nothing or by whitespace is the first token, and split() continues on the rest |
| Levels.ReadLineExample | Snake/Snake.py:138 | the line `"3 4\n"` as readlines() delivers it parses to the cell (3, 4) |
| Levels.SplitOn | Snake/Snake.py:169 | split('=') gives at least one part, exactly one iff the line has no '=', and no part contains '=' |
| Levels.SplitJoin | Snake/Snake.py:169 | joining the parts with '=' gives the line back |
| Levels.JoinSplit | Snake/Snake.py:169 | splitting a join of '='-free parts gives the parts back |
| Levels.NatDigitsValue | Snake/Snake.py:24-25 | the decimal digits of n read back as n |
| Levels.ParseShow | Snake/Snake.py:24-25 | int(str(n)) == n for every integer, negative ones included |
| Levels.CoordinateRoundTrip | Snake/Snake.py:178-180 | str(x) and str(y) laid out with any leading, separating and trailing whitespace parse back to the cell (x, y) |
| Levels.ParseInt | Snake/Snake.py:24-25 | int() succeeds iff the token is digits after at most one sign, with the value the sign applied to the digits' decimal value; otherwise ValueError |
| Levels.ParseCoordinate | Snake/Snake.py:178-179 | Coordinate(*line.split()) succeeds iff the line has exactly two tokens and int() accepts both; TypeError iff the count is not two, never IndexError; the fields are int() of the two tokens |
| Levels.ParseAll | Snake/Snake.py:182-184 | the line-by-line coordinate loop; its meaning is the subject of ParseAllPointwise and ParseAllFirstFailure |
| Levels.Lower | Snake/Snake.py:171 | lower() keeps the length, maps each capital to the lower-case letter at the same place in the alphabet and keeps every other character |
| Levels.LowerDirections | Snake/Snake.py:171 | "L", "R", "U", "D" fold to the direction letters, which stay as they are |
| Levels.HeadLines | Snake/Snake.py:167 | level[:2] has up to two lines, and level[:2] + level[2:] is the whole level |
| Levels.RestLines | Snake/Snake.py:182 | level[2:], the lines after the first two; its relation to the header lines is stated by HeadLines |
| Levels.DigitsValue | Snake/Snake.py:24-25 | the decimal value int() gives a digit string; NatDigitsValue and ParseShow tie it to str() |
| Levels.ParseHeader | Snake/Snake.py:168-175 | an '=' line succeeds iff it has at least three parts and parts[0] and parts[2] are coordinates, giving snake = parts[0], direction = lower(parts[1]), wall = parts[2]; a bad parts[0] raises its own error first, then too few parts is an IndexError, then a bad parts[2] raises its error |
| Levels.HeaderExtraParts | Snake/Snake.py:168-175 | parts after the third are ignored: "x = d = w = more" parses as "x = d = w" |
| Levels.HeaderLevel | Snake/Snake.py:167-180 | the result of the header loop; what it means is stated by LevelSnakeAndDirection and LevelErrors |
| Levels.ParseLevel | Snake/Snake.py:158-186 | the whole of prepare_data_level as a function; its walls, snake, direction and errors are stated by LevelWalls, LevelSnakeAndDirection and LevelErrors |
| Levels.HeaderEnd | Snake/Snake.py:167-168 | the index of the first header line holding '=', with none before it |
| Levels.ParseAllSnoc | Snake/Snake.py:182-184 | one more good line appends its coordinate to the parsed list |
| Levels.ParseAllFirstFailure | Snake/Snake.py:182-184 | the first malformed line decides the error |
| Levels.ParseAllPointwise | Snake/Snake.py:182-184 | a list of lines parses iff every line does, and then the coordinates come in line order |
| Levels.ReadHeader | Snake/Snake.py:167-180 | the header loop, break included, computes `HeaderLevel` |
| Levels.PrepareDataLevel | Snake/Snake.py:158-186 | the two loops compute `ParseLevel`, including its errors |
| Levels.LevelWalls | Snake/Snake.py:172-184 | walls are the '=' line's wall, if any, followed by one wall per line from index 2 on, in file order |
| Levels.LevelSnakeAndDirection | Snake/Snake.py:164-180 | the snake is the lines before the first '=' line, in order, plus that line's cell; the direction is that line's lower-cased middle part, or '' when no '=' line occurs |
| Levels.LevelErrors | Snake/Snake.py:167-184 | parsing fails iff a line that is read is not two integer tokens, or the '=' line has fewer than three parts or a bad cell |
| Levels.HeaderParts | Snake/Snake.py:168-175 | an '=' line "x = d = w" gives cell x, direction lower(d) with its spaces, and wall w |
| Game.GameState.constructor | Snake/Snake.py:190-194 | the state holds the given direction, snake, food and walls |
| Game.GameState.ProcessEvent | Snake/Snake.py:189-212 | the new state and the flags are those of `Step` on the old state; only an alarm needs a non-empty snake, and validity is kept |
| Game.Tick | Snake/Snake.py:200-212 | a tick keeps the heading and the walls; an unsettled tick keeps the food and the length |
| Game.Step | Snake/Snake.py:189-212 | an event keeps the walls; any event other than an alarm leaves snake and food alone and raises no flag |
| Game.TickBasics | Snake/Snake.py:200-205 | a tick reports game over iff the moved head is on a later segment or a wall |
| Game.TickFeeding | Snake/Snake.py:209-212 | eating with a place found grows the moved snake by one tail copy and puts new food off the moved snake and walls; otherwise the length and the food are kept |
| Game.TickKeepsFoodFree | Snake/Snake.py:200-212 | food off snake and walls before a settled tick stays off them after it |
| Game.TickStaysOnGrid | Snake/Snake.py:200-212 | with in-range samples, snake and food stay on the grid |
| Game.ArrowStep | Snake/Snake.py:196-198 | an arrow event sets the direction iff the turn is legal; repeats and reversals change nothing |
| Game.AlarmStep | Snake/Snake.py:196-200 | an alarm event is one tick, and an event named neither alarm nor arrow changes nothing |
| Game.DefaultFirstTick | Snake/Snake.py:18-19 | from [(1,0),(0,0)] heading 'r', one tick gives [(2,0),(1,0)] |
| Game.WrapTick | Snake/Snake.py:200-204 | a head at (31,0) heading 'r' wraps to (0,0) |
| Game.TailChaseStalls | Snake/Snake.py:67-73 | a head stepping onto its tail's cell leaves the whole state unchanged |
| Game.SelfCollisionTick | Snake/Snake.py:204-205 | a head turned into its own body sets the game-over flag |

## Left out

- All drawing and interface calls: `ui.place`, `clear`, `show`, `wait`,
  `close`, `get_event`, `set_animation_speed`, the `place` methods of Snake,
  Food and Walls, and `Food.remove`. They draw, pause, fetch events or end the session, and the interface code
  is not part of this model.
- `print('GAME OVER')` is console output. Game over is a returned flag.
- `read_file`, the start-up script and the endless event loop are left out.
  They are file I/O and process control.
- The `Walls` class is a plain sequence of cells. It is never changed after
  start-up.
- `change_direction` is never called by the code that is modelled.
- `Snake.get_coordinates` is a field read. `Food.get_coordinates`
  (`Snake/Snake.py:96-97`) builds a new `Coordinate` from the food pair
  through `int()`. On the integer pairs the model holds, that gives the pair
  itself, so `Eaten` compares the fields directly.
- Randomness: each call of `generate` gets the finite sequence of samples
  the random source would return. If none of them is acceptable, the
  source's loop would keep drawing; the model reports `found == false`
  (`settled == false` for a tick) and leaves the food unchanged.
- Foods.FirstAcceptableInGrid: the model does not enforce that samples lie in
  `[0, MAX]`. The lemma assumes it, as the interface's contract promises.
- Snakes.Snake.Position: requires a non-empty snake. On an empty list Python
  raises IndexError from `get_head`. The model does not cover that crash.
- Snakes.Snake.ExtendTail: requires a non-empty snake for the same reason
  (`get_tail`).
- Game.Tick: requires a non-empty snake, because `position` is its first step.
- Game.Step: requires a non-empty snake only for an `alarm` event. An empty
  snake, which a level without snake lines gives, stays allowed for every
  other event, as in the source.
- Game.GameState.ProcessEvent: requires `Valid()` (a non-empty snake) only for
  an `alarm` event, and keeps `Valid()` as it was.
- Levels.ParseInt: it accepts only an optional sign and ASCII digits. Python's
  `int()` also accepts underscores between digits, non-ASCII decimal digits
  and surrounding whitespace. Tokens never carry whitespace.
- Levels.Lower: it folds only ASCII letters. Python's `str.lower()` covers
  all of Unicode.
- Levels.ReadHeader: this is the first loop of `prepare_data_level`, written
  as a separate method so that each loop is verified on its own.
