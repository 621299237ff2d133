/**
 * One step of the game loop (process_event in Snake/Snake.py), without
 * its drawing calls: an arrow event may change the heading, an alarm
 * event moves the snake, checks for a collision and feeds it.
 */
module Game {
  import opened Coordinates
  import opened Snakes
  import opened Foods
  import opened Turns

  /** The game's global variables: heading, snake body, food and walls. */
  datatype State = State(direction: string, snake: seq<Pos>, food: Pos, walls: seq<Pos>)

  /** An event as the interface delivers it: a name ("arrow", "alarm", ...) and its data. */
  datatype Event = Event(name: string, data: string)

  /**
   * The state after an event, whether the collision check fired, and
   * whether the step finished: it does not when the food had to be placed
   * again and the random samples ran out first (the source keeps drawing).
   */
  datatype Outcome = Outcome(state: State, gameOver: bool, settled: bool)

  /** The alarm branch: position, game_over, eaten, generate, extend_tail. */
  function Tick(st: State, samples: seq<Pos>): (r: Outcome)
    requires st.snake != []
    ensures r.state.direction == st.direction && r.state.walls == st.walls
    ensures !r.settled ==> r.state.food == st.food && |r.state.snake| == |st.snake|
  {
    var moved := Advanced(st.snake, st.direction);
    var over := Collides(moved, st.walls);
    if st.food == moved[0] then
      var k := FirstAcceptable(samples, st.food, moved, st.walls);
      if k < |samples| then Outcome(st.(snake := Extended(moved), food := samples[k]), over, true)
      else Outcome(st.(snake := moved), over, false)
    else Outcome(st.(snake := moved), over, true)
  }

  /** process_event: the arrow branch, then the alarm branch. */
  function Step(st: State, event: Event, samples: seq<Pos>): (r: Outcome)
    requires event.name == "alarm" ==> st.snake != []
    ensures r.state.walls == st.walls
    ensures event.name != "alarm" ==> r.state.snake == st.snake && r.state.food == st.food && !r.gameOver && r.settled
  {
    var turned := if event.name == "arrow" && LegalMove(event.data, st.direction)
                  then st.(direction := event.data) else st;
    if event.name == "alarm" then Tick(turned, samples) else Outcome(turned, false, true)
  }

  /** The food sits on no snake segment and no wall. */
  predicate FoodFree(st: State) {
    st.food !in st.snake && st.food !in st.walls
  }

  predicate AllInGrid(cells: seq<Pos>) {
    forall i :: 0 <= i < |cells| ==> InGrid(cells[i])
  }

  /** The global state of a running game, updated in place by process_event. */
  class GameState {
    var direction: string
    const snake: Snake
    const food: Food
    const walls: seq<Pos>

    ghost predicate Valid()
      reads this, snake
    {
      snake.Valid()
    }

    constructor (direction: string, snake: Snake, food: Food, walls: seq<Pos>)
      ensures this.direction == direction && this.snake == snake && this.food == food && this.walls == walls
    {
      this.direction := direction;
      this.snake := snake;
      this.food := food;
      this.walls := walls;
    }

    function Current(): State
      reads this, snake, food
    {
      State(direction, snake.coordinates, food.food, walls)
    }

    method ProcessEvent(event: Event, samples: seq<Pos>) returns (over: bool, settled: bool)
      requires event.name == "alarm" ==> Valid()
      modifies this, snake, food
      ensures Valid() == old(Valid())
      ensures Outcome(Current(), over, settled) == Step(old(Current()), event, samples)
    {
      over, settled := false, true;
      if event.name == "arrow" {
        if LegalMove(event.data, direction) {
          direction := event.data;
        }
      }
      if event.name == "alarm" {
        snake.Position(direction);
        over := snake.GameOver(walls);
        if food.Eaten(snake.GetHead()) {
          settled := food.Generate(samples, snake.coordinates, walls);
          if settled {
            snake.ExtendTail();
          }
        }
      }
    }
  }

  /**
   * A tick moves the snake first, and reports game over exactly when the
   * moved head lies on a later segment or a wall.
   */
  lemma TickBasics(st: State, samples: seq<Pos>)
    requires st.snake != []
    ensures var out := Tick(st, samples);
            var moved := Advanced(st.snake, st.direction);
            out.gameOver <==> moved[0] in moved[1..] || moved[0] in st.walls
  {
  }

  /**
   * Eating: when the moved head is on the food and a new place is found,
   * the snake grows by exactly one copy of its tail and the new food is
   * new, off the moved snake and off the walls. In every other case the
   * length is unchanged.
   */
  lemma TickFeeding(st: State, samples: seq<Pos>)
    requires st.snake != []
    ensures var out := Tick(st, samples);
            var moved := Advanced(st.snake, st.direction);
            var ate := st.food == moved[0] && out.settled;
            |out.state.snake| == |st.snake| + (if ate then 1 else 0)
            && (ate ==> out.state.snake == moved + [moved[|moved| - 1]]
                        && out.state.food != st.food && out.state.food !in moved
                        && out.state.food !in st.walls)
            && (!ate ==> out.state.snake == moved)
            && (st.food != moved[0] ==> out.state.food == st.food && out.settled)
  {
    var moved := Advanced(st.snake, st.direction);
    if st.food == moved[0] {
      var k := FirstAcceptable(samples, st.food, moved, st.walls);
      if k < |samples| {
        FirstAcceptableIsFree(samples, st.food, moved, st.walls);
      }
    }
  }

  /**
   * The placement rule is an invariant: if the food is off the snake and
   * the walls before a tick, it is so after the tick too.
   */
  lemma TickKeepsFoodFree(st: State, samples: seq<Pos>)
    requires st.snake != [] && FoodFree(st)
    requires Tick(st, samples).settled
    ensures FoodFree(Tick(st, samples).state)
  {
    var moved := Advanced(st.snake, st.direction);
    var out := Tick(st, samples);
    if st.food == moved[0] {
      var k := FirstAcceptable(samples, st.food, moved, st.walls);
      FirstAcceptableIsFree(samples, st.food, moved, st.walls);
      assert out.state.snake == moved + [moved[|moved| - 1]];
    } else if st.food in moved {
      AdvancedWithin(st.snake, st.direction, st.food);
      assert false;
    }
  }

  /** With an inclusive random source, a tick keeps every snake cell and the food on the grid. */
  lemma TickStaysOnGrid(st: State, samples: seq<Pos>)
    requires st.snake != [] && AllInGrid(st.snake) && InGrid(st.food)
    requires AllInGrid(samples)
    ensures AllInGrid(Tick(st, samples).state.snake) && InGrid(Tick(st, samples).state.food)
  {
    var moved := Advanced(st.snake, st.direction);
    MovedIsToroidal(st.snake[0], st.direction);
    forall i | 0 <= i < |moved|
      ensures InGrid(moved[i])
    {
      AdvancedWithin(st.snake, st.direction, moved[i]);
    }
    if st.food == moved[0] {
      var k := FirstAcceptable(samples, st.food, moved, st.walls);
      if k < |samples| {
        FirstAcceptableInGrid(samples, st.food, moved, st.walls);
      }
    }
  }

  /**
   * An arrow event changes only the heading, and only to a perpendicular
   * one; a repeat or a reversal leaves the state as it was.
   */
  lemma ArrowStep(st: State, d: string, samples: seq<Pos>)
    ensures var out := Step(st, Event("arrow", d), samples);
            out.state == (if LegalMove(d, st.direction) then st.(direction := d) else st)
            && !out.gameOver && out.settled
            && (d == st.direction || d == Opposite(st.direction) ==> out.state == st)
  {
    NoRepeatNoReversal(st.direction);
  }

  /** An alarm event is exactly one tick; an event named neither alarm nor arrow changes nothing. */
  lemma AlarmStep(st: State, event: Event, samples: seq<Pos>)
    requires event.name == "alarm" ==> st.snake != []
    ensures event.name == "alarm" ==> Step(st, event, samples) == Tick(st, samples)
    ensures event.name != "alarm" && event.name != "arrow" ==> Step(st, event, samples) == Outcome(st, false, true)
  {
  }

  /** The default start, snake [(1,0),(0,0)] heading right: one tick shifts it one cell. */
  lemma DefaultFirstTick(food: Pos, samples: seq<Pos>)
    requires food != Pos(2, 0)
    ensures Tick(State("r", [Pos(1, 0), Pos(0, 0)], food, []), samples)
            == Outcome(State("r", [Pos(2, 0), Pos(1, 0)], food, []), false, true)
  {
    AdvancedShifts([Pos(1, 0), Pos(0, 0)], "r");
  }

  /** A head on the right edge heading right wraps to the left edge. */
  lemma WrapTick(food: Pos, samples: seq<Pos>)
    requires food != Pos(0, 0)
    ensures Tick(State("r", [Pos(MaxX, 0), Pos(MaxX - 1, 0)], food, []), samples).state.snake
            == [Pos(0, 0), Pos(MaxX, 0)]
  {
    AdvancedShifts([Pos(MaxX, 0), Pos(MaxX - 1, 0)], "r");
  }

  /**
   * A head that steps onto the cell its tail occupies stays where it is:
   * list.remove deletes the new head, so the tick leaves the body as it was.
   */
  lemma TailChaseStalls(food: Pos, samples: seq<Pos>)
    requires food != Pos(1, 0)
    ensures var square := [Pos(1, 0), Pos(1, 1), Pos(0, 1), Pos(0, 0)];
            Tick(State("l", square, food, []), samples) == Outcome(State("l", square, food, []), false, true)
  {
    AdvancedOntoTail([Pos(1, 0), Pos(1, 1), Pos(0, 1), Pos(0, 0)], "l");
  }

  /** A head turned into its own body ends the game. */
  lemma SelfCollisionTick(food: Pos, samples: seq<Pos>)
    ensures Tick(State("d", [Pos(1, 0), Pos(2, 0), Pos(2, 1), Pos(1, 1), Pos(0, 1)], food, []), samples).gameOver
  {
    AdvancedShifts([Pos(1, 0), Pos(2, 0), Pos(2, 1), Pos(1, 1), Pos(0, 1)], "d");
  }
}
