/**
 * The single food item and its placement by rejection sampling
 * (class Food of Snake/Snake.py). The random source is given as the
 * sequence of pairs (random(MaxX), random(MaxY)) it would hand out.
 */
module Foods {
  import opened Coordinates

  /** A candidate is kept when it is new and lies on neither the snake nor a wall. */
  predicate Acceptable(candidate: Pos, previous: Pos, snake: seq<Pos>, walls: seq<Pos>) {
    candidate != previous && candidate !in snake && candidate !in walls
  }

  /**
   * Index of the sample the retry loop settles on: the first acceptable
   * one, or |samples| when the supply runs out first.
   */
  function FirstAcceptable(samples: seq<Pos>, previous: Pos, snake: seq<Pos>, walls: seq<Pos>): (k: nat)
    ensures k <= |samples|
    ensures forall j :: 0 <= j < k ==> !Acceptable(samples[j], previous, snake, walls)
    ensures k < |samples| ==> Acceptable(samples[k], previous, snake, walls)
  {
    if samples == [] then 0
    else if Acceptable(samples[0], previous, snake, walls) then 0
    else 1 + FirstAcceptable(samples[1..], previous, snake, walls)
  }

  class Food {
    var food: Pos

    constructor (food: Pos)
      ensures this.food == food
    {
      this.food := food;
    }

    /** eaten: the head and the food agree on both components. */
    function Eaten(head: Pos): (r: bool)
      reads this
      ensures r <==> head.x == food.x && head.y == food.y
    {
      food == head
    }

    /**
     * generate: draw candidates until one is acceptable and make it the
     * food. found is false when the samples run out first; the food is
     * then unchanged (the source would still be drawing).
     */
    method Generate(samples: seq<Pos>, snake: seq<Pos>, walls: seq<Pos>) returns (found: bool)
      modifies this
      ensures found <==> FirstAcceptable(samples, old(food), snake, walls) < |samples|
      ensures found ==> food == samples[FirstAcceptable(samples, old(food), snake, walls)]
      ensures !found ==> food == old(food)
    {
      if |samples| == 0 {
        return false;
      }
      var i := 0;
      var newFood := samples[0];
      while newFood == food || newFood in snake || newFood in walls
        invariant 0 <= i < |samples| && newFood == samples[i]
        invariant food == old(food)
        invariant forall j :: 0 <= j < i ==> !Acceptable(samples[j], food, snake, walls)
        decreases |samples| - i
      {
        i := i + 1;
        if i == |samples| {
          return false;
        }
        newFood := samples[i];
      }
      food := newFood;
      found := true;
    }
  }

  /** A settled draw is new, off the snake and off the walls, and is one of the samples. */
  lemma FirstAcceptableIsFree(samples: seq<Pos>, previous: Pos, snake: seq<Pos>, walls: seq<Pos>)
    requires FirstAcceptable(samples, previous, snake, walls) < |samples|
    ensures var food := samples[FirstAcceptable(samples, previous, snake, walls)];
            food != previous && food !in snake && food !in walls && food in samples
  {
  }

  /** When the random source is inclusive of its bound, the food lands on the grid. */
  lemma FirstAcceptableInGrid(samples: seq<Pos>, previous: Pos, snake: seq<Pos>, walls: seq<Pos>)
    requires forall i :: 0 <= i < |samples| ==> InGrid(samples[i])
    requires FirstAcceptable(samples, previous, snake, walls) < |samples|
    ensures InGrid(samples[FirstAcceptable(samples, previous, snake, walls)])
  {
  }

  /** The loop only stops early on an acceptable sample: no acceptable sample means it never settles. */
  lemma FirstAcceptableExhausted(samples: seq<Pos>, previous: Pos, snake: seq<Pos>, walls: seq<Pos>)
    ensures FirstAcceptable(samples, previous, snake, walls) == |samples|
            <==> forall i :: 0 <= i < |samples| ==> !Acceptable(samples[i], previous, snake, walls)
  {
  }
}
