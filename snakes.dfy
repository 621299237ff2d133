/**
 * The snake's body: a head-first list of cells, moved by prepending a new
 * head and removing the old tail value, grown by repeating the tail
 * (class Snake of Snake/Snake.py).
 */
module Snakes {
  import opened Coordinates

  /** Index of the first element equal to v, which is where list.remove deletes. */
  function IndexOf(xs: seq<Pos>, v: Pos): (k: nat)
    requires v in xs
    ensures k < |xs| && xs[k] == v
    ensures v !in xs[..k]
  {
    if xs[0] == v then 0
    else
      var k := 1 + IndexOf(xs[1..], v);
      assert xs[..k] == [xs[0]] + xs[1..][..k - 1];
      k
  }

  /** The list after list.remove(v): the first occurrence of v is deleted. */
  function RemoveFirst(xs: seq<Pos>, v: Pos): (r: seq<Pos>)
    requires v in xs
    ensures |r| == |xs| - 1
    ensures multiset(r) == multiset(xs) - multiset{v}
  {
    var k := IndexOf(xs, v);
    assert xs == xs[..k] + [xs[k]] + xs[k + 1..];
    xs[..k] + xs[k + 1..]
  }

  /** The first index holding v is the only one with no v before it. */
  lemma IndexOfAt(xs: seq<Pos>, v: Pos, k: nat)
    requires k < |xs| && xs[k] == v && v !in xs[..k]
    ensures IndexOf(xs, v) == k
  {
  }

  /**
   * The body after position(direction): the moved copy of the head is put
   * in front, then the first element equal to the old tail is removed.
   */
  function Advanced(s: seq<Pos>, direction: string): (r: seq<Pos>)
    requires s != []
    ensures |r| == |s|
  {
    RemoveFirst([Moved(s[0], direction)] + s, s[|s| - 1])
  }

  /** The body after extend_tail(): a copy of the tail is appended. */
  function Extended(s: seq<Pos>): (r: seq<Pos>)
    requires s != []
    ensures |r| == |s| + 1
    ensures r[..|s|] == s && r[|s|] == s[|s| - 1]
  {
    s + [s[|s| - 1]]
  }

  /** game_over: the head lies on a later segment of the body or on a wall. */
  function Collides(s: seq<Pos>, walls: seq<Pos>): (r: bool)
    requires s != []
    ensures r <==> (exists i :: 1 <= i < |s| && s[i] == s[0]) || (exists j :: 0 <= j < |walls| && walls[j] == s[0])
  {
    s[0] in s[1..] || s[0] in walls
  }

  class Snake {
    var coordinates: seq<Pos>

    /** The body operations index the head and the tail, so they need a segment. */
    ghost predicate Valid()
      reads this
    {
      coordinates != []
    }

    constructor (coordinates: seq<Pos>)
      ensures this.coordinates == coordinates
    {
      this.coordinates := coordinates;
    }

    function GetHead(): (head: Pos)
      reads this
      requires Valid()
      ensures coordinates == [head] + coordinates[1..]
    {
      coordinates[0]
    }

    function GetTail(): (tail: Pos)
      reads this
      requires Valid()
      ensures coordinates == coordinates[..|coordinates| - 1] + [tail]
    {
      coordinates[|coordinates| - 1]
    }

    function GetBody(): (body: seq<Pos>)
      reads this
      requires Valid()
      ensures [GetHead()] + body == coordinates
    {
      coordinates[1..]
    }

    method Position(direction: string)
      requires Valid()
      modifies this
      ensures Valid()
      ensures coordinates == Advanced(old(coordinates), direction)
    {
      var head := GetHead();
      var newHead := new Coordinate(head.x, head.y);
      newHead.Move(direction);
      coordinates := [Pos(newHead.x, newHead.y)] + coordinates;
      coordinates := RemoveFirst(coordinates, coordinates[|coordinates| - 1]);
    }

    method ExtendTail()
      requires Valid()
      modifies this
      ensures Valid()
      ensures coordinates == old(coordinates) + [old(GetTail())]
    {
      coordinates := coordinates + [GetTail()];
    }

    function GameOver(walls: seq<Pos>): (over: bool)
      reads this
      requires Valid()
      ensures over <==> GetHead() in GetBody() || GetHead() in walls
    {
      Collides(coordinates, walls)
    }
  }

  /**
   * When the new head lands on the cell the tail occupies, list.remove
   * deletes the new head itself (the first equal element), so the body
   * comes back unchanged.
   */
  lemma AdvancedOntoTail(s: seq<Pos>, direction: string)
    requires s != []
    requires Moved(s[0], direction) == s[|s| - 1]
    ensures Advanced(s, direction) == s
  {
    var xs := [Moved(s[0], direction)] + s;
    assert IndexOf(xs, s[|s| - 1]) == 0;
    assert xs[1..] == s;
  }

  /**
   * When the new head differs from the tail and the tail value occurs only
   * at the end, the body shifts: new head in front, last segment dropped.
   */
  lemma AdvancedShifts(s: seq<Pos>, direction: string)
    requires s != []
    requires Moved(s[0], direction) != s[|s| - 1]
    requires s[|s| - 1] !in s[..|s| - 1]
    ensures Advanced(s, direction) == [Moved(s[0], direction)] + s[..|s| - 1]
  {
    var h, t := Moved(s[0], direction), s[|s| - 1];
    RemoveFirstBehindFront(h, s, t);
    IndexOfAt(s, t, |s| - 1);
    assert s[|s|..] == [];
  }

  /** Removing a value that is not the front element leaves the front in place. */
  lemma RemoveFirstBehindFront(h: Pos, s: seq<Pos>, v: Pos)
    requires v in s && h != v
    ensures RemoveFirst([h] + s, v) == [h] + RemoveFirst(s, v)
  {
    var xs := [h] + s;
    var j := IndexOf(s, v);
    assert xs[..1 + j] == [h] + s[..j];
    IndexOfAt(xs, v, 1 + j);
    assert xs[2 + j..] == s[j + 1..];
  }

  /**
   * In every case the new head goes in front unless it equals the tail,
   * and the rest of the old body loses exactly one copy of the tail.
   */
  lemma AdvancedHead(s: seq<Pos>, direction: string)
    requires s != []
    ensures Moved(s[0], direction) != s[|s| - 1] ==>
              Advanced(s, direction) == [Moved(s[0], direction)] + RemoveFirst(s, s[|s| - 1])
    ensures multiset(Advanced(s, direction)) == multiset([Moved(s[0], direction)] + s) - multiset{s[|s| - 1]}
  {
    var h, t := Moved(s[0], direction), s[|s| - 1];
    if h != t {
      RemoveFirstBehindFront(h, s, t);
    }
  }

  /** Every segment after a move is the new head or was already a segment. */
  lemma AdvancedWithin(s: seq<Pos>, direction: string, q: Pos)
    requires s != []
    requires q in Advanced(s, direction)
    ensures q == Moved(s[0], direction) || q in s
  {
    AdvancedHead(s, direction);
    assert q in multiset(Advanced(s, direction));
  }

  /**
   * A move right after a growth drops one of the two copies of the tail,
   * so the grown snake shifts by one cell as a whole.
   */
  lemma AdvancedAfterGrowth(s: seq<Pos>, direction: string)
    requires s != []
    requires Moved(s[0], direction) != s[|s| - 1]
    requires s[|s| - 1] !in s[..|s| - 1]
    ensures Advanced(Extended(s), direction) == [Moved(s[0], direction)] + s
  {
    var h, t := Moved(s[0], direction), s[|s| - 1];
    var e := Extended(s);
    assert e[0] == s[0] && e[|e| - 1] == t;
    RemoveFirstBehindFront(h, e, t);
    assert e[..|s| - 1] == s[..|s| - 1];
    IndexOfAt(e, t, |s| - 1);
    assert e[..|s| - 1] + e[|s|..] == s;
  }
}
