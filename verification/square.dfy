/** The square-grid Langton's ant: a two-letter pattern (`r`, `l`), and one
    simulation tick that reads or creates the tile under the ant, recolours
    it, turns the ant and moves it one cell. */
module Square {
  import opened Outcomes
  import opened Headings
  import Patterns

  datatype Turn = Right | Left

  /** The turn a lower-case pattern letter names. */
  function Decode(c: char): (t: Option<Turn>)
    ensures t == Some(Right) <==> c == 'r'
    ensures t == Some(Left) <==> c == 'l'
    ensures t.Some? <==> c in {'r', 'l'}
  {
    match c
    case 'r' => Some(Right)
    case 'l' => Some(Left)
    case _ => None
  }

  /** After case folding, exactly `r`/`R` name Right and `l`/`L` name Left. */
  lemma DecodeFolded(c: char)
    ensures Decode(Patterns.Lower(c)) == Some(Right) <==> c == 'r' || c == 'R'
    ensures Decode(Patterns.Lower(c)) == Some(Left) <==> c == 'l' || c == 'L'
    ensures Decode(Patterns.Lower(c)).None? <==> c !in {'r', 'R', 'l', 'L'}
  { }

  type Pattern<M> = Patterns.Pattern<M, Turn>

  /** Parse a pattern such as "RL" with markers drawn from `draw`: it
      succeeds exactly when at least two characters are `r` or `l` in either
      case, and lists them in order; other characters are skipped. */
  function Parse<M>(s: string, draw: nat -> M): (r: Result<Pattern<M>>)
    ensures r.Ok? <==> Patterns.Count(s, Decode) >= 2
    ensures r.Err? ==> r.error == IncorrectPattern
    ensures r.Ok? ==> Patterns.Valid(r.value) && Patterns.Lists(s, draw, Decode, r.value)
  {
    Patterns.Parse(s, draw, Decode)
  }

  /** The heading after taking turn `t`. */
  function ApplyTurn(t: Turn, h: Heading): (r: Heading)
    ensures Quarter(r) == (Quarter(h) + (if t == Right then 1 else 3)) % 4
  {
    match t
    case Left => RotateLeft(h)
    case Right => RotateRight(h)
  }

  datatype Ant = Ant(pos: Pos, heading: Heading)

  /** The painted tiles (one marker per cell) and the ant. */
  datatype World<M> = World(tiles: map<Pos, M>, ant: Ant)

  /** The ant starts at the origin, facing North, on an empty grid. */
  function Initial<M>(): (w: World<M>)
    ensures w.ant.pos == Pos(0, 0) && w.ant.heading == North
    ensures |w.tiles| == 0
  {
    World(map[], Ant(Pos(0, 0), North))
  }

  /** One tick: if a tile lies under the ant its marker is advanced with
      `Next`, otherwise a tile is created with `First`'s marker; the ant then
      turns by the turn that lookup gave and moves one cell forward. */
  function Step<M(==)>(p: Pattern<M>, w: World<M>): (r: Result<World<M>>)
    requires Patterns.Valid(p)
    ensures r.Err? <==> w.ant.pos in w.tiles && w.tiles[w.ant.pos] !in p.colors
    ensures r.Err? ==> r.error == NoMatchingColor
    ensures r.Ok? ==> forall q :: q in r.value.tiles <==> q in w.tiles || q == w.ant.pos
    ensures r.Ok? ==> |r.value.tiles| <= |w.tiles| + 1
    ensures r.Ok? ==> forall q | q in w.tiles && q != w.ant.pos :: r.value.tiles[q] == w.tiles[q]
    ensures r.Ok? && w.ant.pos !in w.tiles ==>
              && r.value.tiles[w.ant.pos] == p.colors[1]
              && r.value.ant.heading == ApplyTurn(p.turns[0], w.ant.heading)
    ensures r.Ok? && w.ant.pos in w.tiles ==>
              var n := Patterns.Next(p, w.tiles[w.ant.pos]);
              && n.Ok?
              && r.value.tiles[w.ant.pos] == n.value.0
              && r.value.ant.heading == ApplyTurn(n.value.1, w.ant.heading)
    ensures r.Ok? ==> r.value.ant.pos == Move(w.ant.pos, r.value.ant.heading)
  {
    var here := w.ant.pos;
    var lookup := if here in w.tiles then Patterns.Next(p, w.tiles[here]) else Ok(Patterns.First(p));
    match lookup
    case Err(e) => Err(e)
    case Ok((m, t)) =>
      var h := ApplyTurn(t, w.ant.heading);
      Ok(World(w.tiles[here := m], Ant(Move(here, h), h)))
  }

  /** `n` ticks, stopping at the first fault. */
  function Run<M(==)>(p: Pattern<M>, w: World<M>, n: nat): (r: Result<World<M>>)
    requires Patterns.Valid(p)
    ensures n == 0 ==> r == Ok(w)
    ensures r.Err? ==> r.error == NoMatchingColor
    ensures r.Ok? ==> forall q | q in w.tiles :: q in r.value.tiles
    ensures r.Ok? ==> |r.value.tiles| <= |w.tiles| + n
    decreases n
  {
    if n == 0 then Ok(w)
    else
      match Step(p, w)
      case Err(e) => Err(e)
      case Ok(w') => Run(p, w', n - 1)
  }

  /** Every tile carries a marker of the pattern. */
  ghost predicate Painted<M>(p: Pattern<M>, w: World<M>) {
    forall q | q in w.tiles :: w.tiles[q] in p.colors
  }

  /** A tick from a painted world never faults and leaves the world painted. */
  lemma StepKeepsPainted<M>(p: Pattern<M>, w: World<M>)
    requires Patterns.Valid(p) && Painted(p, w)
    ensures Step(p, w).Ok? && Painted(p, Step(p, w).value)
  {
  }

  /** Any number of ticks from a painted world never fault, keep the world
      painted, and add at most one tile per tick. */
  lemma {:induction false} RunKeepsPainted<M>(p: Pattern<M>, w: World<M>, n: nat)
    requires Patterns.Valid(p) && Painted(p, w)
    ensures Run(p, w, n).Ok?
    ensures Painted(p, Run(p, w, n).value)
    ensures |Run(p, w, n).value.tiles| <= |w.tiles| + n
    decreases n
  {
    if n > 0 {
      StepKeepsPainted(p, w);
      var w' := Step(p, w).value;
      assert Run(p, w, n) == Run(p, w', n - 1);
      RunKeepsPainted(p, w', n - 1);
    }
  }

  /** From the initial world the lookup for a revisited tile never panics,
      and after `n` ticks at most `n` tiles exist. */
  lemma RunFromInitial<M>(p: Pattern<M>, n: nat)
    requires Patterns.Valid(p)
    ensures Run(p, Initial(), n).Ok?
    ensures Painted(p, Run(p, Initial(), n).value)
    ensures |Run(p, Initial(), n).value.tiles| <= n
  {
    RunKeepsPainted(p, Initial(), n);
  }

  /** The default pattern "RL" with serial markers lists markers 0 and 1
      with turns Right and Left. */
  lemma ExampleRL()
    ensures Parse("RL", Patterns.Serial) == Ok(Patterns.Pattern([0, 1], [Right, Left]))
  {
    var s := "RL";
    assert s[..1] == "R" && s[..1][..0] == "";
    assert Patterns.Collect("R", Patterns.Serial, Decode) == Patterns.Pattern([0], [Right]);
    assert Patterns.Collect(s, Patterns.Serial, Decode) == Patterns.Pattern([0, 1], [Right, Left]);
  }

  /** The first tick of "RL" paints the origin with marker 1 (the table's
      second marker), turns East and moves to (1, 0); the next tick lands on
      a blank cell too, paints it and turns South. */
  lemma ExampleRLTicks()
    ensures Step(Patterns.Pattern([0, 1], [Right, Left]), Initial())
         == Ok(World(map[Pos(0, 0) := 1], Ant(Pos(1, 0), East)))
    ensures Run(Patterns.Pattern([0, 1], [Right, Left]), Initial(), 2)
         == Ok(World(map[Pos(0, 0) := 1, Pos(1, 0) := 1], Ant(Pos(1, -1), South)))
  {
    var p := Patterns.Pattern([0, 1], [Right, Left]);
    var w1 := World(map[Pos(0, 0) := 1], Ant(Pos(1, 0), East));
    var w2 := World(map[Pos(0, 0) := 1, Pos(1, 0) := 1], Ant(Pos(1, -1), South));
    assert Step(p, Initial()) == Ok(w1);
    assert Step(p, w1) == Ok(w2);
    assert Run(p, w1, 1) == Ok(w2);
  }

  /** Letters other than `r` and `l` are skipped, so "R-x" holds one turn
      letter and is rejected. */
  lemma ExampleRejected()
    ensures Parse("R-x", Patterns.Serial).Err?
  {
    var s := "R-x";
    assert s[..2] == "R-" && s[..2][..1] == "R" && s[..1][..0] == "";
    assert Patterns.Count("R", Decode) == 1;
    assert Patterns.Count("R-", Decode) == 1;
    assert Patterns.Count(s, Decode) == 1;
  }
}
