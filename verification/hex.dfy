/** The hex-plugin ant: a four-letter pattern (`r`, `l`, `u`, `n`), and a tick
    split in two chained parts. `AntMovement` applies the turn stored on the
    ant and moves it; `BricksRotation` then recolours or creates the brick
    under the ant and stores that brick's turn, which is applied on the NEXT
    tick. */
module Hex {
  import opened Outcomes
  import opened Headings
  import Patterns

  /** The hex turn set. `R2` and `L2` exist but no letter produces them and
      the movement has no rule for them. */
  datatype PatternDirection = R1 | R2 | L1 | L2 | Uturn | NoTurn

  /** The turns `AntMovement` has a rule for. */
  predicate Supported(d: PatternDirection) {
    !d.R2? && !d.L2?
  }

  /** The turn a lower-case pattern letter names. */
  function Decode(c: char): (t: Option<PatternDirection>)
    ensures t == Some(R1) <==> c == 'r'
    ensures t == Some(L1) <==> c == 'l'
    ensures t == Some(Uturn) <==> c == 'u'
    ensures t == Some(NoTurn) <==> c == 'n'
    ensures t.Some? <==> c in {'r', 'l', 'u', 'n'}
  {
    match c
    case 'r' => Some(R1)
    case 'l' => Some(L1)
    case 'u' => Some(Uturn)
    case 'n' => Some(NoTurn)
    case _ => None
  }

  /** After case folding, each of `r`, `l`, `u`, `n` names its turn in
      either case, and no other character names one. */
  lemma DecodeFolded(c: char)
    ensures Decode(Patterns.Lower(c)) == Some(R1) <==> c == 'r' || c == 'R'
    ensures Decode(Patterns.Lower(c)) == Some(L1) <==> c == 'l' || c == 'L'
    ensures Decode(Patterns.Lower(c)) == Some(Uturn) <==> c == 'u' || c == 'U'
    ensures Decode(Patterns.Lower(c)) == Some(NoTurn) <==> c == 'n' || c == 'N'
    ensures Decode(Patterns.Lower(c)).None? <==> c !in {'r', 'R', 'l', 'L', 'u', 'U', 'n', 'N'}
  { }

  type Pattern<M> = Patterns.Pattern<M, PatternDirection>

  /** A pattern as `Parse` produces it: well shaped, and every turn has a
      movement rule. */
  ghost predicate Parsed<M>(p: Pattern<M>) {
    Patterns.Valid(p) && forall t | t in p.turns :: Supported(t)
  }

  /** Parse a pattern such as "ruln": it succeeds exactly when at least two
      characters are `r`, `l`, `u` or `n` in either case, lists them in
      order, and never yields `R2` or `L2`. */
  function Parse<M>(s: string, draw: nat -> M): (r: Result<Pattern<M>>)
    ensures r.Ok? <==> Patterns.Count(s, Decode) >= 2
    ensures r.Err? ==> r.error == IncorrectPattern
    ensures r.Ok? ==> Parsed(r.value) && Patterns.Lists(s, draw, Decode, r.value)
  {
    var r := Patterns.Parse(s, draw, Decode);
    if r.Ok? then ParsedTurnsSupported(s, draw, r.value); r else r
  }

  lemma ParsedTurnsSupported<M>(s: string, draw: nat -> M, p: Pattern<M>)
    requires Patterns.Lists(s, draw, Decode, p)
    ensures forall t | t in p.turns :: Supported(t)
  {
    forall k | 0 <= k < |p.turns|
      ensures Supported(p.turns[k])
    {
      Patterns.RankReached(s, Decode, k);
    }
  }

  /** The number of clockwise quarter turns a supported turn makes. */
  function Quarters(d: PatternDirection): nat
    requires Supported(d)
  {
    match d
    case R1 => 1
    case L1 => 3
    case Uturn => 2
    case NoTurn => 0
  }

  /** The heading after turn `d`; a turn without a rule is a fault. */
  function Turned(d: PatternDirection, h: Heading): (r: Result<Heading>)
    ensures r.Err? <==> !Supported(d)
    ensures r.Err? ==> r.error == Unimplemented
    ensures r.Ok? ==> Quarter(r.value) == (Quarter(h) + Quarters(d)) % 4
  {
    match d
    case R1 => Ok(RotateRight(h))
    case L1 => Ok(RotateLeft(h))
    case Uturn => Ok(RotateBack(h))
    case NoTurn => Ok(h)
    case _ => Err(Unimplemented)
  }

  /** The ant: where it is, where it faces, and the turn it will make next. */
  datatype HexAnt = HexAnt(pos: Pos, heading: Heading, pending: PatternDirection)

  datatype HexWorld<M> = HexWorld(bricks: map<Pos, M>, ant: HexAnt)

  /** The ant starts at the origin facing Up (North) with no pending turn,
      and there are no bricks. */
  function Initial<M>(): (w: HexWorld<M>)
    ensures w.ant.pos == Pos(0, 0) && w.ant.heading == North && w.ant.pending == NoTurn
    ensures |w.bricks| == 0
  {
    HexWorld(map[], HexAnt(Pos(0, 0), North, NoTurn))
  }

  /** First half of a tick: apply the pending turn, then move one cell in
      the resulting heading. The bricks and the pending turn are untouched. */
  function AntMovement<M>(w: HexWorld<M>): (r: Result<HexWorld<M>>)
    ensures r.Err? <==> !Supported(w.ant.pending)
    ensures r.Err? ==> r.error == Unimplemented
    ensures r.Ok? ==> r.value.bricks == w.bricks && r.value.ant.pending == w.ant.pending
    ensures r.Ok? ==> Turned(w.ant.pending, w.ant.heading) == Ok(r.value.ant.heading)
    ensures r.Ok? ==> r.value.ant.pos == Move(w.ant.pos, r.value.ant.heading)
  {
    match Turned(w.ant.pending, w.ant.heading)
    case Err(e) => Err(e)
    case Ok(h) => Ok(HexWorld(w.bricks, HexAnt(Move(w.ant.pos, h), h, w.ant.pending)))
  }

  /** Second half of a tick: advance the brick under the ant with `Next`, or
      create it with `First`'s marker, and store the lookup's turn on the ant.
      The ant does not move or turn. */
  function BricksRotation<M(==)>(p: Pattern<M>, w: HexWorld<M>): (r: Result<HexWorld<M>>)
    requires Patterns.Valid(p)
    ensures r.Err? <==> w.ant.pos in w.bricks && w.bricks[w.ant.pos] !in p.colors
    ensures r.Err? ==> r.error == NoMatchingColor
    ensures r.Ok? ==> r.value.ant.pos == w.ant.pos && r.value.ant.heading == w.ant.heading
    ensures r.Ok? ==> forall q :: q in r.value.bricks <==> q in w.bricks || q == w.ant.pos
    ensures r.Ok? ==> |r.value.bricks| <= |w.bricks| + 1
    ensures r.Ok? ==> forall q | q in w.bricks && q != w.ant.pos :: r.value.bricks[q] == w.bricks[q]
    ensures r.Ok? && w.ant.pos !in w.bricks ==>
              && r.value.bricks[w.ant.pos] == p.colors[1]
              && r.value.ant.pending == p.turns[0]
    ensures r.Ok? && w.ant.pos in w.bricks ==>
              var n := Patterns.Next(p, w.bricks[w.ant.pos]);
              && n.Ok?
              && r.value.bricks[w.ant.pos] == n.value.0
              && r.value.ant.pending == n.value.1
  {
    var here := w.ant.pos;
    var lookup := if here in w.bricks then Patterns.Next(p, w.bricks[here]) else Ok(Patterns.First(p));
    match lookup
    case Err(e) => Err(e)
    case Ok((m, t)) => Ok(HexWorld(w.bricks[here := m], HexAnt(here, w.ant.heading, t)))
  }

  /** One tick: `AntMovement` chained with `BricksRotation`. The ant turns by
      its stored turn and moves; then the brick at its NEW cell is created or
      advanced, and the lookup's turn is stored for the next tick. */
  function Tick<M(==)>(p: Pattern<M>, w: HexWorld<M>): (r: Result<HexWorld<M>>)
    requires Patterns.Valid(p)
    ensures !Supported(w.ant.pending) ==> r == Err(Unimplemented)
    ensures Supported(w.ant.pending) ==>
              var h := Turned(w.ant.pending, w.ant.heading).value;
              var here := Move(w.ant.pos, h);
              && (r.Err? <==> here in w.bricks && w.bricks[here] !in p.colors)
              && (r.Err? ==> r.error == NoMatchingColor)
              && (r.Ok? ==> r.value.ant.heading == h && r.value.ant.pos == here)
              && (r.Ok? ==> forall q :: q in r.value.bricks <==> q in w.bricks || q == here)
              && (r.Ok? ==> forall q | q in w.bricks && q != here :: r.value.bricks[q] == w.bricks[q])
              && (r.Ok? && here !in w.bricks ==>
                    r.value.bricks[here] == p.colors[1] && r.value.ant.pending == p.turns[0])
              && (r.Ok? && here in w.bricks ==>
                    var n := Patterns.Next(p, w.bricks[here]);
                    n.Ok? && r.value.bricks[here] == n.value.0 && r.value.ant.pending == n.value.1)
  {
    match AntMovement(w)
    case Err(e) => Err(e)
    case Ok(moved) => BricksRotation(p, moved)
  }

  /** `n` ticks, stopping at the first fault. */
  function Run<M(==)>(p: Pattern<M>, w: HexWorld<M>, n: nat): (r: Result<HexWorld<M>>)
    requires Patterns.Valid(p)
    ensures n == 0 ==> r == Ok(w)
    ensures r.Err? ==> r.error == NoMatchingColor || r.error == Unimplemented
    ensures r.Ok? ==> forall q | q in w.bricks :: q in r.value.bricks
    ensures r.Ok? ==> |r.value.bricks| <= |w.bricks| + n
    decreases n
  {
    if n == 0 then Ok(w)
    else
      match Tick(p, w)
      case Err(e) => Err(e)
      case Ok(w') => Run(p, w', n - 1)
  }

  /** Every brick carries a marker of the pattern and the pending turn has a
      movement rule. */
  ghost predicate Consistent<M>(p: Pattern<M>, w: HexWorld<M>) {
    && (forall q | q in w.bricks :: w.bricks[q] in p.colors)
    && Supported(w.ant.pending)
  }

  /** A tick from a consistent world faults neither in the movement (the
      `todo!()` arm) nor in the lookup (the `panic!`), and stays consistent. */
  lemma TickKeepsConsistent<M>(p: Pattern<M>, w: HexWorld<M>)
    requires Parsed(p) && Consistent(p, w)
    ensures Tick(p, w).Ok? && Consistent(p, Tick(p, w).value)
    ensures |Tick(p, w).value.bricks| <= |w.bricks| + 1
  {
  }

  lemma {:induction false} RunKeepsConsistent<M>(p: Pattern<M>, w: HexWorld<M>, n: nat)
    requires Parsed(p) && Consistent(p, w)
    ensures Run(p, w, n).Ok?
    ensures Consistent(p, Run(p, w, n).value)
    ensures |Run(p, w, n).value.bricks| <= |w.bricks| + n
    decreases n
  {
    if n > 0 {
      TickKeepsConsistent(p, w);
      var w' := Tick(p, w).value;
      assert Run(p, w, n) == Run(p, w', n - 1);
      RunKeepsConsistent(p, w', n - 1);
    }
  }

  /** From the initial state of a parsed pattern no tick ever faults, and
      after `n` ticks at most `n` bricks exist. */
  lemma RunFromInitial<M>(p: Pattern<M>, n: nat)
    requires Parsed(p)
    ensures Run(p, Initial(), n).Ok?
    ensures Consistent(p, Run(p, Initial(), n).value)
    ensures |Run(p, Initial(), n).value.bricks| <= n
  {
    RunKeepsConsistent(p, Initial(), n);
  }

  /** The turn stored by one tick is the turn the ant makes at the start of
      the following tick. */
  lemma TurnAppliedNextTick<M>(p: Pattern<M>, w: HexWorld<M>)
    requires Parsed(p) && Consistent(p, w)
    ensures var w1 := Tick(p, w).value;
            Tick(p, w1).Ok? && Turned(w1.ant.pending, w1.ant.heading) == Ok(Tick(p, w1).value.ant.heading)
  {
  }

  /** "ru" lists R1 then U-turn, and the lookup wraps around: marker 0 gives
      marker 1 with R1, marker 1 gives marker 0 with a U-turn. */
  lemma ExampleRu()
    ensures Parse("ru", Patterns.Serial) == Ok(Patterns.Pattern([0, 1], [R1, Uturn]))
    ensures Patterns.Next(Patterns.Pattern([0, 1], [R1, Uturn]), 0) == Ok((1, R1))
    ensures Patterns.Next(Patterns.Pattern([0, 1], [R1, Uturn]), 1) == Ok((0, Uturn))
  {
    var s := "ru";
    assert s[..1] == "r" && s[..1][..0] == "";
    assert Patterns.Collect("r", Patterns.Serial, Decode) == Patterns.Pattern([0], [R1]);
    assert Patterns.Collect(s, Patterns.Serial, Decode) == Patterns.Pattern([0, 1], [R1, Uturn]);
  }

  /** "N" has a single turn letter and is rejected. */
  lemma ExampleN()
    ensures Parse("N", Patterns.Serial) == Err(IncorrectPattern)
  {
  }

  /** The first tick moves before it paints: the ant leaves the origin Up to
      (0, 1) with no turn, and the brick it creates there carries the second
      marker and stores the first turn. */
  lemma ExampleFirstTick()
    ensures Tick(Patterns.Pattern([0, 1], [R1, Uturn]), Initial())
         == Ok(HexWorld(map[Pos(0, 1) := 1], HexAnt(Pos(0, 1), North, R1)))
  {
  }
}
