/** The closed set of actors of a level, their fixed sizes, and how the level text creates them. */
module Actors {
  import opened Wrappers
  import opened Geometry

  /** `Math.PI` as a double. */
  const Pi: real := 3.141592653589793

  /** One constructor per actor class. Lava's `angle` and `direction` are 0 where the game leaves them
      `undefined`: the game only ever tests them for truthiness, and 0 is falsy exactly as `undefined`
      is. `reset` is the anchor a dripping or orbiting lava returns to or circles around. */
  datatype Actor =
    | Player(pos: Vec, speed: Vec)
    | Lava(pos: Vec, speed: Vec, reset: Option<Vec>, angle: real, direction: int)
    | Coin(pos: Vec, basePos: Vec, wobble: real)
    | Monster(pos: Vec)
    | Life(pos: Vec, basePos: Vec, wobble: real)
    | Shield(pos: Vec, center: Vec, angle: real)
  {
    /** The orbiting lavas always have a centre, and a direction is a sign. */
    predicate Valid() {
      Lava? ==> direction in {-1, 0, 1} && ((angle != 0.0 || direction != 0) ==> reset.Some?)
    }
  }

  /** The per-class `size` the prototypes share. */
  function Size(a: Actor): (s: Vec)
    ensures s.x > 0.0 && s.y > 0.0
  {
    match a
    case Player(_, _) => Vec(0.8, 1.5)
    case Coin(_, _, _) => Vec(0.6, 0.6)
    case _ => Vec(1.0, 1.0)
  }

  /** Two actors of the same class. */
  predicate SameKind(a: Actor, b: Actor) {
    (a.Player? && b.Player?) || (a.Lava? && b.Lava?) || (a.Coin? && b.Coin?) ||
    (a.Monster? && b.Monster?) || (a.Life? && b.Life?) || (a.Shield? && b.Shield?)
  }

  /** The number of players in a list of actors. */
  function PlayerCount(actors: seq<Actor>): (n: nat) {
    if actors == [] then 0 else (if actors[0].Player? then 1 else 0) + PlayerCount(actors[1..])
  }

  lemma {:induction false} PlayerCountSplit(a: seq<Actor>, b: seq<Actor>)
    ensures PlayerCount(a + b) == PlayerCount(a) + PlayerCount(b)
  {
    if a == [] {
      assert a + b == b;
    } else {
      assert (a + b)[0] == a[0];
      assert (a + b)[1..] == a[1..] + b;
      PlayerCountSplit(a[1..], b);
    }
  }

  /** Lists that agree on the class at every position have as many players. */
  lemma {:induction false} PlayerCountOfSameKinds(a: seq<Actor>, b: seq<Actor>)
    requires |a| == |b| && forall k | 0 <= k < |a| :: SameKind(a[k], b[k])
    ensures PlayerCount(a) == PlayerCount(b)
  {
    if a != [] {
      assert forall k | 0 <= k < |a| - 1 :: a[1..][k] == a[k + 1] && b[1..][k] == b[k + 1];
      PlayerCountOfSameKinds(a[1..], b[1..]);
    }
  }

  /** The characters `levelChars` maps to an actor class. */
  predicate IsActorChar(ch: char) {
    ch == '@' || ch == '=' || ch == '|' || ch == 'c' || ch == 'd' || ch == 'e' ||
    ch == 'h' || ch == 'M' || ch == 'o' || ch == 'v' || ch == 's'
  }

  /** `type.create(new Vec(x, y), ch)` for the class `levelChars[ch]`. `wobble` is the random initial
      phase a coin or a life draws (`Math.random() * Math.PI * 2`); other classes ignore it. */
  function Create(ch: char, x: int, y: int, wobble: real): (a: Actor)
    requires IsActorChar(ch)
    ensures a.Valid()
    ensures a.Player? <==> ch == '@'
    ensures a.Lava? <==> (ch == '=' || ch == '|' || ch == 'v' || ch == 'd' || ch == 'c' || ch == 'e')
    ensures a.Coin? <==> ch == 'o'
    ensures a.Monster? <==> ch == 'M'
    ensures a.Life? <==> ch == 'h'
    ensures a.Shield? <==> ch == 's'
  {
    var pos := Vec(x as real, y as real);
    match ch
    case '@' => Player(pos.Plus(Vec(0.0, -0.5)), Vec(0.0, 0.0))
    case '=' => Lava(pos, Vec(2.0, 0.0), None, 0.0, 0)
    case '|' => Lava(pos, Vec(0.0, 2.0), None, 0.0, 0)
    case 'v' => Lava(pos, Vec(0.0, 3.0), Some(pos), 0.0, 0)
    case 'd' => Lava(pos, Vec(2.0, -2.0), None, 0.0, 0)
    case 'c' => Lava(pos, Vec(0.0, 0.0), Some(pos), Pi, 0)
    case 'e' => Lava(pos, Vec(0.0, 0.0), Some(pos), Pi, 1)
    case 'h' => Life(pos, pos, wobble)
    case 'M' => Monster(pos)
    case 'o' =>
      var basePos := pos.Plus(Vec(0.2, 0.1));
      Coin(basePos, basePos, wobble)
    case 's' => Shield(pos, pos, Pi)
  }

  /** Every actor the level text creates starts inside the unit cell it was written in, except the
      player, which is raised by half a tile so that its 1.5-high box stands on the cell's floor. */
  lemma CreatePlacement(ch: char, x: int, y: int, wobble: real)
    requires IsActorChar(ch)
    ensures var a := Create(ch, x, y, wobble);
      if ch == '@' then a.pos == Vec(x as real, y as real - 0.5) && a.pos.y + Size(a).y == y as real + 1.0
      else x as real <= a.pos.x && a.pos.x + Size(a).x <= x as real + 1.0 &&
           y as real <= a.pos.y && a.pos.y + Size(a).y <= y as real + 1.0
  {
  }
}
