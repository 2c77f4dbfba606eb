/** The per-actor `update` rules: each builds the actor's next value from its previous value, the
    elapsed time and the previous state. */
module Motion {
  import opened Wrappers
  import opened Geometry
  import opened Actors
  import opened World
  import Levels

  const PlayerXSpeed: real := 8.0
  const Gravity: real := 30.0
  const JumpSpeed: real := 17.0
  const MonsterSpeed: real := 4.0

  /** A box touches wall. */
  predicate Blocked(l: Levels.Level, pos: Vec, size: Vec)
    requires l.Valid()
  {
    Levels.CoversKind(l, pos, size, Levels.Wall)
  }

  /** The horizontal speed the held directions ask for: left and right each contribute one
      `playerXSpeed`, in opposite directions, so holding both cancels out. */
  function WalkSpeed(keys: Held, touch: Held): (xSpeed: real)
    ensures xSpeed == -PlayerXSpeed || xSpeed == 0.0 || xSpeed == PlayerXSpeed
    ensures xSpeed < 0.0 <==> (keys.left || touch.left) && !(keys.right || touch.right)
    ensures xSpeed > 0.0 <==> (keys.right || touch.right) && !(keys.left || touch.left)
  {
    var still := 0.0;
    var leftward := if keys.left || touch.left then still - PlayerXSpeed else still;
    if keys.right || touch.right then leftward + PlayerXSpeed else leftward
  }

  const PlayerSize: Vec := Vec(0.8, 1.5)

  /** Where the horizontal part of a player's update leaves it: moved by `xSpeed * time` when that box
      is free of wall, otherwise where it was. */
  function Walk(pos: Vec, xSpeed: real, time: real, l: Levels.Level): (p: Vec)
    requires l.Valid()
    ensures p.y == pos.y
    ensures !Blocked(l, pos.Plus(Vec(xSpeed * time, 0.0)), PlayerSize) ==> p.x == pos.x + xSpeed * time
    ensures Blocked(l, pos.Plus(Vec(xSpeed * time, 0.0)), PlayerSize) ==> p.x == pos.x
  {
    var movedX := pos.Plus(Vec(xSpeed * time, 0.0));
    if !Blocked(l, movedX, PlayerSize) then movedX else pos
  }

  /** `Player.prototype.update`: walk horizontally unless that would touch wall; then fall under
      gravity unless that would touch wall, in which case the player stops vertically, or jumps if Up
      is held while falling. The stored horizontal speed is the requested one even when the walk is
      blocked. */
  function PlayerUpdate(pos: Vec, speed: Vec, time: real, l: Levels.Level, keys: Held, touch: Held): (r: Actor)
    requires l.Valid()
    ensures r.Player? && r.speed.x == WalkSpeed(keys, touch)
    ensures r.pos.x == Walk(pos, WalkSpeed(keys, touch), time, l).x
  {
    var xSpeed := WalkSpeed(keys, touch);
    var pos := Walk(pos, xSpeed, time, l);
    var ySpeed := speed.y + time * Gravity;
    var movedY := Drop(pos, ySpeed, time);
    if !Blocked(l, movedY, PlayerSize) then Player(movedY, Vec(xSpeed, ySpeed))
    else if (keys.up || touch.up) && ySpeed > 0.0 then Player(pos, Vec(xSpeed, -JumpSpeed))
    else Player(pos, Vec(xSpeed, 0.0))
  }

  /** The candidate position of the vertical part of the update. */
  function Drop(pos: Vec, ySpeed: real, time: real): (p: Vec)
    ensures p.x == pos.x
  {
    pos.Plus(Vec(0.0, ySpeed * time))
  }

  /** The vertical rule: gravity adds `30 * time` to the vertical speed; if the box moved by the new
      speed times `time` is free of wall the player moves there, otherwise it keeps its y and its
      vertical speed becomes `-jumpSpeed` when Up is held while falling, and 0 otherwise. */
  lemma PlayerFalls(pos: Vec, speed: Vec, time: real, l: Levels.Level, keys: Held, touch: Held)
    requires l.Valid()
    ensures var r := PlayerUpdate(pos, speed, time, l, keys, touch);
      var fall := speed.y + time * Gravity;
      var walked := Walk(pos, WalkSpeed(keys, touch), time, l);
      var dropped := Drop(walked, fall, time);
      (!Blocked(l, dropped, PlayerSize) ==> r.pos == dropped && r.speed.y == fall) &&
      (Blocked(l, dropped, PlayerSize) ==> r.pos == walked) &&
      (Blocked(l, dropped, PlayerSize) && (keys.up || touch.up) && fall > 0.0 ==> r.speed.y == -JumpSpeed) &&
      (Blocked(l, dropped, PlayerSize) && !((keys.up || touch.up) && fall > 0.0) ==> r.speed.y == 0.0)
  {
  }

  /** A player whose box is free of wall stays free of wall: every move it makes is checked first. */
  lemma PlayerStaysOutOfWalls(pos: Vec, speed: Vec, time: real, l: Levels.Level, keys: Held, touch: Held)
    requires l.Valid() && !Blocked(l, pos, PlayerSize)
    ensures !Blocked(l, PlayerUpdate(pos, speed, time, l, keys, touch).pos, PlayerSize)
  {
  }

  /** The point on an ellipse around `center` at `angle`, radii `rx` and `ry`. */
  function Orbit(trig: Trig, center: Vec, angle: real, rx: real, ry: real): (p: Vec) {
    center.Plus(Vec(trig.cos(angle) * rx, trig.sin(angle) * ry))
  }

  /** `Lava.prototype.update`. A lava without an angle moves along its velocity while the moved box is
      free of wall. Otherwise: one with a direction orbits its anchor on an ellipse, probing one step
      ahead and reversing when the probe touches wall; one with an angle circles its anchor; a
      dripping one jumps back to its anchor; a bouncing one reverses its velocity in place. */
  function LavaUpdate(a: Actor, time: real, l: Levels.Level, trig: Trig): (r: Actor)
    requires a.Lava? && a.Valid() && l.Valid()
    ensures r.Lava? && r.Valid()
    // the velocity is only ever kept or reversed
    ensures r.speed == a.speed || r.speed == a.speed.Times(-1.0)
    // the linear branches
    ensures a.angle == 0.0 ==>
      var newPos := a.pos.Plus(a.speed.Times(time));
      (!Blocked(l, newPos, Vec(1.0, 1.0)) ==> r == Lava(newPos, a.speed, a.reset, 0.0, 0)) &&
      (Blocked(l, newPos, Vec(1.0, 1.0)) && a.direction == 0 && a.reset.Some? ==>
        r == Lava(a.reset.value, a.speed, a.reset, 0.0, 0)) &&
      (Blocked(l, newPos, Vec(1.0, 1.0)) && a.direction == 0 && a.reset.None? ==>
        r == Lava(a.pos, a.speed.Times(-1.0), None, 0.0, 0))
    // a lava without an angle or a direction stays linear
    ensures a.angle == 0.0 && a.direction == 0 ==> r.angle == 0.0 && r.direction == 0
  {
    var newPos := a.pos.Plus(a.speed.Times(time));
    if a.angle == 0.0 && !Blocked(l, newPos, Vec(1.0, 1.0)) then
      Lava(newPos, a.speed, a.reset, 0.0, 0)
    else if a.direction != 0 then
      var center := a.reset.value;
      var probeAngle := a.angle + time * 1.0 * a.direction as real;
      var probe := Orbit(trig, center, probeAngle, 2.0, 2.0 * 4.0);
      var direction := if Blocked(l, probe, Vec(1.0, 1.0)) then a.direction * -1 else a.direction;
      var angle := probeAngle + time * 1.0 * direction as real;
      Lava(Orbit(trig, center, angle, 2.0, 2.0 * 4.0), a.speed, a.reset, angle, direction)
    else if a.angle != 0.0 then
      var angle := a.angle + time * 3.0;
      Lava(Orbit(trig, a.reset.value, angle, 2.0, 2.0), a.speed, a.reset, angle, 0)
    else if a.reset.Some? then
      Lava(a.reset.value, a.speed, a.reset, 0.0, 0)
    else
      Lava(a.pos, a.speed.Times(-1.0), None, 0.0, 0)
  }

  /** A bouncing lava that is blocked twice in a row is back at its original velocity. */
  lemma BouncingLavaReversesTwice(a: Actor, time: real, l: Levels.Level, trig: Trig)
    requires a.Lava? && a.Valid() && l.Valid()
    requires a.angle == 0.0 && a.direction == 0 && a.reset.None?
    requires Blocked(l, a.pos.Plus(a.speed.Times(time)), Vec(1.0, 1.0))
    requires var b := LavaUpdate(a, time, l, trig); Blocked(l, b.pos.Plus(b.speed.Times(time)), Vec(1.0, 1.0))
    ensures LavaUpdate(LavaUpdate(a, time, l, trig), time, l, trig) == a
  {
    var b := LavaUpdate(a, time, l, trig);
    assert b == Lava(a.pos, a.speed.Times(-1.0), None, 0.0, 0);
    assert b.speed.Times(-1.0) == a.speed;
  }

  /** `Monster.prototype.update`: step `monsterSpeed * time` toward the player's x in the previous
      state (right when level with it), and stay as it is when the stepped box touches wall. */
  function MonsterUpdate(a: Actor, time: real, s: State): (r: Actor)
    requires a.Monster? && s.level.Valid() && HasPlayer(s.actors)
    ensures r.Monster? && r.pos.y == a.pos.y
    ensures var step := if FindPlayer(s.actors).pos.x < a.pos.x then -MonsterSpeed * time else MonsterSpeed * time;
      var stepped := Vec(a.pos.x + step, a.pos.y);
      (Blocked(s.level, stepped, Vec(1.0, 1.0)) ==> r == a) &&
      (!Blocked(s.level, stepped, Vec(1.0, 1.0)) ==> r.pos == stepped)
  {
    var player := FindPlayer(s.actors);
    var speed := (if player.pos.x < a.pos.x then -1.0 else 1.0) * time * MonsterSpeed;
    var newPos := Vec(a.pos.x + speed, a.pos.y);
    if Blocked(s.level, newPos, Vec(1.0, 1.0)) then a else Monster(newPos)
  }

  /** A monster whose box is free of wall stays free of wall. */
  lemma MonsterStaysOutOfWalls(a: Actor, time: real, s: State)
    requires a.Monster? && s.level.Valid() && HasPlayer(s.actors)
    requires !Blocked(s.level, a.pos, Vec(1.0, 1.0))
    ensures !Blocked(s.level, MonsterUpdate(a, time, s).pos, Vec(1.0, 1.0))
  {
  }

  /** A monster never steps away from the player: with non-negative time it moves toward the player's
      x (possibly overshooting it) or stays where it is. */
  lemma MonsterApproaches(a: Actor, time: real, s: State)
    requires a.Monster? && s.level.Valid() && HasPlayer(s.actors) && time >= 0.0
    ensures var px := FindPlayer(s.actors).pos.x; var r := MonsterUpdate(a, time, s);
      (px < a.pos.x ==> r.pos.x <= a.pos.x) && (px >= a.pos.x ==> r.pos.x >= a.pos.x)
  {
  }

  /** `Coin.prototype.update`: the phase advances by `8 * time` and the coin bobs vertically around its
      base by `0.07 * sin(phase)`. */
  function CoinUpdate(a: Actor, time: real, trig: Trig): (r: Actor)
    requires a.Coin?
    ensures r.Coin? && r.basePos == a.basePos && r.wobble == a.wobble + time * 8.0
  {
    var wobble := a.wobble + time * 8.0;
    Coin(a.basePos.Plus(Vec(0.0, trig.sin(wobble) * 0.07)), a.basePos, wobble)
  }

  /** `Life.prototype.update`: the phase advances by `4 * time` and the life sways horizontally around
      its base by `0.1 * cos(phase)`. */
  function LifeUpdate(a: Actor, time: real, trig: Trig): (r: Actor)
    requires a.Life?
    ensures r.Life? && r.basePos == a.basePos && r.wobble == a.wobble + time * 4.0
  {
    var wobble := a.wobble + time * 4.0;
    Life(a.basePos.Plus(Vec(trig.cos(wobble) * 0.1, 0.0)), a.basePos, wobble)
  }

  /** `Shield.prototype.update`: the angle advances by `7 * time` and the shield circles its centre at
      radius 0.04. */
  function ShieldUpdate(a: Actor, time: real, trig: Trig): (r: Actor)
    requires a.Shield?
    ensures r.Shield? && r.center == a.center && r.angle == a.angle + time * 7.0
  {
    var angle := a.angle + time * 7.0;
    Shield(Orbit(trig, a.center, angle, 0.04, 0.04), a.center, angle)
  }

  /** The wobbling pickups are cosmetic: with sine and cosine in [-1, 1] a coin stays within 0.07 of its
      base vertically and exactly on it horizontally, a life within 0.1 horizontally and exactly on it
      vertically, and a shield within 0.04 of its centre on both axes. */
  lemma PickupsStayNearHome(a: Actor, time: real, trig: Trig)
    requires a.Coin? || a.Life? || a.Shield?
    requires var t := if a.Coin? then a.wobble + time * 8.0 else if a.Life? then a.wobble + time * 4.0
                      else a.angle + time * 7.0;
      -1.0 <= trig.sin(t) <= 1.0 && -1.0 <= trig.cos(t) <= 1.0
    ensures a.Coin? ==> var r := CoinUpdate(a, time, trig);
      r.pos.x == a.basePos.x && a.basePos.y - 0.07 <= r.pos.y <= a.basePos.y + 0.07
    ensures a.Life? ==> var r := LifeUpdate(a, time, trig);
      r.pos.y == a.basePos.y && a.basePos.x - 0.1 <= r.pos.x <= a.basePos.x + 0.1
    ensures a.Shield? ==> var r := ShieldUpdate(a, time, trig);
      a.center.x - 0.04 <= r.pos.x <= a.center.x + 0.04 && a.center.y - 0.04 <= r.pos.y <= a.center.y + 0.04
  {
  }

  /** `actor.update(time, state, keys, touch)`, dispatched on the actor's class. */
  function UpdateActor(a: Actor, time: real, s: State, keys: Held, touch: Held, trig: Trig): (r: Actor)
    requires s.level.Valid() && a.Valid()
    requires a.Monster? ==> HasPlayer(s.actors)
    ensures SameKind(a, r) && r.Valid()
  {
    match a
    case Player(pos, speed) => PlayerUpdate(pos, speed, time, s.level, keys, touch)
    case Lava(_, _, _, _, _) => LavaUpdate(a, time, s.level, trig)
    case Coin(_, _, _) => CoinUpdate(a, time, trig)
    case Monster(_) => MonsterUpdate(a, time, s)
    case Life(_, _, _) => LifeUpdate(a, time, trig)
    case Shield(_, _, _) => ShieldUpdate(a, time, trig)
  }
}
