/** Actor-to-player contact: the box overlap test and the `collide` handlers that drive the status
    machine. A handler removes "itself" by identity in the game; here it is given the index at which
    its actor stands in the state's list, and removes exactly that entry. */
module Collisions {
  import opened Geometry
  import opened Actors
  import opened World

  /** `overlap`: the two boxes overlap with strict inequalities on all four edges. */
  predicate Overlap(a: Actor, b: Actor) {
    a.pos.x + Size(a).x > b.pos.x && a.pos.x < b.pos.x + Size(b).x &&
    a.pos.y + Size(a).y > b.pos.y && a.pos.y < b.pos.y + Size(b).y
  }

  /** A point strictly inside an actor's box. */
  predicate Inside(p: Vec, a: Actor) {
    a.pos.x < p.x < a.pos.x + Size(a).x && a.pos.y < p.y < a.pos.y + Size(a).y
  }

  /** Two open intervals intersect exactly when each starts before the other ends. */
  lemma IntervalsMeet(lo1: real, hi1: real, lo2: real, hi2: real) returns (t: real)
    requires lo1 < hi2 && lo2 < hi1 && lo1 < hi1 && lo2 < hi2
    ensures lo1 < t < hi1 && lo2 < t < hi2
  {
    var lo := if lo1 < lo2 then lo2 else lo1;
    var hi := if hi1 < hi2 then hi1 else hi2;
    t := (lo + hi) / 2.0;
  }

  /** Overlap is symmetric, and it means exactly that the open boxes share a point; boxes that only
      share an edge or a corner do not overlap. */
  lemma OverlapIffCommonInteriorPoint(a: Actor, b: Actor)
    ensures Overlap(a, b) == Overlap(b, a)
    ensures Overlap(a, b) <==> exists p :: Inside(p, a) && Inside(p, b)
  {
    if Overlap(a, b) {
      var x := IntervalsMeet(a.pos.x, a.pos.x + Size(a).x, b.pos.x, b.pos.x + Size(b).x);
      var y := IntervalsMeet(a.pos.y, a.pos.y + Size(a).y, b.pos.y, b.pos.y + Size(b).y);
      assert Inside(Vec(x, y), a) && Inside(Vec(x, y), b);
    }
  }

  /** Boxes that meet along an edge, one exactly to the right of or exactly below the other, do not
      overlap. */
  lemma EdgeContactIsNoOverlap(a: Actor, b: Actor)
    requires a.pos.x + Size(a).x == b.pos.x || b.pos.x + Size(b).x == a.pos.x ||
             a.pos.y + Size(a).y == b.pos.y || b.pos.y + Size(b).y == a.pos.y
    ensures !Overlap(a, b) && !Overlap(b, a)
  {
  }

  /** `actors.filter(a => a !== this)` where `this` stands at index `k`: exactly that entry is
      removed and the others keep their order. */
  function RemoveAt(actors: seq<Actor>, k: nat): (r: seq<Actor>)
    requires k < |actors|
    ensures |r| == |actors| - 1
    ensures forall j | 0 <= j < |r| :: r[j] == if j < k then actors[j] else actors[j + 1]
  {
    actors[..k] + actors[k + 1..]
  }

  /** Removing one entry keeps every other entry in the list. */
  lemma RemoveAtKeeps(actors: seq<Actor>, k: nat, j: nat)
    requires k < |actors| && j < |actors| && j != k
    ensures actors[j] in RemoveAt(actors, k)
  {
    var r := RemoveAt(actors, k);
    if j < k {
      assert r[j] == actors[j];
    } else {
      assert r[j - 1] == actors[j];
    }
  }

  predicate HasCoin(actors: seq<Actor>) {
    exists k | 0 <= k < |actors| :: actors[k].Coin?
  }

  /** The status after damage: fatal unless the shield is up, which absorbs it. */
  function Hurt(status: Status): (r: Status)
    ensures r == Protected <==> status == Protected
    ensures r != Protected ==> r == Lost
  {
    if status != Protected then Lost else Protected
  }

  /** `Lava.prototype.collide`: same actors; lost unless protected. */
  function LavaCollide(s: State): (r: State)
    ensures r.level == s.level && r.actors == s.actors && r.status == Hurt(s.status)
  {
    if s.status != Protected then State(s.level, s.actors, Lost) else State(s.level, s.actors, Protected)
  }

  /** `Coin.prototype.collide`: the coin at `k` is collected; the level is won exactly when no coin is
      left, and the status is otherwise unchanged. */
  function CoinCollide(s: State, k: nat): (r: State)
    requires k < |s.actors| && s.actors[k].Coin?
    ensures r.level == s.level && r.actors == RemoveAt(s.actors, k)
    ensures !HasCoin(r.actors) ==> r.status == Won
    ensures HasCoin(r.actors) ==> r.status == s.status
  {
    var filtered := RemoveAt(s.actors, k);
    var status := if !HasCoin(filtered) then Won else s.status;
    State(s.level, filtered, status)
  }

  /** The stomp test of `Monster.prototype.collide`: the monster's y less its height is below the
      player's y (y grows downwards). */
  predicate Stomped(monster: Actor, player: Actor) {
    monster.pos.y - Size(monster).y > player.pos.y
  }

  /** `Monster.prototype.collide`: a stomped monster at `k` is removed with the status unchanged;
      otherwise the actors stay and the player is hurt. */
  function MonsterCollide(s: State, k: nat): (r: State)
    requires k < |s.actors| && s.actors[k].Monster? && HasPlayer(s.actors)
    ensures r.level == s.level
    ensures Stomped(s.actors[k], FindPlayer(s.actors)) ==> r.actors == RemoveAt(s.actors, k) && r.status == s.status
    ensures !Stomped(s.actors[k], FindPlayer(s.actors)) ==> r.actors == s.actors && r.status == Hurt(s.status)
  {
    if Stomped(s.actors[k], FindPlayer(s.actors)) then State(s.level, RemoveAt(s.actors, k), s.status)
    else if s.status != Protected then State(s.level, s.actors, Lost)
    else State(s.level, s.actors, Protected)
  }

  /** `Life.prototype.collide`: the life at `k` is removed and the lives counter goes up by one. */
  function LifeCollide(s: State, k: nat, lives: int): (r: (State, int))
    requires k < |s.actors| && s.actors[k].Life?
    ensures r.0 == State(s.level, RemoveAt(s.actors, k), s.status) && r.1 == lives + 1
  {
    (State(s.level, RemoveAt(s.actors, k), s.status), lives + 1)
  }

  /** `Shield.prototype.collide`: the shield at `k` is removed and the player becomes protected. */
  function ShieldCollide(s: State, k: nat): (r: State)
    requires k < |s.actors| && s.actors[k].Shield?
    ensures r == State(s.level, RemoveAt(s.actors, k), Protected)
  {
    State(s.level, RemoveAt(s.actors, k), Protected)
  }

  /** The handler an actor removes itself in: the pickups always, a monster when stomped. */
  predicate Consumed(a: Actor, player: Actor) {
    a.Coin? || a.Life? || a.Shield? || (a.Monster? && Stomped(a, player))
  }

  /** `actor.collide(newState, time)` for the actor at `k`, threading the lives counter: the handler
      removes its own actor exactly when it is consumed, never touches the level, and only a life
      changes the counter. */
  function Collide(s: State, k: nat, lives: int): (r: (State, int))
    requires k < |s.actors| && !s.actors[k].Player? && HasPlayer(s.actors)
    ensures r.0.level == s.level
    ensures r.0.actors == if Consumed(s.actors[k], FindPlayer(s.actors)) then RemoveAt(s.actors, k) else s.actors
    ensures r.1 == if s.actors[k].Life? then lives + 1 else lives
    ensures s.actors[k].Lava? ==> r.0.status == Hurt(s.status)
    ensures s.actors[k].Coin? ==> r.0.status == if HasCoin(r.0.actors) then s.status else Won
    ensures s.actors[k].Monster? ==>
      r.0.status == if Stomped(s.actors[k], FindPlayer(s.actors)) then s.status else Hurt(s.status)
    ensures s.actors[k].Life? ==> r.0.status == s.status
    ensures s.actors[k].Shield? ==> r.0.status == Protected
  {
    match s.actors[k]
    case Lava(_, _, _, _, _) => (LavaCollide(s), lives)
    case Coin(_, _, _) => (CoinCollide(s, k), lives)
    case Monster(_) => (MonsterCollide(s, k), lives)
    case Life(_, _, _) => LifeCollide(s, k, lives)
    case Shield(_, _, _) => (ShieldCollide(s, k), lives)
  }

  /** Every handler keeps "won means every coin was collected": a won status is only ever set when the
      last coin goes, and nothing puts a coin back. */
  lemma CollideKeepsWonFair(s: State, k: nat, lives: int)
    requires k < |s.actors| && !s.actors[k].Player? && HasPlayer(s.actors)
    requires s.status == Won ==> !HasCoin(s.actors)
    ensures var r := Collide(s, k, lives).0; r.status == Won ==> !HasCoin(r.actors)
  {
  }
}
