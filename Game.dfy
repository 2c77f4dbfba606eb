/** One tick of the game: every actor moves against the previous state, a finished level stops
    there, a lava tile under the player ends the run, and otherwise the handlers of the actors
    touching the player are applied left to right, each to the state the previous one returned. */
module Game {
  import opened Geometry
  import opened Actors
  import opened World
  import opened Motion
  import opened Collisions
  import Levels

  /** `this.actors.map(actor => actor.update(time, this, keys, touch))`: one new actor per old one, of
      the same class and at the same position in the list, so there is still exactly one player. */
  function Moved(s: State, time: real, keys: Held, touch: Held, trig: Trig): (moved: seq<Actor>)
    requires s.Valid()
    ensures |moved| == |s.actors|
    ensures forall k | 0 <= k < |moved| :: moved[k] == UpdateActor(s.actors[k], time, s, keys, touch, trig)
    ensures forall k | 0 <= k < |moved| :: SameKind(s.actors[k], moved[k]) && moved[k].Valid()
    ensures SinglePlayer(moved)
  {
    var moved := seq(|s.actors|, k requires 0 <= k < |s.actors| => UpdateActor(s.actors[k], time, s, keys, touch, trig));
    PlayerCountOfSameKinds(s.actors, moved);
    PlayerCountFacts(moved);
    moved
  }

  /** What the collision loop carries from one actor to the next: `at`, the position in the working
      list of the moved actor the loop is at; the working state (`newState`); and the lives counter. */
  datatype Loop = Loop(at: nat, state: State, lives: int)

  /** What the collision loop keeps true after `i` of the moved actors: `p` is the only player among
      them, the moved actors from `i` on stand unchanged at the end of the working list from `at`, and
      every player in the working list is the moved player. */
  predicate Folding(moved: seq<Actor>, p: nat, i: nat, c: Loop) {
    p < |moved| && moved[p].Player? && (forall j | 0 <= j < |moved| && moved[j].Player? :: j == p) &&
    i <= |moved| && c.at <= |c.state.actors| && c.state.actors[c.at..] == moved[i..] &&
    HasPlayer(c.state.actors) &&
    forall j | 0 <= j < |c.state.actors| && c.state.actors[j].Player? :: c.state.actors[j] == moved[p]
  }

  /** The moved actor at `i` is not the player and overlaps it, so its handler runs. */
  predicate Hits(moved: seq<Actor>, p: nat, i: nat)
    requires p < |moved| && i < |moved|
  {
    i != p && Overlap(moved[i], moved[p])
  }

  /** The loop's invariant carries over an actor whose handler does not run. */
  lemma FoldingSkip(moved: seq<Actor>, p: nat, i: nat, c: Loop)
    requires Folding(moved, p, i, c) && i < |moved|
    ensures c.at < |c.state.actors| && c.state.actors[c.at] == moved[i]
    ensures Folding(moved, p, i + 1, Loop(c.at + 1, c.state, c.lives))
  {
    var a := c.state.actors;
    assert a[c.at..][0] == a[c.at];
    assert a[c.at + 1..] == a[c.at..][1..];
  }

  /** The loop's invariant carries over a handler call, whether or not it removes its actor. */
  lemma FoldingCollide(moved: seq<Actor>, p: nat, i: nat, c: Loop)
    requires Folding(moved, p, i, c) && i < |moved| && Hits(moved, p, i)
    ensures c.at < |c.state.actors| && c.state.actors[c.at] == moved[i]
    ensures var next := Collide(c.state, c.at, c.lives);
      Folding(moved, p, i + 1, Loop(if |next.0.actors| == |c.state.actors| then c.at + 1 else c.at, next.0, next.1))
  {
    FoldingSkip(moved, p, i, c);
    var next := Collide(c.state, c.at, c.lives);
    if |next.0.actors| != |c.state.actors| {
      FoldingRemove(moved, p, i, c, next.0, next.1);
    }
  }

  /** The loop's invariant carries over a handler that removes its own actor from the working list. */
  lemma FoldingRemove(moved: seq<Actor>, p: nat, i: nat, c: Loop, st: State, lives: int)
    requires Folding(moved, p, i, c) && i < |moved| && i != p
    requires c.at < |c.state.actors| && c.state.actors[c.at] == moved[i]
    requires st.actors == RemoveAt(c.state.actors, c.at)
    ensures Folding(moved, p, i + 1, Loop(c.at, st, lives))
  {
    var a := c.state.actors;
    var q := PlayerIndex(a);
    RemoveAtKeeps(a, c.at, q);
    assert a[c.at..][1..] == a[c.at + 1..];
    assert st.actors[c.at..] == a[c.at + 1..];
  }

  /** One turn of `for (let actor of actors) if (actor !== player && overlap(actor, player)) newState =
      actor.collide(newState, time)`, at the moved actor `i`. A handler that removes its actor
      shortens the working list, so the position of the next actor is then the same. */
  function Turn(moved: seq<Actor>, p: nat, i: nat, c: Loop): (n: Loop)
    requires Folding(moved, p, i, c) && i < |moved|
    ensures Folding(moved, p, i + 1, n)
    ensures n.state.level == c.state.level
  {
    FoldingSkip(moved, p, i, c);
    if Hits(moved, p, i) then
      FoldingCollide(moved, p, i, c);
      var next := Collide(c.state, c.at, c.lives);
      Loop(if |next.0.actors| == |c.state.actors| then c.at + 1 else c.at, next.0, next.1)
    else Loop(c.at + 1, c.state, c.lives)
  }

  /** The collision loop over the moved actors from `i` on. */
  function Resolve(moved: seq<Actor>, p: nat, i: nat, c: Loop): (r: Loop)
    requires Folding(moved, p, i, c)
    ensures r.state.level == c.state.level
    decreases |moved| - i
  {
    if i == |moved| then c else Resolve(moved, p, i + 1, Turn(moved, p, i, c))
  }

  /** The collision loop started on the moved actors, with the player at `p`. */
  function CollisionPhase(moved: seq<Actor>, p: nat, status: Status, level: Levels.Level, lives: int): (r: (State, int))
    requires Folding(moved, p, 0, Loop(0, State(level, moved, status), lives))
    ensures r.0.level == level
  {
    var end := Resolve(moved, p, 0, Loop(0, State(level, moved, status), lives));
    (end.state, end.lives)
  }

  /** `State.prototype.update`, as a function of the previous state and the lives counter. */
  function Step(s: State, time: real, keys: Held, touch: Held, trig: Trig, lives: int): (r: (State, int))
    requires s.Valid()
    ensures r.0.level == s.level
  {
    var moved := Moved(s, time, keys, touch, trig);
    if s.status != Playing && s.status != Protected then (State(s.level, moved, s.status), lives)
    else
      SinglePlayerIsFound(moved);
      PlayerCountFacts(moved);
      var p := PlayerIndex(moved);
      if Levels.CoversKind(s.level, moved[p].pos, Size(moved[p]), Levels.Lava) && s.status != Protected then
        (State(s.level, moved, Lost), lives)
      else
        CollisionPhase(moved, p, s.status, s.level, lives)
  }

  /** `State.prototype.update`: move every actor, stop on a finished level or a lava tile under an
      unshielded player, and otherwise run the collision loop. The result is the one `Step`
      describes. */
  method Update(s: State, time: real, keys: Held, touch: Held, trig: Trig, lives: int)
    returns (next: State, livesAfter: int)
    requires s.Valid()
    ensures (next, livesAfter) == Step(s, time, keys, touch, trig, lives)
  {
    var actors := Moved(s, time, keys, touch, trig);
    next := State(s.level, actors, s.status);
    livesAfter := lives;
    if next.status != Playing && next.status != Protected {
      return;
    }
    SinglePlayerIsFound(actors);
    PlayerCountFacts(actors);
    var p := PlayerIndex(actors);
    var player := actors[p];
    var inLava := Levels.Touches(s.level, player.pos, Size(player), Levels.Lava);
    if inLava && s.status != Protected {
      next := State(s.level, actors, Lost);
      return;
    }
    next, livesAfter := CollideAll(actors, p, next, lives);
  }

  /** The collision loop of `State.prototype.update`, over the moved actors with the player at `p`,
      starting from the state `start` whose actors are the moved ones. */
  method CollideAll(actors: seq<Actor>, p: nat, start: State, lives: int) returns (next: State, livesAfter: int)
    requires Folding(actors, p, 0, Loop(0, start, lives))
    ensures (next, livesAfter) == CollisionPhase(actors, p, start.status, start.level, lives)
  {
    assert start == State(start.level, actors, start.status) by {
      assert start.actors[0..] == start.actors;
    }
    next, livesAfter := start, lives;
    var player := actors[p];
    var at := 0;
    for i := 0 to |actors|
      invariant Folding(actors, p, i, Loop(at, next, livesAfter))
      invariant Resolve(actors, p, i, Loop(at, next, livesAfter)) == Resolve(actors, p, 0, Loop(0, start, lives))
    {
      FoldingSkip(actors, p, i, Loop(at, next, livesAfter));
      ghost var turn := Turn(actors, p, i, Loop(at, next, livesAfter));
      if i != p && Overlap(actors[i], player) {
        var before := |next.actors|;
        var collided := Collide(next, at, livesAfter);
        next, livesAfter := collided.0, collided.1;
        if |next.actors| == before {
          at := at + 1;
        }
      } else {
        at := at + 1;
      }
      assert Loop(at, next, livesAfter) == turn;
    }
  }

  /** The actors the loop leaves from the moved actors `i..`: those whose handler does not remove them,
      in their order. */
  function Survivors(moved: seq<Actor>, p: nat, i: nat): (r: seq<Actor>)
    requires p < |moved| && i <= |moved|
    decreases |moved| - i
  {
    if i == |moved| then []
    else if Hits(moved, p, i) && Consumed(moved[i], moved[p]) then Survivors(moved, p, i + 1)
    else [moved[i]] + Survivors(moved, p, i + 1)
  }

  /** The lives picked up among the moved actors `i..`: one per life touching the player. */
  function LivesGained(moved: seq<Actor>, p: nat, i: nat): (n: nat)
    requires p < |moved| && i <= |moved|
    decreases |moved| - i
  {
    if i == |moved| then 0
    else (if Hits(moved, p, i) && moved[i].Life? then 1 else 0) + LivesGained(moved, p, i + 1)
  }

  /** A hit that hurts: lava, or a monster the player does not land on. */
  predicate Harms(a: Actor, player: Actor) {
    a.Lava? || (a.Monster? && !Stomped(a, player))
  }

  /** One turn, described by the moved actor `i` and the moved player: an actor that does not touch
      the player changes nothing; one that does is removed exactly when consumed, and adds a life
      exactly when it is a life. */
  lemma TurnEffect(moved: seq<Actor>, p: nat, i: nat, c: Loop)
    requires Folding(moved, p, i, c) && i < |moved|
    ensures var n := Turn(moved, p, i, c);
      (!Hits(moved, p, i) ==> n == Loop(c.at + 1, c.state, c.lives)) &&
      (Hits(moved, p, i) ==>
        n.state.actors == (if Consumed(moved[i], moved[p]) then RemoveAt(c.state.actors, c.at) else c.state.actors) &&
        n.at == (if Consumed(moved[i], moved[p]) then c.at else c.at + 1) &&
        n.lives == (if moved[i].Life? then c.lives + 1 else c.lives))
  {
    FoldingSkip(moved, p, i, c);
    FindPlayerOfUniform(c.state.actors, moved[p]);
  }

  /** The status after one turn, by the class of the moved actor `i` when it touches the player. */
  lemma TurnStatus(moved: seq<Actor>, p: nat, i: nat, c: Loop)
    requires Folding(moved, p, i, c) && i < |moved|
    ensures var n := Turn(moved, p, i, c).state.status;
      (!Hits(moved, p, i) ==> n == c.state.status) &&
      (Hits(moved, p, i) ==>
        (Harms(moved[i], moved[p]) ==> n == Hurt(c.state.status)) &&
        (moved[i].Monster? && !Harms(moved[i], moved[p]) ==> n == c.state.status) &&
        (moved[i].Life? ==> n == c.state.status) &&
        (moved[i].Shield? ==> n == Protected))
  {
    FoldingSkip(moved, p, i, c);
    FindPlayerOfUniform(c.state.actors, moved[p]);
  }

  /** One turn moves the boundary between the kept actors and the actors still to visit by one moved
      actor, keeping it unless it is consumed. */
  lemma TurnSurvivors(moved: seq<Actor>, p: nat, i: nat, c: Loop)
    requires Folding(moved, p, i, c) && i < |moved|
    ensures var n := Turn(moved, p, i, c);
      c.state.actors[..c.at] + Survivors(moved, p, i) == n.state.actors[..n.at] + Survivors(moved, p, i + 1)
  {
    TurnEffect(moved, p, i, c);
    var n := Turn(moved, p, i, c);
    var a := c.state.actors;
    if Hits(moved, p, i) && Consumed(moved[i], moved[p]) {
      assert n.state.actors[..n.at] == a[..c.at];
    } else {
      assert n.state.actors[..n.at] == a[..c.at] + [moved[i]];
    }
  }

  /** The loop removes exactly the actors whose handlers consume them, and keeps the rest in order. */
  lemma {:induction false} ResolveSurvivors(moved: seq<Actor>, p: nat, i: nat, c: Loop)
    requires Folding(moved, p, i, c)
    ensures Resolve(moved, p, i, c).state.actors == c.state.actors[..c.at] + Survivors(moved, p, i)
    decreases |moved| - i
  {
    if i == |moved| {
      assert c.state.actors[..c.at] == c.state.actors;
    } else {
      TurnSurvivors(moved, p, i, c);
      ResolveSurvivors(moved, p, i + 1, Turn(moved, p, i, c));
    }
  }

  /** The loop adds one life per life touching the player. */
  lemma {:induction false} ResolveLives(moved: seq<Actor>, p: nat, i: nat, c: Loop)
    requires Folding(moved, p, i, c)
    ensures Resolve(moved, p, i, c).lives == c.lives + LivesGained(moved, p, i)
    decreases |moved| - i
  {
    if i < |moved| {
      TurnEffect(moved, p, i, c);
      ResolveLives(moved, p, i + 1, Turn(moved, p, i, c));
    }
  }

  /** With no actor from `i` on touching the player, the loop changes nothing. */
  lemma {:induction false} ResolveUntouched(moved: seq<Actor>, p: nat, i: nat, c: Loop)
    requires Folding(moved, p, i, c)
    requires forall j | i <= j < |moved| :: !Hits(moved, p, j)
    ensures Resolve(moved, p, i, c).state == c.state && Resolve(moved, p, i, c).lives == c.lives
    decreases |moved| - i
  {
    if i < |moved| {
      TurnEffect(moved, p, i, c);
      ResolveUntouched(moved, p, i + 1, Turn(moved, p, i, c));
    }
  }

  /** A raised shield holds through the loop unless a coin is touched (the last coin wins the level). */
  lemma {:induction false} ResolveShieldHolds(moved: seq<Actor>, p: nat, i: nat, c: Loop)
    requires Folding(moved, p, i, c) && c.state.status == Protected
    requires forall j | i <= j < |moved| && Hits(moved, p, j) :: !moved[j].Coin?
    ensures Resolve(moved, p, i, c).state.status == Protected
    decreases |moved| - i
  {
    if i < |moved| {
      TurnStatus(moved, p, i, c);
      ResolveShieldHolds(moved, p, i + 1, Turn(moved, p, i, c));
    }
  }

  /** Some moved actor from `i` on touches the player and hurts it. */
  predicate HarmFrom(moved: seq<Actor>, p: nat, i: nat)
    requires p < |moved| && i <= |moved|
    decreases |moved| - i
  {
    i < |moved| && ((Hits(moved, p, i) && Harms(moved[i], moved[p])) || HarmFrom(moved, p, i + 1))
  }

  lemma {:induction false} HarmFromWitness(moved: seq<Actor>, p: nat, i: nat, j: nat)
    requires p < |moved| && i <= j < |moved| && Hits(moved, p, j) && Harms(moved[j], moved[p])
    ensures HarmFrom(moved, p, i)
    decreases j - i
  {
    if i < j {
      HarmFromWitness(moved, p, i + 1, j);
    }
  }

  /** Without a shield, touching lava or an unstomped monster loses the level unless a coin or a
      shield is also touched; life pickups and stomps do not undo the loss. */
  lemma {:induction false} ResolveUnshieldedHarm(moved: seq<Actor>, p: nat, i: nat, c: Loop)
    requires Folding(moved, p, i, c) && (c.state.status == Playing || c.state.status == Lost)
    requires forall j | i <= j < |moved| && Hits(moved, p, j) :: !moved[j].Coin? && !moved[j].Shield?
    requires c.state.status == Lost || HarmFrom(moved, p, i)
    ensures Resolve(moved, p, i, c).state.status == Lost
    decreases |moved| - i
  {
    if i < |moved| {
      TurnStatus(moved, p, i, c);
      ResolveUnshieldedHarm(moved, p, i + 1, Turn(moved, p, i, c));
    }
  }

  /** "Won" is only ever reached with no coin left: the loop keeps it so. */
  lemma {:induction false} ResolveWonFair(moved: seq<Actor>, p: nat, i: nat, c: Loop)
    requires Folding(moved, p, i, c)
    requires c.state.status == Won ==> !HasCoin(c.state.actors)
    ensures var r := Resolve(moved, p, i, c).state; r.status == Won ==> !HasCoin(r.actors)
    decreases |moved| - i
  {
    if i < |moved| {
      FoldingSkip(moved, p, i, c);
      if Hits(moved, p, i) {
        CollideKeepsWonFair(c.state, c.at, c.lives);
      }
      ResolveWonFair(moved, p, i + 1, Turn(moved, p, i, c));
    }
  }

  /** The survivors come from the moved actors and include all their players. */
  lemma {:induction false} SurvivorsFacts(moved: seq<Actor>, p: nat, i: nat)
    requires p < |moved| && i <= |moved|
    ensures PlayerCount(Survivors(moved, p, i)) == PlayerCount(moved[i..])
    ensures forall a | a in Survivors(moved, p, i) :: a in moved[i..]
    decreases |moved| - i
  {
    if i < |moved| {
      SurvivorsFacts(moved, p, i + 1);
      PlayerCountSplit([moved[i]], Survivors(moved, p, i + 1));
      assert moved[i..] == [moved[i]] + moved[i + 1..];
      PlayerCountSplit([moved[i]], moved[i + 1..]);
    }
  }

  /** The collision phase a tick reaches, with `p` the moved player. */
  predicate Colliding(s: State, moved: seq<Actor>, p: nat)
    requires p < |moved| && s.level.Valid()
  {
    (s.status == Playing || s.status == Protected) &&
    !(Levels.CoversKind(s.level, moved[p].pos, Size(moved[p]), Levels.Lava) && s.status != Protected)
  }

  /** How `Step` continues after moving the actors: the moved player is the only one, a tick that
      reaches the collision phase gives what the collision loop gives, and one that does not keeps or
      loses the level with the moved actors and the same lives. */
  lemma StepCollides(s: State, time: real, keys: Held, touch: Held, trig: Trig, lives: int)
    requires s.Valid()
    ensures var moved := Moved(s, time, keys, touch, trig);
      var p := PlayerIndex(moved);
      var r := Step(s, time, keys, touch, trig, lives);
      p < |moved| && Folding(moved, p, 0, Loop(0, State(s.level, moved, s.status), lives)) &&
      (Colliding(s, moved, p) ==> r == CollisionPhase(moved, p, s.status, s.level, lives)) &&
      (!Colliding(s, moved, p) ==>
        r.0.actors == moved && r.1 == lives && r.0.status == (if s.status == Playing then Lost else s.status))
  {
    var moved := Moved(s, time, keys, touch, trig);
    SinglePlayerIsFound(moved);
    PlayerCountFacts(moved);
  }

  /** A finished level stays finished: the actors still move, but status and lives are kept. */
  lemma FinishedStaysFinished(s: State, time: real, keys: Held, touch: Held, trig: Trig, lives: int)
    requires s.Valid() && (s.status == Won || s.status == Lost)
    ensures var r := Step(s, time, keys, touch, trig, lives);
      r.0.status == s.status && r.1 == lives && r.0.actors == Moved(s, time, keys, touch, trig)
  {
  }

  /** Standing in a lava tile without a shield loses the level, with the moved actors and no pickups. */
  lemma LavaTileLoses(s: State, time: real, keys: Held, touch: Held, trig: Trig, lives: int)
    requires s.Valid() && s.status == Playing
    requires var moved := Moved(s, time, keys, touch, trig);
      forall k | 0 <= k < |moved| && moved[k].Player? ::
        Levels.CoversKind(s.level, moved[k].pos, Size(moved[k]), Levels.Lava)
    ensures Step(s, time, keys, touch, trig, lives) == (State(s.level, Moved(s, time, keys, touch, trig), Lost), lives)
  {
    var moved := Moved(s, time, keys, touch, trig);
    PlayerCountFacts(moved);
    var p := PlayerIndex(moved);
    assert Levels.CoversKind(s.level, moved[p].pos, Size(moved[p]), Levels.Lava);
  }

  /** In the collision phase, the new actor list is the moved list without the actors whose handlers
      removed them, and the lives counter grows by the lives touched. */
  lemma StepOutcome(s: State, time: real, keys: Held, touch: Held, trig: Trig, lives: int)
    requires s.Valid()
    ensures var moved := Moved(s, time, keys, touch, trig);
      var r := Step(s, time, keys, touch, trig, lives);
      var p := PlayerIndex(moved);
      Colliding(s, moved, p) ==>
        r.0.actors == Survivors(moved, p, 0) && r.1 == lives + LivesGained(moved, p, 0)
  {
    var moved := Moved(s, time, keys, touch, trig);
    var p := PlayerIndex(moved);
    StepCollides(s, time, keys, touch, trig, lives);
    if Colliding(s, moved, p) {
      ResolveSurvivors(moved, p, 0, Loop(0, State(s.level, moved, s.status), lives));
      ResolveLives(moved, p, 0, Loop(0, State(s.level, moved, s.status), lives));
    }
  }

  /** In the collision phase, when nothing touches the player the tick only moves the actors. */
  lemma NoContactNoChange(s: State, time: real, keys: Held, touch: Held, trig: Trig, lives: int)
    requires s.Valid()
    ensures var moved := Moved(s, time, keys, touch, trig);
      var p := PlayerIndex(moved);
      Colliding(s, moved, p) && (forall j | 0 <= j < |moved| :: !Hits(moved, p, j)) ==>
        Step(s, time, keys, touch, trig, lives) == (State(s.level, moved, s.status), lives)
  {
    var moved := Moved(s, time, keys, touch, trig);
    var p := PlayerIndex(moved);
    StepCollides(s, time, keys, touch, trig, lives);
    if Colliding(s, moved, p) && (forall j | 0 <= j < |moved| :: !Hits(moved, p, j)) {
      ResolveUntouched(moved, p, 0, Loop(0, State(s.level, moved, s.status), lives));
    }
  }

  /** A shield holds through a tick in which no coin touches the player. */
  lemma ShieldHolds(s: State, time: real, keys: Held, touch: Held, trig: Trig, lives: int)
    requires s.Valid() && s.status == Protected
    ensures var moved := Moved(s, time, keys, touch, trig);
      var p := PlayerIndex(moved);
      (forall j | 0 <= j < |moved| && Hits(moved, p, j) :: !moved[j].Coin?) ==>
        Step(s, time, keys, touch, trig, lives).0.status == Protected
  {
    var moved := Moved(s, time, keys, touch, trig);
    var p := PlayerIndex(moved);
    StepCollides(s, time, keys, touch, trig, lives);
    if forall j | 0 <= j < |moved| && Hits(moved, p, j) :: !moved[j].Coin? {
      ResolveShieldHolds(moved, p, 0, Loop(0, State(s.level, moved, s.status), lives));
    }
  }

  /** Without a shield, touching lava or an unstomped monster loses the level, unless a coin or shield
      is touched in the same tick. */
  lemma UnshieldedHarmLoses(s: State, time: real, keys: Held, touch: Held, trig: Trig, lives: int)
    requires s.Valid() && s.status == Playing
    ensures var moved := Moved(s, time, keys, touch, trig);
      var p := PlayerIndex(moved);
      (forall j | 0 <= j < |moved| && Hits(moved, p, j) :: !moved[j].Coin? && !moved[j].Shield?) &&
      (exists j | 0 <= j < |moved| :: Hits(moved, p, j) && Harms(moved[j], moved[p])) ==>
        Step(s, time, keys, touch, trig, lives).0.status == Lost
  {
    var moved := Moved(s, time, keys, touch, trig);
    var p := PlayerIndex(moved);
    StepCollides(s, time, keys, touch, trig, lives);
    if (forall j | 0 <= j < |moved| && Hits(moved, p, j) :: !moved[j].Coin? && !moved[j].Shield?) &&
       (exists j | 0 <= j < |moved| :: Hits(moved, p, j) && Harms(moved[j], moved[p])) {
      if Colliding(s, moved, p) {
        var j :| 0 <= j < |moved| && Hits(moved, p, j) && Harms(moved[j], moved[p]);
        HarmFromWitness(moved, p, 0, j);
        ResolveUnshieldedHarm(moved, p, 0, Loop(0, State(s.level, moved, s.status), lives));
      }
    }
  }

  /** The collision loop, started on the moved actors, leaves one player and well-formed actors. */
  lemma CollisionsKeepValid(moved: seq<Actor>, p: nat, start: Loop)
    requires Folding(moved, p, 0, start) && start.state.actors == moved && start.at == 0
    requires start.state.level.Valid() && SinglePlayer(moved) && forall k | 0 <= k < |moved| :: moved[k].Valid()
    ensures Resolve(moved, p, 0, start).state.Valid()
  {
    ResolveSurvivors(moved, p, 0, start);
    var out := Survivors(moved, p, 0);
    SurvivorsFacts(moved, p, 0);
    assert moved[0..] == moved;
    PlayerCountFacts(out);
    forall k | 0 <= k < |out|
      ensures out[k].Valid()
    {
      assert out[k] in moved[0..];
      var j :| 0 <= j < |moved| && moved[j] == out[k];
    }
    assert Resolve(moved, p, 0, start).state.actors == out;
  }

  /** A tick keeps the state one the engine can advance: same level, one player, well-formed
      actors. */
  lemma StepPreservesValid(s: State, time: real, keys: Held, touch: Held, trig: Trig, lives: int)
    requires s.Valid()
    ensures Step(s, time, keys, touch, trig, lives).0.Valid()
  {
    var moved := Moved(s, time, keys, touch, trig);
    var p := PlayerIndex(moved);
    StepCollides(s, time, keys, touch, trig, lives);
    if Colliding(s, moved, p) {
      SinglePlayerIsFound(moved);
      CollisionsKeepValid(moved, p, Loop(0, State(s.level, moved, s.status), lives));
    }
  }

  /** A won level never has a coin left, from one tick to the next. */
  lemma StepKeepsWonFair(s: State, time: real, keys: Held, touch: Held, trig: Trig, lives: int)
    requires s.Valid()
    requires s.status == Won ==> !HasCoin(s.actors)
    ensures var r := Step(s, time, keys, touch, trig, lives).0; r.status == Won ==> !HasCoin(r.actors)
  {
    var moved := Moved(s, time, keys, touch, trig);
    if HasCoin(moved) {
      var k :| 0 <= k < |moved| && moved[k].Coin?;
      assert s.actors[k].Coin?;
    }
    var p := PlayerIndex(moved);
    StepCollides(s, time, keys, touch, trig, lives);
    if Colliding(s, moved, p) {
      ResolveWonFair(moved, p, 0, Loop(0, State(s.level, moved, s.status), lives));
    }
  }

  /** The time step the frame loop feeds `update`: milliseconds since the last frame, capped at 100,
      in seconds. */
  function TimeStep(time: real, lastTime: real): (t: real)
    ensures t <= 0.1
    ensures time - lastTime <= 100.0 ==> t * 1000.0 == time - lastTime
  {
    (if time - lastTime < 100.0 then time - lastTime else 100.0) / 1000.0
  }
}
