/** The game state one tick works on, the input it reads, and how it finds the player. */
module World {
  import opened Geometry
  import opened Actors
  import Levels

  /** The status machine of a level run. */
  datatype Status = Playing | Protected | Won | Lost

  /** A snapshot: the shared level, the live actors in order, and the status. */
  datatype State = State(level: Levels.Level, actors: seq<Actor>, status: Status) {
    /** The state the engine can advance: a level as the constructor builds it, exactly one player,
        and well-formed actors. */
    predicate Valid() {
      level.Valid() && SinglePlayer(actors) && forall k | 0 <= k < |actors| :: actors[k].Valid()
    }
  }

  /** The directions held by one input source: `ArrowLeft`/`ArrowRight`/`ArrowUp` for the keyboard,
      `Left`/`Right`/`Up` for touch. A direction counts when either source holds it. */
  datatype Held = Held(left: bool, right: bool, up: bool)

  /** `Math.sin` and `Math.cos`, which the orbiting and wobbling actors use; the model leaves them
      uninterpreted. */
  datatype Trig = Trig(sin: real -> real, cos: real -> real)

  predicate HasPlayer(actors: seq<Actor>) {
    exists k | 0 <= k < |actors| :: actors[k].Player?
  }

  /** The index of the first player at or after `i`. */
  function PlayerFrom(actors: seq<Actor>, i: nat): (p: nat)
    requires i <= |actors|
    requires exists k | i <= k < |actors| :: actors[k].Player?
    ensures i <= p < |actors| && actors[p].Player?
    ensures forall j | i <= j < p :: !actors[j].Player?
    decreases |actors| - i
  {
    if actors[i].Player? then i else PlayerFrom(actors, i + 1)
  }

  /** `actors.find(a => a.type === 'player')`, as an index: the first player in the list. */
  function PlayerIndex(actors: seq<Actor>): (p: nat)
    requires HasPlayer(actors)
    ensures p < |actors| && actors[p].Player?
    ensures forall j | 0 <= j < p :: !actors[j].Player?
  {
    PlayerFrom(actors, 0)
  }

  /** The `player` getter. */
  function FindPlayer(actors: seq<Actor>): (a: Actor)
    requires HasPlayer(actors)
    ensures a.Player? && a in actors
  {
    actors[PlayerIndex(actors)]
  }

  /** Exactly one actor is a player. */
  predicate SinglePlayer(actors: seq<Actor>) {
    HasPlayer(actors) && PlayerCount(actors) == 1
  }

  /** Counting players agrees with searching for one, and a count of one leaves room for a single
      player position. */
  lemma {:induction false} PlayerCountFacts(actors: seq<Actor>)
    ensures PlayerCount(actors) > 0 <==> HasPlayer(actors)
    ensures PlayerCount(actors) == 1 ==>
      forall j, k | 0 <= j < |actors| && 0 <= k < |actors| && actors[j].Player? && actors[k].Player? :: j == k
  {
    if actors != [] {
      var t := actors[1..];
      PlayerCountFacts(t);
      assert forall k | 1 <= k < |actors| :: actors[k] == t[k - 1];
      if HasPlayer(t) {
        var k :| 0 <= k < |t| && t[k].Player?;
        assert actors[k + 1].Player?;
      }
    }
  }

  /** With a single player, the player `find` returns is the only one. */
  lemma SinglePlayerIsFound(actors: seq<Actor>)
    requires SinglePlayer(actors)
    ensures HasPlayer(actors)
    ensures forall k | 0 <= k < |actors| && actors[k].Player? :: k == PlayerIndex(actors) && actors[k] == FindPlayer(actors)
  {
    PlayerCountFacts(actors);
  }

  /** When every player in the list is the same value, that is the one `find` returns. */
  lemma FindPlayerOfUniform(actors: seq<Actor>, player: Actor)
    requires HasPlayer(actors)
    requires forall k | 0 <= k < |actors| && actors[k].Player? :: actors[k] == player
    ensures FindPlayer(actors) == player
  {
  }

  /** `State.start`: the level's start actors, playing. */
  function Start(level: Levels.Level): (s: State)
    ensures s.level == level && s.actors == level.startActors && s.status == Playing
  {
    State(level, level.startActors, Playing)
  }

  /** A level starts in a state the engine can advance exactly when its text has one `@`. */
  lemma StartIsValid(plan: string, wobble: (int, int) -> real)
    requires Levels.WellFormedPlan(plan)
    ensures Start(Levels.Parse(plan, wobble)).Valid() <==> Levels.PlayerCharsAll(Levels.Rows(plan)) == 1
  {
    var rows := Levels.Rows(plan);
    assert forall j | 0 <= j < |rows| :: Levels.LevelChars(rows[j]);
    Levels.GridPlayers(rows, 0, wobble);
    assert rows[0..] == rows;
    PlayerCountFacts(Levels.Parse(plan, wobble).startActors);
  }
}
