/** The level: the text plan, the grid and start actors it is parsed into, and the tile query
    (`touches`) every movement rule is checked against. */
module Levels {
  import opened Wrappers
  import opened Geometry
  import Actors

  /** The three tile kinds of the grid. */
  datatype Tile = Empty | Wall | Lava

  /** A parsed level. `rows` is indexed `rows[y][x]`; `width` is the length of the first row only, so
      later rows may be shorter or longer than `width`. */
  datatype Level = Level(width: int, height: int, rows: seq<seq<Tile>>, startActors: seq<Actors.Actor>) {
    /** What the constructor establishes: at least one row, `height` rows, `width` the first row's length. */
    predicate Valid() {
      |rows| > 0 && height == |rows| && width == |rows[0]|
    }
  }

  // ---------------------------------------------------------------------------------------------
  // Text: `String.prototype.trim` and `split('\n')`

  /** The characters `trim` removes: ECMAScript white space and line terminators. */
  predicate IsSpace(c: char) {
    ('\t' <= c <= '\r') || c == ' ' || c == '\U{A0}' || c == '\U{1680}' || ('\U{2000}' <= c <= '\U{200A}')
    || c == '\U{2028}' || c == '\U{2029}' || c == '\U{202F}' || c == '\U{205F}' || c == '\U{3000}'
    || c == '\U{FEFF}'
  }

  /** The index of the first character of `s` at or after `i` that is not white space. */
  function SkipSpace(s: string, i: nat): (j: nat)
    requires i <= |s|
    ensures i <= j <= |s|
    ensures forall k | i <= k < j :: IsSpace(s[k])
    ensures j == |s| || !IsSpace(s[j])
    decreases |s| - i
  {
    if i < |s| && IsSpace(s[i]) then SkipSpace(s, i + 1) else i
  }

  /** The index just after the last character of `s[lo..j]` that is not white space. */
  function SkipSpaceBack(s: string, lo: nat, j: nat): (e: nat)
    requires lo <= j <= |s|
    ensures lo <= e <= j
    ensures forall k | e <= k < j :: IsSpace(s[k])
    ensures e == lo || !IsSpace(s[e - 1])
  {
    if lo < j && IsSpace(s[j - 1]) then SkipSpaceBack(s, lo, j - 1) else j
  }

  /** `trim()`: the slice of `s` between its leading and its trailing white space. Everything removed
      is white space, and the result neither starts nor ends with white space, so exactly the white
      space at both ends is removed. */
  function Trim(s: string): (r: string)
    ensures var i := SkipSpace(s, 0); var j := SkipSpaceBack(s, i, |s|);
      r == s[i..j] &&
      (forall k | 0 <= k < i :: IsSpace(s[k])) &&
      (forall k | j <= k < |s| :: IsSpace(s[k]))
    ensures r == [] || (!IsSpace(r[0]) && !IsSpace(r[|r| - 1]))
  {
    var i := SkipSpace(s, 0);
    s[i..SkipSpaceBack(s, i, |s|)]
  }

  /** `split('\n')`: the pieces between line breaks, always at least one. */
  function Lines(s: string): (r: seq<string>)
    ensures |r| >= 1
    ensures forall k | 0 <= k < |r| :: '\n' !in r[k]
  {
    if s == [] then [[]]
    else
      var rest := Lines(s[1..]);
      if s[0] == '\n' then [[]] + rest else [[s[0]] + rest[0]] + rest[1..]
  }

  /** `join('\n')`, the inverse of `Lines`. */
  function Join(r: seq<string>): (s: string)
    requires |r| >= 1
  {
    if |r| == 1 then r[0] else r[0] + "\n" + Join(r[1..])
  }

  /** Joining the pieces `Lines` cuts gives back the text. */
  lemma {:induction false} JoinLines(s: string)
    ensures Join(Lines(s)) == s
  {
    if s != [] {
      var rest := Lines(s[1..]);
      JoinLines(s[1..]);
      if s[0] != '\n' {
        var head := [[s[0]] + rest[0]] + rest[1..];
        if |rest| == 1 {
          assert Join(head) == [s[0]] + rest[0];
        } else {
          assert head[1..] == rest[1..];
          assert Join(head) == [s[0]] + rest[0] + "\n" + Join(rest[1..]);
        }
        assert s == [s[0]] + s[1..];
      }
    }
  }

  lemma {:induction false} LinesOfLine(u: string)
    requires '\n' !in u
    ensures Lines(u) == [u]
  {
    if u != [] {
      LinesOfLine(u[1..]);
      assert [u[0]] + u[1..] == u;
    }
  }

  lemma {:induction false} LinesOfBreak(u: string, w: string)
    requires '\n' !in u
    ensures Lines(u + "\n" + w) == [u] + Lines(w)
  {
    if u == [] {
      assert (u + "\n" + w)[1..] == w;
    } else {
      assert (u + "\n" + w)[1..] == u[1..] + "\n" + w;
      LinesOfBreak(u[1..], w);
      assert [u[0]] + u[1..] == u;
    }
  }

  /** Cutting a join of break-free pieces gives back the pieces. */
  lemma {:induction false} LinesJoin(r: seq<string>)
    requires |r| >= 1
    requires forall k | 0 <= k < |r| :: '\n' !in r[k]
    ensures Lines(Join(r)) == r
  {
    if |r| == 1 {
      LinesOfLine(r[0]);
    } else {
      LinesJoin(r[1..]);
      LinesOfBreak(r[0], Join(r[1..]));
      assert [r[0]] + r[1..] == r;
    }
  }

  // ---------------------------------------------------------------------------------------------
  // Parsing (`new Level(plan)` with `levelChars`)

  /** The characters `levelChars` has a key for. */
  predicate IsLevelChar(ch: char) {
    ch == '.' || ch == '#' || ch == '+' || Actors.IsActorChar(ch)
  }

  /** The tile kind `levelChars` names directly by a string. */
  function TileOf(ch: char): (t: Tile)
    requires ch == '.' || ch == '#' || ch == '+'
  {
    match ch
    case '.' => Empty
    case '#' => Wall
    case '+' => Lava
  }

  /** The tile left in a cell: an actor's cell becomes `'empty'`. */
  function CellTile(ch: char): (t: Tile)
    requires IsLevelChar(ch)
  {
    if Actors.IsActorChar(ch) then Empty else TileOf(ch)
  }

  /** The rows of characters the plan is cut into. */
  function Rows(plan: string): (rows: seq<string>) {
    Lines(Trim(plan))
  }

  /** Every character of every row is a key of `levelChars` (the game fails on any other). */
  predicate WellFormedPlan(plan: string) {
    var rows := Rows(plan);
    forall y, x | 0 <= y < |rows| && 0 <= x < |rows[y]| :: IsLevelChar(rows[y][x])
  }

  predicate LevelChars(line: string) {
    forall x | 0 <= x < |line| :: IsLevelChar(line[x])
  }

  /** The number of characters in `line` that create an actor. */
  function ActorCount(line: string): (n: nat) {
    if line == [] then 0 else (if Actors.IsActorChar(line[0]) then 1 else 0) + ActorCount(line[1..])
  }

  /** The number of characters in `lines` that create an actor. */
  function ActorCountAll(lines: seq<string>): (n: nat) {
    if lines == [] then 0 else ActorCount(lines[0]) + ActorCountAll(lines[1..])
  }

  /** The tiles of one row. */
  function TileRow(line: string): (r: seq<Tile>)
    requires LevelChars(line)
  {
    seq(|line|, x requires 0 <= x < |line| => CellTile(line[x]))
  }

  /** The tiles of all rows. */
  function TileGrid(lines: seq<string>): (r: seq<seq<Tile>>)
    requires forall j | 0 <= j < |lines| :: LevelChars(lines[j])
  {
    seq(|lines|, y requires 0 <= y < |lines| => TileRow(lines[y]))
  }

  /** The actors created from `line[x..]`, the line being row `y`, left to right. */
  function RowActors(line: string, x: nat, y: int, wobble: (int, int) -> real): (r: seq<Actors.Actor>)
    requires x <= |line| && LevelChars(line)
    ensures |r| == ActorCount(line[x..])
    ensures forall k | 0 <= k < |r| :: r[k].Valid()
    decreases |line| - x
  {
    if x == |line| then []
    else
      assert line[x..][1..] == line[x + 1..];
      var here := if Actors.IsActorChar(line[x]) then [Actors.Create(line[x], x, y, wobble(x, y))] else [];
      here + RowActors(line, x + 1, y, wobble)
  }

  /** The actors created from `lines[y..]`, top to bottom. */
  function GridActors(lines: seq<string>, y: nat, wobble: (int, int) -> real): (r: seq<Actors.Actor>)
    requires y <= |lines|
    requires forall j | 0 <= j < |lines| :: LevelChars(lines[j])
    ensures |r| == ActorCountAll(lines[y..])
    ensures forall k | 0 <= k < |r| :: r[k].Valid()
    decreases |lines| - y
  {
    if y == |lines| then []
    else
      assert lines[y..][1..] == lines[y + 1..];
      RowActors(lines[y], 0, y, wobble) + GridActors(lines, y + 1, wobble)
  }

  /** `new Level(plan)`: height and width from the trimmed rows, one tile per character, and the
      actors in row-major scan order. */
  function Parse(plan: string, wobble: (int, int) -> real): (l: Level)
    requires WellFormedPlan(plan)
    ensures l.Valid()
    ensures l.height == |l.rows| == |Rows(plan)| && l.width == |Rows(plan)[0]|
  {
    var lines := Rows(plan);
    assert forall j | 0 <= j < |lines| :: LevelChars(lines[j]);
    Level(|lines[0]|, |lines|, TileGrid(lines), GridActors(lines, 0, wobble))
  }

  /** The constructor as the game runs it: a `map` over the rows, each row mapped by `ParseRow`. */
  method NewLevel(plan: string, wobble: (int, int) -> real) returns (l: Level)
    requires WellFormedPlan(plan)
    ensures l == Parse(plan, wobble)
  {
    var lines := Lines(Trim(plan));
    assert lines == Rows(plan);
    assert forall j | 0 <= j < |lines| :: LevelChars(lines[j]);
    var startActors: seq<Actors.Actor> := [];
    var grid: seq<seq<Tile>> := [];
    for y := 0 to |lines|
      invariant grid == TileGrid(lines)[..y]
      invariant startActors + GridActors(lines, y, wobble) == GridActors(lines, 0, wobble)
    {
      ghost var before := startActors;
      var row;
      row, startActors := ParseRow(lines[y], y, wobble, startActors);
      RowDone(lines, y, wobble, before, startActors, grid, row);
      grid := grid + [row];
    }
    assert startActors == GridActors(lines, 0, wobble);
    assert grid == TileGrid(lines);
    l := Level(|lines[0]|, |lines|, grid, startActors);
  }

  /** After row `y` the pushed actors and the mapped rows extend the prefixes the scan has reached. */
  lemma RowDone(lines: seq<string>, y: nat, wobble: (int, int) -> real, before: seq<Actors.Actor>,
                after: seq<Actors.Actor>, grid: seq<seq<Tile>>, row: seq<Tile>)
    requires y < |lines| && forall j | 0 <= j < |lines| :: LevelChars(lines[j])
    requires before + GridActors(lines, y, wobble) == GridActors(lines, 0, wobble)
    requires after == before + RowActors(lines[y], 0, y, wobble)
    requires grid == TileGrid(lines)[..y] && row == TileRow(lines[y])
    ensures after + GridActors(lines, y + 1, wobble) == GridActors(lines, 0, wobble)
    ensures grid + [row] == TileGrid(lines)[..y + 1]
  {
    assert GridActors(lines, y, wobble) == RowActors(lines[y], 0, y, wobble) + GridActors(lines, y + 1, wobble);
  }

  /** The inner `map` of the constructor over row `y`: each character becomes its tile, and each actor
      character pushes its newly created actor onto `startActors` and leaves `'empty'`. */
  method ParseRow(line: string, y: int, wobble: (int, int) -> real, startActors: seq<Actors.Actor>)
    returns (row: seq<Tile>, pushed: seq<Actors.Actor>)
    requires LevelChars(line)
    ensures row == TileRow(line)
    ensures pushed == startActors + RowActors(line, 0, y, wobble)
  {
    row, pushed := [], startActors;
    for x := 0 to |line|
      invariant row == TileRow(line)[..x]
      invariant pushed + RowActors(line, x, y, wobble) == startActors + RowActors(line, 0, y, wobble)
    {
      var ch := line[x];
      if Actors.IsActorChar(ch) {
        pushed := pushed + [Actors.Create(ch, x, y, wobble(x, y))];
        row := row + [Empty];
      } else {
        row := row + [TileOf(ch)];
      }
      assert TileRow(line)[..x + 1] == TileRow(line)[..x] + [CellTile(ch)];
    }
    assert row == TileRow(line);
  }

  /** Each cell of the parsed grid: a wall for `#`, lava for `+`, empty for `.` and for every
      character that created an actor; rows keep the length of their text line. */
  lemma ParsedGrid(plan: string, wobble: (int, int) -> real, x: int, y: int)
    requires WellFormedPlan(plan)
    requires 0 <= y < |Rows(plan)| && 0 <= x < |Rows(plan)[y]|
    ensures var l := Parse(plan, wobble); var ch := Rows(plan)[y][x];
      |l.rows[y]| == |Rows(plan)[y]| &&
      (l.rows[y][x] == Wall <==> ch == '#') &&
      (l.rows[y][x] == Lava <==> ch == '+') &&
      (Actors.IsActorChar(ch) ==> l.rows[y][x] == Empty)
  {
  }

  /** The number of `@` characters in `line`. */
  function PlayerChars(line: string): (n: nat)
    ensures n <= ActorCount(line)
  {
    if line == [] then 0 else (if line[0] == '@' then 1 else 0) + PlayerChars(line[1..])
  }

  /** The number of `@` characters in `lines`. */
  function PlayerCharsAll(lines: seq<string>): (n: nat)
    ensures n <= ActorCountAll(lines)
  {
    if lines == [] then 0 else PlayerChars(lines[0]) + PlayerCharsAll(lines[1..])
  }

  /** A row creates one player per `@` character. */
  lemma {:induction false} RowPlayers(line: string, x: nat, y: int, wobble: (int, int) -> real)
    requires x <= |line| && LevelChars(line)
    ensures Actors.PlayerCount(RowActors(line, x, y, wobble)) == PlayerChars(line[x..])
    decreases |line| - x
  {
    if x < |line| {
      assert line[x..][1..] == line[x + 1..];
      var here := if Actors.IsActorChar(line[x]) then [Actors.Create(line[x], x, y, wobble(x, y))] else [];
      RowPlayers(line, x + 1, y, wobble);
      Actors.PlayerCountSplit(here, RowActors(line, x + 1, y, wobble));
      assert Actors.PlayerCount(here) == if line[x] == '@' then 1 else 0 by {
        if here != [] {
          assert here[1..] == [];
        }
      }
    }
  }

  /** The rows from `y` on create one player per `@` character. */
  lemma {:induction false} GridPlayers(lines: seq<string>, y: nat, wobble: (int, int) -> real)
    requires y <= |lines|
    requires forall j | 0 <= j < |lines| :: LevelChars(lines[j])
    ensures Actors.PlayerCount(GridActors(lines, y, wobble)) == PlayerCharsAll(lines[y..])
    decreases |lines| - y
  {
    if y < |lines| {
      assert lines[y..][1..] == lines[y + 1..];
      assert lines[y][0..] == lines[y];
      RowPlayers(lines[y], 0, y, wobble);
      GridPlayers(lines, y + 1, wobble);
      Actors.PlayerCountSplit(RowActors(lines[y], 0, y, wobble), GridActors(lines, y + 1, wobble));
    }
  }

  lemma {:induction false} ActorCountSplit(a: string, b: string)
    ensures ActorCount(a + b) == ActorCount(a) + ActorCount(b)
  {
    if a == [] {
      assert a + b == b;
    } else {
      assert (a + b)[0] == a[0];
      assert (a + b)[1..] == a[1..] + b;
      ActorCountSplit(a[1..], b);
    }
  }

  lemma {:induction false} ActorCountAllSplit(a: seq<string>, b: seq<string>)
    ensures ActorCountAll(a + b) == ActorCountAll(a) + ActorCountAll(b)
  {
    if a == [] {
      assert a + b == b;
    } else {
      assert (a + b)[0] == a[0];
      assert (a + b)[1..] == a[1..] + b;
      ActorCountAllSplit(a[1..], b);
    }
  }

  /** Within one row, the actor of the character at `x` stands after the actors of the characters
      between `x0` and `x`. */
  lemma {:induction false} RowActorsAt(line: string, x0: nat, x: nat, y: int, wobble: (int, int) -> real)
    requires LevelChars(line) && x0 <= x < |line| && Actors.IsActorChar(line[x])
    ensures ActorCount(line[x0..x]) < |RowActors(line, x0, y, wobble)|
    ensures RowActors(line, x0, y, wobble)[ActorCount(line[x0..x])] == Actors.Create(line[x], x, y, wobble(x, y))
    decreases x - x0
  {
    if x0 < x {
      RowActorsAt(line, x0 + 1, x, y, wobble);
      assert line[x0..x][1..] == line[x0 + 1..x];
    }
  }

  /** Across rows, the actor of the cell `(x, y)` stands after the actors of all earlier rows and of
      the earlier cells of its own row. */
  lemma {:induction false} GridActorsAt(lines: seq<string>, y0: nat, x: nat, y: nat, wobble: (int, int) -> real)
    requires forall j | 0 <= j < |lines| :: LevelChars(lines[j])
    requires y0 <= y < |lines| && x < |lines[y]| && Actors.IsActorChar(lines[y][x])
    ensures ActorCountAll(lines[y0..y]) + ActorCount(lines[y][..x]) < |GridActors(lines, y0, wobble)|
    ensures GridActors(lines, y0, wobble)[ActorCountAll(lines[y0..y]) + ActorCount(lines[y][..x])]
            == Actors.Create(lines[y][x], x, y, wobble(x, y))
    decreases y - y0
  {
    if y0 < y {
      GridActorsAt(lines, y0 + 1, x, y, wobble);
      assert lines[y0..y][1..] == lines[y0 + 1..y];
      assert lines[y0..y][0] == lines[y0];
    } else {
      RowActorsAt(lines[y], 0, x, y, wobble);
      assert lines[y][0..x] == lines[y][..x];
    }
  }

  /** The start actors are exactly one actor per actor character, in row-major scan order: their
      number is the number of actor characters, and the actor of the cell `(x, y)` sits at the index
      counting the actor characters of the rows above and of the cells to its left. */
  lemma StartActorsInScanOrder(plan: string, wobble: (int, int) -> real, x: nat, y: nat)
    requires WellFormedPlan(plan)
    requires y < |Rows(plan)| && x < |Rows(plan)[y]| && Actors.IsActorChar(Rows(plan)[y][x])
    ensures var rows := Rows(plan); var l := Parse(plan, wobble);
      var k := ActorCountAll(rows[..y]) + ActorCount(rows[y][..x]);
      |l.startActors| == ActorCountAll(rows) &&
      k < |l.startActors| && l.startActors[k] == Actors.Create(rows[y][x], x, y, wobble(x, y))
  {
    var rows := Rows(plan);
    assert forall j | 0 <= j < |rows| :: LevelChars(rows[j]);
    GridActorsAt(rows, 0, x, y, wobble);
    assert rows[0..y] == rows[..y];
    assert rows[0..] == rows;
  }

  /** Scan order is strict: a cell further along the row-major scan gets a later index. */
  lemma {:induction false} ScanIndexIncreases(rows: seq<string>, x: nat, y: nat, x': nat, y': nat)
    requires y < |rows| && x < |rows[y]| && Actors.IsActorChar(rows[y][x])
    requires y' < |rows| && x' <= |rows[y']|
    requires y < y' || (y == y' && x < x')
    ensures ActorCountAll(rows[..y]) + ActorCount(rows[y][..x]) < ActorCountAll(rows[..y']) + ActorCount(rows[y'][..x'])
  {
    if y == y' {
      assert rows[y][..x'] == rows[y][..x] + [rows[y][x]] + rows[y][x + 1..x'];
      ActorCountSplit(rows[y][..x] + [rows[y][x]], rows[y][x + 1..x']);
      ActorCountSplit(rows[y][..x], [rows[y][x]]);
    } else {
      assert rows[y] == rows[y][..x] + [rows[y][x]] + rows[y][x + 1..];
      ActorCountSplit(rows[y][..x] + [rows[y][x]], rows[y][x + 1..]);
      ActorCountSplit(rows[y][..x], [rows[y][x]]);
      assert rows[..y'] == rows[..y] + [rows[y]] + rows[y + 1..y'];
      ActorCountAllSplit(rows[..y] + [rows[y]], rows[y + 1..y']);
      ActorCountAllSplit(rows[..y], [rows[y]]);
      assert ActorCountAll([rows[y]]) == ActorCount(rows[y]) by {
        assert [rows[y]][1..] == [];
      }
    }
  }

  // ---------------------------------------------------------------------------------------------
  // `Level.prototype.touches`

  /** What the grid holds at integer cell `(x, y)`: a wall outside the grid, `None` (the game's
      `undefined`) beyond the end of a row shorter than `width`, otherwise the tile. */
  function TileAt(l: Level, x: int, y: int): (t: Option<Tile>)
    requires l.Valid()
  {
    if x < 0 || x >= l.width || y < 0 || y >= l.height then Some(Wall)
    else if x < |l.rows[y]| then Some(l.rows[y][x])
    else None
  }

  /** The box `[pos, pos + size)` covers some cell of the given kind, the covered cells being those
      from the floor of its low corner up to, not including, the ceiling of its high corner. */
  predicate CoversKind(l: Level, pos: Vec, size: Vec, kind: Tile)
    requires l.Valid()
  {
    exists y, x | Floor(pos.y) <= y < Ceil(pos.y + size.y) && Floor(pos.x) <= x < Ceil(pos.x + size.x) ::
      TileAt(l, x, y) == Some(kind)
  }

  /** `touches` as the game runs it: rows of cells top to bottom, each left to right, stopping at the
      first cell of the requested kind. */
  method Touches(l: Level, pos: Vec, size: Vec, kind: Tile) returns (found: bool)
    requires l.Valid()
    ensures found == CoversKind(l, pos, size, kind)
  {
    var xStart := Floor(pos.x);
    var xEnd := Ceil(pos.x + size.x);
    var yStart := Floor(pos.y);
    var yEnd := Ceil(pos.y + size.y);
    var y := yStart;
    while y < yEnd
      invariant yStart <= y
      invariant forall y', x' | yStart <= y' < y && xStart <= x' < xEnd :: TileAt(l, x', y') != Some(kind)
    {
      var x := xStart;
      while x < xEnd
        invariant xStart <= x
        invariant forall x' | xStart <= x' < x :: TileAt(l, x', y) != Some(kind)
      {
        var isOutside := x < 0 || x >= l.width || y < 0 || y >= l.height;
        var here := if isOutside then Some(Wall) else if x < |l.rows[y]| then Some(l.rows[y][x]) else None;
        if here == Some(kind) {
          assert TileAt(l, x, y) == Some(kind);
          return true;
        }
        x := x + 1;
      }
      y := y + 1;
    }
    return false;
  }

  /** A box with positive size that reaches outside the grid on any side touches wall. */
  lemma OutsideTouchesWall(l: Level, pos: Vec, size: Vec)
    requires l.Valid() && size.x > 0.0 && size.y > 0.0
    requires pos.x < 0.0 || pos.y < 0.0 || pos.x + size.x > l.width as real || pos.y + size.y > l.height as real
    ensures CoversKind(l, pos, size, Wall)
  {
    var x := if pos.x < 0.0 then Floor(pos.x) else Ceil(pos.x + size.x) - 1;
    var y := if pos.y < 0.0 || pos.x < 0.0 || pos.x + size.x > l.width as real then
               Floor(pos.y)
             else Ceil(pos.y + size.y) - 1;
    assert Floor(pos.x) <= x < Ceil(pos.x + size.x);
    assert Floor(pos.y) <= y < Ceil(pos.y + size.y);
    assert TileAt(l, x, y) == Some(Wall);
  }

  /** A unit box standing exactly on the integer cell `(x, y)` touches a kind exactly when that one
      cell holds it: the floor and ceiling bounds are not off by one. */
  lemma UnitBoxCoversOnlyItsCell(l: Level, x: int, y: int, kind: Tile)
    requires l.Valid()
    ensures CoversKind(l, Vec(x as real, y as real), Vec(1.0, 1.0), kind) <==> TileAt(l, x, y) == Some(kind)
  {
    RoundingOfIntegers(x);
    RoundingOfIntegers(x + 1);
    RoundingOfIntegers(y);
    RoundingOfIntegers(y + 1);
  }

  /** Touching is monotone in the box: a box containing another touches every kind the smaller one
      touches. */
  lemma CoversMonotone(l: Level, pos: Vec, size: Vec, pos': Vec, size': Vec, kind: Tile)
    requires l.Valid()
    requires pos'.x <= pos.x && pos'.y <= pos.y
    requires pos.x + size.x <= pos'.x + size'.x && pos.y + size.y <= pos'.y + size'.y
    requires CoversKind(l, pos, size, kind)
    ensures CoversKind(l, pos', size', kind)
  {
    RoundingMonotone(pos'.x, pos.x);
    RoundingMonotone(pos'.y, pos.y);
    RoundingMonotone(pos.x + size.x, pos'.x + size'.x);
    RoundingMonotone(pos.y + size.y, pos'.y + size'.y);
  }
}
