/** The map and the server's check of player actions, AsciiTerra_Server/GameServer.cpp. */
module WorldMaps {
  import opened Wrappers
  import opened GameRules
  import opened GameWorlds

  const WIDTH := 40
  const HEIGHT := 40
  const HILL: UInt8 := 4

  predicate OnBorder(x: int, y: int) {
    x == 0 || x == WIDTH - 1 || y == 0 || y == HEIGHT - 1
  }

  /** Hills all around, and none inside. */
  ghost predicate Bordered(tiles: seq<UInt8>) {
    && |tiles| == WIDTH * HEIGHT
    && forall x, y | 0 <= x < WIDTH && 0 <= y < HEIGHT :: tiles[x + y * WIDTH] == HILL <==> OnBorder(x, y)
  }

  /** What the rows above `y`, and in row `y` the tiles left of `x`, must look like. */
  ghost predicate FilledUpTo(tiles: seq<UInt8>, y: int, x: int)
    requires |tiles| == WIDTH * HEIGHT
  {
    forall i, j | 0 <= i < WIDTH && 0 <= j < HEIGHT && (j < y || (j == y && i < x)) ::
      tiles[i + j * WIDTH] == HILL <==> OnBorder(i, j)
  }

  /** How many numbers have been drawn when it is the turn of this tile: one for each tile inside. */
  function DrawnBefore(x: int, y: int): int {
    if y == 0 then 0
    else if y >= HEIGHT - 1 then (WIDTH - 2) * (HEIGHT - 2)
    else (y - 1) * (WIDTH - 2) + if x == 0 then 0 else if x >= WIDTH - 1 then WIDTH - 2 else x - 1
  }

  /** Inside the hills, the tiles are the numbers drawn, row by row, cut down to the tiles that are none. */
  ghost predicate Drawn(tiles: seq<UInt8>, random: nat -> nat) {
    && |tiles| == WIDTH * HEIGHT
    && forall i, j | 0 <= i < WIDTH && 0 <= j < HEIGHT && !OnBorder(i, j) ::
         tiles[i + j * WIDTH] == random((i - 1) + (j - 1) * (WIDTH - 2)) % HILL
  }

  ghost predicate DrawnUpTo(tiles: seq<UInt8>, random: nat -> nat, y: int, x: int)
    requires |tiles| == WIDTH * HEIGHT
  {
    forall i, j | 0 <= i < WIDTH && 0 <= j < HEIGHT && !OnBorder(i, j) && (j < y || (j == y && i < x)) ::
      tiles[i + j * WIDTH] == random((i - 1) + (j - 1) * (WIDTH - 2)) % HILL
  }

  /** `random(n)` is the n-th number drawn. */
  method GenerateMap(tiles: array<UInt8>, random: nat -> nat)
    requires tiles.Length == WIDTH * HEIGHT
    modifies tiles
    ensures Bordered(tiles[..]) && Drawn(tiles[..], random)
  {
    var draws := 0;
    for height := 0 to HEIGHT
      invariant FilledUpTo(tiles[..], height, 0) && DrawnUpTo(tiles[..], random, height, 0)
      invariant draws == DrawnBefore(0, height)
    {
      for width := 0 to WIDTH
        invariant FilledUpTo(tiles[..], height, width) && DrawnUpTo(tiles[..], random, height, width)
        invariant draws == DrawnBefore(width, height)
      {
        var tile := width + height * WIDTH;
        ghost var before := tiles[..];
        if width == 0 || width == WIDTH - 1 || height == 0 || height == HEIGHT - 1 {
          tiles[tile] := HILL;
        } else {
          tiles[tile] := random(draws) % HILL;
          draws := draws + 1;
        }
        FillingOne(before, height, width, tiles[tile]);
        DrawingOne(before, random, height, width, tiles[tile]);
        assert tiles[..] == before[tile := tiles[tile]];
      }
    }
  }

  lemma FillingOne(tiles: seq<UInt8>, y: nat, x: nat, t: UInt8)
    requires |tiles| == WIDTH * HEIGHT && x < WIDTH && y < HEIGHT && FilledUpTo(tiles, y, x)
    requires t == HILL <==> OnBorder(x, y)
    ensures FilledUpTo(tiles[x + y * WIDTH := t], y, x + 1)
  {
  }

  lemma DrawingOne(tiles: seq<UInt8>, random: nat -> nat, y: nat, x: nat, t: UInt8)
    requires |tiles| == WIDTH * HEIGHT && x < WIDTH && y < HEIGHT && DrawnUpTo(tiles, random, y, x)
    requires !OnBorder(x, y) ==> t == random((x - 1) + (y - 1) * (WIDTH - 2)) % HILL
    ensures DrawnUpTo(tiles[x + y * WIDTH := t], random, y, x + 1)
  {
  }

  // ---- CheckPlayerAction ---------------------------------------------------------------------------

  /** `Thrown` is the exception for an unknown player, `OutOfMap` a tile index beyond the map. */
  datatype Verdict = Approved | Refused | Thrown | OutOfMap

  /** Someone stands where the action points. */
  predicate HasTarget(w: World, id: UInt32, direction: Coords)
    requires id in w.players
  {
    var spot := Plus(w.players[id].fighter.coords, direction);
    || (exists k | k in w.players :: Hit(w.players[k], spot, Some(w.players[id].id)))
    || (exists i | 0 <= i < |w.enemies| :: HitEnemy(w.enemies[i], spot, None))
  }

  /** The source's bounds test, which lets coordinates equal to the width and the height pass. */
  predicate PassesBounds(c: Coords) {
    !(c.x < 0 || c.x > WIDTH || c.y < 0 || c.y > HEIGHT)
  }

  function TileIndex(c: Coords): int {
    c.x + c.y * WIDTH
  }

  function Check(w: World, tiles: seq<UInt8>, a: PlayerAction): Verdict {
    if a.playerId !in w.players then Thrown
    else if w.players[a.playerId].fighter.hp <= 0 then Refused
    else
      match a.kind
      case Attack => if HasTarget(w, a.playerId, a.direction) then Approved else Refused
      case EndTurn => Refused
      case Move =>
        CheckTile(tiles, Plus(w.players[a.playerId].fighter.coords, a.direction))
  }

  function CheckTile(tiles: seq<UInt8>, target: Coords): Verdict {
    if !PassesBounds(target) then Refused
    else if TileIndex(target) >= |tiles| then OutOfMap
    else if tiles[TileIndex(target)] == HILL then Refused
    else Approved
  }

  lemma PlayersAreFound(players: map<UInt32, Player>, order: seq<UInt32>, spot: Coords, except: Option<UInt32>)
    requires (forall k | k in players :: players[k].id == k) && VisitingOrder(order, players.Keys)
    ensures PlayersHit(players, order, spot, except) != [] <==> exists k | k in players :: Hit(players[k], spot, except)
  {
    PlayersHitAreDistinct(players, order, spot, except);
    var hit := PlayersHit(players, order, spot, except);
    if hit != [] {
      assert hit[0] in hit;
    }
  }

  lemma EnemiesAreFound(enemies: seq<Enemy>, spot: Coords, friends: Option<UInt32>)
    ensures EnemiesHit(enemies, spot, friends) != []
            <==> exists i | 0 <= i < |enemies| :: HitEnemy(enemies[i], spot, friends)
  {
    EnemiesHitAreDistinct(enemies, spot, friends);
    var hit := EnemiesHit(enemies, spot, friends);
    assert NamesEnemiesHit(hit, enemies, spot, friends);
    if hit != [] {
      assert hit[0] < |enemies| && HitEnemy(enemies[hit[0]], spot, friends);
    }
  }

  /** `valid` of the target finders, for any visiting order. */
  lemma TargetsAreFoundInEveryOrder(w: World, id: UInt32, direction: Coords, order: seq<UInt32>)
    requires WorldInv(w) && id in w.players && VisitingOrder(order, w.players.Keys)
    ensures var spot := Plus(w.players[id].fighter.coords, direction);
            HasTarget(w, id, direction)
            <==> PlayersHit(w.players, order, spot, Some(id)) != [] || EnemiesHit(w.enemies, spot, None) != []
  {
    var spot := Plus(w.players[id].fighter.coords, direction);
    PlayersAreFound(w.players, order, spot, Some(id));
    EnemiesAreFound(w.enemies, spot, None);
  }

  /** The row below the map, and the place right of its last tile. */
  predicate BelowTheMap(c: Coords) {
    PassesBounds(c) && (c.y == HEIGHT || (c.y == HEIGHT - 1 && c.x == WIDTH))
  }

  /** The bounds test is off by one: it keeps the tile index on the map exactly when the target is not
      in the row below the map, nor just right of its last row. */
  lemma BoundsTestIsExactExceptBelow(c: Coords)
    requires PassesBounds(c)
    ensures 0 <= TileIndex(c)
    ensures TileIndex(c) < WIDTH * HEIGHT <==> !BelowTheMap(c)
  {
  }

  predicate Inside(c: Coords) {
    1 <= c.x <= WIDTH - 2 && 1 <= c.y <= HEIGHT - 2
  }

  /** With hills around the map, a tile is approved exactly when it lies inside them, however far away
      the mover was. */
  lemma ApprovedExactlyInside(tiles: seq<UInt8>, target: Coords)
    requires Bordered(tiles)
    ensures CheckTile(tiles, target) == Approved <==> Inside(target)
    ensures CheckTile(tiles, target) == OutOfMap <==> BelowTheMap(target)
    ensures Inside(target) ==> 0 <= TileIndex(target) < |tiles| && tiles[TileIndex(target)] != HILL
  {
    if PassesBounds(target) && !BelowTheMap(target) {
      var x, y := if target.x == WIDTH then 0 else target.x, if target.x == WIDTH then target.y + 1 else target.y;
      assert TileIndex(target) == x + y * WIDTH;
      assert tiles[x + y * WIDTH] == HILL <==> OnBorder(x, y);
    }
  }

  /** What the check says of a move, exactly. */
  lemma MovesAreCheckedExactly(w: World, tiles: seq<UInt8>, a: PlayerAction)
    requires Bordered(tiles) && a.kind == Move
    ensures var v := Check(w, tiles, a);
            if a.playerId !in w.players then v == Thrown
            else
              var mover := w.players[a.playerId].fighter;
              && (v == Approved <==> mover.hp > 0 && Inside(Plus(mover.coords, a.direction)))
              && (v == OutOfMap <==> mover.hp > 0 && BelowTheMap(Plus(mover.coords, a.direction)))
  {
    if a.playerId in w.players {
      ApprovedExactlyInside(tiles, Plus(w.players[a.playerId].fighter.coords, a.direction));
    }
  }

  /** Another player, or an enemy, stands one step from this player. */
  ghost predicate SomeoneStands(w: World, id: UInt32, direction: Coords)
    requires id in w.players
  {
    var p := w.players[id];
    || (exists k :: k in w.players && w.players[k].id != p.id
                    && Reaches(p.fighter.coords, direction, 1, w.players[k].fighter.coords))
    || (exists i :: 0 <= i < |w.enemies| && Reaches(p.fighter.coords, direction, 1, w.enemies[i].fighter.coords))
  }

  lemma TargetsStandThere(w: World, id: UInt32, direction: Coords)
    requires id in w.players
    ensures HasTarget(w, id, direction) <==> SomeoneStands(w, id, direction)
  {
    var from := w.players[id].fighter.coords;
    forall k | k in w.players
      ensures Same(w.players[k].fighter.coords, Plus(from, direction))
              <==> Reaches(from, direction, 1, w.players[k].fighter.coords)
    {
      SameIsOneStepAway(w.players[k].fighter.coords, from, direction);
    }
    forall i | 0 <= i < |w.enemies|
      ensures Same(w.enemies[i].fighter.coords, Plus(from, direction))
              <==> Reaches(from, direction, 1, w.enemies[i].fighter.coords)
    {
      SameIsOneStepAway(w.enemies[i].fighter.coords, from, direction);
    }
  }

  /** What the check says of an attack, exactly: it never reads the map, and wants a living attacker and
      someone to hit. Ending a turn is never approved. */
  lemma AttacksAreCheckedExactly(w: World, tiles: seq<UInt8>, a: PlayerAction)
    requires a.kind != Move
    ensures var v := Check(w, tiles, a);
            && (v == Thrown <==> a.playerId !in w.players)
            && v != OutOfMap
            && (v == Approved <==>
                  && a.playerId in w.players && a.kind == Attack
                  && w.players[a.playerId].fighter.hp > 0
                  && SomeoneStands(w, a.playerId, a.direction))
  {
    if a.playerId in w.players {
      TargetsStandThere(w, a.playerId, a.direction);
    }
  }

  predicate OneStep(direction: Coords) {
    -1 <= direction.x <= 1 && -1 <= direction.y <= 1
  }

  lemma OneStepFromInside(c: Coords, direction: Coords)
    requires Inside(c) && OneStep(direction)
    ensures !BelowTheMap(Plus(c, direction))
  {
    assert Plus(c, direction).x == c.x + direction.x && Plus(c, direction).y == c.y + direction.y;
  }
}
