/** The game world as the object whose methods change players and enemies in place. */
module GameObjects {
  import opened Wrappers
  import opened GameRules
  import opened GameWorlds

  lemma {:induction false} PlayersHitAppend(
      players: map<UInt32, Player>, a: seq<UInt32>, k: UInt32, spot: Coords, except: Option<UInt32>)
    requires k in players && forall i | i in a :: i in players
    ensures PlayersHit(players, a + [k], spot, except)
            == PlayersHit(players, a, spot, except) + if Hit(players[k], spot, except) then [players[k].id] else []
  {
    if a == [] {
      assert a + [k] == [k] && [k][1..] == [];
    } else {
      assert (a + [k])[1..] == a[1..] + [k];
      PlayersHitAppend(players, a[1..], k, spot, except);
    }
  }

  /** Changing fighters without moving them changes no target list. */
  lemma {:induction false} PlayersHitDependsOnPlaces(
      players: map<UInt32, Player>, players': map<UInt32, Player>, order: seq<UInt32>,
      spot: Coords, except: Option<UInt32>)
    requires forall k | k in order ::
               && k in players && k in players' && players'[k].id == players[k].id
               && players'[k].fighter.coords == players[k].fighter.coords
    ensures PlayersHit(players', order, spot, except) == PlayersHit(players, order, spot, except)
  {
    if order != [] {
      PlayersHitDependsOnPlaces(players, players', order[1..], spot, except);
    }
  }

  lemma {:induction false} EnemiesHitDependsOnPlaces(
      enemies: seq<Enemy>, enemies': seq<Enemy>, spot: Coords, friends: Option<UInt32>)
    requires |enemies'| == |enemies|
    requires forall i | 0 <= i < |enemies| ::
               enemies'[i].faction == enemies[i].faction && enemies'[i].fighter.coords == enemies[i].fighter.coords
    ensures EnemiesHit(enemies', spot, friends) == EnemiesHit(enemies, spot, friends)
  {
    if enemies != [] {
      EnemiesHitDependsOnPlaces(enemies[..|enemies| - 1], enemies'[..|enemies'| - 1], spot, friends);
    }
  }

  class GameWorld {
    var players: map<UInt32, Player>
    var enemies: seq<Enemy>

    ghost function State(): World
      reads this
    {
      World(players, enemies)
    }

    /** The player loop of both target finders. */
    method FindPlayers(order: seq<UInt32>, spot: Coords, except: Option<UInt32>) returns (ids: seq<UInt32>)
      requires forall k | k in order :: k in players
      ensures ids == PlayersHit(players, order, spot, except)
    {
      ids := [];
      for i := 0 to |order|
        invariant ids == PlayersHit(players, order[..i], spot, except)
      {
        var p := players[order[i]];
        PlayersHitAppend(players, order[..i], order[i], spot, except);
        assert order[..i + 1] == order[..i] + [order[i]];
        if except != Some(p.id) {
          if Same(p.fighter.coords, spot) {
            ids := ids + [p.id];
          }
        }
      }
      assert order[..|order|] == order;
    }

    /** The enemy loop of both target finders. */
    method FindEnemies(spot: Coords, friends: Option<UInt32>) returns (ids: seq<nat>)
      ensures ids == EnemiesHit(enemies, spot, friends)
    {
      ids := [];
      for i := 0 to |enemies|
        invariant ids == EnemiesHit(enemies[..i], spot, friends)
      {
        assert enemies[..i + 1][..i] == enemies[..i];
        if friends != Some(enemies[i].faction) {
          if Same(enemies[i].fighter.coords, spot) {
            ids := ids + [i];
          }
        }
      }
      assert enemies[..|enemies|] == enemies;
    }

    /** The two damage loops of both `MakeAttack`s. */
    method DealDamage(playerIds: seq<UInt32>, enemyIds: seq<nat>, damage: UInt32)
      requires forall k | k in playerIds :: k in players
      requires (forall i | 0 <= i < |enemyIds| :: enemyIds[i] < |enemies|)
      modifies this
      ensures players == DamageInTurn(old(players), playerIds, damage)
      ensures enemies == DamageEnemiesInTurn(old(enemies), enemyIds, damage)
    {
      for i := 0 to |playerIds|
        invariant players.Keys == old(players.Keys)
        invariant DamageInTurn(players, playerIds[i..], damage) == DamageInTurn(old(players), playerIds, damage)
        invariant enemies == old(enemies)
      {
        var id := playerIds[i];
        assert playerIds[i..][1..] == playerIds[i + 1..];
        players := players[id := players[id].(fighter := Hurt(players[id].fighter, damage))];
      }
      for i := 0 to |enemyIds|
        invariant |enemies| == |old(enemies)|
        invariant DamageEnemiesInTurn(enemies, enemyIds[i..], damage)
          == DamageEnemiesInTurn(old(enemies), enemyIds, damage)
        invariant players == DamageInTurn(old(players), playerIds, damage)
      {
        var id := enemyIds[i];
        assert enemyIds[i..][1..] == enemyIds[i + 1..];
        enemies := enemies[id := enemies[id].(fighter := Hurt(enemies[id].fighter, damage))];
      }
    }

    /** The attack of a player: find the targets, pay for the blow, deal the damage. */
    method PlayerAttack(id: UInt32, direction: Coords, order: seq<UInt32>)
      requires WorldInv(State()) && id in players && VisitingOrder(order, players.Keys)
      modifies this
      ensures State() == PlayerAttacksFree(old(State()), id, direction)
    {
      var spot := Plus(players[id].fighter.coords, direction);
      var playerIds := FindPlayers(order, spot, Some(id));
      var enemyIds := FindEnemies(spot, None);
      ghost var w := State();
      ghost var (paid, damage') := PlayerPays(w, id);
      var (fighter, damage) := Strike(players[id].fighter);
      StrikeSpends(players[id].fighter);
      players := players[id := players[id].(fighter := fighter)];
      if damage.Some? {
        PlayersHitDependsOnPlaces(w.players, players, order, spot, Some(id));
        BlowIsOrderFree(players, order, spot, Some(id), damage.value);
        EnemyBlowInClosedForm(enemies, spot, None, damage.value);
        DealDamage(playerIds, enemyIds, damage.value);
      }
    }

    /** The base attack of an enemy. */
    method EnemyAttack(id: nat, a: EnemyAction, order: seq<UInt32>)
      requires WorldInv(State()) && id < |enemies| && VisitingOrder(order, players.Keys) && a.kind == EnemyBaseAttack
      modifies this
      ensures State() == EnemyActsFree(old(State()), id, a)
    {
      var spot := Plus(enemies[id].fighter.coords, a.direction);
      var friends := Some(enemies[id].faction);
      var playerIds := FindPlayers(order, spot, None);
      var enemyIds := FindEnemies(spot, friends);
      ghost var w := State();
      ghost var (paid, damage') := EnemyPays(w, id);
      var (fighter, damage) := Strike(enemies[id].fighter);
      StrikeSpends(enemies[id].fighter);
      enemies := enemies[id := enemies[id].(fighter := fighter)];
      if damage.Some? {
        EnemiesHitDependsOnPlaces(w.enemies, enemies, spot, friends);
        BlowIsOrderFree(players, order, spot, None, damage.value);
        EnemyBlowInClosedForm(enemies, spot, friends, damage.value);
        DealDamage(playerIds, enemyIds, damage.value);
      }
    }

    method MakeApprovedAction(id: UInt32, a: PlayerAction, order: seq<UInt32>)
      requires WorldInv(State()) && id in players && VisitingOrder(order, players.Keys)
      modifies this
      ensures State() == PlayerActs(old(State()), id, a, order) && WorldInv(State())
    {
      if a.kind == Move {
        players := players[id := players[id].(fighter := Moved(players[id].fighter, a.direction))];
      }
      if a.kind == Move || a.kind == Attack {
        PlayerAttack(id, a.direction, order);
      }
      players := players[id := Spent(players[id])];
    }

    method MakeEnemyAction(id: nat, a: EnemyAction, order: seq<UInt32>)
      requires WorldInv(State()) && id < |enemies| && VisitingOrder(order, players.Keys)
      modifies this
      ensures State() == EnemyActs(old(State()), id, a, order) && WorldInv(State())
    {
      match a.kind
      case EnemyMove =>
        enemies := enemies[id := enemies[id].(fighter := Moved(enemies[id].fighter, a.direction))];
      case EnemyBaseAttack =>
        EnemyAttack(id, a, order);
    }
  }
}
