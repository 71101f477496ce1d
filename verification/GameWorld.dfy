/** The actions on the game world, in any order of visiting the players, and their replay. */
module GameWorlds {
  import opened Wrappers
  import opened GameRules

  datatype Player = Player(id: UInt32, fighter: Fighter, maxTurns: UInt32, currentTurns: UInt32)
  datatype Enemy = Enemy(faction: UInt32, maxActions: UInt32, fighter: Fighter)
  datatype World = World(players: map<UInt32, Player>, enemies: seq<Enemy>)

  datatype PlayerActionType = Move | Attack | EndTurn
  datatype EnemyActionType = EnemyMove | EnemyBaseAttack

  /** `direction` stands for ActionInfo[1], [2] and [3]. */
  datatype PlayerAction = PlayerAction(kind: PlayerActionType, playerId: UInt32, direction: Coords)
  datatype EnemyAction = EnemyAction(kind: EnemyActionType, enemyId: UInt32, direction: Coords)

  /** An order in which an unordered map may be visited: every key once. */
  ghost predicate VisitingOrder(order: seq<UInt32>, keys: set<UInt32>) {
    && (forall i, j | 0 <= i < j < |order| :: order[i] != order[j])
    && (forall k :: k in order <==> k in keys)
  }

  /** What registration establishes: players are filed under their own id. */
  ghost predicate WorldInv(w: World) {
    && (forall k | k in w.players :: w.players[k].id == k && FighterInv(w.players[k].fighter))
    && (forall i | 0 <= i < |w.enemies| :: FighterInv(w.enemies[i].fighter))
  }

  // ---- Finding targets ---------------------------------------------------------------------------

  predicate Hit(p: Player, spot: Coords, except: Option<UInt32>) {
    except != Some(p.id) && Same(p.fighter.coords, spot)
  }

  /** The ids of the players hit, in visiting order. */
  function PlayersHit(
      players: map<UInt32, Player>, order: seq<UInt32>, spot: Coords, except: Option<UInt32>): seq<UInt32>
    requires forall k | k in order :: k in players
  {
    if order == [] then []
    else
      (if Hit(players[order[0]], spot, except) then [players[order[0]].id] else [])
      + PlayersHit(players, order[1..], spot, except)
  }

  predicate HitEnemy(e: Enemy, spot: Coords, friends: Option<UInt32>) {
    friends != Some(e.faction) && Same(e.fighter.coords, spot)
  }

  /** The positions of the enemies hit, in list order. */
  function EnemiesHit(enemies: seq<Enemy>, spot: Coords, friends: Option<UInt32>): seq<nat> {
    if enemies == [] then []
    else
      var n := |enemies| - 1;
      EnemiesHit(enemies[..n], spot, friends) + if HitEnemy(enemies[n], spot, friends) then [n] else []
  }

  // ---- Dealing damage ----------------------------------------------------------------------------

  /** `PlayersList[id].TakeDamage`, one id after the other. */
  function DamageInTurn(players: map<UInt32, Player>, ids: seq<UInt32>, damage: UInt32): map<UInt32, Player>
    requires forall k | k in ids :: k in players
  {
    if ids == [] then players
    else
      var first := players[ids[0]];
      DamageInTurn(players[ids[0] := first.(fighter := Hurt(first.fighter, damage))], ids[1..], damage)
  }

  function DamageEnemiesInTurn(enemies: seq<Enemy>, ids: seq<nat>, damage: UInt32): seq<Enemy>
    requires forall i | 0 <= i < |ids| :: ids[i] < |enemies|
    decreases |ids|
  {
    if ids == [] then enemies
    else
      var e := enemies[ids[0]];
      DamageEnemiesInTurn(enemies[ids[0] := e.(fighter := Hurt(e.fighter, damage))], ids[1..], damage)
  }

  // ---- The same without any order ------------------------------------------------------------------

  lemma HurtKeepsInv(f: Fighter, damage: UInt32)
    requires FighterInv(f)
    ensures FighterInv(Hurt(f, damage)) && Hurt(f, damage).hp <= f.hp
  {
    HurtSaturates(f, damage);
  }

  /** Every player hit is hurt once. */
  function PlayersAfterBlow(players: map<UInt32, Player>, spot: Coords, except: Option<UInt32>, damage: UInt32)
    : map<UInt32, Player>
  {
    map k | k in players ::
      if Hit(players[k], spot, except) then players[k].(fighter := Hurt(players[k].fighter, damage)) else players[k]
  }

  function EnemiesAfterBlow(enemies: seq<Enemy>, spot: Coords, friends: Option<UInt32>, damage: UInt32): seq<Enemy> {
    seq(|enemies|, i requires 0 <= i < |enemies| =>
      if HitEnemy(enemies[i], spot, friends) then enemies[i].(fighter := Hurt(enemies[i].fighter, damage))
      else enemies[i])
  }

  /** Target lists name exactly the players hit, none twice. */
  lemma {:induction false} PlayersHitAreDistinct(
      players: map<UInt32, Player>, order: seq<UInt32>, spot: Coords, except: Option<UInt32>)
    requires forall k | k in order :: k in players && players[k].id == k
    requires forall i, j | 0 <= i < j < |order| :: order[i] != order[j]
    ensures var hit := PlayersHit(players, order, spot, except);
            && (forall k :: k in hit <==> k in order && Hit(players[k], spot, except))
            && (forall i, j | 0 <= i < j < |hit| :: hit[i] != hit[j])
  {
    if order != [] {
      PlayersHitAreDistinct(players, order[1..], spot, except);
      assert forall i | 0 < i < |order| :: order[i] == order[1..][i - 1];
    }
  }

  /** Hurting distinct players in turn hurts each of them once, in whatever order. */
  lemma {:induction false} DamageInTurnHurtsEachOnce(players: map<UInt32, Player>, ids: seq<UInt32>, damage: UInt32)
    requires forall k | k in ids :: k in players
    requires forall i, j | 0 <= i < j < |ids| :: ids[i] != ids[j]
    ensures DamageInTurn(players, ids, damage)
            == map k | k in players ::
                 if k in ids then players[k].(fighter := Hurt(players[k].fighter, damage)) else players[k]
    decreases |ids|
  {
    if ids != [] {
      var first := players[ids[0]];
      var players' := players[ids[0] := first.(fighter := Hurt(first.fighter, damage))];
      DamageInTurnHurtsEachOnce(players', ids[1..], damage);
      assert ids[0] !in ids[1..];
    }
  }

  /** The list names exactly the enemies hit, in increasing order and so none twice. */
  ghost predicate NamesEnemiesHit(hit: seq<nat>, enemies: seq<Enemy>, spot: Coords, friends: Option<UInt32>) {
    && (forall i | 0 <= i < |hit| :: hit[i] < |enemies| && HitEnemy(enemies[hit[i]], spot, friends))
    && (forall k | 0 <= k < |enemies| && HitEnemy(enemies[k], spot, friends) :: k in hit)
    && (forall i, j | 0 <= i < j < |hit| :: hit[i] < hit[j])
  }

  lemma {:induction false} EnemiesHitAreDistinct(enemies: seq<Enemy>, spot: Coords, friends: Option<UInt32>)
    ensures NamesEnemiesHit(EnemiesHit(enemies, spot, friends), enemies, spot, friends)
  {
    if enemies != [] {
      var n := |enemies| - 1;
      EnemiesHitAreDistinct(enemies[..n], spot, friends);
      NamesOneMore(EnemiesHit(enemies[..n], spot, friends), EnemiesHit(enemies, spot, friends), enemies, spot, friends);
    }
  }

  lemma NamesOneMore(before: seq<nat>, hit: seq<nat>, enemies: seq<Enemy>, spot: Coords, friends: Option<UInt32>)
    requires enemies != [] && NamesEnemiesHit(before, enemies[..|enemies| - 1], spot, friends)
    requires hit == before + if HitEnemy(enemies[|enemies| - 1], spot, friends) then [|enemies| - 1] else []
    ensures NamesEnemiesHit(hit, enemies, spot, friends)
  {
    var n := |enemies| - 1;
    forall k | 0 <= k < |enemies| && HitEnemy(enemies[k], spot, friends)
      ensures k in hit
    {
      assert k < n ==> enemies[..n][k] == enemies[k] && k in before;
      assert k == n ==> hit[|before|] == n;
    }
    forall i | 0 <= i < |hit|
      ensures hit[i] < |enemies| && HitEnemy(enemies[hit[i]], spot, friends)
    {
      if i < |before| {
        assert hit[i] == before[i] && enemies[..n][before[i]] == enemies[before[i]];
      }
    }
  }

  lemma {:induction false} DamageEnemiesHurtsEachOnce(enemies: seq<Enemy>, ids: seq<nat>, damage: UInt32)
    requires forall i | 0 <= i < |ids| :: ids[i] < |enemies|
    requires forall i, j | 0 <= i < j < |ids| :: ids[i] != ids[j]
    ensures var after := DamageEnemiesInTurn(enemies, ids, damage);
            && |after| == |enemies|
            && forall i | 0 <= i < |enemies| ::
                 after[i] == if i in ids then enemies[i].(fighter := Hurt(enemies[i].fighter, damage)) else enemies[i]
    decreases |ids|
  {
    if ids != [] {
      var e := enemies[ids[0]];
      DamageEnemiesHurtsEachOnce(enemies[ids[0] := e.(fighter := Hurt(e.fighter, damage))], ids[1..], damage);
      assert ids[0] !in ids[1..];
    }
  }

  /** Finding the targets and hurting them one by one comes to the same in every visiting order. */
  lemma BlowIsOrderFree(
      players: map<UInt32, Player>, order: seq<UInt32>, spot: Coords, except: Option<UInt32>, damage: UInt32)
    requires VisitingOrder(order, players.Keys) && forall k | k in players :: players[k].id == k
    ensures forall k | k in PlayersHit(players, order, spot, except) :: k in players
    ensures DamageInTurn(players, PlayersHit(players, order, spot, except), damage)
            == PlayersAfterBlow(players, spot, except, damage)
  {
    PlayersHitAreDistinct(players, order, spot, except);
    DamageInTurnHurtsEachOnce(players, PlayersHit(players, order, spot, except), damage);
  }

  lemma EnemyBlowInClosedForm(enemies: seq<Enemy>, spot: Coords, friends: Option<UInt32>, damage: UInt32)
    ensures forall i | 0 <= i < |EnemiesHit(enemies, spot, friends)| ::
        EnemiesHit(enemies, spot, friends)[i] < |enemies|
    ensures DamageEnemiesInTurn(enemies, EnemiesHit(enemies, spot, friends), damage)
            == EnemiesAfterBlow(enemies, spot, friends, damage)
  {
    var hit := EnemiesHit(enemies, spot, friends);
    EnemiesHitAreDistinct(enemies, spot, friends);
    assert NamesEnemiesHit(hit, enemies, spot, friends);
    assert forall i | 0 <= i < |hit| :: hit[i] < |enemies|;
    assert forall i, j | 0 <= i < j < |hit| :: hit[i] != hit[j];
    DamageEnemiesHurtsEachOnce(enemies, hit, damage);
  }

  // ---- The actions -------------------------------------------------------------------------------

  /** Hurting everyone found around the spot, players in visiting order and then enemies. */
  function Blow(w: World, order: seq<UInt32>, spot: Coords, except: Option<UInt32>, friends: Option<UInt32>,
                damage: Option<UInt32>): (w': World)
    requires WorldInv(w) && VisitingOrder(order, w.players.Keys)
    ensures w' == BlowFree(w, spot, except, friends, damage)
  {
    match damage
    case None => w
    case Some(d) =>
      BlowIsOrderFree(w.players, order, spot, except, d);
      EnemyBlowInClosedForm(w.enemies, spot, friends, d);
      World(DamageInTurn(w.players, PlayersHit(w.players, order, spot, except), d),
            DamageEnemiesInTurn(w.enemies, EnemiesHit(w.enemies, spot, friends), d))
  }

  /** The blow without any order. */
  function BlowFree(w: World, spot: Coords, except: Option<UInt32>, friends: Option<UInt32>, damage: Option<UInt32>)
    : (w': World)
    ensures w'.players.Keys == w.players.Keys && |w'.enemies| == |w.enemies|
    ensures WorldInv(w) ==> WorldInv(w')
  {
    match damage
    case None => w
    case Some(d) =>
      BlowKeepsInv(w, spot, except, friends, d);
      World(PlayersAfterBlow(w.players, spot, except, d), EnemiesAfterBlow(w.enemies, spot, friends, d))
  }

  lemma BlowKeepsInv(w: World, spot: Coords, except: Option<UInt32>, friends: Option<UInt32>, damage: UInt32)
    ensures WorldInv(w) ==>
              WorldInv(World(PlayersAfterBlow(w.players, spot, except, damage),
                             EnemiesAfterBlow(w.enemies, spot, friends, damage)))
  {
    if WorldInv(w) {
      forall k | k in w.players
        ensures FighterInv(Hurt(w.players[k].fighter, damage))
      {
        HurtKeepsInv(w.players[k].fighter, damage);
      }
      forall i | 0 <= i < |w.enemies|
        ensures FighterInv(Hurt(w.enemies[i].fighter, damage))
      {
        HurtKeepsInv(w.enemies[i].fighter, damage);
      }
    }
  }

  function WithPlayer(w: World, id: UInt32, f: Fighter): (w': World)
    requires id in w.players
    ensures w'.players.Keys == w.players.Keys && |w'.enemies| == |w.enemies|
    ensures WorldInv(w) && FighterInv(f) ==> WorldInv(w')
  {
    w.(players := w.players[id := w.players[id].(fighter := f)])
  }

  function WithEnemy(w: World, id: nat, f: Fighter): (w': World)
    requires id < |w.enemies|
    ensures w'.players.Keys == w.players.Keys && |w'.enemies| == |w.enemies|
    ensures WorldInv(w) && FighterInv(f) ==> WorldInv(w')
  {
    w.(enemies := w.enemies[id := w.enemies[id].(fighter := f)])
  }

  function Moved(f: Fighter, direction: Coords): Fighter {
    f.(coords := Plus(f.coords, direction))
  }

  /** The turn counter is four bits wide. */
  function Spent(p: Player): Player {
    p.(currentTurns := (p.currentTurns - 1) % 16)
  }

  /** The attacker pays for the blow before anyone is hurt. */
  function PlayerPays(w: World, id: UInt32): (r: (World, Option<UInt32>))
    requires WorldInv(w) && id in w.players
    ensures WorldInv(r.0) && r.0.players.Keys == w.players.Keys && |r.0.enemies| == |w.enemies|
  {
    StrikeSpends(w.players[id].fighter);
    var (f, damage) := Strike(w.players[id].fighter);
    (WithPlayer(w, id, f), damage)
  }

  function EnemyPays(w: World, id: nat): (r: (World, Option<UInt32>))
    requires WorldInv(w) && id < |w.enemies|
    ensures WorldInv(r.0) && r.0.players.Keys == w.players.Keys && |r.0.enemies| == |w.enemies|
  {
    StrikeSpends(w.enemies[id].fighter);
    var (f, damage) := Strike(w.enemies[id].fighter);
    (WithEnemy(w, id, f), damage)
  }

  /** Targets are found before the attacker pays; paying moves nobody, so they are the same after. */
  function PlayerAttacks(w: World, id: UInt32, direction: Coords, order: seq<UInt32>): (w': World)
    requires WorldInv(w) && id in w.players && VisitingOrder(order, w.players.Keys)
    ensures w' == PlayerAttacksFree(w, id, direction)
  {
    var spot := Plus(w.players[id].fighter.coords, direction);
    var (paid, damage) := PlayerPays(w, id);
    Blow(paid, order, spot, Some(id), None, damage)
  }

  function PlayerAttacksFree(w: World, id: UInt32, direction: Coords): (w': World)
    requires WorldInv(w) && id in w.players
    ensures WorldInv(w') && w'.players.Keys == w.players.Keys && |w'.enemies| == |w.enemies|
  {
    var spot := Plus(w.players[id].fighter.coords, direction);
    var (paid, damage) := PlayerPays(w, id);
    BlowFree(paid, spot, Some(id), None, damage)
  }

  function PlayerMoves(w: World, id: UInt32, a: PlayerAction): (w': World)
    requires WorldInv(w) && id in w.players
    ensures WorldInv(w') && w'.players.Keys == w.players.Keys && |w'.enemies| == |w.enemies|
  {
    if a.kind == Move then WithPlayer(w, id, Moved(w.players[id].fighter, a.direction)) else w
  }

  function SpendAction(w: World, id: UInt32): (w': World)
    requires WorldInv(w) && id in w.players
    ensures WorldInv(w') && w'.players.Keys == w.players.Keys && |w'.enemies| == |w.enemies|
  {
    w.(players := w.players[id := Spent(w.players[id])])
  }

  /** `MakeApprovedAction`: a move falls through into an attack in the same direction. */
  function PlayerActs(w: World, id: UInt32, a: PlayerAction, order: seq<UInt32>): (w': World)
    requires WorldInv(w) && id in w.players && VisitingOrder(order, w.players.Keys)
    ensures w' == PlayerActsFree(w, id, a)
  {
    var moved := PlayerMoves(w, id, a);
    SpendAction(if a.kind == EndTurn then moved else PlayerAttacks(moved, id, a.direction, order), id)
  }

  function PlayerActsFree(w: World, id: UInt32, a: PlayerAction): (w': World)
    requires WorldInv(w) && id in w.players
    ensures WorldInv(w') && w'.players.Keys == w.players.Keys && |w'.enemies| == |w.enemies|
  {
    var moved := PlayerMoves(w, id, a);
    SpendAction(if a.kind == EndTurn then moved else PlayerAttacksFree(moved, id, a.direction), id)
  }

  /** `MakeEnemyAction`: moving and attacking are separate, and friends are spared. */
  function EnemyActs(w: World, id: nat, a: EnemyAction, order: seq<UInt32>): (w': World)
    requires WorldInv(w) && id < |w.enemies| && VisitingOrder(order, w.players.Keys)
    ensures w' == EnemyActsFree(w, id, a)
  {
    match a.kind
    case EnemyMove => WithEnemy(w, id, Moved(w.enemies[id].fighter, a.direction))
    case EnemyBaseAttack =>
      var spot := Plus(w.enemies[id].fighter.coords, a.direction);
      var (paid, damage) := EnemyPays(w, id);
      Blow(paid, order, spot, None, Some(w.enemies[id].faction), damage)
  }

  function EnemyActsFree(w: World, id: nat, a: EnemyAction): (w': World)
    requires WorldInv(w) && id < |w.enemies|
    ensures WorldInv(w') && w'.players.Keys == w.players.Keys && |w'.enemies| == |w.enemies|
  {
    match a.kind
    case EnemyMove => WithEnemy(w, id, Moved(w.enemies[id].fighter, a.direction))
    case EnemyBaseAttack =>
      var spot := Plus(w.enemies[id].fighter.coords, a.direction);
      var (paid, damage) := EnemyPays(w, id);
      BlowFree(paid, spot, None, Some(w.enemies[id].faction), damage)
  }

  // ---- Replay ------------------------------------------------------------------------------------

  /** What the server announces: validated player actions and the actions of the enemies. */
  datatype Entry = PlayerEntry(pa: PlayerAction) | EnemyEntry(ea: EnemyAction)

  /** A client ignores an action of a player it does not know; an unknown enemy raises an exception,
      which is None here. */
  function ReplayOne(w: World, e: Entry, order: seq<UInt32>): (r: Option<World>)
    requires WorldInv(w) && VisitingOrder(order, w.players.Keys)
    ensures r.Some? ==> WorldInv(r.value) && r.value.players.Keys == w.players.Keys
  {
    match e
    case PlayerEntry(a) =>
      if a.playerId in w.players then Some(PlayerActs(w, a.playerId, a, order)) else Some(w)
    case EnemyEntry(a) =>
      if a.enemyId < |w.enemies| then Some(EnemyActs(w, a.enemyId, a, order)) else None
  }

  ghost predicate VisitingOrders(orders: seq<seq<UInt32>>, n: nat, keys: set<UInt32>) {
    |orders| == n && forall i | 0 <= i < n :: VisitingOrder(orders[i], keys)
  }

  /** Replaying a log, visiting the players in a new order at each entry. */
  function Replay(w: World, log: seq<Entry>, orders: seq<seq<UInt32>>): (r: Option<World>)
    requires WorldInv(w) && VisitingOrders(orders, |log|, w.players.Keys)
    ensures r.Some? ==> WorldInv(r.value) && r.value.players.Keys == w.players.Keys
    decreases |log|
  {
    if log == [] then Some(w)
    else
      match ReplayOne(w, log[0], orders[0])
      case None => None
      case Some(w') => Replay(w', log[1..], orders[1..])
  }

  /** Replicas that start from equal worlds and replay the same log end in equal worlds, whatever the
      orders in which each of them visits its players. */
  lemma {:induction false} ReplayIsOrderFree(
      w: World, log: seq<Entry>, orders: seq<seq<UInt32>>, orders': seq<seq<UInt32>>)
    requires WorldInv(w) && VisitingOrders(orders, |log|, w.players.Keys)
    requires VisitingOrders(orders', |log|, w.players.Keys)
    ensures Replay(w, log, orders) == Replay(w, log, orders')
    decreases |log|
  {
    if log != [] {
      var r := ReplayOne(w, log[0], orders[0]);
      assert r == ReplayOne(w, log[0], orders'[0]);
      if r.Some? {
        ReplayIsOrderFree(r.value, log[1..], orders[1..], orders'[1..]);
      }
    }
  }

  // ---- Replay without orders ---------------------------------------------------------------------

  function ReplayOneFree(w: World, e: Entry): (r: Option<World>)
    requires WorldInv(w)
    ensures r.Some? ==>
              WorldInv(r.value) && r.value.players.Keys == w.players.Keys && |r.value.enemies| == |w.enemies|
  {
    match e
    case PlayerEntry(a) =>
      if a.playerId in w.players then Some(PlayerActsFree(w, a.playerId, a)) else Some(w)
    case EnemyEntry(a) =>
      if a.enemyId < |w.enemies| then Some(EnemyActsFree(w, a.enemyId, a)) else None
  }

  function ReplayFree(w: World, log: seq<Entry>): (r: Option<World>)
    requires WorldInv(w)
    ensures r.Some? ==>
              WorldInv(r.value) && r.value.players.Keys == w.players.Keys && |r.value.enemies| == |w.enemies|
    decreases |log|
  {
    if log == [] then Some(w)
    else
      match ReplayOneFree(w, log[0])
      case None => None
      case Some(w') => ReplayFree(w', log[1..])
  }

  lemma {:induction false} ReplayNeedsNoOrders(w: World, log: seq<Entry>, orders: seq<seq<UInt32>>)
    requires WorldInv(w) && VisitingOrders(orders, |log|, w.players.Keys)
    ensures Replay(w, log, orders) == ReplayFree(w, log)
    decreases |log|
  {
    if log != [] {
      var r := ReplayOne(w, log[0], orders[0]);
      assert r == ReplayOneFree(w, log[0]);
      if r.Some? {
        ReplayNeedsNoOrders(r.value, log[1..], orders[1..]);
      }
    }
  }

  lemma {:induction false} ReplayInParts(w: World, a: seq<Entry>, b: seq<Entry>)
    requires WorldInv(w) && ReplayFree(w, a).Some?
    ensures ReplayFree(w, a + b) == ReplayFree(ReplayFree(w, a).value, b)
    decreases |a|
  {
    if a == [] {
      assert a + b == b;
    } else {
      assert (a + b)[1..] == a[1..] + b && (a + b)[0] == a[0];
      ReplayInParts(ReplayOneFree(w, a[0]).value, a[1..], b);
    }
  }

  /** A log can be replayed exactly when it names no enemy beyond the list. */
  lemma {:induction false} ReplaySucceedsExactlyWhen(w: World, log: seq<Entry>)
    requires WorldInv(w)
    ensures ReplayFree(w, log).Some? <==>
              forall k | 0 <= k < |log| :: log[k].EnemyEntry? ==> log[k].ea.enemyId < |w.enemies|
    decreases |log|
  {
    if log != [] {
      assert forall k | 0 < k < |log| :: log[k] == log[1..][k - 1];
      var r := ReplayOneFree(w, log[0]);
      if r.Some? {
        ReplaySucceedsExactlyWhen(r.value, log[1..]);
        assert forall k | 0 <= k < |log| - 1 :: log[1..][k] == log[k + 1];
      }
    }
  }

  /** The entries that a client acts on: those of players it knows, and those of enemies. */
  function Known(players: set<UInt32>, log: seq<Entry>): seq<Entry> {
    if log == [] then []
    else (if log[0].EnemyEntry? || log[0].pa.playerId in players then [log[0]] else []) + Known(players, log[1..])
  }

  /** The others change nothing. */
  lemma {:induction false} StrangersAreIgnored(w: World, log: seq<Entry>)
    requires WorldInv(w)
    ensures ReplayFree(w, log) == ReplayFree(w, Known(w.players.Keys, log))
    decreases |log|
  {
    if log != [] {
      var known := Known(w.players.Keys, log);
      var r := ReplayOneFree(w, log[0]);
      if log[0].EnemyEntry? || log[0].pa.playerId in w.players {
        assert known[0] == log[0] && known[1..] == Known(w.players.Keys, log[1..]);
      } else {
        assert known == Known(w.players.Keys, log[1..]);
      }
      if r.Some? {
        StrangersAreIgnored(r.value, log[1..]);
      }
    }
  }
}
