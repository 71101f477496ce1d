/** Whom an action reaches and what it does to everyone, player by player and enemy by enemy. */
module GameActions {
  import opened Wrappers
  import opened GameRules
  import opened GameWorlds

  /** Hit points fall by the damage, down to zero, if the fighter is struck. */
  ghost predicate Falls(f: Fighter, f': Fighter, struck: bool, damage: Option<UInt32>) {
    f'.hp == if struck && damage.Some? then (if damage.value < f.hp then f.hp - damage.value else 0) else f.hp
  }

  /** A move changes the place, component by component modulo 2^16. */
  ghost predicate Lands(c: Coords, direction: Coords, c': Coords) {
    && (c'.x - c.x - direction.x) % 0x1_0000 == 0
    && (c'.y - c.y - direction.y) % 0x1_0000 == 0
    && (c'.z - c.z - direction.z) % 0x1_0000 == 0
  }

  /** What becomes of a fighter: who moves changes place, who attacks pays, who is struck is hurt. */
  ghost predicate Becomes(
      f: Fighter, f': Fighter, moves: Option<Coords>, attacks: bool, struck: bool, damage: Option<UInt32>)
    requires Equipped(f)
  {
    && f'.equipped == f.equipped
    && (if moves.Some? then Lands(f.coords, moves.value, f'.coords) else f'.coords == f.coords)
    && (if attacks then Pays(f, f'.storage) else f'.storage == f.storage)
    && Falls(f, f', struck, damage)
  }

  /** Apart from the fighter, only the one who acts changes: it spends an action, a number of four bits. */
  ghost predicate Spends(p: Player, p': Player, acts: bool) {
    && p'.id == p.id && p'.maxTurns == p.maxTurns
    && p'.currentTurns == if acts then (p.currentTurns + 15) % 16 else p.currentTurns
  }

  // ---- Attacks -----------------------------------------------------------------------------------

  lemma BlowOnPlayer(
      w: World, spot: Coords, except: Option<UInt32>, friends: Option<UInt32>, d: Option<UInt32>, k: UInt32)
    requires WorldInv(w) && k in w.players
    ensures var p, p' := w.players[k], BlowFree(w, spot, except, friends, d).players[k];
            && p' == p.(fighter := p.fighter.(hp := p'.fighter.hp))
            && Falls(p.fighter, p'.fighter, except != Some(k) && Same(p.fighter.coords, spot), d)
  {
    if d.Some? {
      HurtSaturates(w.players[k].fighter, d.value);
    }
  }

  lemma BlowOnEnemy(w: World, spot: Coords, except: Option<UInt32>, friends: Option<UInt32>, d: Option<UInt32>, i: nat)
    requires WorldInv(w) && i < |w.enemies|
    ensures var e, e' := w.enemies[i], BlowFree(w, spot, except, friends, d).enemies[i];
            && e' == e.(fighter := e.fighter.(hp := e'.fighter.hp))
            && Falls(e.fighter, e'.fighter, friends != Some(e.faction) && Same(e.fighter.coords, spot), d)
  {
    if d.Some? {
      HurtSaturates(w.enemies[i].fighter, d.value);
    }
  }

  lemma AttackOnPlayer(w: World, id: UInt32, direction: Coords, k: UInt32)
    requires WorldInv(w) && id in w.players && k in w.players
    ensures var f, p, p' := w.players[id].fighter, w.players[k], PlayerAttacksFree(w, id, direction).players[k];
            && p' == p.(fighter := p'.fighter)
            && Becomes(p.fighter, p'.fighter, None, k == id,
                       k != id && Reaches(f.coords, direction, 1, p.fighter.coords), Strike(f).1)
  {
    var (paid, d) := PlayerPays(w, id);
    var spot := Plus(w.players[id].fighter.coords, direction);
    StrikeDeals(w.players[id].fighter);
    BlowOnPlayer(paid, spot, Some(id), None, d, k);
    SameIsOneStepAway(w.players[k].fighter.coords, w.players[id].fighter.coords, direction);
  }

  lemma AttackOnEnemy(w: World, id: UInt32, direction: Coords, i: nat)
    requires WorldInv(w) && id in w.players && i < |w.enemies|
    ensures var f, e, e' := w.players[id].fighter, w.enemies[i], PlayerAttacksFree(w, id, direction).enemies[i];
            && e' == e.(fighter := e'.fighter)
            && Becomes(e.fighter, e'.fighter, None, false,
                       Reaches(f.coords, direction, 1, e.fighter.coords), Strike(f).1)
  {
    var (paid, d) := PlayerPays(w, id);
    var spot := Plus(w.players[id].fighter.coords, direction);
    BlowOnEnemy(paid, spot, Some(id), None, d, i);
    SameIsOneStepAway(w.enemies[i].fighter.coords, w.players[id].fighter.coords, direction);
  }

  lemma EnemyAttackOnPlayer(w: World, id: nat, a: EnemyAction, k: UInt32)
    requires WorldInv(w) && id < |w.enemies| && a.kind == EnemyBaseAttack && k in w.players
    ensures var f, p, p' := w.enemies[id].fighter, w.players[k], EnemyActsFree(w, id, a).players[k];
            && p' == p.(fighter := p'.fighter)
            && Becomes(p.fighter, p'.fighter, None, false,
                       Reaches(f.coords, a.direction, 1, p.fighter.coords), Strike(f).1)
  {
    var (paid, d) := EnemyPays(w, id);
    var spot := Plus(w.enemies[id].fighter.coords, a.direction);
    BlowOnPlayer(paid, spot, None, Some(w.enemies[id].faction), d, k);
    SameIsOneStepAway(w.players[k].fighter.coords, w.enemies[id].fighter.coords, a.direction);
  }

  lemma EnemyAttackOnEnemy(w: World, id: nat, a: EnemyAction, i: nat)
    requires WorldInv(w) && id < |w.enemies| && a.kind == EnemyBaseAttack && i < |w.enemies|
    ensures var o, e, e' := w.enemies[id], w.enemies[i], EnemyActsFree(w, id, a).enemies[i];
            && e' == e.(fighter := e'.fighter)
            && Becomes(e.fighter, e'.fighter, None, i == id,
                       e.faction != o.faction && Reaches(o.fighter.coords, a.direction, 1, e.fighter.coords),
                       Strike(o.fighter).1)
  {
    var (paid, d) := EnemyPays(w, id);
    var spot := Plus(w.enemies[id].fighter.coords, a.direction);
    StrikeDeals(w.enemies[id].fighter);
    BlowOnEnemy(paid, spot, None, Some(w.enemies[id].faction), d, i);
    SameIsOneStepAway(w.enemies[i].fighter.coords, w.enemies[id].fighter.coords, a.direction);
  }

  // ---- Actions -----------------------------------------------------------------------------------

  /** How far from where the attacker stood its targets stand: a move is followed by an attack. */
  function StepsTo(kind: PlayerActionType): nat {
    if kind == Move then 2 else 1
  }

  ghost predicate PlayerBecomes(w: World, id: UInt32, a: PlayerAction, damage: Option<UInt32>, p: Player, p': Player)
    requires id in w.players && Equipped(p.fighter)
  {
    && Spends(p, p', p.id == id)
    && Becomes(p.fighter, p'.fighter, if p.id == id && a.kind == Move then Some(a.direction) else None,
               p.id == id && a.kind != EndTurn,
               a.kind != EndTurn && p.id != id
               && Reaches(w.players[id].fighter.coords, a.direction, StepsTo(a.kind), p.fighter.coords), damage)
  }

  ghost predicate EnemyBecomes(w: World, id: UInt32, a: PlayerAction, damage: Option<UInt32>, e: Enemy, e': Enemy)
    requires id in w.players && Equipped(e.fighter)
  {
    && e'.faction == e.faction && e'.maxActions == e.maxActions
    && Becomes(e.fighter, e'.fighter, None, false,
               a.kind != EndTurn
               && Reaches(w.players[id].fighter.coords, a.direction, StepsTo(a.kind), e.fighter.coords), damage)
  }

  /** A blow does not depend on where the attacker stands. */
  lemma StrikeAnywhere(f: Fighter, direction: Coords)
    requires FighterInv(f)
    ensures FighterInv(Moved(f, direction)) && Strike(Moved(f, direction)).1 == Strike(f).1
  {
  }

  /** Where the attack of an action starts. */
  function From(w: World, id: UInt32, a: PlayerAction): Coords
    requires id in w.players
  {
    var c := w.players[id].fighter.coords;
    if a.kind == Move then Plus(c, a.direction) else c
  }

  lemma MovingOne(w: World, id: UInt32, a: PlayerAction, k: UInt32)
    requires WorldInv(w) && id in w.players && k in w.players
    ensures var p, moved := w.players[k], PlayerMoves(w, id, a);
            && moved.players[k]
               == (if k == id && a.kind == Move then p.(fighter := Moved(p.fighter, a.direction)) else p)
            && moved.players[id].fighter.coords == From(w, id, a)
            && Strike(moved.players[id].fighter).1 == Strike(w.players[id].fighter).1
            && moved.enemies == w.enemies
  {
    StrikeAnywhere(w.players[id].fighter, a.direction);
  }

  lemma ReachedFromThere(w: World, id: UInt32, a: PlayerAction, c: Coords)
    requires id in w.players
    ensures Reaches(From(w, id, a), a.direction, 1, c)
            <==> Reaches(w.players[id].fighter.coords, a.direction, StepsTo(a.kind), c)
  {
    var from := w.players[id].fighter.coords;
    TwoStepsAway(c, Plus(from, a.direction), from, a.direction);
  }

  lemma PlayerActsOnPlayer(w: World, id: UInt32, a: PlayerAction, k: UInt32)
    requires WorldInv(w) && id in w.players && k in w.players
    ensures PlayerBecomes(w, id, a, Strike(w.players[id].fighter).1, w.players[k], PlayerActsFree(w, id, a).players[k])
  {
    var moved := PlayerMoves(w, id, a);
    MovingOne(w, id, a, k);
    ReachedFromThere(w, id, a, w.players[k].fighter.coords);
    if a.kind == EndTurn {
      EndingOne(w.players[k], k == id, Strike(w.players[id].fighter).1);
    } else {
      AttackOnPlayer(moved, id, a.direction, k);
      ActingOne(w, id, a, Strike(w.players[id].fighter).1, w.players[k], moved.players[k],
                PlayerAttacksFree(moved, id, a.direction).players[k]);
    }
  }

  lemma FifteenMore(n: UInt32)
    ensures (n - 1) % 16 == (n + 15) % 16
  {
  }

  lemma SpendingSpends(p: Player, p': Player)
    requires p'.id == p.id && p'.maxTurns == p.maxTurns && p'.currentTurns == p.currentTurns
    ensures Spends(p, Spent(p'), true) && Spends(p, p', false)
  {
    FifteenMore(p.currentTurns);
  }

  lemma MovingBecomes(f: Fighter, direction: Coords, f': Fighter, attacks: bool, struck: bool, damage: Option<UInt32>)
    requires FighterInv(f) && Becomes(Moved(f, direction), f', None, attacks, struck, damage)
    ensures Becomes(f, f', Some(direction), attacks, struck, damage)
  {
    PlusIsModular(f.coords, direction);
  }

  lemma EndingOne(p: Player, acts: bool, damage: Option<UInt32>)
    requires FighterInv(p.fighter)
    ensures var p' := if acts then Spent(p) else p;
            Spends(p, p', acts) && Becomes(p.fighter, p'.fighter, None, false, false, damage)
  {
    SpendingSpends(p, p);
  }

  lemma ActingOne(
      w: World, id: UInt32, a: PlayerAction, damage: Option<UInt32>, p: Player, moved: Player, done: Player)
    requires id in w.players && FighterInv(p.fighter) && a.kind != EndTurn
    requires moved == if p.id == id && a.kind == Move then p.(fighter := Moved(p.fighter, a.direction)) else p
    requires done == moved.(fighter := done.fighter)
    requires Becomes(moved.fighter, done.fighter, None, p.id == id,
                     p.id != id && Reaches(From(w, id, a), a.direction, 1, moved.fighter.coords), damage)
    ensures PlayerBecomes(w, id, a, damage, p, if p.id == id then Spent(done) else done)
  {
    SpendingSpends(p, done);
    if p.id == id && a.kind == Move {
      MovingBecomes(p.fighter, a.direction, done.fighter, true, false, damage);
    } else {
      ReachedFromThere(w, id, a, p.fighter.coords);
    }
  }

  lemma PlayerActsOnEnemy(w: World, id: UInt32, a: PlayerAction, i: nat)
    requires WorldInv(w) && id in w.players && i < |w.enemies|
    ensures EnemyBecomes(w, id, a, Strike(w.players[id].fighter).1, w.enemies[i], PlayerActsFree(w, id, a).enemies[i])
  {
    var moved := PlayerMoves(w, id, a);
    MovingOne(w, id, a, id);
    if a.kind != EndTurn {
      AttackOnEnemy(moved, id, a.direction, i);
      ReachedFromThere(w, id, a, w.enemies[i].fighter.coords);
    }
  }

  /** What a player's action does to everyone, in every visiting order: the player moves, strikes every
      other player and every enemy one step further in the same direction, pays for the blow and spends
      an action. */
  lemma PlayerActsExactly(w: World, id: UInt32, a: PlayerAction, order: seq<UInt32>) returns (damage: Option<UInt32>)
    requires WorldInv(w) && id in w.players && VisitingOrder(order, w.players.Keys)
    ensures Deals(w.players[id].fighter, damage)
    ensures var w' := PlayerActs(w, id, a, order);
            && w'.players.Keys == w.players.Keys && |w'.enemies| == |w.enemies|
            && (forall k | k in w.players :: PlayerBecomes(w, id, a, damage, w.players[k], w'.players[k]))
            && (forall i | 0 <= i < |w.enemies| :: EnemyBecomes(w, id, a, damage, w.enemies[i], w'.enemies[i]))
  {
    damage := Strike(w.players[id].fighter).1;
    StrikeDeals(w.players[id].fighter);
    var w' := PlayerActsFree(w, id, a);
    forall k | k in w.players
      ensures PlayerBecomes(w, id, a, damage, w.players[k], w'.players[k])
    {
      PlayerActsOnPlayer(w, id, a, k);
    }
    forall i | 0 <= i < |w.enemies|
      ensures EnemyBecomes(w, id, a, damage, w.enemies[i], w'.enemies[i])
    {
      PlayerActsOnEnemy(w, id, a, i);
    }
  }

  /** What becomes of a fighter in an enemy's action; `friend` tells whether it is an enemy of the same
      faction, the attacker included. */
  ghost predicate FighterBecomes(
      w: World, id: nat, a: EnemyAction, damage: Option<UInt32>, f: Fighter, f': Fighter, acts: bool, friend: bool)
    requires id < |w.enemies| && Equipped(f)
  {
    Becomes(f, f', if acts && a.kind == EnemyMove then Some(a.direction) else None,
            acts && a.kind == EnemyBaseAttack,
            a.kind == EnemyBaseAttack && !friend && Reaches(w.enemies[id].fighter.coords, a.direction, 1, f.coords),
            damage)
  }

  lemma EnemyActsOnPlayer(w: World, id: nat, a: EnemyAction, k: UInt32)
    requires WorldInv(w) && id < |w.enemies| && k in w.players
    ensures var p, p' := w.players[k], EnemyActsFree(w, id, a).players[k];
            && p' == p.(fighter := p'.fighter)
            && FighterBecomes(w, id, a, Strike(w.enemies[id].fighter).1, p.fighter, p'.fighter, false, false)
  {
    if a.kind == EnemyBaseAttack {
      EnemyAttackOnPlayer(w, id, a, k);
    }
  }

  lemma EnemyActsOnEnemy(w: World, id: nat, a: EnemyAction, i: nat)
    requires WorldInv(w) && id < |w.enemies| && i < |w.enemies|
    ensures var e, e' := w.enemies[i], EnemyActsFree(w, id, a).enemies[i];
            && e' == e.(fighter := e'.fighter)
            && FighterBecomes(w, id, a, Strike(w.enemies[id].fighter).1, e.fighter, e'.fighter, i == id,
                              e.faction == w.enemies[id].faction)
  {
    if a.kind == EnemyBaseAttack {
      EnemyAttackOnEnemy(w, id, a, i);
    } else {
      PlusIsModular(w.enemies[id].fighter.coords, a.direction);
    }
  }

  /** What an enemy's action does to everyone: it moves, or strikes every player and every enemy of
      another faction one step away and pays for the blow. */
  lemma EnemyActsExactly(w: World, id: nat, a: EnemyAction, order: seq<UInt32>) returns (damage: Option<UInt32>)
    requires WorldInv(w) && id < |w.enemies| && VisitingOrder(order, w.players.Keys)
    ensures Deals(w.enemies[id].fighter, damage)
    ensures var w' := EnemyActs(w, id, a, order);
            && w'.players.Keys == w.players.Keys && |w'.enemies| == |w.enemies|
            && (forall k | k in w.players ::
                  && w'.players[k] == w.players[k].(fighter := w'.players[k].fighter)
                  && FighterBecomes(w, id, a, damage, w.players[k].fighter, w'.players[k].fighter, false, false))
            && (forall i | 0 <= i < |w.enemies| ::
                  && w'.enemies[i] == w.enemies[i].(fighter := w'.enemies[i].fighter)
                  && FighterBecomes(w, id, a, damage, w.enemies[i].fighter, w'.enemies[i].fighter, i == id,
                                    w.enemies[i].faction == w.enemies[id].faction))
  {
    damage := Strike(w.enemies[id].fighter).1;
    StrikeDeals(w.enemies[id].fighter);
    forall k | k in w.players
      ensures var p, p' := w.players[k], EnemyActsFree(w, id, a).players[k];
              p' == p.(fighter := p'.fighter)
              && FighterBecomes(w, id, a, damage, p.fighter, p'.fighter, false, false)
    {
      EnemyActsOnPlayer(w, id, a, k);
    }
    forall i | 0 <= i < |w.enemies|
      ensures var e, e' := w.enemies[i], EnemyActsFree(w, id, a).enemies[i];
              e' == e.(fighter := e'.fighter)
              && FighterBecomes(w, id, a, damage, e.fighter, e'.fighter, i == id,
                                e.faction == w.enemies[id].faction)
    {
      EnemyActsOnEnemy(w, id, a, i);
    }
  }
}
