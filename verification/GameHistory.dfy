/** What every replay of the game log keeps, fighter by fighter. */
module GameHistories {
  import opened Wrappers
  import opened GameRules
  import opened GameWorlds

  datatype Who = ThePlayer(id: UInt32) | TheEnemy(index: nat)

  predicate Present(w: World, who: Who) {
    match who
    case ThePlayer(id) => id in w.players
    case TheEnemy(index) => index < |w.enemies|
  }

  function FighterOf(w: World, who: Who): Fighter
    requires Present(w, who)
  {
    match who
    case ThePlayer(id) => w.players[id].fighter
    case TheEnemy(index) => w.enemies[index].fighter
  }

  /** Whether an entry makes this fighter strike: every player action but the end of a turn does. */
  predicate Strikes(e: Entry, who: Who) {
    match e
    case PlayerEntry(a) => who == ThePlayer(a.playerId) && a.kind != EndTurn
    case EnemyEntry(a) => who == TheEnemy(a.enemyId) && a.kind == EnemyBaseAttack
  }

  /** An attack with an equipped bow that finds an arrow. */
  function ArrowsShot(w: World, e: Entry, who: Who): nat
    requires WorldInv(w) && Present(w, who)
  {
    if Strikes(e, who) && Shoots(FighterOf(w, who)) then 1 else 0
  }

  /** How one entry may change a fighter. */
  ghost predicate Wears(f: Fighter, f': Fighter, shot: nat) {
    && Equipped(f) && Equipped(f')
    && 0 <= f'.hp <= f.hp
    && f'.equipped == f.equipped && f'.storage[f'.equipped] == f.storage[f.equipped]
    && Arrows(f'.storage) + shot == Arrows(f.storage)
    && (shot == 0 ==> f'.storage == f.storage)
    && Stocked(f'.storage)
  }

  lemma BlowWears(
      w: World, spot: Coords, except: Option<UInt32>, friends: Option<UInt32>, damage: Option<UInt32>, who: Who)
    requires WorldInv(w) && Present(w, who)
    ensures Present(BlowFree(w, spot, except, friends, damage), who)
    ensures Wears(FighterOf(w, who), FighterOf(BlowFree(w, spot, except, friends, damage), who), 0)
  {
    if damage.Some? {
      HurtKeepsInv(FighterOf(w, who), damage.value);
    }
  }

  lemma WearsInTurn(f: Fighter, f': Fighter, f'': Fighter, shot: nat, shot': nat)
    requires Wears(f, f', shot) && Wears(f', f'', shot')
    ensures Wears(f, f'', shot + shot')
  {
  }

  lemma PlayerAttackWears(w: World, id: UInt32, direction: Coords, who: Who)
    requires WorldInv(w) && id in w.players && Present(w, who)
    ensures Present(PlayerAttacksFree(w, id, direction), who)
    ensures Wears(FighterOf(w, who), FighterOf(PlayerAttacksFree(w, id, direction), who),
                  if who == ThePlayer(id) && Shoots(FighterOf(w, who)) then 1 else 0)
  {
    var spot := Plus(w.players[id].fighter.coords, direction);
    var (paid, damage) := PlayerPays(w, id);
    StrikeSpends(w.players[id].fighter);
    BlowWears(paid, spot, Some(id), None, damage, who);
  }

  lemma EnemyActionWears(w: World, id: nat, a: EnemyAction, who: Who)
    requires WorldInv(w) && id < |w.enemies| && Present(w, who)
    ensures Present(EnemyActsFree(w, id, a), who)
    ensures Wears(FighterOf(w, who), FighterOf(EnemyActsFree(w, id, a), who),
                  if who == TheEnemy(id) && a.kind == EnemyBaseAttack && Shoots(FighterOf(w, who)) then 1 else 0)
  {
    if a.kind == EnemyBaseAttack {
      var spot := Plus(w.enemies[id].fighter.coords, a.direction);
      var (paid, damage) := EnemyPays(w, id);
      StrikeSpends(w.enemies[id].fighter);
      BlowWears(paid, spot, None, Some(w.enemies[id].faction), damage, who);
    }
  }

  lemma PlayerActionWears(w: World, id: UInt32, a: PlayerAction, who: Who)
    requires WorldInv(w) && id in w.players && Present(w, who)
    ensures Present(PlayerActsFree(w, id, a), who)
    ensures Wears(FighterOf(w, who), FighterOf(PlayerActsFree(w, id, a), who),
                  if who == ThePlayer(id) && a.kind != EndTurn && Shoots(FighterOf(w, who)) then 1 else 0)
  {
    var moved := PlayerMoves(w, id, a);
    assert Shoots(FighterOf(moved, who)) == Shoots(FighterOf(w, who));
    PlayerAttackWears(moved, id, a.direction, who);
  }

  /** One entry of the log, for every fighter: hit points stay at or above zero and never rise, the
      equipped slot stays as it is, every nonempty slot keeps at least one piece, and arrows go down by
      one exactly when this fighter shoots one. */
  lemma EntryWears(w: World, e: Entry, order: seq<UInt32>, who: Who)
    requires WorldInv(w) && VisitingOrder(order, w.players.Keys) && Present(w, who)
    requires ReplayOne(w, e, order).Some?
    ensures Present(ReplayOne(w, e, order).value, who)
    ensures Wears(FighterOf(w, who), FighterOf(ReplayOne(w, e, order).value, who), ArrowsShot(w, e, who))
  {
    match e
    case PlayerEntry(a) =>
      if a.playerId in w.players {
        PlayerActionWears(w, a.playerId, a, who);
      }
    case EnemyEntry(a) => EnemyActionWears(w, a.enemyId, a, who);
  }

  /** All arrows a fighter shoots over a log. */
  function AllArrowsShot(w: World, log: seq<Entry>, orders: seq<seq<UInt32>>, who: Who): nat
    requires WorldInv(w) && VisitingOrders(orders, |log|, w.players.Keys) && Present(w, who)
    decreases |log|
  {
    if log == [] then 0
    else
      match ReplayOne(w, log[0], orders[0])
      case None => 0
      case Some(w') =>
        EntryWears(w, log[0], orders[0], who);
        ArrowsShot(w, log[0], who) + AllArrowsShot(w', log[1..], orders[1..], who)
  }

  /** The same over any run of the game. */
  lemma {:induction false} HistoryWears(w: World, log: seq<Entry>, orders: seq<seq<UInt32>>, who: Who)
    requires WorldInv(w) && VisitingOrders(orders, |log|, w.players.Keys) && Present(w, who)
    requires Replay(w, log, orders).Some?
    ensures Present(Replay(w, log, orders).value, who)
    ensures 0 <= FighterOf(Replay(w, log, orders).value, who).hp <= FighterOf(w, who).hp
    ensures Wears(FighterOf(w, who), FighterOf(Replay(w, log, orders).value, who), AllArrowsShot(w, log, orders, who))
    decreases |log|
  {
    if log != [] {
      var w' := ReplayOne(w, log[0], orders[0]).value;
      EntryWears(w, log[0], orders[0], who);
      HistoryWears(w', log[1..], orders[1..], who);
      WearsInTurn(FighterOf(w, who), FighterOf(w', who), FighterOf(Replay(w, log, orders).value, who),
                  ArrowsShot(w, log[0], who), AllArrowsShot(w', log[1..], orders[1..], who));
    }
  }

  // ---- The enemies of the table -------------------------------------------------------------------

  const IRON_SWORD := Item("Iron Sword", Sword, 27, 3)
  const VILLAGER_BOW := Item("Villager Bow", Bow, 27, 1)
  const JUST_ARROW := Item("Just Arrow", Arrow, 1, 1)
  const EMPTY_SLOT := Slot(true, Item("", NoItem, 0, 0), 0, 0)

  function Filled(slots: seq<Slot>): seq<Slot>
    requires |slots| <= INVENTORY_SIZE
  {
    slots + seq(INVENTORY_SIZE - |slots|, i => EMPTY_SLOT)
  }

  const ZOMBIE := Enemy(0, 3, Fighter(17, 0, Filled([Slot(false, IRON_SWORD, 0, 1)]), Coords(0, 0, 0)))
  const BANDIT := Enemy(1, 2, Fighter(23, 0, Filled([Slot(false, VILLAGER_BOW, 0, 1), Slot(false, JUST_ARROW, 0, 50)]),
                                      Coords(0, 0, 0)))

  lemma {:induction false} NoArrowsInEmptySlots(storage: seq<Slot>)
    requires forall i | 0 <= i < |storage| :: storage[i].empty
    ensures Arrows(storage) == 0
  {
    if storage != [] {
      NoArrowsInEmptySlots(storage[1..]);
    }
  }

  lemma TableEnemiesAreInOrder()
    ensures FighterInv(ZOMBIE.fighter) && FighterInv(BANDIT.fighter)
    ensures Arrows(ZOMBIE.fighter.storage) == 0 && Shoots(BANDIT.fighter)
  {
    var z, b := ZOMBIE.fighter.storage, BANDIT.fighter.storage;
    assert z[1..] == seq(19, i => EMPTY_SLOT);
    NoArrowsInEmptySlots(z[1..]);
    FirstOfIsFirst(b, Arrow);
    assert !b[1].empty && b[1].item.kind == Arrow;
  }

  /** Enemies copied from the table start in order and with a weapon in hand, which they never lose. */
  lemma TableEnemiesStayArmed(w: World, log: seq<Entry>, orders: seq<seq<UInt32>>, index: nat, at: Coords)
    requires WorldInv(w) && VisitingOrders(orders, |log|, w.players.Keys) && index < |w.enemies|
    requires w.enemies[index] in [ZOMBIE.(fighter := ZOMBIE.fighter.(coords := at)),
                                  BANDIT.(fighter := BANDIT.fighter.(coords := at))]
    requires Replay(w, log, orders).Some?
    ensures index < |Replay(w, log, orders).value.enemies|
    ensures var f := Replay(w, log, orders).value.enemies[index].fighter;
            && f.equipped == 0 && |f.storage| == INVENTORY_SIZE
            && !f.storage[0].empty && f.storage[0].item.kind in {Sword, Bow}
  {
    HistoryWears(w, log, orders, TheEnemy(index));
  }
}
