/** The enemies' turn, AsciiTerra_Server/GameServer.cpp: the enemies act one after the other, the server
    tells the clients, and removes the dead if it came across any. What an enemy chooses to do is left
    open; how it is numbered and who is removed is not. */
module EnemyTurns {
  import opened Wrappers
  import opened GameRules
  import opened GameWorlds
  import opened GameHistories
  import opened TurnMachines

  /** What an enemy does, before it gets a number. */
  datatype Deed = Deed(kind: EnemyActionType, direction: Coords)

  predicate Armed(f: Fighter) {
    Equipped(f) && !f.storage[f.equipped].empty
  }

  /** Enemies come out of the table with a weapon in hand and never lose it; ids have 32 bits. */
  ghost predicate EnemiesInv(w: World) {
    |w.enemies| < INVALID_ID && forall k | 0 <= k < |w.enemies| :: Armed(w.enemies[k].fighter)
  }

  /** A list of enemies as it is generated: copies from the table, put anywhere. */
  ghost predicate FromTheTable(enemies: seq<Enemy>) {
    && |enemies| < INVALID_ID
    && forall k | 0 <= k < |enemies| ::
         enemies[k] in {ZOMBIE.(fighter := Moved(ZOMBIE.fighter, enemies[k].fighter.coords)),
                        BANDIT.(fighter := Moved(BANDIT.fighter, enemies[k].fighter.coords))}
  }

  lemma TableEnemiesAreArmed(w: World)
    requires FromTheTable(w.enemies)
    requires forall k | k in w.players :: w.players[k].id == k && FighterInv(w.players[k].fighter)
    ensures WorldInv(w) && EnemiesInv(w)
  {
    TableEnemiesAreInOrder();
  }

  /** An empty-handed enemy looks for a sword, or for a bow if it has an arrow. */
  function Rearmed(f: Fighter): (f': Fighter)
    requires Equipped(f)
    ensures Armed(f) ==> f' == f
  {
    if !f.storage[f.equipped].empty then f
    else
      FirstOfIsFirst(f.storage, Sword);
      FirstOfIsFirst(f.storage, Bow);
      f.(equipped :=
         match FirstOf(f.storage, Sword)
         case Some(k) => k
         case None =>
           match FirstOf(f.storage, Bow)
           case Some(k) => if FirstOf(f.storage, Arrow).Some? then k else INVALID_ID
           case None => INVALID_ID)
  }

  /** Afterwards it has a weapon in hand exactly if it had one, has a sword, or has a bow with arrows; a
      sword is the first choice, and of several the first slot. */
  lemma RearmedExactlyWhen(f: Fighter)
    requires Equipped(f) && !Armed(f)
    ensures var f', s := Rearmed(f), f.storage;
            && f' == f.(equipped := f'.equipped)
            && (if HasKind(s, Sword) then FirstWithKind(s, Sword, f'.equipped)
                else if HasKind(s, Bow) && HasKind(s, Arrow) then FirstWithKind(s, Bow, f'.equipped)
                else f'.equipped == INVALID_ID)
  {
    FirstOfIsFirst(f.storage, Sword);
    FirstOfIsFirst(f.storage, Bow);
    FirstOfIsFirst(f.storage, Arrow);
  }

  function Rearm(w: World, i: nat): (w': World)
    requires i < |w.enemies| && Equipped(w.enemies[i].fighter)
    ensures Armed(w.enemies[i].fighter) ==> w' == w
  {
    w.(enemies := w.enemies[i := w.enemies[i].(fighter := Rearmed(w.enemies[i].fighter))])
  }

  function ActionOf(d: Deed, id: UInt32): EnemyAction {
    EnemyAction(d.kind, id, d.direction)
  }

  lemma DeedKeepsEnemies(w: World, i: nat, a: EnemyAction)
    requires WorldInv(w) && EnemiesInv(w) && i < |w.enemies|
    ensures EnemiesInv(EnemyActsFree(w, i, a)) && NoneRevived(w, EnemyActsFree(w, i, a))
    ensures SameRoster(w, EnemyActsFree(w, i, a))
  {
    var w' := EnemyActsFree(w, i, a);
    forall k | 0 <= k < |w'.enemies|
      ensures Armed(w'.enemies[k].fighter) && w'.enemies[k].fighter.hp <= w.enemies[k].fighter.hp
    {
      EnemyActionWears(w, i, a, TheEnemy(k));
    }
    EnemyActionKeepsRoster(w, i, a);
  }

  lemma EnemyActionKeepsRoster(w: World, id: nat, a: EnemyAction)
    requires WorldInv(w) && id < |w.enemies|
    ensures SameRoster(w, EnemyActsFree(w, id, a))
  {
  }

  ghost predicate NoneRevived(w: World, w': World) {
    && |w'.enemies| == |w.enemies|
    && forall k | 0 <= k < |w.enemies| :: w'.enemies[k].fighter.hp <= w.enemies[k].fighter.hp
  }

  /** What the rest of a turn relies on. */
  ghost predicate Fits(w: World, w': World) {
    WorldInv(w') && EnemiesInv(w') && |w'.enemies| == |w.enemies| && w'.players.Keys == w.players.Keys
  }

  /** And what a turn keeps besides. */
  ghost predicate Onwards(w: World, w': World) {
    NoneRevived(w, w') && SameRoster(w, w')
  }

  lemma OnwardsInTurn(w: World, w': World, w'': World)
    requires Onwards(w, w') && Onwards(w', w'')
    ensures Onwards(w, w'')
  {
  }

  /** One enemy's deeds, one after the other. */
  function DeedsOf(w: World, i: nat, deeds: seq<Deed>): (w': World)
    requires WorldInv(w) && EnemiesInv(w) && i < |w.enemies|
    ensures Fits(w, w')
    decreases |deeds|
  {
    if deeds == [] then w
    else
      DeedKeepsEnemies(w, i, ActionOf(deeds[0], 0));
      DeedsOf(EnemyActsFree(w, i, ActionOf(deeds[0], 0)), i, deeds[1..])
  }

  lemma {:induction false} DeedsGoOnwards(w: World, i: nat, deeds: seq<Deed>)
    requires WorldInv(w) && EnemiesInv(w) && i < |w.enemies|
    ensures Onwards(w, DeedsOf(w, i, deeds))
    decreases |deeds|
  {
    if deeds != [] {
      var w1 := EnemyActsFree(w, i, ActionOf(deeds[0], 0));
      DeedKeepsEnemies(w, i, ActionOf(deeds[0], 0));
      DeedsGoOnwards(w1, i, deeds[1..]);
      OnwardsInTurn(w, w1, DeedsOf(w, i, deeds));
    }
  }

  lemma DeedsOneByOne(w: World, i: nat, deeds: seq<Deed>, k: nat)
    requires WorldInv(w) && EnemiesInv(w) && i < |w.enemies| && k < |deeds|
    ensures var w1 := EnemyActsFree(w, i, ActionOf(deeds[k], 0));
            Fits(w, w1) && DeedsOf(w, i, deeds[k..]) == DeedsOf(w1, i, deeds[k + 1..])
  {
    DeedKeepsEnemies(w, i, ActionOf(deeds[k], 0));
    assert deeds[k..][0] == deeds[k] && deeds[k..][1..] == deeds[k + 1..];
  }

  function EntriesOf(id: UInt32, deeds: seq<Deed>): (log: seq<Entry>)
    ensures |log| == |deeds|
  {
    seq(|deeds|, k requires 0 <= k < |deeds| => EnemyEntry(ActionOf(deeds[k], id)))
  }

  function PlanOf(plans: seq<seq<Deed>>, i: nat): seq<Deed> {
    if i < |plans| then plans[i] else []
  }

  datatype TurnResult = TurnResult(w: World, told: seq<Entry>, foundDead: bool)

  /** The loop of `MakeAITurn` from the `i`-th enemy on. The number `active` that its actions carry counts
      the living only. */
  function EnemiesFrom(w: World, plans: seq<seq<Deed>>, i: nat, active: nat): (r: TurnResult)
    requires WorldInv(w) && EnemiesInv(w) && active <= i <= |w.enemies|
    ensures Fits(w, r.w)
    decreases |w.enemies| - i
  {
    if i == |w.enemies| then TurnResult(w, [], false)
    else if w.enemies[i].fighter.hp == 0 then EnemiesFrom(w, plans, i + 1, active).(foundDead := true)
    else
      var r := EnemiesFrom(DeedsOf(Rearm(w, i), i, PlanOf(plans, i)), plans, i + 1, active + 1);
      r.(told := EntriesOf(active, PlanOf(plans, i)) + r.told)
  }

  ghost predicate SomeoneIsDead(w: World) {
    exists k :: 0 <= k < |w.enemies| && w.enemies[k].fighter.hp == 0
  }

  lemma {:induction false} EnemiesGoOnwards(w: World, plans: seq<seq<Deed>>, i: nat, active: nat, r: TurnResult)
    requires WorldInv(w) && EnemiesInv(w) && active <= i <= |w.enemies| && r == EnemiesFrom(w, plans, i, active)
    ensures Onwards(w, r.w) && (r.foundDead ==> SomeoneIsDead(r.w))
    decreases |w.enemies| - i
  {
    if i == |w.enemies| {
      NobodyIsLeft(w, plans, active);
    } else if w.enemies[i].fighter.hp == 0 {
      DeadEnemyIsFound(w, plans, i, active);
      EnemiesGoOnwards(w, plans, i + 1, active, EnemiesFrom(w, plans, i + 1, active));
      DeadStayDead(w, r.w, i);
    } else {
      var w1 := DeedsOf(w, i, PlanOf(plans, i));
      LivingEnemyActs(w, plans, i, active);
      DeedsGoOnwards(w, i, PlanOf(plans, i));
      EnemiesGoOnwards(w1, plans, i + 1, active + 1, EnemiesFrom(w1, plans, i + 1, active + 1));
      OnwardsInTurn(w, w1, r.w);
    }
  }

  lemma EntriesInTurn(a: seq<Entry>, b: seq<Entry>, c: seq<Entry>)
    ensures (a + b) + c == a + (b + c)
  {
  }

  lemma DeadStayDead(w: World, w': World, i: nat)
    requires WorldInv(w') && NoneRevived(w, w') && i < |w.enemies| && w.enemies[i].fighter.hp == 0
    ensures w'.enemies[i].fighter.hp == 0
  {
  }

  function Living(enemies: seq<Enemy>): (r: seq<Enemy>)
    ensures |r| <= |enemies|
    ensures forall e | e in r :: e in enemies && e.fighter.hp > 0
  {
    if enemies == [] then []
    else
      var n := |enemies| - 1;
      Living(enemies[..n]) + if enemies[n].fighter.hp > 0 then [enemies[n]] else []
  }

  lemma {:induction false} TheDeadAreMissing(enemies: seq<Enemy>, k: nat)
    requires k < |enemies| && enemies[k].fighter.hp <= 0
    ensures |Living(enemies)| < |enemies|
  {
    var n := |enemies| - 1;
    if k < n {
      TheDeadAreMissing(enemies[..n], k);
    }
  }

  /** The positions in `kept` pick `r` out of `s`, in order. */
  ghost predicate Picks<T>(s: seq<T>, kept: seq<nat>, r: seq<T>) {
    && |kept| == |r|
    && (forall j | 0 <= j < |kept| :: kept[j] < |s| && r[j] == s[kept[j]])
    && (forall i, j | 0 <= i < j < |kept| :: kept[i] < kept[j])
  }

  /** The positions of the living, and no others. */
  ghost predicate PositionsOfTheLiving(enemies: seq<Enemy>, kept: seq<nat>) {
    && (forall j | 0 <= j < |kept| :: kept[j] < |enemies| && enemies[kept[j]].fighter.hp > 0)
    && (forall k | 0 <= k < |enemies| && enemies[k].fighter.hp > 0 :: k in kept)
  }

  /** Those left are exactly the living, in the order in which they stood. */
  lemma {:induction false} LivingKeepsExactlyTheLiving(enemies: seq<Enemy>) returns (kept: seq<nat>)
    ensures Picks(enemies, kept, Living(enemies)) && PositionsOfTheLiving(enemies, kept)
  {
    if enemies == [] {
      kept := [];
    } else {
      var n := |enemies| - 1;
      var before := LivingKeepsExactlyTheLiving(enemies[..n]);
      kept := before + if enemies[n].fighter.hp > 0 then [n] else [];
      PicksOneMore(enemies, before, Living(enemies[..n]), enemies[n].fighter.hp > 0);
      LivingOneMore(enemies, before, kept);
    }
  }

  lemma PicksOneMore<T>(s: seq<T>, before: seq<nat>, r: seq<T>, last: bool)
    requires s != [] && Picks(s[..|s| - 1], before, r)
    ensures var n := |s| - 1;
            Picks(s, before + if last then [n] else [], r + if last then [s[n]] else [])
  {
  }

  lemma LivingOneMore(enemies: seq<Enemy>, before: seq<nat>, kept: seq<nat>)
    requires enemies != [] && PositionsOfTheLiving(enemies[..|enemies| - 1], before)
    requires kept == before + if enemies[|enemies| - 1].fighter.hp > 0 then [|enemies| - 1] else []
    ensures PositionsOfTheLiving(enemies, kept)
  {
    var n := |enemies| - 1;
    forall k | 0 <= k < |enemies| && enemies[k].fighter.hp > 0
      ensures k in kept
    {
      assert k < n ==> enemies[..n][k] == enemies[k] && k in before;
      assert k == n ==> kept[|before|] == n;
    }
    forall j | 0 <= j < |kept|
      ensures kept[j] < |enemies| && enemies[kept[j]].fighter.hp > 0
    {
      assert j < |before| ==> kept[j] == before[j] && enemies[..n][before[j]] == enemies[before[j]];
    }
  }

  function Pruned(w: World): World {
    w.(enemies := Living(w.enemies))
  }

  lemma PruningKeeps(w: World)
    requires WorldInv(w) && EnemiesInv(w)
    ensures WorldInv(Pruned(w)) && EnemiesInv(Pruned(w))
  {
    var living := Living(w.enemies);
    forall k | 0 <= k < |living|
      ensures FighterInv(living[k].fighter) && Armed(living[k].fighter)
    {
      assert living[k] in w.enemies;
    }
  }

  /** `MakeAITurn` */
  function EnemiesTurn(w: World, plans: seq<seq<Deed>>): (r: TurnResult)
    requires WorldInv(w) && EnemiesInv(w)
    ensures WorldInv(r.w) && EnemiesInv(r.w)
  {
    var r := EnemiesFrom(w, plans, 0, 0);
    if r.foundDead then
      PruningKeeps(r.w);
      r.(w := Pruned(r.w))
    else r
  }

  /** However the enemies choose, they move no player and leave roster and budgets alone. */
  lemma EnemiesTurnKeepsRoster(w: World, plans: seq<seq<Deed>>)
    requires WorldInv(w) && EnemiesInv(w)
    ensures SameRoster(w, EnemiesTurn(w, plans).w)
  {
    EnemiesGoOnwards(w, plans, 0, 0, EnemiesFrom(w, plans, 0, 0));
  }

  lemma EnemiesTurnRemovesTheDead(w: World, plans: seq<seq<Deed>>)
    requires WorldInv(w) && EnemiesInv(w)
    ensures |EnemiesTurn(w, plans).w.enemies| <= |w.enemies|
    ensures EnemiesTurn(w, plans).foundDead ==> |EnemiesTurn(w, plans).w.enemies| < |w.enemies|
  {
    var r := EnemiesFrom(w, plans, 0, 0);
    EnemiesGoOnwards(w, plans, 0, 0, r);
    if r.foundDead {
      var k :| 0 <= k < |r.w.enemies| && r.w.enemies[k].fighter.hp == 0;
      TheDeadAreMissing(r.w.enemies, k);
    }
  }

  // ---- Worlds equal up to turn counters ----------------------------------------------------------

  predicate SamePlayer(p: Player, p': Player) {
    p.id == p'.id && p.fighter == p'.fighter && p.maxTurns == p'.maxTurns
  }

  ghost predicate InStep(w: World, w': World) {
    && w.enemies == w'.enemies && w.players.Keys == w'.players.Keys
    && forall k | k in w.players :: SamePlayer(w.players[k], w'.players[k])
  }

  lemma BlowKeepsInStep(
      w: World, w': World, spot: Coords, except: Option<UInt32>, friends: Option<UInt32>, damage: Option<UInt32>)
    requires InStep(w, w')
    ensures InStep(BlowFree(w, spot, except, friends, damage), BlowFree(w', spot, except, friends, damage))
  {
  }

  lemma PlayerPaysInStep(w: World, w': World, id: UInt32)
    requires WorldInv(w) && WorldInv(w') && InStep(w, w') && id in w.players
    ensures InStep(PlayerPays(w, id).0, PlayerPays(w', id).0) && PlayerPays(w, id).1 == PlayerPays(w', id).1
  {
  }

  lemma PlayerAttacksInStep(w: World, w': World, id: UInt32, direction: Coords)
    requires WorldInv(w) && WorldInv(w') && InStep(w, w') && id in w.players
    ensures InStep(PlayerAttacksFree(w, id, direction), PlayerAttacksFree(w', id, direction))
  {
    var spot := Plus(w.players[id].fighter.coords, direction);
    PlayerPaysInStep(w, w', id);
    BlowKeepsInStep(PlayerPays(w, id).0, PlayerPays(w', id).0, spot, Some(id), None, PlayerPays(w, id).1);
  }

  lemma SpendingInStep(w: World, w': World, id: UInt32)
    requires WorldInv(w) && WorldInv(w') && InStep(w, w') && id in w.players
    ensures InStep(SpendAction(w, id), SpendAction(w', id))
  {
  }

  lemma MovingInStep(w: World, w': World, id: UInt32, a: PlayerAction)
    requires WorldInv(w) && WorldInv(w') && InStep(w, w') && id in w.players
    ensures InStep(PlayerMoves(w, id, a), PlayerMoves(w', id, a))
  {
  }

  lemma PlayerActsInStep(w: World, w': World, id: UInt32, a: PlayerAction)
    requires WorldInv(w) && WorldInv(w') && InStep(w, w') && id in w.players
    ensures InStep(PlayerActsFree(w, id, a), PlayerActsFree(w', id, a))
  {
    var m, m' := PlayerMoves(w, id, a), PlayerMoves(w', id, a);
    MovingInStep(w, w', id, a);
    if a.kind == EndTurn {
      SpendingInStep(m, m', id);
    } else {
      PlayerAttacksInStep(m, m', id, a.direction);
      SpendingInStep(PlayerAttacksFree(m, id, a.direction), PlayerAttacksFree(m', id, a.direction), id);
    }
  }

  lemma EnemyPaysInStep(w: World, w': World, id: nat)
    requires WorldInv(w) && WorldInv(w') && InStep(w, w') && id < |w.enemies|
    ensures InStep(EnemyPays(w, id).0, EnemyPays(w', id).0) && EnemyPays(w, id).1 == EnemyPays(w', id).1
  {
  }

  lemma EnemyActsInStep(w: World, w': World, id: nat, a: EnemyAction)
    requires WorldInv(w) && WorldInv(w') && InStep(w, w') && id < |w.enemies|
    ensures InStep(EnemyActsFree(w, id, a), EnemyActsFree(w', id, a))
  {
    if a.kind == EnemyBaseAttack {
      var spot := Plus(w.enemies[id].fighter.coords, a.direction);
      EnemyPaysInStep(w, w', id);
      var friends := Some(w.enemies[id].faction);
      BlowKeepsInStep(EnemyPays(w, id).0, EnemyPays(w', id).0, spot, None, friends, EnemyPays(w, id).1);
    }
  }

  // ---- Replay in step ------------------------------------------------------------------------------

  lemma ReplayOneInStep(w: World, w': World, e: Entry)
    requires WorldInv(w) && WorldInv(w') && InStep(w, w')
    ensures ReplayOneFree(w, e).Some? == ReplayOneFree(w', e).Some?
    ensures ReplayOneFree(w, e).Some? ==> InStep(ReplayOneFree(w, e).value, ReplayOneFree(w', e).value)
  {
    match e
    case PlayerEntry(a) =>
      if a.playerId in w.players {
        PlayerActsInStep(w, w', a.playerId, a);
      }
    case EnemyEntry(a) =>
      if a.enemyId < |w.enemies| {
        EnemyActsInStep(w, w', a.enemyId, a);
      }
  }

  /** Replaying one log in worlds that are in step keeps them in step. */
  lemma {:induction false} ReplayInStep(w: World, w': World, log: seq<Entry>)
    requires WorldInv(w) && WorldInv(w') && InStep(w, w')
    ensures ReplayFree(w, log).Some? == ReplayFree(w', log).Some?
    ensures ReplayFree(w, log).Some? ==> InStep(ReplayFree(w, log).value, ReplayFree(w', log).value)
    decreases |log|
  {
    if log != [] {
      ReplayOneInStep(w, w', log[0]);
      if ReplayOneFree(w, log[0]).Some? {
        ReplayInStep(ReplayOneFree(w, log[0]).value, ReplayOneFree(w', log[0]).value, log[1..]);
      }
    }
  }

  // ---- When the turn is what the clients are told --------------------------------------------------

  lemma ActionNumbersDoNotMatter(w: World, i: nat, d: Deed, id: UInt32)
    requires WorldInv(w) && i < |w.enemies|
    ensures EnemyActsFree(w, i, ActionOf(d, id)) == EnemyActsFree(w, i, ActionOf(d, 0))
  {
  }

  /** Entries that carry an enemy's own position replay its deeds. */
  lemma {:induction false} EntriesTellDeeds(w: World, i: nat, deeds: seq<Deed>)
    requires WorldInv(w) && EnemiesInv(w) && i < |w.enemies|
    ensures ReplayFree(w, EntriesOf(i, deeds)) == Some(DeedsOf(w, i, deeds))
    decreases |deeds|
  {
    if deeds != [] {
      assert EntriesOf(i, deeds)[1..] == EntriesOf(i, deeds[1..]);
      ActionNumbersDoNotMatter(w, i, deeds[0], i);
      DeedKeepsEnemies(w, i, ActionOf(deeds[0], 0));
      EntriesTellDeeds(EnemyActsFree(w, i, ActionOf(deeds[0], 0)), i, deeds[1..]);
    }
  }

  /** The loop at an enemy that is alive. */
  lemma LivingEnemyActs(w: World, plans: seq<seq<Deed>>, i: nat, active: nat)
    requires WorldInv(w) && EnemiesInv(w) && active <= i < |w.enemies| && w.enemies[i].fighter.hp != 0
    ensures var r := EnemiesFrom(DeedsOf(w, i, PlanOf(plans, i)), plans, i + 1, active + 1);
            EnemiesFrom(w, plans, i, active) == r.(told := EntriesOf(active, PlanOf(plans, i)) + r.told)
  {
    assert Rearm(w, i) == w;
  }

  lemma NobodyIsLeft(w: World, plans: seq<seq<Deed>>, active: nat)
    requires WorldInv(w) && EnemiesInv(w) && active <= |w.enemies|
    ensures EnemiesFrom(w, plans, |w.enemies|, active) == TurnResult(w, [], false)
  {
  }

  lemma DeadEnemyIsFound(w: World, plans: seq<seq<Deed>>, i: nat, active: nat)
    requires WorldInv(w) && EnemiesInv(w) && active <= i < |w.enemies| && w.enemies[i].fighter.hp == 0
    ensures EnemiesFrom(w, plans, i, active) == EnemiesFrom(w, plans, i + 1, active).(foundDead := true)
  {
  }

  /** The loop at any enemy. */
  lemma EnemiesOneByOne(w: World, plans: seq<seq<Deed>>, i: nat, active: nat)
    requires WorldInv(w) && EnemiesInv(w) && active <= i < |w.enemies|
    ensures if w.enemies[i].fighter.hp == 0
            then EnemiesFrom(w, plans, i, active) == EnemiesFrom(w, plans, i + 1, active).(foundDead := true)
            else
              var r := EnemiesFrom(DeedsOf(w, i, PlanOf(plans, i)), plans, i + 1, active + 1);
              EnemiesFrom(w, plans, i, active) == r.(told := EntriesOf(active, PlanOf(plans, i)) + r.told)
  {
    if w.enemies[i].fighter.hp == 0 {
      DeadEnemyIsFound(w, plans, i, active);
    } else {
      LivingEnemyActs(w, plans, i, active);
    }
  }

  lemma DeedsAreTold(w: World, i: nat, deeds: seq<Deed>, r: TurnResult)
    requires WorldInv(w) && EnemiesInv(w) && i < |w.enemies|
    requires ReplayFree(DeedsOf(w, i, deeds), r.told) == Some(r.w)
    ensures ReplayFree(w, EntriesOf(i, deeds) + r.told) == Some(r.w)
  {
    EntriesTellDeeds(w, i, deeds);
    ReplayInParts(w, EntriesOf(i, deeds), r.told);
  }

  lemma {:induction false} LivingTurnIsTold(w: World, plans: seq<seq<Deed>>, i: nat, r: TurnResult)
    requires WorldInv(w) && EnemiesInv(w) && i <= |w.enemies| && r == EnemiesFrom(w, plans, i, i) && !r.foundDead
    ensures ReplayFree(w, r.told) == Some(r.w)
    decreases |w.enemies| - i
  {
    if i == |w.enemies| {
      NobodyIsLeft(w, plans, i);
    } else if w.enemies[i].fighter.hp == 0 {
      DeadEnemyIsFound(w, plans, i, i);
    } else {
      var w1 := DeedsOf(w, i, PlanOf(plans, i));
      var rest := EnemiesFrom(w1, plans, i + 1, i + 1);
      LivingEnemyActs(w, plans, i, i);
      LivingTurnIsTold(w1, plans, i + 1, rest);
      DeedsAreTold(w, i, PlanOf(plans, i), rest);
    }
  }

  /** A client in step with the server before the enemies' turn is in step with it afterwards exactly when
      no enemy was found dead when its turn came: a dead one shifts the numbers of those behind it, and
      is removed from the server's list but from no client's. */
  lemma TurnIsFollowedExactlyWhen(w: World, plans: seq<seq<Deed>>, client: World)
    requires WorldInv(w) && EnemiesInv(w) && WorldInv(client) && InStep(w, client)
    ensures var r := EnemiesTurn(w, plans);
            var told := ReplayFree(client, r.told);
            told.Some? && InStep(r.w, told.value) <==> !r.foundDead
  {
    var r := EnemiesTurn(w, plans);
    if r.foundDead {
      EnemiesTurnRemovesTheDead(w, plans);
    } else {
      LivingTurnIsTold(w, plans, 0, EnemiesFrom(w, plans, 0, 0));
      ReplayInStep(w, client, r.told);
    }
  }

  /** The second of two enemies makes one move. */
  function SecondMoves(direction: Coords): seq<seq<Deed>> {
    [[], [Deed(EnemyMove, direction)]]
  }

  /** What happens otherwise: the first of two enemies is dead, the second one moves, the first one is
      removed, and the clients are told that the first one moved. */
  lemma TheDeadIsSaidToMove(w: World, direction: Coords)
    requires WorldInv(w) && EnemiesInv(w) && |w.enemies| == 2
    requires w.enemies[0].fighter.hp == 0 && w.enemies[1].fighter.hp > 0
    ensures EnemiesTurn(w, SecondMoves(direction))
            == TurnResult(w.(enemies := [w.enemies[1].(fighter := Moved(w.enemies[1].fighter, direction))]),
                          [EnemyEntry(EnemyAction(EnemyMove, 0, direction))], true)
  {
    var e := EnemyEntry(EnemyAction(EnemyMove, 0, direction));
    var w1 := WithEnemy(w, 1, Moved(w.enemies[1].fighter, direction));
    LoopOverDeadAndLiving(w, direction, w1);
    TurnAfterLoop(w, SecondMoves(direction), TurnResult(w1, [e], true));
    SecondIsLeft(w1.enemies);
  }

  /** So there the first one does move. */
  lemma TheDeadMovesAtTheClients(w: World, direction: Coords)
    requires WorldInv(w) && |w.enemies| == 2
    ensures ReplayFree(w, [EnemyEntry(EnemyAction(EnemyMove, 0, direction))])
            == Some(WithEnemy(w, 0, Moved(w.enemies[0].fighter, direction)))
  {
    OneIsTold(w, EnemyEntry(EnemyAction(EnemyMove, 0, direction)));
  }

  lemma TurnAfterLoop(w: World, plans: seq<seq<Deed>>, r: TurnResult)
    requires WorldInv(w) && EnemiesInv(w) && EnemiesFrom(w, plans, 0, 0) == r
    ensures EnemiesTurn(w, plans) == if r.foundDead then r.(w := Pruned(r.w)) else r
  {
  }

  lemma LoopOverDeadAndLiving(w: World, direction: Coords, w1: World)
    requires WorldInv(w) && EnemiesInv(w) && |w.enemies| == 2
    requires w.enemies[0].fighter.hp == 0 && w.enemies[1].fighter.hp > 0
    requires w1 == WithEnemy(w, 1, Moved(w.enemies[1].fighter, direction))
    ensures EnemiesFrom(w, SecondMoves(direction), 0, 0)
            == TurnResult(w1, [EnemyEntry(EnemyAction(EnemyMove, 0, direction))], true)
  {
    var deed := Deed(EnemyMove, direction);
    var plans := SecondMoves(direction);
    OneDeed(w, 1, deed);
    DeadEnemyIsFound(w, plans, 0, 0);
    LivingEnemyActs(w, plans, 1, 0);
    NobodyIsLeft(w1, plans, 1);
    assert EntriesOf(0, [deed]) + [] == [EnemyEntry(ActionOf(deed, 0))];
  }

  lemma OneDeed(w: World, i: nat, d: Deed)
    requires WorldInv(w) && EnemiesInv(w) && i < |w.enemies|
    ensures DeedsOf(w, i, [d]) == EnemyActsFree(w, i, ActionOf(d, 0))
  {
    assert [d][1..] == [];
  }

  lemma SecondIsLeft(enemies: seq<Enemy>)
    requires |enemies| == 2 && enemies[0].fighter.hp <= 0 < enemies[1].fighter.hp
    ensures Living(enemies) == [enemies[1]]
  {
    assert enemies[..1] == [enemies[0]] && [enemies[0]][..0] == [];
    assert Living([]) == [] && Living([enemies[0]]) == [];
  }

  lemma OneIsTold(w: World, e: Entry)
    requires WorldInv(w)
    ensures ReplayFree(w, [e]) == ReplayOneFree(w, e)
  {
    assert [e][1..] == [];
  }
}
