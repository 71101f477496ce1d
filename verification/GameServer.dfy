/** The server as the object whose message handler changes the world and the current player in place,
    AsciiTerra_Server/GameServer.cpp. What the enemies choose to do is a parameter. */
module GameServers {
  import opened Wrappers
  import opened GameRules
  import opened GameWorlds
  import opened GameObjects
  import opened WorldMaps
  import opened TurnMachines
  import opened EnemyTurns
  import opened Replicas

  /** What the handler sends back; `Failed` stands for the exception for an unknown player and for a tile
      index beyond the map. */
  datatype Reply = Validated | Aborted | Failed

  /** `g` may pass its turn on, and that leads to `g'` with `told` told. */
  ghost predicate Passes(g: Game, plans: seq<seq<Deed>>, g': Game, told: seq<Entry>) {
    && RosterInv(g.world, g.roster) && EnemiesInv(g.world) && g.current in g.roster
    && SameRoster(g.world, EnemiesTurn(g.world, plans).w)
    && g' == PassOn(g, EnemiesTurn(g.world, plans).w)
    && told == if EndsRound(g) then EnemiesTurn(g.world, plans).told else []
  }

  lemma PassingIsServing(g: Game, tiles: seq<UInt8>, t: Turn) returns (told: seq<Entry>)
    requires GameInv(g) && EnemiesInv(g.world) && Accepts(g, tiles, t.request)
    ensures Passes(AfterAction(g, t.request), t.plans, Serve(g, tiles, t), told)
    ensures Told(g, tiles, t) == [Announced(t.request)] + told
  {
    ServingAnAcceptedRequest(g, tiles, t);
    var g' := AfterAction(g, t.request);
    told := if EndsRound(g') then EnemiesTurn(g'.world, t.plans).told else [];
  }

  lemma RefusingIsServing(g: Game, tiles: seq<UInt8>, t: Turn, announced: seq<Entry>)
    requires GameInv(g) && EnemiesInv(g.world) && !Accepts(g, tiles, t.request)
    ensures Serve(g, tiles, t) == g && announced + Told(g, tiles, t) == announced
  {
    assert announced + [] == announced;
  }

  /** What is told when the turn passes on from a client. */
  function ToldBy(g: Game, client: UInt32, plans: seq<seq<Deed>>): seq<Entry>
    requires client in g.roster && WorldInv(g.world) && EnemiesInv(g.world)
  {
    if IndexOf(g.roster, client) + 1 == |g.roster| then EnemiesTurn(g.world, plans).told else []
  }

  /** The loop's results so far, and those still to come. */
  function Joined(told: seq<Entry>, dirty: bool, rest: TurnResult): TurnResult {
    TurnResult(rest.w, told + rest.told, dirty || rest.foundDead)
  }

  /** Enemy i has done the first `k` of its deeds. */
  ghost predicate InTheMidst(w: World, i: nat, deeds: seq<Deed>, k: nat, after: World) {
    && WorldInv(w) && EnemiesInv(w) && i < |w.enemies| && k <= |deeds|
    && DeedsOf(w, i, deeds[k..]) == after
  }

  /** The turn has come to enemy i, with these results so far. */
  ghost predicate OnTheWay(
      w: World, plans: seq<seq<Deed>>, i: nat, active: nat, told: seq<Entry>, dirty: bool, whole: TurnResult)
  {
    WorldInv(w) && EnemiesInv(w) && active <= i <= |w.enemies|
    && Joined(told, dirty, EnemiesFrom(w, plans, i, active)) == whole
  }

  lemma JoinedAtFirst(rest: TurnResult)
    ensures Joined([], false, rest) == rest
  {
    assert [] + rest.told == rest.told;
  }

  lemma JoinedAtLast(w: World, plans: seq<seq<Deed>>, active: nat, told: seq<Entry>, dirty: bool, whole: TurnResult)
    requires WorldInv(w) && EnemiesInv(w) && active <= |w.enemies|
    requires Joined(told, dirty, EnemiesFrom(w, plans, |w.enemies|, active)) == whole
    ensures TurnResult(w, told, dirty) == whole
  {
    NobodyIsLeft(w, plans, active);
    assert told + [] == told;
  }

  /** One enemy further. */
  lemma JoinedOneFurther(
      w: World, plans: seq<seq<Deed>>, i: nat, active: nat, told: seq<Entry>, dirty: bool, whole: TurnResult)
    requires OnTheWay(w, plans, i, active, told, dirty, whole) && i < |w.enemies|
    ensures if w.enemies[i].fighter.hp == 0
            then OnTheWay(w, plans, i + 1, active, told, true, whole)
            else
              var deeds := PlanOf(plans, i);
              OnTheWay(DeedsOf(w, i, deeds), plans, i + 1, active + 1, told + EntriesOf(active, deeds), dirty, whole)
  {
    EnemiesOneByOne(w, plans, i, active);
    if w.enemies[i].fighter.hp != 0 {
      var deeds := PlanOf(plans, i);
      var rest := EnemiesFrom(DeedsOf(w, i, deeds), plans, i + 1, active + 1);
      EntriesInTurn(told, EntriesOf(active, deeds), rest.told);
    }
  }

  class GameServer {
    const gameWorld: GameWorld
    const tiles: array<UInt8>
    const roster: seq<UInt32>            // the order in which the player map is iterated
    var current: UInt32
    var announced: seq<Entry>            // every action told to all clients, in order
    ghost var log: seq<TurnEvent>

    /** The map is generated before anyone can register. */
    constructor (gameWorld: GameWorld, roster: seq<UInt32>, current: UInt32, random: nat -> nat)
      ensures this.gameWorld == gameWorld && this.roster == roster
      ensures State() == Game(gameWorld.State(), roster, current, []) && announced == []
      ensures fresh(tiles) && Bordered(tiles[..])
    {
      var map' := new UInt8[WIDTH * HEIGHT](i => 0);
      GenerateMap(map', random);
      this.gameWorld := gameWorld;
      this.tiles := map';
      this.roster := roster;
      this.current := current;
      this.announced := [];
      this.log := [];
    }

    ghost function State(): Game
      reads this, gameWorld
    {
      Game(gameWorld.State(), roster, current, log)
    }

    // ---- Checking actions --------------------------------------------------------------------------

    /** `valid` of the targets found. */
    method PlayerFindAttackTarget(id: UInt32, direction: Coords) returns (valid: bool)
      requires WorldInv(gameWorld.State()) && id in gameWorld.players && VisitingOrder(roster, gameWorld.players.Keys)
      ensures valid == HasTarget(gameWorld.State(), id, direction)
    {
      var spot := Plus(gameWorld.players[id].fighter.coords, direction);
      var playerIds := gameWorld.FindPlayers(roster, spot, Some(id));
      var enemyIds := gameWorld.FindEnemies(spot, None);
      TargetsAreFoundInEveryOrder(gameWorld.State(), id, direction, roster);
      valid := playerIds != [] || enemyIds != [];
    }

    method CheckMove(target: Coords) returns (v: Verdict)
      ensures v == CheckTile(tiles[..], target)
    {
      if target.x < 0 || target.x > WIDTH || target.y < 0 || target.y > HEIGHT {
        return Refused;
      }
      var tile := target.x + target.y * WIDTH;
      if tile >= tiles.Length {
        return OutOfMap;
      }
      return if tiles[tile] == HILL then Refused else Approved;
    }

    method CheckPlayerAction(a: PlayerAction) returns (v: Verdict)
      requires WorldInv(gameWorld.State()) && VisitingOrder(roster, gameWorld.players.Keys)
      ensures v == Check(gameWorld.State(), tiles[..], a)
    {
      if a.playerId !in gameWorld.players {
        return Thrown;
      }
      var player := gameWorld.players[a.playerId];
      if player.fighter.hp <= 0 {
        return Refused;
      }
      match a.kind
      case Attack =>
        var valid := PlayerFindAttackTarget(a.playerId, a.direction);
        return if valid then Approved else Refused;
      case Move =>
        v := CheckMove(Plus(player.fighter.coords, a.direction));
      case EndTurn =>
        return Refused;
    }

    // ---- The enemies' turn -------------------------------------------------------------------------

    /** One deed, in place; the number on it is told, not used. */
    method MakeDeed(i: nat, active: UInt32, d: Deed) returns (told: Entry)
      requires WorldInv(gameWorld.State()) && EnemiesInv(gameWorld.State()) && i < |gameWorld.enemies|
      requires VisitingOrder(roster, gameWorld.players.Keys)
      modifies gameWorld
      ensures gameWorld.State() == EnemyActsFree(old(gameWorld.State()), i, ActionOf(d, 0))
      ensures Fits(old(gameWorld.State()), gameWorld.State())
      ensures told == EnemyEntry(ActionOf(d, active))
    {
      ghost var before := gameWorld.State();
      DeedKeepsEnemies(before, i, ActionOf(d, 0));
      ActionNumbersDoNotMatter(before, i, d, active);
      gameWorld.MakeEnemyAction(i, ActionOf(d, active), roster);
      told := EnemyEntry(ActionOf(d, active));
    }

    /** One enemy's deeds. */
    method MakeDeeds(i: nat, active: UInt32, deeds: seq<Deed>) returns (told: seq<Entry>)
      requires WorldInv(gameWorld.State()) && EnemiesInv(gameWorld.State()) && i < |gameWorld.enemies|
      requires VisitingOrder(roster, gameWorld.players.Keys)
      modifies gameWorld
      ensures gameWorld.State() == DeedsOf(old(gameWorld.State()), i, deeds)
      ensures told == EntriesOf(active, deeds)
    {
      ghost var w, after := gameWorld.State(), DeedsOf(gameWorld.State(), i, deeds);
      told := [];
      assert deeds[0..] == deeds;
      for k := 0 to |deeds|
        invariant w == gameWorld.State() && VisitingOrder(roster, w.players.Keys)
        invariant InTheMidst(w, i, deeds, k, after)
        invariant |told| == k && forall t | 0 <= t < k :: told[t] == EnemyEntry(ActionOf(deeds[t], active))
      {
        DeedsOneByOne(w, i, deeds, k);
        var entry := MakeDeed(i, active, deeds[k]);
        told := told + [entry];
        w := gameWorld.State();
      }
    }

    /** One enemy's part of the turn: nothing if it is dead. */
    method TakeTurn(i: nat, active: UInt32, deeds: seq<Deed>) returns (told: seq<Entry>, alive: bool)
      requires WorldInv(gameWorld.State()) && EnemiesInv(gameWorld.State()) && i < |gameWorld.enemies|
      requires VisitingOrder(roster, gameWorld.players.Keys)
      modifies gameWorld
      ensures alive <==> old(gameWorld.enemies)[i].fighter.hp != 0
      ensures gameWorld.State() == if alive then DeedsOf(old(gameWorld.State()), i, deeds) else old(gameWorld.State())
      ensures told == if alive then EntriesOf(active, deeds) else []
      ensures Fits(old(gameWorld.State()), gameWorld.State())
    {
      var enemy := gameWorld.enemies[i];
      told, alive := [], enemy.fighter.hp != 0;
      if alive {
        ghost var before := gameWorld.State();
        assert Rearm(before, i) == before;
        gameWorld.enemies := gameWorld.enemies[i := enemy.(fighter := Rearmed(enemy.fighter))];
        assert gameWorld.State() == before;
        told := MakeDeeds(i, active, deeds);
      }
    }

    /** `MakeAITurn` */
    method MakeAITurn(plans: seq<seq<Deed>>) returns (told: seq<Entry>)
      requires WorldInv(gameWorld.State()) && EnemiesInv(gameWorld.State())
      requires VisitingOrder(roster, gameWorld.players.Keys)
      modifies gameWorld
      ensures gameWorld.State() == EnemiesTurn(old(gameWorld.State()), plans).w
      ensures told == EnemiesTurn(old(gameWorld.State()), plans).told
    {
      var dirty;
      told, dirty := LetEnemiesAct(plans);
      if dirty {
        gameWorld.enemies := Living(gameWorld.enemies);
      }
    }

    /** Its loop. */
    method LetEnemiesAct(plans: seq<seq<Deed>>) returns (told: seq<Entry>, dirty: bool)
      requires WorldInv(gameWorld.State()) && EnemiesInv(gameWorld.State())
      requires VisitingOrder(roster, gameWorld.players.Keys)
      modifies gameWorld
      ensures TurnResult(gameWorld.State(), told, dirty) == EnemiesFrom(old(gameWorld.State()), plans, 0, 0)
    {
      ghost var w, whole := gameWorld.State(), EnemiesFrom(gameWorld.State(), plans, 0, 0);
      told, dirty := [], false;
      var active: nat := 0;
      JoinedAtFirst(whole);
      for i := 0 to |gameWorld.enemies|
        invariant w == gameWorld.State() && VisitingOrder(roster, w.players.Keys)
        invariant |w.enemies| == |old(gameWorld.enemies)|
        invariant OnTheWay(w, plans, i, active, told, dirty, whole)
      {
        told, active, dirty := LetEnemyAct(i, plans, told, active, dirty, whole);
        w := gameWorld.State();
      }
      JoinedAtLast(w, plans, active, told, dirty, whole);
    }

    /** One pass of the loop. */
    method LetEnemyAct(
        i: nat, plans: seq<seq<Deed>>, told: seq<Entry>, active: nat, dirty: bool, ghost whole: TurnResult)
      returns (told': seq<Entry>, active': nat, dirty': bool)
      requires OnTheWay(gameWorld.State(), plans, i, active, told, dirty, whole) && i < |gameWorld.enemies|
      requires VisitingOrder(roster, gameWorld.players.Keys)
      modifies gameWorld
      ensures OnTheWay(gameWorld.State(), plans, i + 1, active', told', dirty', whole)
      ensures |gameWorld.enemies| == |old(gameWorld.enemies)|
      ensures gameWorld.players.Keys == old(gameWorld.players.Keys)
    {
      JoinedOneFurther(gameWorld.State(), plans, i, active, told, dirty, whole);
      var more, alive := TakeTurn(i, active, PlanOf(plans, i));
      if alive {
        told', active', dirty' := told + more, active + 1, dirty;
      } else {
        told', active', dirty' := told, active, true;
      }
    }

    // ---- Turns and requests ------------------------------------------------------------------------

    /** Without a client the first player comes next, otherwise the one after it, or the enemies. */
    method ChooseNextPlayerForTurn(client: Option<UInt32>, plans: seq<seq<Deed>>)
      requires RosterInv(gameWorld.State(), roster) && EnemiesInv(gameWorld.State())
      requires client.Some? ==> client.value in roster
      modifies this, gameWorld
      ensures client.None? ==> State() == ChooseFirst(old(State())) && announced == old(announced)
      ensures client.Some? ==>
                State() == ChooseNext(old(State()), client.value, EnemiesTurn(old(gameWorld.State()), plans).w)
      ensures client.Some? ==> announced == old(announced) + ToldBy(old(State()), client.value, plans)
    {
      if client.None? {
        current := roster[0];
        SetFullTurn(current);
      } else {
        ChooseAfter(client.value, plans);
      }
    }

    method ChooseAfter(client: UInt32, plans: seq<seq<Deed>>)
      requires RosterInv(gameWorld.State(), roster) && EnemiesInv(gameWorld.State()) && client in roster
      modifies this, gameWorld
      ensures State() == ChooseNext(old(State()), client, EnemiesTurn(old(gameWorld.State()), plans).w)
      ensures announced == old(announced) + ToldBy(old(State()), client, plans)
    {
      EnemiesTurnKeepsRoster(gameWorld.State(), plans);
      var i := IndexOf(roster, client);
      if i + 1 == |roster| {
        var told := MakeAITurn(plans);
        announced := announced + told;
        current := roster[0];
        log := log + [AITurn];
      } else {
        assert announced + [] == announced;
        current := roster[i + 1];
      }
      SetFullTurn(current);
    }

    /** `SetCurrentTurnActions` with the player's maximum. */
    method SetFullTurn(id: UInt32)
      requires id in gameWorld.players
      modifies gameWorld
      ensures gameWorld.State() == StartTurn(old(gameWorld.State()), id)
    {
      var player := gameWorld.players[id];
      gameWorld.players := gameWorld.players[id := player.(currentTurns := player.maxTurns)];
    }

    /** The action is applied and announced. */
    method ApplyAction(r: Request)
      requires GameInv(State()) && r.client in gameWorld.players
      modifies this, gameWorld
      ensures State() == AfterAction(old(State()), r)
      ensures announced == old(announced) + [Announced(r)]
    {
      gameWorld.MakeApprovedAction(r.client, r.action, roster);
      log := log + [Acted(r.client)];
      announced := announced + [PlayerEntry(r.action.(playerId := r.client))];
    }

    /** The turn passes on when the current player has no action left. */
    method PassOnTurn(plans: seq<seq<Deed>>, ghost g': Game, ghost told: seq<Entry>)
      requires Passes(State(), plans, g', told)
      modifies this, gameWorld
      ensures State() == g' && announced == old(announced) + told
    {
      assert announced + [] == announced;
      if gameWorld.players[current].currentTurns <= 0 {
        ChooseNextPlayerForTurn(Some(current), plans);
      }
    }

    /** What the action-approval case of OnMessage does with an approved action. */
    method ApplyRequest(r: Request, plans: seq<seq<Deed>>, ghost g: Game, ghost g': Game, ghost told: seq<Entry>)
      requires g == State() && GameInv(g) && r.client in gameWorld.players
      requires Passes(AfterAction(g, r), plans, g', told)
      modifies this, gameWorld
      ensures State() == g'
      ensures announced == old(announced) + ([Announced(r)] + told)
    {
      ghost var before := announced;
      ApplyAction(r);
      PassOnTurn(plans, g', told);
      EntriesInTurn(before, [Announced(r)], told);
    }

    /** Whether the action-approval case of OnMessage applies a request. */
    method Decide(r: Request) returns (reply: Reply)
      requires GameInv(State())
      ensures reply.Validated? <==> Accepts(State(), tiles[..], r)
      ensures reply.Failed? <==>
                && r.client == current
                && Check(gameWorld.State(), tiles[..], r.action) in {Thrown, OutOfMap}
    {
      reply := Aborted;
      if r.client == current {
        if r.client in gameWorld.players {
          var actions := gameWorld.players[r.client].currentTurns;
          if actions > 0 {
            var verdict := CheckPlayerAction(r.action);
            if verdict == Approved {
              reply := Validated;
            } else if verdict == Thrown || verdict == OutOfMap {
              reply := Failed;
            }
          }
        }
      }
    }

    /** The action-approval case of OnMessage. */
    method OnActionRequest(r: Request, plans: seq<seq<Deed>>) returns (reply: Reply)
      requires GameInv(State()) && EnemiesInv(gameWorld.State())
      modifies this, gameWorld
      ensures State() == Serve(old(State()), tiles[..], Turn(r, plans))
      ensures announced == old(announced) + Told(old(State()), tiles[..], Turn(r, plans))
      ensures reply.Validated? <==> old(Accepts(State(), tiles[..], r))
    {
      reply := Decide(r);
      if reply == Validated {
        GrantRequest(r, plans);
      } else {
        RefusingIsServing(State(), tiles[..], Turn(r, plans), announced);
      }
    }

    /** A request that is accepted. */
    method GrantRequest(r: Request, plans: seq<seq<Deed>>)
      requires GameInv(State()) && EnemiesInv(gameWorld.State()) && Accepts(State(), tiles[..], r)
      modifies this, gameWorld
      ensures State() == Serve(old(State()), tiles[..], Turn(r, plans))
      ensures announced == old(announced) + Told(old(State()), tiles[..], Turn(r, plans))
    {
      ghost var g := State();
      ghost var told := PassingIsServing(g, tiles[..], Turn(r, plans));
      ApplyRequest(r, plans, g, Serve(g, tiles[..], Turn(r, plans)), told);
    }
  }
}
