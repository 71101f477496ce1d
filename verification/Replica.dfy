/** Server and clients over a whole game: every client replays what the server announces,
    AsciiTerra_Client/GameClient.cpp, and keeps the server's world up to the turn counters, which the
    server resets without telling. */
module Replicas {
  import opened Wrappers
  import opened GameRules
  import opened GameWorlds
  import opened GameHistories
  import opened EnemyTurns
  import opened WorldMaps
  import opened TurnMachines

  // ---- The game with its enemies -------------------------------------------------------------------

  /** A message, and what the enemies will do should their turn follow it. */
  datatype Turn = Turn(request: Request, plans: seq<seq<Deed>>)

  lemma PlayerActsKeepsEnemiesInv(w: World, id: UInt32, a: PlayerAction)
    requires WorldInv(w) && EnemiesInv(w) && id in w.players
    ensures EnemiesInv(PlayerActsFree(w, id, a))
  {
    var w' := PlayerActsFree(w, id, a);
    forall k | 0 <= k < |w'.enemies|
      ensures Armed(w'.enemies[k].fighter)
    {
      PlayerActionWears(w, id, a, TheEnemy(k));
    }
  }

  /** The enemies' turn, should it follow the request. */
  function Outcome(g: Game, tiles: seq<UInt8>, t: Turn): (ai: World)
    requires GameInv(g) && EnemiesInv(g.world)
    ensures Possible(g, tiles, t.request, ai) && EnemiesInv(ai)
  {
    if Accepts(g, tiles, t.request) then
      PlayerActsKeepsEnemiesInv(g.world, t.request.client, t.request.action);
      EnemiesTurnKeepsRoster(Applied(g, t.request), t.plans);
      EnemiesTurn(Applied(g, t.request), t.plans).w
    else g.world
  }

  function Serve(g: Game, tiles: seq<UInt8>, t: Turn): (g': Game)
    requires GameInv(g) && EnemiesInv(g.world)
    ensures GameInv(g') && EnemiesInv(g'.world)
  {
    OnRequestKeepsInv(g, tiles, t.request, Outcome(g, tiles, t));
    ServingKeepsEnemiesInv(g, tiles, t);
    OnRequest(g, tiles, t.request, Outcome(g, tiles, t))
  }

  lemma ServingKeepsEnemiesInv(g: Game, tiles: seq<UInt8>, t: Turn)
    requires GameInv(g) && EnemiesInv(g.world)
    ensures EnemiesInv(OnRequest(g, tiles, t.request, Outcome(g, tiles, t)).world)
  {
    if Accepts(g, tiles, t.request) {
      PlayerActsKeepsEnemiesInv(g.world, t.request.client, t.request.action);
      AfterActionKeepsRoster(g, t.request);
      PassingOnEnemies(AfterAction(g, t.request), Outcome(g, tiles, t));
    }
  }

  /** The accepted action ends the round, so the enemies move. */
  predicate EndsRound(g: Game)
    requires g.current in g.world.players && g.current in g.roster
  {
    Remaining(g.world, g.current) <= 0 && IndexOf(g.roster, g.current) + 1 == |g.roster|
  }

  lemma PassingOnEnemies(g: Game, ai: World)
    requires RosterInv(g.world, g.roster) && g.current in g.roster && SameRoster(g.world, ai)
    ensures PassOn(g, ai).world.enemies == if EndsRound(g) then ai.enemies else g.world.enemies
  {
  }

  function ServeAll(g: Game, tiles: seq<UInt8>, turns: seq<Turn>): (g': Game)
    requires GameInv(g) && EnemiesInv(g.world)
    ensures GameInv(g') && EnemiesInv(g'.world)
    decreases |turns|
  {
    if turns == [] then g else ServeAll(Serve(g, tiles, turns[0]), tiles, turns[1..])
  }

  /** The game with its enemies is a game of the scheduler, so everything proved about those holds here. */
  function InputsOf(g: Game, tiles: seq<UInt8>, turns: seq<Turn>): (inputs: seq<Input>)
    requires GameInv(g) && EnemiesInv(g.world)
    ensures |inputs| == |turns|
    decreases |turns|
  {
    if turns == [] then []
    else
      [Input(turns[0].request, Outcome(g, tiles, turns[0]))] + InputsOf(Serve(g, tiles, turns[0]), tiles, turns[1..])
  }

  lemma {:induction false} ServingIsPlaying(g: Game, tiles: seq<UInt8>, turns: seq<Turn>)
    requires GameInv(g) && EnemiesInv(g.world)
    ensures Playable(g, tiles, InputsOf(g, tiles, turns))
    ensures PlayAll(g, tiles, InputsOf(g, tiles, turns)) == ServeAll(g, tiles, turns)
    decreases |turns|
  {
    if turns != [] {
      ServingIsPlaying(Serve(g, tiles, turns[0]), tiles, turns[1..]);
      assert InputsOf(g, tiles, turns)[1..] == InputsOf(Serve(g, tiles, turns[0]), tiles, turns[1..]);
    }
  }

  // ---- What the server announces -------------------------------------------------------------------

  /** What one request makes the server tell the clients. */
  function Told(g: Game, tiles: seq<UInt8>, t: Turn): seq<Entry>
    requires GameInv(g) && EnemiesInv(g.world)
  {
    if !Accepts(g, tiles, t.request) then []
    else
      PlayerActsKeepsEnemiesInv(g.world, t.request.client, t.request.action);
      AfterActionKeepsRoster(g, t.request);
      [Announced(t.request)]
      + if EndsRound(AfterAction(g, t.request)) then EnemiesTurn(Applied(g, t.request), t.plans).told else []
  }

  /** The request ends the round, and an enemy is found dead when its turn comes. */
  predicate FindsDead(g: Game, tiles: seq<UInt8>, t: Turn)
    requires GameInv(g) && EnemiesInv(g.world)
  {
    Accepts(g, tiles, t.request) &&
    (PlayerActsKeepsEnemiesInv(g.world, t.request.client, t.request.action);
     AfterActionKeepsRoster(g, t.request);
     EndsRound(AfterAction(g, t.request)) && EnemiesTurn(Applied(g, t.request), t.plans).foundDead)
  }

  /** An accepted request in two steps: the action, and the passing on of the turn. */
  lemma ServingAnAcceptedRequest(g: Game, tiles: seq<UInt8>, t: Turn)
    requires GameInv(g) && EnemiesInv(g.world) && Accepts(g, tiles, t.request)
    ensures var g' := AfterAction(g, t.request);
            && RosterInv(g'.world, g'.roster) && g'.current in g'.roster && EnemiesInv(g'.world)
            && SameRoster(g'.world, EnemiesTurn(g'.world, t.plans).w)
            && Serve(g, tiles, t) == PassOn(g', EnemiesTurn(g'.world, t.plans).w)
            && Told(g, tiles, t)
               == [Announced(t.request)] + if EndsRound(g') then EnemiesTurn(g'.world, t.plans).told else []
  {
    PlayerActsKeepsEnemiesInv(g.world, t.request.client, t.request.action);
    AfterActionKeepsRoster(g, t.request);
    EnemiesTurnKeepsRoster(Applied(g, t.request), t.plans);
  }

  function ToldAll(g: Game, tiles: seq<UInt8>, turns: seq<Turn>): seq<Entry>
    requires GameInv(g) && EnemiesInv(g.world)
    decreases |turns|
  {
    if turns == [] then [] else Told(g, tiles, turns[0]) + ToldAll(Serve(g, tiles, turns[0]), tiles, turns[1..])
  }

  predicate NoneFoundDead(g: Game, tiles: seq<UInt8>, turns: seq<Turn>)
    requires GameInv(g) && EnemiesInv(g.world)
    decreases |turns|
  {
    turns == [] ||
    (!FindsDead(g, tiles, turns[0]) && NoneFoundDead(Serve(g, tiles, turns[0]), tiles, turns[1..]))
  }

  // ---- Clients stay in step, exactly while no enemy is found dead ------------------------------------

  lemma StartingATurnKeepsInStep(w: World, id: UInt32)
    requires id in w.players
    ensures InStep(StartTurn(w, id), w)
  {
  }

  lemma PassingOnKeepsInStep(g: Game, ai: World)
    requires RosterInv(g.world, g.roster) && g.current in g.roster && SameRoster(g.world, ai)
    ensures InStep(PassOn(g, ai).world, if EndsRound(g) then ai else g.world)
  {
    var i := IndexOf(g.roster, g.current);
    if i + 1 == |g.roster| {
      StartingATurnKeepsInStep(ai, g.roster[0]);
    } else {
      StartingATurnKeepsInStep(g.world, g.roster[i + 1]);
    }
  }

  lemma InStepInTurn(w: World, w': World, w'': World)
    requires InStep(w, w') && InStep(w', w'')
    ensures InStep(w, w'')
  {
  }

  lemma InStepBackwards(w: World, w': World)
    requires InStep(w, w')
    ensures InStep(w', w)
  {
  }

  lemma AppliedAsAnnounced(g: Game, r: Request)
    requires GameInv(g) && r.client in g.world.players
    ensures ReplayOneFree(g.world, Announced(r)) == Some(Applied(g, r))
  {
  }

  lemma FirstOfTheLog(w: World, e: Entry, w': World, log: seq<Entry>)
    requires WorldInv(w) && ReplayOneFree(w, e) == Some(w')
    ensures ReplayFree(w, [e] + log) == ReplayFree(w', log)
  {
    assert ([e] + log)[1..] == log;
  }

  /** `told` replays, and the result is in step with `w`. */
  ghost predicate Follows(told: Option<World>, w: World) {
    told.Some? && InStep(w, told.value)
  }

  /** Whether a client follows an accepted request; `g` is the game before the turn passes on. */
  lemma AcceptedIsFollowedExactlyWhen(w: World, e: Entry, g: Game, plans: seq<seq<Deed>>, client: World)
    requires WorldInv(w) && WorldInv(client) && InStep(w, client) && ReplayOneFree(w, e) == Some(g.world)
    requires RosterInv(g.world, g.roster) && g.current in g.roster && EnemiesInv(g.world)
    ensures SameRoster(g.world, EnemiesTurn(g.world, plans).w)
    ensures var turn := EnemiesTurn(g.world, plans);
            Follows(ReplayFree(client, [e] + if EndsRound(g) then turn.told else []), PassOn(g, turn.w).world)
            <==> !(EndsRound(g) && turn.foundDead)
  {
    var turn := EnemiesTurn(g.world, plans);
    EnemiesTurnKeepsRoster(g.world, plans);
    ReplayOneInStep(w, client, e);
    var client' := ReplayOneFree(client, e).value;
    FirstOfTheLog(client, e, client', if EndsRound(g) then turn.told else []);
    PassingOnKeepsInStep(g, turn.w);
    if EndsRound(g) {
      TurnIsFollowedExactlyWhen(g.world, plans, client');
      FollowingPasses(ReplayFree(client', turn.told), turn.w, PassOn(g, turn.w).world);
    } else {
      InStepInTurn(PassOn(g, turn.w).world, g.world, client');
    }
  }

  lemma FollowingPasses(told: Option<World>, w: World, w': World)
    requires InStep(w', w)
    ensures Follows(told, w) <==> Follows(told, w')
  {
    InStepBackwards(w', w);
    if Follows(told, w) {
      InStepInTurn(w', w, told.value);
    }
    if Follows(told, w') {
      InStepInTurn(w, w', told.value);
    }
  }

  /** A client that is in step with the server follows the next request exactly when no enemy is found
      dead in a turn that it sets off. */
  lemma StepIsFollowedExactlyWhen(g: Game, tiles: seq<UInt8>, t: Turn, client: World)
    requires GameInv(g) && EnemiesInv(g.world) && WorldInv(client) && InStep(g.world, client)
    ensures Follows(ReplayFree(client, Told(g, tiles, t)), Serve(g, tiles, t).world) <==> !FindsDead(g, tiles, t)
  {
    if Accepts(g, tiles, t.request) {
      PlayerActsKeepsEnemiesInv(g.world, t.request.client, t.request.action);
      AfterActionKeepsRoster(g, t.request);
      AppliedAsAnnounced(g, t.request);
      AcceptedIsFollowedExactlyWhen(g.world, Announced(t.request), AfterAction(g, t.request), t.plans, client);
    }
  }

  /** The server's list of enemies never grows, and gets shorter whenever one is found dead. */
  lemma ServingRemovesTheDead(g: Game, tiles: seq<UInt8>, t: Turn)
    requires GameInv(g) && EnemiesInv(g.world)
    ensures |Serve(g, tiles, t).world.enemies| <= |g.world.enemies|
    ensures FindsDead(g, tiles, t) ==> |Serve(g, tiles, t).world.enemies| < |g.world.enemies|
  {
    if Accepts(g, tiles, t.request) {
      PlayerActsKeepsEnemiesInv(g.world, t.request.client, t.request.action);
      AfterActionKeepsRoster(g, t.request);
      EnemiesTurnKeepsRoster(Applied(g, t.request), t.plans);
      PassingOnEnemies(AfterAction(g, t.request), Outcome(g, tiles, t));
      EnemiesTurnRemovesTheDead(Applied(g, t.request), t.plans);
    }
  }

  lemma {:induction false} EnemiesNeverComeBack(g: Game, tiles: seq<UInt8>, turns: seq<Turn>)
    requires GameInv(g) && EnemiesInv(g.world)
    ensures |ServeAll(g, tiles, turns).world.enemies| <= |g.world.enemies|
    decreases |turns|
  {
    if turns != [] {
      ServingRemovesTheDead(g, tiles, turns[0]);
      EnemiesNeverComeBack(Serve(g, tiles, turns[0]), tiles, turns[1..]);
    }
  }

  lemma {:induction false} RunIsFollowedExactlyWhen(g: Game, tiles: seq<UInt8>, turns: seq<Turn>, client: World)
    requires GameInv(g) && EnemiesInv(g.world) && WorldInv(client) && InStep(g.world, client)
    ensures Follows(ReplayFree(client, ToldAll(g, tiles, turns)), ServeAll(g, tiles, turns).world)
            <==> NoneFoundDead(g, tiles, turns)
    decreases |turns|
  {
    if turns != [] {
      var g', first := Serve(g, tiles, turns[0]), Told(g, tiles, turns[0]);
      var rest := ToldAll(g', tiles, turns[1..]);
      StepIsFollowedExactlyWhen(g, tiles, turns[0], client);
      if FindsDead(g, tiles, turns[0]) {
        ServingRemovesTheDead(g, tiles, turns[0]);
        EnemiesNeverComeBack(g', tiles, turns[1..]);
      } else {
        ReplayInParts(client, first, rest);
        RunIsFollowedExactlyWhen(g', tiles, turns[1..], ReplayFree(client, first).value);
      }
    }
  }

  /** Over every run of the game, whatever the players send and the enemies choose: a client that starts
      in step and replays what it is told, visiting its players in orders of its own, is in step with the
      server at the end exactly when no enemy was ever found dead when its turn came. */
  lemma ClientsStayInStepExactlyWhen(
      g: Game, tiles: seq<UInt8>, turns: seq<Turn>, client: World, orders: seq<seq<UInt32>>)
    requires GameInv(g) && EnemiesInv(g.world) && WorldInv(client) && InStep(g.world, client)
    requires VisitingOrders(orders, |ToldAll(g, tiles, turns)|, client.players.Keys)
    ensures Follows(Replay(client, ToldAll(g, tiles, turns), orders), ServeAll(g, tiles, turns).world)
            <==> NoneFoundDead(g, tiles, turns)
  {
    RunIsFollowedExactlyWhen(g, tiles, turns, client);
    ReplayNeedsNoOrders(client, ToldAll(g, tiles, turns), orders);
  }
}
