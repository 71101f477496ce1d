/** The server's turns, AsciiTerra_Server/GameServer.cpp: with a fixed roster of connected players, who
    may act, what an approved action does, and who comes next. */
module TurnMachines {
  import opened Wrappers
  import opened GameRules
  import opened GameWorlds
  import opened WorldMaps

  datatype TurnEvent = Acted(id: UInt32) | AITurn

  /** `roster` is the fixed order in which the player map is iterated, `log` records the past. */
  datatype Game = Game(world: World, roster: seq<UInt32>, current: UInt32, log: seq<TurnEvent>)

  // ---- The transitions ---------------------------------------------------------------------------

  function Remaining(w: World, id: UInt32): UInt32
    requires id in w.players
  {
    w.players[id].currentTurns
  }

  /** `SetCurrentTurnActions` of the player whose turn starts. */
  function StartTurn(w: World, id: UInt32): World
    requires id in w.players
  {
    w.(players := w.players[id := w.players[id].(currentTurns := w.players[id].maxTurns)])
  }

  function IndexOf(roster: seq<UInt32>, id: UInt32): (i: nat)
    requires id in roster
    ensures i < |roster| && roster[i] == id
  {
    if roster[0] == id then 0 else 1 + IndexOf(roster[1..], id)
  }

  /** `ChooseNextPlayerForTurn`: after the last player of the roster the enemies move, which leaves the
      world `ai`, and the first player comes next. */
  function ChooseNext(g: Game, client: UInt32, ai: World): Game
    requires client in g.roster && (forall k | k in g.roster :: k in g.world.players && k in ai.players)
  {
    var i := IndexOf(g.roster, client);
    if i + 1 == |g.roster|
    then g.(world := StartTurn(ai, g.roster[0]), current := g.roster[0], log := g.log + [AITurn])
    else g.(world := StartTurn(g.world, g.roster[i + 1]), current := g.roster[i + 1])
  }

  /** With no client to come after, the first player of the roster starts. */
  function ChooseFirst(g: Game): Game
    requires g.roster != [] && g.roster[0] in g.world.players
  {
    g.(world := StartTurn(g.world, g.roster[0]), current := g.roster[0])
  }

  datatype Request = Request(client: UInt32, action: PlayerAction)

  /** Whether the action-approval case of OnMessage applies the request. */
  predicate Accepts(g: Game, tiles: seq<UInt8>, r: Request) {
    && r.client == g.current
    && r.client in g.world.players
    && Remaining(g.world, r.client) > 0
    && Check(g.world, tiles, r.action) == Approved
  }

  /** The world once the request is applied, before the turn may pass on. */
  function Applied(g: Game, r: Request): World
    requires GameInv(g) && r.client in g.world.players
  {
    PlayerActsFree(g.world, r.client, r.action)
  }

  /** The action-approval case of OnMessage; a request not accepted changes nothing. */
  function OnRequest(g: Game, tiles: seq<UInt8>, r: Request, ai: World): (g': Game)
    requires GameInv(g) && Possible(g, tiles, r, ai)
  {
    if !Accepts(g, tiles, r) then g else PassOn(AfterAction(g, r), ai)
  }

  /** The turn passes on when the current player has no action left. */
  function PassOn(g: Game, ai: World): Game
    requires g.current in g.world.players && g.current in g.roster
    requires forall k | k in g.roster :: k in g.world.players && k in ai.players
  {
    if Remaining(g.world, g.current) <= 0 then ChooseNext(g, g.current, ai) else g
  }

  function AfterAction(g: Game, r: Request): Game
    requires GameInv(g) && r.client in g.world.players
  {
    g.(world := Applied(g, r), log := g.log + [Acted(r.client)])
  }

  // ---- The invariant -----------------------------------------------------------------------------

  /** The enemies' turn hurts players but moves none, and leaves the roster and the budgets alone. */
  ghost predicate SameRoster(w: World, ai: World) {
    && WorldInv(ai)
    && ai.players.Keys == w.players.Keys
    && forall k | k in ai.players ::
         && ai.players[k].maxTurns == w.players[k].maxTurns
         && ai.players[k].fighter.coords == w.players[k].fighter.coords
  }

  /** `ai` is a possible outcome of an enemies' turn that follows the request. */
  ghost predicate Possible(g: Game, tiles: seq<UInt8>, r: Request, ai: World)
    requires GameInv(g)
  {
    Accepts(g, tiles, r) ==> SameRoster(Applied(g, r), ai)
  }

  ghost predicate RosterInv(w: World, roster: seq<UInt32>) {
    && WorldInv(w)
    && roster != [] && VisitingOrder(roster, w.players.Keys)
    && (forall k | k in w.players :: 1 <= w.players[k].maxTurns < 16)
  }

  ghost predicate GameInv(g: Game) {
    && RosterInv(g.world, g.roster)
    && g.current in g.roster
    && 1 <= Remaining(g.world, g.current) <= g.world.players[g.current].maxTurns
  }

  /** A player's entry apart from what blows change: id, budgets and place. */
  ghost predicate SameEntry(p: Player, p': Player) {
    p'.maxTurns == p.maxTurns && p'.currentTurns == p.currentTurns && p'.fighter.coords == p.fighter.coords
  }

  /** What an applied action leaves of every player's entry: the actor moves and pays one action. */
  ghost predicate ActedOn(p: Player, p': Player, acts: bool, a: PlayerAction) {
    && p'.maxTurns == p.maxTurns
    && p'.currentTurns == (if acts then (p.currentTurns - 1) % 16 else p.currentTurns)
    && p'.fighter.coords == if acts && a.kind == Move then Plus(p.fighter.coords, a.direction) else p.fighter.coords
  }

  lemma ApplyingKeepsEntries(w: World, id: UInt32, a: PlayerAction, k: UInt32)
    requires WorldInv(w) && id in w.players && k in w.players
    ensures k in PlayerActsFree(w, id, a).players
    ensures ActedOn(w.players[k], PlayerActsFree(w, id, a).players[k], k == id, a)
  {
    var moved := PlayerMoves(w, id, a);
    var done := if a.kind == EndTurn then moved else PlayerAttacksFree(moved, id, a.direction);
    assert SameEntry(moved.players[k], done.players[k]) by {
      if a.kind != EndTurn {
        AttackKeepsEntries(moved, id, a.direction, k);
      }
    }
    SpendingOne(done, id, k);
    EntryInSteps(w.players[k], moved.players[k], done.players[k], PlayerActsFree(w, id, a).players[k], k == id, a);
  }

  lemma EntryInSteps(p: Player, moved: Player, hurt: Player, spent: Player, acts: bool, a: PlayerAction)
    requires moved == if acts && a.kind == Move then p.(fighter := Moved(p.fighter, a.direction)) else p
    requires SameEntry(moved, hurt)
    requires spent == if acts then Spent(hurt) else hurt
    ensures ActedOn(p, spent, acts, a)
  {
  }

  lemma SpendingOne(w: World, id: UInt32, k: UInt32)
    requires WorldInv(w) && id in w.players && k in w.players
    ensures var p := SpendAction(w, id).players[k];
            p == if k == id then Spent(w.players[k]) else w.players[k]
  {
  }

  lemma AttackKeepsEntries(w: World, id: UInt32, direction: Coords, k: UInt32)
    requires WorldInv(w) && id in w.players && k in w.players
    ensures k in PlayerAttacksFree(w, id, direction).players
    ensures SameEntry(w.players[k], PlayerAttacksFree(w, id, direction).players[k])
  {
    var spot := Plus(w.players[id].fighter.coords, direction);
    var (paid, damage) := PlayerPays(w, id);
    StrikeSpends(w.players[id].fighter);
    assert SameEntry(w.players[k], paid.players[k]);
    BlowKeepsEntries(paid, spot, Some(id), None, damage, k);
  }

  lemma BlowKeepsEntries(
      w: World, spot: Coords, except: Option<UInt32>, friends: Option<UInt32>, damage: Option<UInt32>, k: UInt32)
    requires k in w.players
    ensures k in BlowFree(w, spot, except, friends, damage).players
    ensures SameEntry(w.players[k], BlowFree(w, spot, except, friends, damage).players[k])
  {
  }

  ghost predicate SameBudgets(w: World, w': World) {
    w'.players.Keys == w.players.Keys && forall k | k in w.players :: w'.players[k].maxTurns == w.players[k].maxTurns
  }

  /** How an applied action changes the players' entries, all of them. */
  ghost predicate AllActedOn(w: World, id: UInt32, a: PlayerAction, w': World) {
    && WorldInv(w') && w'.players.Keys == w.players.Keys
    && forall k | k in w.players :: ActedOn(w.players[k], w'.players[k], k == id, a)
  }

  lemma ApplyingActsOnAll(w: World, id: UInt32, a: PlayerAction)
    requires WorldInv(w) && id in w.players
    ensures AllActedOn(w, id, a, PlayerActsFree(w, id, a))
  {
    forall k | k in w.players
      ensures ActedOn(w.players[k], PlayerActsFree(w, id, a).players[k], k == id, a)
    {
      ApplyingKeepsEntries(w, id, a, k);
    }
  }

  lemma ActingKeepsRoster(w: World, roster: seq<UInt32>, id: UInt32, a: PlayerAction, w': World)
    requires RosterInv(w, roster) && id in w.players && AllActedOn(w, id, a, w')
    ensures RosterInv(w', roster) && SameBudgets(w, w')
    ensures 0 < w.players[id].currentTurns < 16 ==> Remaining(w', id) == w.players[id].currentTurns - 1
  {
  }

  lemma AfterActionKeepsRoster(g: Game, r: Request)
    requires GameInv(g) && r.client == g.current
    ensures RosterInv(AfterAction(g, r).world, g.roster) && SameBudgets(g.world, AfterAction(g, r).world)
    ensures Remaining(AfterAction(g, r).world, r.client) == Remaining(g.world, r.client) - 1
  {
    ApplyingActsOnAll(g.world, r.client, r.action);
    ActingKeepsRoster(g.world, g.roster, r.client, r.action, Applied(g, r));
  }

  lemma StartTurnKeepsRoster(w: World, roster: seq<UInt32>, id: UInt32)
    requires RosterInv(w, roster) && id in roster
    ensures RosterInv(StartTurn(w, id), roster) && SameBudgets(w, StartTurn(w, id))
    ensures Remaining(StartTurn(w, id), id) == w.players[id].maxTurns
  {
  }

  lemma ChooseNextKeepsInv(g: Game, client: UInt32, ai: World)
    requires RosterInv(g.world, g.roster) && client in g.roster && SameRoster(g.world, ai)
    ensures GameInv(ChooseNext(g, client, ai))
    ensures SameBudgets(g.world, ChooseNext(g, client, ai).world)
  {
    var i := IndexOf(g.roster, client);
    if i + 1 == |g.roster| {
      StartTurnKeepsRoster(ai, g.roster, g.roster[0]);
    } else {
      StartTurnKeepsRoster(g.world, g.roster, g.roster[i + 1]);
    }
  }

  /** The first player starts a game. */
  lemma ChoosingFirstBegins(w: World, roster: seq<UInt32>, current: UInt32)
    requires RosterInv(w, roster)
    ensures Begins(ChooseFirst(Game(w, roster, current, [])), 0)
    ensures Starts(w, roster, 0, ChooseFirst(Game(w, roster, current, [])))
  {
    StartTurnKeepsRoster(w, roster, roster[0]);
  }

  /** Between messages the current player is on the roster and has between one and its maximum of
      actions left. */
  lemma OnRequestKeepsInv(g: Game, tiles: seq<UInt8>, r: Request, ai: World)
    requires GameInv(g) && Possible(g, tiles, r, ai)
    ensures GameInv(OnRequest(g, tiles, r, ai))
    ensures OnRequest(g, tiles, r, ai).roster == g.roster
    ensures SameBudgets(g.world, OnRequest(g, tiles, r, ai).world)
  {
    if Accepts(g, tiles, r) {
      AfterActionKeepsRoster(g, r);
      PassingOnKeepsInv(g.world, AfterAction(g, r), ai);
    }
  }

  lemma PassingOnKeepsInv(before: World, g: Game, ai: World)
    requires RosterInv(g.world, g.roster) && g.current in g.roster
    requires SameRoster(g.world, ai) && SameBudgets(before, g.world)
    requires Remaining(g.world, g.current) <= g.world.players[g.current].maxTurns
    ensures GameInv(PassOn(g, ai)) && PassOn(g, ai).roster == g.roster
    ensures SameBudgets(before, PassOn(g, ai).world)
  {
    if Remaining(g.world, g.current) <= 0 {
      ChooseNextKeepsInv(g, g.current, ai);
      BudgetsInTurn(before, g.world, ChooseNext(g, g.current, ai).world);
    }
  }

  lemma BudgetsInTurn(w: World, w': World, w'': World)
    requires SameBudgets(w, w') && SameBudgets(w', w'')
    ensures SameBudgets(w, w'')
  {
  }

  // ---- Rounds --------------------------------------------------------------------------------------

  /** One turn: as many actions as the player's maximum. */
  function Turn(id: UInt32, n: nat): (t: seq<TurnEvent>)
    ensures |t| == n && forall i | 0 <= i < n :: t[i] == Acted(id)
  {
    seq(n, i => Acted(id))
  }

  /** The turns of these players, one after the other. */
  function Turns(ids: seq<UInt32>, budgets: map<UInt32, UInt32>): seq<TurnEvent> {
    if ids == [] then []
    else
      var last := ids[|ids| - 1];
      Turns(ids[..|ids| - 1], budgets) + if last in budgets then Turn(last, budgets[last]) else []
  }

  function Budgets(w: World): map<UInt32, UInt32> {
    map k | k in w.players :: w.players[k].maxTurns
  }

  /** The stretches of a log between the enemies' turns. */
  function Stretches(log: seq<TurnEvent>): (r: seq<seq<TurnEvent>>)
    ensures |r| > 0
  {
    if log == [] then [[]]
    else
      var before := Stretches(log[..|log| - 1]);
      if log[|log| - 1] == AITurn then before + [[]]
      else before[|before| - 1 := before[|before| - 1] + [log[|log| - 1]]]
  }

  /** Where the game started: at the beginning of a player's turn, not necessarily the first one's. */
  ghost predicate Begins(g: Game, start: nat) {
    && GameInv(g) && g.log == []
    && start < |g.roster| && g.current == g.roster[start]
    && Remaining(g.world, g.current) == g.world.players[g.current].maxTurns
  }

  lemma SameBudgetsSameMap(w: World, w': World)
    requires SameBudgets(w, w')
    ensures Budgets(w') == Budgets(w)
  {
  }

  lemma {:induction false} IndexOfIsUnique(roster: seq<UInt32>, i: nat)
    requires i < |roster| && forall j, k | 0 <= j < k < |roster| :: roster[j] != roster[k]
    ensures IndexOf(roster, roster[i]) == i
  {
    var j := IndexOf(roster, roster[i]);
    assert roster[j] == roster[i];
  }

  lemma TurnsExtend(roster: seq<UInt32>, from: nat, i: nat, budgets: map<UInt32, UInt32>)
    requires from <= i < |roster| && roster[i] in budgets
    ensures Turns(roster[from..i + 1], budgets) == Turns(roster[from..i], budgets) + Turn(roster[i], budgets[roster[i]])
  {
    var ids := roster[from..i + 1];
    assert ids[|ids| - 1] == roster[i] && ids[..|ids| - 1] == roster[from..i];
  }

  lemma OneMoreAction(id: UInt32, n: nat)
    ensures Turn(id, n) + [Acted(id)] == Turn(id, n + 1)
  {
  }

  lemma StretchesExtend(log: seq<TurnEvent>, id: UInt32)
    ensures var before := Stretches(log);
            && Stretches(log + [Acted(id)]) == before[|before| - 1 := before[|before| - 1] + [Acted(id)]]
            && Stretches(log + [AITurn]) == before + [[]]
  {
    assert (log + [Acted(id)])[..|log|] == log && (log + [AITurn])[..|log|] == log;
  }

  /** The closed stretches alone. */
  ghost predicate ClosedRounds(
      stretches: seq<seq<TurnEvent>>, roster: seq<UInt32>, budgets: map<UInt32, UInt32>, start: nat)
    requires start < |roster| && |stretches| > 0
  {
    && (forall k | 1 <= k < |stretches| - 1 :: stretches[k] == Turns(roster, budgets))
    && (|stretches| > 1 ==> stretches[0] == Turns(roster[start..], budgets))
  }

  /** Full turns of the players from `from` on, before the i-th, and `done` actions of the i-th. */
  function Part(roster: seq<UInt32>, budgets: map<UInt32, UInt32>, from: nat, i: nat, done: nat): seq<TurnEvent>
    requires from <= i < |roster|
  {
    Turns(roster[from..i], budgets) + Turn(roster[i], done)
  }

  lemma PartExtends(roster: seq<UInt32>, budgets: map<UInt32, UInt32>, from: nat, i: nat, done: nat)
    requires from <= i < |roster|
    ensures Part(roster, budgets, from, i, done) + [Acted(roster[i])] == Part(roster, budgets, from, i, done + 1)
  {
    OneMoreAction(roster[i], done);
  }

  lemma FullPart(roster: seq<UInt32>, budgets: map<UInt32, UInt32>, from: nat, i: nat)
    requires from <= i < |roster| && roster[i] in budgets
    ensures Part(roster, budgets, from, i, budgets[roster[i]]) == Turns(roster[from..i + 1], budgets)
    ensures i + 1 < |roster| ==>
              Part(roster, budgets, from, i, budgets[roster[i]]) == Part(roster, budgets, from, i + 1, 0)
    ensures i + 1 == |roster| ==> Part(roster, budgets, from, i, budgets[roster[i]]) == Turns(roster[from..], budgets)
  {
    TurnsExtend(roster, from, i, budgets);
    assert i + 1 == |roster| ==> roster[from..i + 1] == roster[from..];
  }

  /** The invariant with the current player given by position. */
  ghost predicate RoundsAt(log: seq<TurnEvent>, roster: seq<UInt32>, budgets: map<UInt32, UInt32>, start: nat,
                           i: nat, done: nat)
  {
    var stretches := Stretches(log);
    var n := |stretches| - 1;
    && start < |roster| && i < |roster| && (n == 0 ==> start <= i)
    && ClosedRounds(stretches, roster, budgets, start)
    && stretches[n] == Part(roster, budgets, if n == 0 then start else 0, i, done)
  }

  lemma RoundsGoOn(
      log: seq<TurnEvent>, roster: seq<UInt32>, budgets: map<UInt32, UInt32>, start: nat, i: nat, done: nat)
    requires RoundsAt(log, roster, budgets, start, i, done)
    ensures RoundsAt(log + [Acted(roster[i])], roster, budgets, start, i, done + 1)
  {
    StretchesExtend(log, roster[i]);
    var n := |Stretches(log)| - 1;
    PartExtends(roster, budgets, if n == 0 then start else 0, i, done);
  }

  lemma RoundsPassOn(log: seq<TurnEvent>, roster: seq<UInt32>, budgets: map<UInt32, UInt32>, start: nat, i: nat)
    requires i < |roster| && roster[i] in budgets
    requires RoundsAt(log, roster, budgets, start, i, budgets[roster[i]])
    ensures i + 1 < |roster| ==> RoundsAt(log, roster, budgets, start, i + 1, 0)
    ensures i + 1 == |roster| ==> RoundsAt(log + [AITurn], roster, budgets, start, 0, 0)
  {
    var n := |Stretches(log)| - 1;
    FullPart(roster, budgets, if n == 0 then start else 0, i);
    StretchesExtend(log, 0);
    assert roster[0..] == roster && roster[0..0] == [];
  }

  /** Where the current player stands and how many actions of its turn are over. */
  ghost predicate RoundsOf(g: Game, start: nat) {
    && GameInv(g)
    && RoundsAt(g.log, g.roster, Budgets(g.world), start, IndexOf(g.roster, g.current),
                g.world.players[g.current].maxTurns - Remaining(g.world, g.current))
  }

  /** The position in the round, also when the current player has no action left. */
  ghost predicate Standing(g: Game, start: nat) {
    && RosterInv(g.world, g.roster) && g.current in g.roster
    && Remaining(g.world, g.current) <= g.world.players[g.current].maxTurns
    && RoundsAt(g.log, g.roster, Budgets(g.world), start, IndexOf(g.roster, g.current),
                g.world.players[g.current].maxTurns - Remaining(g.world, g.current))
  }

  /** One action further, whatever it did to the world, as long as it cost one action. */
  lemma ActionAdvances(g: Game, w': World, start: nat)
    requires RoundsOf(g, start) && RosterInv(w', g.roster) && SameBudgets(g.world, w')
    requires Remaining(w', g.current) == Remaining(g.world, g.current) - 1
    ensures Standing(g.(world := w', log := g.log + [Acted(g.current)]), start)
  {
    var i, done := IndexOf(g.roster, g.current), g.world.players[g.current].maxTurns - Remaining(g.world, g.current);
    SameBudgetsSameMap(g.world, w');
    RoundsGoOn(g.log, g.roster, Budgets(g.world), start, i, done);
    StandsAt(g.(world := w', log := g.log + [Acted(g.current)]), Budgets(g.world), start, i, done + 1);
  }

  lemma StandsAt(g: Game, budgets: map<UInt32, UInt32>, start: nat, i: nat, done: nat)
    requires RosterInv(g.world, g.roster) && g.current in g.roster && IndexOf(g.roster, g.current) == i
    requires Budgets(g.world) == budgets && g.world.players[g.current].maxTurns - Remaining(g.world, g.current) == done
    requires RoundsAt(g.log, g.roster, budgets, start, i, done)
    ensures Standing(g, start)
  {
  }

  lemma FreshTurnStands(g: Game, budgets: map<UInt32, UInt32>, start: nat, i: nat)
    requires GameInv(g) && Remaining(g.world, g.current) == g.world.players[g.current].maxTurns
    requires Budgets(g.world) == budgets && IndexOf(g.roster, g.current) == i
    requires RoundsAt(g.log, g.roster, budgets, start, i, 0)
    ensures RoundsOf(g, start)
  {
  }

  /** Where the next turn starts, when the current player is `i`-th and out of actions. */
  ghost predicate NextIs(g: Game, g': Game, i: nat) {
    && g'.roster == g.roster && g'.current in g.roster
    && (if i + 1 == |g.roster| then IndexOf(g.roster, g'.current) == 0 && g'.log == g.log + [AITurn]
        else IndexOf(g.roster, g'.current) == i + 1 && g'.log == g.log)
  }

  lemma NextTurnStands(g: Game, g': Game, budgets: map<UInt32, UInt32>, start: nat, i: nat)
    requires GameInv(g') && Remaining(g'.world, g'.current) == g'.world.players[g'.current].maxTurns
    requires Budgets(g'.world) == budgets && i < |g.roster| && g.roster[i] in budgets && NextIs(g, g', i)
    requires RoundsAt(g.log, g.roster, budgets, start, i, budgets[g.roster[i]])
    ensures RoundsOf(g', start)
  {
    RoundsPassOn(g.log, g.roster, budgets, start, i);
    FreshTurnStands(g', budgets, start, if i + 1 == |g.roster| then 0 else i + 1);
  }

  lemma OutOfActions(g: Game, start: nat)
    requires Standing(g, start) && Remaining(g.world, g.current) <= 0
    ensures var i, budgets := IndexOf(g.roster, g.current), Budgets(g.world);
            g.roster[i] in budgets && RoundsAt(g.log, g.roster, budgets, start, i, budgets[g.roster[i]])
  {
  }

  lemma ChoosingKeepsRounds(g: Game, g': Game, ai: World, start: nat)
    requires Standing(g, start) && Remaining(g.world, g.current) <= 0 && SameRoster(g.world, ai)
    requires g' == ChooseNext(g, g.current, ai)
    ensures RoundsOf(g', start)
  {
    OutOfActions(g, start);
    ChooseNextKeepsInv(g, g.current, ai);
    SameBudgetsSameMap(g.world, g'.world);
    NextStartsFresh(g, g.current, ai);
    NextTurnStands(g, g', Budgets(g.world), start, IndexOf(g.roster, g.current));
  }

  lemma PassingOnKeepsRounds(g: Game, ai: World, start: nat)
    requires Standing(g, start) && SameRoster(g.world, ai)
    ensures RoundsOf(PassOn(g, ai), start)
  {
    if Remaining(g.world, g.current) <= 0 {
      ChoosingKeepsRounds(g, ChooseNext(g, g.current, ai), ai, start);
    } else {
      StandingWithActionsLeft(g, start);
    }
  }

  lemma StandingWithActionsLeft(g: Game, start: nat)
    requires Standing(g, start) && Remaining(g.world, g.current) > 0
    ensures RoundsOf(g, start)
  {
  }

  lemma OnRequestKeepsRounds(g: Game, tiles: seq<UInt8>, r: Request, ai: World, start: nat)
    requires RoundsOf(g, start) && Possible(g, tiles, r, ai)
    ensures RoundsOf(OnRequest(g, tiles, r, ai), start)
  {
    if Accepts(g, tiles, r) {
      AfterActionKeepsRoster(g, r);
      ActionAdvances(g, Applied(g, r), start);
      PassingOnKeepsRounds(AfterAction(g, r), ai, start);
    }
  }

  lemma NextStartsFresh(g: Game, client: UInt32, ai: World)
    requires RosterInv(g.world, g.roster) && client in g.roster && SameRoster(g.world, ai)
    ensures var g' := ChooseNext(g, client, ai);
            var i := IndexOf(g.roster, client);
            && g'.current in g'.world.players && NextIs(g, g', i)
            && Remaining(g'.world, g'.current) == g'.world.players[g'.current].maxTurns
  {
    var i := IndexOf(g.roster, client);
    IndexOfIsUnique(g.roster, 0);
    if i + 1 < |g.roster| {
      IndexOfIsUnique(g.roster, i + 1);
    }
  }

  // ---- What a request does -------------------------------------------------------------------------

  /** The sender has the turn, and the player it names is alive and either moves to a tile inside the hills
      or attacks where someone stands. */
  ghost predicate Applies(g: Game, r: Request) {
    && r.client == g.current && r.action.playerId in g.world.players
    && var named := g.world.players[r.action.playerId].fighter;
       && named.hp > 0
       && match r.action.kind
          case Move => Inside(Plus(named.coords, r.action.direction))
          case Attack => SomeoneStands(g.world, r.action.playerId, r.action.direction)
          case EndTurn => false
  }

  lemma AcceptsExactlyWhen(g: Game, tiles: seq<UInt8>, r: Request)
    requires GameInv(g) && Bordered(tiles)
    ensures Accepts(g, tiles, r) <==> Applies(g, r)
  {
    if r.action.kind == Move {
      MovesAreCheckedExactly(g.world, tiles, r.action);
    } else {
      AttacksAreCheckedExactly(g.world, tiles, r.action);
    }
  }

  /** The turn of the player at this place of the roster starts. */
  ghost predicate Starts(w: World, roster: seq<UInt32>, place: nat, g': Game)
    requires place < |roster| && roster[place] in w.players
  {
    var next := w.players[roster[place]];
    && g'.current == roster[place]
    && g'.world == w.(players := w.players[roster[place] := next.(currentTurns := next.maxTurns)])
  }

  lemma ChoosingStarts(g: Game, ai: World, place: nat)
    requires RosterInv(g.world, g.roster) && g.current in g.roster && SameRoster(g.world, ai)
    requires place < |g.roster| && g.roster[place] == g.current
    ensures var g', last := ChooseNext(g, g.current, ai), place + 1 == |g.roster|;
            && Starts(if last then ai else g.world, g.roster, if last then 0 else place + 1, g')
            && g'.log == g.log + (if last then [AITurn] else []) && g'.roster == g.roster
  {
    IndexOfIsUnique(g.roster, place);
    assert g.log + [] == g.log;
  }

  /** What the server makes of every request: whether it applies is decided by the map and the places; if
      it does not, nothing changes; if it does, the action is the sender's and is recorded, and if that
      was its last one, the next of the roster starts afresh, after the last one the enemies come first. */
  lemma RequestsAreAppliedExactlyWhen(g: Game, tiles: seq<UInt8>, r: Request, ai: World, place: nat)
    requires GameInv(g) && Bordered(tiles) && Possible(g, tiles, r, ai)
    requires place < |g.roster| && g.roster[place] == g.current
    ensures var g' := OnRequest(g, tiles, r, ai);
            if !Applies(g, r) then g' == g
            else
              var w, last := PlayerActsFree(g.world, r.client, r.action), place + 1 == |g.roster|;
              && g'.roster == g.roster
              && if Remaining(g.world, g.current) > 1
                 then g'.world == w && g'.current == g.current && g'.log == g.log + [Acted(g.current)]
                 else
                   && RosterInv(w, g.roster) && SameRoster(w, ai)
                   && Starts(if last then ai else w, g.roster, if last then 0 else place + 1, g')
                   && g'.log == g.log + [Acted(g.current)] + if last then [AITurn] else []
  {
    AcceptsExactlyWhen(g, tiles, r);
    if Applies(g, r) {
      AfterActionKeepsRoster(g, r);
      if Remaining(g.world, g.current) <= 1 {
        ChoosingStarts(AfterAction(g, r), ai, place);
      }
    }
  }

  // ---- Runs --------------------------------------------------------------------------------------

  /** A message, and the world the enemies would leave if their turn followed it. */
  datatype Input = Input(request: Request, ai: World)

  ghost predicate Playable(g: Game, tiles: seq<UInt8>, inputs: seq<Input>)
    decreases |inputs|
  {
    && GameInv(g)
    && (inputs == [] ||
        (&& Possible(g, tiles, inputs[0].request, inputs[0].ai)
         && Playable(OnRequest(g, tiles, inputs[0].request, inputs[0].ai), tiles, inputs[1..])))
  }

  function PlayAll(g: Game, tiles: seq<UInt8>, inputs: seq<Input>): Game
    requires Playable(g, tiles, inputs)
    decreases |inputs|
  {
    if inputs == [] then g
    else PlayAll(OnRequest(g, tiles, inputs[0].request, inputs[0].ai), tiles, inputs[1..])
  }

  lemma {:induction false} PlayingKeepsRounds(g: Game, tiles: seq<UInt8>, inputs: seq<Input>, start: nat)
    requires Playable(g, tiles, inputs) && RoundsOf(g, start)
    ensures RoundsOf(PlayAll(g, tiles, inputs), start)
    ensures SameBudgets(g.world, PlayAll(g, tiles, inputs).world) && PlayAll(g, tiles, inputs).roster == g.roster
    decreases |inputs|
  {
    if inputs != [] {
      var r, ai := inputs[0].request, inputs[0].ai;
      OnRequestKeepsRounds(g, tiles, r, ai, start);
      OnRequestKeepsInv(g, tiles, r, ai);
      PlayingKeepsRounds(OnRequest(g, tiles, r, ai), tiles, inputs[1..], start);
      BudgetsInTurn(g.world, OnRequest(g, tiles, r, ai).world, PlayAll(g, tiles, inputs).world);
    }
  }

  /** In every run, whatever the players send, the actions applied between two consecutive turns of the
      enemies are exactly one full turn of each player, in roster order; before the first enemies'
      turn, those from the starting player on. Between messages the current player has between one and
      its maximum of actions left. */
  lemma RoundsAreFair(g: Game, tiles: seq<UInt8>, inputs: seq<Input>, start: nat)
    requires Begins(g, start) && Playable(g, tiles, inputs)
    ensures var g' := PlayAll(g, tiles, inputs);
            var stretches := Stretches(g'.log);
            && GameInv(g')
            && (forall k | 1 <= k < |stretches| - 1 :: stretches[k] == Turns(g.roster, Budgets(g.world)))
            && (|stretches| > 1 ==> stretches[0] == Turns(g.roster[start..], Budgets(g.world)))
  {
    IndexOfIsUnique(g.roster, start);
    assert Part(g.roster, Budgets(g.world), start, start, 0) == [] by {
      assert g.roster[start..start] == [];
    }
    assert RoundsOf(g, start);
    PlayingKeepsRounds(g, tiles, inputs, start);
    SameBudgetsSameMap(g.world, PlayAll(g, tiles, inputs).world);
  }

  function CountOf(log: seq<TurnEvent>, id: UInt32): nat {
    if log == [] then 0 else CountOf(log[..|log| - 1], id) + if log[|log| - 1] == Acted(id) then 1 else 0
  }

  lemma {:induction false} CountOfAppend(a: seq<TurnEvent>, b: seq<TurnEvent>, id: UInt32)
    ensures CountOf(a + b, id) == CountOf(a, id) + CountOf(b, id)
    decreases |b|
  {
    if b == [] {
      assert a + b == a;
    } else {
      assert (a + b)[..|a + b| - 1] == a + b[..|b| - 1];
      CountOfAppend(a, b[..|b| - 1], id);
    }
  }

  lemma {:induction false} CountOfTurn(other: UInt32, n: nat, id: UInt32)
    ensures CountOf(Turn(other, n), id) == if other == id then n else 0
  {
    if n > 0 {
      assert Turn(other, n)[..n - 1] == Turn(other, n - 1);
      CountOfTurn(other, n - 1, id);
    }
  }

  /** In a round every player of the roster acts exactly as often as its maximum, and nobody else. */
  lemma {:induction false} EveryoneGetsAFullTurn(roster: seq<UInt32>, budgets: map<UInt32, UInt32>, id: UInt32)
    requires forall i, j | 0 <= i < j < |roster| :: roster[i] != roster[j]
    requires forall k | k in roster :: k in budgets
    ensures CountOf(Turns(roster, budgets), id) == if id in roster then budgets[id] else 0
    ensures AITurn !in Turns(roster, budgets)
  {
    if roster != [] {
      var front, last := roster[..|roster| - 1], roster[|roster| - 1];
      LastAppearsOnce(roster, id);
      EveryoneGetsAFullTurn(front, budgets, id);
      AppendedTurn(Turns(front, budgets), last, budgets[last], id);
      assert Turns(roster, budgets) == Turns(front, budgets) + Turn(last, budgets[last]);
    }
  }

  lemma AppendedTurn(log: seq<TurnEvent>, last: UInt32, n: nat, id: UInt32)
    requires AITurn !in log
    ensures CountOf(log + Turn(last, n), id) == CountOf(log, id) + if last == id then n else 0
    ensures AITurn !in log + Turn(last, n)
  {
    CountOfAppend(log, Turn(last, n), id);
    CountOfTurn(last, n, id);
  }

  lemma LastAppearsOnce(roster: seq<UInt32>, id: UInt32)
    requires roster != [] && forall i, j | 0 <= i < j < |roster| :: roster[i] != roster[j]
    ensures var front, last := roster[..|roster| - 1], roster[|roster| - 1];
            && last !in front
            && (id in roster <==> id in front || id == last)
  {
    assert roster == roster[..|roster| - 1] + [roster[|roster| - 1]];
  }

  // ---- Confinement -------------------------------------------------------------------------------

  ghost predicate AllInside(w: World) {
    forall k | k in w.players :: Inside(w.players[k].fighter.coords)
  }

  /** The tile the sender itself would move to is one the check approves; the check looks at the player
      that the request names, the action is applied to the sender. */
  predicate OwnMoveApproved(g: Game, tiles: seq<UInt8>, r: Request)
    requires r.client in g.world.players
  {
    r.action.kind == Move ==>
      CheckTile(tiles, Plus(g.world.players[r.client].fighter.coords, r.action.direction)) == Approved
  }

  lemma NamingOneselfSuffices(g: Game, tiles: seq<UInt8>, r: Request)
    requires Accepts(g, tiles, r) && r.action.playerId == r.client
    ensures OwnMoveApproved(g, tiles, r)
  {
  }

  ghost predicate SamePlaces(w: World, w': World) {
    && w'.players.Keys == w.players.Keys
    && forall k | k in w.players :: w'.players[k].fighter.coords == w.players[k].fighter.coords
  }

  lemma PassingOnKeepsPlaces(g: Game, ai: World)
    requires RosterInv(g.world, g.roster) && g.current in g.roster && SameRoster(g.world, ai)
    ensures SamePlaces(g.world, PassOn(g, ai).world)
  {
  }

  /** Where an applied action leaves everyone. */
  lemma OnlyTheSenderMoves(w: World, tiles: seq<UInt8>, id: UInt32, a: PlayerAction, w': World, k: UInt32)
    requires Bordered(tiles) && AllActedOn(w, id, a, w') && id in w.players && k in w.players
    ensures if k == id && a.kind == Move
            then Inside(w'.players[k].fighter.coords)
                 <==> CheckTile(tiles, Plus(w.players[k].fighter.coords, a.direction)) == Approved
            else w'.players[k].fighter.coords == w.players[k].fighter.coords
  {
    ApprovedExactlyInside(tiles, Plus(w.players[k].fighter.coords, a.direction));
  }

  /** An accepted request leaves everyone inside exactly when the sender's own move is one the check
      approves. */
  lemma ActionKeepsInsideExactlyWhen(g: Game, tiles: seq<UInt8>, r: Request)
    requires GameInv(g) && Bordered(tiles) && AllInside(g.world) && Accepts(g, tiles, r)
    ensures AllInside(AfterAction(g, r).world) <==> OwnMoveApproved(g, tiles, r)
  {
    ApplyingActsOnAll(g.world, r.client, r.action);
    ActingKeepsInsideExactlyWhen(g.world, tiles, r.client, r.action, Applied(g, r));
  }

  lemma ActingKeepsInsideExactlyWhen(w: World, tiles: seq<UInt8>, id: UInt32, a: PlayerAction, w': World)
    requires Bordered(tiles) && AllInside(w) && AllActedOn(w, id, a, w') && id in w.players
    ensures AllInside(w') <==>
              (a.kind == Move ==> CheckTile(tiles, Plus(w.players[id].fighter.coords, a.direction)) == Approved)
  {
    forall k | k in w.players
      ensures k != id || a.kind != Move ==> Inside(w'.players[k].fighter.coords)
    {
      OnlyTheSenderMoves(w, tiles, id, a, w', k);
    }
    OnlyTheSenderMoves(w, tiles, id, a, w', id);
  }

  lemma OnRequestKeepsInsideExactlyWhen(g: Game, tiles: seq<UInt8>, r: Request, ai: World)
    requires GameInv(g) && Possible(g, tiles, r, ai) && Bordered(tiles) && AllInside(g.world)
    ensures AllInside(OnRequest(g, tiles, r, ai).world) <==> (Accepts(g, tiles, r) ==> OwnMoveApproved(g, tiles, r))
  {
    if Accepts(g, tiles, r) {
      ActionKeepsInsideExactlyWhen(g, tiles, r);
      AfterActionKeepsRoster(g, r);
      PassingOnKeepsPlaces(AfterAction(g, r), ai);
      SamePlacesSameInside(AfterAction(g, r).world, OnRequest(g, tiles, r, ai).world);
    }
  }

  lemma SamePlacesSameInside(w: World, w': World)
    requires SamePlaces(w, w')
    ensures AllInside(w) <==> AllInside(w')
  {
    assert forall k | k in w'.players :: w'.players[k].fighter.coords == w.players[k].fighter.coords;
  }

  ghost predicate InsideThroughout(g: Game, tiles: seq<UInt8>, inputs: seq<Input>)
    requires Playable(g, tiles, inputs)
    decreases |inputs|
  {
    && AllInside(g.world)
    && (inputs == [] ||
        InsideThroughout(OnRequest(g, tiles, inputs[0].request, inputs[0].ai), tiles, inputs[1..]))
  }

  predicate OwnMovesApproved(g: Game, tiles: seq<UInt8>, inputs: seq<Input>)
    requires Playable(g, tiles, inputs)
    decreases |inputs|
  {
    inputs == [] ||
    (&& (Accepts(g, tiles, inputs[0].request) ==> OwnMoveApproved(g, tiles, inputs[0].request))
     && OwnMovesApproved(OnRequest(g, tiles, inputs[0].request, inputs[0].ai), tiles, inputs[1..]))
  }

  /** With hills around the map, players who start inside are inside throughout a run exactly when every
      accepted request would also have been approved for its sender. */
  lemma {:induction false} PlayersStayInsideExactlyWhen(g: Game, tiles: seq<UInt8>, inputs: seq<Input>)
    requires Playable(g, tiles, inputs) && Bordered(tiles) && AllInside(g.world)
    ensures InsideThroughout(g, tiles, inputs) <==> OwnMovesApproved(g, tiles, inputs)
    decreases |inputs|
  {
    if inputs != [] {
      var g' := OnRequest(g, tiles, inputs[0].request, inputs[0].ai);
      OnRequestKeepsInsideExactlyWhen(g, tiles, inputs[0].request, inputs[0].ai);
      if AllInside(g'.world) {
        PlayersStayInsideExactlyWhen(g', tiles, inputs[1..]);
      } else {
        NotInside(g', tiles, inputs[1..]);
      }
    }
  }

  lemma NotInside(g: Game, tiles: seq<UInt8>, inputs: seq<Input>)
    requires Playable(g, tiles, inputs) && !AllInside(g.world)
    ensures !InsideThroughout(g, tiles, inputs)
  {
  }

  /** Requests to move name their sender. */
  ghost predicate MoversNameThemselves(inputs: seq<Input>) {
    forall i | 0 <= i < |inputs| :: NamesItself(inputs[i].request)
  }

  predicate NamesItself(r: Request) {
    r.action.kind == Move ==> r.action.playerId == r.client
  }

  /** Each player is inside or where it was. */
  ghost predicate InsideOrUnmoved(w: World, w': World) {
    && w'.players.Keys == w.players.Keys
    && forall k | k in w.players ::
         Inside(w'.players[k].fighter.coords) || w'.players[k].fighter.coords == w.players[k].fighter.coords
  }

  lemma OnRequestMovesInside(g: Game, tiles: seq<UInt8>, r: Request, ai: World)
    requires GameInv(g) && Possible(g, tiles, r, ai) && Bordered(tiles) && NamesItself(r)
    ensures InsideOrUnmoved(g.world, OnRequest(g, tiles, r, ai).world)
  {
    if Accepts(g, tiles, r) {
      ApplyingActsOnAll(g.world, r.client, r.action);
      ActingMovesInside(g.world, tiles, r.client, r.action, Applied(g, r));
      AfterActionKeepsRoster(g, r);
      PassingOnKeepsPlaces(AfterAction(g, r), ai);
      InsideOrUnmovedHere(g.world, Applied(g, r), OnRequest(g, tiles, r, ai).world);
    }
  }

  lemma ActingMovesInside(w: World, tiles: seq<UInt8>, id: UInt32, a: PlayerAction, w': World)
    requires Bordered(tiles) && AllActedOn(w, id, a, w') && id in w.players
    requires a.kind == Move ==> CheckTile(tiles, Plus(w.players[id].fighter.coords, a.direction)) == Approved
    ensures InsideOrUnmoved(w, w')
  {
    forall k | k in w.players
      ensures Inside(w'.players[k].fighter.coords) || w'.players[k].fighter.coords == w.players[k].fighter.coords
    {
      OnlyTheSenderMoves(w, tiles, id, a, w', k);
    }
  }

  lemma InsideOrUnmovedHere(w: World, w': World, w'': World)
    requires InsideOrUnmoved(w, w') && (SamePlaces(w', w'') || InsideOrUnmoved(w', w''))
    ensures InsideOrUnmoved(w, w'')
  {
    assert forall k | k in w'.players :: k in w.players;
  }

  /** With hills around the map and movers who name themselves, nobody ever moves anywhere but inside the
      hills, wherever it started and however far a move reaches. */
  lemma {:induction false} PlayersMoveInside(g: Game, tiles: seq<UInt8>, inputs: seq<Input>)
    requires Playable(g, tiles, inputs) && Bordered(tiles) && MoversNameThemselves(inputs)
    ensures InsideOrUnmoved(g.world, PlayAll(g, tiles, inputs).world)
    decreases |inputs|
  {
    if inputs != [] {
      var r, ai := inputs[0].request, inputs[0].ai;
      assert NamesItself(r) && forall i | 0 <= i < |inputs| - 1 :: inputs[1..][i] == inputs[i + 1];
      OnRequestMovesInside(g, tiles, r, ai);
      PlayersMoveInside(OnRequest(g, tiles, r, ai), tiles, inputs[1..]);
      InsideOrUnmovedHere(g.world, OnRequest(g, tiles, r, ai).world, PlayAll(g, tiles, inputs).world);
    }
  }

  /** What the check says to each request of a run. */
  function Verdicts(g: Game, tiles: seq<UInt8>, inputs: seq<Input>): (v: seq<Verdict>)
    requires Playable(g, tiles, inputs)
    ensures |v| == |inputs|
    decreases |inputs|
  {
    if inputs == [] then []
    else
      [Check(g.world, tiles, inputs[0].request.action)]
      + Verdicts(OnRequest(g, tiles, inputs[0].request, inputs[0].ai), tiles, inputs[1..])
  }

  ghost predicate UnitMoves(inputs: seq<Input>) {
    forall i | 0 <= i < |inputs| ::
      inputs[i].request.action.kind == Move ==> OneStep(inputs[i].request.action.direction)
  }

  /** As long as players are inside, only a move of more than one tile can make the check read beyond the
      map. */
  lemma {:induction false} UnitMovesAreChecked(g: Game, tiles: seq<UInt8>, inputs: seq<Input>)
    requires Playable(g, tiles, inputs) && Bordered(tiles) && InsideThroughout(g, tiles, inputs) && UnitMoves(inputs)
    ensures OutOfMap !in Verdicts(g, tiles, inputs)
    decreases |inputs|
  {
    if inputs != [] {
      var r, ai := inputs[0].request, inputs[0].ai;
      if r.action.kind == Move {
        MovesAreCheckedExactly(g.world, tiles, r.action);
        if r.action.playerId in g.world.players {
          OneStepFromInside(g.world.players[r.action.playerId].fighter.coords, r.action.direction);
        }
      }
      assert UnitMoves(inputs[1..]);
      UnitMovesAreChecked(OnRequest(g, tiles, r, ai), tiles, inputs[1..]);
    }
  }

  /** A request that fails the condition: naming a player further inside, the sender at the western edge
      steps onto the hills. */
  lemma MisnamedSenderLeaves(g: Game, tiles: seq<UInt8>, named: UInt32)
    requires GameInv(g) && Bordered(tiles) && AllInside(g.world)
    requires named in g.world.players && g.world.players[named].fighter.hp > 0
    requires g.world.players[named].fighter.coords.x > 1 && g.world.players[g.current].fighter.coords.x == 1
    ensures var r := Request(g.current, PlayerAction(Move, named, Coords(-1, 0, 0)));
            && Accepts(g, tiles, r) && !OwnMoveApproved(g, tiles, r)
            && !AllInside(AfterAction(g, r).world)
  {
    var r := Request(g.current, PlayerAction(Move, named, Coords(-1, 0, 0)));
    StepsWest(g.world.players[named].fighter.coords);
    StepsWest(g.world.players[g.current].fighter.coords);
    MovesAreCheckedExactly(g.world, tiles, r.action);
    ApprovedExactlyInside(tiles, Plus(g.world.players[g.current].fighter.coords, Coords(-1, 0, 0)));
    ActionKeepsInsideExactlyWhen(g, tiles, r);
  }

  lemma StepsWest(c: Coords)
    requires Inside(c)
    ensures Plus(c, Coords(-1, 0, 0)).x == c.x - 1 && Plus(c, Coords(-1, 0, 0)).y == c.y
  {
  }

  // ---- What the clients see ------------------------------------------------------------------------

  /** The announcement of an applied request names its sender, whatever the request named. */
  function Announced(r: Request): Entry {
    PlayerEntry(r.action.(playerId := r.client))
  }
}
