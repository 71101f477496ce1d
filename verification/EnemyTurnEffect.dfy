/** The whole enemies' turn, told without the loop: who acts, what the clients are told, what the server's
    world becomes, and who is left. */
module EnemyTurnEffects {
  import opened Wrappers
  import opened GameRules
  import opened GameWorlds
  import opened EnemyTurns

  /** The entries of deeds under a name. */
  function Named(name: UInt32, deeds: seq<Deed>): (log: seq<Entry>)
    ensures |log| == |deeds|
  {
    if deeds == [] then []
    else [EnemyEntry(EnemyAction(deeds[0].kind, name, deeds[0].direction))] + Named(name, deeds[1..])
  }

  /** The deeds of the enemies at the given positions, one enemy after the other, each under its name. */
  function LogOf(acted: seq<nat>, names: seq<UInt32>, plans: seq<seq<Deed>>): seq<Entry>
    requires |names| == |acted|
  {
    if acted == [] then []
    else
      Named(names[0], if acted[0] < |plans| then plans[acted[0]] else []) + LogOf(acted[1..], names[1..], plans)
  }

  function Numbers(from: nat, n: nat): (ids: seq<UInt32>)
    requires from + n < INVALID_ID
    ensures |ids| == n
  {
    seq(n, j requires 0 <= j < n => from + j)
  }

  lemma {:induction false} EntriesAreNamed(id: UInt32, deeds: seq<Deed>)
    ensures EntriesOf(id, deeds) == Named(id, deeds)
  {
    if deeds != [] {
      EntriesAreNamed(id, deeds[1..]);
      assert EntriesOf(id, deeds)[1..] == EntriesOf(id, deeds[1..]);
      assert EntriesOf(id, deeds) == [EntriesOf(id, deeds)[0]] + EntriesOf(id, deeds)[1..];
    }
  }

  /** Positions in increasing order, none before `start`. */
  ghost predicate Positions(acted: seq<nat>, start: nat, n: nat) {
    && n < INVALID_ID
    && (forall j | 0 <= j < |acted| :: start <= acted[j] < n)
    && (forall i, j | 0 <= i < j < |acted| :: acted[i] < acted[j])
  }

  /** The log of those that acted, under their own positions. */
  function OwnLog(acted: seq<nat>, plans: seq<seq<Deed>>): seq<Entry>
    requires forall j | 0 <= j < |acted| :: acted[j] < INVALID_ID
  {
    LogOf(acted, Numbered(acted), plans)
  }

  function Numbered(acted: seq<nat>): (ids: seq<UInt32>)
    requires forall j | 0 <= j < |acted| :: acted[j] < INVALID_ID
    ensures |ids| == |acted| && forall j | 0 <= j < |acted| :: ids[j] == acted[j]
  {
    seq(|acted|, j requires 0 <= j < |acted| => acted[j])
  }

  /** The world after the first `n` of those that acted. */
  function WorldAfter(w: World, plans: seq<seq<Deed>>, acted: seq<nat>, n: nat): Option<World>
    requires WorldInv(w) && n <= |acted| && forall j | 0 <= j < |acted| :: acted[j] < INVALID_ID
  {
    ReplayFree(w, OwnLog(acted[..n], plans))
  }

  /** In that world, an enemy whose turn comes next acts exactly if it is alive. */
  ghost predicate LivingActNext(now: Option<World>, start: nat, acted: seq<nat>, n: nat)
    requires n <= |acted|
  {
    && now.Some?
    && forall i: nat | (if n == 0 then start else acted[n - 1] + 1) <= i < |now.value.enemies|
                       && (n < |acted| ==> i <= acted[n]) ::
         now.value.enemies[i].fighter.hp == 0 <==> !(n < |acted| && i == acted[n])
  }

  /** An enemy acts exactly if it is alive when its turn comes, in the worlds on the way. */
  ghost predicate LivingAct(worlds: seq<Option<World>>, start: nat, acted: seq<nat>) {
    && |worlds| == |acted| + 1
    && forall n | 0 <= n <= |acted| :: LivingActNext(worlds[n], start, acted, n)
  }

  function Worlds(w: World, plans: seq<seq<Deed>>, acted: seq<nat>): (worlds: seq<Option<World>>)
    requires WorldInv(w) && forall j | 0 <= j < |acted| :: acted[j] < INVALID_ID
    ensures |worlds| == |acted| + 1
    ensures forall n | 0 <= n <= |acted| :: worlds[n] == WorldAfter(w, plans, acted, n)
  {
    seq(|acted| + 1, n requires 0 <= n <= |acted| => WorldAfter(w, plans, acted, n))
  }

  lemma LogStarts(i: nat, rest: seq<nat>, plans: seq<seq<Deed>>)
    requires i < INVALID_ID && forall j | 0 <= j < |rest| :: rest[j] < INVALID_ID
    ensures forall j | 0 <= j < |[i] + rest| :: ([i] + rest)[j] < INVALID_ID
    ensures OwnLog([i] + rest, plans) == EntriesOf(i, PlanOf(plans, i)) + OwnLog(rest, plans)
  {
    EntriesAreNamed(i, PlanOf(plans, i));
    LogFrom(i, rest, Numbered([i] + rest), plans);
    assert Numbered([i] + rest)[1..] == Numbered(rest);
  }

  lemma DeedsThenRest(w: World, plans: seq<seq<Deed>>, i: nat, rest: seq<nat>)
    requires WorldInv(w) && EnemiesInv(w) && i < |w.enemies|
    requires forall j | 0 <= j < |rest| :: rest[j] < INVALID_ID
    ensures forall j | 0 <= j < |[i] + rest| :: ([i] + rest)[j] < INVALID_ID
    ensures ReplayFree(w, OwnLog([i] + rest, plans))
            == ReplayFree(DeedsOf(w, i, PlanOf(plans, i)), OwnLog(rest, plans))
  {
    LogStarts(i, rest, plans);
    EntriesTellDeeds(w, i, PlanOf(plans, i));
    ReplayInParts(w, EntriesOf(i, PlanOf(plans, i)), OwnLog(rest, plans));
  }

  /** What the loop does from the i-th enemy on, if these are the ones that act. */
  ghost predicate Explains(
      w: World, plans: seq<seq<Deed>>, i: nat, active: nat, acted: seq<nat>, r: TurnResult)
    requires WorldInv(w) && active <= i
  {
    && Positions(acted, i, |w.enemies|)
    && active + |acted| < INVALID_ID
    && r.told == LogOf(acted, Numbers(active, |acted|), plans)
    && ReplayFree(w, OwnLog(acted, plans)) == Some(r.w)
    && i + |acted| <= |w.enemies|
    && (r.foundDead <==> i + |acted| < |w.enemies|)
    && LivingAct(Worlds(w, plans, acted), i, acted)
  }

  lemma NobodyYet(w: World, plans: seq<seq<Deed>>, acted: seq<nat>)
    requires WorldInv(w) && forall j | 0 <= j < |acted| :: acted[j] < INVALID_ID
    ensures WorldAfter(w, plans, acted, 0) == Some(w)
  {
    assert acted[..0] == [] && OwnLog([], plans) == [];
  }

  lemma ExplainNobody(w: World, plans: seq<seq<Deed>>, active: nat)
    requires WorldInv(w) && EnemiesInv(w) && active <= |w.enemies|
    ensures Explains(w, plans, |w.enemies|, active, [], TurnResult(w, [], false))
  {
    var acted: seq<nat> := [];
    NobodyYet(w, plans, acted);
    assert acted[..0] == acted;
  }

  lemma ExplainDead(
      w: World, plans: seq<seq<Deed>>, i: nat, active: nat, acted: seq<nat>, r: TurnResult)
    requires WorldInv(w) && EnemiesInv(w) && active <= i < |w.enemies| && w.enemies[i].fighter.hp == 0
    requires Explains(w, plans, i + 1, active, acted, r)
    ensures Explains(w, plans, i, active, acted, r.(foundDead := true))
  {
    PositionsAreFew(acted, i + 1, |w.enemies|);
    NobodyYet(w, plans, acted);
    ActWithoutTheDead(w, Worlds(w, plans, acted), i, acted);
  }

  lemma ActWithoutTheDead(w: World, worlds: seq<Option<World>>, i: nat, acted: seq<nat>)
    requires LivingAct(worlds, i + 1, acted) && worlds[0] == Some(w) && (acted != [] ==> i < acted[0])
    requires i < |w.enemies| && w.enemies[i].fighter.hp == 0
    ensures LivingAct(worlds, i, acted)
  {
    forall n | 0 <= n <= |acted|
      ensures LivingActNext(worlds[n], i, acted, n)
    {
      assert LivingActNext(worlds[n], i + 1, acted, n);
    }
  }

  lemma {:induction false} PositionsAreFew(acted: seq<nat>, start: nat, n: nat)
    requires Positions(acted, start, n) && start <= n
    ensures start + |acted| <= n
    decreases |acted|
  {
    if acted != [] {
      PositionsAreFew(acted[1..], acted[0] + 1, n);
    }
  }

  lemma ExplainLiving(
      w: World, plans: seq<seq<Deed>>, i: nat, active: nat, rest: seq<nat>, r: TurnResult)
    requires WorldInv(w) && EnemiesInv(w) && active <= i < |w.enemies| && w.enemies[i].fighter.hp != 0
    requires Explains(DeedsOf(w, i, PlanOf(plans, i)), plans, i + 1, active + 1, rest, r)
    ensures Explains(w, plans, i, active, [i] + rest, r.(told := EntriesOf(active, PlanOf(plans, i)) + r.told))
  {
    PositionsFrom(i, rest, |w.enemies|);
    ToldFrom(plans, i, active, rest);
    DeedsThenRest(w, plans, i, rest);
    WorldsFrom(w, plans, i, rest);
    LivingActFrom(w, Worlds(DeedsOf(w, i, PlanOf(plans, i)), plans, rest), i, rest);
  }

  lemma PositionsFrom(i: nat, rest: seq<nat>, n: nat)
    requires i < n && Positions(rest, i + 1, n)
    ensures Positions([i] + rest, i, n)
  {
  }

  lemma ToldFrom(plans: seq<seq<Deed>>, i: nat, active: nat, rest: seq<nat>)
    requires active + 1 + |rest| < INVALID_ID
    ensures LogOf([i] + rest, Numbers(active, |rest| + 1), plans)
            == EntriesOf(active, PlanOf(plans, i)) + LogOf(rest, Numbers(active + 1, |rest|), plans)
  {
    EntriesAreNamed(active, PlanOf(plans, i));
    NumbersFrom(active, |rest|);
    LogFrom(i, rest, Numbers(active, |rest| + 1), plans);
  }

  lemma NumbersFrom(from: nat, n: nat)
    requires from + 1 + n < INVALID_ID
    ensures Numbers(from, n + 1)[0] == from && Numbers(from, n + 1)[1..] == Numbers(from + 1, n)
  {
  }

  lemma LogFrom(i: nat, rest: seq<nat>, names: seq<UInt32>, plans: seq<seq<Deed>>)
    requires |names| == |rest| + 1
    ensures LogOf([i] + rest, names, plans) == Named(names[0], PlanOf(plans, i)) + LogOf(rest, names[1..], plans)
  {
    assert ([i] + rest)[1..] == rest;
  }

  lemma LivingActFrom(w: World, worlds: seq<Option<World>>, i: nat, rest: seq<nat>)
    requires LivingAct(worlds, i + 1, rest) && i < |w.enemies| && w.enemies[i].fighter.hp != 0
    ensures LivingAct([Some(w)] + worlds, i, [i] + rest)
  {
    var worlds' := [Some(w)] + worlds;
    forall n | 0 <= n <= |rest| + 1
      ensures LivingActNext(worlds'[n], i, [i] + rest, n)
    {
      if n > 0 {
        assert LivingActNext(worlds[n - 1], i + 1, rest, n - 1);
        NextFrom(worlds[n - 1], i, rest, n);
      }
    }
  }

  lemma WorldsFrom(w: World, plans: seq<seq<Deed>>, i: nat, rest: seq<nat>)
    requires WorldInv(w) && EnemiesInv(w) && i < |w.enemies|
    requires Positions(rest, i + 1, |w.enemies|) && Positions([i] + rest, i, |w.enemies|)
    ensures Worlds(w, plans, [i] + rest) == [Some(w)] + Worlds(DeedsOf(w, i, PlanOf(plans, i)), plans, rest)
  {
    var before, after := Worlds(w, plans, [i] + rest), Worlds(DeedsOf(w, i, PlanOf(plans, i)), plans, rest);
    NobodyYet(w, plans, [i] + rest);
    forall n | 0 < n < |before|
      ensures before[n] == after[n - 1]
    {
      PrefixReplayed(w, plans, i, rest, n);
    }
    OneMoreInFront(before, Some(w), after);
  }

  lemma OneMoreInFront(before: seq<Option<World>>, first: Option<World>, after: seq<Option<World>>)
    requires |before| == |after| + 1 && before[0] == first
    requires forall n | 0 < n < |before| :: before[n] == after[n - 1]
    ensures before == [first] + after
  {
  }

  lemma PrefixReplayed(w: World, plans: seq<seq<Deed>>, i: nat, rest: seq<nat>, n: nat)
    requires WorldInv(w) && EnemiesInv(w) && i < |w.enemies| && 1 <= n <= |rest| + 1
    requires Positions(rest, i + 1, |w.enemies|) && Positions([i] + rest, i, |w.enemies|)
    ensures WorldAfter(w, plans, [i] + rest, n) == WorldAfter(DeedsOf(w, i, PlanOf(plans, i)), plans, rest, n - 1)
  {
    assert ([i] + rest)[..n] == [i] + rest[..n - 1];
    DeedsThenRest(w, plans, i, rest[..n - 1]);
  }

  lemma NextFrom(now: Option<World>, i: nat, rest: seq<nat>, n: nat)
    requires 1 <= n <= |rest| + 1 && LivingActNext(now, i + 1, rest, n - 1)
    ensures LivingActNext(now, i, [i] + rest, n)
  {
    var acted := [i] + rest;
    assert n > 1 ==> acted[n - 1] == rest[n - 2];
    assert n < |acted| ==> acted[n] == rest[n - 1];
  }

  lemma {:induction false} LoopExplained(w: World, plans: seq<seq<Deed>>, i: nat, active: nat)
      returns (acted: seq<nat>)
    requires WorldInv(w) && EnemiesInv(w) && active <= i <= |w.enemies|
    ensures Explains(w, plans, i, active, acted, EnemiesFrom(w, plans, i, active))
    decreases |w.enemies| - i
  {
    if i == |w.enemies| {
      acted := [];
      LoopAtTheEnd(w, plans, active);
    } else if w.enemies[i].fighter.hp == 0 {
      acted := LoopExplained(w, plans, i + 1, active);
      LoopAtTheDead(w, plans, i, active, acted);
    } else {
      var w1 := DeedsOf(w, i, PlanOf(plans, i));
      var rest := LoopExplained(w1, plans, i + 1, active + 1);
      LoopAtTheLiving(w, plans, i, active, rest, w1);
      acted := [i] + rest;
    }
  }

  lemma LoopAtTheEnd(w: World, plans: seq<seq<Deed>>, active: nat)
    requires WorldInv(w) && EnemiesInv(w) && active <= |w.enemies|
    ensures Explains(w, plans, |w.enemies|, active, [], EnemiesFrom(w, plans, |w.enemies|, active))
  {
    NobodyIsLeft(w, plans, active);
    ExplainNobody(w, plans, active);
  }

  lemma LoopAtTheDead(w: World, plans: seq<seq<Deed>>, i: nat, active: nat, acted: seq<nat>)
    requires WorldInv(w) && EnemiesInv(w) && active <= i < |w.enemies| && w.enemies[i].fighter.hp == 0
    requires Explains(w, plans, i + 1, active, acted, EnemiesFrom(w, plans, i + 1, active))
    ensures Explains(w, plans, i, active, acted, EnemiesFrom(w, plans, i, active))
  {
    DeadEnemyIsFound(w, plans, i, active);
    ExplainDead(w, plans, i, active, acted, EnemiesFrom(w, plans, i + 1, active));
  }

  lemma LoopAtTheLiving(w: World, plans: seq<seq<Deed>>, i: nat, active: nat, rest: seq<nat>, w1: World)
    requires WorldInv(w) && EnemiesInv(w) && active <= i < |w.enemies| && w.enemies[i].fighter.hp != 0
    requires w1 == DeedsOf(w, i, PlanOf(plans, i))
    requires Explains(w1, plans, i + 1, active + 1, rest, EnemiesFrom(w1, plans, i + 1, active + 1))
    ensures Explains(w, plans, i, active, [i] + rest, EnemiesFrom(w, plans, i, active))
  {
    LivingEnemyActs(w, plans, i, active);
    ExplainLiving(w, plans, i, active, rest, EnemiesFrom(w1, plans, i + 1, active + 1));
  }

  /** The enemies' turn, exactly. An enemy acts if and only if it is alive when its turn comes. The server's
      world becomes what the deeds of those that acted make of it, each done by the enemy at its own
      position, in list order. The clients are told the same deeds, but numbered without the dead. If
      somebody did not act, the dead are removed, and exactly the living stay, in their order. */
  lemma EnemiesTurnExactly(w: World, plans: seq<seq<Deed>>) returns (acted: seq<nat>, done: World, kept: seq<nat>)
    requires WorldInv(w) && EnemiesInv(w)
    ensures Positions(acted, 0, |w.enemies|)
    ensures LivingAct(Worlds(w, plans, acted), 0, acted)
    ensures ReplayFree(w, OwnLog(acted, plans)) == Some(done)
    ensures var r := EnemiesTurn(w, plans);
            && |acted| <= |w.enemies|
            && r.told == LogOf(acted, Numbers(0, |acted|), plans)
            && (r.foundDead <==> |acted| < |w.enemies|)
            && r.w.players == done.players
            && (if r.foundDead
                then Picks(done.enemies, kept, r.w.enemies) && PositionsOfTheLiving(done.enemies, kept)
                else r.w.enemies == done.enemies)
  {
    acted := LoopExplained(w, plans, 0, 0);
    var r := EnemiesFrom(w, plans, 0, 0);
    done := r.w;
    TurnAfterLoop(w, plans, r);
    kept := LivingKeepsExactlyTheLiving(done.enemies);
  }
}
