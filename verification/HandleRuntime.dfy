/** The handle methods as the source runs them, on one global RefMap and the Data fields of all
    handles. While an object is being destroyed, the handle whose release set this off still holds its
    address: `Data` is cleared only at the end. Such a dangling handle counts as empty in `State`. */
module HandleRuntimes {
  import opened Handles
  import opened HandleOperations

  /** A Data field as it counts: a shared handle without a RefMap entry, or a unique handle whose object
      is gone, holds nothing. */
  function Cleaned(data: map<Handle, Address>, refMap: map<Address, nat>, members: map<Address, seq<Handle>>)
    : map<Handle, Address>
  {
    map h | h in data ::
      if (h.kind == Shared && data[h] !in refMap) || (h.kind == Unique && data[h] !in members) then NULL else data[h]
  }

  lemma DetachIgnoresEmpty(m: Memory, h: Handle, g: Handle)
    requires h in m.data ==> m.data[h] == NULL
    ensures Detach(m.(data := m.data - {h}), g) == (Detach(m, g).0.(data := m.data - {h}), Detach(m, g).1)
  {
    assert g != h ==> (g in m.data - {h} <==> g in m.data);
  }

  lemma DestructIgnoresEmpty(m: Memory, h: Handle, g: Handle)
    requires h in m.data ==> m.data[h] == NULL
    ensures Destruct(m.(data := m.data - {h}), g)
            == (Destruct(m, g).0.(data := Destruct(m, g).0.data - {h}), Destruct(m, g).1)
  {
    DetachIgnoresEmpty(m, h, g);
    DetachParts(m, g);
    assert m.data - {h} - {g} == m.data - {g} - {h};
  }

  /** Whether a handle is removed or keeps null, what a cascade does elsewhere is the same. */
  lemma {:induction false} CascadeIgnoresEmpty(m: Memory, h: Handle, work: seq<Handle>)
    requires h in m.data ==> m.data[h] == NULL
    ensures Cascade(m.(data := m.data - {h}), work) == Cascade(m, work).(data := Cascade(m, work).data - {h})
    decreases |m.members|, |work|
  {
    if work != [] {
      var (after, more) := Destruct(m, work[0]);
      DestructIgnoresEmpty(m, h, work[0]);
      DetachParts(m, work[0]);
      DestructShrinks(m, work[0]);
      DestructShrinks(m.(data := m.data - {h}), work[0]);
      CascadeIgnoresEmpty(after, h, more + work[1..]);
    }
  }

  lemma DestroyingIsReleasingAndRemoving(m: Memory, h: Handle)
    requires h in m.data
    ensures Cascade(m, [h]) == AfterRelease(m, h).(data := AfterRelease(m, h).data - {h})
  {
    var (d, more) := Detach(m, h);
    DetachParts(m, h);
    ReleaseIsACascade(m, h);
    CascadeIgnoresEmpty(LetGoOf(m, h), h, more);
    assert m.data[h := NULL] - {h} == m.data - {h};
    assert LetGoOf(m, h).(data := m.data - {h}) == Destruct(m, h).0;
    CascadeOfOne(m, h);
  }

  lemma CascadeOfOne(m: Memory, h: Handle)
    ensures Cascade(m, [h]) == Cascade(Destruct(m, h).0, Destruct(m, h).1)
  {
    DestructShrinks(m, h);
    assert Destruct(m, h).1 + [h][1..] == Destruct(m, h).1;
  }

  function StateOf(data: map<Handle, Address>, refMap: map<Address, nat>, members: map<Address, seq<Handle>>,
                   created: seq<Address>, destroyed: seq<Address>): Memory
  {
    Memory(refMap, Cleaned(data, refMap, members), members, created, destroyed)
  }

  /** Removing an object, and its count, makes exactly the handle that let go of it dangle. */
  lemma RemovalEmptiesOne(data: map<Handle, Address>, m: Memory, h: Handle, refMap': map<Address, nat>)
    requires m == StateOf(data, m.refMap, m.members, m.created, m.destroyed)
    requires CountsInv(m) && UniqueInv(m) && NULL !in m.members && h in data && data[h] in m.members
    requires h.kind != Weak
    requires if h.kind == Unique then refMap' == m.refMap
             else data[h] in m.refMap && m.refMap[data[h]] == 1 && refMap' == m.refMap - {data[h]}
    ensures StateOf(data, refMap', m.members - {data[h]}, m.created, m.destroyed + [data[h]]) == LetGoOf(m, h)
    ensures Detach(m, h).1 == m.members[data[h]]
  {
    var a := data[h];
    if h.kind == Shared {
      SoleHolder(m.data, h, a);
    }
    OthersHoldSomethingElse(m, h, a);
    CleanedWithoutIt(data, m, h, refMap');
  }

  lemma CleanedWithoutIt(data: map<Handle, Address>, m: Memory, h: Handle, refMap': map<Address, nat>)
    requires m.data == Cleaned(data, m.refMap, m.members) && h in data && h.kind != Weak
    requires forall g | g in data && g.kind != Weak && g != h :: m.data[g] != data[h]
    requires refMap' == if h.kind == Unique then m.refMap else m.refMap - {data[h]}
    requires h.kind == Unique ==> data[h] !in m.refMap
    requires data[h] in m.members && (h.kind == Shared ==> data[h] in m.refMap)
    ensures Cleaned(data, refMap', m.members - {data[h]}) == m.data[h := NULL]
  {
  }

  lemma OthersHoldSomethingElse(m: Memory, h: Handle, a: Address)
    requires CountsInv(m) && UniqueInv(m) && h in m.data && m.data[h] == a != NULL && h.kind != Weak
    requires h.kind == Shared ==> Holders(m.data, a) == {h}
    ensures forall g | g in m.data && g.kind != Weak && g != h :: m.data[g] != a
  {
    forall g | g in m.data && g.kind == Shared && m.data[g] == a
      ensures g in Holders(m.data, a)
    {
    }
  }

  /** Giving up one of several shared references. */
  lemma DecrementLetsGo(data: map<Handle, Address>, m: Memory, h: Handle, refMap': map<Address, nat>)
    requires m == StateOf(data, m.refMap, m.members, m.created, m.destroyed)
    requires h in data && h.kind == Shared && data[h] != NULL && data[h] in m.refMap && m.refMap[data[h]] > 1
    requires refMap' == m.refMap[data[h] := m.refMap[data[h]] - 1]
    ensures StateOf(data[h := NULL], refMap', m.members, m.created, m.destroyed) == LetGoOf(m, h)
    ensures Detach(m, h).1 == []
  {
    assert Cleaned(data[h := NULL], refMap', m.members) == m.data[h := NULL];
  }

  /** Letting go of nothing. */
  lemma EmptyLetsGo(data: map<Handle, Address>, m: Memory, h: Handle)
    requires m == StateOf(data, m.refMap, m.members, m.created, m.destroyed)
    requires h in data && (h.kind == Weak || m.data[h] == NULL) && NULL !in m.refMap
    ensures StateOf(data[h := NULL], m.refMap, m.members, m.created, m.destroyed) == LetGoOf(m, h)
    ensures Detach(m, h).1 == []
  {
    assert Cleaned(data[h := NULL], m.refMap, m.members) == m.data[h := NULL];
  }

  /** Clearing a handle that dangles, and removing one, as the state sees it. */
  lemma ClearingADanglingHandle(data: map<Handle, Address>, m: Memory, h: Handle, work: seq<Handle>, busy: set<Handle>)
    requires m == StateOf(data, m.refMap, m.members, m.created, m.destroyed)
    requires h in data && data[h] !in m.members && m.refMap.Keys <= m.members.Keys && h.kind != Weak
    requires Ready(data, m.members.Keys, work, busy)
    ensures m == StateOf(data[h := NULL], m.refMap, m.members, m.created, m.destroyed)
    ensures Ready(data[h := NULL], m.members.Keys, work, busy)
  {
    assert Cleaned(data[h := NULL], m.refMap, m.members) == Cleaned(data, m.refMap, m.members);
  }

  function Removed(m: Memory, h: Handle): Memory {
    m.(data := m.data - {h})
  }

  /** A handle that holds nothing has nothing to release. */
  lemma NothingToRelease(data: map<Handle, Address>, m: Memory, h: Handle)
    requires h in m.data && (h.kind == Weak || m.data[h] == NULL)
    ensures Removed(AfterRelease(m, h), h) == Removed(m, h)
  {
    assert Detach(m, h) == (m, []);
    assert m.data[h := NULL] - {h} == m.data - {h};
  }

  lemma DroppingAHandle(data: map<Handle, Address>, m: Memory, h: Handle, pending: seq<Handle>, busy: set<Handle>)
    requires m == StateOf(data, m.refMap, m.members, m.created, m.destroyed)
    requires Ready(data, m.members.Keys, [h] + pending, busy + {h})
    ensures StateOf(data - {h}, m.refMap, m.members, m.created, m.destroyed) == Removed(m, h)
    ensures Ready(data - {h}, m.members.Keys, pending, busy)
  {
    assert Cleaned(data - {h}, m.refMap, m.members) == m.data - {h};
    assert forall u | u in pending :: u in [h] + pending;
  }

  lemma ReleaseKeepsPending(m: Memory, h: Handle, pending: seq<Handle>)
    requires Inv(m, pending) && h in m.data
    ensures Inv(AfterRelease(m, h), pending)
  {
    LetGoKeepsInv(m, h, pending);
    ReleaseIsACascade(m, h);
    CascadeKeepsInv(LetGoOf(m, h), Detach(m, h).1, pending);
  }

  /** A handle under destruction outlasts what its release sets off. */
  lemma DestroyedHandleLasts(m: Memory, h: Handle, pending: seq<Handle>)
    requires Inv(m, [h] + pending)
    ensures h in m.data && h.home !in m.members
    ensures Inv(AfterRelease(m, h), [h] + pending) && h in AfterRelease(m, h).data
    ensures Inv(Cascade(m, [h]), pending)
    ensures Cascade(m, [h]) == AfterRelease(m, h).(data := AfterRelease(m, h).data - {h})
  {
    assert h in [h] + pending;
    ReleaseKeepsPending(m, h, [h] + pending);
    DestroyingIsReleasingAndRemoving(m, h);
    CascadeKeepsInv(m, [h], pending);
  }

  lemma DestroyedHandleIsNotBusy(m: Memory, h: Handle, pending: seq<Handle>, busy: set<Handle>)
    requires Inv(m, [h] + pending) && busy <= Cascade(m, [h]).data.Keys
    ensures h !in busy && h !in pending && h in [h] + pending
    ensures busy + {h} <= AfterRelease(m, h).data.Keys
  {
    DestroyedHandleLasts(m, h, pending);
    DistinctParts(h, pending);
  }

  lemma CountedIsAlive(m: Memory)
    requires CountsInv(m)
    ensures m.refMap.Keys <= m.members.Keys
  {
  }

  lemma ReleaseByDeleting(m: Memory, h: Handle, pending: seq<Handle>)
    requires Inv(m, pending) && h in m.data
    ensures Inv(LetGoOf(m, h), Detach(m, h).1 + pending)
    ensures AfterRelease(m, h) == Cascade(LetGoOf(m, h), Detach(m, h).1)
    ensures AfterRelease(m, h).refMap.Keys <= AfterRelease(m, h).members.Keys
  {
    LetGoKeepsInv(m, h, pending);
    ReleaseIsACascade(m, h);
    ReleaseKeepsPending(m, h, pending);
    CountedIsAlive(AfterRelease(m, h));
  }

  /** No unique handle that is still to be destroyed, now or with a live object, dangles; those in
      `busy`, whose releases are under way, are left out and will outlast what they set off. */
  ghost predicate Ready(data: map<Handle, Address>, live: set<Address>, work: seq<Handle>, busy: set<Handle>) {
    forall u | u in data && u.kind == Unique && u !in busy && (u in work || u.home in live) ::
      data[u] == NULL || data[u] in live
  }

  /** The object that `h` alone owns is no other unique handle's. */
  lemma ReadyWithoutIt(data: map<Handle, Address>, m: Memory, h: Handle, pending: seq<Handle>, busy: set<Handle>)
    requires m == StateOf(data, m.refMap, m.members, m.created, m.destroyed)
    requires MembersInv(m) && UniqueInv(m) && Ready(data, m.members.Keys, pending, busy)
    requires h in data && data[h] in m.members
    requires h.kind != Weak && if h.kind == Unique then h in busy else data[h] in m.refMap
    ensures Ready(data, m.members.Keys - {data[h]}, m.members[data[h]] + pending, busy)
  {
    var a := data[h];
    forall g | g in m.members[a]
      ensures g.home == a
    {
    }
    forall u | u in data && u.kind == Unique && u !in busy
      && (u in m.members[a] + pending || u.home in m.members.Keys - {a})
      ensures data[u] == NULL || data[u] in m.members.Keys - {a}
    {
      assert u.home in m.members || u in pending;
      assert m.data[u] == data[u];
    }
  }

  lemma {:induction false} CascadesRemoveHandles(m: Memory, work: seq<Handle>)
    ensures Cascade(m, work).data.Keys <= m.data.Keys
    decreases |m.members|, |work|
  {
    if work != [] {
      var (after, more) := Destruct(m, work[0]);
      DestructShrinks(m, work[0]);
      DetachParts(m, work[0]);
      CascadesRemoveHandles(after, more + work[1..]);
    }
  }

  /** What is left after a cascade is left after its beginning. */
  lemma OutlastsTheFirst(m: Memory, h: Handle, rest: seq<Handle>)
    ensures Cascade(m, [h] + rest).data.Keys <= Cascade(m, [h]).data.Keys
  {
    CascadeSplits(m, [h], rest);
    CascadesRemoveHandles(Cascade(m, [h]), rest);
  }

  lemma NothingToDelete(m: Memory, h: Handle, pending: seq<Handle>)
    requires Inv(m, pending) && h in m.data && Detach(m, h).1 == []
    ensures AfterRelease(m, h) == LetGoOf(m, h) && Inv(LetGoOf(m, h), pending)
  {
    LetGoKeepsInv(m, h, pending);
    ReleaseIsACascade(m, h);
    assert Detach(m, h).1 + pending == pending;
  }

  lemma ErasedAtZero(refMap: map<Address, nat>, a: Address, n: int)
    requires n >= 0
    ensures refMap[a := n] - {a} == refMap - {a}
  {
  }

  /** The object a shared handle holds is alive, and no unique handle holds it. */
  lemma HeldByShared(m: Memory, h: Handle)
    requires CountsInv(m) && h in m.data && h.kind == Shared && m.data[h] != NULL
    ensures m.data[h] in m.refMap && m.data[h] in m.members && m.refMap[m.data[h]] > 0
  {
  }

  /** Destroying the handles `more` of an object just removed leads to `m`. */
  ghost predicate DeletingLeadsTo(w: Memory, more: seq<Handle>, pending: seq<Handle>, m: Memory) {
    Inv(w, more + pending) && Cascade(w, more) == m && m.refMap.Keys <= m.members.Keys
  }

  /** All that deleting the object of its last shared handle needs. */
  lemma LastSharedLetsGo(data: map<Handle, Address>, m: Memory, h: Handle, pending: seq<Handle>, busy: set<Handle>,
                         refMap': map<Address, nat>)
    requires m == StateOf(data, m.refMap, m.members, m.created, m.destroyed)
    requires Inv(m, pending) && Ready(data, m.members.Keys, pending, busy)
    requires h in data && h.kind == Shared && data[h] in m.refMap && m.refMap[data[h]] == 1
    requires refMap' == m.refMap[data[h] := m.refMap[data[h]] - 1]
    ensures var a := data[h];
            && a in m.members && Ready(data, m.members.Keys - {a}, m.members[a] + pending, busy)
            && DeletingLeadsTo(StateOf(data, refMap' - {a}, m.members - {a}, m.created, m.destroyed + [a]),
                               m.members[a], pending, AfterRelease(m, h))
  {
    var a := data[h];
    ErasedAtZero(m.refMap, a, m.refMap[a] - 1);
    RemovalEmptiesOne(data, m, h, m.refMap - {a});
    ReadyWithoutIt(data, m, h, pending, busy);
    ReleaseByDeleting(m, h, pending);
  }

  lemma FirstOfTheRest<T>(s: seq<T>, i: nat, after: seq<T>)
    requires i < |s|
    ensures s[i..] == [s[i]] + s[i + 1..]
    ensures s[i..] + after == [s[i]] + (s[i + 1..] + after)
  {
  }

  lemma CleanIsReady(data: map<Handle, Address>, m: Memory, work: seq<Handle>, busy: set<Handle>)
    requires Sound(m) && m.data == data
    ensures Ready(data, m.members.Keys, work, busy)
  {
  }

  /** After a release the Data fields are as the state says: nothing dangles. */
  lemma ReleaseEnds(m: Memory, h: Handle, m': Memory, data': map<Handle, Address>)
    requires Good(m) && Allowed(m, Let(h)) && m' == AfterRelease(m, h) && data'.Keys == m'.data.Keys
    requires forall g | g in data' && g != h :: g in m.data && data'[g] == m.data[g]
    requires h in data' ==> data'[h] == NULL
    ensures m' == Apply(m, Let(h)) && Good(m') && m'.data == data'
  {
    ReleaseKeeps(m, h);
  }

  lemma DestructionLeavesClean(m: Memory, h: Handle, data': map<Handle, Address>)
    requires Sound(m) && h in m.data && h.home == NULL && data'.Keys == Cascade(m, [h]).data.Keys
    requires forall g | g in data' :: g in m.data && data'[g] == m.data[g]
    ensures Cascade(m, [h]).data == data'
  {
    RootAsWork(m, h);
    var gone := CascadeRemoves(m, [h]);
  }

  lemma RootIsReady(m: Memory, h: Handle)
    requires Good(m) && Allowed(m, Destroy(h))
    ensures Inv(m, [h] + []) && Ready(m.data, m.members.Keys, [h] + [], {})
  {
    RootAsWork(m, h);
    assert [h] + [] == [h];
    CleanIsReady(m.data, m, [h], {});
  }

  lemma DestructionEnds(m: Memory, h: Handle, data': map<Handle, Address>)
    requires Good(m) && Allowed(m, Destroy(h)) && data'.Keys == Cascade(m, [h]).data.Keys
    requires forall g | g in data' :: g in m.data && data'[g] == m.data[g]
    ensures Good(Cascade(m, [h])) && Cascade(m, [h]).data == data' && Cascade(m, [h]) == Apply(m, Destroy(h))
  {
    OperationLeavesClean(m, Destroy(h));
    DestructionLeavesClean(m, h, data');
  }

  lemma SoundIsClean(m: Memory)
    requires Sound(m)
    ensures Cleaned(m.data, m.refMap, m.members) == m.data
  {
  }

  /** After an operation nothing dangles. */
  lemma OperationLeavesClean(m: Memory, op: Operation)
    requires Good(m) && Allowed(m, op)
    ensures var m' := Apply(m, op); Good(m') && Cleaned(m'.data, m'.refMap, m'.members) == m'.data
  {
    OperationKeeps(m, op);
    SoundIsClean(Apply(m, op));
  }

  lemma AcquireLeavesClean(m: Memory, h: Handle, a: Address)
    requires Good(m) && h in m.data && h.kind == Shared && m.data[h] == NULL && Free(m, Shared, a)
    ensures var m' := Acquire(m, h, a);
            Good(m') && Cleaned(m'.data, m'.refMap, m'.members) == m'.data == m.data[h := a]
  {
    AcquireKeeps(m, h, a);
    SoundIsClean(Acquire(m, h, a));
  }

  lemma AdoptUniqueIs(m: Memory, h: Handle, a: Address)
    requires Good(m) && Allowed(m, Adopt(h, a)) && h.kind == Unique
    ensures Apply(m, Adopt(h, a)) == m.(data := m.data[h := a])
  {
    var d := Declare(m, h);
    assert d.data[h := NULL] == d.data && Detach(d, h) == (d, []);
    assert AfterRelease(d, h) == d;
    assert m.data[h := NULL][h := a] == m.data[h := a];
  }

  lemma WeakConstructIs(m: Memory, h: Handle, src: Handle)
    requires Allowed(m, CopyConstruct(h, src)) && h.kind == Weak
    ensures Apply(m, CopyConstruct(h, src)) == m.(data := m.data[h := m.data[src]])
  {
    assert m.data[h := NULL][h := m.data[src]] == m.data[h := m.data[src]];
  }

  /** The state of a unique handle's source between giving up and being taken over from. */
  lemma GivenUpIsClean(m: Memory, src: Handle)
    requires Good(m) && src in m.data && src.kind == Unique
    ensures var m' := m.(data := m.data[src := NULL]);
            Good(m') && Free(m', Unique, m.data[src]) && Cleaned(m'.data, m'.refMap, m'.members) == m'.data
  {
    GivingUpKeeps(m, src);
    SoundIsClean(m.(data := m.data[src := NULL]));
  }

  lemma AcquireUniqueLeavesClean(m: Memory, h: Handle, a: Address, r: Memory)
    requires Good(m) && h in m.data && h.kind == Unique && m.data[h] != a && a != NULL
    requires r == AfterRelease(m, h) && h in r.data && Free(r, Unique, a)
    ensures var m' := r.(data := r.data[h := a]);
            Acquire(m, h, a) == m' && Good(m') && Cleaned(m'.data, m'.refMap, m'.members) == m'.data
  {
    ReleaseKeeps(m, h);
    AcquireKeeps(r, h, a);
    ReleasedTwice(m, h);
    SoundIsClean(Acquire(r, h, a));
  }

  /** What a unique move needs, step by step: `r` once the target is released, `r'` once the source has
      given its object up. */
  lemma UniqueMoveInSteps(m: Memory, h: Handle, src: Handle, r: Memory, r': Memory)
    requires Good(m) && Allowed(m, MoveAssign(h, src)) && h != src && h.kind == src.kind == Unique
    requires r == AfterRelease(m, h) && r' == r.(data := r.data[src := NULL])
    ensures h in r.data && src in r.data && r.data[h] == NULL && r'.data[h] == NULL && (m.data[h] == NULL ==> r == m)
    ensures AfterRelease(r', h) == r' && Apply(m, MoveAssign(h, src)) == Acquire(r', h, r.data[src])
    ensures Free(r', Unique, r.data[src])
  {
    EmptyIsReleased(m, h);
    ReleaseKeeps(m, h);
    GivingUpKeeps(r, src);
    if m.data[h] == NULL {
      EmptyStaysAsItIs(m, h);
    }
    EmptyStaysAsItIs(r', h);
  }

  lemma EmptyStaysAsItIs(m: Memory, h: Handle)
    requires h in m.data && m.data[h] == NULL
    ensures AfterRelease(m, h) == m
  {
    assert m.data[h := NULL] == m.data && Detach(m, h) == (m, []);
  }

  lemma UniqueResetIs(m: Memory, h: Handle, a: Address)
    requires Good(m) && Allowed(m, ResetTo(h, a)) && h.kind == Unique && m.data[h] != a
    ensures ReleaseIfValid(m, h) == AfterRelease(m, h)
    ensures Apply(m, ResetTo(h, a)) == if a == NULL then AfterRelease(m, h) else Acquire(m, h, a)
  {
    EmptyIsReleased(m, h);
    ReleaseKeeps(m, h);
    ReleasedTwice(m, h);
  }

  lemma UniqueResetFromIs(m: Memory, h: Handle, src: Handle)
    requires Good(m) && Allowed(m, UniqueResetFrom(h, src))
    ensures var m1 := m.(data := m.data[src := NULL]);
            && h in AfterRelease(m1, h).data
            && Apply(m, UniqueResetFrom(h, src))
               == (if m.data[src] == NULL then AfterRelease(m1, h) else Acquire(m1, h, m.data[src]))
            && (m.data[src] != NULL ==> m1.data[h] != m.data[src] && Free(AfterRelease(m1, h), Unique, m.data[src]))
  {
    var m1 := m.(data := m.data[src := NULL]);
    if m.data[src] == NULL {
      assert m.data[src := NULL] == m.data;
    } else {
      GivingUpKeeps(m, src);
      if h == src {
        ResetToItself(m, h, m1);
      }
      StaysFree(m1, h, m.data[src]);
    }
  }

  lemma ResetToItself(m: Memory, h: Handle, m1: Memory)
    requires Good(m) && h in m.data && h.kind == Unique && m.data[h] != NULL && m1 == m.(data := m.data[h := NULL])
    ensures AfterRelease(m1, h) == m1 && Acquire(m1, h, m.data[h]) == m
  {
    assert m1.data[h := NULL] == m1.data && Detach(m1, h) == (m1, []);
    assert m.data[h := NULL][h := m.data[h]] == m.data;
  }

  lemma SharedFromUniqueIs(m: Memory, h: Handle, src: Handle, d: Memory)
    requires Good(m) && Allowed(m, MoveConstruct(h, src)) && h.kind == Shared && src.kind == Unique
    requires d == Declare(m, h)
    ensures Apply(m, MoveConstruct(h, src)) == Acquire(d.(data := d.data[src := NULL]), h, d.data[src])
  {
  }

  /** A reset with a handle passed by value, after the passing. */
  lemma ResetFromIs(m: Memory, h: Handle, src: Handle, m': Memory)
    requires Good(m) && Allowed(m, ResetFrom(h, src)) && m' == WithParameter(m, src)
    ensures h != PARAMETER && h in m'.data && m'.data[h] == m.data[h]
    ensures PARAMETER in m'.data && m'.data[PARAMETER] == m.data[src]
    ensures Apply(m, ResetFrom(h, src))
            == Cascade(if m.data[h] == m.data[src] then m' else Acquire(ReleaseIfValid(m', h), h, m.data[src]),
                       [PARAMETER])
    ensures m.data[h] != m.data[src] ==>
              Survive(m', h, PARAMETER) && ReleaseIfValid(m', h).data[PARAMETER] == m.data[src]
  {
    WithParameterIs(m, src, m');
    ReleaseIfValidKeeps(m', h);
    if m.data[h] != m.data[src] {
      ResetFromNeedsItsTarget(m, h, src);
    }
  }

  lemma WithParameterIs(m: Memory, src: Handle, m': Memory)
    requires Good(m) && src in m.data && src.kind == Shared && PARAMETER !in m.data && m' == WithParameter(m, src)
    ensures Good(m') && m'.data == m.data[PARAMETER := m.data[src]]
  {
    WithParameterKeeps(m, src);
    ParameterData(m, src);
  }

  lemma ParameterData(m: Memory, src: Handle)
    requires src in m.data && PARAMETER !in m.data
    ensures WithParameter(m, src).data == m.data[PARAMETER := m.data[src]]
  {
  }

  class HandleRuntime {
    var refMap: map<Address, nat>
    var data: map<Handle, Address>
    var members: map<Address, seq<Handle>>
    ghost var created: seq<Address>
    ghost var destroyed: seq<Address>

    ghost function State(): Memory
      reads this
    {
      StateOf(data, refMap, members, created, destroyed)
    }

    /** Between operations no handle dangles. */
    ghost predicate Valid()
      reads this
    {
      Good(State()) && State().data == data
    }

    /** The state once the object at `a` is no longer alive. */
    ghost function Without(a: Address): Memory
      reads this
    {
      StateOf(data, refMap, members - {a}, created, destroyed + [a])
    }

    predicate Holds(h: Handle)
      requires h in data
      reads this
    {
      match h.kind
      case Unique => data[h] != NULL
      case Shared => data[h] != NULL && data[h] in refMap
      case Weak => data[h] != NULL && data[h] in refMap && refMap[data[h]] > 0
    }

    /** `harz_delete`: run the destructors of the object's handles, one after the other. */
    method Delete(a: Address, ghost pending: seq<Handle>, ghost busy: set<Handle>)
      requires a in members && Inv(Without(a), members[a] + pending)
      requires Ready(data, members.Keys - {a}, members[a] + pending, busy)
      requires busy <= Cascade(Without(a), members[a]).data.Keys
      modifies this
      ensures State() == Cascade(old(Without(a)), old(members[a]))
      ensures Ready(data, members.Keys, pending, busy)
      ensures forall g | g in data :: g in old(data) && data[g] == old(data[g])
      ensures members.Keys <= old(members.Keys) - {a}
      decreases members.Keys, 0
    {
      var handles := members[a];
      members := members - {a};
      destroyed := destroyed + [a];
      ghost var start := State();
      ghost var live := members.Keys;
      for i := 0 to |handles|
        invariant Cascade(State(), handles[i..]) == Cascade(start, handles)
        invariant Inv(State(), handles[i..] + pending) && busy <= Cascade(start, handles).data.Keys
        invariant Ready(data, members.Keys, handles[i..] + pending, busy)
        invariant forall g | g in data :: g in old(data) && data[g] == old(data[g])
        invariant members.Keys <= live
      {
        FirstOfTheRest(handles, i, pending);
        CascadeSplits(State(), [handles[i]], handles[i + 1..]);
        CascadeKeepsInv(State(), [handles[i]], handles[i + 1..] + pending);
        OutlastsTheFirst(State(), handles[i], handles[i + 1..]);
        DestroyHandle(handles[i], handles[i + 1..] + pending, busy);
      }
      assert handles[|handles|..] == [] && [] + pending == pending;
    }

    /** A handle's destructor: it releases what it holds, and is gone. */
    method DestroyHandle(h: Handle, ghost pending: seq<Handle>, ghost busy: set<Handle>)
      requires Inv(State(), [h] + pending) && Ready(data, members.Keys, [h] + pending, busy)
      requires busy <= Cascade(State(), [h]).data.Keys
      modifies this
      ensures State() == Cascade(old(State()), [h])
      ensures Ready(data, members.Keys, pending, busy)
      ensures forall g | g in data :: g in old(data) && data[g] == old(data[g])
      ensures members.Keys <= old(members.Keys)
      decreases members.Keys, 6
    {
      DestroyedHandleLasts(State(), h, pending);
      DestroyedHandleIsNotBusy(State(), h, pending, busy);
      ReleaseAtTheEnd(h, [h] + pending, busy);
      DroppingAHandle(data, State(), h, pending, busy);
      data := data - {h};
    }

    /** What a destructor releases. */
    method ReleaseAtTheEnd(h: Handle, ghost pending: seq<Handle>, ghost busy: set<Handle>)
      requires h in data && h in pending && h !in busy && Inv(State(), pending)
      requires Ready(data, members.Keys, pending, busy) && busy + {h} <= AfterRelease(State(), h).data.Keys
      modifies this
      ensures Removed(State(), h) == Removed(AfterRelease(old(State()), h), h)
      ensures Ready(data, members.Keys, pending, busy + {h})
      ensures h in data && forall g | g in data && g != h :: g in old(data) && data[g] == old(data[g])
      ensures members.Keys <= old(members.Keys)
      decreases members.Keys, 5
    {
      if h.kind == Shared && Holds(h) {
        ReleaseShared(h, pending, busy);
      } else if h.kind == Unique && Holds(h) {
        ReleaseUnique(h, pending, busy + {h});
      } else {
        NothingToRelease(data, State(), h);
      }
    }

    /** Deleting what a handle was the last to hold, which leads to `m`, and clearing the handle after that. */
    method DeleteHeld(h: Handle, ghost m: Memory, ghost pending: seq<Handle>, ghost busy: set<Handle>)
      requires h in data && h.kind != Weak && h in m.data && data[h] in members
      requires DeletingLeadsTo(Without(data[h]), members[data[h]], pending, m)
      requires Ready(data, members.Keys - {data[h]}, members[data[h]] + pending, busy) && busy <= m.data.Keys
      modifies this
      ensures State() == m
      ensures Ready(data, members.Keys, pending, busy)
      ensures h in data && data[h] == NULL
      ensures forall g | g in data && g != h :: g in old(data) && data[g] == old(data[g])
      ensures members.Keys <= old(members.Keys)
      decreases members.Keys, 1
    {
      Delete(data[h], pending, busy);
      ClearDangling(h, m, pending, busy);
    }

    /** Clearing a handle whose object is gone. */
    method ClearDangling(h: Handle, ghost m: Memory, ghost pending: seq<Handle>, ghost busy: set<Handle>)
      requires State() == m && h in data && data[h] !in m.members && m.refMap.Keys <= m.members.Keys
      requires h.kind != Weak && Ready(data, members.Keys, pending, busy)
      modifies `data
      ensures State() == m && Ready(data, members.Keys, pending, busy)
      ensures data == old(data)[h := NULL]
    {
      ClearingADanglingHandle(data, m, h, pending, busy);
      data := data[h := NULL];
    }

    /** Clearing a handle whose release destroys nothing. */
    method ClearHandle(h: Handle, ghost m: Memory, ghost pending: seq<Handle>, ghost busy: set<Handle>)
      requires h in data && h in m.data && h.kind != Weak && Inv(m, pending) && members == m.members
      requires StateOf(data[h := NULL], refMap, members, created, destroyed) == LetGoOf(m, h) && Detach(m, h).1 == []
      requires Ready(data, members.Keys, pending, busy)
      modifies `data
      ensures State() == AfterRelease(m, h)
      ensures Ready(data, members.Keys, pending, busy)
      ensures data == old(data)[h := NULL]
    {
      NothingToDelete(m, h, pending);
      data := data[h := NULL];
    }

    /** The last shared handle of an object erases its count and deletes the object, which leads to `m`. */
    method EraseLast(h: Handle, ghost m: Memory, ghost pending: seq<Handle>, ghost busy: set<Handle>)
      requires h in data && h.kind == Shared && h in m.data && data[h] in members
      requires DeletingLeadsTo(StateOf(data, refMap - {data[h]}, members - {data[h]}, created, destroyed + [data[h]]),
                               members[data[h]], pending, m)
      requires busy <= m.data.Keys
      requires Ready(data, members.Keys - {data[h]}, members[data[h]] + pending, busy)
      modifies this
      ensures State() == m
      ensures Ready(data, members.Keys, pending, busy)
      ensures h in data && data[h] == NULL
      ensures forall g | g in data && g != h :: g in old(data) && data[g] == old(data[g])
      ensures members.Keys <= old(members.Keys)
      decreases members.Keys, 2
    {
      refMap := refMap - {data[h]};
      DeleteHeld(h, m, pending, busy);
    }

    /** Counting a shared handle down that is not the last one. */
    method CountDown(h: Handle, ghost pending: seq<Handle>, ghost busy: set<Handle>)
      requires h in data && h.kind == Shared && data[h] != NULL && data[h] in refMap && refMap[data[h]] > 1
      requires Inv(State(), pending) && Ready(data, members.Keys, pending, busy)
      requires busy + {h} <= AfterRelease(State(), h).data.Keys
      modifies this
      ensures State() == AfterRelease(old(State()), h)
      ensures Ready(data, members.Keys, pending, busy)
      ensures h in data && data[h] == NULL
      ensures forall g | g in data && g != h :: g in old(data) && data[g] == old(data[g])
      ensures members.Keys <= old(members.Keys)
      decreases members.Keys, 3
    {
      ghost var m := State();
      DecrementLetsGo(data, m, h, refMap[data[h] := refMap[data[h]] - 1]);
      refMap := refMap[data[h] := refMap[data[h]] - 1];
      ClearHandle(h, m, pending, busy);
    }

    /** Counting the last one down to zero, which deletes the object. */
    method CountToZero(h: Handle, ghost pending: seq<Handle>, ghost busy: set<Handle>)
      requires h in data && h.kind == Shared && data[h] != NULL && data[h] in refMap && refMap[data[h]] == 1
      requires Inv(State(), pending) && Ready(data, members.Keys, pending, busy)
      requires busy + {h} <= AfterRelease(State(), h).data.Keys
      modifies this
      ensures State() == AfterRelease(old(State()), h)
      ensures Ready(data, members.Keys, pending, busy)
      ensures h in data && data[h] == NULL
      ensures forall g | g in data && g != h :: g in old(data) && data[g] == old(data[g])
      ensures members.Keys <= old(members.Keys)
      decreases members.Keys, 3
    {
      ghost var m := State();
      LastSharedLetsGo(data, m, h, pending, busy, refMap[data[h] := refMap[data[h]] - 1]);
      refMap := refMap[data[h] := refMap[data[h]] - 1];
      EraseLast(h, AfterRelease(m, h), pending, busy);
    }

    /** `ReleaseResourseChecked` of a shared handle. */
    method ReleaseShared(h: Handle, ghost pending: seq<Handle>, ghost busy: set<Handle>)
      requires h in data && h.kind == Shared
      requires Inv(State(), pending) && Ready(data, members.Keys, pending, busy)
      requires busy + {h} <= AfterRelease(State(), h).data.Keys
      modifies this
      ensures State() == AfterRelease(old(State()), h)
      ensures Ready(data, members.Keys, pending, busy)
      ensures h in data && data[h] == NULL
      ensures forall g | g in data && g != h :: g in old(data) && data[g] == old(data[g])
      ensures members.Keys <= old(members.Keys)
      decreases members.Keys, 4
    {
      if data[h] != NULL && data[h] in refMap {
        HeldByShared(State(), h);
        if refMap[data[h]] - 1 < 1 {
          CountToZero(h, pending, busy);
        } else {
          CountDown(h, pending, busy);
        }
      } else {
        EmptyLetsGo(data, State(), h);
        ClearHandle(h, State(), pending, busy);
      }
    }

    /** `ReleaseResourseChecked` of a unique handle. */
    method ReleaseUnique(h: Handle, ghost pending: seq<Handle>, ghost busy: set<Handle>)
      requires h in data && h.kind == Unique && h in busy
      requires Inv(State(), pending) && Ready(data, members.Keys, pending, busy)
      requires data[h] == NULL || data[h] in members
      requires busy + {h} <= AfterRelease(State(), h).data.Keys
      modifies this
      ensures State() == AfterRelease(old(State()), h)
      ensures Ready(data, members.Keys, pending, busy)
      ensures h in data && data[h] == NULL
      ensures forall g | g in data && g != h :: g in old(data) && data[g] == old(data[g])
      ensures members.Keys <= old(members.Keys)
      decreases members.Keys, 3
    {
      var a := data[h];
      ghost var m := State();
      if a != NULL {
        RemovalEmptiesOne(data, m, h, refMap);
        ReadyWithoutIt(data, m, h, pending, busy);
        ReleaseByDeleting(m, h, pending);
        assert DeletingLeadsTo(Without(a), members[a], pending, AfterRelease(m, h));
        DeleteHeld(h, AfterRelease(m, h), pending, busy);
      } else {
        EmptyLetsGo(data, m, h);
        ClearHandle(h, m, pending, busy);
      }
    }

    // ---- The methods of the handle classes ---------------------------------------------------------

    /** Data of one handle changes, which leads to `m'`. */
    method SetData(h: Handle, a: Address, ghost m': Memory)
      requires Good(m') && m' == Memory(refMap, data[h := a], members, created, destroyed)
      modifies `data
      ensures Valid() && State() == m' && data == old(data)[h := a]
    {
      SoundIsClean(m');
      data := data[h := a];
    }

    constructor ()
      ensures Valid() && State() == EMPTY_MEMORY
    {
      refMap, data, members := map[], map[], map[];
      created, destroyed := [], [];
    }

    /** `harz_new` */
    method Create(a: Address, kinds: seq<Kind>)
      requires Valid() && Allowed(State(), New(a, kinds))
      modifies this
      ensures Valid() && State() == Apply(old(State()), New(a, kinds))
    {
      OperationLeavesClean(State(), New(a, kinds));
      var handles := MemberHandles(a, kinds);
      data := data + map h | h in handles :: NULL;
      members := members[a := handles];
      created := created + [a];
    }

    /** A new handle on the stack. */
    method DeclareRoot(h: Handle)
      requires Valid() && h !in data && h.home == NULL
      modifies `data
      ensures Valid() && State() == Declare(old(State()), h)
      ensures data == old(data)[h := NULL]
    {
      DeclareKeeps(State(), h);
      SetData(h, NULL, Declare(State(), h));
    }

    /** A handle's default constructor. */
    method DefaultConstruct(h: Handle)
      requires Valid() && Allowed(State(), Default(h))
      modifies `data
      ensures Valid() && State() == Apply(old(State()), Default(h))
      ensures data == old(data)[h := NULL]
    {
      DeclareRoot(h);
    }

    /** `AcquireDataToHandle` of a shared handle. */
    method AcquireShared(h: Handle, a: Address)
      requires Valid() && h in data && h.kind == Shared && data[h] == NULL && Free(State(), Shared, a)
      modifies `refMap, `data
      ensures Valid() && State() == Acquire(old(State()), h, a)
      ensures data == old(data)[h := a]
    {
      ghost var m' := Acquire(State(), h, a);
      AcquireLeavesClean(State(), h, a);
      if a == NULL || data[h] == a {
        return;
      }
      refMap := refMap[a := if a in refMap then refMap[a] + 1 else 1];
      SetData(h, a, m');
    }

    /** `Release` of a shared handle. */
    method SharedRelease(h: Handle)
      requires Valid() && Allowed(State(), Let(h)) && h.kind == Shared
      modifies this
      ensures Valid() && State() == Apply(old(State()), Let(h))
    {
      ghost var m := State();
      CleanIsReady(data, m, [], {});
      ReleaseShared(h, [], {});
      ReleaseEnds(m, h, State(), data);
    }

    /** What assignments and resets start with. */
    method ReleaseIfHeld(h: Handle)
      requires Valid() && h in data && h.kind == Shared && h in ReleaseIfValid(State(), h).data
      modifies this
      ensures Valid() && State() == ReleaseIfValid(old(State()), h)
      ensures h in data && data[h] == NULL
      ensures forall g | g in old(data) && g.home == NULL :: g in data
      ensures forall g | g in data && g != h :: g in old(data) && data[g] == old(data[g])
    {
      ReleaseIfValidKeeps(State(), h);
      if Holds(h) {
        SharedRelease(h);
      }
    }

    /** `Release` of a unique handle. */
    method UniqueRelease(h: Handle)
      requires Valid() && Allowed(State(), Let(h)) && h.kind == Unique
      modifies this
      ensures Valid() && State() == Apply(old(State()), Let(h))
    {
      ghost var m := State();
      CleanIsReady(data, m, [], {h});
      ReleaseUnique(h, [], {h});
      ReleaseEnds(m, h, State(), data);
    }

    /** The destructor of a handle on the stack. */
    method Destruct(h: Handle)
      requires Valid() && Allowed(State(), Destroy(h))
      modifies this
      ensures Valid() && State() == Apply(old(State()), Destroy(h))
    {
      ghost var m := State();
      RootIsReady(m, h);
      DestroyHandle(h, [], {});
      DestructionEnds(m, h, data);
    }

    /** The constructor from a raw pointer. */
    method SharedFromPointer(h: Handle, a: Address)
      requires Valid() && Allowed(State(), Adopt(h, a)) && h.kind == Shared
      modifies `refMap, `data
      ensures Valid() && State() == Apply(old(State()), Adopt(h, a))
    {
      DefaultConstruct(h);
      AcquireShared(h, a);
    }

    method UniqueFromPointer(h: Handle, a: Address)
      requires Valid() && Allowed(State(), Adopt(h, a)) && h.kind == Unique
      modifies `data
      ensures Valid() && State() == Apply(old(State()), Adopt(h, a))
    {
      OperationLeavesClean(State(), Adopt(h, a));
      AdoptUniqueIs(State(), h, a);
      SetData(h, a, Apply(State(), Adopt(h, a)));
    }

    /** The copy constructor. */
    method SharedCopyConstruct(h: Handle, src: Handle)
      requires Valid() && Allowed(State(), CopyConstruct(h, src)) && h.kind == Shared
      modifies `refMap, `data
      ensures Valid() && State() == Apply(old(State()), CopyConstruct(h, src))
    {
      DefaultConstruct(h);
      SharedIsFree(State(), src);
      AcquireShared(h, data[src]);
    }

    method WeakConstruct(h: Handle, src: Handle)
      requires Valid() && Allowed(State(), CopyConstruct(h, src)) && h.kind == Weak
      modifies `data
      ensures Valid() && State() == Apply(old(State()), CopyConstruct(h, src))
    {
      OperationLeavesClean(State(), CopyConstruct(h, src));
      WeakConstructIs(State(), h, src);
      SetData(h, data[src], Apply(State(), CopyConstruct(h, src)));
    }

    /** The move constructor: share first, then release the source. */
    method SharedMoveConstruct(h: Handle, src: Handle)
      requires Valid() && Allowed(State(), MoveConstruct(h, src)) && h.kind == src.kind == Shared
      modifies this
      ensures Valid() && State() == Apply(old(State()), MoveConstruct(h, src))
    {
      MovesKeepTheirSource(State(), h, src);
      DefaultConstruct(h);
      SharedIsFree(State(), src);
      AcquireShared(h, data[src]);
      SharedRelease(src);
    }

    /** `RetrieveResourse`: the unique handle gives its object up. */
    method RetrieveResource(src: Handle) returns (a: Address)
      requires Valid() && src in data && src.kind == Unique
      modifies `data
      ensures Valid() && a == old(data)[src] && data == old(data)[src := NULL]
      ensures State() == old(State()).(data := old(data)[src := NULL])
      ensures Free(State(), Unique, a) && Free(State(), Shared, a)
    {
      GivenUpIsClean(State(), src);
      a := data[src];
      SetData(src, NULL, State().(data := data[src := NULL]));
    }

    /** `AcquireDataToHandle` of a unique handle, which releases first. */
    method AcquireUnique(h: Handle, a: Address)
      requires Valid() && h in data && h.kind == Unique && data[h] != a && a != NULL
      requires h in AfterRelease(State(), h).data && Free(AfterRelease(State(), h), Unique, a)
      modifies this
      ensures Valid() && State() == Acquire(old(State()), h, a)
    {
      ghost var r := AfterRelease(State(), h);
      ghost var m' := r.(data := r.data[h := a]);
      AcquireUniqueLeavesClean(State(), h, a, r);
      UniqueRelease(h);
      SetData(h, a, m');
    }

    /** The same for a handle that is empty already. */
    method AcquireIntoEmpty(h: Handle, a: Address)
      requires Valid() && h in data && h.kind == Unique && data[h] == NULL && Free(State(), Unique, a)
      requires AfterRelease(State(), h) == State()
      modifies this
      ensures Valid() && State() == Acquire(old(State()), h, a)
    {
      if a == NULL {
        return;
      }
      AcquireUnique(h, a);
    }

    /** Move assignment of unique handles. */
    method UniqueMoveAssign(h: Handle, src: Handle)
      requires Valid() && Allowed(State(), MoveAssign(h, src)) && h.kind == Unique
      modifies this
      ensures Valid() && State() == Apply(old(State()), MoveAssign(h, src))
    {
      if h != src {
        ghost var m := State();
        ghost var r := AfterRelease(m, h);
        UniqueMoveInSteps(m, h, src, r, r.(data := r.data[src := NULL]));
        if data[h] != NULL {
          UniqueRelease(h);
        }
        assert State() == r;
        var a := RetrieveResource(src);
        AcquireIntoEmpty(h, a);
      }
    }

    /** `Reset` of a unique handle with a raw pointer. */
    method UniqueReset(h: Handle, a: Address)
      requires Valid() && Allowed(State(), ResetTo(h, a)) && h.kind == Unique
      modifies this
      ensures Valid() && State() == Apply(old(State()), ResetTo(h, a))
    {
      if data[h] == a {
        return;
      }
      UniqueResetIs(State(), h, a);
      if a == NULL {
        UniqueRelease(h);
        return;
      }
      AcquireUnique(h, a);
    }

    /** `Reset` with a unique handle: passing it by value takes its object. */
    method UniqueResetWith(h: Handle, src: Handle)
      requires Valid() && Allowed(State(), UniqueResetFrom(h, src))
      modifies this
      ensures Valid() && State() == Apply(old(State()), UniqueResetFrom(h, src))
    {
      UniqueResetFromIs(State(), h, src);
      var parameter := RetrieveResource(src);
      if parameter == NULL {
        UniqueRelease(h);
        return;
      }
      AcquireUnique(h, parameter);
    }

    /** Assignment of a weak handle, and its `Reset`. */
    method WeakSet(h: Handle, src: Handle)
      requires Valid() && Allowed(State(), WeakAssign(h, src))
      modifies `data
      ensures Valid() && State() == Apply(old(State()), WeakAssign(h, src))
    {
      OperationLeavesClean(State(), WeakAssign(h, src));
      SetData(h, data[src], Apply(State(), WeakAssign(h, src)));
    }

    /** A shared handle takes over from a unique one, which gives the object up first. */
    method SharedFromUnique(h: Handle, src: Handle)
      requires Valid() && Allowed(State(), MoveConstruct(h, src)) && h.kind == Shared && src.kind == Unique
      modifies `refMap, `data
      ensures Valid() && State() == Apply(old(State()), MoveConstruct(h, src))
    {
      SharedFromUniqueIs(State(), h, src, Declare(State(), h));
      DefaultConstruct(h);
      ShareFrom(h, src);
    }

    /** An empty shared handle takes over from a unique one. */
    method ShareFrom(h: Handle, src: Handle)
      requires Valid() && h in data && src in data && h.kind == Shared && src.kind == Unique && data[h] == NULL
      modifies `refMap, `data
      ensures Valid()
      ensures State() == Acquire(old(State()).(data := old(data)[src := NULL]), h, old(data)[src])
    {
      var a := RetrieveResource(src);
      AcquireShared(h, a);
    }

    /** Copy assignment. */
    method SharedCopyAssign(h: Handle, src: Handle)
      requires Valid() && Allowed(State(), CopyAssign(h, src))
      modifies this
      ensures Valid() && State() == Apply(old(State()), CopyAssign(h, src))
    {
      if h != src {
        ReplaceBy(h, src);
      }
    }

    /** `Reset` with a raw pointer. */
    method SharedReset(h: Handle, a: Address)
      requires Valid() && Allowed(State(), ResetTo(h, a)) && h.kind == Shared
      modifies this
      ensures Valid() && State() == Apply(old(State()), ResetTo(h, a))
    {
      if data[h] == a {
        return;
      }
      ReleaseIfHeld(h);
      AcquireShared(h, a);
    }

    /** Move assignment: release, share, then release the source. */
    method SharedMoveAssign(h: Handle, src: Handle)
      requires Valid() && Allowed(State(), MoveAssign(h, src)) && h.kind == Shared
      modifies this
      ensures Valid() && State() == Apply(old(State()), MoveAssign(h, src))
    {
      MovesKeepTheirSource(State(), h, src);
      if h != src {
        ReplaceBy(h, src);
        SharedRelease(src);
      }
    }

    /** A shared handle passed by value is a copy of its own, destroyed when the call ends. */
    method PassByValue(src: Handle)
      requires Valid() && src in data && src.kind == Shared && PARAMETER !in data
      modifies `refMap, `data
      ensures Valid() && State() == WithParameter(old(State()), src)
      ensures PARAMETER in data && data[PARAMETER] == old(data)[src]
      ensures forall g | g in data && g != PARAMETER :: g in old(data) && data[g] == old(data)[g]
    {
      DeclareRoot(PARAMETER);
      SharedIsFree(State(), src);
      AcquireShared(PARAMETER, data[src]);
    }

    /** Release and share what `src` holds, as assignments and resets do. */
    method ReplaceBy(h: Handle, src: Handle)
      requires Valid() && h in data && src in data && h != src && h.kind == src.kind == Shared
      requires Survive(State(), h, src)
      modifies this
      ensures Valid()
      ensures State() == Acquire(ReleaseIfValid(old(State()), h), h, ReleaseIfValid(old(State()), h).data[src])
      ensures data[h] == old(data)[src] && forall g | g in old(data) && g.home == NULL :: g in data
      ensures forall g | g in data && g != h :: g in old(data) && data[g] == old(data)[g]
    {
      ReleaseIfHeld(h);
      SharedIsFree(State(), src);
      AcquireShared(h, data[src]);
    }

    /** `Reset` with a shared handle. */
    method SharedResetFrom(h: Handle, src: Handle)
      requires Valid() && Allowed(State(), ResetFrom(h, src))
      modifies this
      ensures Valid() && State() == Apply(old(State()), ResetFrom(h, src))
    {
      ghost var m := State();
      ghost var m' := WithParameter(m, src);
      ResetFromIs(m, h, src, m');
      PassByValue(src);
      if data[h] != data[PARAMETER] {
        ReplaceBy(h, PARAMETER);
      }
      Destruct(PARAMETER);
    }
  }
}
