/** The operations on handles, any sequence of which keeps RefMap equal to the number of shared handles
    and destroys every object exactly once, at its last release. */
module HandleOperations {
  import opened Handles

  // ---- The operations ----------------------------------------------------------------------------

  function Data(m: Memory, h: Handle): Address {
    if h in m.data then m.data[h] else NULL
  }

  /** `IsValid` */
  predicate IsValid(m: Memory, h: Handle) {
    var a := Data(m, h);
    match h.kind
    case Unique => a != NULL
    case Shared => a != NULL && a in m.refMap
    case Weak => a != NULL && a in m.refMap && m.refMap[a] > 0
  }

  function ReleaseIfValid(m: Memory, h: Handle): Memory {
    if IsValid(m, h) then AfterRelease(m, h) else m
  }

  /** `AcquireDataToHandle` */
  function Acquire(m: Memory, h: Handle, a: Address): Memory {
    if a == NULL || Data(m, h) == a then m
    else match h.kind
      case Shared =>
        m.(refMap := m.refMap[a := if a in m.refMap then m.refMap[a] + 1 else 1], data := m.data[h := a])
      case Unique => var m' := AfterRelease(m, h); m'.(data := m'.data[h := a])
      case Weak => m.(data := m.data[h := a])
  }

  /** A new handle holding nothing. */
  function Declare(m: Memory, h: Handle): Memory {
    m.(data := m.data[h := NULL])
  }

  /** `harz_new`: an object whose member handles hold nothing yet. */
  function NewObject(m: Memory, a: Address, kinds: seq<Kind>): Memory {
    var handles := MemberHandles(a, kinds);
    Memory(m.refMap,
           m.data + map h | h in handles :: NULL,
           m.members[a := handles],
           m.created + [a],
           m.destroyed)
  }

  function MemberHandles(a: Address, kinds: seq<Kind>): (handles: seq<Handle>)
    ensures |handles| == |kinds|
  {
    seq(|kinds|, i requires 0 <= i < |kinds| => Handle(a, i, kinds[i]))
  }

  /** The pointer moves on: a unique source gives it up first, a shared one is released afterwards. */
  function MoveOver(m: Memory, h: Handle, src: Handle): Memory {
    if src.kind == Unique
    then Acquire(m.(data := m.data[src := NULL]), h, Data(m, src))
    else AfterRelease(Acquire(m, h, Data(m, src)), src)
  }

  /** Where a shared handle passed by value lives. */
  const PARAMETER := Handle(NULL, 0, Shared)

  function WithParameter(m: Memory, src: Handle): Memory {
    Acquire(Declare(m, PARAMETER), PARAMETER, Data(m, src))
  }

  datatype Operation =
    | New(a: Address, kinds: seq<Kind>)
    | Default(h: Handle)
    | Adopt(h: Handle, a: Address)            // construct from a raw pointer
    | CopyConstruct(h: Handle, src: Handle)
    | MoveConstruct(h: Handle, src: Handle)   // also a shared handle from a unique one
    | CopyAssign(h: Handle, src: Handle)
    | MoveAssign(h: Handle, src: Handle)
    | ResetTo(h: Handle, a: Address)          // Reset with a raw pointer
    | ResetFrom(h: Handle, src: Handle)       // Reset with a shared handle, passed by value
    | UniqueResetFrom(h: Handle, src: Handle) // Reset with a unique handle, passed by value
    | WeakAssign(h: Handle, src: Handle)      // from a weak or a shared handle; also Reset
    | Retrieve(h: Handle)                     // RetrieveResourse: the caller gets the object
    | Let(h: Handle)                          // Release
    | Destroy(h: Handle)                      // the destructor of a root handle

  function Apply(m: Memory, op: Operation): Memory {
    match op
    case New(a, kinds) => NewObject(m, a, kinds)
    case Default(h) => Declare(m, h)
    case Adopt(h, a) => Acquire(Declare(m, h), h, a)
    case CopyConstruct(h, src) => Acquire(Declare(m, h), h, Data(m, src))
    case MoveConstruct(h, src) => MoveOver(Declare(m, h), h, src)
    case CopyAssign(h, src) =>
      if h == src then m else var m' := ReleaseIfValid(m, h); Acquire(m', h, Data(m', src))
    case MoveAssign(h, src) =>
      if h == src then m else MoveOver(ReleaseIfValid(m, h), h, src)
    case ResetTo(h, a) =>
      if Data(m, h) == a then m else Acquire(ReleaseIfValid(m, h), h, a)
    case ResetFrom(h, src) =>
      var m' := WithParameter(m, src);
      Cascade(if Data(m, h) == Data(m, src) then m' else Acquire(ReleaseIfValid(m', h), h, Data(m, src)), [PARAMETER])
    case UniqueResetFrom(h, src) =>
      if Data(m, src) == NULL then AfterRelease(m, h) else if h == src then m else MoveOver(m, h, src)
    case WeakAssign(h, src) => m.(data := m.data[h := Data(m, src)])
    case Retrieve(h) => m.(data := m.data[h := NULL])
    case Let(h) => AfterRelease(m, h)
    case Destroy(h) => Cascade(m, [h])
  }

  // ---- What the source demands of its callers ------------------------------------------------------

  predicate NewRoot(m: Memory, h: Handle) {
    h !in m.data && h.home == NULL && h != PARAMETER
  }

  /** What may be held by a handle of this kind: a live object that no unique handle owns, and for a
      unique handle one that no shared handle owns either. */
  predicate Free(m: Memory, kind: Kind, a: Address) {
    || a == NULL
    || (&& a in m.members
        && (forall h | h in m.data && h.kind == Unique :: m.data[h] != a)
        && (kind == Unique ==> a !in m.refMap))
  }

  /** An assignment reads its source, and writes its target, after it released what the target held:
      neither may have been destroyed by that release. */
  predicate Survive(m: Memory, h: Handle, src: Handle) {
    h in ReleaseIfValid(m, h).data && src in ReleaseIfValid(m, h).data
  }

  predicate Allowed(m: Memory, op: Operation) {
    match op
    case New(a, kinds) => a != NULL && a !in m.members
    case Default(h) => NewRoot(m, h)
    case Adopt(h, a) => NewRoot(m, h) && h.kind != Weak && Free(m, h.kind, a)
    case CopyConstruct(h, src) =>
      && NewRoot(m, h) && src in m.data
      && ((h.kind == Weak && src.kind != Unique) || (h.kind == Shared && src.kind == Shared))
    case MoveConstruct(h, src) =>
      && NewRoot(m, h) && src in m.data
      && ((h.kind == Shared && src.kind != Weak) || (h.kind == Unique && src.kind == Unique))
    case CopyAssign(h, src) =>
      h in m.data && src in m.data && h.kind == src.kind == Shared && (h != src ==> Survive(m, h, src))
    case MoveAssign(h, src) =>
      h in m.data && src in m.data && h.kind == src.kind != Weak && (h != src ==> Survive(m, h, src))
    case ResetTo(h, a) =>
      && h in m.data && h.kind != Weak
      && (m.data[h] != a ==> Survive(m, h, h) && Free(ReleaseIfValid(m, h), h.kind, a))
    case ResetFrom(h, src) =>
      && h in m.data && src in m.data && h.kind == src.kind == Shared && PARAMETER !in m.data
      && (m.data[h] != m.data[src] ==> Survive(WithParameter(m, src), h, h))
    case UniqueResetFrom(h, src) =>
      && h in m.data && src in m.data && h.kind == src.kind == Unique
      && (m.data[h] != NULL || m.data[src] != NULL)   // the source reports two empty handles as an error
      && (h != src || m.data[src] == NULL ==> h in AfterRelease(m.(data := m.data[src := NULL]), h).data)
    case WeakAssign(h, src) => h in m.data && src in m.data && h.kind == Weak && src.kind != Unique
    case Retrieve(h) => h in m.data && h.kind == Unique
    case Let(h) => h in m.data && h.kind != Weak && h in AfterRelease(m, h).data
    case Destroy(h) => h in m.data && h.home == NULL
  }

  // ---- Each operation keeps the invariant ----------------------------------------------------------

  /** Nothing is pending: every handle is a root or a member of a live object. */
  ghost predicate Sound(m: Memory) {
    Inv(m, [])
  }

  /** The state between letting go of the pointer and destroying what was lost. */
  function LetGoOf(m: Memory, h: Handle): Memory {
    Detach(m, h).0.(data := m.data[h := NULL])
  }

  lemma LetGoKeepsPlaces(m: Memory, h: Handle, pending: seq<Handle>)
    requires PlacesInv(m, pending) && h in m.data
    ensures PlacesInv(LetGoOf(m, h), Detach(m, h).1 + pending)
  {
    DetachParts(m, h);
    var more := Detach(m, h).1;
    assert forall g | g in more :: g.home in m.members;
    DistinctJoin(more, pending);
  }

  lemma LetGoKeepsInv(m: Memory, h: Handle, pending: seq<Handle>)
    requires Inv(m, pending) && h in m.data
    ensures Inv(LetGoOf(m, h), Detach(m, h).1 + pending)
  {
    DetachKeepsCounts(m, h, m.data[h := NULL]);
    DetachKeepsUnique(m, h, m.data[h := NULL]);
    LetGoKeepsPlaces(m, h, pending);
  }

  lemma ReleaseIsACascade(m: Memory, h: Handle)
    ensures AfterRelease(m, h) == Cascade(LetGoOf(m, h), Detach(m, h).1)
  {
  }

  /** What a release does to the handles: it clears one, and the members of the objects gone go too. */
  ghost predicate ReleasesHandles(m: Memory, h: Handle, m': Memory, gone: seq<Address>) {
    && (forall g :: g in m'.data <==> g in m.data && g.home !in gone)
    && (forall g | g in m'.data :: m'.data[g] == if g == h then NULL else m.data[g])
  }

  lemma ReleaseKeepsSound(m: Memory, h: Handle)
    requires Sound(m) && h in m.data
    ensures Sound(AfterRelease(m, h))
  {
    LetGoKeepsInv(m, h, []);
    ReleaseIsACascade(m, h);
    CascadeKeepsInv(LetGoOf(m, h), Detach(m, h).1, []);
  }

  lemma ReleaseKeepsOwners(m: Memory, h: Handle)
    requires Sound(m) && h in m.data
    ensures KeepsOwners(m, AfterRelease(m, h))
  {
    var d := LetGoOf(m, h);
    LetGoKeepsInv(m, h, []);
    assert Detach(m, h).1 + [] == Detach(m, h).1;
    ReleaseIsACascade(m, h);
    LettingGoLosesOwner(m, h, d);
    DetachKeepsOwners(m, h, d);
    CascadeKeepsOwners(d, Detach(m, h).1);
    OwnersKeptInTurn(m, d, AfterRelease(m, h));
  }

  /** Releasing a handle, wherever it lives, terminates, destroys each object at most once, and
      destroys exactly the objects left without an owner. */
  lemma ReleaseDestroysExactlyTheUnowned(m: Memory, h: Handle) returns (gone: seq<Address>)
    requires Sound(m) && h in m.data
    ensures RemovesObjects(m, AfterRelease(m, h), gone)
    ensures ReleasesHandles(m, h, AfterRelease(m, h), gone)
    ensures Closed(m, [h], set a | a in gone)
    ensures forall other: set<Address> | Closed(m, [h], other) :: (set a | a in gone) <= other
  {
    gone := ReleaseRemoves(m, h);
    ReleaseKeepsOwners(m, h);
    NothingUnownedIsLeft(m, [h], AfterRelease(m, h), gone);
    forall other: set<Address> | Closed(m, [h], other)
      ensures (set a | a in gone) <= other
    {
      JustifiedIsLeast(m, [h], gone, other, |gone|);
    }
  }

  lemma ReleaseRemoves(m: Memory, h: Handle) returns (gone: seq<Address>)
    requires Sound(m) && h in m.data
    ensures RemovesObjects(m, AfterRelease(m, h), gone)
    ensures ReleasesHandles(m, h, AfterRelease(m, h), gone)
    ensures Justified(m, [h], gone)
  {
    var d, more, a := LetGoOf(m, h), Detach(m, h).1, m.data[h];
    LetGoKeepsInv(m, h, []);
    ReleaseIsACascade(m, h);
    LettingGoLosesOwner(m, h, d);
    DetachParts(m, h);
    assert [h] + [] == [h] && more + [] == more;
    var later := CascadeRemoves(d, more);
    if d.members == m.members {
      gone := later;
      NothingRemovedJustified(m, h, [], d, gone);
    } else {
      gone := [a] + later;
      OneRemovedObjects(m, a, d, AfterRelease(m, h), later);
      LastOwner(m, h);
      OneRemovedJustified(m, h, [], d, later);
      ReleasedWithMembers(m, h, a, d, AfterRelease(m, h), later);
    }
  }

  lemma ReleasedWithMembers(m: Memory, h: Handle, a: Address, d: Memory, m': Memory, later: seq<Address>)
    requires PlacesInv(m, []) && h in m.data && a in m.members && d.data == m.data[h := NULL]
    requires RemovesHandles(d, m.members[a], m', later)
    ensures ReleasesHandles(m, h, m', [a] + later)
  {
    forall g
      ensures g in m'.data <==> g in m.data && g.home !in [a] + later
    {
      assert g in m.data ==> (g.home == a <==> g in m.members[a]);
    }
  }

  // ---- Every object created is alive or was destroyed exactly once --------------------------------

  ghost predicate Balanced(m: Memory) {
    multiset(m.created) == multiset(m.destroyed) + multiset(m.members.Keys)
  }

  lemma {:induction false} DistinctCounts(s: seq<Address>)
    requires forall i, j | 0 <= i < j < |s| :: s[i] != s[j]
    ensures multiset(s) == multiset(set a | a in s)
  {
    if s != [] {
      var n := |s| - 1;
      DistinctCounts(s[..n]);
      assert s == s[..n] + [s[n]];
      assert (set a | a in s) == (set a | a in s[..n]) + {s[n]};
    }
  }

  lemma RemovedKeys(m: Memory, m': Memory, gone: seq<Address>)
    requires RemovesObjects(m, m', gone)
    ensures multiset(m.members.Keys) == multiset(gone) + multiset(m'.members.Keys)
    ensures multiset(m'.destroyed) == multiset(m.destroyed) + multiset(gone)
  {
    DistinctCounts(gone);
    var removed := set a | a in gone;
    assert m.members.Keys == removed + m'.members.Keys;
  }

  lemma RemovalKeepsBalance(m: Memory, m': Memory, gone: seq<Address>)
    requires RemovesObjects(m, m', gone) && Balanced(m)
    ensures Balanced(m')
  {
    RemovedKeys(m, m', gone);
  }

  /** RefMap and places are right, and the books on objects balance. */
  ghost predicate Good(m: Memory) {
    Sound(m) && Balanced(m)
  }

  /** The state stays good, and no live object loses its last owner. */
  ghost predicate Keeps(m: Memory, m': Memory) {
    Good(m') && KeepsOwners(m, m') && KeepsMembers(m, m')
  }

  ghost predicate KeepsMembers(m: Memory, m': Memory) {
    m'.members.Keys <= m.members.Keys && m'.created == m.created
  }

  lemma InTurn(m: Memory, m': Memory, m'': Memory)
    requires Keeps(m, m') && Keeps(m', m'')
    ensures Keeps(m, m'')
  {
    OwnersKeptInTurn(m, m', m'');
  }

  lemma ReleaseKeeps(m: Memory, h: Handle)
    requires Good(m) && h in m.data
    ensures Keeps(m, AfterRelease(m, h))
    ensures h in AfterRelease(m, h).data ==> AfterRelease(m, h).data[h] == NULL
    ensures forall g | g in m.data && g.home == NULL :: g in AfterRelease(m, h).data
    ensures forall g | g in AfterRelease(m, h).data && g != h :: g in m.data && AfterRelease(m, h).data[g] == m.data[g]
  {
    ReleaseKeepsSound(m, h);
    ReleaseKeepsOwners(m, h);
    var gone := ReleaseRemoves(m, h);
    RemovalKeepsBalance(m, AfterRelease(m, h), gone);
  }

  lemma ReleaseIfValidKeeps(m: Memory, h: Handle)
    requires Good(m) && h in m.data && h.kind != Weak
    ensures Keeps(m, ReleaseIfValid(m, h))
    ensures h in ReleaseIfValid(m, h).data ==> ReleaseIfValid(m, h).data[h] == NULL
    ensures forall g | g in m.data && g.home == NULL :: g in ReleaseIfValid(m, h).data
    ensures forall g | g in ReleaseIfValid(m, h).data && g != h ::
              g in m.data && ReleaseIfValid(m, h).data[g] == m.data[g]
  {
    if IsValid(m, h) {
      ReleaseKeeps(m, h);
    }
  }

  lemma RootAsWork(m: Memory, h: Handle)
    requires Sound(m) && h in m.data && h.home == NULL
    ensures Inv(m, [h])
  {
  }

  lemma DestroyKeeps(m: Memory, h: Handle)
    requires Good(m) && h in m.data && h.home == NULL
    ensures Keeps(m, Cascade(m, [h]))
    ensures h !in Cascade(m, [h]).data
    ensures forall g | g in m.data && g.home == NULL && g != h :: g in Cascade(m, [h]).data
    ensures forall g | g in Cascade(m, [h]).data :: g in m.data && Cascade(m, [h]).data[g] == m.data[g]
  {
    RootAsWork(m, h);
    assert [h] + [] == [h] && h in [h];
    CascadeKeepsInv(m, [h], []);
    CascadeKeepsOwners(m, [h]);
    var gone := CascadeRemoves(m, [h]);
    RemovalKeepsBalance(m, Cascade(m, [h]), gone);
  }

  lemma HoldersWith(data: map<Handle, Address>, h: Handle, a: Address, b: Address)
    requires h in data ==> data[h] == NULL
    requires b != NULL
    ensures Holders(data[h := a], b) == Holders(data, b) + if h.kind == Shared && b == a then {h} else {}
  {
  }

  lemma AcquireKeepsCounts(m: Memory, h: Handle, a: Address)
    requires CountsInv(m) && NULL !in m.members && a in m.members
    requires h in m.data && h.kind == Shared && m.data[h] == NULL
    ensures CountsInv(Acquire(m, h, a))
  {
    var m' := Acquire(m, h, a);
    forall b | b in m'.refMap
      ensures b in m'.members && m'.refMap[b] == |Holders(m'.data, b)| && m'.refMap[b] > 0
    {
      HoldersWith(m.data, h, a, b);
      if b == a {
        assert h !in Holders(m.data, b);
        assert a !in m.refMap ==> Holders(m.data, a) == {};
      }
    }
  }

  /** A shared handle, holding nothing so far, takes on an object. */
  lemma AcquireSharedKeeps(m: Memory, h: Handle, a: Address)
    requires Good(m) && h in m.data && h.kind == Shared && m.data[h] == NULL && Free(m, Shared, a)
    ensures Keeps(m, Acquire(m, h, a))
    ensures Acquire(m, h, a).data == m.data[h := a]
  {
    if a != NULL {
      AcquireKeepsCounts(m, h, a);
      AcquireKeepsRest(m, h, a, Acquire(m, h, a));
    }
  }

  /** What setting a handle's pointer, and its count, may touch. */
  ghost predicate Sets(m: Memory, h: Handle, a: Address, m': Memory) {
    && h in m.data && m' == m.(refMap := m'.refMap, data := m.data[h := a])
    && if h.kind == Shared && a != NULL then m'.refMap.Keys == m.refMap.Keys + {a} else m'.refMap == m.refMap
  }

  lemma SettingKeepsUnique(m: Memory, h: Handle, a: Address, m': Memory)
    requires UniqueInv(m) && Sets(m, h, a, m') && (h.kind == Weak || Free(m, h.kind, a))
    ensures UniqueInv(m')
  {
  }

  lemma SettingKeepsPlaces(m: Memory, h: Handle, a: Address, m': Memory)
    requires PlacesInv(m, []) && Sets(m, h, a, m')
    ensures PlacesInv(m', [])
  {
  }

  lemma SettingKeepsOwners(m: Memory, h: Handle, a: Address, m': Memory)
    requires Sets(m, h, a, m') && (h.kind == Weak || m.data[h] == NULL)
    ensures KeepsOwners(m, m')
  {
    forall b | b in m'.members && Owned(m, b)
      ensures Owned(m', b)
    {
      var g :| Owner(m, g, b);
      assert Owner(m', g, b);
    }
  }

  lemma AcquireKeepsRest(m: Memory, h: Handle, a: Address, m': Memory)
    requires Good(m) && Sets(m, h, a, m') && (h.kind == Weak || (m.data[h] == NULL && Free(m, h.kind, a)))
    requires CountsInv(m')
    ensures Keeps(m, m')
  {
    SettingKeepsUnique(m, h, a, m');
    SettingKeepsPlaces(m, h, a, m');
    SettingKeepsOwners(m, h, a, m');
  }

  lemma AcquireUniqueKeeps(m: Memory, h: Handle, a: Address)
    requires Good(m) && h in m.data && h.kind == Unique && m.data[h] == NULL && Free(m, Unique, a)
    ensures Keeps(m, Acquire(m, h, a))
    ensures Acquire(m, h, a).data == m.data[h := a]
  {
    if a != NULL {
      assert m.data[h := NULL] == m.data;
      assert Acquire(m, h, a) == m.(data := m.data[h := a]);
      UnsharedKeepsCounts(m, h, a);
      AcquireKeepsRest(m, h, a, Acquire(m, h, a));
    }
  }

  lemma UnsharedKeepsCounts(m: Memory, h: Handle, a: Address)
    requires CountsInv(m) && h.kind != Shared
    ensures CountsInv(m.(data := m.data[h := a]))
  {
    forall b
      ensures Holders(m.data[h := a], b) == Holders(m.data, b)
    {
    }
  }

  lemma DeclareKeeps(m: Memory, h: Handle)
    requires Good(m) && h !in m.data && h.home == NULL
    ensures Keeps(m, Declare(m, h))
  {
    var m' := Declare(m, h);
    forall a | a != NULL
      ensures Holders(m'.data, a) == Holders(m.data, a)
    {
    }
    DeclareKeepsOwners(m, h);
  }

  lemma DeclareKeepsOwners(m: Memory, h: Handle)
    requires h !in m.data
    ensures KeepsOwners(m, Declare(m, h))
  {
    forall b | b in m.members && Owned(m, b)
      ensures Owned(Declare(m, h), b)
    {
      var g :| Owner(m, g, b);
      assert Owner(Declare(m, h), g, b);
    }
  }

  /** An object whose unique handle gave it up, and everything else as before. */
  lemma GivingUpKeeps(m: Memory, src: Handle)
    requires Good(m) && src in m.data && src.kind == Unique
    ensures Good(m.(data := m.data[src := NULL]))
    ensures Free(m.(data := m.data[src := NULL]), Unique, m.data[src])
  {
    UnsharedKeepsCounts(m, src, NULL);
    var m' := m.(data := m.data[src := NULL]);
    SettingKeepsUnique(m, src, NULL, m');
    SettingKeepsPlaces(m, src, NULL, m');
  }

  lemma SharedIsFree(m: Memory, src: Handle)
    requires Sound(m) && src in m.data && src.kind == Shared
    ensures Free(m, Shared, m.data[src])
  {
  }

  lemma AcquireKeeps(m: Memory, h: Handle, a: Address)
    requires Good(m) && h in m.data && h.kind != Weak && m.data[h] == NULL && Free(m, h.kind, a)
    ensures Keeps(m, Acquire(m, h, a))
    ensures Acquire(m, h, a).data == m.data[h := a]
  {
    if h.kind == Shared {
      AcquireSharedKeeps(m, h, a);
    } else {
      AcquireUniqueKeeps(m, h, a);
    }
  }

  lemma WeakKeeps(m: Memory, h: Handle, a: Address)
    requires Good(m) && h in m.data && h.kind == Weak
    ensures Keeps(m, Acquire(m, h, a))
  {
    var m' := m.(data := m.data[h := a]);
    UnsharedKeepsCounts(m, h, a);
    AcquireKeepsRest(m, h, a, m');
    assert m.data[h] == a ==> m.data[h := a] == m.data;
    NoChangeKeeps(m);
  }

  lemma NoChangeKeeps(m: Memory)
    requires Good(m)
    ensures Keeps(m, m)
  {
  }

  lemma MoveOverKeeps(m: Memory, h: Handle, src: Handle)
    requires Good(m) && h in m.data && src in m.data && h != src && m.data[h] == NULL
    requires (h.kind == Shared && src.kind != Weak) || h.kind == src.kind == Unique
    ensures Keeps(m, MoveOver(m, h, src))
  {
    var a := m.data[src];
    if src.kind == Unique {
      var m' := m.(data := m.data[src := NULL]);
      GivingUpKeeps(m, src);
      AcquireKeeps(m', h, a);
      OwnershipPasses(m, h, src, Acquire(m', h, a));
    } else {
      SharedIsFree(m, src);
      AcquireSharedKeeps(m, h, a);
      ReleaseKeeps(Acquire(m, h, a), src);
      InTurn(m, Acquire(m, h, a), MoveOver(m, h, src));
    }
  }

  lemma OwnershipPasses(m: Memory, h: Handle, src: Handle, m': Memory)
    requires h in m.data && src in m.data && h != src && m.data[h] == NULL && h.kind != Weak
    requires m'.data == m.data[src := NULL][h := m.data[src]]
    ensures KeepsOwners(m, m')
  {
    forall b | b in m'.members && Owned(m, b)
      ensures Owned(m', b)
    {
      var g :| Owner(m, g, b);
      assert Owner(m', if g == src then h else g, b);
    }
  }

  lemma NewMembers(m: Memory, a: Address, kinds: seq<Kind>)
    requires Sound(m) && a != NULL && a !in m.members
    ensures forall h | h in m.data :: h !in MemberHandles(a, kinds)
    ensures forall h | h in MemberHandles(a, kinds) :: h.home == a
    ensures Distinct(MemberHandles(a, kinds))
  {
  }

  lemma NewObjectKeeps(m: Memory, a: Address, kinds: seq<Kind>)
    requires Good(m) && a != NULL && a !in m.members
    ensures Good(NewObject(m, a, kinds))
    ensures KeepsOwners(m, NewObject(m, a, kinds))
  {
    NewMembers(m, a, kinds);
    NewObjectKeepsCounts(m, a, kinds);
    NewObjectKeepsUnique(m, a, kinds);
    NewObjectKeepsPlaces(m, a, kinds);
    NewObjectKeepsOwners(m, a, kinds);
    NewObjectKeepsBalance(m, a, kinds);
  }

  lemma NewObjectKeepsCounts(m: Memory, a: Address, kinds: seq<Kind>)
    requires CountsInv(m) && NULL !in m.members && forall h | h in m.data :: h !in MemberHandles(a, kinds)
    ensures CountsInv(NewObject(m, a, kinds))
  {
    var m' := NewObject(m, a, kinds);
    forall b | b in m'.refMap
      ensures m'.refMap[b] == |Holders(m'.data, b)|
    {
      assert Holders(m'.data, b) == Holders(m.data, b);
    }
  }

  lemma NewObjectKeepsUnique(m: Memory, a: Address, kinds: seq<Kind>)
    requires UniqueInv(m) && forall h | h in m.data :: h !in MemberHandles(a, kinds)
    ensures UniqueInv(NewObject(m, a, kinds))
  {
  }

  lemma NewObjectKeepsBalance(m: Memory, a: Address, kinds: seq<Kind>)
    requires Balanced(m) && a !in m.members
    ensures Balanced(NewObject(m, a, kinds))
  {
    assert NewObject(m, a, kinds).members.Keys == m.members.Keys + {a};
    assert multiset(m.members.Keys + {a}) == multiset(m.members.Keys) + multiset{a};
  }

  lemma NewObjectKeepsPlaces(m: Memory, a: Address, kinds: seq<Kind>)
    requires PlacesInv(m, []) && a != NULL && a !in m.members
    requires Distinct(MemberHandles(a, kinds)) && forall h | h in MemberHandles(a, kinds) :: h.home == a
    ensures PlacesInv(NewObject(m, a, kinds), [])
  {
  }

  lemma NewObjectKeepsOwners(m: Memory, a: Address, kinds: seq<Kind>)
    requires forall h | h in m.data :: h !in MemberHandles(a, kinds)
    ensures KeepsOwners(m, NewObject(m, a, kinds))
  {
    var m' := NewObject(m, a, kinds);
    forall b | b in m'.members && Owned(m, b)
      ensures Owned(m', b)
    {
      var g :| Owner(m, g, b);
      assert Owner(m', g, b);
    }
  }

  lemma ResetFromKeeps(m: Memory, h: Handle, src: Handle)
    requires Good(m) && Allowed(m, ResetFrom(h, src))
    ensures Keeps(m, Apply(m, ResetFrom(h, src)))
  {
    var a := m.data[src];
    var d, m' := Declare(m, PARAMETER), WithParameter(m, src);
    DeclareKeeps(m, PARAMETER);
    SharedIsFree(d, src);
    AcquireSharedKeeps(d, PARAMETER, a);
    InTurn(m, d, m');
    var last := m';
    if m.data[h] != a {
      var r := ReleaseIfValid(m', h);
      ReleaseIfValidKeeps(m', h);
      SharedIsFree(r, PARAMETER);
      AcquireSharedKeeps(r, h, a);
      InTurn(m, m', r);
      last := Acquire(r, h, a);
      InTurn(m, r, last);
    }
    DestroyKeeps(last, PARAMETER);
    InTurn(m, last, Cascade(last, [PARAMETER]));
  }

  /** What nobody owns is not destroyed by a release. */
  lemma UnownedSurvives(m: Memory, h: Handle, a: Address)
    requires Sound(m) && h in m.data && a in m.members && !Owned(m, a)
    ensures a in AfterRelease(m, h).members
  {
    var gone := ReleaseRemoves(m, h);
    forall i | 0 <= i < |gone|
      ensures gone[i] != a
    {
      assert Owned(m, gone[i]);
    }
  }

  /** A free object stays free when a handle lets go of another one. */
  lemma StaysFree(m: Memory, h: Handle, a: Address)
    requires Good(m) && h in m.data && a != NULL && Free(m, Unique, a)
    ensures Free(AfterRelease(m, h), Unique, a)
  {
    var m' := AfterRelease(m, h);
    OwnersDecideFree(m, a);
    UnownedSurvives(m, h, a);
    ReleaseKeeps(m, h);
    OwnersDecideFree(m', a);
    assert forall g | Owner(m', g, a) :: Owner(m, g, a);
  }

  lemma UniqueResetFromKeeps(m: Memory, h: Handle, src: Handle)
    requires Good(m) && Allowed(m, UniqueResetFrom(h, src))
    ensures Keeps(m, Apply(m, UniqueResetFrom(h, src)))
  {
    if m.data[src] == NULL {
      ReleaseKeeps(m, h);
    } else if h == src {
      NoChangeKeeps(m);
    } else {
      UniqueTakesOver(m, h, src, m.(data := m.data[src := NULL]));
    }
  }

  /** A unique handle that is not empty takes over from another one. */
  lemma UniqueTakesOver(m: Memory, h: Handle, src: Handle, m1: Memory)
    requires Good(m) && h in m.data && src in m.data && h != src && h.kind == src.kind == Unique
    requires m.data[src] != NULL && m1 == m.(data := m.data[src := NULL]) && h in AfterRelease(m1, h).data
    ensures Keeps(m, MoveOver(m, h, src))
  {
    var a, r := m.data[src], AfterRelease(m1, h);
    GivingUpKeeps(m, src);
    ReleaseKeeps(m1, h);
    StaysFree(m1, h, a);
    AcquireKeeps(r, h, a);
    ReleasedTwice(m1, h);
    assert MoveOver(m, h, src) == Acquire(m1, h, a) == Acquire(r, h, a);
    OwnersKeptInTurn(m1, r, Acquire(r, h, a));
    TakingOverKeepsOwners(m, m1, src, Acquire(r, h, a), h);
  }

  lemma ReleasedTwice(m: Memory, h: Handle)
    requires h in AfterRelease(m, h).data && AfterRelease(m, h).data[h] == NULL
    ensures AfterRelease(AfterRelease(m, h), h) == AfterRelease(m, h)
  {
    var r := AfterRelease(m, h);
    assert r.data[h := NULL] == r.data && Detach(r, h) == (r, []);
  }

  lemma TakingOverKeepsOwners(m: Memory, m1: Memory, src: Handle, m': Memory, h: Handle)
    requires h in m'.data && h.kind != Weak && src in m.data && m'.data[h] == m.data[src] != NULL
    requires m1 == m.(data := m.data[src := NULL]) && KeepsOwners(m1, m')
    ensures KeepsOwners(m, m')
  {
    forall b | b in m'.members && Owned(m, b)
      ensures Owned(m', b)
    {
      if b == m.data[src] {
        assert Owner(m', h, b);
      } else {
        var g :| Owner(m, g, b);
        assert Owner(m1, g, b);
      }
    }
  }

  lemma WeakAssignKeeps(m: Memory, h: Handle, a: Address)
    requires Good(m) && h in m.data && h.kind == Weak
    ensures Keeps(m, m.(data := m.data[h := a]))
  {
    var m' := m.(data := m.data[h := a]);
    UnsharedKeepsCounts(m, h, a);
    SettingKeepsUnique(m, h, a, m');
    SettingKeepsPlaces(m, h, a, m');
    forall b | b in m'.members && Owned(m, b)
      ensures Owned(m', b)
    {
      var g :| Owner(m, g, b);
      assert Owner(m', g, b);
    }
  }

  function Created(op: Operation): seq<Address> {
    if op.New? then [op.a] else []
  }

  /** Every operation keeps RefMap and places right and the books balanced, and no object loses its
      last owner without being destroyed, unless the caller asks for it. */
  lemma OperationKeeps(m: Memory, op: Operation)
    requires Good(m) && Allowed(m, op)
    ensures Good(Apply(m, op)) && (op.Retrieve? || KeepsOwners(m, Apply(m, op)))
    ensures Apply(m, op).created == m.created + Created(op)
  {
    assert m.created + [] == m.created;
    match op
    case New(a, kinds) => NewObjectKeeps(m, a, kinds);
    case Default(h) => DeclareKeeps(m, h);
    case Adopt(h, a) =>
      DeclareKeeps(m, h);
      AcquireKeeps(Declare(m, h), h, a);
      InTurn(m, Declare(m, h), Apply(m, op));
    case CopyConstruct(h, src) =>
      DeclareKeeps(m, h);
      if h.kind == Shared {
        SharedIsFree(Declare(m, h), src);
        AcquireSharedKeeps(Declare(m, h), h, m.data[src]);
      } else {
        WeakKeeps(Declare(m, h), h, m.data[src]);
      }
      InTurn(m, Declare(m, h), Apply(m, op));
    case MoveConstruct(h, src) =>
      DeclareKeeps(m, h);
      MoveOverKeeps(Declare(m, h), h, src);
      InTurn(m, Declare(m, h), Apply(m, op));
    case CopyAssign(h, src) =>
      NoChangeKeeps(m);
      if h != src {
        var m' := ReleaseIfValid(m, h);
        ReleaseIfValidKeeps(m, h);
        SharedIsFree(m', src);
        AcquireSharedKeeps(m', h, m'.data[src]);
        InTurn(m, m', Apply(m, op));
      }
    case MoveAssign(h, src) =>
      NoChangeKeeps(m);
      if h != src {
        ReleaseIfValidKeeps(m, h);
        MoveOverKeeps(ReleaseIfValid(m, h), h, src);
        InTurn(m, ReleaseIfValid(m, h), Apply(m, op));
      }
    case ResetTo(h, a) =>
      NoChangeKeeps(m);
      if m.data[h] != a {
        ReleaseIfValidKeeps(m, h);
        AcquireKeeps(ReleaseIfValid(m, h), h, a);
        InTurn(m, ReleaseIfValid(m, h), Apply(m, op));
      }
    case ResetFrom(h, src) => ResetFromKeeps(m, h, src);
    case UniqueResetFrom(h, src) => UniqueResetFromKeeps(m, h, src);
    case WeakAssign(h, src) => WeakAssignKeeps(m, h, m.data[src]);
    case Retrieve(h) => GivingUpKeeps(m, h);
    case Let(h) => ReleaseKeeps(m, h);
    case Destroy(h) => DestroyKeeps(m, h);
  }

  // ---- Any sequence of operations ------------------------------------------------------------------

  predicate AllAllowed(m: Memory, ops: seq<Operation>)
    decreases |ops|
  {
    ops == [] || (Allowed(m, ops[0]) && AllAllowed(Apply(m, ops[0]), ops[1..]))
  }

  function ApplyAll(m: Memory, ops: seq<Operation>): Memory
    decreases |ops|
  {
    if ops == [] then m else ApplyAll(Apply(m, ops[0]), ops[1..])
  }

  /** The objects that `New` operations create, in order. */
  function Creations(ops: seq<Operation>): seq<Address> {
    if ops == [] then [] else Created(ops[0]) + Creations(ops[1..])
  }

  lemma {:induction false} OperationsKeep(m: Memory, ops: seq<Operation>)
    requires Good(m) && AllAllowed(m, ops)
    ensures Good(ApplyAll(m, ops))
    ensures ApplyAll(m, ops).created == m.created + Creations(ops)
    decreases |ops|
  {
    if ops != [] {
      OperationKeeps(m, ops[0]);
      OperationsKeep(Apply(m, ops[0]), ops[1..]);
      Assoc(m.created, Created(ops[0]), Creations(ops[1..]));
    }
  }

  /** After any sequence of operations RefMap has an entry for an address exactly when some shared
      handle holds it, and the entry is the number of shared handles that do. */
  lemma RefMapCountsTheHolders(ops: seq<Operation>, a: Address)
    requires AllAllowed(EMPTY_MEMORY, ops) && a != NULL
    ensures var m := ApplyAll(EMPTY_MEMORY, ops);
            && (a in m.refMap <==> Holders(m.data, a) != {})
            && (a in m.refMap ==> m.refMap[a] == |Holders(m.data, a)| && a in m.members)
  {
    OperationsKeep(EMPTY_MEMORY, ops);
    var m := ApplyAll(EMPTY_MEMORY, ops);
    if Holders(m.data, a) != {} {
      var h :| h in Holders(m.data, a);
    }
  }

  /** A weak handle is valid exactly when its address still has a shared owner. */
  lemma WeakIsValidExactlyWhenOwned(ops: seq<Operation>, w: Handle)
    requires AllAllowed(EMPTY_MEMORY, ops) && w in ApplyAll(EMPTY_MEMORY, ops).data && w.kind == Weak
    ensures var m := ApplyAll(EMPTY_MEMORY, ops);
            IsValid(m, w) <==> m.data[w] != NULL && exists h :: h in Holders(m.data, m.data[w])
  {
    var m := ApplyAll(EMPTY_MEMORY, ops);
    if m.data[w] != NULL {
      RefMapCountsTheHolders(ops, m.data[w]);
      assert Holders(m.data, m.data[w]) != {} <==> exists h :: h in Holders(m.data, m.data[w]);
    }
  }

  /** Each object created is alive now or had its destructor started exactly once, counting address by
      address, and nothing else was destroyed. No owning handle refers to a destroyed object. */
  lemma EveryObjectIsDestroyedAtMostOnce(ops: seq<Operation>)
    requires AllAllowed(EMPTY_MEMORY, ops)
    ensures var m := ApplyAll(EMPTY_MEMORY, ops);
            && multiset(Creations(ops)) == multiset(m.destroyed) + multiset(m.members.Keys)
            && (forall h | h in m.data && h.kind != Weak && m.data[h] != NULL :: m.data[h] in m.members)
  {
    OperationsKeep(EMPTY_MEMORY, ops);
  }

  // ---- When an assignment or a reset is safe -------------------------------------------------------

  /** Releasing `h` spares the handles `gs`: some set of objects takes in every object left without an
      owner, and none of those handles lives in it. */
  ghost predicate Spares(m: Memory, h: Handle, gs: set<Handle>) {
    exists other: set<Address> :: Closed(m, [h], other) && forall g | g in gs :: g.home !in other
  }

  /** Handles outlast a release exactly when it spares them. */
  lemma SurviveExactlyWhenSpared(m: Memory, h: Handle, gs: set<Handle>)
    requires Sound(m) && h in m.data && gs <= m.data.Keys
    ensures gs <= AfterRelease(m, h).data.Keys <==> Spares(m, h, gs)
  {
    var gone := ReleaseDestroysExactlyTheUnowned(m, h);
    var least := set a | a in gone;
    if gs <= AfterRelease(m, h).data.Keys {
      assert Closed(m, [h], least) && forall g | g in gs :: g.home !in least;
    }
    if Spares(m, h, gs) {
      var other: set<Address> :| Closed(m, [h], other) && forall g | g in gs :: g.home !in other;
      assert least <= other;
      assert forall g | g in gs :: g.home !in gone;
    }
  }

  lemma EmptyIsReleased(m: Memory, h: Handle)
    requires Sound(m) && h in m.data && h.kind != Weak
    ensures ReleaseIfValid(m, h) == AfterRelease(m, h)
  {
    if !IsValid(m, h) {
      assert m.data[h := NULL] == m.data;
    }
  }

  /** An assignment reads its source and writes its target after the release: it is safe, for handles
      wherever they live, exactly when releasing the target spares both. */
  lemma AssignmentIsSafeExactlyWhen(m: Memory, h: Handle, src: Handle)
    requires Good(m) && h in m.data && src in m.data && h != src
    ensures h.kind == src.kind == Shared ==> (Allowed(m, CopyAssign(h, src)) <==> Spares(m, h, {h, src}))
    ensures h.kind == src.kind != Weak ==> (Allowed(m, MoveAssign(h, src)) <==> Spares(m, h, {h, src}))
  {
    if h.kind == src.kind != Weak {
      EmptyIsReleased(m, h);
      AssignmentNeedsBoth(m, h, src, AfterRelease(m, h));
      SurviveExactlyWhenSpared(m, h, {h, src});
    }
  }

  /** The same for a reset with a handle passed by value: only the target is written, and the parameter
      is one more owner of what the source holds. */
  lemma ResetFromIsSafeExactlyWhen(m: Memory, h: Handle, src: Handle)
    requires Good(m) && h in m.data && src in m.data && h.kind == src.kind == Shared && PARAMETER !in m.data
    requires m.data[h] != m.data[src]
    ensures Allowed(m, ResetFrom(h, src)) <==> Spares(WithParameter(m, src), h, {h})
  {
    ResetFromNeedsItsTarget(m, h, src);
    ParameterSpares(m, h, src, WithParameter(m, src));
  }

  lemma ResetFromNeedsItsTarget(m: Memory, h: Handle, src: Handle)
    requires h in m.data && src in m.data && h.kind == src.kind == Shared && PARAMETER !in m.data
    requires m.data[h] != m.data[src]
    ensures Allowed(m, ResetFrom(h, src)) <==> Survive(WithParameter(m, src), h, h)
  {
  }

  lemma ParameterSpares(m: Memory, h: Handle, src: Handle, m': Memory)
    requires Good(m) && h in m.data && src in m.data && h.kind == src.kind == Shared && PARAMETER !in m.data
    requires m' == WithParameter(m, src)
    ensures Survive(m', h, h) <==> Spares(m', h, {h})
  {
    WithParameterKeeps(m, src);
    SurvivesExactlyWhenSpared(m', h);
  }

  lemma SurvivesExactlyWhenSpared(m: Memory, h: Handle)
    requires Sound(m) && h in m.data && h.kind != Weak
    ensures Survive(m, h, h) <==> Spares(m, h, {h})
    ensures h in AfterRelease(m, h).data <==> Spares(m, h, {h})
  {
    EmptyIsReleased(m, h);
    SurviveExactlyWhenSpared(m, h, {h});
    assert {h} <= AfterRelease(m, h).data.Keys <==> h in AfterRelease(m, h).data;
  }

  lemma WithParameterKeeps(m: Memory, src: Handle)
    requires Good(m) && src in m.data && src.kind == Shared && PARAMETER !in m.data
    ensures Keeps(m, WithParameter(m, src)) && forall g | g in m.data :: g in WithParameter(m, src).data
  {
    DeclareKeeps(m, PARAMETER);
    SharedIsFree(Declare(m, PARAMETER), src);
    AcquireSharedKeeps(Declare(m, PARAMETER), PARAMETER, m.data[src]);
    InTurn(m, Declare(m, PARAMETER), WithParameter(m, src));
  }

  /** A unique parameter has taken the object over instead. */
  lemma UniqueResetIsSafeExactlyWhen(m: Memory, h: Handle, src: Handle)
    requires Good(m) && h in m.data && src in m.data && h != src && h.kind == src.kind == Unique
    requires m.data[src] != NULL
    ensures Allowed(m, UniqueResetFrom(h, src)) <==> Spares(m.(data := m.data[src := NULL]), h, {h})
  {
    var m1 := m.(data := m.data[src := NULL]);
    GivingUpKeeps(m, src);
    UniqueResetNeedsItsTarget(m, h, src, m1);
    SurvivesExactlyWhenSpared(m1, h);
  }

  lemma UniqueResetNeedsItsTarget(m: Memory, h: Handle, src: Handle, m1: Memory)
    requires h in m.data && src in m.data && h != src && h.kind == src.kind == Unique && m.data[src] != NULL
    requires m1 == m.(data := m.data[src := NULL])
    ensures Allowed(m, UniqueResetFrom(h, src)) <==> h in AfterRelease(m1, h).data
  {
  }

  /** Releasing `h` spares it and the object at `a`, which is free for it. */
  ghost predicate SparesObject(m: Memory, h: Handle, a: Address) {
    exists other: set<Address> ::
      Closed(m, [h], other) && h.home !in other && (a == NULL || (a !in other && Free(m, h.kind, a)))
  }

  /** And for a reset with a raw pointer: the target and what is pointed to must be spared, and the
      object must be free beforehand. */
  lemma ResetIsSafeExactlyWhen(m: Memory, h: Handle, a: Address)
    requires Good(m) && h in m.data && h.kind != Weak && m.data[h] != a
    ensures Allowed(m, ResetTo(h, a)) <==> SparesObject(m, h, a)
  {
    EmptyIsReleased(m, h);
    ResetNeedsExactly(m, h, a, AfterRelease(m, h));
    ReplacingIsSafeExactlyWhen(m, h, a, AfterRelease(m, h));
  }

  lemma ResetNeedsExactly(m: Memory, h: Handle, a: Address, m': Memory)
    requires h in m.data && h.kind != Weak && m.data[h] != a && m' == ReleaseIfValid(m, h)
    ensures Allowed(m, ResetTo(h, a)) <==> h in m'.data && Free(m', h.kind, a)
  {
  }

  lemma ReplacingIsSafeExactlyWhen(m: Memory, h: Handle, a: Address, m': Memory)
    requires Good(m) && h in m.data && h.kind != Weak && m.data[h] != a && m' == AfterRelease(m, h)
    ensures h in m'.data && Free(m', h.kind, a) <==> SparesObject(m, h, a)
  {
    var gone := ReleaseDestroysExactlyTheUnowned(m, h);
    ReleaseKeeps(m, h);
    if a != NULL {
      FreeAfterExactlyWhen(m, h, a, gone);
    }
    SparedByTheLeast(m, h, a, gone);
  }

  lemma SparedByTheLeast(m: Memory, h: Handle, a: Address, gone: seq<Address>)
    requires Closed(m, [h], set b | b in gone)
    requires forall other: set<Address> | Closed(m, [h], other) :: (set b | b in gone) <= other
    ensures SparesObject(m, h, a) <==> h.home !in gone && (a == NULL || (a !in gone && Free(m, h.kind, a)))
  {
    var least := set b | b in gone;
    if SparesObject(m, h, a) {
      var other: set<Address> :|
        Closed(m, [h], other) && h.home !in other && (a == NULL || (a !in other && Free(m, h.kind, a)));
      assert least <= other;
      assert forall b | b in gone :: b in least;
    }
    if h.home !in gone && (a == NULL || (a !in gone && Free(m, h.kind, a))) {
      assert Closed(m, [h], least) && h.home !in least;
    }
  }

  lemma FreeAfterExactlyWhen(m: Memory, h: Handle, a: Address, gone: seq<Address>)
    requires Good(m) && Good(AfterRelease(m, h)) && h in m.data && h.kind != Weak && m.data[h] != a && a != NULL
    requires RemovesObjects(m, AfterRelease(m, h), gone) && ReleasesHandles(m, h, AfterRelease(m, h), gone)
    requires Closed(m, [h], set b | b in gone)
    ensures Free(AfterRelease(m, h), h.kind, a) <==> a !in gone && Free(m, h.kind, a)
  {
    var m' := AfterRelease(m, h);
    if a in m'.members {
      OwnersDecideFree(m, a);
      OwnersDecideFree(m', a);
      assert forall g | Owner(m', g, a) :: Owner(m, g, a);
      if g: Handle :| Owner(m, g, a) {
        SomeOwnerStays(m, h, a, gone, g);
        KindOfOwners(m, g, a);
      }
    }
  }

  /** A live object that had an owner still has one. */
  lemma SomeOwnerStays(m: Memory, h: Handle, a: Address, gone: seq<Address>, g: Handle)
    requires h in m.data && m.data[h] != a && Owner(m, g, a) && a !in gone
    requires ReleasesHandles(m, h, AfterRelease(m, h), gone) && Closed(m, [h], set b | b in gone)
    ensures exists g' :: Owner(AfterRelease(m, h), g', a)
  {
    var least := set b | b in gone;
    assert a !in least && Owned(m, a);
    var g' :| Owner(m, g', a) && !(g' in [h] || g'.home in least);
    assert Owner(AfterRelease(m, h), g', a);
  }

  /** An object's owners are all of one kind. */
  lemma KindOfOwners(m: Memory, g: Handle, a: Address)
    requires CountsInv(m) && UniqueInv(m) && Owner(m, g, a)
    ensures forall g' | Owner(m, g', a) :: g'.kind == g.kind
  {
  }

  lemma OwnersDecideFree(m: Memory, a: Address)
    requires CountsInv(m) && a in m.members && a != NULL
    ensures Free(m, Shared, a) <==> forall g | Owner(m, g, a) :: g.kind == Shared
    ensures Free(m, Unique, a) <==> !Owned(m, a)
  {
    if a in m.refMap {
      assert Holders(m.data, a) != {};
      var g :| g in Holders(m.data, a);
      assert Owner(m, g, a);
    }
  }

  /** Stepping along a list, `head = head->next->next`, when nothing else holds its first two nodes: the
      second node goes with the first, and with it the handle that was to be read. */
  lemma SteppingTwoLinksIsUnsafe(m: Memory, h: Handle, next: Handle, src: Handle)
    requires Good(m) && h in m.data && next in m.data && src in m.data && h != src
    requires h.kind == next.kind == src.kind == Shared && m.data[h] != NULL && m.data[next] != NULL
    requires next.home == m.data[h] && m.refMap[m.data[h]] == 1
    requires src.home == m.data[next] && m.refMap[m.data[next]] == 1
    ensures !Allowed(m, CopyAssign(h, src)) && !Allowed(m, MoveAssign(h, src))
  {
    var a, b := m.data[h], m.data[next];
    SoleHolder(m.data, h, a);
    SoleHolder(m.data, next, b);
    SoleOwner(m, h);
    SoleOwner(m, next);
    assert Owned(m, a) && Owned(m, b);
    assert forall other: set<Address> | Closed(m, [h], other) :: a in other && b in other;
    AssignmentIsSafeExactlyWhen(m, h, src);
  }

  lemma SoleOwner(m: Memory, h: Handle)
    requires CountsInv(m) && UniqueInv(m) && h in m.data && h.kind == Shared && m.data[h] != NULL
    requires Holders(m.data, m.data[h]) == {h}
    ensures Owner(m, h, m.data[h]) && forall g | Owner(m, g, m.data[h]) :: g == h
  {
    forall g | Owner(m, g, m.data[h])
      ensures g == h
    {
      KindOfOwners(m, h, m.data[h]);
      assert g in Holders(m.data, m.data[h]);
    }
  }

  /** From a handle in the very object held, an assignment to a root is safe exactly when that object has
      another holder. */
  lemma AssigningFromItsOwnObject(m: Memory, h: Handle, src: Handle)
    requires Sound(m) && h in m.data && src in m.data && h != src && h.kind == src.kind == Shared
    requires h.home == NULL && m.data[h] != NULL && src.home == m.data[h]
    ensures Allowed(m, CopyAssign(h, src)) <==> m.refMap[m.data[h]] > 1
    ensures Allowed(m, MoveAssign(h, src)) <==> m.refMap[m.data[h]] > 1
  {
    HeldObjectStaysExactlyWhenShared(m, h);
    SurvivesWithItsHome(m, h, h);
    SurvivesWithItsHome(m, h, src);
    EmptyIsReleased(m, h);
    AssignmentNeedsBoth(m, h, src, AfterRelease(m, h));
  }

  lemma AssignmentNeedsBoth(m: Memory, h: Handle, src: Handle, m': Memory)
    requires h in m.data && src in m.data && h != src && m' == ReleaseIfValid(m, h)
    ensures h.kind == src.kind == Shared ==> (Allowed(m, CopyAssign(h, src)) <==> {h, src} <= m'.data.Keys)
    ensures h.kind == src.kind != Weak ==> (Allowed(m, MoveAssign(h, src)) <==> {h, src} <= m'.data.Keys)
  {
  }

  /** A handle survives a release exactly when it is a root or the object it lives in survives. */
  lemma SurvivesWithItsHome(m: Memory, h: Handle, g: Handle)
    requires Sound(m) && h in m.data && g in m.data
    ensures g in AfterRelease(m, h).data <==> g.home == NULL || g.home in AfterRelease(m, h).members
  {
    var gone := ReleaseRemoves(m, h);
    assert g.home != NULL ==> g.home in m.members;
  }

  lemma HeldObjectStaysExactlyWhenShared(m: Memory, h: Handle)
    requires Sound(m) && h in m.data && h.kind == Shared && m.data[h] != NULL
    ensures m.data[h] in m.refMap && m.data[h] in m.members
    ensures m.data[h] in AfterRelease(m, h).members <==> m.refMap[m.data[h]] > 1
  {
    ReleaseIsACascade(m, h);
    if m.refMap[m.data[h]] <= 1 {
      LetGoKeepsInv(m, h, []);
      assert Detach(m, h).1 + [] == Detach(m, h).1;
      CascadeKeepsOwners(LetGoOf(m, h), Detach(m, h).1);
    }
  }

  /** A reset of a stack handle from a shared one is always safe. */
  lemma ResetFromARootIsAlwaysAllowed(m: Memory, h: Handle, src: Handle)
    requires Good(m) && h in m.data && src in m.data && h.kind == src.kind == Shared
    requires h.home == NULL && PARAMETER !in m.data
    ensures Allowed(m, ResetFrom(h, src))
  {
    WithParameterKeeps(m, src);
    ReleaseIfValidKeeps(WithParameter(m, src), h);
  }

  /** Moving from a shared handle never destroys it: its target holds what it held. */
  lemma MovedFromStays(m: Memory, h: Handle, src: Handle)
    requires Good(m) && h in m.data && src in m.data && h != src && h.kind == src.kind == Shared && m.data[h] == NULL
    ensures src in MoveOver(m, h, src).data
  {
    var m' := Acquire(m, h, m.data[src]);
    if m.data[src] != NULL {
      assert m'.refMap[m.data[src]] > 1;
    }
    assert Detach(m', src).1 == [];
  }

  /** Both shared moves leave their source in place. */
  lemma MovesKeepTheirSource(m: Memory, h: Handle, src: Handle)
    requires Good(m) && h.kind == src.kind == Shared
    ensures Allowed(m, MoveConstruct(h, src)) ==> src in Apply(m, MoveConstruct(h, src)).data
    ensures Allowed(m, MoveAssign(h, src)) ==> src in Apply(m, MoveAssign(h, src)).data
  {
    if Allowed(m, MoveConstruct(h, src)) {
      DeclareKeeps(m, h);
      MovedFromStays(Declare(m, h), h, src);
    }
    if Allowed(m, MoveAssign(h, src)) && h != src {
      ReleaseIfValidKeeps(m, h);
      MovedFromStays(ReleaseIfValid(m, h), h, src);
    }
  }
}
