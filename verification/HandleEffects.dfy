/** Where handles point after an operation, and which objects are left, told from what held before it. */
module HandleEffects {
  import opened Handles
  import opened HandleOperations

  /** Every handle but those in `hs` points where it did, or went with the object it lived in. */
  ghost predicate OthersStay(m: Memory, hs: set<Handle>, m': Memory) {
    && (forall g | g !in hs :: g in m'.data <==> g in m.data && (g.home == NULL || g.home in m'.members))
    && (forall g | g in m'.data && g !in hs && g in m.data :: m'.data[g] == m.data[g])
  }

  ghost predicate Holds(m: Memory, h: Handle, a: Address) {
    h in m.data && m.data[h] == a
  }

  /** A new object has an empty handle of each of the given kinds. */
  ghost predicate HasEmptyMembers(m: Memory, a: Address, kinds: seq<Kind>) {
    && a in m.members && |m.members[a]| == |kinds|
    && (forall i | 0 <= i < |kinds| :: m.members[a][i].kind == kinds[i] && m.members[a][i].home == a)
    && (forall g | g in m.members[a] :: Holds(m, g, NULL))
  }

  function Members(m: Memory, a: Address): set<Handle>
    requires a in m.members
  {
    set g | g in m.members[a]
  }

  // ---- Steps -------------------------------------------------------------------------------------

  ghost predicate Leads(m: Memory, hs: set<Handle>, m': Memory) {
    && OthersStay(m, hs, m')
    && (forall a | a in m'.members :: a in m.members && m'.members[a] == m.members[a])
  }

  lemma LeadsInTurn(m: Memory, hs: set<Handle>, m': Memory, hs': set<Handle>, m'': Memory)
    requires Leads(m, hs, m') && Leads(m', hs', m'')
    ensures Leads(m, hs + hs', m'')
  {
  }

  lemma BothInTurn(m: Memory, h: Handle, m': Memory, h': Handle, m'': Memory)
    requires Leads(m, {h}, m') && Leads(m', {h'}, m'')
    ensures Leads(m, {h, h'}, m'')
  {
    LeadsInTurn(m, {h}, m', {h'}, m'');
    assert {h} + {h'} == {h, h'};
  }

  lemma ReleaseLeads(m: Memory, h: Handle)
    requires Good(m) && h in m.data
    ensures Leads(m, {h}, AfterRelease(m, h)) && Good(AfterRelease(m, h))
    ensures h in AfterRelease(m, h).data ==> AfterRelease(m, h).data[h] == NULL
    ensures h in AfterRelease(m, h).data <==> h.home == NULL || h.home in AfterRelease(m, h).members
  {
    var gone := ReleaseRemoves(m, h);
    ReleaseKeeps(m, h);
  }

  lemma ReleaseIfValidLeads(m: Memory, h: Handle)
    requires Good(m) && h in m.data && h.kind != Weak
    ensures Leads(m, {h}, ReleaseIfValid(m, h)) && Good(ReleaseIfValid(m, h))
    ensures h in ReleaseIfValid(m, h).data ==> ReleaseIfValid(m, h).data[h] == NULL
  {
    EmptyIsReleased(m, h);
    ReleaseLeads(m, h);
  }

  lemma AcquireLeads(m: Memory, h: Handle, a: Address)
    requires Good(m) && h in m.data && m.data[h] == NULL && (h.kind != Weak ==> Free(m, h.kind, a))
    ensures Leads(m, {h}, Acquire(m, h, a)) && Good(Acquire(m, h, a))
    ensures Acquire(m, h, a).data == m.data[h := a] && Acquire(m, h, a).members == m.members
  {
    AcquiringIsSetting(m, h, a);
    if h.kind == Weak {
      WeakKeeps(m, h, a);
    } else {
      AcquireKeeps(m, h, a);
    }
    SettingLeads(m, h, a, Acquire(m, h, a));
  }

  lemma AcquiringIsSetting(m: Memory, h: Handle, a: Address)
    requires h in m.data && m.data[h] == NULL
    ensures Acquire(m, h, a).data == m.data[h := a] && Acquire(m, h, a).members == m.members
  {
    assert m.data[h := NULL] == m.data;
  }

  lemma SettingLeads(m: Memory, h: Handle, a: Address, m': Memory)
    requires Sound(m) && (h in m.data || h.home == NULL) && m'.data == m.data[h := a] && m'.members == m.members
    ensures Leads(m, {h}, m')
  {
  }

  lemma DeclareLeads(m: Memory, h: Handle)
    requires Good(m) && h !in m.data && h.home == NULL
    ensures Leads(m, {h}, Declare(m, h)) && Good(Declare(m, h))
    ensures Holds(Declare(m, h), h, NULL) && Declare(m, h).members == m.members
  {
    DeclareKeeps(m, h);
  }

  lemma DestroyLeads(m: Memory, h: Handle)
    requires Good(m) && h in m.data && h.home == NULL
    ensures Leads(m, {h}, Cascade(m, [h])) && h !in Cascade(m, [h]).data
  {
    RootAsWork(m, h);
    assert h in [h];
    var gone := CascadeRemoves(m, [h]);
  }

  // ---- Moves -------------------------------------------------------------------------------------

  /** `h` takes over what `src` held, which is left empty. */
  ghost predicate PassesOver(m: Memory, h: Handle, src: Handle, m': Memory)
    requires src in m.data
  {
    Holds(m', h, m.data[src]) && Holds(m', src, NULL) && Leads(m, {h, src}, m')
  }

  lemma MoveOverPasses(m: Memory, h: Handle, src: Handle)
    requires Good(m) && h in m.data && src in m.data && h != src && m.data[h] == NULL
    requires (h.kind == Shared && src.kind != Weak) || h.kind == src.kind == Unique
    ensures PassesOver(m, h, src, MoveOver(m, h, src))
  {
    if src.kind == Unique {
      UniquePasses(m, h, src, m.(data := m.data[src := NULL]));
    } else {
      SharedPasses(m, h, src, Acquire(m, h, m.data[src]));
    }
  }

  lemma UniquePasses(m: Memory, h: Handle, src: Handle, m': Memory)
    requires Good(m) && h in m.data && src in m.data && h != src && m.data[h] == NULL
    requires h.kind != Weak && src.kind == Unique && m' == m.(data := m.data[src := NULL])
    ensures PassesOver(m, h, src, Acquire(m', h, m.data[src]))
  {
    GivingUpKeeps(m, src);
    SettingLeads(m, src, NULL, m');
    AcquireLeads(m', h, m.data[src]);
    BothInTurn(m, src, m', h, Acquire(m', h, m.data[src]));
  }

  lemma SharedPasses(m: Memory, h: Handle, src: Handle, m': Memory)
    requires Good(m) && h in m.data && src in m.data && h != src && m.data[h] == NULL
    requires h.kind == src.kind == Shared && m' == Acquire(m, h, m.data[src])
    ensures PassesOver(m, h, src, AfterRelease(m', src))
  {
    var a := m.data[src];
    SharedIsFree(m, src);
    AcquireLeads(m, h, a);
    ReleasingOneHolder(m', h, src, a);
    BothInTurn(m, h, m', src, AfterRelease(m', src));
  }

  lemma ReleasingOneHolder(m: Memory, h: Handle, src: Handle, a: Address)
    requires Good(m) && Holds(m, h, a) && Holds(m, src, a) && h != src && h.kind == src.kind == Shared
    ensures Leads(m, {src}, AfterRelease(m, src))
    ensures Holds(AfterRelease(m, src), h, a) && Holds(AfterRelease(m, src), src, NULL)
  {
    ReleaseLeads(m, src);
    HolderStays(m, h, src);
  }

  /** Two handles holding one object both outlast the release of one of them. */
  lemma HolderStays(m: Memory, h: Handle, src: Handle)
    requires Good(m) && h in m.data && src in m.data && h != src && h.kind == src.kind == Shared
    requires m.data[h] == m.data[src]
    ensures AfterRelease(m, src).data == m.data[src := NULL]
  {
    var a := m.data[src];
    if a != NULL {
      assert {h, src} <= Holders(m.data, a);
      TwoAreTwo(h, src, Holders(m.data, a));
    }
    assert Detach(m, src).1 == [];
  }

  lemma TwoAreTwo(h: Handle, g: Handle, s: set<Handle>)
    requires h != g && h in s && g in s
    ensures |s| > 1
  {
    assert s == (s - {h} - {g}) + {h} + {g};
  }

  lemma UniqueTakesOverPasses(m: Memory, h: Handle, src: Handle, m1: Memory)
    requires Good(m) && h in m.data && src in m.data && h != src && h.kind == src.kind == Unique
    requires m.data[src] != NULL && m1 == m.(data := m.data[src := NULL]) && h in AfterRelease(m1, h).data
    ensures Holds(MoveOver(m, h, src), h, m.data[src])
    ensures src in MoveOver(m, h, src).data ==> MoveOver(m, h, src).data[src] == NULL
    ensures Leads(m, {h, src}, MoveOver(m, h, src))
  {
    GivingUpKeeps(m, src);
    SettingLeads(m, src, NULL, m1);
    ReplacingByFree(m1, h, m.data[src]);
    TakingOverInSteps(m, h, src, m1);
    BothInTurn(m, src, m1, h, MoveOver(m, h, src));
  }

  lemma ReplacingByFree(m: Memory, h: Handle, a: Address)
    requires Good(m) && h in m.data && h.kind == Unique && h in AfterRelease(m, h).data
    requires a != NULL && Free(m, Unique, a)
    ensures var m' := Acquire(ReleaseIfValid(m, h), h, a); Leads(m, {h}, m') && Holds(m', h, a)
  {
    StaysFree(m, h, a);
    EmptyIsReleased(m, h);
    ReplacingLeads(m, h, a);
  }

  lemma TakingOverInSteps(m: Memory, h: Handle, src: Handle, m1: Memory)
    requires Good(m1) && h in m1.data && src in m.data && h != src && h.kind == src.kind == Unique
    requires m.data[src] != NULL && m1 == m.(data := m.data[src := NULL]) && h in AfterRelease(m1, h).data
    requires m1.data[h] != m.data[src]
    ensures MoveOver(m, h, src) == Acquire(ReleaseIfValid(m1, h), h, m.data[src])
  {
    EmptyIsReleased(m1, h);
    ReleaseLeads(m1, h);
    ReleasedTwice(m1, h);
  }

  lemma SettingTwice(data: map<Handle, Address>, h: Handle, a: Address)
    ensures data[h := NULL][h := a] == data[h := a]
  {
  }

  lemma ConstructingLeads(m: Memory, h: Handle, a: Address)
    requires Good(m) && h !in m.data && h.home == NULL
    requires h.kind != Weak ==> Free(Declare(m, h), h.kind, a)
    ensures var m' := Acquire(Declare(m, h), h, a);
            Leads(m, {h}, m') && Good(m') && m'.data == m.data[h := a]
  {
    DeclareKeeps(m, h);
    AcquireLeads(Declare(m, h), h, a);
    SettingTwice(m.data, h, a);
    SettingLeads(m, h, a, Acquire(Declare(m, h), h, a));
  }

  lemma DeclaringKeepsFree(m: Memory, h: Handle, src: Handle)
    requires Sound(m) && h !in m.data && src in m.data && src.kind == Shared
    ensures Free(Declare(m, h), Shared, m.data[src])
  {
  }

  lemma ParameterComes(m: Memory, src: Handle, p: Handle)
    requires Good(m) && src in m.data && src.kind == p.kind == Shared && p.home == NULL && p !in m.data
    ensures var m' := Acquire(Declare(m, p), p, Data(m, src));
            Leads(m, {p}, m') && Good(m') && m'.data == m.data[p := m.data[src]]
  {
    DeclaringKeepsFree(m, p, src);
    ConstructingLeads(m, p, m.data[src]);
  }

  /** Letting go and taking on. */
  lemma ReplacingLeads(m: Memory, h: Handle, a: Address)
    requires Good(m) && h in m.data && h.kind != Weak && h in ReleaseIfValid(m, h).data
    requires Free(ReleaseIfValid(m, h), h.kind, a)
    ensures var m' := Acquire(ReleaseIfValid(m, h), h, a); Leads(m, {h}, m') && Good(m') && Holds(m', h, a)
  {
    var r := ReleaseIfValid(m, h);
    ReleaseIfValidLeads(m, h);
    AcquireLeads(r, h, a);
    LeadsInTurn(m, {h}, r, {h}, Acquire(r, h, a));
    assert {h} + {h} == {h};
  }

  lemma ResetFromPoints(m: Memory, h: Handle, src: Handle)
    requires Good(m) && Allowed(m, ResetFrom(h, src))
    ensures Holds(Apply(m, ResetFrom(h, src)), h, m.data[src])
    ensures Leads(m, {h}, Apply(m, ResetFrom(h, src)))
  {
    var a, m' := m.data[src], WithParameter(m, src);
    ParameterComes(m, src, PARAMETER);
    if m.data[h] == a {
      SettingLeads(m', h, a, m');
      ParameterGoes(m, h, a, m', m');
    } else {
      ResettingWithParameter(m', h, a);
      ParameterGoes(m, h, a, m', Acquire(ReleaseIfValid(m', h), h, a));
    }
  }

  lemma ResettingWithParameter(m: Memory, h: Handle, a: Address)
    requires Good(m) && h in m.data && h.kind == Shared && h != PARAMETER && Holds(m, PARAMETER, a)
    requires h in ReleaseIfValid(m, h).data
    ensures var m' := Acquire(ReleaseIfValid(m, h), h, a);
            Leads(m, {h}, m') && Good(m') && Holds(m', h, a) && Holds(m', PARAMETER, a)
  {
    ReleaseIfValidLeads(m, h);
    SharedIsFree(ReleaseIfValid(m, h), PARAMETER);
    ReplacingLeads(m, h, a);
  }

  lemma ParameterGoes(m: Memory, h: Handle, a: Address, m': Memory, last: Memory)
    requires Good(last) && h.kind == Shared && h != PARAMETER && PARAMETER !in m.data
    requires Holds(last, h, a) && Holds(last, PARAMETER, a)
    requires Leads(m, {PARAMETER}, m') && Leads(m', {h}, last)
    ensures Holds(Cascade(last, [PARAMETER]), h, a) && Leads(m, {h}, Cascade(last, [PARAMETER]))
  {
    DestroyLeads(last, PARAMETER);
    DestroyingOneHolder(last, h, PARAMETER);
    LeadsInTurn(m, {PARAMETER}, m', {h}, last);
    LeadsInTurn(m, {PARAMETER} + {h}, last, {PARAMETER}, Cascade(last, [PARAMETER]));
  }

  lemma DestroyingOneHolder(m: Memory, h: Handle, p: Handle)
    requires Good(m) && h in m.data && p in m.data && h != p && h.kind == p.kind == Shared && m.data[h] == m.data[p]
    ensures Cascade(m, [p]).data == m.data - {p}
  {
    var a := m.data[p];
    if a != NULL {
      assert h in Holders(m.data, a) && p in Holders(m.data, a);
      TwoAreTwo(h, p, Holders(m.data, a));
    }
    assert Detach(m, p).1 == [] && [p][1..] == [];
    assert Cascade(m, [p]) == Cascade(Destruct(m, p).0, []);
  }

  lemma NewLeads(m: Memory, a: Address, kinds: seq<Kind>)
    requires Good(m) && a != NULL && a !in m.members
    ensures HasEmptyMembers(NewObject(m, a, kinds), a, kinds)
    ensures OthersStay(m, Members(NewObject(m, a, kinds), a), NewObject(m, a, kinds))
  {
    NewMembers(m, a, kinds);
  }

  lemma AdoptingPoints(m: Memory, h: Handle, a: Address)
    requires Good(m) && Allowed(m, Adopt(h, a))
    ensures Holds(Apply(m, Adopt(h, a)), h, a) && OthersStay(m, {h}, Apply(m, Adopt(h, a)))
  {
    ConstructingLeads(m, h, a);
  }

  lemma CopyConstructingPoints(m: Memory, h: Handle, src: Handle)
    requires Good(m) && Allowed(m, CopyConstruct(h, src))
    ensures var m' := Apply(m, CopyConstruct(h, src)); Holds(m', h, m.data[src]) && OthersStay(m, {h}, m')
  {
    if h.kind == Shared {
      DeclaringKeepsFree(m, h, src);
    }
    ConstructingLeads(m, h, m.data[src]);
  }

  lemma MoveConstructingPoints(m: Memory, h: Handle, src: Handle)
    requires Good(m) && Allowed(m, MoveConstruct(h, src))
    ensures var m' := Apply(m, MoveConstruct(h, src));
            Holds(m', h, m.data[src]) && Holds(m', src, NULL) && OthersStay(m, {h, src}, m')
  {
    var d := Declare(m, h);
    DeclareLeads(m, h);
    MoveOverPasses(d, h, src);
    LeadsInTurn(m, {h}, d, {h, src}, MoveOver(d, h, src));
    assert {h} + {h, src} == {h, src};
  }

  lemma CopyingOver(m: Memory, h: Handle, src: Handle, r: Memory)
    requires Good(m) && h in m.data && src in m.data && h != src && h.kind == src.kind == Shared
    requires r == ReleaseIfValid(m, h) && h in r.data && src in r.data
    ensures r.data[src] == m.data[src]
    ensures Holds(Acquire(r, h, m.data[src]), h, m.data[src]) && OthersStay(m, {h}, Acquire(r, h, m.data[src]))
  {
    ReleaseIfValidLeads(m, h);
    SharedIsFree(r, src);
    ReplacingLeads(m, h, m.data[src]);
  }

  lemma CopyAssigningPoints(m: Memory, h: Handle, src: Handle)
    requires Good(m) && Allowed(m, CopyAssign(h, src))
    ensures var m' := Apply(m, CopyAssign(h, src)); Holds(m', h, m.data[src]) && OthersStay(m, {h}, m')
  {
    if h == src {
      SettingLeads(m, h, m.data[h], m);
    } else {
      CopyingOver(m, h, src, ReleaseIfValid(m, h));
    }
  }

  lemma MoveAssigningPoints(m: Memory, h: Handle, src: Handle)
    requires Good(m) && Allowed(m, MoveAssign(h, src))
    ensures var m' := Apply(m, MoveAssign(h, src));
            && Holds(m', h, m.data[src]) && OthersStay(m, {h, src}, m')
            && (h != src ==> Holds(m', src, NULL))
  {
    if h == src {
      SettingLeads(m, h, m.data[h], m);
    } else {
      var r := ReleaseIfValid(m, h);
      ReleaseIfValidLeads(m, h);
      MoveOverPasses(r, h, src);
      LeadsInTurn(m, {h}, r, {h, src}, MoveOver(r, h, src));
      assert {h} + {h, src} == {h, src};
    }
  }

  lemma ResettingPoints(m: Memory, h: Handle, a: Address)
    requires Good(m) && Allowed(m, ResetTo(h, a))
    ensures Holds(Apply(m, ResetTo(h, a)), h, a) && OthersStay(m, {h}, Apply(m, ResetTo(h, a)))
  {
    if m.data[h] == a {
      SettingLeads(m, h, a, m);
    } else {
      ReplacingLeads(m, h, a);
    }
  }

  lemma UniqueResettingPoints(m: Memory, h: Handle, src: Handle)
    requires Good(m) && Allowed(m, UniqueResetFrom(h, src))
    ensures var m' := Apply(m, UniqueResetFrom(h, src));
            && Holds(m', h, m.data[src]) && OthersStay(m, {h, src}, m')
            && (h != src && src in m'.data ==> m'.data[src] == NULL)
  {
    if m.data[src] == NULL {
      assert m.data[src := NULL] == m.data;
      ReleaseLeads(m, h);
    } else if h == src {
      SettingLeads(m, h, m.data[h], m);
    } else {
      UniqueTakesOverPasses(m, h, src, m.(data := m.data[src := NULL]));
    }
  }

  /** Where everything points after an operation: its target holds what its source held, or the address
      given; what was moved from, released or retrieved is empty; a new object has empty handles; and
      every other handle holds what it held, or went with its object. */
  lemma OperationPoints(m: Memory, op: Operation)
    requires Good(m) && Allowed(m, op)
    ensures var m' := Apply(m, op);
            match op
            case New(a, kinds) => HasEmptyMembers(m', a, kinds) && OthersStay(m, Members(m', a), m')
            case Default(h) => Holds(m', h, NULL) && OthersStay(m, {h}, m')
            case Adopt(h, a) => Holds(m', h, a) && OthersStay(m, {h}, m')
            case CopyConstruct(h, src) => Holds(m', h, m.data[src]) && OthersStay(m, {h}, m')
            case MoveConstruct(h, src) =>
              Holds(m', h, m.data[src]) && Holds(m', src, NULL) && OthersStay(m, {h, src}, m')
            case CopyAssign(h, src) => Holds(m', h, m.data[src]) && OthersStay(m, {h}, m')
            case MoveAssign(h, src) =>
              && Holds(m', h, m.data[src]) && OthersStay(m, {h, src}, m')
              && (h != src ==> Holds(m', src, NULL))
            case ResetTo(h, a) => Holds(m', h, a) && OthersStay(m, {h}, m')
            case ResetFrom(h, src) => Holds(m', h, m.data[src]) && OthersStay(m, {h}, m')
            case UniqueResetFrom(h, src) =>
              && Holds(m', h, m.data[src]) && OthersStay(m, {h, src}, m')
              && (h != src && src in m'.data ==> m'.data[src] == NULL)
            case WeakAssign(h, src) => Holds(m', h, m.data[src]) && OthersStay(m, {h}, m')
            case Retrieve(h) => Holds(m', h, NULL) && OthersStay(m, {h}, m')
            case Let(h) => Holds(m', h, NULL) && OthersStay(m, {h}, m')
            case Destroy(h) => h !in m'.data && OthersStay(m, {h}, m')
  {
    match op
    case New(a, kinds) => NewLeads(m, a, kinds);
    case Default(h) => DeclareLeads(m, h);
    case Adopt(h, a) => AdoptingPoints(m, h, a);
    case CopyConstruct(h, src) => CopyConstructingPoints(m, h, src);
    case MoveConstruct(h, src) => MoveConstructingPoints(m, h, src);
    case CopyAssign(h, src) => CopyAssigningPoints(m, h, src);
    case MoveAssign(h, src) => MoveAssigningPoints(m, h, src);
    case ResetTo(h, a) => ResettingPoints(m, h, a);
    case ResetFrom(h, src) => ResetFromPoints(m, h, src);
    case UniqueResetFrom(h, src) => UniqueResettingPoints(m, h, src);
    case WeakAssign(h, src) => SettingLeads(m, h, m.data[src], Apply(m, op));
    case Retrieve(h) => SettingLeads(m, h, NULL, Apply(m, op));
    case Let(h) => ReleaseLeads(m, h);
    case Destroy(h) => DestroyLeads(m, h);
  }

  // ---- Which objects are left --------------------------------------------------------------------

  lemma PassingDestroysNothing(m: Memory, h: Handle, src: Handle)
    requires Good(m) && h in m.data && src in m.data && h != src && m.data[h] == NULL
    requires (h.kind == Shared && src.kind != Weak) || h.kind == src.kind == Unique
    ensures MoveOver(m, h, src).members == m.members
  {
    if src.kind == Unique {
      AcquiringIsSetting(m.(data := m.data[src := NULL]), h, m.data[src]);
    } else {
      SharedIsFree(m, src);
      AcquireLeads(m, h, m.data[src]);
      OneHolderDestroysNothing(Acquire(m, h, m.data[src]), h, src);
    }
  }

  lemma OneHolderDestroysNothing(m: Memory, h: Handle, src: Handle)
    requires Good(m) && h in m.data && src in m.data && h != src && h.kind == src.kind == Shared
    requires m.data[h] == m.data[src]
    ensures AfterRelease(m, src).members == m.members
    ensures Cascade(m, [src]).members == m.members
  {
    var a := m.data[src];
    if a != NULL {
      TwoAreTwo(h, src, Holders(m.data, a));
    }
    assert Detach(m, src).1 == [] && [src][1..] == [];
    assert Cascade(m, [src]) == Cascade(Destruct(m, src).0, []);
  }

  /** What nobody owns is not destroyed with a stack handle. */
  lemma UnownedSurvivesDestroy(m: Memory, h: Handle, b: Address)
    requires Good(m) && h in m.data && h.home == NULL && b in m.members && !Owned(m, b)
    ensures b in Cascade(m, [h]).members
  {
    RootAsWork(m, h);
    var gone := CascadeRemoves(m, [h]);
    forall i | 0 <= i < |gone|
      ensures gone[i] != b
    {
      assert Owned(m, gone[i]);
    }
  }

  lemma StaysUnowned(m: Memory, h: Handle, a: Address, m': Memory, b: Address)
    requires b in m.members && !Owned(m, b) && m'.data == m.data[h := a] && b != a
    ensures !Owned(m', b)
  {
    assert forall g | Owner(m', g, b) :: Owner(m, g, b);
  }

  lemma ResetFromLeaves(m: Memory, h: Handle, src: Handle, b: Address)
    requires Good(m) && Allowed(m, ResetFrom(h, src)) && b in m.members && !Owned(m, b)
    ensures b in Apply(m, ResetFrom(h, src)).members
  {
    var a, m' := m.data[src], WithParameter(m, src);
    ParameterComes(m, src, PARAMETER);
    WithParameterMembers(m, src, PARAMETER);
    assert a == b ==> Owner(m, src, b);
    if m.data[h] == a {
      OneHolderDestroysNothing(m', h, PARAMETER);
    } else {
      StaysUnowned(m, PARAMETER, a, m', b);
      ResettingLeaves(m', h, a, b, Acquire(ReleaseIfValid(m', h), h, a));
    }
  }

  lemma WithParameterMembers(m: Memory, src: Handle, p: Handle)
    requires p !in m.data && p.kind == Shared
    ensures Acquire(Declare(m, p), p, Data(m, src)).members == m.members
  {
  }

  lemma ResettingLeaves(m: Memory, h: Handle, a: Address, b: Address, last: Memory)
    requires Good(m) && h in m.data && h.kind == Shared && h != PARAMETER && Holds(m, PARAMETER, a)
    requires h in ReleaseIfValid(m, h).data && last == Acquire(ReleaseIfValid(m, h), h, a)
    requires b in m.members && !Owned(m, b)
    ensures b in Cascade(last, [PARAMETER]).members
  {
    EmptyIsReleased(m, h);
    UnownedSurvives(m, h, b);
    ReleaseIfValidLeads(m, h);
    AcquiringIsSetting(ReleaseIfValid(m, h), h, a);
    ResettingWithParameter(m, h, a);
    OneHolderDestroysNothing(last, h, PARAMETER);
  }

  lemma UniqueResetLeaves(m: Memory, h: Handle, src: Handle, b: Address)
    requires Good(m) && Allowed(m, UniqueResetFrom(h, src)) && b in m.members && !Owned(m, b)
    ensures b in Apply(m, UniqueResetFrom(h, src)).members
  {
    if m.data[src] == NULL {
      UnownedSurvives(m, h, b);
    } else if h != src {
      var m1 := m.(data := m.data[src := NULL]);
      GivingUpKeeps(m, src);
      StaysUnowned(m, src, NULL, m1, b);
      UnownedSurvives(m1, h, b);
      EmptyIsReleased(m1, h);
      ReleaseIfValidLeads(m1, h);
      TakingOverInSteps(m, h, src, m1);
      AcquiringIsSetting(ReleaseIfValid(m1, h), h, m.data[src]);
    }
  }

  /** What nobody owns goes with no operation. */
  lemma UnownedStays(m: Memory, op: Operation, b: Address)
    requires Good(m) && Allowed(m, op) && b in m.members && !Owned(m, b)
    ensures b in Apply(m, op).members
  {
    match op
    case New(_, _) =>
    case Default(_) =>
    case Adopt(h, a) => AcquiringIsSetting(Declare(m, h), h, a);
    case CopyConstruct(h, src) => AcquiringIsSetting(Declare(m, h), h, m.data[src]);
    case MoveConstruct(h, src) =>
      DeclareKeeps(m, h);
      PassingDestroysNothing(Declare(m, h), h, src);
    case CopyAssign(h, src) =>
      if h != src {
        EmptyIsReleased(m, h);
        UnownedSurvives(m, h, b);
        ReleaseIfValidLeads(m, h);
        AcquiringIsSetting(ReleaseIfValid(m, h), h, Data(ReleaseIfValid(m, h), src));
      }
    case MoveAssign(h, src) =>
      if h != src {
        EmptyIsReleased(m, h);
        UnownedSurvives(m, h, b);
        ReleaseIfValidLeads(m, h);
        PassingDestroysNothing(ReleaseIfValid(m, h), h, src);
      }
    case ResetTo(h, a) =>
      if m.data[h] != a {
        EmptyIsReleased(m, h);
        UnownedSurvives(m, h, b);
        ReleaseIfValidLeads(m, h);
        AcquiringIsSetting(ReleaseIfValid(m, h), h, a);
      }
    case ResetFrom(h, src) => ResetFromLeaves(m, h, src, b);
    case UniqueResetFrom(h, src) => UniqueResetLeaves(m, h, src, b);
    case WeakAssign(_, _) =>
    case Retrieve(_) =>
    case Let(h) => UnownedSurvives(m, h, b);
    case Destroy(h) => UnownedSurvivesDestroy(m, h, b);
  }

  /** Which objects an operation destroys: exactly those that had an owner and have none left, unless the
      caller retrieves the object, which destroys nothing. */
  lemma OperationDestroysExactly(m: Memory, op: Operation, a: Address)
    requires Good(m) && Allowed(m, op) && a in m.members
    ensures a !in Apply(m, op).members <==> !op.Retrieve? && Owned(m, a) && !Owned(Apply(m, op), a)
  {
    OperationKeeps(m, op);
    if !Owned(m, a) {
      UnownedStays(m, op, a);
    }
    if !op.Retrieve? {
      DestroyedExactlyWhen(m, Apply(m, op), a);
    }
  }

  lemma DestroyedExactlyWhen(m: Memory, m': Memory, a: Address)
    requires Good(m') && KeepsOwners(m, m') && (!Owned(m, a) ==> a in m'.members)
    ensures a !in m'.members <==> Owned(m, a) && !Owned(m', a)
  {
    if g: Handle :| Owner(m', g, a) {
      assert a in m'.members;
    }
  }
}
