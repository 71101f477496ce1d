/** The shared, weak and unique handles of SpNetCommon/src/Utils/Memory.h, single-threaded.

    A handle is named by where it lives: on the stack or in a global (`home` is NULL), or as a member
    of the object at address `home`. Destroying an object runs the destructors of its member handles,
    which may release further objects, and so on. */
module Handles {

  type Address = nat
  const NULL: Address := 0

  datatype Kind = Shared | Weak | Unique
  datatype Handle = Handle(home: Address, slot: nat, kind: Kind)

  datatype Memory = Memory(
    refMap: map<Address, nat>,            // the global RefMap
    data: map<Handle, Address>,           // the Data field of every existing handle
    members: map<Address, seq<Handle>>,   // every live object, with its handles in destruction order
    created: seq<Address>,                // every object ever created, in order
    destroyed: seq<Address>               // every object whose destructor was started, in order
  )

  const EMPTY_MEMORY := Memory(map[], map[], map[], [], [])

  // ---- Releasing and destroying ------------------------------------------------------------------

  /** `harz_delete`: the object is gone, its member handles remain to be destroyed. */
  function Delete(m: Memory, a: Address): (Memory, seq<Handle>) {
    if a in m.members
    then (m.(members := m.members - {a}, destroyed := m.destroyed + [a]), m.members[a])
    else (m, [])
  }

  /** What releasing a handle does apart from the handle's own Data: the last shared handle and every
      unique handle delete the object. Yields the member handles that remain to be destroyed. */
  function Detach(m: Memory, h: Handle): (Memory, seq<Handle>) {
    var a := if h in m.data then m.data[h] else NULL;
    match h.kind
    case Weak => (m, [])
    case Unique => if a == NULL then (m, []) else Delete(m, a)
    case Shared =>
      if a == NULL || a !in m.refMap then (m, [])
      else if m.refMap[a] > 1 then (m.(refMap := m.refMap[a := m.refMap[a] - 1]), [])
      else Delete(m.(refMap := m.refMap - {a}), a)
  }

  /** The destructors of the handles `work`, run one after the other, each with everything it sets off
      before the next one starts. */
  function Cascade(m: Memory, work: seq<Handle>): Memory
    decreases |m.members|, |work|
  {
    if work == [] then m
    else
      var (after, more) := Destruct(m, work[0]);
      DestructShrinks(m, work[0]);
      Cascade(after, more + work[1..])
  }

  function Destruct(m: Memory, h: Handle): (Memory, seq<Handle>) {
    var (after, more) := Detach(m, h);
    (after.(data := after.data - {h}), more)
  }

  /** What Detach does to the live objects: at most one goes, and its members are left over. */
  lemma DetachParts(m: Memory, h: Handle)
    ensures var (d, more) := Detach(m, h);
            && d.data == m.data && d.created == m.created
            && ((more == [] && d.members == m.members && d.destroyed == m.destroyed)
                || (&& h in m.data && m.data[h] in m.members
                    && more == m.members[m.data[h]]
                    && d.members == m.members - {m.data[h]}
                    && d.destroyed == m.destroyed + [m.data[h]]))
  {
  }

  lemma DestructShrinks(m: Memory, h: Handle)
    ensures var (after, more) := Destruct(m, h);
            |after.members| < |m.members| || (after.members == m.members && more == [])
  {
    DetachParts(m, h);
    if h in m.data && m.data[h] in m.members {
      RemovalShrinks(m.members, m.data[h]);
    }
  }

  lemma RemovalShrinks(members: map<Address, seq<Handle>>, a: Address)
    requires a in members
    ensures |members - {a}| < |members|
  {
    assert (members - {a}).Keys < members.Keys;
    assert members.Keys == (members - {a}).Keys + {a};
  }

  /** `Release` on a handle that goes on existing. */
  function AfterRelease(m: Memory, h: Handle): Memory {
    var (after, more) := Detach(m, h);
    Cascade(after.(data := after.data[h := NULL]), more)
  }

  // ---- The invariant -----------------------------------------------------------------------------

  /** The shared handles holding `a`. */
  ghost function Holders(data: map<Handle, Address>, a: Address): set<Handle> {
    set h | h in data && h.kind == Shared && data[h] == a
  }

  ghost predicate Distinct(s: seq<Handle>) {
    forall i, j | 0 <= i < j < |s| :: s[i] != s[j]
  }

  /** RefMap has an entry for exactly the addresses that shared handles hold: their number. */
  ghost predicate CountsInv(m: Memory) {
    && (forall a | a in m.refMap :: a in m.members && m.refMap[a] == |Holders(m.data, a)| && m.refMap[a] > 0)
    && (forall h | h in m.data && h.kind == Shared && m.data[h] != NULL :: m.data[h] in m.refMap)
  }

  /** A unique handle is the only owner of its object. */
  ghost predicate UniqueInv(m: Memory) {
    && (forall h | h in m.data && h.kind == Unique && m.data[h] != NULL ::
          m.data[h] in m.members && m.data[h] !in m.refMap)
    && (forall g, h | g in m.data && h in m.data && g.kind == h.kind == Unique && m.data[g] == m.data[h] != NULL ::
          g == h)
  }

  ghost predicate MembersInv(m: Memory) {
    && NULL !in m.members
    && (forall a | a in m.members :: Distinct(m.members[a]))
    && (forall a, h | a in m.members && h in m.members[a] :: h in m.data && h.home == a)
  }

  /** `work` are the member handles of destroyed objects whose destructors have not run yet; every
      other handle is a root or a member of a live object. */
  ghost predicate WorkInv(m: Memory, work: seq<Handle>) {
    && Distinct(work)
    && (forall h | h in work :: h in m.data && h.home !in m.members)
    && (forall h | h in m.data && h.home != NULL && h !in work :: h.home in m.members && h in m.members[h.home])
  }

  ghost predicate PlacesInv(m: Memory, work: seq<Handle>) {
    MembersInv(m) && WorkInv(m, work)
  }

  ghost predicate Inv(m: Memory, work: seq<Handle>) {
    CountsInv(m) && UniqueInv(m) && PlacesInv(m, work)
  }

  lemma HoldersWithout(data: map<Handle, Address>, h: Handle, a: Address)
    ensures Holders(data - {h}, a) == Holders(data, a) - {h}
  {
  }

  lemma HoldersCleared(data: map<Handle, Address>, h: Handle, a: Address)
    requires a != NULL
    ensures Holders(data[h := NULL], a) == Holders(data, a) - {h}
  {
  }

  lemma SoleHolder(data: map<Handle, Address>, h: Handle, a: Address)
    requires h in Holders(data, a) && |Holders(data, a)| == 1
    ensures Holders(data, a) == {h}
  {
    assert |Holders(data, a) - {h}| == 0;
  }

  /** The handle's own Data after it let go: gone with the handle, or null. */
  ghost predicate LetGo(data: map<Handle, Address>, h: Handle, data': map<Handle, Address>) {
    data' == data - {h} || data' == data[h := NULL]
  }

  lemma LetGoHolders(data: map<Handle, Address>, h: Handle, data': map<Handle, Address>, a: Address)
    requires LetGo(data, h, data') && a != NULL
    ensures Holders(data', a) == Holders(data, a) - {h}
  {
    HoldersWithout(data, h, a);
    HoldersCleared(data, h, a);
  }

  lemma DetachKeepsCounts(m: Memory, h: Handle, data': map<Handle, Address>)
    requires CountsInv(m) && UniqueInv(m) && h in m.data && LetGo(m.data, h, data') && NULL !in m.members
    ensures CountsInv(Detach(m, h).0.(data := data'))
  {
    var m' := Detach(m, h).0.(data := data');
    var a := m.data[h];
    forall b | b in m'.refMap
      ensures b in m'.members && m'.refMap[b] == |Holders(data', b)| && m'.refMap[b] > 0
    {
      assert b in m.refMap;
      LetGoHolders(m.data, h, data', b);
      assert h in Holders(m.data, b) <==> h.kind == Shared && b == a;
    }
    forall g | g in data' && g.kind == Shared && data'[g] != NULL
      ensures data'[g] in m'.refMap
    {
      StillCounted(m, h, g);
    }
  }

  lemma StillCounted(m: Memory, h: Handle, g: Handle)
    requires CountsInv(m) && UniqueInv(m) && h in m.data && NULL !in m.members
    requires g in m.data && g != h && g.kind == Shared && m.data[g] != NULL
    ensures m.data[g] in Detach(m, h).0.refMap
  {
    var a := m.data[h];
    if h.kind == Shared && m.data[g] == a && m.refMap[a] == 1 {
      assert g in Holders(m.data, a);
      SoleHolder(m.data, h, a);
    }
  }

  lemma DetachKeepsUnique(m: Memory, h: Handle, data': map<Handle, Address>)
    requires CountsInv(m) && UniqueInv(m) && h in m.data && LetGo(m.data, h, data') && NULL !in m.members
    ensures UniqueInv(Detach(m, h).0.(data := data'))
  {
  }

  lemma DistinctParts(h: Handle, rest: seq<Handle>)
    requires Distinct([h] + rest)
    ensures Distinct(rest) && h !in rest
    ensures forall g :: g in [h] + rest <==> g == h || g in rest
  {
    var all := [h] + rest;
    assert all[0] == h && forall i | 0 <= i < |rest| :: all[i + 1] == rest[i];
  }

  lemma DistinctJoin(a: seq<Handle>, b: seq<Handle>)
    requires Distinct(a) && Distinct(b) && forall h | h in a :: h !in b
    ensures Distinct(a + b)
  {
    forall i, j | 0 <= i < j < |a + b|
      ensures (a + b)[i] != (a + b)[j]
    {
      if i < |a| <= j {
        assert a[i] in a && b[j - |a|] in b;
      }
    }
  }

  lemma DestructKeepsPlaces(m: Memory, h: Handle, rest: seq<Handle>)
    requires PlacesInv(m, [h] + rest)
    ensures PlacesInv(Destruct(m, h).0, Destruct(m, h).1 + rest)
  {
    DistinctParts(h, rest);
    DetachParts(m, h);
    var (m', more) := Destruct(m, h);
    assert h in [h] + rest;
    forall g | g in more
      ensures g in m'.data && g.home !in m'.members && g !in rest
    {
      assert g in [h] + rest ==> g.home !in m.members;
    }
    DistinctJoin(more, rest);
  }

  lemma DestructKeepsInv(m: Memory, h: Handle, rest: seq<Handle>)
    requires Inv(m, [h] + rest)
    ensures Inv(Destruct(m, h).0, Destruct(m, h).1 + rest)
  {
    DistinctParts(h, rest);
    DetachParts(m, h);
    assert h in [h] + rest;
    DetachKeepsCounts(m, h, m.data - {h});
    DetachKeepsUnique(m, h, m.data - {h});
    DestructKeepsPlaces(m, h, rest);
  }

  lemma Assoc<T>(a: seq<T>, b: seq<T>, c: seq<T>)
    ensures a + (b + c) == (a + b) + c
  {
  }

  lemma DestructFirstKeepsInv(m: Memory, work: seq<Handle>, rest: seq<Handle>)
    requires work != [] && Inv(m, work + rest)
    ensures var (m', more) := Destruct(m, work[0]); Inv(m', (more + work[1..]) + rest)
  {
    var (m', more) := Destruct(m, work[0]);
    Assoc([work[0]], work[1..], rest);
    Assoc(more, work[1..], rest);
    assert [work[0]] + work[1..] == work;
    DestructKeepsInv(m, work[0], work[1..] + rest);
  }

  lemma {:induction false} CascadeKeepsInv(m: Memory, work: seq<Handle>, rest: seq<Handle>)
    requires Inv(m, work + rest)
    ensures Inv(Cascade(m, work), rest)
    decreases |m.members|, |work|
  {
    if work == [] {
      assert work + rest == rest;
    } else {
      var (m', more) := Destruct(m, work[0]);
      DestructShrinks(m, work[0]);
      DestructFirstKeepsInv(m, work, rest);
      CascadeKeepsInv(m', more + work[1..], rest);
    }
  }

  lemma {:induction false} CascadeSplits(m: Memory, first: seq<Handle>, then_: seq<Handle>)
    ensures Cascade(m, first + then_) == Cascade(Cascade(m, first), then_)
    ensures |Cascade(m, first).members| <= |m.members|
    decreases |m.members|, |first|
  {
    if first == [] {
      assert first + then_ == then_;
    } else {
      var (m', more) := Destruct(m, first[0]);
      DestructShrinks(m, first[0]);
      assert (first + then_)[0] == first[0];
      assert more + (first + then_)[1..] == (more + first[1..]) + then_;
      CascadeSplits(m', more + first[1..], then_);
    }
  }

  // ---- What a cascade destroys -------------------------------------------------------------------

  predicate Owner(m: Memory, h: Handle, a: Address) {
    h in m.data && h.kind != Weak && m.data[h] == a && a != NULL
  }

  /** `gone` are the objects destroyed on the way from `m` to `m'`, each once; the others stay. */
  ghost predicate RemovesObjects(m: Memory, m': Memory, gone: seq<Address>) {
    && m'.destroyed == m.destroyed + gone
    && m'.created == m.created
    && (forall i, j | 0 <= i < j < |gone| :: gone[i] != gone[j])
    && (forall a | a in gone :: a in m.members)
    && (forall a :: a in m'.members <==> a in m.members && a !in gone)
    && (forall a | a in m'.members :: m'.members[a] == m.members[a])
  }

  /** The handles destroyed are those of `work` and the members of the objects gone. */
  ghost predicate RemovesHandles(m: Memory, work: seq<Handle>, m': Memory, gone: seq<Address>) {
    && (forall h :: h in m'.data <==> h in m.data && h !in work && h.home !in gone)
    && (forall h | h in m'.data :: m'.data[h] == m.data[h])
  }

  ghost predicate Owned(m: Memory, a: Address) {
    exists h :: Owner(m, h, a)
  }

  /** Each object goes only when every owner it had is among `work` or in an object gone before. */
  ghost predicate Justified(m: Memory, work: seq<Handle>, gone: seq<Address>) {
    forall i | 0 <= i < |gone| :: Owned(m, gone[i]) && OwnersGone(m, work, gone[i], gone[..i])
  }

  ghost predicate OwnersGone(m: Memory, work: seq<Handle>, a: Address, before: seq<Address>) {
    forall h | Owner(m, h, a) :: h in work || h.home in before
  }

  /** A handle whose release removes an object is that object's only owner. */
  lemma LastOwner(m: Memory, h: Handle)
    requires CountsInv(m) && UniqueInv(m) && h in m.data
    requires Detach(m, h).0.members != m.members
    ensures Owner(m, h, m.data[h])
    ensures forall g | Owner(m, g, m.data[h]) :: g == h
  {
    var a := m.data[h];
    if h.kind == Shared {
      assert h in Holders(m.data, a);
      SoleHolder(m.data, h, a);
      forall g | Owner(m, g, a)
        ensures g == h
      {
        assert g.kind == Shared ==> g in Holders(m.data, a);
      }
    }
  }

  lemma {:induction false} CascadeRemoves(m: Memory, work: seq<Handle>) returns (gone: seq<Address>)
    requires Inv(m, work)
    ensures RemovesObjects(m, Cascade(m, work), gone)
    ensures RemovesHandles(m, work, Cascade(m, work), gone)
    ensures Justified(m, work, gone)
    decreases |m.members|, |work|
  {
    if work == [] {
      gone := [];
    } else {
      var h, rest := work[0], work[1..];
      assert work == [h] + rest;
      var (m', more) := Destruct(m, h);
      DestructShrinks(m, h);
      DestructKeepsInv(m, h, rest);
      DetachParts(m, h);
      assert h in work;
      var later := CascadeRemoves(m', more + rest);
      if m'.members == m.members {
        assert [] + rest == rest;
        DistinctParts(h, rest);
        NothingRemoved(m, h, rest, m', Cascade(m', rest), later);
        gone := later;
      } else {
        LastOwner(m, h);
        OneRemoved(m, h, rest, m', Cascade(m', more + rest), later);
        gone := [m.data[h]] + later;
      }
    }
  }

  /** `h` owns nothing any more, every other handle owns what it did. */
  ghost predicate LosesOwner(m: Memory, h: Handle, m': Memory) {
    forall g, a :: Owner(m', g, a) <==> Owner(m, g, a) && g != h
  }

  lemma LettingGoLosesOwner(m: Memory, h: Handle, m': Memory)
    requires LetGo(m.data, h, m'.data)
    ensures LosesOwner(m, h, m')
  {
  }

  lemma NothingRemoved(m: Memory, h: Handle, rest: seq<Handle>, m': Memory, m'': Memory, gone: seq<Address>)
    requires Distinct([h] + rest) && m'.data == m.data - {h} && m'.members == m.members
    requires m'.destroyed == m.destroyed && m'.created == m.created
    requires RemovesObjects(m', m'', gone) && RemovesHandles(m', rest, m'', gone) && Justified(m', rest, gone)
    ensures RemovesObjects(m, m'', gone)
    ensures RemovesHandles(m, [h] + rest, m'', gone)
    ensures Justified(m, [h] + rest, gone)
  {
    DistinctParts(h, rest);
    LettingGoLosesOwner(m, h, m');
    NothingRemovedJustified(m, h, rest, m', gone);
  }

  lemma NothingRemovedJustified(m: Memory, h: Handle, rest: seq<Handle>, m': Memory, gone: seq<Address>)
    requires LosesOwner(m, h, m') && Justified(m', rest, gone)
    ensures Justified(m, [h] + rest, gone)
  {
    forall i | 0 <= i < |gone|
      ensures Owned(m, gone[i]) && OwnersGone(m, [h] + rest, gone[i], gone[..i])
    {
      OwnedOneMore(m, h, m', gone[i]);
      OwnersGoneOneMore(m, h, rest, m', gone[i], gone[..i]);
    }
  }

  lemma OwnedOneMore(m: Memory, h: Handle, m': Memory, a: Address)
    requires LosesOwner(m, h, m') && Owned(m', a)
    ensures Owned(m, a)
  {
    var g :| Owner(m', g, a);
    assert Owner(m, g, a);
  }

  lemma OwnersGoneOneMore(m: Memory, h: Handle, rest: seq<Handle>, m': Memory, a: Address, before: seq<Address>)
    requires LosesOwner(m, h, m') && OwnersGone(m', rest, a, before)
    ensures OwnersGone(m, [h] + rest, a, before)
  {
    forall g | Owner(m, g, a)
      ensures g in [h] + rest || g.home in before
    {
      assert g != h ==> Owner(m', g, a);
    }
  }

  lemma OneRemoved(m: Memory, h: Handle, rest: seq<Handle>, m': Memory, m'': Memory, gone: seq<Address>)
    requires PlacesInv(m, [h] + rest) && h in m.data
    requires Owner(m, h, m.data[h]) && m.data[h] in m.members && forall g | Owner(m, g, m.data[h]) :: g == h
    requires m'.data == m.data - {h} && m'.members == m.members - {m.data[h]}
    requires m'.destroyed == m.destroyed + [m.data[h]] && m'.created == m.created
    requires RemovesObjects(m', m'', gone) && RemovesHandles(m', m.members[m.data[h]] + rest, m'', gone)
    requires Justified(m', m.members[m.data[h]] + rest, gone)
    ensures RemovesObjects(m, m'', [m.data[h]] + gone)
    ensures RemovesHandles(m, [h] + rest, m'', [m.data[h]] + gone)
    ensures Justified(m, [h] + rest, [m.data[h]] + gone)
  {
    LettingGoLosesOwner(m, h, m');
    OneRemovedHandles(m, h, rest, m', m'', gone);
    OneRemovedJustified(m, h, rest, m', gone);
    OneRemovedObjects(m, m.data[h], m', m'', gone);
  }

  lemma OneRemovedObjects(m: Memory, a: Address, m': Memory, m'': Memory, gone: seq<Address>)
    requires a in m.members && m'.members == m.members - {a}
    requires m'.destroyed == m.destroyed + [a] && m'.created == m.created
    requires RemovesObjects(m', m'', gone)
    ensures RemovesObjects(m, m'', [a] + gone)
  {
    assert m.destroyed + [a] + gone == m.destroyed + ([a] + gone);
    assert forall i | 0 <= i < |gone| :: gone[i] in gone && gone[i] != a;
  }

  lemma OneRemovedHandles(m: Memory, h: Handle, rest: seq<Handle>, m': Memory, m'': Memory, gone: seq<Address>)
    requires PlacesInv(m, [h] + rest) && h in m.data && m.data[h] in m.members
    requires m'.data == m.data - {h} && m'.members == m.members - {m.data[h]}
    requires RemovesHandles(m', m.members[m.data[h]] + rest, m'', gone)
    ensures RemovesHandles(m, [h] + rest, m'', [m.data[h]] + gone)
  {
    DistinctParts(h, rest);
    var a := m.data[h];
    assert h in [h] + rest;
    forall g
      ensures g in m''.data <==> g in m.data && g !in [h] + rest && g.home !in [a] + gone
    {
      if g in m.data && g.home == a {
        assert g !in [h] + rest ==> g in m.members[a];
        assert g in [h] + rest ==> g.home !in m.members;
      }
      if g in m.members[a] {
        assert g.home == a;
      }
    }
  }

  lemma OneRemovedJustified(m: Memory, h: Handle, rest: seq<Handle>, m': Memory, gone: seq<Address>)
    requires MembersInv(m) && h in m.data
    requires Owner(m, h, m.data[h]) && m.data[h] in m.members && forall g | Owner(m, g, m.data[h]) :: g == h
    requires LosesOwner(m, h, m')
    requires Justified(m', m.members[m.data[h]] + rest, gone)
    ensures Justified(m, [h] + rest, [m.data[h]] + gone)
  {
    var a := m.data[h];
    var all := [a] + gone;
    forall i | 0 <= i < |all|
      ensures Owned(m, all[i]) && OwnersGone(m, [h] + rest, all[i], all[..i])
    {
      if i > 0 {
        assert all[i] == gone[i - 1];
        var g :| Owner(m', g, gone[i - 1]);
        assert Owner(m, g, all[i]);
        forall g | Owner(m, g, all[i])
          ensures g in [h] + rest || g.home in all[..i]
        {
          if g != h {
            assert Owner(m', g, gone[i - 1]);
            assert all[..i] == [a] + gone[..i - 1];
            assert g in m.members[a] ==> g.home == a;
          }
        }
      }
    }
  }

  /** A live object that had an owner still has one. */
  ghost predicate KeepsOwners(m: Memory, m': Memory) {
    forall a | a in m'.members && Owned(m, a) :: Owned(m', a)
  }

  lemma AnotherHolder(data: map<Handle, Address>, h: Handle, a: Address) returns (g: Handle)
    requires |Holders(data, a)| > 1
    ensures g in Holders(data, a) && g != h
  {
    var others := Holders(data, a) - {h};
    assert |others| >= |Holders(data, a)| - 1;
    g :| g in others;
  }

  lemma DetachKeepsOwners(m: Memory, h: Handle, m': Memory)
    requires CountsInv(m) && UniqueInv(m) && h in m.data
    requires LosesOwner(m, h, m') && m'.members == Detach(m, h).0.members
    ensures KeepsOwners(m, m')
  {
    forall a | a in m'.members && Owned(m, a)
      ensures Owned(m', a)
    {
      var g :| Owner(m, g, a);
      if g == h {
        assert h in Holders(m.data, a) <==> h.kind == Shared;
        g := AnotherHolder(m.data, h, a);
      }
      assert Owner(m', g, a);
    }
  }

  lemma OwnersKeptInTurn(m: Memory, m': Memory, m'': Memory)
    requires KeepsOwners(m, m') && KeepsOwners(m', m'') && m''.members.Keys <= m'.members.Keys
    ensures KeepsOwners(m, m'')
  {
  }

  lemma {:induction false} CascadeKeepsOwners(m: Memory, work: seq<Handle>)
    requires Inv(m, work)
    ensures KeepsOwners(m, Cascade(m, work))
    ensures Cascade(m, work).members.Keys <= m.members.Keys
    decreases |m.members|, |work|
  {
    if work != [] {
      var h, rest := work[0], work[1..];
      assert work == [h] + rest && h in work;
      var (m', more) := Destruct(m, h);
      DestructShrinks(m, h);
      DetachParts(m, h);
      DestructKeepsInv(m, h, rest);
      LettingGoLosesOwner(m, h, m');
      DetachKeepsOwners(m, h, m');
      CascadeKeepsOwners(m', more + rest);
      OwnersKeptInTurn(m, m', Cascade(m', more + rest));
    }
  }

  /** `gone` takes in every owned object whose owners are all in `work` or in objects of `gone`. */
  ghost predicate Closed(m: Memory, work: seq<Handle>, gone: set<Address>) {
    forall a | Owned(m, a) && (forall h | Owner(m, h, a) :: h in work || h.home in gone) :: a in gone
  }

  /** A cascade terminates, destroys each object at most once, and destroys exactly the objects left
      without an owner: the least set that contains, with the handles destroyed, every object they
      were the last owners of. Objects that keep each other alive stay. */
  lemma CascadeDestroysExactlyTheUnowned(m: Memory, work: seq<Handle>) returns (gone: seq<Address>)
    requires Inv(m, work)
    ensures RemovesObjects(m, Cascade(m, work), gone)
    ensures RemovesHandles(m, work, Cascade(m, work), gone)
    ensures Closed(m, work, set a | a in gone)
    ensures forall other: set<Address> | Closed(m, work, other) :: (set a | a in gone) <= other
  {
    gone := CascadeRemoves(m, work);
    CascadeKeepsOwners(m, work);
    NothingUnownedIsLeft(m, work, Cascade(m, work), gone);
    forall other: set<Address> | Closed(m, work, other)
      ensures (set a | a in gone) <= other
    {
      JustifiedIsLeast(m, work, gone, other, |gone|);
    }
  }

  lemma NothingUnownedIsLeft(m: Memory, work: seq<Handle>, m': Memory, gone: seq<Address>)
    requires CountsInv(m) && UniqueInv(m) && KeepsOwners(m, m') && RemovesObjects(m, m', gone)
    requires forall g, a | Owner(m', g, a) :: Owner(m, g, a) && g !in work && g.home !in gone
    ensures Closed(m, work, set a | a in gone)
  {
    forall a | Owned(m, a) && (forall h | Owner(m, h, a) :: h in work || h.home in gone)
      ensures a in gone
    {
      var h :| Owner(m, h, a);
      assert a in m.members;
    }
  }

  lemma {:induction false} JustifiedIsLeast(
      m: Memory, work: seq<Handle>, gone: seq<Address>, other: set<Address>, n: nat)
    requires Justified(m, work, gone) && Closed(m, work, other) && n <= |gone|
    ensures forall i | 0 <= i < n :: gone[i] in other
  {
    if n > 0 {
      JustifiedIsLeast(m, work, gone, other, n - 1);
      var a := gone[n - 1];
      assert Owned(m, a) && OwnersGone(m, work, a, gone[..n - 1]);
      forall h | Owner(m, h, a)
        ensures h in work || h.home in other
      {
        if h !in work {
          var i :| 0 <= i < n - 1 && gone[..n - 1][i] == h.home;
        }
      }
    }
  }
}
