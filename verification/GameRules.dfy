/** The game rules of SpNetCommon/src/spNetMETA.h: inventories, attacks, and the actions of players and
    enemies that the server applies and every client replays.

    Players live in an unordered map, so each client may visit them in an order of its own. The order
    is a parameter here. */
module GameRules {
  import opened Wrappers

  // ---- Machine integers --------------------------------------------------------------------------

  type UInt8 = n: int | 0 <= n < 0x100
  type UInt32 = n: int | 0 <= n < 0x1_0000_0000
  type Int16 = n: int | -0x8000 <= n < 0x8000
  type Int32 = n: int | -0x8000_0000 <= n < 0x8000_0000

  function Wrap16(n: int): Int16 {
    (n + 0x8000) % 0x1_0000 - 0x8000
  }

  function Wrap32(n: int): Int32 {
    (n + 0x8000_0000) % 0x1_0000_0000 - 0x8000_0000
  }

  // ---- Coordinates -------------------------------------------------------------------------------

  datatype Coords = Coords(x: Int16, y: Int16, z: Int16)

  function Plus(a: Coords, b: Coords): Coords {
    Coords(Wrap16(a.x + b.x), Wrap16(a.y + b.y), Wrap16(a.z + b.z))
  }

  /** `abs` on 16 bits; the smallest number has no positive counterpart and stays negative. */
  function Abs16(n: Int16): Int16 {
    if n < 0 then Wrap16(0 - n as int) else n
  }

  /** `operator ==`: no component of the absolute difference exceeds zero. */
  predicate Same(a: Coords, b: Coords) {
    && Abs16(Wrap16(a.x - b.x)) <= 0
    && Abs16(Wrap16(a.y - b.y)) <= 0
    && Abs16(Wrap16(a.z - b.z)) <= 0
  }

  /** Equal, or half a turn apart. */
  predicate ComponentMeets(a: Int16, b: Int16) {
    a == b || a - b == 0x8000 || b - a == 0x8000
  }

  /** Coordinates compare equal exactly when each component is equal or 32768 apart. */
  lemma SameExactlyWhenEqualOrHalfTurnApart(a: Coords, b: Coords)
    ensures Same(a, b) <==>
              ComponentMeets(a.x, b.x) && ComponentMeets(a.y, b.y) && ComponentMeets(a.z, b.z)
  {
    ComponentSame(a.x, b.x);
    ComponentSame(a.y, b.y);
    ComponentSame(a.z, b.z);
  }

  /** From `from`, so many steps in a direction come to `c`, or half a turn away from it. */
  predicate Reaches(from: Coords, direction: Coords, steps: nat, c: Coords) {
    && ComponentReached(from.x, direction.x, steps, c.x)
    && ComponentReached(from.y, direction.y, steps, c.y)
    && ComponentReached(from.z, direction.z, steps, c.z)
  }

  predicate ComponentReached(from: Int16, d: Int16, steps: nat, c: Int16) {
    (c - from - steps * d) % 0x8000 == 0
  }

  lemma SameIsOneStepAway(c: Coords, from: Coords, direction: Coords)
    ensures Same(c, Plus(from, direction)) <==> Reaches(from, direction, 1, c)
  {
    SameWhereReached(c, Plus(from, direction), from, direction);
  }

  lemma SameWhereReached(c: Coords, spot: Coords, from: Coords, direction: Coords)
    requires spot == Plus(from, direction)
    ensures Same(c, spot) <==> Reaches(from, direction, 1, c)
  {
    assert spot.x == Wrap16(from.x + direction.x) && spot.y == Wrap16(from.y + direction.y);
    assert spot.z == Wrap16(from.z + direction.z);
    SameExactlyWhenEqualOrHalfTurnApart(c, spot);
    ComponentStep(c.x, spot.x, from.x, direction.x);
    ComponentStep(c.y, spot.y, from.y, direction.y);
    ComponentStep(c.z, spot.z, from.z, direction.z);
  }

  lemma ComponentStep(c: Int16, spot: Int16, from: Int16, d: Int16)
    requires spot == Wrap16(from + d)
    ensures ComponentMeets(c, spot) <==> ComponentReached(from, d, 1, c)
  {
    var n := from + d;
    assert spot == (if n < -0x8000 then n + 0x1_0000 else if n >= 0x8000 then n - 0x1_0000 else n);
  }

  /** A step from a place one step away is a second one. */
  lemma TwoStepsAway(c: Coords, spot: Coords, from: Coords, direction: Coords)
    requires spot == Plus(from, direction)
    ensures Reaches(spot, direction, 1, c) <==> Reaches(from, direction, 2, c)
  {
    assert spot.x == Wrap16(from.x + direction.x) && spot.y == Wrap16(from.y + direction.y);
    assert spot.z == Wrap16(from.z + direction.z);
    ComponentTwoSteps(c.x, spot.x, from.x, direction.x);
    ComponentTwoSteps(c.y, spot.y, from.y, direction.y);
    ComponentTwoSteps(c.z, spot.z, from.z, direction.z);
  }

  lemma ComponentTwoSteps(c: Int16, spot: Int16, from: Int16, d: Int16)
    requires spot == Wrap16(from + d)
    ensures ComponentReached(spot, d, 1, c) <==> ComponentReached(from, d, 2, c)
  {
    var n := from + d;
    assert spot == (if n < -0x8000 then n + 0x1_0000 else if n >= 0x8000 then n - 0x1_0000 else n);
    ReachedEitherWay(c, spot, from, d);
  }

  lemma ReachedEitherWay(c: Int16, spot: Int16, from: Int16, d: Int16)
    requires spot == from + d || spot == from + d + 0x1_0000 || spot == from + d - 0x1_0000
    ensures ComponentReached(spot, d, 1, c) <==> ComponentReached(from, d, 2, c)
  {
    AFullTurnOff(c - from - 2 * d);
  }

  lemma AFullTurnOff(n: int)
    ensures (n - 0x1_0000) % 0x8000 == 0 <==> n % 0x8000 == 0
    ensures (n + 0x1_0000) % 0x8000 == 0 <==> n % 0x8000 == 0
  {
  }

  /** Coordinates add up, component by component, modulo 2^16. */
  lemma PlusIsModular(a: Coords, b: Coords)
    ensures (Plus(a, b).x - a.x - b.x) % 0x1_0000 == 0
    ensures (Plus(a, b).y - a.y - b.y) % 0x1_0000 == 0
    ensures (Plus(a, b).z - a.z - b.z) % 0x1_0000 == 0
  {
  }

  lemma ComponentSame(a: Int16, b: Int16)
    ensures Abs16(Wrap16(a - b)) <= 0 <==> ComponentMeets(a, b)
  {
    var d := a - b;
    assert d < -0x8000 ==> Wrap16(d) == d + 0x1_0000;
    assert d >= 0x8000 ==> Wrap16(d) == d - 0x1_0000;
    assert Abs16(-0x8000) == -0x8000;
  }

  // ---- Inventories -------------------------------------------------------------------------------

  datatype ItemType = NoItem | Arrow | Bow | Sword | Apple
  datatype Item = Item(name: string, kind: ItemType, usage: UInt8, power: UInt8)
  datatype Slot = Slot(empty: bool, item: Item, mods: UInt8, quantity: UInt32)

  const INVENTORY_SIZE := 20
  const INVALID_ID: UInt32 := 0xFFFF_FFFF

  /** A weapon counts once and keeps its wear as a modifier, anything else counts its uses. */
  function SlotFor(item: Item): Slot {
    if item.kind == Sword || item.kind == Bow then Slot(false, item, item.usage, 1)
    else Slot(false, item, 0, item.usage)
  }

  /** The first nonempty slot with an item of the given kind. */
  function FirstOf(storage: seq<Slot>, kind: ItemType): Option<nat> {
    if storage == [] then None
    else if !storage[0].empty && storage[0].item.kind == kind then Some(0)
    else
      match FirstOf(storage[1..], kind)
      case None => None
      case Some(i) => Some(i + 1)
  }

  ghost predicate HasKind(storage: seq<Slot>, kind: ItemType) {
    exists k :: 0 <= k < |storage| && !storage[k].empty && storage[k].item.kind == kind
  }

  ghost predicate FirstWithKind(storage: seq<Slot>, kind: ItemType, k: nat) {
    && k < |storage| && !storage[k].empty && storage[k].item.kind == kind
    && forall i | 0 <= i < k :: storage[i].empty || storage[i].item.kind != kind
  }

  lemma {:induction false} FirstOfIsFirst(storage: seq<Slot>, kind: ItemType)
    ensures match FirstOf(storage, kind)
            case None => forall i | 0 <= i < |storage| :: storage[i].empty || storage[i].item.kind != kind
            case Some(k) =>
              && k < |storage| && !storage[k].empty && storage[k].item.kind == kind
              && forall i | 0 <= i < k :: storage[i].empty || storage[i].item.kind != kind
  {
    if storage != [] {
      FirstOfIsFirst(storage[1..], kind);
      assert forall i | 0 < i < |storage| :: storage[1..][i - 1] == storage[i];
    }
  }

  /** `FindItem` */
  method FindItem(storage: seq<Slot>, kind: ItemType) returns (id: UInt32)
    requires |storage| < INVALID_ID
    ensures id == match FirstOf(storage, kind) case None => INVALID_ID case Some(k) => k
    ensures id != INVALID_ID ==> id < |storage|
  {
    FirstOfIsFirst(storage, kind);
    for i := 0 to |storage|
      invariant forall k | 0 <= k < i :: storage[k].empty || storage[k].item.kind != kind
    {
      if !storage[i].empty && storage[i].item.kind == kind {
        return i;
      }
    }
    return INVALID_ID;
  }

  /** `AddItem`: the item goes into the first empty slot, and nowhere when there is none. */
  method AddItem(storage: seq<Slot>, item: Item) returns (r: seq<Slot>)
    ensures |r| == |storage|
    ensures (forall i | 0 <= i < |storage| :: !storage[i].empty) ==> r == storage
    ensures (exists i | 0 <= i < |storage| :: storage[i].empty) ==>
              exists k | 0 <= k < |storage| ::
                && storage[k].empty && (forall i | 0 <= i < k :: !storage[i].empty)
                && r == storage[k := r[k]] && !r[k].empty && r[k].item == item
                && r[k].mods == (if item.kind in {Sword, Bow} then item.usage else 0)
                && r[k].quantity == (if item.kind in {Sword, Bow} then 1 else item.usage)
    ensures Stocked(storage) && (item.kind != Sword && item.kind != Bow ==> item.usage > 0) ==> Stocked(r)
  {
    for i := 0 to |storage|
      invariant forall k | 0 <= k < i :: !storage[k].empty
    {
      if storage[i].empty {
        r := storage[i := SlotFor(item)];
        return;
      }
    }
    return storage;
  }

  /** Every nonempty slot holds at least one piece. */
  ghost predicate Stocked(storage: seq<Slot>) {
    forall i | 0 <= i < |storage| :: !storage[i].empty ==> storage[i].quantity >= 1
  }

  /** All arrows, over all kinds of arrows. */
  function Arrows(storage: seq<Slot>): nat {
    if storage == [] then 0
    else (if !storage[0].empty && storage[0].item.kind == Arrow then storage[0].quantity else 0) + Arrows(storage[1..])
  }

  // ---- Fighters ----------------------------------------------------------------------------------

  /** What players and enemies have in common. */
  datatype Fighter = Fighter(hp: Int32, equipped: UInt32, storage: seq<Slot>, coords: Coords)

  /** `TakeDamage`: the comparison converts HP to unsigned, and the subtraction wraps. */
  function Hurt(f: Fighter, damage: UInt32): Fighter {
    if damage >= f.hp % 0x1_0000_0000 then f.(hp := 0) else f.(hp := Wrap32(f.hp - damage))
  }

  /** The equipped slot exists; the source asserts it. */
  predicate Equipped(f: Fighter) {
    f.equipped < |f.storage| == INVENTORY_SIZE
  }

  /** Taking one arrow out of a slot; the last one empties it. */
  function TakeOne(s: Slot): Slot {
    var quantity := (s.quantity - 1) % 0x1_0000_0000;
    s.(quantity := quantity, empty := s.empty || quantity == 0)
  }

  predicate Shoots(f: Fighter)
    requires Equipped(f)
  {
    !f.storage[f.equipped].empty && f.storage[f.equipped].item.kind == Bow && FirstOf(f.storage, Arrow).Some?
  }

  /** What a blow does to the attacker, and the damage it deals; none when the equipped slot is empty. */
  function Strike(f: Fighter): (r: (Fighter, Option<UInt32>))
    requires Equipped(f)
  {
    var weapon := f.storage[f.equipped];
    if weapon.empty then (f, None)
    else
      match weapon.item.kind
      case Sword => (f, Some(weapon.item.power))
      case Bow =>
        FirstOfIsFirst(f.storage, Arrow);
        (match FirstOf(f.storage, Arrow)
         case None => (f, Some(0))
         case Some(k) =>
           (f.(storage := f.storage[k := TakeOne(f.storage[k])]), Some(f.storage[k].item.power)))
      case _ => (f, Some(1))
  }

  // ---- What every fighter keeps -------------------------------------------------------------------

  ghost predicate FighterInv(f: Fighter) {
    Equipped(f) && f.hp >= 0 && Stocked(f.storage)
  }

  /** Damage takes hit points off, down to zero. */
  lemma HurtSaturates(f: Fighter, damage: UInt32)
    requires f.hp >= 0
    ensures Hurt(f, damage) == f.(hp := if damage >= f.hp then 0 else f.hp - damage)
  {
  }

  /** What a fighter deals: nothing empty-handed, with a sword the sword's power, with a bow the power of
      the first arrows it has, or zero, and otherwise one. */
  ghost predicate Deals(f: Fighter, damage: Option<UInt32>)
    requires Equipped(f)
  {
    var weapon := f.storage[f.equipped];
    if weapon.empty then damage == None
    else if weapon.item.kind == Sword then damage == Some(weapon.item.power)
    else if weapon.item.kind != Bow then damage == Some(1)
    else
      && (forall k: nat | FirstWithKind(f.storage, Arrow, k) :: damage == Some(f.storage[k].item.power))
      && (!HasKind(f.storage, Arrow) ==> damage == Some(0))
  }

  /** What it has left: one piece less of the first arrows if it shoots, none of them if that was the last. */
  ghost predicate Pays(f: Fighter, storage: seq<Slot>)
    requires Equipped(f)
  {
    var weapon := f.storage[f.equipped];
    && |storage| == |f.storage|
    && forall k | 0 <= k < |storage| ::
         if !weapon.empty && weapon.item.kind == Bow && FirstWithKind(f.storage, Arrow, k)
         then
           && storage[k].quantity == f.storage[k].quantity - 1
           && storage[k] == f.storage[k].(quantity := storage[k].quantity, empty := storage[k].quantity == 0)
         else storage[k] == f.storage[k]
  }

  /** The damage, and what the blow costs. */
  lemma StrikeDeals(f: Fighter)
    requires FighterInv(f)
    ensures Deals(f, Strike(f).1) && Pays(f, Strike(f).0.storage)
    ensures Strike(f).0 == f.(storage := Strike(f).0.storage)
  {
    StrikeDamages(f);
    StrikePays(f);
  }

  lemma OneIsFirst(storage: seq<Slot>, kind: ItemType)
    ensures FirstOf(storage, kind).None? <==> !HasKind(storage, kind)
    ensures forall i: nat :: FirstWithKind(storage, kind, i) <==> FirstOf(storage, kind) == Some(i)
  {
    FirstOfIsFirst(storage, kind);
    if FirstOf(storage, kind).Some? {
      var k := FirstOf(storage, kind).value;
      assert forall i: nat | FirstWithKind(storage, kind, i) :: !(i < k) && !(k < i);
    }
  }

  lemma StrikeDamages(f: Fighter)
    requires FighterInv(f)
    ensures Deals(f, Strike(f).1)
  {
    OneIsFirst(f.storage, Arrow);
  }

  lemma StrikePays(f: Fighter)
    requires FighterInv(f)
    ensures Pays(f, Strike(f).0.storage)
    ensures Strike(f).0 == f.(storage := Strike(f).0.storage)
  {
    OneIsFirst(f.storage, Arrow);
    FirstOfIsFirst(f.storage, Arrow);
    if Shoots(f) {
      var k := FirstOf(f.storage, Arrow).value;
      TakingOne(f.storage[k]);
      PaysWith(f, k, TakeOne(f.storage[k]));
    }
  }

  lemma TakingOne(s: Slot)
    requires !s.empty && s.quantity >= 1
    ensures TakeOne(s) == s.(quantity := TakeOne(s).quantity, empty := TakeOne(s).quantity == 0)
    ensures TakeOne(s).quantity == s.quantity - 1
  {
  }

  lemma PaysWith(f: Fighter, k: nat, s: Slot)
    requires Equipped(f) && Shoots(f) && FirstOf(f.storage, Arrow) == Some(k) && k < |f.storage|
    requires forall i: nat :: FirstWithKind(f.storage, Arrow, i) <==> i == k
    requires s == f.storage[k].(quantity := s.quantity, empty := s.quantity == 0)
    requires s.quantity == f.storage[k].quantity - 1
    ensures Pays(f, f.storage[k := s])
  {
  }

  /** No two different damages fit. */
  lemma DealsOnce(f: Fighter, d: Option<UInt32>, d': Option<UInt32>)
    requires Equipped(f) && Deals(f, d) && Deals(f, d')
    ensures d == d'
  {
    FirstOfIsFirst(f.storage, Arrow);
    if FirstOf(f.storage, Arrow).Some? {
      assert FirstWithKind(f.storage, Arrow, FirstOf(f.storage, Arrow).value);
    }
  }

  lemma {:induction false} ArrowsAfterTaking(storage: seq<Slot>, k: nat)
    requires k < |storage| && !storage[k].empty && storage[k].item.kind == Arrow && storage[k].quantity >= 1
    ensures Arrows(storage[k := TakeOne(storage[k])]) == Arrows(storage) - 1
  {
    var after := storage[k := TakeOne(storage[k])];
    if k == 0 {
      assert after[1..] == storage[1..];
    } else {
      assert after[1..] == storage[1..][k - 1 := TakeOne(storage[1..][k - 1])];
      ArrowsAfterTaking(storage[1..], k - 1);
    }
  }

  /** A blow costs one arrow if it shoots one, and nothing otherwise; it never changes the equipped
      slot, hit points or place. */
  lemma StrikeSpends(f: Fighter)
    requires FighterInv(f)
    ensures var f' := Strike(f).0;
            && FighterInv(f')
            && Arrows(f'.storage) == Arrows(f.storage) - (if Shoots(f) then 1 else 0)
            && (!Shoots(f) ==> f' == f)
            && f'.hp == f.hp && f'.coords == f.coords && f'.equipped == f.equipped
            && f'.storage[f'.equipped] == f.storage[f.equipped]
  {
    FirstOfIsFirst(f.storage, Arrow);
    if Shoots(f) {
      ArrowsAfterTaking(f.storage, FirstOf(f.storage, Arrow).value);
    }
  }
}
