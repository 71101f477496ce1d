/** The wrap-around deque of SpNetCommon/src/Containers/DynamirArray.h.

    A ring keeps `elementsInside` values in a block of `capacity` cells. Only the head is stored; the
    tail is computed from it. Pushing at the front moves the head up, pushing at the back moves the
    computed tail down, both with wrap-around. */
module RingBuffers {
  import opened Wrappers

  /** The source's 64-bit `size_t`. It is a bounded type, so the verifier rejects every index
      subtraction or addition that would leave the 64-bit range. */
  newtype Size = x: int | 0 <= x < 0x1_0000_0000_0000_0000

  const INVALID_INDEX: Size := 0xFFFF_FFFF_FFFF_FFFF

  /** How the elements lie in the block; `head` is INVALID_INDEX exactly when the ring is empty. */
  datatype Layout = Layout(capacity: Size, head: Size, count: Size) {

    ghost predicate Valid() {
      && 0 < capacity < INVALID_INDEX
      && count <= capacity
      && (head == INVALID_INDEX <==> count == 0)
      && (count > 0 ==> head < capacity)
    }

    /** The computed tail. */
    function Tail(): (tail: Size)
      requires Valid()
      ensures count == 0 <==> tail == INVALID_INDEX
      ensures count > 0 ==> tail < capacity && Slot(count as int - 1) == head as int
    {
      if capacity == 0 then INVALID_INDEX
      else if head == INVALID_INDEX then INVALID_INDEX
      else if count == 1 then head
      else if head < count - 1 then capacity - (count - head - 1)
      else head - (count - 1)
    }

    /** The cell of element `i`, counted from the back, walking up from the tail with wrap-around. */
    ghost function Slot(i: int): int
      requires Valid() && 0 <= i < count as int
    {
      var first := head as int - (count as int - 1);
      var tail := if first < 0 then first + capacity as int else first;
      if tail + i < capacity as int then tail + i else tail + i - capacity as int
    }

    ghost predicate Wrapped()
      requires Valid()
    {
      count > 0 && head < Tail()
    }

    /** The cells between tail and head. */
    ghost predicate Live(cell: int)
      requires Valid()
    {
      && 0 <= cell < capacity as int
      && count > 0
      && if Wrapped() then cell <= head as int || Tail() as int <= cell
         else Tail() as int <= cell <= head as int
    }
  }

  /** The abstract value of a block: its live cells from tail to head, with wrap-around. */
  ghost function Read<T>(cells: seq<T>, l: Layout): (s: seq<T>)
    requires l.Valid() && |cells| == l.capacity as int
    ensures |s| == l.count as int
  {
    seq(l.count as int, i requires 0 <= i < l.count as int => cells[l.Slot(i)])
  }

  /** Reading visits every live cell, only live cells, and none of them twice. */
  lemma SlotsAreTheLiveCells(l: Layout)
    requires l.Valid()
    ensures forall i | 0 <= i < l.count as int :: l.Live(l.Slot(i))
    ensures forall i, j | 0 <= i < j < l.count as int :: l.Slot(i) != l.Slot(j)
    ensures forall cell | l.Live(cell) :: exists i | 0 <= i < l.count as int :: l.Slot(i) == cell
  {
    forall cell | l.Live(cell)
      ensures exists i | 0 <= i < l.count as int :: l.Slot(i) == cell
    {
      var d := cell - l.Tail() as int;
      var i := if d < 0 then d + l.capacity as int else d;
      assert l.Slot(i) == cell;
    }
  }

  /** Moving the head one cell up (a push at the front) appends the new cell's value. */
  lemma PushedFront<T>(before: seq<T>, l: Layout, after: seq<T>, l': Layout)
    requires l.Valid() && l'.Valid() && |before| == |after| == l.capacity as int
    requires l'.capacity == l.capacity && l'.count as int == l.count as int + 1
    requires l.count > 0 ==> l'.head as int == if l.head as int == l.capacity as int - 1 then 0 else l.head as int + 1
    requires forall cell | l.Live(cell) :: after[cell] == before[cell]
    ensures !l.Live(l'.head as int)
    ensures Read(after, l') == Read(before, l) + [after[l'.head]]
  {
    SlotsAreTheLiveCells(l);
    forall i | 0 <= i < l.count as int
      ensures Read(after, l')[i] == Read(before, l)[i]
    {
      assert l'.Slot(i) == l.Slot(i);
      assert l.Live(l.Slot(i));
    }
    assert l'.Slot(l.count as int) == l'.head as int;
  }

  /** Moving the computed tail one cell down (a push at the back) prepends the new cell's value. */
  lemma PushedBack<T>(before: seq<T>, l: Layout, after: seq<T>, l': Layout)
    requires l.Valid() && l'.Valid() && |before| == |after| == l.capacity as int
    requires l'.capacity == l.capacity && l'.count as int == l.count as int + 1
    requires l.count > 0 ==> l'.head == l.head
    requires forall cell | l.Live(cell) :: after[cell] == before[cell]
    ensures !l.Live(l'.Tail() as int)
    ensures l.count > 0 ==>
              l'.Tail() as int == if l.Tail() == 0 then l.capacity as int - 1 else l.Tail() as int - 1
    ensures Read(after, l') == [after[l'.Tail()]] + Read(before, l)
  {
    SlotsAreTheLiveCells(l);
    assert l'.Slot(0) == l'.Tail() as int;
    forall i | 0 <= i < l.count as int
      ensures Read(after, l')[i + 1] == Read(before, l)[i]
    {
      assert l'.Slot(i + 1) == l.Slot(i);
      assert l.Live(l.Slot(i));
    }
  }

  /** Moving the head one cell down drops the front element. */
  lemma PoppedFront<T>(cells: seq<T>, l: Layout, l': Layout)
    requires l.Valid() && l'.Valid() && |cells| == l.capacity as int
    requires l'.capacity == l.capacity && l.count > 1 && l'.count == l.count - 1
    requires l'.head == if l.head == 0 then l.capacity - 1 else l.head - 1
    ensures Read(cells, l) == Read(cells, l') + [cells[l.head]]
  {
    forall i | 0 <= i < l'.count as int
      ensures Read(cells, l)[i] == Read(cells, l')[i]
    {
      assert l'.Slot(i) == l.Slot(i);
    }
    assert l.Slot(l.count as int - 1) == l.head as int;
  }

  /** Counting one element less drops the back element. */
  lemma PoppedBack<T>(cells: seq<T>, l: Layout, l': Layout)
    requires l.Valid() && l'.Valid() && |cells| == l.capacity as int
    requires l'.capacity == l.capacity && l.count > 1 && l'.count == l.count - 1 && l'.head == l.head
    ensures Read(cells, l) == [cells[l.Tail()]] + Read(cells, l')
  {
    forall i | 0 <= i < l'.count as int
      ensures Read(cells, l)[i + 1] == Read(cells, l')[i]
    {
      assert l'.Slot(i) == l.Slot(i + 1);
    }
    assert l.Slot(0) == l.Tail() as int;
  }

  /** The source writes the step down as `head - 1 % capacity`, which subtracts `1 % capacity`. */
  lemma OneModulo(capacity: Size)
    requires capacity > 1
    ensures 1 % capacity == 1
  {
  }

  /** `LookAtIndex` hands out a cell outside the live ones exactly when the ring is unwrapped and the
      index lies below the tail: its documented rejection of such indices is missing. */
  predicate LookAtAccepts(l: Layout, index: Size)
    requires l.Valid()
  {
    !(|| index >= l.capacity
      || l.count == 0
      || index == INVALID_INDEX
      || (index < l.Tail() && index > l.head)
      || (index > l.Tail() && index > l.head && l.Tail() <= l.head))
  }

  lemma LookAtIndexIsExactUnlessBelowAnUnwrappedTail(l: Layout, index: Size)
    requires l.Valid()
    ensures l.Live(index as int) ==> LookAtAccepts(l, index)
    ensures (LookAtAccepts(l, index) <==> l.Live(index as int))
            <==> !(l.count > 0 && !l.Wrapped() && index < l.Tail())
  {
    assert l.count > 0 ==> l.Slot(0) == l.Tail() as int;
  }

  /** The number of whole cells the unwrapped branch of `Resize` copies: it moves `head + cellSize`
      bytes, where `(head + 1) * cellSize` would cover every cell up to the head. */
  function CellsCopied(head: int, cellSize: int): (n: int)
    requires 0 <= head && 0 < cellSize
    ensures n * cellSize <= head + cellSize < (n + 1) * cellSize
    ensures 1 <= n <= head + 1
    ensures n == head + 1 <==> head == 0 || cellSize == 1
  {
    QuotientBounds(head, cellSize, head / cellSize, head % cellSize);
    1 + head / cellSize
  }

  lemma QuotientBounds(head: int, cellSize: int, q: int, r: int)
    requires 0 <= head && 0 < cellSize && head == q * cellSize + r && 0 <= r < cellSize
    ensures 0 <= q <= head
    ensures q == head <==> head == 0 || cellSize == 1
    ensures (1 + q) * cellSize <= head + cellSize < (2 + q) * cellSize
  {
    assert (cellSize - 1) * q >= 0;
    if cellSize > 1 {
      assert (cellSize - 2) * q >= 0;
    }
  }

  /** The block after a successful `Resize`; `uncopied` is what the new allocation held. */
  ghost function ResizedBlock<T>(cells: seq<T>, l: Layout, newCapacity: Size, cellSize: Size, uncopied: seq<T>): seq<T>
    requires l.Valid() && |cells| == l.capacity as int && cellSize > 0
    requires newCapacity >= l.count && |uncopied| == newCapacity as int
    requires CopyFits(l, newCapacity, cellSize)
  {
    if l.count == 0 then uncopied
    else if l.Wrapped() then cells[l.Tail()..] + cells[..l.head as int + 1] + uncopied[l.count..]
    else
      CopiedCellsFit(l, newCapacity, cellSize);
      var n := CellsCopied(l.head as int, cellSize as int);
      cells[..n] + uncopied[n..]
  }

  ghost function ResizedLayout(l: Layout, newCapacity: Size): Layout
    requires l.Valid()
  {
    Layout(newCapacity, if l.Wrapped() then l.count - 1 else l.head, l.count)
  }

  /** The raw copy of the unwrapped branch, in bytes, stays inside the new block. */
  ghost predicate CopyFits(l: Layout, newCapacity: Size, cellSize: Size)
    requires l.Valid() && cellSize > 0
  {
    l.count > 0 && !l.Wrapped() ==> l.head as int + cellSize as int <= newCapacity as int * cellSize as int
  }

  lemma CopiedCellsFit(l: Layout, newCapacity: Size, cellSize: Size)
    requires l.Valid() && cellSize > 0 && CopyFits(l, newCapacity, cellSize) && l.count > 0 && !l.Wrapped()
    ensures CellsCopied(l.head as int, cellSize as int) <= newCapacity as int
  {
    var n, c, s := CellsCopied(l.head as int, cellSize as int), newCapacity as int, cellSize as int;
    if c < n {
      ProductsGrow(c, n, s);
    }
  }

  lemma ProductsGrow(a: int, b: int, s: int)
    requires a < b && 0 < s
    ensures a * s + s <= b * s
  {
    var more := b - a - 1;
    ProductIsNatural(more, s);
    assert b * s == (a + 1 + more) * s == a * s + s + more * s;
  }

  lemma ProductIsNatural(a: nat, b: nat)
    ensures a * b >= 0
  {
  }

  /** The layouts that `Resize` handles as intended. */
  predicate ResizeKeeps(l: Layout, newCapacity: Size, cellSize: Size)
    requires l.Valid()
  {
    l.count == 0 || l.head < l.Tail() || (l.head < newCapacity && (l.head == 0 || cellSize == 1))
  }

  /** Where `Resize` works as intended its copy stays inside the new block. */
  lemma KeepingFits(l: Layout, newCapacity: Size, cellSize: Size)
    requires l.Valid() && cellSize > 0 && newCapacity > 0 && ResizeKeeps(l, newCapacity, cellSize)
    ensures CopyFits(l, newCapacity, cellSize)
  {
    if l.count > 0 && !l.Wrapped() && l.head == 0 {
      ProductsGrow(0, newCapacity as int, cellSize as int);
    }
  }

  /** The copy stays inside the new block, and the ring and its contents are kept whatever that block
      held before. */
  ghost predicate ContentsAreKept<T(!new)>(cells: seq<T>, l: Layout, newCapacity: Size, cellSize: Size)
    requires l.Valid() && |cells| == l.capacity as int && cellSize > 0 && newCapacity >= l.count
  {
    && CopyFits(l, newCapacity, cellSize)
    && forall uncopied: seq<T> | |uncopied| == newCapacity as int ::
         && ResizedLayout(l, newCapacity).Valid()
         && Read(ResizedBlock(cells, l, newCapacity, cellSize, uncopied), ResizedLayout(l, newCapacity))
           == Read(cells, l)
  }

  /** `Resize` keeps the ring and its contents exactly when the ring is empty or wrapped, or its head
      index stays below the new capacity and is zero or counts one-byte cells. */
  lemma {:induction false} ResizeKeepsExactlyWhen<T(!new)>(
      cells: seq<T>, l: Layout, newCapacity: Size, cellSize: Size, x: T, y: T)
    requires l.Valid() && |cells| == l.capacity as int && cellSize > 0 && x != y
    requires 0 < newCapacity < INVALID_INDEX && newCapacity >= l.count
    ensures ResizeKeeps(l, newCapacity, cellSize) <==> ContentsAreKept(cells, l, newCapacity, cellSize)
  {
    if ResizeKeeps(l, newCapacity, cellSize) {
      KeepingFits(l, newCapacity, cellSize);
      forall uncopied: seq<T> | |uncopied| == newCapacity as int
        ensures ResizedLayout(l, newCapacity).Valid()
        ensures Read(ResizedBlock(cells, l, newCapacity, cellSize, uncopied), ResizedLayout(l, newCapacity))
          == Read(cells, l)
      {
        ResizeKeepsContents(cells, l, newCapacity, cellSize, uncopied);
      }
    } else if CopyFits(l, newCapacity, cellSize) {
      var other := if cells[l.head] == x then y else x;
      var uncopied := seq(newCapacity as int, i => other);
      HeadIsLost(cells, l, newCapacity, cellSize, uncopied);
      assert |uncopied| == newCapacity as int;
    }
  }

  /** Otherwise the head's cell is not copied, or the head lies beyond the new block. */
  lemma HeadIsLost<T>(cells: seq<T>, l: Layout, newCapacity: Size, cellSize: Size, uncopied: seq<T>)
    requires l.Valid() && |cells| == l.capacity as int && cellSize > 0 && |uncopied| == newCapacity as int
    requires 0 < newCapacity < INVALID_INDEX && newCapacity >= l.count
    requires CopyFits(l, newCapacity, cellSize) && !ResizeKeeps(l, newCapacity, cellSize)
    requires forall i | 0 <= i < |uncopied| :: uncopied[i] != cells[l.head]
    ensures ResizedLayout(l, newCapacity).Valid() ==>
              Read(ResizedBlock(cells, l, newCapacity, cellSize, uncopied), ResizedLayout(l, newCapacity))
              != Read(cells, l)
  {
    if l.head < newCapacity {
      var after, l' := ResizedBlock(cells, l, newCapacity, cellSize, uncopied), ResizedLayout(l, newCapacity);
      assert l.Slot(l.count as int - 1) == l.head as int == l'.Slot(l.count as int - 1);
      assert after[l.head] == uncopied[l.head];
      assert Read(after, l')[l.count as int - 1] != Read(cells, l)[l.count as int - 1];
    }
  }

  lemma ResizeKeepsContents<T>(cells: seq<T>, l: Layout, newCapacity: Size, cellSize: Size, uncopied: seq<T>)
    requires l.Valid() && |cells| == l.capacity as int && cellSize > 0
    requires 0 < newCapacity < INVALID_INDEX && newCapacity >= l.count && |uncopied| == newCapacity as int
    requires CopyFits(l, newCapacity, cellSize) && ResizeKeeps(l, newCapacity, cellSize)
    ensures ResizedLayout(l, newCapacity).Valid()
    ensures Read(ResizedBlock(cells, l, newCapacity, cellSize, uncopied), ResizedLayout(l, newCapacity))
      == Read(cells, l)
  {
    var after, l' := ResizedBlock(cells, l, newCapacity, cellSize, uncopied), ResizedLayout(l, newCapacity);
    forall i | 0 <= i < l.count as int
      ensures after[l'.Slot(i)] == cells[l.Slot(i)]
    {
    }
  }

  /** A bounded deque over sequences (back first), the simple form the ring refines. */
  datatype Call<T> = PushFront(v: T) | PushBack(v: T) | EmplaceFront(v: T) | EmplaceBack(v: T)
                   | PopFront | PopBack | Clear

  function DequeAfter<T>(s: seq<T>, capacity: nat, call: Call<T>): seq<T> {
    match call
    case PushFront(v) => if |s| < capacity then s + [v] else s
    case EmplaceFront(v) => if |s| < capacity then s + [v] else s
    case PushBack(v) => if |s| < capacity then [v] + s else s
    case EmplaceBack(v) => if |s| < capacity then [v] + s else s
    case PopFront => if s == [] then s else s[..|s| - 1]
    case PopBack => if s == [] then s else s[1..]
    case Clear => []
  }

  function DequePopped<T>(s: seq<T>, call: Call<T>): Option<T> {
    match call
    case PopFront => if s == [] then None else Some(s[|s| - 1])
    case PopBack => if s == [] then None else Some(s[0])
    case _ => None
  }

  function DequeRun<T>(s: seq<T>, capacity: nat, calls: seq<Call<T>>): seq<T>
    decreases |calls|
  {
    if calls == [] then s else DequeAfter(DequeRun(s, capacity, calls[..|calls| - 1]), capacity, calls[|calls| - 1])
  }

  /** The cell after this one, around the end. */
  predicate OneUp(index: Size, capacity: Size, next: Size) {
    if index as int == capacity as int - 1 then next == 0 else next as int == index as int + 1
  }

  class RingBuffer<T(0)> {
    var memory: array<T>
    var capacity: Size
    var head: Size
    var elementsInside: Size

    ghost predicate Valid()
      reads this
    {
      memory.Length == capacity as int && State().Valid()
    }

    ghost function State(): Layout
      reads this
    {
      Layout(capacity, head, elementsInside)
    }

    /** The elements from back to front. */
    ghost function Contents(): (s: seq<T>)
      requires Valid()
      reads this, memory
      ensures |s| == elementsInside as int
    {
      Read(memory[..], State())
    }

    constructor (capacity: Size)
      requires 0 < capacity < INVALID_INDEX
      ensures Valid() && fresh(memory)
      ensures this.capacity == capacity && Contents() == []
    {
      memory := new T[capacity as int];
      this.capacity := capacity;
      head := INVALID_INDEX;
      elementsInside := 0;
    }

    method Clear()
      requires Valid()
      modifies `head, `elementsInside
      ensures Valid() && Contents() == []
    {
      head := INVALID_INDEX;
      elementsInside := 0;
    }

    function GetTailIndex(): (tail: Size)
      requires Valid()
      reads this
      ensures tail == INVALID_INDEX <==> elementsInside == 0
    {
      Layout(capacity, head, elementsInside).Tail()
    }

    /** With the ring empty, `head + 1` wraps around to zero. */
    function GetNextHeadIndex(): (next: Size)
      requires Valid()
      reads this
      ensures elementsInside == 0 ==> next == 0
      ensures elementsInside == capacity ==> next == INVALID_INDEX
      ensures 0 < elementsInside < capacity ==> next < capacity && !State().Live(next as int)
    {
      if capacity == 0 || capacity == elementsInside then INVALID_INDEX
      else if head == capacity - 1 then 0
      else if head == INVALID_INDEX then 0
      else head + 1
    }

    /** With the ring empty, this is an index beyond any block: pushing must not ask for it. */
    function GetNextTailIndex(): (next: Size)
      requires Valid()
      reads this
      ensures elementsInside == 0 ==> next == INVALID_INDEX - 1
      ensures elementsInside == capacity ==> next == INVALID_INDEX
      ensures 0 < elementsInside < capacity ==> next < capacity && !State().Live(next as int)
    {
      if capacity == 0 || capacity == elementsInside then INVALID_INDEX
      else if GetTailIndex() == 0 then capacity - 1
      else GetTailIndex() - 1
    }

    method PushFront(value: T) returns (index: Size)
      requires Valid()
      modifies this`head, this`elementsInside, memory
      ensures Valid() && memory == old(memory) && capacity == old(capacity)
      ensures old(elementsInside) == capacity ==>
                index == INVALID_INDEX && Contents() == old(Contents())
      ensures old(elementsInside) < capacity ==>
                && Contents() == old(Contents()) + [value]
                && index == head
                && memory[..] == old(memory[..])[index := value]
                && !old(State().Live(index as int))
                && (if old(elementsInside) == 0 then index == 0 else OneUp(old(head), capacity, index))
    {
      if capacity > elementsInside {
        var target: Size := 0;
        if head != INVALID_INDEX {
          target := GetNextHeadIndex();
        }
        memory[target] := value;
        head := target;
        elementsInside := elementsInside + 1;
        PushedFront(old(memory[..]), old(State()), memory[..], State());
        return target;
      }
      return INVALID_INDEX;
    }

    method PushBack(value: T) returns (index: Size)
      requires Valid()
      modifies this`head, this`elementsInside, memory
      ensures Valid() && memory == old(memory) && capacity == old(capacity)
      ensures old(elementsInside) == capacity ==>
                index == INVALID_INDEX && Contents() == old(Contents())
      ensures old(elementsInside) < capacity ==>
                && Contents() == [value] + old(Contents())
                && index == GetTailIndex()
                && memory[..] == old(memory[..])[index := value]
                && !old(State().Live(index as int))
                && (if old(elementsInside) == 0 then index == 0 else OneUp(index, capacity, old(GetTailIndex())))
    {
      if capacity > elementsInside {
        var target: Size := 0;
        if GetTailIndex() != INVALID_INDEX {
          target := GetNextTailIndex();
        }
        memory[target] := value;
        elementsInside := elementsInside + 1;
        if head == INVALID_INDEX {
          head := target;
        }
        PushedBack(old(memory[..]), old(State()), memory[..], State());
        return target;
      }
      return INVALID_INDEX;
    }

    /** As PushFront, but by swapping: the caller's value receives what the cell held before. */
    method EmplaceFront(value: T) returns (index: Size, swapped: T)
      requires Valid()
      modifies this`head, this`elementsInside, memory
      ensures Valid() && memory == old(memory) && capacity == old(capacity)
      ensures old(elementsInside) == capacity ==>
                index == INVALID_INDEX && swapped == value && Contents() == old(Contents())
      ensures old(elementsInside) < capacity ==>
                && Contents() == old(Contents()) + [value]
                && index == head && swapped == old(memory[..])[index]
                && !old(State().Live(index as int))
                && (if old(elementsInside) == 0 then index == 0 else OneUp(old(head), capacity, index))
                && memory[..] == old(memory[..])[index := value]
    {
      if capacity > elementsInside {
        var target: Size := 0;
        if head != INVALID_INDEX {
          target := GetNextHeadIndex();
        }
        swapped := memory[target];
        memory[target] := value;
        head := target;
        elementsInside := elementsInside + 1;
        PushedFront(old(memory[..]), old(State()), memory[..], State());
        return target, swapped;
      }
      return INVALID_INDEX, value;
    }

    /** As PushBack, but by swapping. */
    method EmplaceBack(value: T) returns (index: Size, swapped: T)
      requires Valid()
      modifies this`head, this`elementsInside, memory
      ensures Valid() && memory == old(memory) && capacity == old(capacity)
      ensures old(elementsInside) == capacity ==>
                index == INVALID_INDEX && swapped == value && Contents() == old(Contents())
      ensures old(elementsInside) < capacity ==>
                && Contents() == [value] + old(Contents())
                && index == GetTailIndex() && swapped == old(memory[..])[index]
                && !old(State().Live(index as int))
                && (if old(elementsInside) == 0 then index == 0 else OneUp(index, capacity, old(GetTailIndex())))
                && memory[..] == old(memory[..])[index := value]
    {
      if capacity > elementsInside {
        var target: Size := 0;
        if GetTailIndex() != INVALID_INDEX {
          target := GetNextTailIndex();
        }
        swapped := memory[target];
        memory[target] := value;
        elementsInside := elementsInside + 1;
        if head == INVALID_INDEX {
          head := target;
        }
        PushedBack(old(memory[..]), old(State()), memory[..], State());
        return target, swapped;
      }
      return INVALID_INDEX, value;
    }

    method PeekFront() returns (r: Option<T>)
      requires Valid()
      ensures r == if Contents() == [] then None else Some(Contents()[|Contents()| - 1])
    {
      r := None;
      if head != INVALID_INDEX {
        r := Some(memory[head]);
        assert State().Slot(elementsInside as int - 1) == head as int;
      }
    }

    method PeekBack() returns (r: Option<T>)
      requires Valid()
      ensures r == if Contents() == [] then None else Some(Contents()[0])
    {
      r := None;
      if GetTailIndex() != INVALID_INDEX {
        r := Some(memory[GetTailIndex()]);
        assert State().Slot(0) == GetTailIndex() as int;
      }
    }

    /** `None` stands for the dangling reference to a default value that the source returns. */
    method PopFront() returns (r: Option<T>)
      requires Valid()
      modifies this`head, this`elementsInside
      ensures Valid()
      ensures old(Contents()) == [] ==> r == None && Contents() == []
      ensures old(Contents()) != [] ==> r.Some? && old(Contents()) == Contents() + [r.value]
    {
      r := None;
      if head != INVALID_INDEX {
        r := Some(memory[head]);
        assert State().Slot(elementsInside as int - 1) == head as int;
        if elementsInside > 1 {
          elementsInside := elementsInside - 1;
          if head == 0 {
            head := capacity - 1;
          } else {
            OneModulo(capacity);
            head := head - 1 % capacity;
          }
          PoppedFront(memory[..], old(State()), State());
        } else {
          head := INVALID_INDEX;
          elementsInside := 0;
        }
      }
    }

    method PopBack() returns (r: Option<T>)
      requires Valid()
      modifies this`head, this`elementsInside
      ensures Valid()
      ensures old(Contents()) == [] ==> r == None && Contents() == []
      ensures old(Contents()) != [] ==> r.Some? && old(Contents()) == [r.value] + Contents()
    {
      r := None;
      if GetTailIndex() != INVALID_INDEX {
        r := Some(memory[GetTailIndex()]);
        assert State().Slot(0) == GetTailIndex() as int;
        if elementsInside > 1 {
          elementsInside := elementsInside - 1;
          PoppedBack(memory[..], old(State()), State());
        } else {
          head := INVALID_INDEX;
          elementsInside := 0;
        }
      }
    }

    method Perform(call: Call<T>) returns (popped: Option<T>)
      requires Valid()
      modifies this`head, this`elementsInside, memory
      ensures Valid() && memory == old(memory) && capacity == old(capacity)
      ensures Contents() == DequeAfter(old(Contents()), capacity as int, call)
      ensures popped == DequePopped(old(Contents()), call)
    {
      popped := None;
      match call
      case PushFront(v) => var _ := PushFront(v);
      case PushBack(v) => var _ := PushBack(v);
      case EmplaceFront(v) => var _, _ := EmplaceFront(v);
      case EmplaceBack(v) => var _, _ := EmplaceBack(v);
      case PopFront => popped := PopFront();
      case PopBack => popped := PopBack();
      case Clear => Clear();
    }

    /** Any sequence of calls behaves as on the bounded deque: same contents, same popped values. */
    method Run(calls: seq<Call<T>>) returns (popped: seq<Option<T>>)
      requires Valid()
      modifies this`head, this`elementsInside, memory
      ensures Valid() && capacity == old(capacity)
      ensures Contents() == DequeRun(old(Contents()), capacity as int, calls)
      ensures |popped| == |calls|
      ensures forall i | 0 <= i < |calls| ::
                popped[i] == DequePopped(DequeRun(old(Contents()), capacity as int, calls[..i]), calls[i])
    {
      popped := [];
      for i := 0 to |calls|
        invariant Valid() && memory == old(memory) && capacity == old(capacity)
        invariant Contents() == DequeRun(old(Contents()), capacity as int, calls[..i])
        invariant |popped| == i
        invariant forall k | 0 <= k < i ::
                    popped[k] == DequePopped(DequeRun(old(Contents()), capacity as int, calls[..k]), calls[k])
      {
        var p := Perform(calls[i]);
        popped := popped + [p];
        assert calls[..i + 1][..i] == calls[..i];
      }
      assert calls[..|calls|] == calls;
    }

    method LookAtIndex(index: Size) returns (r: Option<T>)
      requires Valid()
      ensures r == if LookAtAccepts(State(), index) then Some(memory[index]) else None
    {
      if || index >= capacity
         || elementsInside == 0
         || index == INVALID_INDEX
         || (index < GetTailIndex() && index > head)
         || (index > GetTailIndex() && index > head && GetTailIndex() <= head) {
        return None;
      }
      return Some(memory[index]);
    }

    /** The two copy loops of `Resize`: the cells from the tail on, then those up to the head. */
    method CopyWrapped(block: array<T>)
      requires Valid() && State().Wrapped() && block != memory && block.Length >= elementsInside as int
      modifies block
      ensures block[..] == memory[GetTailIndex()..] + memory[..head as int + 1] + old(block[..])[elementsInside..]
    {
      ghost var cells, before, tail := memory[..], block[..], GetTailIndex() as int;
      var next: Size := 0;
      var copyIndex := GetTailIndex();
      while copyIndex < capacity
        invariant tail <= copyIndex as int <= capacity as int && next as int == copyIndex as int - tail
        invariant forall k | 0 <= k < next as int :: block[k] == cells[tail + k]
        invariant forall k | next as int <= k < block.Length :: block[k] == before[k]
      {
        block[next] := memory[copyIndex];
        next, copyIndex := next + 1, copyIndex + 1;
      }
      ghost var fromTail := next as int;
      copyIndex := 0;
      while copyIndex <= head
        invariant 0 <= copyIndex as int <= head as int + 1 && next as int == fromTail + copyIndex as int
        invariant forall k | 0 <= k < fromTail :: block[k] == cells[tail + k]
        invariant forall k | fromTail <= k < next as int :: block[k] == cells[k - fromTail]
        invariant forall k | next as int <= k < block.Length :: block[k] == before[k]
      {
        block[next] := memory[copyIndex];
        next, copyIndex := next + 1, copyIndex + 1;
      }
    }

    /** `granted` says whether the allocator delivers the new block, `cellSize` is the element size in
        bytes. `uncopied` is what the new block held before anything was copied into it. */
    method Resize(newCapacity: Size, granted: bool, cellSize: Size) returns (ok: bool, ghost uncopied: seq<T>)
      requires Valid() && cellSize > 0 && CopyFits(State(), newCapacity, cellSize)
      modifies this
      ensures ok <==> 0 < newCapacity < INVALID_INDEX && newCapacity >= old(elementsInside) && granted
      ensures !ok ==> unchanged(this)
      ensures ok ==>
                && fresh(memory)
                && memory.Length == |uncopied| == newCapacity as int
                && State() == ResizedLayout(old(State()), newCapacity)
                && memory[..] == ResizedBlock(old(memory[..]), old(State()), newCapacity, cellSize, uncopied)
      ensures ok && ResizeKeeps(old(State()), newCapacity, cellSize) ==> Valid() && Contents() == old(Contents())
    {
      uncopied := [];
      if 0 < newCapacity && newCapacity != INVALID_INDEX && newCapacity >= elementsInside {
        if granted {
          var block := new T[newCapacity as int];
          uncopied := block[..];
          ghost var cells := memory[..];
          if elementsInside > 0 && head != INVALID_INDEX {
            var tailIndex: Size := 0;
            if GetTailIndex() != INVALID_INDEX {
              tailIndex := GetTailIndex();
            }
            if tailIndex > head {
              CopyWrapped(block);
              head := elementsInside - 1;
            } else {
              CopiedCellsFit(State(), newCapacity, cellSize);
              var n := CellsCopied(head as int, cellSize as int);
              forall i | 0 <= i < n {
                block[i] := memory[i];
              }
              assert block[..] == cells[..n] + uncopied[n..];
            }
          }
          capacity := newCapacity;
          memory := block;
          if ResizeKeeps(old(State()), newCapacity, cellSize) {
            ResizeKeepsContents(cells, old(State()), newCapacity, cellSize, uncopied);
          }
          return true, uncopied;
        }
      }
      return false, uncopied;
    }
  }
}
