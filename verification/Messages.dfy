/** The message packets of SpNetCommon/src/spNetMessage.h: a header with an id and a 32-bit size, and a
    body of bytes onto which values are pushed and from which they are popped, last one first. */
module Messages {
  import opened Wrappers

  type Byte = b: int | 0 <= b < 256
  type UInt32 = n: int | 0 <= n < 0x1_0000_0000

  const HEADER_BYTES := 8

  datatype Header = Header(id: UInt32, size: UInt32)

  datatype Message = Message(header: Header, body: seq<Byte>) {
    /** What the `<<` and `>>` operators maintain, as long as the body stays below 2^32 bytes. */
    predicate WellFormed() {
      header.size == |body|
    }
  }

  /** A message in an incoming queue: a server notes the connection it came from, a client does not. */
  datatype OwnedMessage = OwnedMessage(remote: Option<nat>, msg: Message)

  /** `msg.header.size = msg.size()`: the 64-bit body length is cut down to 32 bits. */
  function Resized(m: Message, body: seq<Byte>): Message {
    Message(m.header.(size := |body| % 0x1_0000_0000), body)
  }

  /** `data` is the object representation of the pushed value. */
  function Pushed(m: Message, data: seq<Byte>): Message {
    Resized(m, m.body + data)
  }

  function Popped(m: Message, n: nat): (seq<Byte>, Message)
    requires n <= |m.body|
  {
    (m.body[|m.body| - n..], Resized(m, m.body[..|m.body| - n]))
  }

  function PushAll(m: Message, values: seq<seq<Byte>>): Message
    decreases |values|
  {
    if values == [] then m else PushAll(Pushed(m, values[0]), values[1..])
  }

  function PopAll(m: Message, sizes: seq<nat>): (seq<seq<Byte>>, Message)
    requires Total(sizes) <= |m.body|
    decreases |sizes|
  {
    if sizes == [] then ([], m)
    else
      var (value, rest) := Popped(m, sizes[0]);
      var (values, final) := PopAll(rest, sizes[1..]);
      ([value] + values, final)
  }

  function Total(sizes: seq<nat>): nat {
    if sizes == [] then 0 else sizes[0] + Total(sizes[1..])
  }

  function Reversed<T>(s: seq<T>): (r: seq<T>)
    ensures |r| == |s|
  {
    if s == [] then [] else Reversed(s[1..]) + [s[0]]
  }

  function Sizes(values: seq<seq<Byte>>): (sizes: seq<nat>)
    ensures |sizes| == |values|
  {
    if values == [] then [] else [|values[0]|] + Sizes(values[1..])
  }

  function Joined(values: seq<seq<Byte>>): seq<Byte> {
    if values == [] then [] else values[0] + Joined(values[1..])
  }

  lemma {:induction false} PushAllAppends(m: Message, values: seq<seq<Byte>>)
    ensures PushAll(m, values).body == m.body + Joined(values)
    ensures PushAll(m, values).header.id == m.header.id
    ensures values != [] ==> PushAll(m, values) == Resized(m, m.body + Joined(values))
    decreases |values|
  {
    if values != [] {
      PushAllAppends(Pushed(m, values[0]), values[1..]);
      assert m.body + values[0] + Joined(values[1..]) == m.body + Joined(values);
    }
  }

  lemma {:induction false} TotalAppend(s: seq<nat>, n: nat)
    ensures Total(s + [n]) == Total(s) + n
  {
    if s != [] {
      assert (s + [n])[1..] == s[1..] + [n];
      TotalAppend(s[1..], n);
    }
  }

  lemma {:induction false} PopAllSplit(m: Message, sizes: seq<nat>, n: nat)
    requires Total(sizes) + n <= |m.body|
    ensures Total(sizes + [n]) == Total(sizes) + n
    ensures |PopAll(m, sizes).1.body| == |m.body| - Total(sizes)
    ensures var (values, rest) := PopAll(m, sizes);
            var (last, final) := Popped(rest, n);
            PopAll(m, sizes + [n]) == (values + [last], final)
    decreases |sizes|
  {
    TotalAppend(sizes, n);
    if sizes != [] {
      var (value, rest) := Popped(m, sizes[0]);
      assert (sizes + [n])[1..] == sizes[1..] + [n];
      PopAllSplit(rest, sizes[1..], n);
      var (values, tail) := PopAll(rest, sizes[1..]);
      var (last, final) := Popped(tail, n);
      assert [value] + (values + [last]) == ([value] + values) + [last];
    } else {
      assert sizes + [n] == [n];
      var (last, final) := Popped(m, n);
      assert PopAll(final, []) == ([], final);
      assert [last] + [] == [] + [last];
    }
  }

  lemma {:induction false} TotalOfReversed(values: seq<seq<Byte>>)
    ensures Total(Reversed(Sizes(values))) == |Joined(values)|
  {
    if values != [] {
      TotalOfReversed(values[1..]);
      TotalAppend(Reversed(Sizes(values[1..])), |values[0]|);
      assert Sizes(values)[1..] == Sizes(values[1..]);
    }
  }

  /** Popping the same types in reverse order returns every pushed value and restores the body, with
      the header's size set to that body's length. */
  lemma {:induction false} PopsUndoPushes(m: Message, values: seq<seq<Byte>>)
    ensures Total(Reversed(Sizes(values))) <= |PushAll(m, values).body|
    ensures PopAll(PushAll(m, values), Reversed(Sizes(values)))
            == (Reversed(values), if values == [] then m else Resized(m, m.body))
    decreases |values|
  {
    TotalOfReversed(values);
    PushAllAppends(m, values);
    if values != [] {
      var first := values[0];
      var after := Pushed(m, first);
      var sizes := Reversed(Sizes(values[1..]));
      PopsUndoPushes(after, values[1..]);
      TotalOfReversed(values[1..]);
      assert Sizes(values)[1..] == Sizes(values[1..]);
      assert PushAll(m, values) == PushAll(after, values[1..]);
      PushAllAppends(after, values[1..]);
      PopAllSplit(PushAll(after, values[1..]), sizes, |first|);
      assert Resized(after, after.body) == after;
      assert after.body[..|after.body| - |first|] == m.body;
      assert Popped(after, |first|) == (first, Resized(m, m.body));
    }
  }

  /** For bodies below 2^32 bytes the size field is the body's length after every operation. */
  lemma OperatorsKeepWellFormed(m: Message, data: seq<Byte>, n: nat)
    requires n <= |m.body|
    ensures Pushed(m, data).WellFormed() <==> |m.body| + |data| < 0x1_0000_0000
    ensures Popped(m, n).1.WellFormed() <==> |m.body| - n < 0x1_0000_0000
    ensures m.WellFormed() ==> Resized(m, m.body) == m
  {
    var grown := |m.body| + |data|;
    assert grown < 0x1_0000_0000 ==> grown % 0x1_0000_0000 == grown;
  }

  /** The message object whose operators change it in place. */
  class MessageBuffer {
    var header: Header
    var body: seq<Byte>

    function Value(): Message
      reads this
    {
      Message(header, body)
    }

    constructor (id: UInt32)
      ensures Value() == Message(Header(id, 0), []) && Value().WellFormed()
    {
      header := Header(id, 0);
      body := [];
    }

    /** `operator <<` */
    method Push(data: seq<Byte>)
      modifies this
      ensures Value() == Pushed(old(Value()), data)
    {
      body := body + data;
      header := header.(size := |body| % 0x1_0000_0000);
    }

    /** `operator >>`; popping more bytes than the body holds is undefined in the source. */
    method Pop(n: nat) returns (data: seq<Byte>)
      requires n <= |body|
      modifies this
      ensures (data, Value()) == Popped(old(Value()), n)
    {
      var i := |body| - n;
      data := body[i..];
      body := body[..i];
      header := header.(size := |body| % 0x1_0000_0000);
    }
  }

  // ---- The wire form of a header: two little-endian 32-bit words --------------------------------

  function WordBytes(n: UInt32): (bs: seq<Byte>)
    ensures |bs| == 4
  {
    [n % 0x100, n / 0x100 % 0x100, n / 0x1_0000 % 0x100, n / 0x100_0000]
  }

  function BytesWord(bs: seq<Byte>): UInt32
    requires |bs| == 4
  {
    bs[0] as int + 0x100 * bs[1] as int + 0x1_0000 * bs[2] as int + 0x100_0000 * bs[3] as int
  }

  /** The lowest byte comes off a number, and the rest moves down. */
  lemma LowestByte(low: Byte, rest: nat)
    ensures (low as int + 0x100 * rest) / 0x100 == rest && (low as int + 0x100 * rest) % 0x100 == low as int
  {
  }

  lemma DivideInSteps(n: nat)
    ensures n / 0x1_0000 == n / 0x100 / 0x100 && n / 0x100_0000 == n / 0x100 / 0x100 / 0x100
  {
  }

  lemma BytesRoundTrip(bs: seq<Byte>)
    requires |bs| == 4
    ensures WordBytes(BytesWord(bs)) == bs
  {
    var w := BytesWord(bs);
    var third: nat := bs[2] as int + 0x100 * bs[3] as int;
    var second: nat := bs[1] as int + 0x100 * third;
    assert w as int == bs[0] as int + 0x100 * second;
    DivideInSteps(w);
    LowestByte(bs[0], second);
    LowestByte(bs[1], third);
    LowestByte(bs[2], bs[3] as int);
  }

  lemma WordRoundTrip(n: UInt32, bs: seq<Byte>)
    requires |bs| == 4
    ensures BytesWord(WordBytes(n)) == n
    ensures WordBytes(BytesWord(bs)) == bs
  {
    BytesRoundTrip(bs);
    DivideInSteps(n);
    var second, third := n / 0x100, n / 0x100 / 0x100;
    assert n == n % 0x100 + 0x100 * second;
    assert second == second % 0x100 + 0x100 * third;
    assert third == third % 0x100 + 0x100 * (third / 0x100);
  }

  function HeaderBytes(h: Header): (bs: seq<Byte>)
    ensures |bs| == HEADER_BYTES
  {
    WordBytes(h.id) + WordBytes(h.size)
  }

  function ParseHeader(bs: seq<Byte>): Header
    requires |bs| == HEADER_BYTES
  {
    Header(BytesWord(bs[..4]), BytesWord(bs[4..]))
  }

  lemma HeaderRoundTrip(h: Header, bs: seq<Byte>)
    requires |bs| == HEADER_BYTES
    ensures ParseHeader(HeaderBytes(h)) == h
    ensures HeaderBytes(ParseHeader(bs)) == bs
  {
    WordRoundTrip(h.id, bs[..4]);
    WordRoundTrip(h.size, bs[4..]);
    assert HeaderBytes(h)[..4] == WordBytes(h.id) && HeaderBytes(h)[4..] == WordBytes(h.size);
    assert bs[..4] + bs[4..] == bs;
  }

  /** On the wire the id comes first and then the size, each with its lowest byte first. */
  lemma HeaderOnTheWire(h: Header)
    ensures var bs := HeaderBytes(h);
            && h.id == bs[0] as int + 0x100 * bs[1] as int + 0x1_0000 * bs[2] as int + 0x100_0000 * bs[3] as int
            && h.size == bs[4] as int + 0x100 * bs[5] as int + 0x1_0000 * bs[6] as int + 0x100_0000 * bs[7] as int
  {
    WordRoundTrip(h.id, WordBytes(h.id));
    WordRoundTrip(h.size, WordBytes(h.size));
    assert HeaderBytes(h)[..4] == WordBytes(h.id) && HeaderBytes(h)[4..] == WordBytes(h.size);
  }
}
