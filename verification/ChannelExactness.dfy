/** When a message arrives as it was sent: exactly when its size field is the length of its body. A
    bodyless read leaves the body of an earlier message behind, so a message received and sent back as
    it is need not be like that. */
module ChannelExactness {
  import opened Messages
  import opened Channel
  import opened ChannelSafety

  // ---- Byte streams that read back as something else ---------------------------------------------

  function Zeros(n: nat): (bytes: seq<Byte>)
    ensures |bytes| == n
  {
    seq(n, i => 0)
  }

  /** A well-formed message of `n` bytes. */
  function Filler(n: UInt32): (m: Message)
    ensures m.WellFormed()
  {
    Message(Header(0, n), Zeros(n))
  }

  /** A bodyless message whose first byte on the wire is not `b`. */
  function Unlike(b: Byte): (m: Message)
    ensures m.WellFormed() && HeaderBytes(m.header)[0] != b
  {
    Message(Header(if b == 0 then 1 else 0, 0), [])
  }

  lemma TwoMessages(a: Message, b: Message)
    ensures Frames([a, b]) == Frame(a) + Frame(b) && WrittenAll([a, b]) == Written(a) + Written(b)
  {
    FramesOne(b);
    WrittenAllOne(b);
    assert [a, b][1..] == [b];
  }

  /** Too few body bytes: the reader takes the next message for the rest. */
  lemma ShortBodyIsMisread(m: Message) returns (later: seq<Message>, received: seq<Message>)
    requires m.header.size > |m.body|
    ensures AllWellFormed(later) && AllSized(received)
    ensures Frames(received) <= Written(m) + WrittenAll(later) && !SamePrefix(received, [m] + later)
  {
    later := [Filler(m.header.size)];
    WrittenAllOne(later[0]);
    var stream := m.body + WrittenAll(later);
    var r := Message(m.header, stream[..m.header.size]);
    received := [r];
    FramesOne(r);
    assert Written(m) + WrittenAll(later) == HeaderBytes(m.header) + stream;
    assert received[0] == r && ([m] + later)[0] == m && !SameMessage(r, m);
  }

  /** Too many: the reader stops before the body's end. */
  lemma LongBodyIsMisread(m: Message) returns (later: seq<Message>, received: seq<Message>)
    requires 0 < m.header.size < |m.body|
    ensures AllWellFormed(later) && AllSized(received)
    ensures Frames(received) <= Written(m) + WrittenAll(later) && !SamePrefix(received, [m] + later)
  {
    later := [];
    var r := Message(m.header, m.body[..m.header.size]);
    received := [r];
    FramesOne(r);
    assert Written(m) + WrittenAll(later) == HeaderBytes(m.header) + m.body;
    assert received[0] == r && ([m] + later)[0] == m && !SameMessage(r, m);
  }

  /** A body that was not announced: the reader takes its bytes for the next header, and receives a
      message nobody sent. */
  lemma StaleBodyIsMisread(m: Message) returns (later: seq<Message>, received: seq<Message>)
    requires m.header.size == 0 < |m.body|
    ensures AllWellFormed(later) && AllSized(received)
    ensures Frames(received) <= Written(m) + WrittenAll(later) && !SamePrefix(received, [m] + later)
  {
    var next := Unlike(m.body[0]);
    var header := ParseHeader((m.body + HeaderBytes(next.header))[..HEADER_BYTES]);
    later := [next, Filler(header.size)];
    TwoMessages(later[0], later[1]);
    var stream := m.body + WrittenAll(later);
    assert stream == (m.body + HeaderBytes(next.header)) + Written(later[1]);
    HeaderRoundTrip(header, (m.body + HeaderBytes(next.header))[..HEADER_BYTES]);
    assert HeaderBytes(header) == stream[..HEADER_BYTES] && HeaderBytes(header)[0] == m.body[0];
    var phantom := Message(header, stream[HEADER_BYTES..HEADER_BYTES + header.size]);
    received := [Message(m.header, []), phantom];
    TwoMessages(received[0], phantom);
    PhantomIsRead(m, phantom, stream);
    assert received[1] == phantom && ([m] + later)[1] == next && !SameMessage(phantom, next);
    assert Written(m) + WrittenAll(later) == HeaderBytes(m.header) + stream;
  }

  lemma PhantomIsRead(m: Message, phantom: Message, stream: seq<Byte>)
    requires m.header.size == 0 && HEADER_BYTES + phantom.header.size <= |stream|
    requires HeaderBytes(phantom.header) == stream[..HEADER_BYTES]
    requires phantom.body == stream[HEADER_BYTES..HEADER_BYTES + phantom.header.size]
    ensures Frame(Message(m.header, [])) + Frame(phantom) <= HeaderBytes(m.header) + stream
  {
    assert Frame(phantom) == stream[..HEADER_BYTES + phantom.header.size];
  }

  /** Whatever is wrong with the size field of a message, and whatever well-formed messages came before:
      for some well-formed messages after it, the bytes written read back as something else. */
  lemma IllFormedIsMisread(before: seq<Message>, m: Message) returns (later: seq<Message>, received: seq<Message>)
    requires AllWellFormed(before) && !m.WellFormed()
    ensures AllWellFormed(later) && AllSized(received)
    ensures Frames(received) <= WrittenAll(before + ([m] + later)) && !SamePrefix(received, before + ([m] + later))
  {
    var r;
    if m.header.size > |m.body| {
      later, r := ShortBodyIsMisread(m);
    } else if m.header.size > 0 {
      later, r := LongBodyIsMisread(m);
    } else {
      later, r := StaleBodyIsMisread(m);
    }
    received := before + r;
    FramesAppend(before, r);
    WrittenAllAppend(before, [m] + later);
    WrittenAllAppend([m], later);
    WrittenAllOne(m);
    WellFormedIsFramed(before);
    MisreadBehind(before, r, [m] + later);
  }

  lemma MisreadBehind(before: seq<Message>, received: seq<Message>, sent: seq<Message>)
    requires AllWellFormed(before) && AllSized(received) && !SamePrefix(received, sent)
    ensures AllSized(before + received) && !SamePrefix(before + received, before + sent)
  {
    assert forall i | 0 <= i < |before| :: before[i].WellFormed();
    var n := |before|;
    if |received| <= |sent| {
      var i :| 0 <= i < |received| && !SameMessage(received[i], sent[i]);
      assert (before + received)[n + i] == received[i] && (before + sent)[n + i] == sent[i];
    }
  }

  // ---- Runs that deliver what a byte stream reads back as ------------------------------------------

  function Other(side: Side): Side {
    if side == Client then Server else Client
  }

  /** The wire from this side, and the wire to it. */
  function Outgoing(d: Duplex, side: Side): Wire {
    if side == Client then d.up else d.down
  }

  function Incoming(d: Duplex, side: Side): Wire {
    Outgoing(d, Other(side))
  }

  /** What an event at one side sees: its endpoint, the wire from it and the wire to it. */
  datatype Local = Local(e: Endpoint, out: Wire, inn: Wire)

  function LocalAt(d: Duplex, side: Side): Local {
    Local(EndpointAt(d, side), Outgoing(d, side), Incoming(d, side))
  }

  function Put(d: Duplex, side: Side, l: Local): Duplex {
    if side == Client then Duplex(l.e, d.server, l.out, l.inn) else Duplex(d.client, l.e, l.inn, l.out)
  }

  function LocalAfter(l: Local, ev: Event): Local
    requires Enabled(l.e, l.inn, ev)
  {
    var (e, out, inn) := After(l.e, l.out, l.inn, ev);
    Local(e, out, inn)
  }

  /** The events are possible one after the other, and lead from `l` to `l'`. */
  predicate Leads(l: Local, evs: seq<Event>, l': Local)
    decreases |evs|
  {
    if evs == [] then l' == l
    else Enabled(l.e, l.inn, evs[0]) && Leads(LocalAfter(l, evs[0]), evs[1..], l')
  }

  function StepsOf(side: Side, evs: seq<Event>): seq<Step> {
    if evs == [] then [] else [At(side, evs[0])] + StepsOf(side, evs[1..])
  }

  function PostsOf(evs: seq<Event>): seq<Message> {
    if evs == [] then []
    else (if evs[0].Post? then SendsOf([evs[0].task]) else []) + PostsOf(evs[1..])
  }

  lemma EventAsStep(d: Duplex, side: Side, ev: Event)
    requires Enabled(EndpointAt(d, side), Incoming(d, side), ev)
    ensures StepEnabled(d, At(side, ev)) && Next(d, At(side, ev)) == Put(d, side, LocalAfter(LocalAt(d, side), ev))
  {
  }

  lemma PutTwice(d: Duplex, side: Side, l: Local, l': Local)
    ensures LocalAt(Put(d, side, l), side) == l && Put(Put(d, side, l), side, l') == Put(d, side, l')
  {
  }

  /** Events at one side, as a run of the connection. */
  lemma {:induction false} EventsAsRun(d: Duplex, side: Side, evs: seq<Event>, l: Local)
    requires Leads(LocalAt(d, side), evs, l)
    ensures Runs(d, StepsOf(side, evs)) && Run(d, StepsOf(side, evs)) == Put(d, side, l)
    ensures PostedAt(side, StepsOf(side, evs)) == PostsOf(evs) && PostedAt(Other(side), StepsOf(side, evs)) == []
    decreases |evs|
  {
    if evs == [] {
      assert Put(d, side, LocalAt(d, side)) == d;
    } else {
      var s := At(side, evs[0]);
      EventAsStep(d, side, evs[0]);
      PutTwice(d, side, LocalAfter(LocalAt(d, side), evs[0]), l);
      EventsAsRun(Next(d, s), side, evs[1..], l);
      assert StepsOf(side, evs)[1..] == StepsOf(side, evs[1..]);
    }
  }

  lemma {:induction false} LeadsInTurn(l: Local, a: seq<Event>, l': Local, b: seq<Event>, l'': Local)
    requires Leads(l, a, l') && Leads(l', b, l'')
    ensures Leads(l, a + b, l'')
    decreases |a|
  {
    if a == [] {
      assert a + b == b;
    } else {
      var l1 := LocalAfter(l, a[0]);
      assert (a + b)[0] == a[0] && (a + b)[1..] == a[1..] + b;
      LeadsInTurn(l1, a[1..], l', b, l'');
    }
  }

  lemma {:induction false} PostsInTurn(a: seq<Event>, b: seq<Event>)
    ensures PostsOf(a + b) == PostsOf(a) + PostsOf(b)
  {
    if a == [] {
      assert a + b == b;
    } else {
      assert (a + b)[1..] == a[1..] + b;
      PostsInTurn(a[1..], b);
    }
  }

  lemma LeadsInOne(l: Local, ev: Event)
    requires Enabled(l.e, l.inn, ev)
    ensures Leads(l, [ev], LocalAfter(l, ev))
  {
    assert [ev][1..] == [];
  }

  // ---- Sending -----------------------------------------------------------------------------------

  /** Nothing is posted, queued or outstanding. */
  predicate AtRest(e: Endpoint) {
    e.open && e.posted == [] && e.s.out == [] && e.s.write.NoWrite?
  }

  function AfterSending(e: Endpoint, ms: seq<Message>): Endpoint {
    e.(s := e.s.(written := e.s.written + ms, emitted := e.s.emitted + WrittenAll(ms)))
  }

  function WriteOne(m: Message): seq<Event> {
    [WriteBytes(HEADER_BYTES), WriteDone] + if |m.body| > 0 then [WriteBytes(|m.body|), WriteDone] else []
  }

  function SendOne(m: Message): seq<Event> {
    [Post(SendTask(m))] + [RunTask] + WriteOne(m)
  }

  /** Both parts of a write: all bytes at once, and the completion. */
  lemma WriteInOne(l: Local, l': Local)
    requires l.e.open && !l.e.s.write.NoWrite? && l.e.s.write.unsent != [] && l.e.s.out != [] && !l.out.cut
    requires l' == Local(l.e.(s := CompleteWrite(EmitBytes(l.e.s, |l.e.s.write.unsent|))),
                         l.out.(bytes := l.out.bytes + l.e.s.write.unsent), l.inn)
    ensures Leads(l, [WriteBytes(|l.e.s.write.unsent|), WriteDone], l')
  {
    var n := |l.e.s.write.unsent|;
    var l1 := LocalAfter(l, WriteBytes(n));
    assert l.e.s.write.unsent[..n] == l.e.s.write.unsent;
    LeadsInOne(l, WriteBytes(n));
    LeadsInOne(l1, WriteDone);
    LeadsInTurn(l, [WriteBytes(n)], l1, [WriteDone], l');
    assert [WriteBytes(n)] + [WriteDone] == [WriteBytes(n), WriteDone];
  }

  /** Writing the front message, whose header is outstanding. */
  lemma WritesFront(l: Local, m: Message, l': Local)
    requires l.e.open && l.e.s.out == [m] && l.e.s.write == HeaderWrite(HeaderBytes(m.header)) && !l.out.cut
    requires l' == Local(l.e.(s := Sending([], NoWrite, l.e.s.written + [m], l.e.s.emitted + Written(m))),
                         l.out.(bytes := l.out.bytes + Written(m)), l.inn)
    ensures Leads(l, WriteOne(m), l')
  {
    var header, s := HeaderBytes(m.header), l.e.s;
    var l1 := Local(l.e.(s := CompleteWrite(EmitBytes(s, HEADER_BYTES))), l.out.(bytes := l.out.bytes + header), l.inn);
    assert header[..HEADER_BYTES] == header;
    WriteInOne(l, l1);
    assert s.emitted + header + m.body == s.emitted + Written(m);
    assert l.out.bytes + header + m.body == l.out.bytes + Written(m);
    assert [m][1..] == [];
    if |m.body| > 0 {
      assert m.body[..|m.body|] == m.body;
      WriteInOne(l1, l');
      LeadsInTurn(l, [WriteBytes(HEADER_BYTES), WriteDone], l1, [WriteBytes(|m.body|), WriteDone], l');
    } else {
      assert s.emitted + header == s.emitted + Written(m) && l.out.bytes + header == l.out.bytes + Written(m);
      LeadsInTurn(l, [WriteBytes(HEADER_BYTES), WriteDone], l1, [], l');
    }
  }

  function AfterSendingAll(l: Local, ms: seq<Message>): Local {
    Local(AfterSending(l.e, ms), l.out.(bytes := l.out.bytes + WrittenAll(ms)), l.inn)
  }

  lemma SendsOne(l: Local, m: Message)
    requires AtRest(l.e) && !l.out.cut
    ensures Leads(l, SendOne(m), AfterSendingAll(l, [m])) && PostsOf(SendOne(m)) == [m]
  {
    var write := WriteOne(m);
    var l1 := LocalAfter(l, Post(SendTask(m)));
    var l2 := LocalAfter(l1, RunTask);
    assert [] + [m] == [m] && [SendTask(m)][1..] == [];
    WrittenAllOne(m);
    WritesFront(l2, m, AfterSendingAll(l, [m]));
    LeadsInOne(l1, RunTask);
    LeadsInOne(l, Post(SendTask(m)));
    LeadsInTurn(l1, [RunTask], l2, write, AfterSendingAll(l, [m]));
    LeadsInTurn(l, [Post(SendTask(m))], l1, [RunTask] + write, AfterSendingAll(l, [m]));
    assert [Post(SendTask(m))] + ([RunTask] + write) == SendOne(m);
    PostsOfSendOne(m);
  }

  lemma PostsOfSendOne(m: Message)
    ensures PostsOf(SendOne(m)) == [m]
  {
    var rest := SendOne(m)[1..];
    assert SendsOf([SendTask(m)]) == [m];
    NoPosts(rest);
  }

  lemma {:induction false} NoPosts(evs: seq<Event>)
    requires forall i | 0 <= i < |evs| :: !evs[i].Post?
    ensures PostsOf(evs) == []
  {
    if evs != [] {
      NoPosts(evs[1..]);
    }
  }

  function SendAll(ms: seq<Message>): seq<Event> {
    if ms == [] then [] else SendOne(ms[0]) + SendAll(ms[1..])
  }

  lemma {:induction false} SendsAll(l: Local, ms: seq<Message>)
    requires AtRest(l.e) && !l.out.cut
    ensures Leads(l, SendAll(ms), AfterSendingAll(l, ms)) && PostsOf(SendAll(ms)) == ms
    decreases |ms|
  {
    if ms == [] {
      assert AfterSendingAll(l, []) == l by {
        assert AfterSending(l.e, []) == l.e && l.out.bytes + [] == l.out.bytes;
      }
    } else {
      var l1 := AfterSendingAll(l, [ms[0]]);
      SendsOne(l, ms[0]);
      SendsAll(l1, ms[1..]);
      SentInTurn(l, ms);
      LeadsInTurn(l, SendOne(ms[0]), l1, SendAll(ms[1..]), AfterSendingAll(l, ms));
      PostsInTurn(SendOne(ms[0]), SendAll(ms[1..]));
      assert [ms[0]] + ms[1..] == ms;
    }
  }

  lemma SentInTurn(l: Local, ms: seq<Message>)
    requires ms != []
    ensures AfterSendingAll(AfterSendingAll(l, [ms[0]]), ms[1..]) == AfterSendingAll(l, ms)
  {
    WrittenAllOne(ms[0]);
    assert l.e.s.written + [ms[0]] + ms[1..] == l.e.s.written + ms;
    assert l.e.s.emitted + Written(ms[0]) + WrittenAll(ms[1..]) == l.e.s.emitted + WrittenAll(ms);
    assert l.out.bytes + Written(ms[0]) + WrittenAll(ms[1..]) == l.out.bytes + WrittenAll(ms);
  }

  // ---- Reading -----------------------------------------------------------------------------------

  /** The message delivered when `m` is read into `temp`: a body that is not announced stays. */
  function Taken(temp: Message, m: Message): Message {
    if m.header.size > 0 then m else temp.(header := m.header)
  }

  function TakenAll(temp: Message, ms: seq<Message>): (r: seq<Message>)
    ensures |r| == |ms|
    decreases |ms|
  {
    if ms == [] then [] else [Taken(temp, ms[0])] + TakenAll(Taken(temp, ms[0]), ms[1..])
  }

  lemma {:induction false} TakenAreSame(temp: Message, ms: seq<Message>, sent: seq<Message>)
    ensures SamePrefix(TakenAll(temp, ms), sent) <==> SamePrefix(ms, sent)
    decreases |ms|
  {
    if ms != [] && sent != [] {
      TakenAreSame(Taken(temp, ms[0]), ms[1..], sent[1..]);
      SamePrefixInTurn(ms, sent);
      SamePrefixInTurn(TakenAll(temp, ms), sent);
      assert TakenAll(temp, ms)[1..] == TakenAll(Taken(temp, ms[0]), ms[1..]);
    }
  }

  lemma SamePrefixInTurn(a: seq<Message>, b: seq<Message>)
    requires a != [] && b != []
    ensures SamePrefix(a, b) <==> SameMessage(a[0], b[0]) && SamePrefix(a[1..], b[1..])
  {
    assert forall i | 0 < i < |a| :: a[i] == a[1..][i - 1];
    assert forall i | 0 < i < |b| :: b[i] == b[1..][i - 1];
    if SameMessage(a[0], b[0]) && SamePrefix(a[1..], b[1..]) {
      forall i | 0 <= i < |a|
        ensures SameMessage(a[i], b[i])
      {
        assert i > 0 ==> SameMessage(a[1..][i - 1], b[1..][i - 1]);
      }
    }
    if SamePrefix(a, b) {
      forall i | 0 <= i < |a| - 1
        ensures SameMessage(a[1..][i], b[1..][i])
      {
        assert SameMessage(a[i + 1], b[i + 1]);
      }
    }
  }

  /** The reader waits for a header and has none of it. */
  predicate Waiting(e: Endpoint) {
    e.open && e.r.read == HeaderRead([])
  }

  function AfterReading(e: Endpoint, m: Message): Endpoint {
    var taken := Taken(e.r.temp, m);
    e.(r := Reading(taken, HeaderRead([]), e.r.received + [taken], e.r.consumed + Frame(m)))
  }

  function ReadOne(m: Message): seq<Event> {
    [ReadBytes(HEADER_BYTES), ReadDone]
    + if m.header.size > 0 then [ReadBytes(m.header.size), ReadDone] else []
  }

  /** Both parts of a read: all bytes at once, and the completion. */
  lemma ReadInOne(l: Local, n: nat, l': Local)
    requires l.e.open && !l.e.r.read.NoRead? && l.e.r.read.got == [] && n == Wanted(l.e.r) && 0 < n <= |l.inn.bytes|
    requires l' == Local(l.e.(r := CompleteRead(TakeBytes(l.e.r, l.inn.bytes[..n]))), l.out,
                         l.inn.(bytes := l.inn.bytes[n..]))
    ensures Leads(l, [ReadBytes(n), ReadDone], l')
  {
    var l1 := LocalAfter(l, ReadBytes(n));
    assert [] + l.inn.bytes[..n] == l.inn.bytes[..n];
    LeadsInOne(l, ReadBytes(n));
    LeadsInOne(l1, ReadDone);
    LeadsInTurn(l, [ReadBytes(n)], l1, [ReadDone], l');
    assert [ReadBytes(n)] + [ReadDone] == [ReadBytes(n), ReadDone];
  }

  /** What reading the header leads to. */
  lemma HeaderIsRead(r: Reading, h: Header)
    requires r.read == HeaderRead([])
    ensures CompleteRead(TakeBytes(r, HeaderBytes(h)))
            == if h.size > 0
               then r.(temp := Message(h, ResizedBody(r.temp.body, h.size)), read := BodyRead([]),
                       consumed := r.consumed + HeaderBytes(h))
               else Deliver(r.(temp := r.temp.(header := h), consumed := r.consumed + HeaderBytes(h)))
  {
    HeaderRoundTrip(h, HeaderBytes(h));
    assert [] + HeaderBytes(h) == HeaderBytes(h);
  }

  lemma BodyIsRead(e: Endpoint, m: Message)
    requires Waiting(e) && m.header.size > 0 && |m.body| == m.header.size
    ensures var r := e.r.(temp := Message(m.header, ResizedBody(e.r.temp.body, m.header.size)), read := BodyRead([]),
                          consumed := e.r.consumed + HeaderBytes(m.header));
            e.(r := CompleteRead(TakeBytes(r, m.body))) == AfterReading(e, m)
  {
    assert [] + m.body == m.body;
    assert e.r.consumed + HeaderBytes(m.header) + m.body == e.r.consumed + Frame(m);
  }

  lemma ReadsOne(l: Local, m: Message, rest: seq<Byte>)
    requires Waiting(l.e) && AllSized([m]) && l.inn.bytes == Frame(m) + rest
    ensures Leads(l, ReadOne(m), Local(AfterReading(l.e, m), l.out, l.inn.(bytes := rest)))
  {
    assert [m][0] == m;
    var h, bytes, l' := m.header, l.inn.bytes, Local(AfterReading(l.e, m), l.out, l.inn.(bytes := rest));
    var tail := Frame(m)[HEADER_BYTES..] + rest;
    assert bytes == HeaderBytes(h) + tail;
    assert bytes[..HEADER_BYTES] == HeaderBytes(h) && bytes[HEADER_BYTES..] == tail;
    var l1 := Local(l.e.(r := CompleteRead(TakeBytes(l.e.r, HeaderBytes(h)))), l.out, l.inn.(bytes := tail));
    ReadInOne(l, HEADER_BYTES, l1);
    HeaderIsRead(l.e.r, h);
    if h.size > 0 {
      assert tail[..h.size] == m.body && tail[h.size..] == rest;
      BodyIsRead(l.e, m);
      ReadInOne(l1, h.size, l');
      LeadsInTurn(l, [ReadBytes(HEADER_BYTES), ReadDone], l1, [ReadBytes(h.size), ReadDone], l');
    } else {
      assert tail == rest && Frame(m) == HeaderBytes(h);
      LeadsInTurn(l, [ReadBytes(HEADER_BYTES), ReadDone], l1, [], l');
    }
  }

  function ReadAll(ms: seq<Message>): seq<Event> {
    if ms == [] then [] else ReadOne(ms[0]) + ReadAll(ms[1..])
  }

  function AfterReadingAll(e: Endpoint, ms: seq<Message>): Endpoint
    decreases |ms|
  {
    if ms == [] then e else AfterReadingAll(AfterReading(e, ms[0]), ms[1..])
  }

  lemma {:induction false} ReadsAll(l: Local, ms: seq<Message>, rest: seq<Byte>)
    requires Waiting(l.e) && AllSized(ms) && l.inn.bytes == Frames(ms) + rest
    ensures Leads(l, ReadAll(ms), Local(AfterReadingAll(l.e, ms), l.out, l.inn.(bytes := rest)))
    decreases |ms|
  {
    if ms == [] {
      assert Frames(ms) + rest == rest;
    } else {
      var m, more := ms[0], Frames(ms[1..]) + rest;
      var l1, l' := Local(AfterReading(l.e, m), l.out, l.inn.(bytes := more)),
                    Local(AfterReadingAll(l.e, ms), l.out, l.inn.(bytes := rest));
      assert AllSized([m]) && AllSized(ms[1..]);
      assert Frames(ms) + rest == Frame(m) + more;
      ReadsOne(l, m, more);
      ReadsAll(l1, ms[1..], rest);
      LeadsInTurn(l, ReadOne(m), l1, ReadAll(ms[1..]), l');
    }
  }

  lemma {:induction false} ReadingPostsNothing(ms: seq<Message>)
    ensures PostsOf(ReadAll(ms)) == []
  {
    if ms != [] {
      NoPosts(ReadOne(ms[0]));
      ReadingPostsNothing(ms[1..]);
      PostsInTurn(ReadOne(ms[0]), ReadAll(ms[1..]));
    }
  }

  /** Reading changes the reading half only, and delivers what is taken. */
  lemma {:induction false} ReadingDelivers(e: Endpoint, ms: seq<Message>)
    ensures var e' := AfterReadingAll(e, ms);
            && e' == e.(r := e'.r) && (Waiting(e) ==> Waiting(e'))
            && e'.r.received == e.r.received + TakenAll(e.r.temp, ms)
    decreases |ms|
  {
    if ms != [] {
      var e1, taken := AfterReading(e, ms[0]), Taken(e.r.temp, ms[0]);
      ReadingDelivers(e1, ms[1..]);
      RegroupMessages(e.r.received, [taken], TakenAll(taken, ms[1..]));
    } else {
      assert e.r.received + [] == e.r.received;
    }
  }

  // ---- Sending and reading in one run --------------------------------------------------------------

  lemma {:induction false} RunsInTurn(d: Duplex, a: seq<Step>, b: seq<Step>)
    requires Runs(d, a) && Runs(Run(d, a), b)
    ensures Runs(d, a + b) && Run(d, a + b) == Run(Run(d, a), b)
    ensures forall side :: PostedAt(side, a + b) == PostedAt(side, a) + PostedAt(side, b)
    decreases |a|
  {
    if a == [] {
      assert a + b == b;
    } else {
      assert (a + b)[1..] == a[1..] + b;
      RunsInTurn(Next(d, a[0]), a[1..], b);
    }
  }

  /** One side may send, and the other side is ready to read. */
  predicate Clear(d: Duplex, side: Side) {
    && AtRest(EndpointAt(d, side)) && Waiting(EndpointAt(d, Other(side)))
    && Outgoing(d, side) == Wire([], false)
  }

  /** The connection after one side sent `sent` and the other side read `read` of it. */
  function Exchanged(d: Duplex, side: Side, sent: seq<Message>, read: seq<Message>): Duplex
    requires Frames(read) <= WrittenAll(sent)
  {
    var rest := WrittenAll(sent)[|Frames(read)|..];
    var d1 := Put(d, side, Local(AfterSending(EndpointAt(d, side), sent), Wire(rest, false), Incoming(d, side)));
    Put(d1, Other(side), Local(AfterReadingAll(EndpointAt(d, Other(side)), read), Incoming(d, side), Wire(rest, false)))
  }

  /** Whatever whole frames the bytes written for some messages start with, some run delivers them. */
  lemma Exchange(d: Duplex, side: Side, sent: seq<Message>, read: seq<Message>) returns (steps: seq<Step>)
    requires Clear(d, side) && AllSized(read) && Frames(read) <= WrittenAll(sent)
    ensures Runs(d, steps) && Run(d, steps) == Exchanged(d, side, sent, read)
    ensures PostedAt(side, steps) == sent && PostedAt(Other(side), steps) == []
  {
    var rest := WrittenAll(sent)[|Frames(read)|..];
    assert WrittenAll(sent) == Frames(read) + rest && [] + WrittenAll(sent) == WrittenAll(sent);
    SendsAll(LocalAt(d, side), sent);
    EventsAsRun(d, side, SendAll(sent), AfterSendingAll(LocalAt(d, side), sent));
    var a, b := StepsOf(side, SendAll(sent)), StepsOf(Other(side), ReadAll(read));
    var d1 := Run(d, a);
    var l := LocalAt(d1, Other(side));
    ReadsAll(l, read, rest);
    EventsAsRun(d1, Other(side), ReadAll(read), Local(AfterReadingAll(l.e, read), l.out, l.inn.(bytes := rest)));
    ReadingPostsNothing(read);
    RunsInTurn(d, a, b);
    steps := a + b;
  }

  // ---- Exactly the well-formed messages arrive as they were sent -------------------------------------

  /** Messages passed to `Send`: `before`, then `m`, then well-formed ones. */
  ghost predicate SendsAround(posted: seq<Message>, before: seq<Message>, m: Message) {
    exists later :: AllWellFormed(later) && posted == before + ([m] + later)
  }

  /** A message arrives as it was sent, and so does everything around it, in every run in which all other
      messages are well-formed, if and only if its own size field is the length of its body. */
  lemma SentArrivesExactlyWhenWellFormed(d: Duplex, side: Side, before: seq<Message>, m: Message)
    requires Initial(d) && AllWellFormed(before)
    ensures m.WellFormed() <==>
            forall steps | Runs(d, steps) && SendsAround(PostedAt(side, steps), before, m) ::
              SamePrefix(EndpointAt(Run(d, steps), Other(side)).r.received, PostedAt(side, steps))
  {
    if m.WellFormed() {
      forall steps | Runs(d, steps) && SendsAround(PostedAt(side, steps), before, m)
        ensures SamePrefix(EndpointAt(Run(d, steps), Other(side)).r.received, PostedAt(side, steps))
      {
        WellFormedArrives(d, side, before, m, steps);
      }
    } else {
      var steps := IllFormedArrivesAsAnother(d, side, before, m);
    }
  }

  lemma WellFormedArrives(d: Duplex, side: Side, before: seq<Message>, m: Message, steps: seq<Step>)
    requires Initial(d) && AllWellFormed(before) && m.WellFormed()
    requires Runs(d, steps) && SendsAround(PostedAt(side, steps), before, m)
    ensures SamePrefix(EndpointAt(Run(d, steps), Other(side)).r.received, PostedAt(side, steps))
  {
    var later :| AllWellFormed(later) && PostedAt(side, steps) == before + ([m] + later);
    AroundIsWellFormed(before, m, later);
    ReceivedIsAPrefixOfSent(d, steps);
  }

  lemma IllFormedArrivesAsAnother(d: Duplex, side: Side, before: seq<Message>, m: Message) returns (steps: seq<Step>)
    requires Initial(d) && AllWellFormed(before) && !m.WellFormed()
    ensures Runs(d, steps) && SendsAround(PostedAt(side, steps), before, m)
    ensures !SamePrefix(EndpointAt(Run(d, steps), Other(side)).r.received, PostedAt(side, steps))
  {
    var later, received := IllFormedIsMisread(before, m);
    var sent := before + ([m] + later);
    var reader := EndpointAt(d, Other(side));
    steps := Exchange(d, side, sent, received);
    ReadingDelivers(reader, received);
    TakenAreSame(reader.r.temp, received, sent);
    assert [] + TakenAll(reader.r.temp, received) == TakenAll(reader.r.temp, received);
  }

  lemma AroundIsWellFormed(before: seq<Message>, m: Message, later: seq<Message>)
    requires AllWellFormed(before) && m.WellFormed() && AllWellFormed(later)
    ensures AllWellFormed(before + ([m] + later))
  {
    var all := before + ([m] + later);
    forall i | 0 <= i < |all|
      ensures all[i].WellFormed()
    {
      if i < |before| {
        assert all[i] == before[i];
      } else if i > |before| {
        assert all[i] == later[i - |before| - 1];
      }
    }
  }

  // ---- How messages that are not well-formed come about ----------------------------------------------

  /** A message with a body and then one without: the second arrives with the first one's body. */
  lemma FirstAndStale(d: Duplex, first: Message, second: Message, stale: Message) returns (a: seq<Step>)
    requires Initial(d) && first.WellFormed() && first.header.size > 0 && second == Message(second.header, [])
    requires second.header.size == 0 && stale == Message(second.header, first.body)
    ensures Runs(d, a) && PostedAt(Client, a) == [first, second] && PostedAt(Server, a) == []
    ensures Clear(Run(d, a), Server) && Run(d, a).client.r.received == []
    ensures Run(d, a).server.r.received == [first, stale]
  {
    var sent := [first, second];
    WellFormedIsFramed(sent);
    a := Exchange(d, Client, sent, sent);
    ReadingDelivers(d.server, sent);
    assert sent[1..] == [second] && TakenAll(stale, []) == [];
    assert TakenAll(d.server.r.temp, sent) == [first, stale];
  }

  /** Sent back, it is read as two. */
  lemma StaleAsTwo(d: Duplex, stale: Message, one: Message, other: Message) returns (b: seq<Step>)
    requires Clear(d, Server) && d.client.r.received == []
    requires AllSized([one, other]) && Written(stale) == Frame(one) + Frame(other)
    ensures Runs(d, b) && PostedAt(Server, b) == [stale] && PostedAt(Client, b) == []
    ensures |Run(d, b).client.r.received| == 2 && Run(d, b).client.r.received[1].header == other.header
    ensures Run(d, b).server.r == d.server.r
  {
    var read := [one, other];
    TwoMessages(one, other);
    WrittenAllOne(stale);
    b := Exchange(d, Server, [stale], read);
    ReadingDelivers(d.client, read);
    assert read[1..] == [other];
  }

  /** A client sends two well-formed messages, the second without a body; the server delivers it with the
      body of the first, which does not fit its size field. The server sends it back as it is, as it does
      with pings, and the client receives a message that no one sent. */
  lemma EchoInventsAMessage(d: Duplex, id: UInt32, ping: UInt32, phantom: UInt32) returns (steps: seq<Step>)
    requires Initial(d)
    ensures Runs(d, steps)
    ensures var first := Message(Header(id, HEADER_BYTES), HeaderBytes(Header(phantom, 0)));
            var second := Message(Header(ping, 0), []);
            var stale := Message(Header(ping, 0), first.body);
            && PostedAt(Client, steps) == [first, second] && AllWellFormed([first, second])
            && Run(d, steps).server.r.received == [first, stale] && !stale.WellFormed()
            && PostedAt(Server, steps) == [stale]
            && |Run(d, steps).client.r.received| == 2
            && Run(d, steps).client.r.received[1].header == Header(phantom, 0)
  {
    var first := Message(Header(id, HEADER_BYTES), HeaderBytes(Header(phantom, 0)));
    var second := Message(Header(ping, 0), []);
    var stale := Message(Header(ping, 0), first.body);
    var read := [Message(Header(ping, 0), []), Message(Header(phantom, 0), [])];
    var a := FirstAndStale(d, first, second, stale);
    var b := StaleAsTwo(Run(d, a), stale, read[0], read[1]);
    RunsInTurn(d, a, b);
    steps := a + b;
  }
}
