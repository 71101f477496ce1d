/** Safety of the message channel: whatever the interleaving and whatever fails, what a side receives
    is a prefix of what the other side sent; and without failures no byte is lost, repeated or
    reordered. */
module ChannelSafety {
  import opened Messages
  import opened Channel

  lemma EnqueueKeepsSending(s: Sending, msg: Message)
    requires SendingInv(s)
    requires s.out == [] ==> s.emitted == WrittenAll(s.written)
    ensures SendingInv(Enqueue(s, msg))
  {
    assert s.out != [] ==> (s.out + [msg])[0] == s.out[0];
  }

  lemma EmitBytesKeepsSending(s: Sending, n: nat)
    requires SendingInv(s) && !s.write.NoWrite? && n <= |s.write.unsent|
    ensures SendingInv(EmitBytes(s, n))
  {
    var bytes, left := s.write.unsent[..n], s.write.unsent[n..];
    assert s.emitted + s.write.unsent == (s.emitted + bytes) + left;
  }

  lemma FinishKeepsSending(s: Sending)
    requires s.out != [] && s.emitted == WrittenAll(s.written) + Written(s.out[0])
    ensures SendingInv(FinishMessage(s))
    ensures FinishMessage(s).out == [] <==> FinishMessage(s).write.NoWrite?
    ensures FinishMessage(s).emitted == WrittenAll(FinishMessage(s).written)
  {
    WrittenAllAppend(s.written, [s.out[0]]);
    WrittenAllOne(s.out[0]);
  }

  lemma CompleteWriteKeepsSending(s: Sending)
    requires SendingInv(s) && !s.write.NoWrite? && s.write.unsent == []
    ensures SendingInv(CompleteWrite(s))
    ensures CompleteWrite(s).out == [] <==> CompleteWrite(s).write.NoWrite?
    ensures CompleteWrite(s).out == [] ==> CompleteWrite(s).emitted == WrittenAll(CompleteWrite(s).written)
  {
    var front := s.out[0];
    assert s.emitted + [] == s.emitted;
    if s.write.HeaderWrite? && |front.body| > 0 {
      assert s.emitted + front.body == WrittenAll(s.written) + (HeaderBytes(front.header) + front.body);
    } else {
      assert front.body == [] ==> Written(front) == HeaderBytes(front.header);
      FinishKeepsSending(s);
    }
  }

  lemma FailWriteKeepsSending(s: Sending)
    requires SendingInv(s) && !s.write.NoWrite?
    ensures SendingInv(s.(write := NoWrite))
  {
    var front := s.out[0];
    var all := WrittenAll(s.written) + Written(front);
    if s.write.HeaderWrite? {
      assert Written(front)[..HEADER_BYTES] == HeaderBytes(front.header);
      assert all[..|WrittenAll(s.written)| + HEADER_BYTES] == s.emitted + s.write.unsent;
    }
    assert s.emitted <= s.emitted + s.write.unsent <= all;
  }

  lemma SenderStep(e: Endpoint, out: Wire, inn: Wire, ev: Event)
    requires SenderInv(e) && Enabled(e, inn, ev)
    ensures SenderInv(After(e, out, inn, ev).0)
  {
    match ev
    case RunTask =>
      if e.posted[0].SendTask? {
        EnqueueKeepsSending(e.s, e.posted[0].msg);
      }
    case WriteBytes(n) => EmitBytesKeepsSending(e.s, n);
    case WriteDone => CompleteWriteKeepsSending(e.s);
    case WriteFailed => FailWriteKeepsSending(e.s);
    case _ =>
  }

  lemma DeliverKeepsReading(r: Reading)
    requires AllSized(r.received) && (r.temp.header.size > 0 ==> |r.temp.body| == r.temp.header.size)
    requires r.consumed == Frames(r.received) + Frame(r.temp)
    ensures ReadingInv(Deliver(r))
  {
    FramesAppend(r.received, [r.temp]);
    FramesOne(r.temp);
    assert r.consumed + [] == r.consumed;
  }

  lemma CompleteReadKeepsReading(r: Reading)
    requires ReadingInv(r) && !r.read.NoRead? && |r.read.got| == Wanted(r)
    ensures ReadingInv(CompleteRead(r))
  {
    if r.read.HeaderRead? {
      HeaderRoundTrip(r.temp.header, r.read.got);
      var h := ParseHeader(r.read.got);
      if h.size > 0 {
        assert HeaderBytes(h) + [] == HeaderBytes(h);
      } else {
        assert Frame(r.temp.(header := h)) == r.read.got;
        DeliverKeepsReading(r.(temp := r.temp.(header := h)));
      }
    } else {
      DeliverKeepsReading(r.(temp := r.temp.(body := r.read.got)));
    }
  }

  lemma TakeBytesKeepsReading(r: Reading, bytes: seq<Byte>)
    requires ReadingInv(r) && !r.read.NoRead? && |r.read.got| + |bytes| <= Wanted(r)
    ensures ReadingInv(TakeBytes(r, bytes))
  {
    if r.read.BodyRead? {
      assert HeaderBytes(r.temp.header) + r.read.got + bytes == HeaderBytes(r.temp.header) + (r.read.got + bytes);
    }
  }

  lemma ReaderStep(e: Endpoint, out: Wire, inn: Wire, ev: Event)
    requires ReaderInv(e) && Enabled(e, inn, ev)
    ensures ReaderInv(After(e, out, inn, ev).0)
  {
    match ev
    case ReadBytes(n) => TakeBytesKeepsReading(e.r, inn.bytes[..n]);
    case ReadDone => CompleteReadKeepsReading(e.r);
    case RunTask =>
      assert e.posted[0].CloseTask? || e.posted[0].SendTask?;
    case _ =>
  }

  /** An event at a sender keeps the link to its reader. */
  lemma SenderLink(e: Endpoint, out: Wire, inn: Wire, reader: Endpoint, ev: Event)
    requires Linked(e, out, reader) && Enabled(e, inn, ev)
    ensures var (e', out', _) := After(e, out, inn, ev); Linked(e', out', reader)
  {
    if ev.WriteBytes? {
      assert e.s.emitted <= e.s.emitted + e.s.write.unsent[..ev.n];
    }
  }

  /** An event at a reader keeps the link from its sender. */
  lemma ReaderLink(sender: Endpoint, e: Endpoint, out: Wire, inn: Wire, ev: Event)
    requires Linked(sender, inn, e) && Enabled(e, inn, ev)
    ensures var (e', _, inn') := After(e, out, inn, ev); Linked(sender, inn', e')
  {
    if ev.ReadBytes? {
      assert inn.bytes == inn.bytes[..ev.n] + inn.bytes[ev.n..];
      assert e.r.consumed + inn.bytes == (e.r.consumed + inn.bytes[..ev.n]) + inn.bytes[ev.n..];
    }
  }

  lemma CutLink(sender: Endpoint, w: Wire, reader: Endpoint, keep: nat)
    requires Linked(sender, w, reader) && keep <= |w.bytes|
    ensures Linked(sender, Wire(w.bytes[..keep], true), reader)
  {
    assert reader.r.consumed + w.bytes[..keep] == (reader.r.consumed + w.bytes)[..|reader.r.consumed| + keep];
  }

  lemma StepKeepsInv(d: Duplex, s: Step)
    requires Inv(d) && StepEnabled(d, s)
    ensures Inv(Next(d, s))
  {
    match s
    case At(Client, ev) =>
      SenderStep(d.client, d.up, d.down, ev);
      ReaderStep(d.client, d.up, d.down, ev);
      SenderLink(d.client, d.up, d.down, d.server, ev);
      ReaderLink(d.server, d.client, d.up, d.down, ev);
    case At(Server, ev) =>
      SenderStep(d.server, d.down, d.up, ev);
      ReaderStep(d.server, d.down, d.up, ev);
      SenderLink(d.server, d.down, d.up, d.client, ev);
      ReaderLink(d.client, d.server, d.down, d.up, ev);
    case Cut(Client, keep) => CutLink(d.server, d.down, d.client, keep);
    case Cut(Server, keep) => CutLink(d.client, d.up, d.server, keep);
  }

  lemma {:induction false} RunKeepsInv(d: Duplex, steps: seq<Step>)
    requires Inv(d) && Runs(d, steps)
    ensures Inv(Run(d, steps))
    decreases |steps|
  {
    if steps != [] {
      StepKeepsInv(d, steps[0]);
      RunKeepsInv(Next(d, steps[0]), steps[1..]);
    }
  }

  lemma EmittedIsAPrefix(s: Sending)
    requires SendingInv(s)
    ensures s.emitted <= WrittenAll(Queued(s))
  {
    WrittenAllAppend(s.written, s.out);
    if s.out != [] {
      FrontIsNext(s);
    }
  }

  lemma FrontIsNext(s: Sending)
    requires SendingInv(s) && s.out != []
    ensures s.emitted <= WrittenAll(s.written) + WrittenAll(s.out)
  {
    var front := WrittenAll(s.written) + Written(s.out[0]);
    assert WrittenAll(s.written) + WrittenAll(s.out) == front + WrittenAll(s.out[1..]);
    if !s.write.NoWrite? {
      FailWriteKeepsSending(s);
    }
    assert s.emitted <= front;
  }

  /** Whatever was sent, the whole frames one side has received are a prefix of the bytes that the other
      side's messages are written as. */
  lemma LinkedDeliversBytes(sender: Endpoint, w: Wire, reader: Endpoint)
    requires SenderInv(sender) && ReaderInv(reader) && Linked(sender, w, reader)
    ensures AllSized(reader.r.received) && Frames(reader.r.received) <= WrittenAll(Queued(sender.s))
  {
    EmittedIsAPrefix(sender.s);
    assert Frames(reader.r.received) <= reader.r.consumed <= reader.r.consumed + w.bytes;
  }

  /** What one side has received is a prefix of what the other side has sent. */
  lemma LinkedDelivers(sender: Endpoint, w: Wire, reader: Endpoint)
    requires SenderInv(sender) && ReaderInv(reader) && Linked(sender, w, reader)
    requires AllWellFormed(Queued(sender.s))
    ensures SamePrefix(reader.r.received, Sent(sender))
  {
    LinkedDeliversBytes(sender, w, reader);
    WellFormedIsFramed(Queued(sender.s));
    assert Frames(reader.r.received) + [] == Frames(reader.r.received);
    FramesDecodeUniquely(reader.r.received, Queued(sender.s), []);
  }

  lemma QueuedAreSent(e: Endpoint)
    requires AllWellFormed(Sent(e))
    ensures AllWellFormed(Queued(e.s))
  {
    assert forall i | 0 <= i < |Queued(e.s)| :: Queued(e.s)[i] == Sent(e)[i];
  }

  lemma InvDelivers(d: Duplex)
    requires Inv(d)
    ensures AllWellFormed(Sent(d.client)) ==> SamePrefix(d.server.r.received, Sent(d.client))
    ensures AllWellFormed(Sent(d.server)) ==> SamePrefix(d.client.r.received, Sent(d.server))
  {
    if AllWellFormed(Sent(d.client)) {
      QueuedAreSent(d.client);
      LinkedDelivers(d.client, d.up, d.server);
    }
    if AllWellFormed(Sent(d.server)) {
      QueuedAreSent(d.server);
      LinkedDelivers(d.server, d.down, d.client);
    }
  }

  lemma InitialInv(d: Duplex)
    requires Initial(d)
    ensures Inv(d)
    ensures Sent(d.client) == Sent(d.server) == []
  {
  }

  function EndpointAt(d: Duplex, side: Side): Endpoint {
    if side == Client then d.client else d.server
  }

  function PostOf(side: Side, step: Step): seq<Message> {
    if step.At? && step.side == side && step.ev.Post? then SendsOf([step.ev.task]) else []
  }

  function PostedAt(side: Side, steps: seq<Step>): seq<Message> {
    if steps == [] then [] else PostOf(side, steps[0]) + PostedAt(side, steps[1..])
  }

  lemma SentStep(e: Endpoint, out: Wire, inn: Wire, ev: Event)
    requires Enabled(e, inn, ev)
    ensures Sent(After(e, out, inn, ev).0) == if ev.Post? then Sent(e) + SendsOf([ev.task]) else Sent(e)
  {
    match ev
    case Post(task) => SendsOfAppend(e.posted, [task]);
    case RunTask => assert e.posted[0].CloseTask? ==> SendsOf(e.posted) == SendsOf(e.posted[1..]);
    case _ =>
  }

  lemma SentGrowsByPosts(d: Duplex, step: Step, side: Side)
    requires StepEnabled(d, step)
    ensures Sent(EndpointAt(Next(d, step), side)) == Sent(EndpointAt(d, side)) + PostOf(side, step)
  {
    match step
    case At(Client, ev) => SentStep(d.client, d.up, d.down, ev);
    case At(Server, ev) => SentStep(d.server, d.down, d.up, ev);
    case Cut(_, _) =>
  }

  /** What a side has sent is what was passed to its `Send`, in that order, and nothing else. */
  lemma {:induction false} SentIsWhatWasPosted(d: Duplex, steps: seq<Step>, side: Side)
    requires Runs(d, steps)
    ensures Sent(EndpointAt(Run(d, steps), side)) == Sent(EndpointAt(d, side)) + PostedAt(side, steps)
    decreases |steps|
  {
    if steps == [] {
      assert Sent(EndpointAt(d, side)) + [] == Sent(EndpointAt(d, side));
    } else {
      var d' := Next(d, steps[0]);
      SentIsWhatWasPosted(d', steps[1..], side);
      SentGrowsByPosts(d, steps[0], side);
      RegroupMessages(Sent(EndpointAt(d, side)), PostOf(side, steps[0]), PostedAt(side, steps[1..]));
    }
  }

  /** In every run from a fresh connection, interleaving sends, partial transfers, completions and
      failures in any way, the whole frames a side receives are a prefix of the bytes written for what
      was passed to `Send` on the other side; and if all of that was well-formed, the messages received
      are a prefix of it: same order, equal headers, and equal bodies wherever a header announces one. */
  lemma ReceivedIsAPrefixOfSent(d: Duplex, steps: seq<Step>)
    requires Initial(d) && Runs(d, steps)
    ensures Frames(Run(d, steps).server.r.received) <= WrittenAll(PostedAt(Client, steps))
    ensures Frames(Run(d, steps).client.r.received) <= WrittenAll(PostedAt(Server, steps))
    ensures AllWellFormed(PostedAt(Client, steps)) ==>
              SamePrefix(Run(d, steps).server.r.received, PostedAt(Client, steps))
    ensures AllWellFormed(PostedAt(Server, steps)) ==>
              SamePrefix(Run(d, steps).client.r.received, PostedAt(Server, steps))
  {
    InitialInv(d);
    RunKeepsInv(d, steps);
    FreshSent(d, steps, Client);
    FreshSent(d, steps, Server);
    var d' := Run(d, steps);
    InvDelivers(d');
    LinkedDeliversBytes(d'.client, d'.up, d'.server);
    LinkedDeliversBytes(d'.server, d'.down, d'.client);
    WrittenAllAppend(Queued(d'.client.s), SendsOf(d'.client.posted));
    WrittenAllAppend(Queued(d'.server.s), SendsOf(d'.server.posted));
  }

  lemma FreshSent(d: Duplex, steps: seq<Step>, side: Side)
    requires Initial(d) && Runs(d, steps)
    ensures Sent(EndpointAt(Run(d, steps), side)) == PostedAt(side, steps)
  {
    SentIsWhatWasPosted(d, steps, side);
  }

  predicate FailureFree(d: Duplex) {
    d.client.open && d.server.open && !d.up.cut && !d.down.cut
  }

  /** The bytes of the out-queue that are not yet handed over. */
  function Unsent(s: Sending): seq<Byte> {
    if s.out == [] then []
    else
      match s.write
      case NoWrite => []
      case HeaderWrite(unsent) => unsent + s.out[0].body + WrittenAll(s.out[1..])
      case BodyWrite(unsent) => unsent + WrittenAll(s.out[1..])
  }

  lemma Regroup(a: seq<Byte>, b: seq<Byte>, c: seq<Byte>, d: seq<Byte>)
    ensures a + (b + c + d) == ((a + b) + c) + d
    ensures (a + b) + c == a + (b + c)
  {
  }

  lemma UnsentIsTheRest(s: Sending)
    requires SendingInv(s) && (s.write.NoWrite? ==> s.out == [] && s.emitted == WrittenAll(s.written))
    ensures s.emitted + Unsent(s) == WrittenAll(Queued(s))
  {
    WrittenAllAppend(s.written, s.out);
    if s.out != [] {
      var front, more, unsent := s.out[0], WrittenAll(s.out[1..]), s.write.unsent;
      Regroup(WrittenAll(s.written), Written(front), more, []);
      if s.write.HeaderWrite? {
        Regroup(s.emitted, unsent, front.body, more);
        Regroup(WrittenAll(s.written), HeaderBytes(front.header), front.body, []);
      } else {
        Regroup(s.emitted, unsent, more, []);
      }
    }
  }

  /** No byte is lost, repeated or reordered while nothing fails: received frames, the partly read one,
      the bytes under way, the unsent rest and the posted messages add up to what was sent, whatever was
      sent. And a write is outstanding exactly when the out-queue is nonempty. */
  ghost predicate Conserved(sender: Endpoint, w: Wire, reader: Endpoint) {
    && Frames(reader.r.received) + PartlyRead(reader.r) + w.bytes + Unsent(sender.s)
      + WrittenAll(SendsOf(sender.posted))
       == WrittenAll(Sent(sender))
    && (sender.s.write.NoWrite? <==> sender.s.out == [])
  }

  lemma LinkedConserves(sender: Endpoint, w: Wire, reader: Endpoint)
    requires SenderInv(sender) && ReaderInv(reader) && Linked(sender, w, reader)
    requires sender.open && reader.open && !w.cut
    ensures Conserved(sender, w, reader)
  {
    WrittenAllAppend(Queued(sender.s), SendsOf(sender.posted));
    UnsentIsTheRest(sender.s);
    assert reader.r.consumed == Frames(reader.r.received) + PartlyRead(reader.r);
  }

  lemma BytesAreConserved(d: Duplex, steps: seq<Step>)
    requires Initial(d) && Runs(d, steps) && FailureFree(Run(d, steps))
    ensures Conserved(Run(d, steps).client, Run(d, steps).up, Run(d, steps).server)
    ensures Conserved(Run(d, steps).server, Run(d, steps).down, Run(d, steps).client)
  {
    InitialInv(d);
    RunKeepsInv(d, steps);
    var d' := Run(d, steps);
    LinkedConserves(d'.client, d'.up, d'.server);
    LinkedConserves(d'.server, d'.down, d'.client);
  }

  // ---- Closing -------------------------------------------------------------------------------------

  function EndOf(d: Duplex, side: Side): Endpoint {
    match side case Client => d.client case Server => d.server
  }

  /** A closed end that hands over and takes no byte, and stays closed. */
  ghost predicate StaysClosed(e: Endpoint, e': Endpoint) {
    !e'.open && e'.s.emitted == e.s.emitted && e'.r.consumed == e.r.consumed
  }

  lemma {:induction false} ClosedIsFinal(d: Duplex, steps: seq<Step>, side: Side)
    requires Runs(d, steps) && !EndOf(d, side).open
    ensures StaysClosed(EndOf(d, side), EndOf(Run(d, steps), side))
    decreases |steps|
  {
    if steps != [] {
      ClosedStaysClosed(d, steps[0], side);
      ClosedIsFinal(Next(d, steps[0]), steps[1..], side);
    }
  }

  lemma ClosedStaysClosed(d: Duplex, s: Step, side: Side)
    requires StepEnabled(d, s) && !EndOf(d, side).open
    ensures StaysClosed(EndOf(d, side), EndOf(Next(d, s), side))
  {
  }

  /** What closes an end: a posted close that runs, a failed write, a failed read. */
  predicate Closes(e: Endpoint, ev: Event) {
    ev.WriteFailed? || ev.ReadFailed? || (ev.RunTask? && e.posted != [] && e.posted[0].CloseTask?)
  }

  /** An end closes at exactly these steps, and from then on, whatever happens, not a byte goes out of it
      or comes into it. */
  lemma ClosesExactlyWhen(d: Duplex, s: Step, steps: seq<Step>, side: Side)
    requires EndOf(d, side).open && Runs(d, [s] + steps)
    ensures !EndOf(Next(d, s), side).open <==> s.At? && s.side == side && Closes(EndOf(d, side), s.ev)
    ensures !EndOf(Next(d, s), side).open ==>
              StaysClosed(EndOf(d, side), EndOf(Run(d, [s] + steps), side))
  {
    assert ([s] + steps)[1..] == steps;
    ClosesAt(d, s, side);
    if !EndOf(Next(d, s), side).open {
      ClosedIsFinal(Next(d, s), steps, side);
    }
  }

  lemma ClosesAt(d: Duplex, s: Step, side: Side)
    requires EndOf(d, side).open && StepEnabled(d, s)
    ensures !EndOf(Next(d, s), side).open <==> s.At? && s.side == side && Closes(EndOf(d, side), s.ev)
    ensures !EndOf(Next(d, s), side).open ==> StaysClosed(EndOf(d, side), EndOf(Next(d, s), side))
  {
  }
}
