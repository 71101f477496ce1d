/** One connection of SpNetCommon/src/spiderNet.h as two endpoints joined by two byte streams.

    An endpoint's handlers run one at a time on its context thread, so each handler is one atomic
    step. The operating system moves bytes between steps, as many or as few as it likes, and either
    side may fail at any point. The fields `written`, `emitted`, `received` and `consumed` record the
    past; no handler reads them. */
module Channel {
  import opened Messages

  /** Work posted to the context thread: `Send` posts a message, `Disconnect` a close. */
  datatype Task = SendTask(msg: Message) | CloseTask

  /** The outstanding `async_write`, with the bytes it has not yet handed over. */
  datatype WriteOp = NoWrite | HeaderWrite(unsent: seq<Byte>) | BodyWrite(unsent: seq<Byte>)

  /** The outstanding `async_read`, with the bytes it has gathered so far. */
  datatype ReadOp = NoRead | HeaderRead(got: seq<Byte>) | BodyRead(got: seq<Byte>)

  /** The sending half of an endpoint. */
  datatype Sending = Sending(
    out: seq<Message>,        // m_qMessagesOut
    write: WriteOp,
    written: seq<Message>,    // every message written completely and popped, in order
    emitted: seq<Byte>        // every byte handed to the operating system
  )

  /** The receiving half of an endpoint. */
  datatype Reading = Reading(
    temp: Message,            // m_msgTemporaryIn
    read: ReadOp,
    received: seq<Message>,   // every message put into m_qMessagesIn by this connection, in order
    consumed: seq<Byte>       // every byte taken from the operating system
  )

  datatype Endpoint = Endpoint(
    posted: seq<Task>,
    open: bool,               // m_socket.is_open()
    s: Sending,
    r: Reading
  )

  /** Bytes under way; `cut` once the network drops what is under way and what follows. */
  datatype Wire = Wire(bytes: seq<Byte>, cut: bool)

  datatype Event =
    | Post(task: Task)
    | RunTask
    | WriteBytes(n: nat)
    | WriteDone
    | WriteFailed
    | ReadBytes(n: nat)
    | ReadDone
    | ReadFailed

  // ---- The handlers ---------------------------------------------------------------------------

  /** `WriteHeader`: start writing the header of the front message. */
  function WriteHeader(s: Sending): Sending
    requires s.out != []
  {
    s.(write := HeaderWrite(HeaderBytes(s.out[0].header)))
  }

  /** The body of the handler that `Send` posts. */
  function Enqueue(s: Sending, msg: Message): Sending {
    var added := s.(out := s.out + [msg]);
    if s.out == [] then WriteHeader(added) else added
  }

  /** The operating system takes the next `n` bytes of the outstanding write. */
  function EmitBytes(s: Sending, n: nat): Sending
    requires !s.write.NoWrite? && n <= |s.write.unsent|
  {
    var left := s.write.unsent[n..];
    s.(emitted := s.emitted + s.write.unsent[..n],
       write := if s.write.HeaderWrite? then HeaderWrite(left) else BodyWrite(left))
  }

  /** The front message is written: drop it, and go on with the next one if there is one. */
  function FinishMessage(s: Sending): Sending
    requires s.out != []
  {
    var rest := s.(out := s.out[1..], write := NoWrite, written := s.written + [s.out[0]]);
    if rest.out != [] then WriteHeader(rest) else rest
  }

  /** The completion handlers of `WriteHeader` and `WriteBody`, without error. */
  function CompleteWrite(s: Sending): Sending
    requires !s.write.NoWrite? && s.out != []
  {
    if s.write.HeaderWrite? && |s.out[0].body| > 0
    then s.(write := BodyWrite(s.out[0].body))
    else FinishMessage(s)
  }

  /** The operating system hands over the next bytes for the outstanding read. */
  function TakeBytes(r: Reading, bytes: seq<Byte>): Reading
    requires !r.read.NoRead?
  {
    var got := r.read.got + bytes;
    r.(consumed := r.consumed + bytes,
       read := if r.read.HeaderRead? then HeaderRead(got) else BodyRead(got))
  }

  /** `AddToIncomingMessageQueue`, which also starts the next header read. */
  function Deliver(r: Reading): Reading {
    r.(received := r.received + [r.temp], read := HeaderRead([]))
  }

  /** `body.resize(size)` */
  function ResizedBody(body: seq<Byte>, size: nat): (r: seq<Byte>)
    ensures |r| == size
  {
    if size <= |body| then body[..size] else body + seq(size - |body|, i => 0)
  }

  /** How many bytes the outstanding read waits for. */
  function Wanted(r: Reading): nat
    requires !r.read.NoRead?
  {
    if r.read.HeaderRead? then HEADER_BYTES else |r.temp.body|
  }

  /** The completion handlers of `ReadHeader` and `ReadBody`, without error. */
  function CompleteRead(r: Reading): Reading
    requires !r.read.NoRead? && |r.read.got| == Wanted(r)
  {
    if r.read.HeaderRead? then
      var h := ParseHeader(r.read.got);
      if h.size > 0 then r.(temp := Message(h, ResizedBody(r.temp.body, h.size)), read := BodyRead([]))
      else Deliver(r.(temp := r.temp.(header := h)))
    else
      Deliver(r.(temp := r.temp.(body := r.read.got)))
  }

  function RunPosted(e: Endpoint): Endpoint
    requires e.posted != []
  {
    match e.posted[0]
    case CloseTask => e.(posted := e.posted[1..], open := false)
    case SendTask(msg) => e.(posted := e.posted[1..], s := Enqueue(e.s, msg))
  }

  // ---- One event at an endpoint, with its outgoing and incoming wire ----------------------------

  predicate Enabled(e: Endpoint, inn: Wire, ev: Event) {
    match ev
    case Post(_) => true
    case RunTask => e.posted != []
    case WriteBytes(n) => e.open && !e.s.write.NoWrite? && 0 < n <= |e.s.write.unsent|
    case WriteDone => !e.s.write.NoWrite? && e.s.write.unsent == [] && e.s.out != []
    case WriteFailed => !e.s.write.NoWrite?
    case ReadBytes(n) =>
      e.open && !e.r.read.NoRead? && 0 < n <= |inn.bytes| && |e.r.read.got| + n <= Wanted(e.r)
    case ReadDone => !e.r.read.NoRead? && |e.r.read.got| == Wanted(e.r)
    case ReadFailed => !e.r.read.NoRead?
  }

  /** A failed write or read closes the socket; its operation is not started again. */
  function After(e: Endpoint, out: Wire, inn: Wire, ev: Event): (Endpoint, Wire, Wire)
    requires Enabled(e, inn, ev)
  {
    match ev
    case Post(task) => (e.(posted := e.posted + [task]), out, inn)
    case RunTask => (RunPosted(e), out, inn)
    case WriteBytes(n) =>
      (e.(s := EmitBytes(e.s, n)), if out.cut then out else out.(bytes := out.bytes + e.s.write.unsent[..n]), inn)
    case WriteDone => (e.(s := CompleteWrite(e.s)), out, inn)
    case WriteFailed => (e.(s := e.s.(write := NoWrite), open := false), out, inn)
    case ReadBytes(n) => (e.(r := TakeBytes(e.r, inn.bytes[..n])), out, inn.(bytes := inn.bytes[n..]))
    case ReadDone => (e.(r := CompleteRead(e.r)), out, inn)
    case ReadFailed => (e.(r := e.r.(read := NoRead), open := false), out, inn)
  }

  // ---- A connection: two endpoints and the wires between them ------------------------------------

  datatype Side = Client | Server

  datatype Duplex = Duplex(client: Endpoint, server: Endpoint, up: Wire, down: Wire)

  /** `At` is an event at one endpoint; `Cut` loses all but the first `keep` bytes under way towards
      a side, and everything sent to it later. */
  datatype Step = At(side: Side, ev: Event) | Cut(side: Side, keep: nat)

  predicate StepEnabled(d: Duplex, s: Step) {
    match s
    case At(Client, ev) => Enabled(d.client, d.down, ev)
    case At(Server, ev) => Enabled(d.server, d.up, ev)
    case Cut(Client, keep) => keep <= |d.down.bytes|
    case Cut(Server, keep) => keep <= |d.up.bytes|
  }

  function Next(d: Duplex, s: Step): Duplex
    requires StepEnabled(d, s)
  {
    match s
    case At(Client, ev) =>
      var (e, up, down) := After(d.client, d.up, d.down, ev);
      Duplex(e, d.server, up, down)
    case At(Server, ev) =>
      var (e, down, up) := After(d.server, d.down, d.up, ev);
      Duplex(d.client, e, up, down)
    case Cut(Client, keep) => d.(down := Wire(d.down.bytes[..keep], true))
    case Cut(Server, keep) => d.(up := Wire(d.up.bytes[..keep], true))
  }

  predicate Runs(d: Duplex, steps: seq<Step>)
    decreases |steps|
  {
    steps == [] || (StepEnabled(d, steps[0]) && Runs(Next(d, steps[0]), steps[1..]))
  }

  function Run(d: Duplex, steps: seq<Step>): Duplex
    requires Runs(d, steps)
    decreases |steps|
  {
    if steps == [] then d else Run(Next(d, steps[0]), steps[1..])
  }

  /** An endpoint whose handshake is over: it waits for a header and has nothing to send. */
  predicate Fresh(e: Endpoint) {
    e == Endpoint([], true, Sending([], NoWrite, [], []), Reading(e.r.temp, HeaderRead([]), [], []))
  }

  predicate Initial(d: Duplex) {
    Fresh(d.client) && Fresh(d.server) && d.up == d.down == Wire([], false)
  }

  // ---- What is sent and what arrives -------------------------------------------------------------

  function SendsOf(tasks: seq<Task>): seq<Message> {
    if tasks == [] then [] else SendOf(tasks[0]) + SendsOf(tasks[1..])
  }

  function SendOf(task: Task): seq<Message> {
    match task
    case SendTask(msg) => [msg]
    case CloseTask => []
  }

  /** Every message ever put into the out-queue, in order. */
  function Queued(s: Sending): seq<Message> {
    s.written + s.out
  }

  /** Every message ever passed to `Send`, in order. */
  function Sent(e: Endpoint): seq<Message> {
    Queued(e.s) + SendsOf(e.posted)
  }

  /** Equal headers, and equal bodies if there is one. A bodyless read leaves the previous body in
      the temporary message, so the body of such a delivery means nothing. */
  predicate SameMessage(received: Message, sent: Message) {
    received.header == sent.header && (sent.header.size > 0 ==> received.body == sent.body)
  }

  predicate SamePrefix(received: seq<Message>, sent: seq<Message>) {
    |received| <= |sent| && forall i | 0 <= i < |received| :: SameMessage(received[i], sent[i])
  }

  /** The bytes the write handlers hand over for a message: its header, and its body whatever the header
      announces. */
  function Written(m: Message): seq<Byte> {
    HeaderBytes(m.header) + m.body
  }

  function WrittenAll(ms: seq<Message>): seq<Byte> {
    if ms == [] then [] else Written(ms[0]) + WrittenAll(ms[1..])
  }

  /** The bytes the read handlers take for a message: its header, and a body if the header announces one. */
  function Frame(m: Message): seq<Byte> {
    HeaderBytes(m.header) + if m.header.size > 0 then m.body else []
  }

  function Frames(ms: seq<Message>): seq<Byte> {
    if ms == [] then [] else Frame(ms[0]) + Frames(ms[1..])
  }

  predicate AllWellFormed(ms: seq<Message>) {
    forall i | 0 <= i < |ms| :: ms[i].WellFormed()
  }

  /** What holds of a delivered message: its body is as long as announced, if one is announced. */
  predicate AllSized(ms: seq<Message>) {
    forall i | 0 <= i < |ms| :: ms[i].header.size > 0 ==> |ms[i].body| == ms[i].header.size
  }

  // ---- The invariant ----------------------------------------------------------------------------

  /** The bytes handed over are those of the written messages and a part of the front message; the
      outstanding write holds exactly the rest of that message's header or body. */
  ghost predicate SendingInv(s: Sending) {
    && (s.out == [] ==> s.write.NoWrite?)
    && match s.write
       case NoWrite =>
         s.emitted <= WrittenAll(s.written) + if s.out == [] then [] else Written(s.out[0])
       case HeaderWrite(unsent) =>
         s.emitted + unsent == WrittenAll(s.written) + HeaderBytes(s.out[0].header)
       case BodyWrite(unsent) =>
         |s.out[0].body| > 0 && s.emitted + unsent == WrittenAll(s.written) + Written(s.out[0])
  }

  /** While the socket is open, a write is outstanding exactly when the out-queue is nonempty. */
  ghost predicate SenderInv(e: Endpoint) {
    && SendingInv(e.s)
    && (e.open ==> (e.s.write.NoWrite? <==> e.s.out == []))
    && (e.s.out == [] ==> e.s.emitted == WrittenAll(e.s.written))
  }

  /** The bytes of the message being read. */
  function PartlyRead(r: Reading): seq<Byte> {
    match r.read
    case NoRead => []
    case HeaderRead(got) => got
    case BodyRead(got) => HeaderBytes(r.temp.header) + got
  }

  ghost predicate ReadingInv(r: Reading) {
    && AllSized(r.received)
    && match r.read
       case NoRead => Frames(r.received) <= r.consumed
       case HeaderRead(got) => |got| <= HEADER_BYTES && r.consumed == Frames(r.received) + got
       case BodyRead(got) =>
         && |got| <= |r.temp.body| == r.temp.header.size
         && r.temp.header.size > 0
         && r.consumed == Frames(r.received) + (HeaderBytes(r.temp.header) + got)
  }

  ghost predicate ReaderInv(e: Endpoint) {
    ReadingInv(e.r) && (e.open ==> !e.r.read.NoRead?)
  }

  /** Bytes leave a wire in the order they entered it, and only a cut loses any. */
  ghost predicate Linked(sender: Endpoint, w: Wire, reader: Endpoint) {
    && reader.r.consumed + w.bytes <= sender.s.emitted
    && (!w.cut ==> reader.r.consumed + w.bytes == sender.s.emitted)
  }

  ghost predicate Inv(d: Duplex) {
    && SenderInv(d.client) && ReaderInv(d.client)
    && SenderInv(d.server) && ReaderInv(d.server)
    && Linked(d.client, d.up, d.server)
    && Linked(d.server, d.down, d.client)
  }

  // ---- Frames -----------------------------------------------------------------------------------

  lemma {:induction false} FramesAppend(a: seq<Message>, b: seq<Message>)
    ensures Frames(a + b) == Frames(a) + Frames(b)
  {
    if a == [] {
      assert a + b == b;
    } else {
      assert (a + b)[1..] == a[1..] + b;
      FramesAppend(a[1..], b);
    }
  }

  lemma FramesOne(m: Message)
    ensures Frames([m]) == Frame(m)
  {
    assert [m][1..] == [];
  }

  lemma {:induction false} WrittenAllAppend(a: seq<Message>, b: seq<Message>)
    ensures WrittenAll(a + b) == WrittenAll(a) + WrittenAll(b)
  {
    if a == [] {
      assert a + b == b;
    } else {
      assert (a + b)[1..] == a[1..] + b;
      WrittenAllAppend(a[1..], b);
    }
  }

  lemma WrittenAllOne(m: Message)
    ensures WrittenAll([m]) == Written(m)
  {
    assert [m][1..] == [];
  }

  /** Well-formed messages are written as they are read. */
  lemma {:induction false} WellFormedIsFramed(ms: seq<Message>)
    requires AllWellFormed(ms)
    ensures WrittenAll(ms) == Frames(ms)
  {
    if ms != [] {
      assert ms[0].WellFormed() && forall i | 0 <= i < |ms| - 1 :: ms[1..][i] == ms[i + 1];
      WellFormedIsFramed(ms[1..]);
    }
  }

  lemma {:induction false} SendsOfAppend(a: seq<Task>, b: seq<Task>)
    ensures SendsOf(a + b) == SendsOf(a) + SendsOf(b)
  {
    if a == [] {
      assert a + b == b;
    } else {
      assert (a + b)[1..] == a[1..] + b && (a + b)[0] == a[0];
      SendsOfAppend(a[1..], b);
      RegroupMessages(SendOf(a[0]), SendsOf(a[1..]), SendsOf(b));
    }
  }

  lemma RegroupMessages(a: seq<Message>, b: seq<Message>, c: seq<Message>)
    ensures a + (b + c) == (a + b) + c
  {
  }

  lemma PrefixParts(a: seq<Byte>, x: seq<Byte>, b: seq<Byte>, y: seq<Byte>)
    requires |a| == |b| && a + x <= b + y
    ensures a == b && x <= y
  {
    assert (a + x)[..|a|] == a && (b + y)[..|b|] == b;
    assert (a + x)[|a|..] == x && (b + y)[|b|..] == y;
    assert (a + x) == (b + y)[..|a + x|];
    assert (b + y)[..|a + x|][|a|..] == y[..|x|];
  }

  lemma FirstFrame(r: Message, x: seq<Byte>, s: Message, y: seq<Byte>)
    requires AllSized([r]) && s.WellFormed()
    requires Frame(r) + x <= Frame(s) + y
    ensures SameMessage(r, s) && Frame(r) == Frame(s) && x <= y
  {
    assert [r][0] == r;
    var r', s' := Frame(r)[HEADER_BYTES..], Frame(s)[HEADER_BYTES..];
    assert Frame(r) == HeaderBytes(r.header) + r' && Frame(s) == HeaderBytes(s.header) + s';
    assert Frame(r) + x == HeaderBytes(r.header) + (r' + x);
    assert Frame(s) + y == HeaderBytes(s.header) + (s' + y);
    PrefixParts(HeaderBytes(r.header), r' + x, HeaderBytes(s.header), s' + y);
    HeaderRoundTrip(r.header, HeaderBytes(r.header));
    HeaderRoundTrip(s.header, HeaderBytes(s.header));
    PrefixParts(r', x, s', y);
  }

  /** Frames can be told apart: whatever whole frames a byte stream starts with are the first messages
      written to it, and what follows is a prefix of the frames still to come. */
  lemma {:induction false} FramesDecodeUniquely(received: seq<Message>, sent: seq<Message>, rest: seq<Byte>)
    requires AllSized(received) && AllWellFormed(sent)
    requires Frames(received) + rest <= Frames(sent)
    ensures SamePrefix(received, sent)
    ensures rest <= Frames(sent[|received|..])
    ensures Frames(received) == Frames(sent[..|received|])
    decreases |received|
  {
    if received == [] {
      assert Frames(received) + rest == rest && sent[0..] == sent && sent[..0] == [];
    } else {
      assert sent != [];
      var r, s, rs, ss := received[0], sent[0], received[1..], sent[1..];
      assert Frames(received) + rest == Frame(r) + (Frames(rs) + rest);
      FirstFrame(r, Frames(rs) + rest, s, Frames(ss));
      FramesDecodeUniquely(rs, ss, rest);
      assert ss[|rs|..] == sent[|received|..];
      assert sent[..|received|][1..] == ss[..|rs|];
    }
  }
}
