/** Progress of the message channel: transfer steps run out, whatever was sent, and when they have run out
    without a failure, everything well-formed has arrived. */
module ChannelProgress {
  import opened Messages
  import opened Channel
  import opened ChannelSafety

  /** Running a posted task, moving bytes, or running a completion handler without error. */
  predicate Transfer(ev: Event) {
    ev.RunTask? || ev.WriteBytes? || ev.WriteDone? || ev.ReadBytes? || ev.ReadDone?
  }

  /** The write operations a message takes: its header, and its body if it has one. */
  function Writes(m: Message): nat {
    if |m.body| > 0 then 2 else 1
  }

  function AllWrites(ms: seq<Message>): nat {
    if ms == [] then 0 else Writes(ms[0]) + AllWrites(ms[1..])
  }

  lemma {:induction false} AllWritesAppend(a: seq<Message>, b: seq<Message>)
    ensures AllWrites(a + b) == AllWrites(a) + AllWrites(b)
  {
    if a == [] {
      assert a + b == b;
    } else {
      assert (a + b)[1..] == a[1..] + b;
      AllWritesAppend(a[1..], b);
    }
  }

  lemma AllWritesOne(m: Message)
    ensures AllWrites([m]) == Writes(m)
  {
    assert [m][1..] == [];
  }

  /** What is left to do before a sender's messages have left it: tasks to run, write operations to
      complete, and bytes, each of which has two moves and a completed read before it. */
  function SendingWork(e: Endpoint): int {
    var posted := SendsOf(e.posted);
    |e.posted| + 3 * |WrittenAll(posted)| + AllWrites(posted)
    + 3 * |Unsent(e.s)| + AllWrites(e.s.out) - (if e.s.write.BodyWrite? then 1 else 0)
  }

  /** Bytes gathered for the outstanding read; completing it empties them. */
  function Gathered(r: Reading): nat {
    if r.read.NoRead? then 0 else |r.read.got|
  }

  function Work(sender: Endpoint, w: Wire, reader: Endpoint): int {
    SendingWork(sender) + 2 * |w.bytes| + Gathered(reader.r)
  }

  function Measure(d: Duplex): int {
    Work(d.client, d.up, d.server) + Work(d.server, d.down, d.client)
  }

  // ---- Transfer steps decrease the measure ------------------------------------------------------

  lemma EnqueueWork(s: Sending, msg: Message)
    requires SendingInv(s) && (s.write.NoWrite? ==> s.out == [])
    ensures |Unsent(Enqueue(s, msg))| == |Unsent(s)| + |Written(msg)|
    ensures AllWrites(Enqueue(s, msg).out) == AllWrites(s.out) + Writes(msg)
    ensures Enqueue(s, msg).write.BodyWrite? <==> s.write.BodyWrite?
  {
    AllWritesAppend(s.out, [msg]);
    AllWritesOne(msg);
    if s.out == [] {
      assert (s.out + [msg])[0] == msg && (s.out + [msg])[1..] == [];
    } else {
      assert (s.out + [msg])[0] == s.out[0] && (s.out + [msg])[1..] == s.out[1..] + [msg];
      WrittenAllAppend(s.out[1..], [msg]);
      WrittenAllOne(msg);
    }
  }

  lemma RunTaskWork(e: Endpoint)
    requires SenderInv(e) && e.open && e.posted != []
    ensures e.posted[0].SendTask? ==> SendingWork(RunPosted(e)) == SendingWork(e) - 1
  {
    if e.posted[0].SendTask? {
      var msg := e.posted[0].msg;
      assert SendsOf(e.posted) == [msg] + SendsOf(e.posted[1..]);
      assert SendsOf(e.posted)[0] == msg;
      EnqueueWork(e.s, msg);
    }
  }

  lemma CompleteWriteWork(s: Sending)
    requires SendingInv(s) && !s.write.NoWrite? && s.write.unsent == []
    ensures |Unsent(CompleteWrite(s))| == |Unsent(s)|
    ensures AllWrites(CompleteWrite(s).out) - (if CompleteWrite(s).write.BodyWrite? then 1 else 0)
         == AllWrites(s.out) - (if s.write.BodyWrite? then 1 else 0) - 1
  {
    var front := s.out[0];
    if !(s.write.HeaderWrite? && |front.body| > 0) {
      if |s.out| > 1 {
        assert WrittenAll(s.out[1..]) == HeaderBytes(s.out[1].header) + s.out[1].body + WrittenAll(s.out[1..][1..]);
      }
    }
  }

  lemma SenderWork(e: Endpoint, out: Wire, inn: Wire, ev: Event)
    requires SenderInv(e) && e.open && Transfer(ev) && Enabled(e, inn, ev)
    requires !out.cut && (ev.RunTask? ==> e.posted[0].SendTask?)
    ensures var (e', out', _) := After(e, out, inn, ev);
            SendingWork(e') + 2 * |out'.bytes|
            == SendingWork(e) + 2 * |out.bytes|
               - (if ev.WriteBytes? then ev.n else if ev.RunTask? || ev.WriteDone? then 1 else 0)
  {
    match ev
    case RunTask => RunTaskWork(e);
    case WriteDone => CompleteWriteWork(e.s);
    case _ =>
  }

  lemma ReaderWork(e: Endpoint, out: Wire, inn: Wire, ev: Event)
    requires ReaderInv(e) && Transfer(ev) && Enabled(e, inn, ev)
    ensures var (e', _, inn') := After(e, out, inn, ev);
            && 2 * |inn'.bytes| + Gathered(e'.r) <= 2 * |inn.bytes| + Gathered(e.r)
            && (ev.ReadBytes? || ev.ReadDone? ==>
                  2 * |inn'.bytes| + Gathered(e'.r) < 2 * |inn.bytes| + Gathered(e.r))
  {
  }

  /** Every transfer step of a connection without failures leaves strictly less to do. */
  lemma TransferDecreases(d: Duplex, s: Step)
    requires Inv(d) && FailureFree(d) && StepEnabled(d, s) && s.At? && Transfer(s.ev)
    requires FailureFree(Next(d, s))
    ensures Measure(Next(d, s)) < Measure(d)
  {
    match s.side
    case Client =>
      SenderWork(d.client, d.up, d.down, s.ev);
      ReaderWork(d.client, d.up, d.down, s.ev);
    case Server =>
      SenderWork(d.server, d.down, d.up, s.ev);
      ReaderWork(d.server, d.down, d.up, s.ev);
  }

  /** A run of transfer steps during which nothing fails. */
  predicate TransferRun(d: Duplex, steps: seq<Step>)
    decreases |steps|
  {
    FailureFree(d) &&
    (steps == [] ||
     (steps[0].At? && Transfer(steps[0].ev) && StepEnabled(d, steps[0]) && TransferRun(Next(d, steps[0]), steps[1..])))
  }

  /** Without further sends, only so many transfer steps can follow. */
  lemma {:induction false} TransfersRunOut(d: Duplex, steps: seq<Step>)
    requires Inv(d) && TransferRun(d, steps)
    ensures |steps| <= Measure(d)
    decreases |steps|
  {
    if steps != [] {
      var d' := Next(d, steps[0]);
      StepKeepsInv(d, steps[0]);
      TransferDecreases(d, steps[0]);
      TransfersRunOut(d', steps[1..]);
    }
  }

  // ---- When transfer steps have run out, everything has arrived ----------------------------------

  /** No transfer step can be taken, whatever the number of bytes. */
  ghost predicate Quiescent(d: Duplex) {
    forall s: Step :: s.At? && Transfer(s.ev) ==> !StepEnabled(d, s)
  }

  ghost predicate Idle(e: Endpoint, inn: Wire) {
    e.posted == [] && e.s.write.NoWrite? && !e.r.read.NoRead? && inn.bytes == [] && |e.r.read.got| < Wanted(e.r)
  }

  lemma QuiescentIsIdle(d: Duplex)
    requires Inv(d) && FailureFree(d) && Quiescent(d)
    ensures Idle(d.client, d.down) && Idle(d.server, d.up)
  {
    var c, s := d.client, d.server;
    assert !StepEnabled(d, At(Client, RunTask)) && !StepEnabled(d, At(Server, RunTask));
    assert !StepEnabled(d, At(Client, WriteDone)) && !StepEnabled(d, At(Server, WriteDone));
    assert !StepEnabled(d, At(Client, WriteBytes(1))) && !StepEnabled(d, At(Server, WriteBytes(1)));
    assert !StepEnabled(d, At(Client, ReadDone)) && !StepEnabled(d, At(Server, ReadDone));
    assert !StepEnabled(d, At(Client, ReadBytes(1))) && !StepEnabled(d, At(Server, ReadBytes(1)));
  }

  lemma NextHeader(h: Header, got: seq<Byte>, more: seq<Message>)
    requires HeaderBytes(h) + got <= Frames(more)
    ensures more != [] && more[0].header == h
  {
    var next := more[0];
    var rest := Frame(next)[HEADER_BYTES..] + Frames(more[1..]);
    assert Frames(more) == HeaderBytes(next.header) + rest;
    PrefixParts(HeaderBytes(h), got, HeaderBytes(next.header), rest);
    HeaderRoundTrip(h, HeaderBytes(h));
    HeaderRoundTrip(next.header, HeaderBytes(next.header));
  }

  lemma FramesSplit(sent: seq<Message>, n: nat)
    requires n <= |sent|
    ensures Frames(sent[..n]) + Frames(sent[n..]) == Frames(sent)
  {
    var a, b := sent[..n], sent[n..];
    assert sent == a + b;
    FramesAppend(a, b);
  }

  /** An idle reader that has taken every byte of well-formed messages has read every message. */
  lemma NothingIsLeft(r: Reading, sent: seq<Message>)
    requires AllWellFormed(sent) && ReadingInv(r) && !r.read.NoRead? && |r.read.got| < Wanted(r)
    requires Frames(r.received) + PartlyRead(r) == Frames(sent)
    ensures |r.received| == |sent|
  {
    FramesDecodeUniquely(r.received, sent, PartlyRead(r));
    FramesSplit(sent, |r.received|);
    var more := sent[|r.received|..];
    assert Frames(r.received) + PartlyRead(r) == Frames(r.received) + Frames(more);
    assert |PartlyRead(r)| == |Frames(more)|;
    if more != [] {
      assert more[0] == sent[|r.received|] && |Frame(more[0])| <= |Frames(more)|;
      if r.read.BodyRead? {
        NextHeader(r.temp.header, r.read.got, more);
      }
    }
  }

  lemma IdleHasDelivered(sender: Endpoint, w: Wire, reader: Endpoint)
    requires SenderInv(sender) && ReaderInv(reader) && Linked(sender, w, reader)
    requires sender.open && reader.open && !w.cut && AllWellFormed(Sent(sender))
    requires sender.posted == [] && sender.s.write.NoWrite? && w.bytes == [] && |reader.r.read.got| < Wanted(reader.r)
    ensures |reader.r.received| == |Sent(sender)|
  {
    var r, sent := reader.r, sender.s.written;
    assert Queued(sender.s) == Sent(sender) == sent;
    WellFormedIsFramed(sent);
    assert r.consumed + [] == r.consumed;
    NothingIsLeft(r, sent);
  }

  /** When nothing failed and no transfer step is left, each side has received every message the other
      one sent, as long as those were well-formed. */
  lemma QuiescentHasDeliveredEverything(d: Duplex, steps: seq<Step>)
    requires Initial(d) && Runs(d, steps)
    requires FailureFree(Run(d, steps)) && Quiescent(Run(d, steps))
    ensures AllWellFormed(PostedAt(Client, steps)) ==>
              && |Run(d, steps).server.r.received| == |PostedAt(Client, steps)|
              && SamePrefix(Run(d, steps).server.r.received, PostedAt(Client, steps))
    ensures AllWellFormed(PostedAt(Server, steps)) ==>
              && |Run(d, steps).client.r.received| == |PostedAt(Server, steps)|
              && SamePrefix(Run(d, steps).client.r.received, PostedAt(Server, steps))
  {
    ReceivedIsAPrefixOfSent(d, steps);
    InitialInv(d);
    RunKeepsInv(d, steps);
    var d' := Run(d, steps);
    QuiescentIsIdle(d');
    FreshSent(d, steps, Client);
    FreshSent(d, steps, Server);
    if AllWellFormed(PostedAt(Client, steps)) {
      IdleHasDelivered(d'.client, d'.up, d'.server);
    }
    if AllWellFormed(PostedAt(Server, steps)) {
      IdleHasDelivered(d'.server, d'.down, d'.client);
    }
  }
}
