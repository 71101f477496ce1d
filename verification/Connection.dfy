/** The objects behind the channel: the locked queue of SpNetCommon/src/spThreadSafeQueue.h, the
    handlers of `connection` and the loop of `server_interface::Update` in SpNetCommon/src/spiderNet.h. */
module Connections {
  import opened Wrappers
  import opened Messages
  import opened Channel

  /** Each method holds the queue's mutex throughout, so it is one atomic step. Taking from an empty
      deque is undefined in the source. */
  class LockedQueue<T> {
    var items: seq<T>

    constructor ()
      ensures items == []
    {
      items := [];
    }

    method Front() returns (item: T)
      requires items != []
      ensures item == items[0]
    {
      item := items[0];
    }

    method PopFront() returns (item: T)
      requires items != []
      modifies this
      ensures old(items) == [item] + items
    {
      item := items[0];
      items := items[1..];
    }

    method PushBack(item: T)
      modifies this
      ensures items == old(items) + [item]
    {
      items := items + [item];
    }

    method Empty() returns (b: bool)
      ensures b <==> items == []
    {
      b := |items| == 0;
    }
  }

  class Connection {
    const id: nat
    const ownedByServer: bool
    const messagesOut: LockedQueue<Message>
    const messagesIn: LockedQueue<OwnedMessage>
    var temporaryIn: Message
    var open: bool
    var posted: seq<Task>
    var write: WriteOp
    var read: ReadOp
    ghost var written: seq<Message>
    ghost var emitted: seq<Byte>
    ghost var received: seq<Message>
    ghost var consumed: seq<Byte>

    ghost function State(): Endpoint
      reads this, messagesOut
    {
      Endpoint(posted, open,
               Sending(messagesOut.items, write, written, emitted),
               Reading(temporaryIn, read, received, consumed))
    }

    /** The queues of a connection are not shared with each other. */
    ghost predicate Valid()
      reads this
    {
      messagesOut as object != messagesIn as object
    }

    /** A connection whose handshake is over waits for a header. */
    constructor (id: nat, ownedByServer: bool, messagesIn: LockedQueue<OwnedMessage>)
      ensures Valid() && fresh(messagesOut) && this.messagesIn == messagesIn
      ensures this.id == id && this.ownedByServer == ownedByServer
      ensures Fresh(State())
    {
      this.id := id;
      this.ownedByServer := ownedByServer;
      this.messagesIn := messagesIn;
      messagesOut := new LockedQueue<Message>();
      temporaryIn := Message(Header(0, 0), []);
      open := true;
      posted := [];
      write := NoWrite;
      read := HeaderRead([]);
      written, emitted, received, consumed := [], [], [], [];
    }

    method Send(msg: Message)
      modifies `posted
      ensures State() == old(State()).(posted := old(posted) + [SendTask(msg)])
    {
      posted := posted + [SendTask(msg)];
    }

    method Disconnect()
      modifies `posted
      ensures State() == if open then old(State()).(posted := old(posted) + [CloseTask]) else old(State())
    {
      if open {
        posted := posted + [CloseTask];
      }
    }

    /** The context thread runs the handler posted first. */
    method RunTask()
      requires Valid() && posted != []
      modifies this, messagesOut
      ensures State() == RunPosted(old(State()))
    {
      var task := posted[0];
      posted := posted[1..];
      match task
      case CloseTask =>
        open := false;
      case SendTask(msg) =>
        var empty := messagesOut.Empty();
        var writingMessage := !empty;
        messagesOut.PushBack(msg);
        if !writingMessage {
          StartWriteHeader();
        }
    }

    method StartWriteHeader()
      requires messagesOut.items != []
      modifies `write
      ensures State() == old(State()).(s := Channel.WriteHeader(old(State()).s))
    {
      var front := messagesOut.Front();
      write := HeaderWrite(HeaderBytes(front.header));
    }

    method StartWriteBody()
      requires messagesOut.items != []
      modifies `write
      ensures State() == old(State()).(s := old(State()).s.(write := BodyWrite(messagesOut.items[0].body)))
    {
      var front := messagesOut.Front();
      write := BodyWrite(front.body);
    }

    /** The operating system takes bytes of the outstanding write. */
    method TakeWritten(n: nat) returns (bytes: seq<Byte>)
      requires !write.NoWrite? && n <= |write.unsent|
      modifies this
      ensures bytes == old(write.unsent)[..n]
      ensures State() == old(State()).(s := EmitBytes(old(State()).s, n))
    {
      bytes := write.unsent[..n];
      emitted := emitted + bytes;
      var left := write.unsent[n..];
      write := if write.HeaderWrite? then HeaderWrite(left) else BodyWrite(left);
    }

    method OnHeaderWritten(ok: bool)
      requires Valid() && write.HeaderWrite? && messagesOut.items != []
      modifies this, messagesOut
      ensures State() == if ok then old(State()).(s := CompleteWrite(old(State()).s))
                         else old(State()).(s := old(State()).s.(write := NoWrite), open := false)
    {
      if ok {
        var front := messagesOut.Front();
        if |front.body| > 0 {
          StartWriteBody();
        } else {
          PopWritten();
        }
      } else {
        write, open := NoWrite, false;
      }
    }

    method OnBodyWritten(ok: bool)
      requires Valid() && write.BodyWrite? && messagesOut.items != []
      modifies this, messagesOut
      ensures State() == if ok then old(State()).(s := CompleteWrite(old(State()).s))
                         else old(State()).(s := old(State()).s.(write := NoWrite), open := false)
    {
      if ok {
        PopWritten();
      } else {
        write, open := NoWrite, false;
      }
    }

    /** The end of both write handlers: pop the message and start the next header. */
    method PopWritten()
      requires Valid() && messagesOut.items != []
      modifies this, messagesOut
      ensures State() == old(State()).(s := FinishMessage(old(State()).s))
    {
      write := NoWrite;
      var front := messagesOut.PopFront();
      written := written + [front];
      var empty := messagesOut.Empty();
      if !empty {
        StartWriteHeader();
      }
    }

    /** The operating system hands over bytes for the outstanding read. */
    method GiveRead(bytes: seq<Byte>)
      requires !read.NoRead?
      modifies this
      ensures State() == old(State()).(r := TakeBytes(old(State()).r, bytes))
    {
      consumed := consumed + bytes;
      var got := read.got + bytes;
      read := if read.HeaderRead? then HeaderRead(got) else BodyRead(got);
    }

    method OnHeaderRead(ok: bool)
      requires Valid() && read.HeaderRead? && (ok ==> |read.got| == HEADER_BYTES)
      modifies this, messagesIn
      ensures State() == if ok then old(State()).(r := CompleteRead(old(State()).r))
                         else old(State()).(r := old(State()).r.(read := NoRead), open := false)
      ensures messagesIn.items == old(messagesIn.items) + Delivered(old(received), received)
    {
      if ok {
        temporaryIn := temporaryIn.(header := ParseHeader(read.got));
        if temporaryIn.header.size > 0 {
          temporaryIn := temporaryIn.(body := ResizedBody(temporaryIn.body, temporaryIn.header.size));
          read := BodyRead([]);
        } else {
          AddToIncomingMessageQueue();
        }
      } else {
        read, open := NoRead, false;
      }
    }

    method OnBodyRead(ok: bool)
      requires Valid() && read.BodyRead? && (ok ==> |read.got| == |temporaryIn.body|)
      modifies this, messagesIn
      ensures State() == if ok then old(State()).(r := CompleteRead(old(State()).r))
                         else old(State()).(r := old(State()).r.(read := NoRead), open := false)
      ensures messagesIn.items == old(messagesIn.items) + Delivered(old(received), received)
    {
      if ok {
        temporaryIn := temporaryIn.(body := read.got);
        AddToIncomingMessageQueue();
      } else {
        read, open := NoRead, false;
      }
    }

    method AddToIncomingMessageQueue()
      requires Valid()
      modifies this, messagesIn
      ensures State() == old(State()).(r := Deliver(old(State()).r))
      ensures messagesIn.items
              == old(messagesIn.items) + [OwnedMessage(if ownedByServer then Some(id) else None, temporaryIn)]
    {
      if ownedByServer {
        messagesIn.PushBack(OwnedMessage(Some(id), temporaryIn));
      } else {
        messagesIn.PushBack(OwnedMessage(None, temporaryIn));
      }
      received := received + [temporaryIn];
      read := HeaderRead([]);
    }

    /** What the shared queue gains when `before` grows to `after`. */
    ghost function Delivered(before: seq<Message>, after: seq<Message>): seq<OwnedMessage>
      reads this
    {
      if |before| < |after| then [OwnedMessage(if ownedByServer then Some(id) else None, after[|before|])] else []
    }
  }

  /** `handled` records what was passed to OnMessage. */
  class ServerInterface {
    const messagesIn: LockedQueue<OwnedMessage>
    var handled: seq<OwnedMessage>

    constructor ()
      ensures fresh(messagesIn) && messagesIn.items == [] && handled == []
    {
      messagesIn := new LockedQueue<OwnedMessage>();
      handled := [];
    }

    /** With no producer running meanwhile, `Update` handles the oldest messages, at most
        `maxMessages` of them, in order and leaves the others queued. */
    method Update(maxMessages: nat) returns (count: nat)
      modifies this, messagesIn
      ensures count == if maxMessages < |old(messagesIn.items)| then maxMessages else |old(messagesIn.items)|
      ensures handled == old(handled) + old(messagesIn.items)[..count]
      ensures messagesIn.items == old(messagesIn.items)[count..]
    {
      count := 0;
      var empty := messagesIn.Empty();
      while count < maxMessages && !empty
        invariant count <= maxMessages && count <= |old(messagesIn.items)|
        invariant handled == old(handled) + old(messagesIn.items)[..count]
        invariant messagesIn.items == old(messagesIn.items)[count..]
        invariant empty <==> messagesIn.items == []
        decreases |messagesIn.items|
      {
        var msg := messagesIn.PopFront();
        handled := handled + [msg];
        count := count + 1;
        empty := messagesIn.Empty();
      }
    }
  }
}
