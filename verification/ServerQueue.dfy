/** Many connections, one server: every connection puts what it receives into one shared queue, and the
    single consumer in `Update` takes it out again. Every queue operation is atomic (it holds the
    queue's mutex), but the emptiness test and the pop of `Update` are two operations, so producers may
    run between them. */
module ServerQueue {
  import opened Wrappers
  import opened Messages
  import opened Channel
  import opened ChannelSafety

  /** Where the consumer stands in the loop of `Update`. `Crashed` is a pop from an empty deque. */
  datatype Consumer =
    | Outside
    | Testing(count: nat, max: nat)
    | Popping(count: nat, max: nat)
    | Handling(count: nat, max: nat, msg: OwnedMessage)
    | Crashed

  datatype World = World(
    links: map<nat, Duplex>,
    queue: seq<OwnedMessage>,       // m_qMessagesIn of the server
    handled: seq<OwnedMessage>,     // every message passed to OnMessage, in order
    consumer: Consumer
  )

  datatype Move =
    | Connect(id: nat, link: Duplex)
    | Link(id: nat, step: Step)
    | CallUpdate(max: nat)
    | Consume

  predicate Allowed(w: World, m: Move) {
    match m
    case Connect(id, link) => id !in w.links && Initial(link)
    case Link(id, step) => id in w.links && StepEnabled(w.links[id], step)
    case CallUpdate(_) => w.consumer.Outside?
    case Consume => !w.consumer.Outside? && !w.consumer.Crashed?
  }

  /** What a step adds to the server's received messages also goes into the shared queue. */
  function Arrivals(before: Duplex, after: Duplex): seq<Message>
    requires |before.server.r.received| <= |after.server.r.received|
  {
    after.server.r.received[|before.server.r.received|..]
  }

  function OwnedBy(id: nat, ms: seq<Message>): (r: seq<OwnedMessage>)
    ensures |r| == |ms|
  {
    seq(|ms|, i requires 0 <= i < |ms| => OwnedMessage(Some(id), ms[i]))
  }

  function ConsumerStep(w: World): World
    requires !w.consumer.Outside? && !w.consumer.Crashed?
  {
    match w.consumer
    case Testing(count, max) =>
      w.(consumer := if count < max && w.queue != [] then Popping(count, max) else Outside)
    case Popping(count, max) =>
      if w.queue == [] then w.(consumer := Crashed)
      else w.(queue := w.queue[1..], consumer := Handling(count, max, w.queue[0]))
    case Handling(count, max, msg) =>
      w.(handled := w.handled + [msg], consumer := Testing(count + 1, max))
  }

  function After(w: World, m: Move): World
    requires Allowed(w, m)
  {
    match m
    case Connect(id, link) => w.(links := w.links[id := link])
    case Link(id, step) =>
      var link := Next(w.links[id], step);
      ReceivedOnlyGrows(w.links[id], step);
      w.(links := w.links[id := link], queue := w.queue + OwnedBy(id, Arrivals(w.links[id], link)))
    case CallUpdate(max) => w.(consumer := Testing(0, max))
    case Consume => ConsumerStep(w)
  }

  lemma ReceivedOnlyGrows(d: Duplex, s: Step)
    requires StepEnabled(d, s)
    ensures d.server.r.received <= Next(d, s).server.r.received
    ensures |Next(d, s).server.r.received| <= |d.server.r.received| + 1
  {
  }

  predicate Plays(w: World, moves: seq<Move>)
    decreases |moves|
  {
    moves == [] || (Allowed(w, moves[0]) && Plays(After(w, moves[0]), moves[1..]))
  }

  function Play(w: World, moves: seq<Move>): World
    requires Plays(w, moves)
    decreases |moves|
  {
    if moves == [] then w else Play(After(w, moves[0]), moves[1..])
  }

  const EMPTY_WORLD := World(map[], [], [], Outside)

  /** The messages of one connection, in order. */
  function From(id: nat, ms: seq<OwnedMessage>): seq<Message> {
    if ms == [] then []
    else (if ms[0].remote == Some(id) then [ms[0].msg] else []) + From(id, ms[1..])
  }

  lemma {:induction false} FromAppend(id: nat, a: seq<OwnedMessage>, b: seq<OwnedMessage>)
    ensures From(id, a + b) == From(id, a) + From(id, b)
  {
    if a == [] {
      assert a + b == b;
    } else {
      var first := if a[0].remote == Some(id) then [a[0].msg] else [];
      assert (a + b)[1..] == a[1..] + b;
      FromAppend(id, a[1..], b);
      Regroup(first, From(id, a[1..]), From(id, b));
    }
  }

  lemma Regroup(a: seq<Message>, b: seq<Message>, c: seq<Message>)
    ensures a + (b + c) == (a + b) + c
  {
  }

  lemma {:induction false} FromOwnedBy(id: nat, owner: nat, ms: seq<Message>)
    ensures From(id, OwnedBy(owner, ms)) == if id == owner then ms else []
  {
    if ms != [] {
      assert OwnedBy(owner, ms)[1..] == OwnedBy(owner, ms[1..]);
      FromOwnedBy(id, owner, ms[1..]);
    }
  }

  function InHand(c: Consumer): seq<OwnedMessage> {
    if c.Handling? then [c.msg] else []
  }

  ghost predicate LinksInv(w: World) {
    forall id | id in w.links :: Inv(w.links[id])
  }

  /** Handled, in hand and queued messages of a connection are exactly what it has received. */
  ghost predicate QueueInv(w: World) {
    forall id: nat ::
      From(id, w.handled + InHand(w.consumer) + w.queue)
      == if id in w.links then w.links[id].server.r.received else []
  }

  ghost predicate WorldInv(w: World) {
    && !w.consumer.Crashed?
    && (w.consumer.Popping? ==> w.queue != [])
    && LinksInv(w)
    && QueueInv(w)
  }

  /** Arrivals of one connection at the end of the queue do not show in the messages of another. */
  lemma ArrivalsShow(c: nat, id: nat, front: seq<OwnedMessage>, queue: seq<OwnedMessage>, news: seq<Message>)
    ensures From(c, front + (queue + OwnedBy(id, news)))
            == if c == id then From(c, front + queue) + news else From(c, front + queue)
  {
    assert front + (queue + OwnedBy(id, news)) == (front + queue) + OwnedBy(id, news);
    FromAppend(c, front + queue, OwnedBy(id, news));
    FromOwnedBy(c, id, news);
  }

  lemma ArrivalsKeepQueueInv(w: World, id: nat, link: Duplex, news: seq<Message>, w': World)
    requires QueueInv(w) && id in w.links && link.server.r.received == w.links[id].server.r.received + news
    requires w' == w.(links := w.links[id := link], queue := w.queue + OwnedBy(id, news))
    ensures QueueInv(w')
  {
    var front := w.handled + InHand(w.consumer);
    forall c: nat
      ensures From(c, front + w'.queue) == if c in w'.links then w'.links[c].server.r.received else []
    {
      ArrivalsShow(c, id, front, w.queue, news);
    }
  }

  lemma LinkMoveKeepsQueueInv(w: World, id: nat, step: Step)
    requires QueueInv(w) && Allowed(w, Link(id, step))
    ensures QueueInv(After(w, Link(id, step)))
  {
    var link := Next(w.links[id], step);
    ReceivedOnlyGrows(w.links[id], step);
    ArrivalsKeepQueueInv(w, id, link, Arrivals(w.links[id], link), After(w, Link(id, step)));
  }

  lemma ConsumeKeepsInv(w: World)
    requires WorldInv(w) && Allowed(w, Consume)
    ensures WorldInv(After(w, Consume))
  {
    var w' := After(w, Consume);
    assert w'.handled + InHand(w'.consumer) + w'.queue == w.handled + InHand(w.consumer) + w.queue;
  }

  lemma MoveKeepsInv(w: World, m: Move)
    requires WorldInv(w) && Allowed(w, m)
    ensures WorldInv(After(w, m))
  {
    match m
    case Connect(id, link) => InitialInv(link);
    case Link(id, step) =>
      StepKeepsInv(w.links[id], step);
      LinkMoveKeepsQueueInv(w, id, step);
    case CallUpdate(_) =>
    case Consume => ConsumeKeepsInv(w);
  }

  lemma {:induction false} PlayKeepsInv(w: World, moves: seq<Move>)
    requires WorldInv(w) && Plays(w, moves)
    ensures WorldInv(Play(w, moves))
    decreases |moves|
  {
    if moves != [] {
      MoveKeepsInv(w, moves[0]);
      PlayKeepsInv(After(w, moves[0]), moves[1..]);
    }
  }

  // ---- What the play passed to `Send` --------------------------------------------------------------

  /** The messages that one connection's client sends in the course of a play. */
  function ClientPosts(id: nat, moves: seq<Move>): seq<Message> {
    if moves == [] then []
    else
      (if moves[0].Link? && moves[0].id == id then PostOf(Client, moves[0].step) else [])
      + ClientPosts(id, moves[1..])
  }

  function SentBy(w: World, id: nat): seq<Message> {
    if id in w.links then Sent(w.links[id].client) else []
  }

  lemma MoveSends(w: World, m: Move, id: nat)
    requires Allowed(w, m)
    ensures SentBy(After(w, m), id)
            == SentBy(w, id) + if m.Link? && m.id == id then PostOf(Client, m.step) else []
  {
    match m
    case Connect(_, link) => InitialInv(link);
    case Link(k, step) => SentGrowsByPosts(w.links[k], step, Client);
    case CallUpdate(_) =>
    case Consume =>
  }

  lemma {:induction false} SentIsWhatThePlayPosted(w: World, moves: seq<Move>, id: nat)
    requires Plays(w, moves)
    ensures SentBy(Play(w, moves), id) == SentBy(w, id) + ClientPosts(id, moves)
    decreases |moves|
  {
    if moves != [] {
      var m := moves[0];
      MoveSends(w, m, id);
      SentIsWhatThePlayPosted(After(w, m), moves[1..], id);
      Regroup(SentBy(w, id), if m.Link? && m.id == id then PostOf(Client, m.step) else [], ClientPosts(id, moves[1..]));
    }
  }

  /** In every interleaving of connecting, sending, transferring, failing, receiving and consuming,
      no pop ever meets an empty deque; what the server handles from a connection is, in order, a prefix
      of what that connection received, and, if all of that was well-formed, of what the connection's
      client passed to `Send` in the course of the play. */
  lemma HandledIsAPrefixOfSent(moves: seq<Move>, id: nat)
    requires Plays(EMPTY_WORLD, moves)
    ensures !Play(EMPTY_WORLD, moves).consumer.Crashed?
    ensures AllWellFormed(ClientPosts(id, moves)) ==>
              SamePrefix(From(id, Play(EMPTY_WORLD, moves).handled), ClientPosts(id, moves))
    ensures if id in Play(EMPTY_WORLD, moves).links
            then From(id, Play(EMPTY_WORLD, moves).handled) <= Play(EMPTY_WORLD, moves).links[id].server.r.received
            else From(id, Play(EMPTY_WORLD, moves).handled) == []
  {
    EmptyWorldInv();
    PlayKeepsInv(EMPTY_WORLD, moves);
    SentFromTheStart(EMPTY_WORLD, moves, id);
    HandledInOrder(Play(EMPTY_WORLD, moves), id);
  }

  lemma EmptyWorldInv()
    ensures WorldInv(EMPTY_WORLD)
  {
  }

  lemma SentFromTheStart(w: World, moves: seq<Move>, id: nat)
    requires Plays(w, moves) && w.links == map[]
    ensures SentBy(Play(w, moves), id) == ClientPosts(id, moves)
  {
    SentIsWhatThePlayPosted(w, moves, id);
    assert [] + ClientPosts(id, moves) == ClientPosts(id, moves);
  }

  lemma HandledInOrder(w: World, id: nat)
    requires WorldInv(w)
    ensures AllWellFormed(SentBy(w, id)) ==> SamePrefix(From(id, w.handled), SentBy(w, id))
    ensures if id in w.links then From(id, w.handled) <= w.links[id].server.r.received else From(id, w.handled) == []
  {
    var later := InHand(w.consumer) + w.queue;
    assert w.handled + InHand(w.consumer) + w.queue == w.handled + later;
    FromAppend(id, w.handled, later);
    assert From(id, w.handled) <= From(id, w.handled) + From(id, later);
    if id in w.links {
      InvDelivers(w.links[id]);
      PrefixOfSamePrefix(From(id, w.handled), w.links[id].server.r.received, SentBy(w, id));
    }
  }

  lemma PrefixOfSamePrefix(a: seq<Message>, b: seq<Message>, sent: seq<Message>)
    requires a <= b
    ensures SamePrefix(b, sent) ==> SamePrefix(a, sent)
  {
  }

  // ---- One call of Update --------------------------------------------------------------------------

  function Consumes(k: nat): (moves: seq<Move>)
    ensures |moves| == k
  {
    seq(k, i => Consume)
  }

  function Min(a: nat, b: nat): nat {
    if a < b then a else b
  }

  /** The rest of a call that has handled `count` messages, with nothing else going on: exactly three
      steps for each further message, and the test that ends it. */
  lemma {:induction false} CallAloneFromTest(w: World, k: nat)
    requires w.consumer.Testing? && w.consumer.count <= w.consumer.max && Plays(w, Consumes(k))
    requires Play(w, Consumes(k)).consumer.Outside?
    ensures var n := Min(w.consumer.max - w.consumer.count, |w.queue|);
            && k == 3 * n + 1
            && Play(w, Consumes(k))
               == w.(handled := w.handled + w.queue[..n], queue := w.queue[n..], consumer := Outside)
    decreases k
  {
    assert k > 0;
    var w1 := After(w, Consume);
    ConsumesFirst(w, k - 1);
    if w1.consumer.Outside? {
      assert k == 1 && w.handled + [] == w.handled;
    } else {
      assert k > 1;
      ConsumesFirst(w1, k - 2);
      assert k > 2;
      ConsumesFirst(After(w1, Consume), k - 3);
      var w3 := After(After(w1, Consume), Consume);
      CallAloneFromTest(w3, k - 3);
      TakenInTurn(w, w3);
    }
  }

  lemma TakenInTurn(w: World, w3: World)
    requires w.consumer.Testing? && w.consumer.count < w.consumer.max && w.queue != []
    requires w3 == w.(handled := w.handled + [w.queue[0]], queue := w.queue[1..],
                      consumer := Testing(w.consumer.count + 1, w.consumer.max))
    ensures var n := Min(w.consumer.max - w.consumer.count, |w.queue|);
            && n == Min(w3.consumer.max - w3.consumer.count, |w3.queue|) + 1
            && w3.handled + w3.queue[..n - 1] == w.handled + w.queue[..n]
            && w3.queue[n - 1..] == w.queue[n..]
  {
  }

  /** A call that nothing interrupts takes the oldest messages, at most the given number, and leaves the
      others queued. */
  lemma UpdateAlone(w: World, max: nat, k: nat)
    requires w.consumer.Outside? && Plays(w, [CallUpdate(max)] + Consumes(k))
    requires Play(w, [CallUpdate(max)] + Consumes(k)).consumer.Outside?
    ensures var n := Min(max, |w.queue|);
            && k == 3 * n + 1
            && Play(w, [CallUpdate(max)] + Consumes(k))
               == w.(handled := w.handled + w.queue[..n], queue := w.queue[n..])
  {
    assert ([CallUpdate(max)] + Consumes(k))[1..] == Consumes(k);
    CallAloneFromTest(After(w, CallUpdate(max)), k);
  }

  /** And such a call does return. */
  lemma {:induction false} CallAloneReturns(w: World)
    requires w.consumer.Testing? && w.consumer.count <= w.consumer.max
    ensures exists k: nat :: Plays(w, Consumes(k)) && Play(w, Consumes(k)).consumer.Outside?
    decreases |w.queue|
  {
    var w1 := After(w, Consume);
    if w1.consumer.Outside? {
      assert Consumes(1)[1..] == [] && Consumes(1)[0] == Consume;
      assert Plays(w, Consumes(1)) && Play(w, Consumes(1)).consumer.Outside?;
    } else {
      var w2 := After(w1, Consume);
      var w3 := After(w2, Consume);
      CallAloneReturns(w3);
      var k: nat :| Plays(w3, Consumes(k)) && Play(w3, Consumes(k)).consumer.Outside?;
      ConsumesFirst(w2, k);
      ConsumesFirst(w1, k + 1);
      ConsumesFirst(w, k + 2);
      assert Plays(w, Consumes(k + 3)) && Play(w, Consumes(k + 3)).consumer.Outside?;
    }
  }

  lemma ConsumesFirst(w: World, k: nat)
    requires Allowed(w, Consume)
    ensures Plays(w, Consumes(k + 1)) == Plays(After(w, Consume), Consumes(k))
    ensures Plays(w, Consumes(k + 1)) ==> Play(w, Consumes(k + 1)) == Play(After(w, Consume), Consumes(k))
  {
    assert Consumes(k + 1)[1..] == Consumes(k) && Consumes(k + 1)[0] == Consume;
  }

  lemma UpdateAloneReturns(w: World, max: nat)
    requires w.consumer.Outside?
    ensures exists k: nat :: Plays(w, [CallUpdate(max)] + Consumes(k))
                        && Play(w, [CallUpdate(max)] + Consumes(k)).consumer.Outside?
  {
    CallAloneReturns(After(w, CallUpdate(max)));
    var k: nat :| Plays(After(w, CallUpdate(max)), Consumes(k))
             && Play(After(w, CallUpdate(max)), Consumes(k)).consumer.Outside?;
    assert ([CallUpdate(max)] + Consumes(k))[1..] == Consumes(k);
    assert Plays(w, [CallUpdate(max)] + Consumes(k));
  }

  /** A call that began with `before` handled messages and may handle `max` goes on. */
  ghost predicate InCall(w: World, max: nat, before: seq<OwnedMessage>) {
    && before <= w.handled
    && match w.consumer
       case Outside => false
       case Testing(count, m) => m == max && |w.handled| == |before| + count && count <= max
       case Popping(count, m) => m == max && |w.handled| == |before| + count && count < max
       case Handling(count, m, _) => m == max && |w.handled| == |before| + count && count < max
       case Crashed => true
  }

  /** A call returns at one place only: a test that finds the number reached or the queue empty. */
  ghost predicate MayReturn(w: World, max: nat, before: seq<OwnedMessage>) {
    w.consumer.Testing? && (|w.handled| == |before| + max || w.queue == [])
  }

  lemma CallGoesOnOrReturns(w: World, m: Move, max: nat, before: seq<OwnedMessage>)
    requires InCall(w, max, before) && Allowed(w, m)
    ensures |w.handled| <= |before| + max || w.consumer.Crashed?
    ensures After(w, m).consumer.Outside? <==> m == Consume && MayReturn(w, max, before)
    ensures After(w, m).consumer.Outside? ==> After(w, m).handled == w.handled
    ensures !After(w, m).consumer.Outside? ==> InCall(After(w, m), max, before)
  {
  }

  lemma {:induction false} CallGoesOn(w: World, moves: seq<Move>, max: nat, before: seq<OwnedMessage>)
    requires InCall(w, max, before) && Plays(w, moves) && NotReturned(w, moves)
    ensures InCall(Play(w, moves), max, before)
    decreases |moves|
  {
    if moves != [] {
      CallGoesOnOrReturns(w, moves[0], max, before);
      CallGoesOn(After(w, moves[0]), moves[1..], max, before);
    }
  }

  /** The consumer is inside its call all the way. */
  predicate NotReturned(w: World, moves: seq<Move>)
    requires Plays(w, moves)
    decreases |moves|
  {
    !w.consumer.Outside? && (moves == [] || NotReturned(After(w, moves[0]), moves[1..]))
  }

  /** Whatever producers do in the meantime: a call of `Update` handles at most the given number of
      messages, and it returns at the next step exactly when that step is a test that finds the number
      reached or the queue empty. */
  lemma OneCallInAnyInterleaving(w: World, max: nat, moves: seq<Move>, m: Move)
    requires WorldInv(w) && w.consumer.Outside? && Plays(After(w, CallUpdate(max)), moves)
    requires NotReturned(After(w, CallUpdate(max)), moves)
    requires Allowed(Play(After(w, CallUpdate(max)), moves), m)
    ensures var now := Play(After(w, CallUpdate(max)), moves);
            && w.handled <= now.handled && |now.handled| <= |w.handled| + max
            && (After(now, m).consumer.Outside? <==>
                  m == Consume && now.consumer.Testing? && (|now.handled| == |w.handled| + max || now.queue == []))
            && (After(now, m).consumer.Outside? ==> After(now, m).handled == now.handled)
  {
    var start := After(w, CallUpdate(max));
    MoveKeepsInv(w, CallUpdate(max));
    PlayKeepsInv(start, moves);
    CallGoesOn(start, moves, max, w.handled);
    CallGoesOnOrReturns(Play(start, moves), m, max, w.handled);
  }

  // ---- One order for all connections ---------------------------------------------------------------

  function InOrder(w: World): seq<OwnedMessage> {
    w.handled + InHand(w.consumer) + w.queue
  }

  /** Messages are handled in the order in which they arrived, over all connections: what has arrived
      stays in its place, whether it is handled, in hand or queued. */
  lemma {:induction false} HandledInTheOrderOfArrival(w: World, moves: seq<Move>)
    requires Plays(w, moves)
    ensures InOrder(w) <= InOrder(Play(w, moves))
    decreases |moves|
  {
    if moves != [] {
      MoveKeepsOrder(w, moves[0]);
      HandledInTheOrderOfArrival(After(w, moves[0]), moves[1..]);
    }
  }

  lemma QueuedLast(front: seq<OwnedMessage>, queue: seq<OwnedMessage>, queue': seq<OwnedMessage>)
    requires queue <= queue'
    ensures front + queue <= front + queue'
  {
  }

  lemma MoveKeepsOrder(w: World, m: Move)
    requires Allowed(w, m)
    ensures InOrder(w) <= InOrder(After(w, m))
  {
    var w' := After(w, m);
    match m
    case Connect(_, _) =>
    case Link(_, _) => QueuedLast(w.handled + InHand(w.consumer), w.queue, w'.queue);
    case CallUpdate(_) =>
    case Consume => assert InOrder(w') == InOrder(w);
  }
}
