/**
 The hub as the program writes it: an object whose client map and channels are updated in place. A ghost run of the
 protocol shadows the fields, and each method is proved to append to it the steps of the code it models, so that
 what holds of every run of HubProtocol holds of the object. Where Go would panic, on a send to or a second close
 of a closed channel, the channel methods have a precondition.
 */
module Hub {
  import opened Sequences
  import opened HubDelivery
  import opened HubProtocol

  type ClientId = nat

  /** A client's `send` channel: what it buffers and whether it is closed. */
  datatype Channel = Channel(queue: seq<Frame>, closed: bool)

  /** The run `trace` may be continued by `l`. */
  lemma {:induction false} Extend<C>(trace: seq<Label<C>>, l: Label<C>)
    requires CanRun(Init(), trace) && Enabled(Run(Init(), trace), l)
    ensures CanRun(Init(), trace + [l]) && Run(Init(), trace + [l]) == Apply(Run(Init(), trace), l)
  {
    RunOne(Run(Init(), trace), l);
    RunAppend(Init(), trace, [l]);
  }

  /** A channel after a frame was offered to it. */
  function Offered(ch: Channel, message: Frame): Channel {
    if |ch.queue| < SEND_CAPACITY then ch.(queue := ch.queue + [message]) else ch
  }

  /** The channels after a client was unregistered. */
  function Dropped(chans: map<ClientId, Channel>, c: ClientId, clients: set<ClientId>): map<ClientId, Channel> {
    if c in clients && c in chans then chans[c := Channel(chans[c].queue, true)] else chans
  }

  ghost predicate Agrees(st: State<ClientId>, chans: map<ClientId, Channel>) {
    && st.conns.Keys == chans.Keys
    && forall c :: c in chans ==> chans[c] == Channel(st.conns[c].queue, st.conns[c].closed)
  }

  /** What the end of the delivery loop means for the channels. */
  lemma ChannelsDelivered(s: State<ClientId>, chans: map<ClientId, Channel>, after: map<ClientId, Channel>)
    requires InLoop(s) && Agrees(s, chans) && Agrees(AllDelivered(s), after)
    ensures after.Keys == chans.Keys
    ensures forall c :: c in chans ==>
              after[c] == if c in s.phase.rest then Offered(chans[c], s.phase.frame) else chans[c]
    ensures Slow(s, s.phase.rest) == FullAmong(s.phase.rest, chans)
  {
    var t := AllDelivered(s);
    forall c | c in chans
      ensures after[c] == if c in s.phase.rest then Offered(chans[c], s.phase.frame) else chans[c]
    {
      assert after[c] == Channel(t.conns[c].queue, t.conns[c].closed);
      assert chans[c] == Channel(s.conns[c].queue, s.conns[c].closed);
    }
  }

  /** The clients whose channel has no room. */
  function FullAmong(clients: set<ClientId>, chans: map<ClientId, Channel>): set<ClientId> {
    set c | c in clients && c in chans && |chans[c].queue| >= SEND_CAPACITY
  }

  class Hub {
    var clients: set<ClientId>
    var chans: map<ClientId, Channel>
    var broadcast: seq<Frame>
    var evictors: multiset<ClientId>
    ghost var trace: seq<Label<ClientId>>
    ghost var st: State<ClientId>

    /** The fields show the protocol state `st`, which the run `trace` has reached. */
    ghost predicate Linked()
      reads this
    {
      && CanRun(Init(), trace) && st == Run(Init(), trace)
      && st.clients == clients && st.broadcast == broadcast && st.evictions == evictors
      && Agrees(st, chans)
    }

    /** Linked, with the hub goroutine at its select. */
    ghost predicate Valid()
      reads this
    {
      Linked() && st.phase.Selecting?
    }

    constructor ()
      ensures Valid() && trace == []
    {
      clients, chans, broadcast, evictors := {}, map[], [], multiset{};
      trace := [];
      st := Init();
    }

    /** A step of the protocol in the ghost state alone. */
    ghost method Step(l: Label<ClientId>)
      requires CanRun(Init(), trace) && st == Run(Init(), trace) && Enabled(st, l)
      modifies this`trace, this`st
      ensures trace == old(trace) + [l] && st == Apply(old(st), l)
      ensures CanRun(Init(), trace) && st == Run(Init(), trace)
    {
      Extend(trace, l);
      trace := trace + [l];
      st := Apply(st, l);
    }

    /** `select { case client.send <- message: default: }` */
    method TrySend(client: ClientId, message: Frame) returns (sent: bool)
      requires client in chans && !chans[client].closed
      modifies this`chans
      ensures sent <==> |old(chans)[client].queue| < 8
      ensures sent ==> chans == old(chans)[client := Channel(old(chans)[client].queue + [message], false)]
      ensures !sent ==> chans == old(chans)
    {
      sent := |chans[client].queue| < SEND_CAPACITY;
      if sent {
        chans := chans[client := Channel(chans[client].queue + [message], false)];
      }
    }

    method Close(client: ClientId)
      requires client in chans && !chans[client].closed
      modifies this`chans
      ensures chans == old(chans)[client := Channel(old(chans)[client].queue, true)]
    {
      chans := chans[client := Channel(chans[client].queue, true)];
    }

    /** The upgrade of a request: a client with an open, empty channel, about to register. */
    method NewClient(client: ClientId)
      requires Linked() && client !in chans
      modifies this`chans, this`trace, this`st
      ensures Linked() && trace == old(trace) + [Connect(client)] && st == Apply(old(st), Connect(client))
      ensures chans == old(chans)[client := Channel([], false)]
    {
      chans := chans[client := Channel([], false)];
      Step(Connect(client));
    }

    /** A request turned into a connection: the client registers, and its pumps start. */
    method ServeWS(client: ClientId)
      requires Valid() && client !in chans
      modifies this`clients, this`chans, this`trace, this`st
      ensures Valid() && clients == old(clients) + {client} && chans == old(chans)[client := Channel([], false)]
      ensures trace == old(trace) + [Connect(client), Label.Register(client), Label.StartWriter(client),
                                     Label.StartReader(client)]
      ensures client in st.conns && st.conns[client].reader == Reading && st.conns[client].writer == Writing
    {
      NewClient(client);
      Register(client);
      StartPumps(client);
    }

    method StartPumps(client: ClientId)
      requires Linked() && Enabled(st, Label.StartWriter(client)) && Enabled(st, Label.StartReader(client))
      modifies this`trace, this`st
      ensures Linked() && trace == old(trace) + [Label.StartWriter(client)] + [Label.StartReader(client)]
      ensures client in st.conns && st.conns[client].reader == Reading && st.conns[client].writer == Writing
      ensures st.phase == old(st).phase
    {
      StartWriter(client);
      StartReader(client);
    }

    /** `go client.writePump()` */
    method StartWriter(client: ClientId)
      requires Linked() && Enabled(st, Label.StartWriter(client))
      modifies this`trace, this`st
      ensures Linked() && trace == old(trace) + [Label.StartWriter(client)]
      ensures st == Apply(old(st), Label.StartWriter(client))
    {
      Step(Label.StartWriter(client));
    }

    /** `go client.readPump()` */
    method StartReader(client: ClientId)
      requires Linked() && Enabled(st, Label.StartReader(client))
      modifies this`trace, this`st
      ensures Linked() && trace == old(trace) + [Label.StartReader(client)]
      ensures st == Apply(old(st), Label.StartReader(client))
    {
      Step(Label.StartReader(client));
    }

    /** A read fails: the client's reader leaves its loop and waits to unregister. */
    method ReadFails(client: ClientId)
      requires Linked() && Enabled(st, Label.ReadFails(client))
      modifies this`trace, this`st
      ensures Linked() && trace == old(trace) + [Label.ReadFails(client)]
      ensures st == Apply(old(st), Label.ReadFails(client)) && st.conns[client].reader == Leaving
    {
      Step(Label.ReadFails(client));
    }

    /** A write or a ping fails: the client's writer ends. */
    method WriteFails(client: ClientId)
      requires Linked() && Enabled(st, Label.WriteFails(client))
      modifies this`trace, this`st
      ensures Linked() && trace == old(trace) + [Label.WriteFails(client)]
      ensures st == Apply(old(st), Label.WriteFails(client)) && st.conns[client].writer == WriterDone
    {
      Step(Label.WriteFails(client));
    }

    /** The register case of the hub's select, meeting a request handler. */
    method Register(client: ClientId)
      requires Valid() && Enabled(st, Label.Register(client))
      modifies this`clients, this`trace, this`st
      ensures Valid() && trace == old(trace) + [Label.Register(client)]
      ensures st == Apply(old(st), Label.Register(client))
      ensures clients == old(clients) + {client}
    {
      clients := clients + {client};
      Step(Label.Register(client));
    }

    /** The unregister case of the hub's select, meeting the client's reader. */
    method UnregisterReader(client: ClientId)
      requires Valid() && Enabled(st, UnregisterByReader(client))
      modifies this`clients, this`chans, this`trace, this`st
      ensures Valid() && trace == old(trace) + [UnregisterByReader(client)]
      ensures st == Apply(old(st), UnregisterByReader(client))
      ensures clients == old(clients) - {client}
      ensures chans == Dropped(old(chans), client, old(clients))
    {
      ChannelSafety(trace);
      Step(UnregisterByReader(client));
      Drop(client);
    }

    /** The unregister case of the hub's select, meeting a goroutine spawned by an earlier broadcast. */
    method UnregisterEvictor(client: ClientId)
      requires Valid() && Enabled(st, UnregisterByEvictor(client))
      modifies this`clients, this`chans, this`evictors, this`trace, this`st
      ensures Valid() && trace == old(trace) + [UnregisterByEvictor(client)]
      ensures st == Apply(old(st), UnregisterByEvictor(client))
      ensures clients == old(clients) - {client} && evictors == old(evictors) - multiset{client}
      ensures chans == Dropped(old(chans), client, old(clients))
    {
      ChannelSafety(trace);
      Step(UnregisterByEvictor(client));
      evictors := evictors - multiset{client};
      Drop(client);
    }

    /** Delete the client and close its channel, if it is in the map. */
    method Drop(client: ClientId)
      requires client in chans && (client in clients ==> !chans[client].closed)
      modifies this`clients, this`chans
      ensures clients == old(clients) - {client}
      ensures chans == Dropped(old(chans), client, old(clients))
    {
      if client in clients {
        clients := clients - {client};
        Close(client);
      }
    }

    /** Queue a frame for the hub, or drop it when the channel is full. */
    method Broadcast(frame: Frame)
      requires Linked()
      modifies this`broadcast, this`trace, this`st
      ensures Linked() && trace == old(trace) + [Offer(frame)] && st == Apply(old(st), Offer(frame))
      ensures broadcast == if |old(broadcast)| < 16 then old(broadcast) + [frame] else old(broadcast)
    {
      if |broadcast| < BROADCAST_CAPACITY {
        broadcast := broadcast + [frame];
      }
      Step(Offer(frame));
    }

    /** `message := <-h.broadcast` */
    method ReceiveBroadcast() returns (message: Frame)
      requires Valid() && broadcast != []
      modifies this`broadcast, this`trace, this`st
      ensures Linked() && st.phase == Delivering(message, clients) && clients <= chans.Keys
      ensures message == old(broadcast)[0] && broadcast == old(broadcast)[1..]
      ensures trace == old(trace) + [Dequeue] && st == Apply(old(st), Dequeue)
    {
      ChannelSafety(trace);
      message := broadcast[0];
      broadcast := broadcast[1..];
      Step(Dequeue);
    }

    /** One iteration of the delivery loop. */
    method DeliverOne(client: ClientId, message: Frame)
      requires Linked() && st.phase.Delivering? && client in st.phase.rest && message == st.phase.frame
      modifies this`chans, this`evictors, this`trace, this`st
      ensures client in old(chans) && client in old(st).conns
      ensures Linked() && trace == old(trace) + [Deliver(client)] && st == DeliverTo(old(st), client)
      ensures chans == old(chans)[client := Offered(old(chans)[client], message)]
      ensures evictors == old(evictors) +
                if |old(chans)[client].queue| < SEND_CAPACITY then multiset{} else multiset{client}
    {
      assert client in chans && !chans[client].closed by {
        ChannelSafety(trace);
      }
      var sent := TrySend(client, message);
      if !sent {
        evictors := evictors + multiset{client};
      }
      Step(Deliver(client));
    }

    /** The loop over the client map, in whatever order it is iterated: it ends in the state that mentions no order. */
    method DeliverToAll(message: Frame) returns (ghost order: seq<ClientId>)
      requires Linked() && st.phase == Delivering(message, clients) && st.dequeued != []
      modifies this`chans, this`evictors, this`trace, this`st
      ensures Linked() && InLoop(old(st)) && st == AllDelivered(old(st))
      ensures trace == old(trace) + Delivers(order)
      ensures chans.Keys == old(chans).Keys && forall c :: c in chans ==>
                chans[c] == if c in clients then Offered(old(chans)[c], message) else old(chans)[c]
      ensures evictors == old(evictors) + multiset(FullAmong(clients, old(chans)))
    {
      ChannelSafety(trace);
      order := [];
      var todo := clients;
      while todo != {}
        invariant todo <= clients
        invariant Linked() && st.phase == Delivering(message, todo)
        invariant InLoop(st) && AllDelivered(st) == AllDelivered(old(st))
        invariant trace == old(trace) + Delivers(order)
      {
        var client :| client in todo;
        DeliverOneOfAll(st, client);
        DeliverOne(client, message);
        todo := todo - {client};
        DeliversSnoc(order, client);
        ConcatAssoc(old(trace), Delivers(order), [Deliver(client)]);
        order := order + [client];
      }
      NothingLeft(st);
      ChannelsDelivered(old(st), old(chans), chans);
    }

    ghost method EndDelivery()
      requires Linked() && st.phase.Delivering? && st.phase.rest == {}
      modifies this`trace, this`st
      ensures Valid() && trace == old(trace) + [EndBroadcast] && st == Apply(old(st), EndBroadcast)
    {
      Step(EndBroadcast);
    }

    /** The broadcast case of the hub's select: one frame to every client in the map. */
    method DeliverNext() returns (ghost order: seq<ClientId>)
      requires Valid() && broadcast != []
      modifies this`chans, this`evictors, this`broadcast, this`trace, this`st
      ensures Valid() && broadcast == old(broadcast)[1..]
      ensures chans.Keys == old(chans).Keys && forall c :: c in chans ==>
                chans[c] == if c in clients then Offered(old(chans)[c], old(broadcast)[0]) else old(chans)[c]
      ensures evictors == old(evictors) + multiset(FullAmong(clients, old(chans)))
      ensures trace == old(trace) + [Dequeue] + Delivers(order) + [EndBroadcast]
      ensures Enabled(old(st), Dequeue) && InLoop(Apply(old(st), Dequeue))
      ensures st == AllDelivered(Apply(old(st), Dequeue)).(phase := Selecting)
    {
      var message := ReceiveBroadcast();
      order := DeliverToAll(message);
      EndDelivery();
    }

    /** One receive of a client's writePump: a frame to write, or None when the channel is closed and drained. */
    method WritePump(client: ClientId) returns (message: Option<Frame>)
      requires Linked() && client in st.conns && st.conns[client].writer == Writing
      requires chans[client].queue != [] || chans[client].closed
      modifies this`chans, this`trace, this`st
      ensures Linked()
      ensures var l := if old(chans)[client].queue != [] then Take(client) else SeeClosed(client);
        trace == old(trace) + [l] && Enabled(old(st), l) && st == Apply(old(st), l)
      ensures client in st.conns && st.conns[client].writer == if message.Some? then Writing else WriterDone
      ensures message == if old(chans)[client].queue != [] then Some(old(chans)[client].queue[0]) else None
    {
      var queue := chans[client].queue;
      if queue == [] {
        Step(SeeClosed(client));
        return None;
      }
      chans := chans[client := Channel(queue[1..], chans[client].closed)];
      Step(Take(client));
      message := Some(queue[0]);
    }
  }
}
