/**
 The WebSocket hub as a labelled transition system. Every goroutine step that touches shared state is one
 label, so a run interleaves the hub, the request handlers, both pumps of every connection and the
 goroutines the hub spawns to evict slow clients. Delivering one frame is split into one step per client,
 because the writers keep draining their channels while the hub loops.

 Sending on a closed channel and closing a channel twice panic in Go: here they set `panicked`.
 */
module HubProtocol {
  import opened Sequences

  type Frame = string

  const SEND_CAPACITY := 8
  const BROADCAST_CAPACITY := 16

  /** A reader is blocked on `h.unregister <- c` while it is Leaving. */
  datatype Reader = ReaderIdle | Reading | Leaving | ReaderDone
  datatype Writer = WriterIdle | Writing | WriterDone

  /**
   One connection. `queue` and `closed` are the `send` channel. The other fields are history: `since` counts the
   frames the hub had dequeued when the client registered, `got` holds the positions (in the hub's log) of the
   frames put on the channel, and `taken` the frames the writer received from it.
   */
  datatype Conn = Conn(
    registered: bool, queue: seq<Frame>, closed: bool, reader: Reader, writer: Writer,
    since: nat, got: seq<nat>, taken: seq<Frame>)

  /** Where the hub goroutine is: at its select, or inside the loop over the client map. */
  datatype Phase<C> = Selecting | Delivering(frame: Frame, rest: set<C>)

  /** `evictions` holds the spawned goroutines blocked on `h.unregister <- c`, one entry each. */
  datatype State<C> = State(
    clients: set<C>, conns: map<C, Conn>, broadcast: seq<Frame>, phase: Phase<C>, evictions: multiset<C>,
    dequeued: seq<Frame>, accepted: seq<Frame>, panicked: bool)

  datatype Label<C> =
    | Connect(c: C)
    | Register(c: C)
    | StartWriter(c: C)
    | StartReader(c: C)
    | ReadFails(c: C)
    | UnregisterByReader(c: C)
    | UnregisterByEvictor(c: C)
    | Offer(frame: Frame)
    | Dequeue
    | Deliver(c: C)
    | EndBroadcast
    | Take(c: C)
    | WriteFails(c: C)
    | SeeClosed(c: C)

  const NEW_CONN := Conn(false, [], false, ReaderIdle, WriterIdle, 0, [], [])

  function Init<C>(): State<C> {
    State({}, map[], [], Selecting, multiset{}, [], [], false)
  }

  predicate Enabled<C(==)>(s: State<C>, l: Label<C>) {
    match l
    case Connect(c) => c !in s.conns
    case Register(c) => s.phase.Selecting? && c in s.conns && !s.conns[c].registered
    case StartWriter(c) => c in s.conns && s.conns[c].registered && s.conns[c].writer == WriterIdle
    case StartReader(c) => c in s.conns && s.conns[c].registered && s.conns[c].reader == ReaderIdle
    case ReadFails(c) => c in s.conns && s.conns[c].reader == Reading
    case UnregisterByReader(c) => s.phase.Selecting? && c in s.conns && s.conns[c].reader == Leaving
    case UnregisterByEvictor(c) => s.phase.Selecting? && c in s.conns && c in s.evictions
    case Offer(frame) => true
    case Dequeue => s.phase.Selecting? && s.broadcast != []
    case Deliver(c) => s.phase.Delivering? && c in s.phase.rest && c in s.conns
    case EndBroadcast => s.phase.Delivering? && s.phase.rest == {}
    case Take(c) => c in s.conns && s.conns[c].writer == Writing && s.conns[c].queue != []
    case WriteFails(c) => c in s.conns && s.conns[c].writer == Writing
    case SeeClosed(c) => c in s.conns && s.conns[c].writer == Writing && s.conns[c].queue == [] && s.conns[c].closed
  }

  /** The body of the unregister case: drop the client and close its channel, unless it is gone already. */
  function Unregister<C(==)>(s: State<C>, c: C): State<C>
    requires c in s.conns
  {
    if c !in s.clients then s
    else if s.conns[c].closed then s.(panicked := true)
    else s.(clients := s.clients - {c}, conns := s.conns[c := s.conns[c].(closed := true)])
  }

  /** One iteration of the delivery loop: a non-blocking send, or else a goroutine that will evict the client. */
  function DeliverTo<C(==)>(s: State<C>, c: C): State<C>
    requires s.phase.Delivering? && c in s.conns
  {
    var k := s.conns[c];
    var s := s.(phase := Delivering(s.phase.frame, s.phase.rest - {c}));
    if k.closed then s.(panicked := true)
    else if |k.queue| < SEND_CAPACITY then
      s.(conns := s.conns[c := k.(queue := k.queue + [s.phase.frame],
                                  got := k.got + [if s.dequeued == [] then 0 else |s.dequeued| - 1])])
    else s.(evictions := s.evictions + multiset{c})
  }

  function Apply<C(==)>(s: State<C>, l: Label<C>): State<C>
    requires Enabled(s, l)
  {
    match l
    case Connect(c) => s.(conns := s.conns[c := NEW_CONN])
    case Register(c) =>
      s.(clients := s.clients + {c},
         conns := s.conns[c := s.conns[c].(registered := true, since := |s.dequeued|)])
    case StartWriter(c) => s.(conns := s.conns[c := s.conns[c].(writer := Writing)])
    case StartReader(c) => s.(conns := s.conns[c := s.conns[c].(reader := Reading)])
    case ReadFails(c) => s.(conns := s.conns[c := s.conns[c].(reader := Leaving)])
    case UnregisterByReader(c) => Unregister(s.(conns := s.conns[c := s.conns[c].(reader := ReaderDone)]), c)
    case UnregisterByEvictor(c) => Unregister(s.(evictions := s.evictions - multiset{c}), c)
    case Offer(frame) =>
      if |s.broadcast| < BROADCAST_CAPACITY
      then s.(broadcast := s.broadcast + [frame], accepted := s.accepted + [frame])
      else s
    case Dequeue =>
      s.(broadcast := s.broadcast[1..], dequeued := s.dequeued + [s.broadcast[0]],
         phase := Delivering(s.broadcast[0], s.clients))
    case Deliver(c) => DeliverTo(s, c)
    case EndBroadcast => s.(phase := Selecting)
    case Take(c) =>
      var k := s.conns[c];
      s.(conns := s.conns[c := k.(queue := k.queue[1..], taken := k.taken + [k.queue[0]])])
    case WriteFails(c) => s.(conns := s.conns[c := s.conns[c].(writer := WriterDone)])
    case SeeClosed(c) => s.(conns := s.conns[c := s.conns[c].(writer := WriterDone)])
  }

  /** `ls` is a run of the system from `s`. */
  predicate CanRun<C(==)>(s: State<C>, ls: seq<Label<C>>)
    decreases ls
  {
    ls == [] || (Enabled(s, ls[0]) && CanRun(Apply(s, ls[0]), ls[1..]))
  }

  function Run<C(==)>(s: State<C>, ls: seq<Label<C>>): State<C>
    requires CanRun(s, ls)
    decreases ls
  {
    if ls == [] then s else Run(Apply(s, ls[0]), ls[1..])
  }

  lemma {:induction false} RunAppend<C>(s: State<C>, a: seq<Label<C>>, b: seq<Label<C>>)
    requires CanRun(s, a) && CanRun(Run(s, a), b)
    ensures CanRun(s, a + b) && Run(s, a + b) == Run(Run(s, a), b)
    decreases a
  {
    if a == [] {
      assert a + b == b;
    } else {
      assert (a + b)[1..] == a[1..] + b;
      RunAppend(Apply(s, a[0]), a[1..], b);
    }
  }

  lemma {:induction false} RunOne<C>(s: State<C>, l: Label<C>)
    requires Enabled(s, l)
    ensures CanRun(s, [l]) && Run(s, [l]) == Apply(s, l)
  {
    assert [l][1..] == [];
    assert CanRun(Apply(s, l), []);
  }

  // ---------- The inductive invariant ----------

  /** How much of the hub's log the delivery loop has already offered to `c`. */
  function Upto<C(==)>(s: State<C>, c: C): int {
    if s.phase.Delivering? && c in s.phase.rest then |s.dequeued| - 1 else |s.dequeued|
  }

  ghost predicate Increasing(got: seq<nat>) {
    forall i, j :: 0 <= i < j < |got| ==> got[i] < got[j]
  }

  ghost predicate Within(got: seq<nat>, lo: int, hi: int) {
    forall i :: 0 <= i < |got| ==> lo <= got[i] < hi
  }

  /** The entries of `log` at the given positions. */
  ghost function Pick(log: seq<Frame>, got: seq<nat>): (r: seq<Frame>)
    requires Within(got, 0, |log|)
    ensures |r| == |got|
  {
    seq(|got|, i requires 0 <= i < |got| => log[got[i]])
  }

  /**
   What holds of one connection, given whether it is in the map, how many of its evictions are pending and how much
   of the hub's log it has been offered.
   */
  ghost predicate ConnOk(k: Conn, live: bool, evictions: nat, upto: int, log: seq<Frame>) {
    && |k.queue| <= SEND_CAPACITY
    && (live <==> k.registered && !k.closed)
    && (!k.registered ==> k == NEW_CONN && evictions == 0)
    && k.since <= |log|
    && upto <= |log|
    && Increasing(k.got)
    && Within(k.got, k.since, upto)
    && k.taken + k.queue == Pick(log, k.got)
    && (live ==> evictions + |k.got| == upto - k.since)
  }

  ghost predicate ConnInv<C>(s: State<C>, c: C)
    requires c in s.conns
  {
    ConnOk(s.conns[c], c in s.clients, s.evictions[c], Upto(s, c), s.dequeued)
  }

  ghost predicate Inv<C>(s: State<C>) {
    && !s.panicked
    && s.clients <= s.conns.Keys
    && |s.broadcast| <= BROADCAST_CAPACITY
    && s.accepted == s.dequeued + s.broadcast
    && (forall c :: c in s.evictions ==> c in s.conns)
    && (s.phase.Delivering? ==>
          && s.dequeued != []
          && s.phase.frame == s.dequeued[|s.dequeued| - 1]
          && s.phase.rest <= s.clients)
    && (forall c :: c in s.conns ==> ConnInv(s, c))
  }

  // What each kind of step does to the connection it concerns.

  lemma ConnDequeued(k: Conn, live: bool, evictions: nat, log: seq<Frame>, f: Frame)
    requires ConnOk(k, live, evictions, |log|, log)
    ensures ConnOk(k, live, evictions, if live then |log| else |log| + 1, log + [f])
  {
    assert Pick(log + [f], k.got) == Pick(log, k.got);
  }

  lemma ConnSent(k: Conn, evictions: nat, log: seq<Frame>)
    requires log != [] && ConnOk(k, true, evictions, |log| - 1, log) && |k.queue| < SEND_CAPACITY
    ensures var f := log[|log| - 1];
      ConnOk(k.(queue := k.queue + [f], got := k.got + [|log| - 1]), true, evictions, |log|, log)
  {
    var f := log[|log| - 1];
    assert Pick(log, k.got + [|log| - 1]) == Pick(log, k.got) + [f];
    assert k.taken + (k.queue + [f]) == (k.taken + k.queue) + [f];
  }

  lemma ConnTaken(k: Conn, live: bool, evictions: nat, upto: int, log: seq<Frame>)
    requires ConnOk(k, live, evictions, upto, log) && k.queue != []
    ensures ConnOk(k.(queue := k.queue[1..], taken := k.taken + [k.queue[0]]), live, evictions, upto, log)
  {
    assert (k.taken + [k.queue[0]]) + k.queue[1..] == k.taken + k.queue;
  }

  /** Only `c` is concerned by the step from `s` to `t`. */
  ghost predicate OnlyChanges<C>(s: State<C>, t: State<C>, c: C) {
    && t.dequeued == s.dequeued && t.accepted == s.accepted && t.broadcast == s.broadcast
    && t.panicked == s.panicked
    && t.clients - {c} == s.clients - {c}
    && t.conns.Keys == s.conns.Keys + {c}
    && t.evictions[c := 0] == s.evictions[c := 0]
    && (forall d :: d in s.conns && d != c ==> t.conns[d] == s.conns[d] && Upto(t, d) == Upto(s, d))
  }

  lemma InvLocal<C>(s: State<C>, t: State<C>, c: C)
    requires Inv(s) && OnlyChanges(s, t, c)
    requires t.phase.Delivering? ==> s.phase.Delivering? && t.phase.frame == s.phase.frame
    requires t.phase.Delivering? ==> t.phase.rest <= t.clients
    requires ConnInv(t, c)
    ensures Inv(t)
  {
    forall d | d in t.conns
      ensures ConnInv(t, d)
    {
      if d != c {
        assert ConnInv(s, d);
        assert d in t.clients <==> d in t.clients - {c};
        assert d in s.clients <==> d in s.clients - {c};
        assert t.evictions[d] == t.evictions[c := 0][d] == s.evictions[d];
      }
    }
    forall d | d in t.evictions
      ensures d in t.conns
    {
      if d != c {
        assert t.evictions[d] == t.evictions[c := 0][d] == s.evictions[d];
      }
    }
    forall d | d in t.clients
      ensures d in t.conns
    {
      if d != c {
        assert d in t.clients - {c};
        assert d in s.clients - {c};
      }
    }
  }

  lemma InvDequeue<C>(s: State<C>)
    requires Inv(s) && Enabled(s, Label<C>.Dequeue)
    ensures Inv(Apply(s, Dequeue))
  {
    var t := Apply(s, Dequeue);
    forall c | c in t.conns
      ensures ConnInv(t, c)
    {
      assert ConnInv(s, c);
      ConnDequeued(s.conns[c], c in s.clients, s.evictions[c], s.dequeued, s.broadcast[0]);
    }
  }

  /** A successful send concerns the client alone, and leaves its connection in order. */
  lemma SentChanges<C>(s: State<C>, c: C)
    requires Inv(s) && Enabled(s, Label<C>.Deliver(c)) && |s.conns[c].queue| < SEND_CAPACITY
    ensures c in s.clients && OnlyChanges(s, DeliverTo(s, c), c)
  {
    assert ConnInv(s, c);
  }

  lemma SentConn<C>(s: State<C>, c: C)
    requires Inv(s) && Enabled(s, Label<C>.Deliver(c)) && |s.conns[c].queue| < SEND_CAPACITY
    ensures c in DeliverTo(s, c).conns && ConnInv(DeliverTo(s, c), c)
  {
    assert c in s.clients && ConnInv(s, c);
    ConnSent(s.conns[c], s.evictions[c], s.dequeued);
  }

  lemma InvSent<C>(s: State<C>, c: C)
    requires Inv(s) && Enabled(s, Label<C>.Deliver(c)) && |s.conns[c].queue| < SEND_CAPACITY
    ensures Inv(DeliverTo(s, c))
  {
    SentChanges(s, c);
    SentConn(s, c);
    InvLocal(s, DeliverTo(s, c), c);
  }

  lemma InvMissed<C>(s: State<C>, c: C)
    requires Inv(s) && Enabled(s, Label<C>.Deliver(c)) && |s.conns[c].queue| >= SEND_CAPACITY
    ensures Inv(DeliverTo(s, c))
  {
    assert c in s.clients && ConnInv(s, c);
    InvLocal(s, DeliverTo(s, c), c);
  }

  lemma InvReaderLeaves<C>(s: State<C>, c: C)
    requires Inv(s) && Enabled(s, Label<C>.UnregisterByReader(c))
    ensures Inv(Apply(s, UnregisterByReader(c)))
  {
    assert ConnInv(s, c);
    InvLocal(s, Apply(s, UnregisterByReader(c)), c);
  }

  /** A stale eviction goes away without effect; one for a live client takes the client with it. */
  lemma InvEvicted<C>(s: State<C>, c: C)
    requires Inv(s) && Enabled(s, Label<C>.UnregisterByEvictor(c))
    ensures Inv(Apply(s, UnregisterByEvictor(c)))
  {
    assert ConnInv(s, c);
    InvLocal(s, Apply(s, UnregisterByEvictor(c)), c);
  }

  /** The steps that touch one connection and leave the hub's select alone. */
  predicate ConnStep<C>(l: Label<C>) {
    l.Connect? || l.Register? || l.StartWriter? || l.StartReader? || l.ReadFails? || l.WriteFails? || l.SeeClosed?
  }

  lemma InvConnect<C>(s: State<C>, c: C)
    requires Inv(s) && Enabled(s, Label<C>.Connect(c))
    ensures Inv(Apply(s, Connect(c)))
  {
    InvLocal(s, Apply(s, Connect(c)), c);
  }

  lemma InvRegister<C>(s: State<C>, c: C)
    requires Inv(s) && Enabled(s, Label<C>.Register(c))
    ensures Inv(Apply(s, Register(c)))
  {
    assert ConnInv(s, c);
    InvLocal(s, Apply(s, Register(c)), c);
  }

  /** The pumps' steps that leave the channel alone. */
  lemma InvPump<C>(s: State<C>, l: Label<C>)
    requires Inv(s) && Enabled(s, l) && ConnStep(l) && !l.Connect? && !l.Register?
    ensures Inv(Apply(s, l))
  {
    assert ConnInv(s, l.c);
    InvLocal(s, Apply(s, l), l.c);
  }

  lemma InvConn<C>(s: State<C>, l: Label<C>)
    requires Inv(s) && Enabled(s, l) && ConnStep(l)
    ensures Inv(Apply(s, l))
  {
    match l {
      case Connect(c) => InvConnect(s, c);
      case Register(c) => InvRegister(s, c);
      case _ => InvPump(s, l);
    }
  }

  lemma InvTake<C>(s: State<C>, c: C)
    requires Inv(s) && Enabled(s, Label<C>.Take(c))
    ensures Inv(Apply(s, Take(c)))
  {
    assert ConnInv(s, c);
    ConnTaken(s.conns[c], c in s.clients, s.evictions[c], Upto(s, c), s.dequeued);
    InvLocal(s, Apply(s, Take(c)), c);
  }

  lemma InvOffer<C>(s: State<C>, frame: Frame)
    requires Inv(s)
    ensures Inv(Apply(s, Offer(frame)))
  {
    var t := Apply(s, Offer(frame));
    forall c | c in t.conns
      ensures ConnInv(t, c)
    {
      assert ConnInv(s, c);
    }
  }

  lemma InvEndBroadcast<C>(s: State<C>)
    requires Inv(s) && Enabled(s, Label<C>.EndBroadcast)
    ensures Inv(Apply(s, EndBroadcast))
  {
    var t := Apply(s, EndBroadcast);
    forall c | c in t.conns
      ensures ConnInv(t, c)
    {
      assert ConnInv(s, c);
    }
  }

  lemma InvStep<C>(s: State<C>, l: Label<C>)
    requires Inv(s) && Enabled(s, l)
    ensures Inv(Apply(s, l))
  {
    match l {
      case Dequeue => InvDequeue(s);
      case Deliver(c) =>
        if |s.conns[c].queue| < SEND_CAPACITY {
          InvSent(s, c);
        } else {
          InvMissed(s, c);
        }
      case Take(c) => InvTake(s, c);
      case UnregisterByReader(c) => InvReaderLeaves(s, c);
      case UnregisterByEvictor(c) => InvEvicted(s, c);
      case Offer(frame) => InvOffer(s, frame);
      case EndBroadcast => InvEndBroadcast(s);
      case _ => InvConn(s, l);
    }
  }

  lemma {:induction false} InvRun<C>(s: State<C>, ls: seq<Label<C>>)
    requires Inv(s) && CanRun(s, ls)
    ensures Inv(Run(s, ls))
    decreases ls
  {
    if ls != [] {
      InvStep(s, ls[0]);
      InvRun(Apply(s, ls[0]), ls[1..]);
    }
  }

  // ---------- Safety over every run ----------

  /** No run sends on a closed channel or closes one twice, and a client is in the map iff registered and open. */
  lemma {:induction false} ChannelSafety<C>(ls: seq<Label<C>>)
    requires CanRun(Init(), ls)
    ensures var s := Run(Init(), ls);
      && !s.panicked
      && s.clients == (set c | c in s.conns && s.conns[c].registered && !s.conns[c].closed)
      && (s.phase.Delivering? ==> forall c :: c in s.phase.rest ==> c in s.conns && !s.conns[c].closed)
  {
    InvRun(Init(), ls);
    var s := Run(Init(), ls);
    forall c | c in s.conns
      ensures c in s.clients <==> s.conns[c].registered && !s.conns[c].closed
    {
      assert ConnInv(s, c);
    }
  }

  lemma {:induction false} BoundedQueues<C>(ls: seq<Label<C>>)
    requires CanRun(Init(), ls)
    ensures var s := Run(Init(), ls);
      && |s.broadcast| <= 16
      && s.dequeued + s.broadcast == s.accepted
      && forall c :: c in s.conns ==> |s.conns[c].queue| <= 8
  {
    InvRun(Init(), ls);
    var s := Run(Init(), ls);
    forall c | c in s.conns
      ensures |s.conns[c].queue| <= 8
    {
      assert ConnInv(s, c);
    }
  }

  lemma {:induction false} DenseFromBelow(got: seq<nat>, lo: int, i: nat)
    requires Increasing(got) && i < |got| && lo <= got[0]
    ensures lo + i <= got[i]
  {
    if i > 0 {
      DenseFromBelow(got, lo, i - 1);
    }
  }

  lemma {:induction false} DenseFromAbove(got: seq<nat>, hi: int, i: nat)
    requires Increasing(got) && i < |got| && got[|got| - 1] < hi
    ensures got[i] + (|got| - i) <= hi
    decreases |got| - i
  {
    if i < |got| - 1 {
      DenseFromAbove(got, hi, i + 1);
    }
  }

  /** Increasing positions in a window they fill are the whole window. */
  lemma FullWindow(log: seq<Frame>, got: seq<nat>, lo: nat, hi: nat)
    requires Increasing(got) && Within(got, lo, hi) && hi <= |log|
    requires lo <= hi && |got| == hi - lo
    ensures Pick(log, got) == log[lo..hi]
  {
    forall i | 0 <= i < |got|
      ensures got[i] == lo + i
    {
      DenseFromBelow(got, lo, i);
      DenseFromAbove(got, hi, i);
    }
  }

  /**
   A live client with no eviction pending has received, in order and without a gap, everything the hub dequeued
   since it registered; while the hub is looping over the map this excludes the frame in hand for the clients
   the loop has yet to reach.
   */
  lemma {:induction false} NoGapWithoutEviction<C>(ls: seq<Label<C>>, c: C)
    requires CanRun(Init(), ls)
    requires var s := Run(Init(), ls); c in s.clients && c !in s.evictions
    ensures var s := Run(Init(), ls);
      && c in s.conns
      && s.conns[c].since <= Upto(s, c) <= |s.dequeued|
      && s.conns[c].taken + s.conns[c].queue == s.dequeued[s.conns[c].since..Upto(s, c)]
  {
    InvRun(Init(), ls);
    var s := Run(Init(), ls);
    assert ConnInv(s, c);
    FullWindow(s.dequeued, s.conns[c].got, s.conns[c].since, Upto(s, c));
  }

  /**
   Every client, live or closed, has received an in-order, duplicate-free selection of what was dequeued since it
   registered, and a live client has exactly one eviction pending for each frame it missed.
   */
  lemma {:induction false} OrderedWithoutDuplicates<C>(ls: seq<Label<C>>, c: C)
    requires CanRun(Init(), ls)
    requires c in Run(Init(), ls).conns
    ensures var s := Run(Init(), ls); var k := s.conns[c];
      && Increasing(k.got)
      && Within(k.got, k.since, |s.dequeued|)
      && k.taken + k.queue == Pick(s.dequeued, k.got)
      && (c in s.clients ==> s.evictions[c] == Upto(s, c) - k.since - |k.got|)
  {
    InvRun(Init(), ls);
    assert ConnInv(Run(Init(), ls), c);
  }

  /** `k2` is the closed channel `k1` after steps that can only have drained it. */
  predicate Drained(k1: Conn, k2: Conn) {
    && k2.closed
    && k2.got == k1.got
    && k2.taken + k2.queue == k1.taken + k1.queue
  }

  lemma ClosedStep<C>(s: State<C>, l: Label<C>, c: C)
    requires Enabled(s, l)
    requires c in s.conns && s.conns[c].closed
    requires l.Deliver? ==> l.c != c
    ensures var t := Apply(s, l); c in t.conns && Drained(s.conns[c], t.conns[c])
  {
    if l.Take? {
      ClosedTake(s, l.c, c);
    } else if ConnStep(l) {
      ClosedConnStep(s, l, c);
    }
  }

  lemma ClosedTake<C>(s: State<C>, d: C, c: C)
    requires Enabled(s, Take(d))
    requires c in s.conns && s.conns[c].closed
    ensures var t := Apply(s, Take(d)); c in t.conns && Drained(s.conns[c], t.conns[c])
  {
    var t := Apply(s, Take(d));
    assert t.conns[c].taken + t.conns[c].queue == s.conns[c].taken + s.conns[c].queue;
  }

  lemma ClosedConnStep<C>(s: State<C>, l: Label<C>, c: C)
    requires Enabled(s, l) && ConnStep(l)
    requires c in s.conns && s.conns[c].closed
    ensures var t := Apply(s, l); c in t.conns && Drained(s.conns[c], t.conns[c])
  {
  }

  /** A closed channel stays closed and out of the map, and receives nothing more, whatever is still queued up. */
  lemma {:induction false} ClosedIsFinal<C>(s: State<C>, ls: seq<Label<C>>, c: C)
    requires Inv(s) && CanRun(s, ls)
    requires c in s.conns && s.conns[c].closed
    ensures var t := Run(s, ls); c in t.conns && c !in t.clients && Drained(s.conns[c], t.conns[c])
    decreases ls
  {
    assert ConnInv(s, c);
    if ls != [] {
      InvStep(s, ls[0]);
      assert ls[0].Deliver? ==> ls[0].c in s.clients;
      ClosedStep(s, ls[0], c);
      ClosedIsFinal(Apply(s, ls[0]), ls[1..], c);
    }
  }
}
