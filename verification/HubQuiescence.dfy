/**
 The hub drains: once no new frame, connection or disconnect arrives, it can only take a bounded number of further
 steps, however they interleave with the writers, and when it stops nobody is left waiting for it.
 */
module HubQuiescence {
  import opened HubProtocol

  /** The steps of the hub goroutine, with the goroutine it meets at an unbuffered channel if there is one. */
  predicate HubStep<C>(l: Label<C>) {
    || l.Register? || l.UnregisterByReader? || l.UnregisterByEvictor?
    || l.Dequeue? || l.Deliver? || l.EndBroadcast?
  }

  /** The steps that bring the hub new work. */
  predicate Arrival<C>(l: Label<C>) {
    l.Connect? || l.ReadFails? || l.Offer?
  }

  function Waiting<C(==)>(s: State<C>): set<C> {
    set c | c in s.conns && !s.conns[c].registered
  }

  function Leaving<C(==)>(s: State<C>): set<C> {
    set c | c in s.conns && s.conns[c].reader == Reader.Leaving
  }

  /** Clients the map can come to hold without a new connection. */
  function Population<C(==)>(s: State<C>): nat {
    |s.clients| + |Waiting(s)|
  }

  /** The most a queued frame can cost: taking it, offering it to everyone, evicting everyone, ending the loop. */
  function FrameCost<C(==)>(s: State<C>): nat {
    2 * Population(s) + 2
  }

  function LoopCost<C(==)>(s: State<C>): nat {
    if s.phase.Delivering? then 2 * |s.phase.rest| + 1 else 0
  }

  /** An upper bound on the hub's remaining steps. */
  function Rank<C(==)>(s: State<C>): nat {
    |s.broadcast| * FrameCost(s) + LoopCost(s) + |Waiting(s)| + |Leaving(s)| + |s.evictions|
  }

  lemma ProductMonotone(n: nat, a: nat, b: nat)
    requires a <= b
    ensures n * a <= n * b
  {
  }

  /** The pumps' own steps leave everything Rank counts as it is. */
  lemma RankPumpStep<C>(s: State<C>, l: Label<C>)
    requires Enabled(s, l) && (l.StartWriter? || l.StartReader? || l.WriteFails? || l.SeeClosed? || l.Take?)
    ensures Rank(Apply(s, l)) == Rank(s)
  {
    var t := Apply(s, l);
    assert Waiting(t) == Waiting(s);
    assert Leaving(t) == Leaving(s);
  }

  lemma RankRegister<C>(s: State<C>, c: C)
    requires Enabled(s, Label<C>.Register(c)) && c !in s.clients
    ensures Rank(Apply(s, Register(c))) + 1 == Rank(s)
  {
    var t := Apply(s, Register(c));
    assert c in Waiting(s) && Waiting(t) == Waiting(s) - {c};
    assert Leaving(t) == Leaving(s);
    assert Population(t) == Population(s);
  }

  /** Unregistering can only shrink the population, and with it the cost of the frames still queued. */
  lemma UnregisterCheapens<C>(s: State<C>, t: State<C>)
    requires t.clients <= s.clients && Waiting(t) == Waiting(s) && t.broadcast == s.broadcast
    ensures |t.broadcast| * FrameCost(t) <= |s.broadcast| * FrameCost(s)
  {
    assert s.clients == t.clients + (s.clients - t.clients);
    ProductMonotone(|s.broadcast|, FrameCost(t), FrameCost(s));
  }

  lemma RankReaderLeaves<C>(s: State<C>, c: C)
    requires Enabled(s, Label<C>.UnregisterByReader(c))
    ensures Rank(Apply(s, UnregisterByReader(c))) + 1 <= Rank(s)
  {
    var t := Apply(s, UnregisterByReader(c));
    assert Waiting(t) == Waiting(s);
    assert c in Leaving(s) && Leaving(t) == Leaving(s) - {c};
    UnregisterCheapens(s, t);
  }

  lemma RankEvicted<C>(s: State<C>, c: C)
    requires Enabled(s, Label<C>.UnregisterByEvictor(c))
    ensures Rank(Apply(s, UnregisterByEvictor(c))) + 1 <= Rank(s)
  {
    var t := Apply(s, UnregisterByEvictor(c));
    assert Waiting(t) == Waiting(s);
    assert Leaving(t) == Leaving(s);
    UnregisterCheapens(s, t);
  }

  lemma RankDeliver<C>(s: State<C>, c: C)
    requires Enabled(s, Label<C>.Deliver(c))
    ensures Rank(Apply(s, Deliver(c))) + 1 <= Rank(s)
  {
    var t := DeliverTo(s, c);
    assert Waiting(t) == Waiting(s);
    assert Leaving(t) == Leaving(s);
  }

  lemma RankDequeue<C>(s: State<C>)
    requires Enabled(s, Label<C>.Dequeue)
    ensures Rank(Apply(s, Dequeue)) + 1 <= Rank(s)
  {
    var t := Apply(s, Dequeue);
    assert Waiting(t) == Waiting(s) && Leaving(t) == Leaving(s);
    assert |s.broadcast| * FrameCost(s) == |t.broadcast| * FrameCost(t) + FrameCost(s);
  }

  lemma RankStep<C>(s: State<C>, l: Label<C>)
    requires Inv(s) && Enabled(s, l) && !Arrival(l)
    ensures Rank(Apply(s, l)) + (if HubStep(l) then 1 else 0) <= Rank(s)
  {
    match l {
      case Register(c) =>
        assert ConnInv(s, c);
        RankRegister(s, c);
      case UnregisterByReader(c) => RankReaderLeaves(s, c);
      case UnregisterByEvictor(c) => RankEvicted(s, c);
      case Dequeue => RankDequeue(s);
      case Deliver(c) => RankDeliver(s, c);
      case EndBroadcast =>
        var t := Apply(s, l);
        assert Waiting(t) == Waiting(s) && Leaving(t) == Leaving(s);
      case _ => RankPumpStep(s, l);
    }
  }

  function HubSteps<C>(ls: seq<Label<C>>): nat {
    if ls == [] then 0 else (if HubStep(ls[0]) then 1 else 0) + HubSteps(ls[1..])
  }

  /** Without arrivals the hub takes at most Rank(s) more steps, on every interleaving with the pumps. */
  lemma {:induction false} HubDrains<C>(s: State<C>, ls: seq<Label<C>>)
    requires Inv(s) && CanRun(s, ls)
    requires forall i :: 0 <= i < |ls| ==> !Arrival(ls[i])
    ensures HubSteps(ls) + Rank(Run(s, ls)) <= Rank(s)
    decreases ls
  {
    if ls != [] {
      assert !Arrival(ls[0]);
      InvStep(s, ls[0]);
      RankStep(s, ls[0]);
      HubDrains(Apply(s, ls[0]), ls[1..]);
    }
  }

  /** The clients whose reader may yet end and unregister. */
  function Listening<C(==)>(s: State<C>): set<C> {
    set c | c in s.conns && (s.conns[c].reader == ReaderIdle || s.conns[c].reader == Reading)
  }

  /** Rank, with an unregister to come from every reader that is still there. */
  function Backlog<C(==)>(s: State<C>): nat {
    Rank(s) + |Listening(s)|
  }

  /** Only new connections and new frames add to the backlog. */
  predicate NewWork<C>(l: Label<C>) {
    l.Connect? || l.Offer?
  }

  lemma ReadFailsKeepsBacklog<C>(s: State<C>, c: C)
    requires Enabled(s, Label<C>.ReadFails(c))
    ensures Backlog(Apply(s, ReadFails(c))) == Backlog(s)
  {
    var t := Apply(s, ReadFails(c));
    assert c in Listening(s) && Listening(t) == Listening(s) - {c};
    assert c !in Leaving(s) && Leaving(t) == Leaving(s) + {c};
    assert Waiting(t) == Waiting(s);
  }

  lemma ListeningKept<C>(s: State<C>, l: Label<C>)
    requires Enabled(s, l) && !NewWork(l) && !l.ReadFails?
    ensures Listening(Apply(s, l)) == Listening(s)
  {
    var t := Apply(s, l);
    forall c
      ensures c in Listening(t) <==> c in Listening(s)
    {
      SameListener(s, l, c);
    }
  }

  lemma SameListener<C>(s: State<C>, l: Label<C>, c: C)
    requires Enabled(s, l) && !NewWork(l) && !l.ReadFails?
    ensures c in Listening(Apply(s, l)) <==> c in Listening(s)
  {
    if ConnStep(l) {
      SameListenerConn(s, l, c);
    } else if l.Take? {
      SameListenerTake(s, l.c, c);
    }
  }

  lemma SameListenerConn<C>(s: State<C>, l: Label<C>, c: C)
    requires Enabled(s, l) && ConnStep(l) && !l.Connect? && !l.ReadFails?
    ensures c in Listening(Apply(s, l)) <==> c in Listening(s)
  {
  }

  lemma SameListenerTake<C>(s: State<C>, d: C, c: C)
    requires Enabled(s, Take(d))
    ensures c in Listening(Apply(s, Take(d))) <==> c in Listening(s)
  {
  }

  lemma BacklogStep<C>(s: State<C>, l: Label<C>)
    requires Inv(s) && Enabled(s, l) && !NewWork(l)
    ensures Backlog(Apply(s, l)) + (if HubStep(l) then 1 else 0) <= Backlog(s)
  {
    if l.ReadFails? {
      ReadFailsKeepsBacklog(s, l.c);
    } else {
      RankStep(s, l);
      ListeningKept(s, l);
    }
  }

  /**
   Disconnects included, among them those that evictions themselves bring about: without new connections and frames the
   hub takes at most Backlog(s) more steps, on every interleaving.
   */
  lemma {:induction false} HubDrainsThroughDisconnects<C>(s: State<C>, ls: seq<Label<C>>)
    requires Inv(s) && CanRun(s, ls)
    requires forall i :: 0 <= i < |ls| ==> !NewWork(ls[i])
    ensures HubSteps(ls) + Backlog(Run(s, ls)) <= Backlog(s)
    decreases ls
  {
    if ls != [] {
      assert !NewWork(ls[0]);
      InvStep(s, ls[0]);
      BacklogStep(s, ls[0]);
      HubDrainsThroughDisconnects(Apply(s, ls[0]), ls[1..]);
    }
  }

  /** The hub is never stuck with work left: while Rank is positive one of its steps is enabled. */
  lemma NextHubStep<C>(s: State<C>) returns (l: Label<C>)
    requires Inv(s) && Rank(s) > 0
    ensures HubStep(l) && Enabled(s, l)
  {
    if s.phase.Delivering? {
      if s.phase.rest == {} {
        return EndBroadcast;
      }
      var c :| c in s.phase.rest;
      return Deliver(c);
    } else if s.broadcast != [] {
      return Dequeue;
    } else if Waiting(s) != {} {
      var c :| c in Waiting(s);
      return Register(c);
    } else if Leaving(s) != {} {
      var c :| c in Leaving(s);
      return UnregisterByReader(c);
    }
    assert |s.evictions| > 0;
    var c :| c in s.evictions;
    return UnregisterByEvictor(c);
  }

  /** Rank is zero exactly when the hub has nothing to do. */
  lemma RankZeroIffIdle<C>(s: State<C>)
    requires Inv(s)
    ensures Rank(s) == 0 <==> (forall l: Label<C> :: HubStep(l) ==> !Enabled(s, l))
  {
    if Rank(s) > 0 {
      var l := NextHubStep(s);
      assert HubStep(l) && Enabled(s, l);
    } else {
      forall l: Label<C> | HubStep(l)
        ensures !Enabled(s, l)
      {
        if Enabled(s, l) {
          RankStep(s, l);
          assert false;
        }
      }
    }
  }

  /** A run of the hub alone, within `bound` steps, to a state where it has nothing left to do. */
  ghost predicate DrainsBy<C>(s: State<C>, ls: seq<Label<C>>, bound: nat) {
    && CanRun(s, ls)
    && (forall i :: 0 <= i < |ls| ==> HubStep(ls[i]))
    && |ls| <= bound && Inv(Run(s, ls)) && Rank(Run(s, ls)) == 0
  }

  lemma DrainFirst<C>(s: State<C>, l: Label<C>, rest: seq<Label<C>>, bound: nat)
    requires HubStep(l) && Enabled(s, l) && DrainsBy(Apply(s, l), rest, bound)
    ensures DrainsBy(s, [l] + rest, bound + 1)
  {
    var ls := [l] + rest;
    assert ls[0] == l && ls[1..] == rest;
  }

  /** From every state the hub alone can finish its work, within Rank(s) steps. */
  lemma {:induction false} DrainExists<C>(s: State<C>) returns (ls: seq<Label<C>>)
    requires Inv(s)
    ensures DrainsBy(s, ls, Rank(s))
    decreases Rank(s)
  {
    ls := [];
    if Rank(s) > 0 {
      var l := NextHubStep(s);
      InvStep(s, l);
      RankStep(s, l);
      var rest := DrainExists(Apply(s, l));
      DrainFirst(s, l, rest, Rank(Apply(s, l)));
      ls := [l] + rest;
    }
  }

  /**
   When the hub has come to rest, nothing waits for it, every accepted frame has been dequeued, a client still in the
   map has every frame since it registered, and a client that missed one is out of the map with its channel closed.
   */
  lemma QuiescentOutcome<C>(s: State<C>, c: C)
    requires Inv(s) && Rank(s) == 0
    requires c in s.conns
    ensures s.phase.Selecting? && s.dequeued == s.accepted && s.evictions == multiset{}
    ensures s.conns[c].registered && s.conns[c].reader != Reader.Leaving
    ensures s.conns[c].since <= |s.accepted|
    ensures c in s.clients ==> s.conns[c].taken + s.conns[c].queue == s.accepted[s.conns[c].since..]
    ensures |s.conns[c].got| < |s.accepted| - s.conns[c].since ==> c !in s.clients && s.conns[c].closed
  {
    var k := s.conns[c];
    assert ConnInv(s, c);
    assert |s.broadcast| == 0 by {
      if |s.broadcast| > 0 {
        ProductMonotone(FrameCost(s), 1, |s.broadcast|);
      }
    }
    assert c !in Waiting(s) && c !in Leaving(s);
    assert s.dequeued == s.accepted;
    if c in s.clients {
      FullWindow(s.dequeued, k.got, k.since, |s.dequeued|);
    }
  }
}
