/** The order in which the hub's delivery loop happens to visit the client map does not matter. */
module HubDelivery {
  import opened HubProtocol

  /** The labels of one pass of the delivery loop that visits the clients in this order. */
  function Delivers<C>(order: seq<C>): seq<Label<C>> {
    if order == [] then [] else [Deliver(order[0])] + Delivers(order[1..])
  }

  lemma {:induction false} DeliversSnoc<C>(order: seq<C>, c: C)
    ensures Delivers(order + [c]) == Delivers(order) + [Deliver(c)]
  {
    if order == [] {
      assert (order + [c])[1..] == [];
    } else {
      assert (order + [c])[1..] == order[1..] + [c];
      DeliversSnoc(order[1..], c);
    }
  }

  /** Inside the loop, with every remaining client known and its channel open. */
  ghost predicate InLoop<C>(s: State<C>) {
    && s.phase.Delivering? && s.dequeued != []
    && forall c :: c in s.phase.rest ==> c in s.conns && !s.conns[c].closed
  }

  ghost predicate HasRoom(k: Conn) {
    |k.queue| < SEND_CAPACITY
  }

  /** A connection after the loop has offered it the frame in hand. */
  ghost function Reached(k: Conn, frame: Frame, position: nat): Conn {
    if HasRoom(k) then k.(queue := k.queue + [frame], got := k.got + [position]) else k
  }

  ghost function Slow<C>(s: State<C>, rest: set<C>): set<C> {
    set c | c in rest && c in s.conns && !HasRoom(s.conns[c])
  }

  /** The state at the end of the loop, with no order mentioned. */
  ghost function AllDelivered<C>(s: State<C>): State<C>
    requires InLoop(s)
  {
    var frame, rest := s.phase.frame, s.phase.rest;
    s.(phase := Delivering(frame, {}),
       conns := map c | c in s.conns ::
                  if c in rest then Reached(s.conns[c], frame, |s.dequeued| - 1) else s.conns[c],
       evictions := s.evictions + multiset(Slow(s, rest)))
  }

  lemma DeliverOneOfAll<C>(s: State<C>, c: C)
    requires InLoop(s) && c in s.phase.rest
    ensures InLoop(DeliverTo(s, c)) && AllDelivered(DeliverTo(s, c)) == AllDelivered(s)
  {
    var t := DeliverTo(s, c);
    assert t.phase.rest == s.phase.rest - {c};
    DeliverToConns(s, c);
    SlowOneLess(s, t, c);
    assert AllDelivered(t).conns == AllDelivered(s).conns;
  }

  lemma DeliverToConns<C>(s: State<C>, c: C)
    requires InLoop(s) && c in s.phase.rest
    ensures InLoop(DeliverTo(s, c))
    ensures DeliverTo(s, c).conns == s.conns[c := Reached(s.conns[c], s.phase.frame, |s.dequeued| - 1)]
  {
  }

  lemma SlowOneLess<C>(s: State<C>, t: State<C>, c: C)
    requires s.phase.Delivering? && t.phase.Delivering? && c in s.phase.rest && c in s.conns
    requires t.phase.rest == s.phase.rest - {c} && t.conns.Keys == s.conns.Keys
    requires forall d :: d in s.conns && d != c ==> t.conns[d] == s.conns[d]
    ensures multiset(Slow(s, s.phase.rest))
         == multiset(Slow(t, t.phase.rest)) + if HasRoom(s.conns[c]) then multiset{} else multiset{c}
  {
    assert Slow(s, s.phase.rest) == Slow(t, t.phase.rest) + if HasRoom(s.conns[c]) then {} else {c};
  }

  lemma NothingLeft<C>(s: State<C>)
    requires InLoop(s) && s.phase.rest == {}
    ensures AllDelivered(s) == s
  {
    assert Slow(s, {}) == {};
    assert AllDelivered(s).conns == s.conns;
  }

  lemma {:induction false} DeliversFirst<C>(s: State<C>, order: seq<C>)
    requires InLoop(s) && order != []
    ensures CanRun(s, Delivers(order)) <==>
            order[0] in s.phase.rest && CanRun(DeliverTo(s, order[0]), Delivers(order[1..]))
    ensures CanRun(s, Delivers(order)) ==>
            Run(s, Delivers(order)) == Run(DeliverTo(s, order[0]), Delivers(order[1..]))
  {
    assert Delivers(order)[0] == Label<C>.Deliver(order[0]);
    assert Delivers(order)[1..] == Delivers(order[1..]);
  }

  /** A pass that leaves nobody out visits each client once and ends in AllDelivered, whatever its order. */
  lemma {:induction false} DeliveryOrderIrrelevant<C>(s: State<C>, order: seq<C>)
    requires InLoop(s) && CanRun(s, Delivers(order)) && Run(s, Delivers(order)).phase == Delivering(s.phase.frame, {})
    ensures multiset(order) == multiset(s.phase.rest)
    ensures Run(s, Delivers(order)) == AllDelivered(s)
    decreases |order|
  {
    if order == [] {
      assert Delivers(order) == [];
      NothingLeft(s);
    } else {
      DeliversFirst(s, order);
      DeliverOneOfAll(s, order[0]);
      DeliveryOrderIrrelevant(DeliverTo(s, order[0]), order[1..]);
      FirstApart(order, s.phase.rest);
    }
  }

  lemma FirstApart<C>(order: seq<C>, rest: set<C>)
    requires order != [] && order[0] in rest
    ensures multiset(order) == multiset(rest) <==> multiset(order[1..]) == multiset(rest - {order[0]})
  {
    assert order == [order[0]] + order[1..];
    assert multiset(order[1..]) == multiset(order) - multiset{order[0]};
    assert multiset(rest - {order[0]}) == multiset(rest) - multiset{order[0]};
  }

  /** The other direction: every order that visits each client once is a pass the loop can make. */
  lemma {:induction false} EveryOrderPossible<C>(s: State<C>, order: seq<C>)
    requires InLoop(s) && multiset(order) == multiset(s.phase.rest)
    ensures CanRun(s, Delivers(order)) && Run(s, Delivers(order)) == AllDelivered(s)
    decreases |order|
  {
    if order == [] {
      assert Delivers(order) == [];
      assert |multiset(s.phase.rest)| == |s.phase.rest|;
      NothingLeft(s);
    } else {
      assert order[0] in multiset(order);
      FirstApart(order, s.phase.rest);
      DeliverOneOfAll(s, order[0]);
      EveryOrderPossible(DeliverTo(s, order[0]), order[1..]);
      DeliversFirst(s, order);
    }
  }
}
