/**
 What becomes of one connection: a failing read leads to its removal, a writer that ended takes nothing more, and the
 capacities decide who loses a frame.
 */
module HubLifecycle {
  import opened HubProtocol

  // ---------- A failing read ----------

  /** The reader is past its loop and waits for the hub, and the channel is known to it. */
  ghost predicate AwaitsUnregister<C>(s: State<C>, c: C) {
    c in s.conns && s.conns[c].reader == Leaving
  }

  /** A read can fail at any time, and sends the reader to its unregister. */
  lemma ReadCanFail<C>(s: State<C>, c: C)
    requires c in s.conns && s.conns[c].reader == Reading
    ensures Enabled(s, ReadFails(c))
    ensures AwaitsUnregister(Apply(s, ReadFails(c)), c)
  {
  }

  lemma StillAwaits<C>(s: State<C>, l: Label<C>, c: C)
    requires AwaitsUnregister(s, c) && Enabled(s, l) && l != UnregisterByReader(c)
    ensures AwaitsUnregister(Apply(s, l), c)
  {
    if ConnStep(l) {
      StillAwaitsConn(s, l, c);
    }
  }

  lemma StillAwaitsConn<C>(s: State<C>, l: Label<C>, c: C)
    requires AwaitsUnregister(s, c) && Enabled(s, l) && ConnStep(l)
    ensures AwaitsUnregister(Apply(s, l), c)
  {
  }

  lemma {:induction false} AwaitsUntilServed<C>(s: State<C>, ls: seq<Label<C>>, c: C)
    requires AwaitsUnregister(s, c) && CanRun(s, ls)
    requires forall i :: 0 <= i < |ls| ==> ls[i] != UnregisterByReader(c)
    ensures AwaitsUnregister(Run(s, ls), c)
    decreases ls
  {
    if ls != [] {
      assert ls[0] != UnregisterByReader(c);
      StillAwaits(s, ls[0], c);
      AwaitsUntilServed(Apply(s, ls[0]), ls[1..], c);
    }
  }

  /** Whoever waits is served when the hub is at its select, and is then out of the map with its channel closed. */
  lemma ServedIsGone<C>(s: State<C>, c: C)
    requires Inv(s) && AwaitsUnregister(s, c) && s.phase.Selecting?
    ensures Enabled(s, UnregisterByReader(c))
    ensures var t := Apply(s, UnregisterByReader(c));
      !t.panicked && c !in t.clients && t.conns[c].closed && t.conns[c].reader == ReaderDone
  {
    assert ConnInv(s, c);
  }

  /**
   From every reachable state: after a failing read the client waits to unregister, through whatever happens in between,
   and the unregister takes it out of the map and closes its channel.
   */
  lemma {:induction false} DisconnectRemoves<C>(before: seq<Label<C>>, c: C, after: seq<Label<C>>)
    requires CanRun(Init(), before) && c in Run(Init(), before).conns && Run(Init(), before).conns[c].reader == Reading
    ensures Enabled(Run(Init(), before), ReadFails(c))
    ensures var s := Apply(Run(Init(), before), ReadFails(c));
      CanRun(s, after) && (forall i :: 0 <= i < |after| ==> after[i] != UnregisterByReader(c)) ==>
        var t := Run(s, after);
        && c in t.conns && t.conns[c].reader == Leaving
        && (t.phase.Selecting? ==>
              && Enabled(t, UnregisterByReader(c))
              && c !in Apply(t, UnregisterByReader(c)).clients
              && Apply(t, UnregisterByReader(c)).conns[c].closed)
  {
    var s0 := Run(Init(), before);
    InvRun(Init(), before);
    ReadCanFail(s0, c);
    InvStep(s0, ReadFails(c));
    var s := Apply(s0, ReadFails(c));
    if CanRun(s, after) && forall i :: 0 <= i < |after| ==> after[i] != UnregisterByReader(c) {
      AwaitsUntilServed(s, after, c);
      InvRun(s, after);
      if Run(s, after).phase.Selecting? {
        ServedIsGone(Run(s, after), c);
      }
    }
  }

  // ---------- The writer ----------

  /** What a running writer can do: it takes what is queued first, and sees the close only once the queue is drained. */
  lemma WriterSteps<C>(s: State<C>, c: C)
    requires c in s.conns && s.conns[c].writer == Writing
    ensures Enabled(s, WriteFails(c)) && Apply(s, WriteFails(c)).conns[c] == s.conns[c].(writer := WriterDone)
    ensures Enabled(s, Take(c)) <==> s.conns[c].queue != []
    ensures Enabled(s, Take(c)) ==>
              && Apply(s, Take(c)).conns[c].taken == s.conns[c].taken + [s.conns[c].queue[0]]
              && Apply(s, Take(c)).conns[c].queue == s.conns[c].queue[1..]
              && Apply(s, Take(c)).conns[c].writer == Writing
    ensures Enabled(s, SeeClosed(c)) <==> s.conns[c].queue == [] && s.conns[c].closed
    ensures Enabled(s, SeeClosed(c)) ==>
              Apply(s, SeeClosed(c)).conns[c] == s.conns[c].(writer := WriterDone)
  {
  }

  /** The writer has ended, having received `taken`. */
  ghost predicate WriterEnded<C>(s: State<C>, c: C, taken: seq<Frame>) {
    c in s.conns && s.conns[c].writer == WriterDone && s.conns[c].taken == taken
  }

  lemma StillEnded<C>(s: State<C>, l: Label<C>, c: C, taken: seq<Frame>)
    requires WriterEnded(s, c, taken) && Enabled(s, l)
    ensures WriterEnded(Apply(s, l), c, taken) && l != Take(c)
  {
    if ConnStep(l) {
      StillEndedConn(s, l, c, taken);
    }
  }

  lemma StillEndedConn<C>(s: State<C>, l: Label<C>, c: C, taken: seq<Frame>)
    requires WriterEnded(s, c, taken) && Enabled(s, l) && ConnStep(l)
    ensures WriterEnded(Apply(s, l), c, taken)
  {
  }

  /** A writer that ended, on a failed write or on a closed channel, takes no further frame. */
  lemma {:induction false} EndedWriterTakesNothing<C>(s: State<C>, ls: seq<Label<C>>, c: C)
    requires c in s.conns && s.conns[c].writer == WriterDone && CanRun(s, ls)
    ensures WriterEnded(Run(s, ls), c, s.conns[c].taken)
    ensures forall i :: 0 <= i < |ls| ==> ls[i] != Take(c)
    decreases ls
  {
    if ls != [] {
      StillEnded(s, ls[0], c, s.conns[c].taken);
      EndedWriterTakesNothing(Apply(s, ls[0]), ls[1..], c);
    }
  }

  // ---------- Who loses a frame ----------

  /** A channel takes eight frames; the client that has not drained one when the ninth comes is to be evicted. */
  lemma NinthFrameEvicts<C>(s: State<C>, c: C)
    requires Inv(s) && Enabled(s, Label<C>.Deliver(c))
    ensures var t := Apply(s, Deliver(c));
      && (|s.conns[c].queue| < 8 ==>
            t.conns[c].queue == s.conns[c].queue + [s.phase.frame] && t.evictions == s.evictions)
      && (|s.conns[c].queue| >= 8 ==> t.conns == s.conns && t.evictions == s.evictions + multiset{c})
  {
    assert c in s.clients && ConnInv(s, c);
  }

  /** The hub's queue takes sixteen frames; a seventeenth is dropped. */
  lemma SeventeenthFrameDropped<C>(s: State<C>, frame: Frame)
    ensures |s.broadcast| < 16 ==> Apply(s, Offer(frame)).broadcast == s.broadcast + [frame]
    ensures |s.broadcast| >= 16 ==> Apply(s, Offer(frame)) == s
  {
  }

  /** A send on a closed channel, and a second close, are what the protocol calls a panic. */
  lemma PanicsAreFlagged<C>(s: State<C>, c: C)
    requires c in s.conns && s.conns[c].closed
    ensures s.phase.Delivering? && c in s.phase.rest ==> Apply(s, Deliver(c)).panicked
    ensures s.phase.Selecting? && c in s.clients && s.conns[c].reader == Leaving ==>
              Apply(s, UnregisterByReader(c)).panicked
    ensures s.phase.Selecting? && c in s.clients && c in s.evictions ==> Apply(s, UnregisterByEvictor(c)).panicked
  {
  }
}
