/**
 What the account of the wire means for callers: runs that keep writes and
 handshakes apart, and what a finished write or handshake promises in any run.
 */
module TlsWireReports {
  import opened Common
  import opened TlsModel
  import opened TlsAsync
  import opened TlsInvariant
  import opened TlsLedger
  import opened TlsSystem
  import opened TlsRuns
  import opened TlsWireRuns

  // ----- runs that keep handshakes and writes apart

  /** No write of a caller starts during a handshake, and no handshake during a write. */
  predicate Apart<C>(sys: Sys<C>, e: Event<C>) {
    match e
    case StartHandshake(_) => sys.writer.NoWriter?
    case SyncHandshake(_, _, _) => sys.writer.NoWriter?
    case StartWrite(_) => !Handshaking(sys.reader)
    case StartShutdown => !Handshaking(sys.reader)
    case SyncWrite(_, _) => !Handshaking(sys.reader)
    case SyncShutdown(_) => !Handshaking(sys.reader)
    case _ => true
  }

  predicate KeptApart<C>(ch: Channel<C>, sys: Sys<C>, es: seq<Event<C>>)
    requires Allowed(ch, sys, es)
    decreases |es|
  {
    es == [] || (Apart(sys, es[0]) && KeptApart(ch, Step(ch, sys, es[0]), es[1..]))
  }

  predicate OneSlot<C>(sys: Sys<C>) {
    Handshaking(sys.reader) ==> sys.writer.NoWriter?
  }

  lemma ReaderStaysApart<C>(ch: Channel<C>, sys: Sys<C>, e: Event<C>)
    requires Enabled(ch, sys, e) && Apart(sys, e) && OneSlot(sys)
    requires e.StartRead? || e.StartHandshake? || e.ReadArrives? || e.ReadResumed?
    ensures OneSlot(Step(ch, sys, e))
  {
  }

  lemma StepStaysApart<C>(ch: Channel<C>, sys: Sys<C>, e: Event<C>)
    requires Enabled(ch, sys, e) && Apart(sys, e) && OneSlot(sys)
    ensures OneSlot(Step(ch, sys, e))
  {
    if e.StartRead? || e.StartHandshake? || e.ReadArrives? || e.ReadResumed? {
      ReaderStaysApart(ch, sys, e);
    } else if e.NestedArrives? {
      NestedGoesOn(ch, sys, e.sent);
    } else if e.WriteArrives? {
      CallerGoesOn(ch, sys, e.sent);
    }
  }

  /** A step that sends outside a flight finds no flight, if kept apart. */
  lemma FlowsAlone<C>(ch: Channel<C>, sys: Sys<C>, e: Event<C>)
    requires Enabled(ch, sys, e) && Apart(sys, e) && OneSlot(sys) && !Arrival(e) && !Discards(ch, sys, e)
    ensures Growth(sys.conn, Step(ch, sys, e).conn) > 0 ==> NestedFlight(sys) == CallerFlight(sys) == Grounded
  {
    if e.StartRead? || e.ReadArrives? || e.SyncRead? {
      ReadingFlows(ch, sys, e);
    } else if e.StartHandshake? || e.StartWrite? || e.StartShutdown? {
      StartFlows(ch, sys, e);
    }
  }

  lemma MovedApart<C>(ch: Channel<C>, sys: Sys<C>, l: Ledger, e: Event<C>, t: Sys<C>)
    requires Enabled(ch, sys, e) && Apart(sys, e) && OneSlot(sys) && OneSlot(t)
    requires Kept(sys, l) && Separate(PlaceOf(sys), l) && Moved(ch, sys, e, t)
    requires !Arrival(e) && !Discards(ch, sys, e) && Growth(sys.conn, t.conn) > 0 ==>
               NestedFlight(sys) == CallerFlight(sys) == Grounded
    ensures Separate(PlaceOf(t), Entry(ch, sys, l, e, t)) && !GoesAstray(sys, l, e)
  {
    if Discards(ch, sys, e) {
      DiscardSeparate(PlaceOf(sys), l, PlaceOf(t), |Encrypt(ch, sys.conn, e.data).sendBuffer|);
    } else if Arrival(e) {
      ArriveSeparate(PlaceOf(sys), l, PlaceOf(t), e.NestedArrives?, |TakenBy(sys, e)|);
    } else {
      FlowSeparate(PlaceOf(sys), l, PlaceOf(t), Growth(sys.conn, t.conn));
    }
  }

  lemma ApartStep<C>(ch: Channel<C>, sys: Sys<C>, l: Ledger, e: Event<C>)
    requires Enabled(ch, sys, e) && Apart(sys, e) && OneSlot(sys) && Kept(sys, l) && Separate(PlaceOf(sys), l)
    ensures Separate(PlaceOf(Step(ch, sys, e)), Enter(ch, sys, l, e)) && !GoesAstray(sys, l, e)
  {
    StepMoves(ch, sys, e);
    StepStaysApart(ch, sys, e);
    if !Arrival(e) && !Discards(ch, sys, e) {
      FlowsAlone(ch, sys, e);
    }
    MovedApart(ch, sys, l, e, Step(ch, sys, e));
  }

  lemma {:induction false} ApartRun<C>(ch: Channel<C>, sys: Sys<C>, l: Ledger, es: seq<Event<C>>)
    requires Allowed(ch, sys, es) && KeptApart(ch, sys, es) && OneSlot(sys)
    requires Kept(sys, l) && Separate(PlaceOf(sys), l)
    ensures NeverAstray(ch, sys, l, es) && Separate(PlaceOf(Run(ch, sys, es)), Books(ch, sys, l, es))
    decreases |es|
  {
    if es != [] {
      ApartStep(ch, sys, l, es[0]);
      StepStaysApart(ch, sys, es[0]);
      StepKept(ch, sys, l, es[0]);
      ApartRun(ch, Step(ch, sys, es[0]), Enter(ch, sys, l, es[0]), es[1..]);
    }
  }

  /**
   In every run that keeps handshakes and the caller's writes apart, the wire holds
   emitted bytes in order and each once, and every byte out of the send buffer was
   either sent or discarded by a failed encryption; without discards, wire and send
   buffer are together what the channel emitted.
   */
  lemma RunsConserveTheWire<C>(ch: Channel<C>, chan: C, es: seq<Event<C>>)
    requires Allowed(ch, Start(chan), es) && KeptApart(ch, Start(chan), es)
    ensures var s, l := Run(ch, Start(chan), es).conn, Books(ch, Start(chan), Blank, es);
            && Traced(s, l) && Increasing(l.sent)
            && (forall p :: 0 <= p < s.Settled() ==> (p in l.sent <==> p !in l.discarded))
            && (l.discarded == [] ==> s.wire + s.sendBuffer == s.emitted)
  {
    ApartRun(ch, Start(chan), Blank, es);
    HonestRun(ch, Start(chan), Blank, es);
    var sys, l := Run(ch, Start(chan), es), Books(ch, Start(chan), Blank, es);
    if l.discarded == [] {
      HonestWire(sys, l);
    }
    assert Separate(PlaceOf(sys), l);
  }

  // ----- what is promised about the bytes emitted by some point

  /**
   Every byte emitted before position `mark` was sent, or a failed encryption
   discarded it, or it is in a flight that is not over; without discards all of
   them are on the wire, at its beginning.
   */
  ghost predicate OnTheWire<C>(sys: Sys<C>, l: Ledger, mark: nat) {
    && mark <= |sys.conn.emitted|
    && (forall p :: 0 <= p < mark ==> p in l.sent || p in l.discarded || PlaceOf(sys).InFlight(p))
    && (l.discarded == [] ==> sys.conn.emitted[..mark] <= sys.conn.wire)
  }

  lemma SettledIsOnTheWire<C>(sys: Sys<C>, l: Ledger, mark: nat)
    requires Honest(sys, l) && mark <= sys.conn.Settled()
    ensures OnTheWire(sys, l, mark)
  {
    forall p | 0 <= p < mark ensures p in l.sent || p in l.discarded || PlaceOf(sys).InFlight(p) {
      assert Missing(PlaceOf(sys), l, p) ==> p in l.discarded;
    }
    if l.discarded == [] {
      HonestWire(sys, l);
    }
  }

  /** The state and the ledger after a run and one more step, no write having gone astray. */
  lemma HonestAfter<C>(ch: Channel<C>, chan: C, es: seq<Event<C>>, e: Event<C>)
    requires Allowed(ch, Start(chan), es) && NeverAstray(ch, Start(chan), Blank, es)
    requires Enabled(ch, Run(ch, Start(chan), es), e)
    requires !GoesAstray(Run(ch, Start(chan), es), Books(ch, Start(chan), Blank, es), e)
    ensures var sys, l := Run(ch, Start(chan), es), Books(ch, Start(chan), Blank, es);
            Honest(Step(ch, sys, e), Enter(ch, sys, l, e))
  {
    HonestRun(ch, Start(chan), Blank, es);
    HonestStep(ch, Run(ch, Start(chan), es), Books(ch, Start(chan), Blank, es), e);
  }

  // ----- finished writes

  lemma StepSettles<C>(ch: Channel<C>, sys: Sys<C>, e: Event<C>)
    requires Enabled(ch, sys, e) && Carried(sys)
    ensures sys.conn.Settled() <= Step(ch, sys, e).conn.Settled()
    ensures |sys.conn.emitted| <= |Step(ch, sys, e).conn.emitted|
  {
    StepMoves(ch, sys, e);
  }

  /** A write that yielded without error had found everything emitted so far out of the send buffer. */
  predicate MarkInv<C>(sys: Sys<C>) {
    match sys.writer
    case Writing(_, _, mark, _, _) => mark <= |sys.conn.emitted|
    case WriteYielded(_, _, mark, ec) => ec.Failed() || mark <= sys.conn.Settled()
    case NoWriter => true
  }

  lemma MarkStep<C>(ch: Channel<C>, sys: Sys<C>, e: Event<C>)
    requires Enabled(ch, sys, e) && Carried(sys) && MarkInv(sys)
    ensures MarkInv(Step(ch, sys, e))
  {
    StepSettles(ch, sys, e);
    if e.WriteArrives? {
      WriteReturnsEffect(sys.conn, sys.writer.inFlight, e.sent);
    }
  }

  lemma {:induction false} RunMarks<C>(ch: Channel<C>, sys: Sys<C>, l: Ledger, es: seq<Event<C>>)
    requires Allowed(ch, sys, es) && Kept(sys, l) && MarkInv(sys)
    ensures MarkInv(Run(ch, sys, es)) && Carried(Run(ch, sys, es))
    decreases |es|
  {
    if es != [] {
      MarkStep(ch, sys, es[0]);
      StepKept(ch, sys, l, es[0]);
      RunMarks(ch, Step(ch, sys, es[0]), Enter(ch, sys, l, es[0]), es[1..]);
    }
  }

  /** How much the channel had emitted once the write that completes in `e` was started. */
  function EmittedAtStart<C>(ch: Channel<C>, sys: Sys<C>, e: Event<C>): nat
    requires Enabled(ch, sys, e)
  {
    if e.WriteArrives? || e.WriteResumed? then sys.writer.mark else |Step(ch, sys, e).conn.emitted|
  }

  predicate CompletesWrite<C>(ch: Channel<C>, sys: Sys<C>, e: Event<C>) {
    && Enabled(ch, sys, e) && |Step(ch, sys, e).completed| > |sys.completed|
    && var c := Step(ch, sys, e).completed[|sys.completed|]; c.WriteDone? && !c.ec.Failed()
  }

  lemma WriteSettles<C>(ch: Channel<C>, sys: Sys<C>, e: Event<C>)
    requires CompletesWrite(ch, sys, e) && MarkInv(sys) && Carried(sys)
    ensures EmittedAtStart(ch, sys, e) <= Step(ch, sys, e).conn.Settled()
  {
    StepSettles(ch, sys, e);
    if e.WriteArrives? {
      WriteReturnsEffect(sys.conn, sys.writer.inFlight, e.sent);
    } else if e.SyncWrite? {
      WriteAllEffect(Encrypt(ch, sys.conn, e.data), e.outgoing);
    } else if e.SyncShutdown? {
      WriteAllEffect(Close(ch, sys.conn), e.outgoing);
    }
  }

  /**
   In every run in which no write went astray, a write or shutdown that completes
   without error has everything emitted up to its start out of the send buffer,
   and on the wire when nothing was discarded.
   */
  lemma WriteReports<C>(ch: Channel<C>, chan: C, es: seq<Event<C>>, e: Event<C>)
    requires Allowed(ch, Start(chan), es) && NeverAstray(ch, Start(chan), Blank, es)
    requires CompletesWrite(ch, Run(ch, Start(chan), es), e)
    requires !GoesAstray(Run(ch, Start(chan), es), Books(ch, Start(chan), Blank, es), e)
    ensures var sys, l := Run(ch, Start(chan), es), Books(ch, Start(chan), Blank, es);
            && EmittedAtStart(ch, sys, e) <= Step(ch, sys, e).conn.Settled()
            && OnTheWire(Step(ch, sys, e), Enter(ch, sys, l, e), EmittedAtStart(ch, sys, e))
  {
    var sys, l := Run(ch, Start(chan), es), Books(ch, Start(chan), Blank, es);
    RunMarks(ch, Start(chan), Blank, es);
    WriteSettles(ch, sys, e);
    HonestAfter(ch, chan, es, e);
    SettledIsOnTheWire(Step(ch, sys, e), Enter(ch, sys, l, e), EmittedAtStart(ch, sys, e));
  }

  // ----- finished handshakes

  predicate CompletesHandshake<C>(ch: Channel<C>, sys: Sys<C>, e: Event<C>) {
    && Enabled(ch, sys, e) && |Step(ch, sys, e).completed| > |sys.completed|
    && Step(ch, sys, e).completed[|sys.completed|].HandshakeDone?
  }

  /**
   In every run in which no write went astray, a handshake that completes, neither
   its setup nor the network having failed, has everything emitted by then, an
   alert included, out of the send buffer, and on the wire when nothing was
   discarded.  A handshake that yielded vouches for what was emitted up to its yield.
   */
  lemma HandshakeIsOnTheWire<C(!new)>(ch: Channel<C>, chan: C, es: seq<Event<C>>, e: Event<C>)
    requires Orderly(ch) && Allowed(ch, Start(chan), es) && NeverAstray(ch, Start(chan), Blank, es)
    requires CompletesHandshake(ch, Run(ch, Start(chan), es), e) && !Excused(ch, Run(ch, Start(chan), es), e)
    requires !GoesAstray(Run(ch, Start(chan), es), Books(ch, Start(chan), Blank, es), e)
    ensures var sys, l := Run(ch, Start(chan), es), Books(ch, Start(chan), Blank, es);
            var t := Step(ch, sys, e);
            && HandshakeOutcome(ch, t.conn, t.completed[|sys.completed|].ec)
            && EmittedByThen(sys, e, t.conn) <= t.conn.Settled()
            && OnTheWire(t, Enter(ch, sys, l, e), EmittedByThen(sys, e, t.conn))
  {
    var sys, l := Run(ch, Start(chan), es), Books(ch, Start(chan), Blank, es);
    StartKeeps(ch, chan);
    RunKeeps(ch, Start(chan), es);
    HandshakeReports(ch, sys, e);
    HonestAfter(ch, chan, es, e);
    SettledIsOnTheWire(Step(ch, sys, e), Enter(ch, sys, l, e), EmittedByThen(sys, e, Step(ch, sys, e).conn));
  }
}
