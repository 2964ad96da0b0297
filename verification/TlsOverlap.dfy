/**
 How a caller's write that overlaps a handshake spoils the wire: bytes sent twice,
 a flight cut short, and bytes lost from a buffer that was refilled.  Each is shown
 in general and as a run of a new stream whose handshake begins with a flight.
 */
module TlsOverlap {
  import opened Common
  import opened TlsModel
  import opened TlsAsync
  import opened TlsLedger
  import opened TlsSystem
  import opened TlsRuns
  import opened TlsWireRuns

  /** A run taken one step at a time. */
  lemma Unrolled<C>(ch: Channel<C>, sys: Sys<C>, l: Ledger, e: Event<C>, es: seq<Event<C>>)
    requires Enabled(ch, sys, e) && Allowed(ch, Step(ch, sys, e), es)
    ensures var t, l', all := Step(ch, sys, e), Enter(ch, sys, l, e), [e] + es;
            && Allowed(ch, sys, all) && Run(ch, sys, all) == Run(ch, t, es)
            && Books(ch, sys, l, all) == Books(ch, t, l', es)
            && (NeverAstray(ch, sys, l, all) <==> !GoesAstray(sys, l, e) && NeverAstray(ch, t, l', es))
  {
    assert ([e] + es)[1..] == es;
  }

  lemma TwoSteps<C>(ch: Channel<C>, sys: Sys<C>, l: Ledger, e0: Event<C>, e1: Event<C>)
    requires Enabled(ch, sys, e0) && Enabled(ch, Step(ch, sys, e0), e1)
    ensures var t, l', es := Step(ch, sys, e0), Enter(ch, sys, l, e0), [e0, e1];
            && Allowed(ch, sys, es) && Run(ch, sys, es) == Step(ch, t, e1)
            && Books(ch, sys, l, es) == Enter(ch, t, l', e1)
            && (NeverAstray(ch, sys, l, es) <==> !GoesAstray(sys, l, e0) && !GoesAstray(t, l', e1))
  {
    var t, l' := Step(ch, sys, e0), Enter(ch, sys, l, e0);
    Unrolled(ch, t, l', e1, []);
    assert [e1] + [] == [e1];
    Unrolled(ch, sys, l, e0, [e1]);
    assert [e0] + [e1] == [e0, e1];
  }

  /** Two steps, then the rest. */
  lemma UnrolledTwice<C>(ch: Channel<C>, sys: Sys<C>, l: Ledger, e0: Event<C>, e1: Event<C>, es: seq<Event<C>>)
    requires Enabled(ch, sys, e0) && Enabled(ch, Step(ch, sys, e0), e1)
    requires Allowed(ch, Step(ch, Step(ch, sys, e0), e1), es)
    ensures var t := Step(ch, sys, e0);
            var l' := Enter(ch, t, Enter(ch, sys, l, e0), e1);
            && Allowed(ch, sys, [e0, e1] + es) && Run(ch, sys, [e0, e1] + es) == Run(ch, Step(ch, t, e1), es)
            && Books(ch, sys, l, [e0, e1] + es) == Books(ch, Step(ch, t, e1), l', es)
  {
    Unrolled(ch, Step(ch, sys, e0), Enter(ch, sys, l, e0), e1, es);
    Unrolled(ch, sys, l, e0, [e1] + es);
    assert [e0] + ([e1] + es) == [e0, e1] + es;
  }

  // ----- bytes sent twice

  /** The two returns, in either order. */
  function Returns<C>(n: nat, m: nat, nestedFirst: bool): (Event<C>, Event<C>) {
    var nested, caller := NestedArrives(Wrote(n)), WriteArrives(Wrote(m));
    if nestedFirst then (nested, caller) else (caller, nested)
  }

  /** The first write to return leaves the other in flight as it was. */
  lemma OtherStaysInFlight<C>(ch: Channel<C>, sys: Sys<C>, n: nat, m: nat, nestedFirst: bool)
    requires sys.reader.ShakeWriting? && sys.writer.Writing?
    ensures var (e0, e1) := Returns<C>(n, m, nestedFirst);
            && Enabled(ch, sys, e0) && Enabled(ch, Step(ch, sys, e0), e1)
            && TakenBy(Step(ch, sys, e0), e1) == TakenBy(sys, e1)
            && (if nestedFirst then Step(ch, sys, e0).writer == sys.writer else Step(ch, sys, e0).reader == sys.reader)
  {
    if nestedFirst {
      NestedGoesOn(ch, sys, Wrote(n));
    } else {
      CallerGoesOn(ch, sys, Wrote(m));
    }
  }

  lemma OverlapWire<C>(ch: Channel<C>, sys: Sys<C>, l: Ledger, n: nat, m: nat, nestedFirst: bool)
    requires sys.reader.ShakeWriting? && sys.writer.Writing?
    ensures var (e0, e1) := Returns<C>(n, m, nestedFirst);
            && Allowed(ch, sys, [e0, e1])
            && Run(ch, sys, [e0, e1]).conn.wire == sys.conn.wire + TakenBy(sys, e0) + TakenBy(sys, e1)
  {
    var (e0, e1) := Returns<C>(n, m, nestedFirst);
    OtherStaysInFlight(ch, sys, n, m, nestedFirst);
    ArrivalMoves(ch, sys, e0);
    ArrivalMoves(ch, Step(ch, sys, e0), e1);
    TwoSteps(ch, sys, l, e0, e1);
  }

  lemma OverlapGoesAstray<C>(ch: Channel<C>, sys: Sys<C>, l: Ledger, n: nat, m: nat, nestedFirst: bool)
    requires sys.reader.ShakeWriting? && sys.writer.Writing? && Kept(sys, l)
    requires sys.reader.at == sys.writer.at == sys.conn.Settled()
    requires sys.reader.inFlight != [] && sys.writer.inFlight != []
    ensures var (e0, e1) := Returns<C>(n, m, nestedFirst);
            && Enabled(ch, sys, e0) && !GoesAstray(sys, l, e0)
            && (GoesAstray(Step(ch, sys, e0), Enter(ch, sys, l, e0), e1) <==> n > 0 && m > 0)
  {
    var (e0, e1) := Returns<C>(n, m, nestedFirst);
    OtherStaysInFlight(ch, sys, n, m, nestedFirst);
    ArrivePlaces(ch, sys, e0);
    OverlapAstray(PlaceOf(sys), l, PlaceOf(Step(ch, sys, e0)), nestedFirst,
                  |TakenBy(sys, e0)|, |TakenBy(sys, e1)|);
  }

  /**
   A handshake's write and a caller's write in flight over the same bytes: both put
   on the wire what they took, and the wire stays intact exactly if one of them
   took nothing.
   */
  lemma OverlapDuplicates<C>(ch: Channel<C>, sys: Sys<C>, l: Ledger, n: nat, m: nat, nestedFirst: bool)
    requires sys.reader.ShakeWriting? && sys.writer.Writing? && Kept(sys, l) && IntactAt(sys, l)
    requires sys.reader.at == sys.writer.at == sys.conn.Settled()
    requires sys.reader.inFlight != [] && sys.writer.inFlight != []
    ensures var (e0, e1) := Returns<C>(n, m, nestedFirst);
            && Allowed(ch, sys, [e0, e1])
            && Run(ch, sys, [e0, e1]).conn.wire == sys.conn.wire + TakenBy(sys, e0) + TakenBy(sys, e1)
            && (IntactAt(Run(ch, sys, [e0, e1]), Books(ch, sys, l, [e0, e1])) <==> n == 0 || m == 0)
  {
    var (e0, e1) := Returns<C>(n, m, nestedFirst);
    OtherStaysInFlight(ch, sys, n, m, nestedFirst);
    OverlapWire(ch, sys, l, n, m, nestedFirst);
    OverlapGoesAstray(ch, sys, l, n, m, nestedFirst);
    TwoSteps(ch, sys, l, e0, e1);
    RunExact(ch, sys, l, [e0, e1]);
  }

  lemma FlightStarts<C>(ch: Channel<C>, chan: C, setup: Emission<C>)
    requires setup.thrown.None? && setup.data != [] && SetsUp(ch, Fresh(chan), setup)
    ensures var e: Event<C> := StartHandshake(setup);
            && Enabled(ch, Start(chan), e)
            && var t := Step(ch, Start(chan), e);
            && t.reader == ShakeWriting(0, 0, setup.data) && t.writer == NoWriter
            && t.conn == Fresh(chan).Absorb(setup)
  {
    var s := Fresh(chan).Absorb(setup);
    assert s.sendBuffer == [] + setup.data == setup.data && s.emitted == [] + setup.data == setup.data;
    assert ShakeCall(ch, s, Success, [], false) == ShakeStep(s, NestedWrite);
  }

  /** A stream whose handshake has its first flight in flight. */
  lemma FlightTakesOff<C>(ch: Channel<C>, chan: C, setup: Emission<C>)
    requires setup.thrown.None? && setup.data != [] && SetsUp(ch, Fresh(chan), setup)
    ensures var e: Event<C> := StartHandshake(setup);
            && Enabled(ch, Start(chan), e)
            && var t := Step(ch, Start(chan), e);
            && t.reader == ShakeWriting(0, 0, setup.data) && t.writer == NoWriter
            && t.conn == Fresh(chan).Absorb(setup) && t.conn.sendBuffer == t.conn.emitted == setup.data
            && Kept(t, Blank) && IntactAt(t, Blank) && Enter(ch, Start(chan), Blank, e) == Blank
  {
    var e: Event<C> := StartHandshake(setup);
    FlightStarts(ch, chan, setup);
    FlightIsEntered(ch, Start(chan), setup, Step(ch, Start(chan), e));
    StepKept(ch, Start(chan), Blank, e);
  }

  lemma FlightIsEntered<C>(ch: Channel<C>, sys: Sys<C>, setup: Emission<C>, t: Sys<C>)
    requires t.conn == Fresh(sys.conn.chan).Absorb(setup) && sys.conn == Fresh(sys.conn.chan)
    ensures t.conn.sendBuffer == t.conn.emitted == setup.data
    ensures Entry(ch, sys, Blank, StartHandshake(setup), t) == Blank && IntactAt(t, Blank)
  {
    assert [] + setup.data == setup.data;
    assert [] + Range(0, 0) == [];
  }

  /** A caller's write accepted meanwhile takes the flight along with its own bytes. */
  lemma CallerJoins<C>(ch: Channel<C>, sys: Sys<C>, l: Ledger, data: Bytes)
    requires sys.writer.NoWriter? && sys.conn.sendBuffer != [] && ch.send(sys.conn.chan, data).thrown.None?
    requires Kept(sys, l) && IntactAt(sys, l)
    ensures var e: Event<C> := StartWrite(data);
            && Enabled(ch, sys, e) && !Discards(ch, sys, e)
            && var t, more := Step(ch, sys, e), ch.send(sys.conn.chan, data).data;
            && t.reader == sys.reader && t.conn.wire == sys.conn.wire && t.conn.Settled() == sys.conn.Settled()
            && t.writer.Writing? && t.writer.at == t.conn.Settled() && t.writer.inFlight == sys.conn.sendBuffer + more
            && Enter(ch, sys, l, e) == l && Kept(t, l) && IntactAt(t, l)
  {
    var e: Event<C> := StartWrite(data);
    assert l.sent + Range(sys.conn.Settled(), 0) == l.sent;
    StepKept(ch, sys, l, e);
    StepExact(ch, sys, l, e);
  }

  /** The stream, new but for a first flight and a caller's write that overlap. */
  lemma FlightIsJoined<C>(ch: Channel<C>, chan: C, setup: Emission<C>, data: Bytes)
    requires setup.thrown.None? && setup.data != [] && SetsUp(ch, Fresh(chan), setup)
    requires ch.send(setup.chan, data).thrown.None?
    ensures var e0: Event<C>, e1: Event<C> := StartHandshake(setup), StartWrite(data);
            && Enabled(ch, Start(chan), e0) && Enabled(ch, Step(ch, Start(chan), e0), e1)
            && Enter(ch, Step(ch, Start(chan), e0), Enter(ch, Start(chan), Blank, e0), e1) == Blank
            && var t := Step(ch, Step(ch, Start(chan), e0), e1);
            && t.reader == ShakeWriting(0, 0, setup.data) && t.conn.wire == [] && t.conn.Settled() == 0
            && t.writer.Writing? && t.writer.at == 0
            && t.writer.inFlight == setup.data + ch.send(setup.chan, data).data
            && Kept(t, Blank) && IntactAt(t, Blank)
  {
    FlightTakesOff(ch, chan, setup);
    CallerJoins(ch, Step(ch, Start(chan), StartHandshake(setup)), Blank, data);
  }

  /**
   A new stream whose first flight is in flight when a caller's write is accepted:
   whichever returns first, the wire is intact exactly if one of them took nothing;
   when both are accepted whole the flight is on the wire twice.
   */
  lemma FirstFlightTwice<C>(ch: Channel<C>, chan: C, setup: Emission<C>, data: Bytes, n: nat, m: nat,
                            nestedFirst: bool)
    requires setup.thrown.None? && setup.data != [] && SetsUp(ch, Fresh(chan), setup)
    requires ch.send(setup.chan, data).thrown.None?
    ensures var flight, more := setup.data, ch.send(setup.chan, data).data;
            var (e2, e3) := Returns<C>(n, m, nestedFirst);
            var es := [StartHandshake(setup), StartWrite(data)] + [e2, e3];
            && Allowed(ch, Start(chan), es)
            && var t := Run(ch, Start(chan), es);
            && (IntactAt(t, Books(ch, Start(chan), Blank, es)) <==> n == 0 || m == 0)
            && (n >= |flight| && m >= |flight + more| ==>
                  t.conn.wire == if nestedFirst then flight + (flight + more) else flight + more + flight)
  {
    var e0: Event<C>, e1: Event<C> := StartHandshake(setup), StartWrite(data);
    var (e2, e3) := Returns<C>(n, m, nestedFirst);
    FlightIsJoined(ch, chan, setup, data);
    var t := Step(ch, Step(ch, Start(chan), e0), e1);
    JoinedReturns(ch, t, setup.data, t.writer.inFlight, n, m, nestedFirst);
    UnrolledTwice(ch, Start(chan), Blank, e0, e1, [e2, e3]);
  }

  /** From a stream with nothing sent and both writes in flight. */
  lemma JoinedReturns<C>(ch: Channel<C>, t: Sys<C>, flight: Bytes, all: Bytes, n: nat, m: nat, nestedFirst: bool)
    requires t.reader == ShakeWriting(0, 0, flight) && flight != [] && t.conn.wire == [] && t.conn.Settled() == 0
    requires t.writer.Writing? && t.writer.at == 0 && t.writer.inFlight == all && all != []
    requires Kept(t, Blank) && IntactAt(t, Blank)
    ensures var (e2, e3) := Returns<C>(n, m, nestedFirst);
            && Allowed(ch, t, [e2, e3])
            && (IntactAt(Run(ch, t, [e2, e3]), Books(ch, t, Blank, [e2, e3])) <==> n == 0 || m == 0)
            && (n >= |flight| && m >= |all| ==>
                  Run(ch, t, [e2, e3]).conn.wire == if nestedFirst then flight + all else all + flight)
  {
    OverlapDuplicates(ch, t, Blank, n, m, nestedFirst);
    TakenWhole(flight, n);
    TakenWhole(all, m);
    assert [] + flight == flight && [] + all == all;
  }

  lemma TakenWhole(bytes: Bytes, n: nat)
    ensures n >= |bytes| ==> Taken(bytes, Wrote(n)) == bytes
  {
  }

  // ----- a flight cut short

  lemma FlightIsCut<C>(ch: Channel<C>, sys: Sys<C>, l: Ledger, data: Bytes)
    requires sys.reader.ShakeWriting? && sys.writer.NoWriter? && Kept(sys, l)
    requires sys.reader.at == sys.conn.Settled() && EncryptError(ch, sys.conn, data).Failed()
    ensures var e: Event<C> := StartWrite(data);
            && Enabled(ch, sys, e) && Discards(ch, sys, e)
            && var t, l' := Step(ch, sys, e), Enter(ch, sys, l, e);
            && t.reader == sys.reader && t.writer.WriteYielded? && Kept(t, l') && l'.sent == l.sent
            && t.conn.wire == sys.conn.wire && t.conn.sendBuffer == [] && sys.conn.emitted <= t.conn.emitted
            && |t.conn.emitted| == sys.conn.Settled() + |Encrypt(ch, sys.conn, data).sendBuffer|
  {
    var e: Event<C> := StartWrite(data);
    DiscardPlaces(ch, sys, e);
    StepKept(ch, sys, l, e);
  }

  /**
   A write refused while a handshake's flight is in flight: the handshake's write
   ends with its next return, what is lost is exactly what of the discarded bytes
   the network had not taken, and so nothing is lost exactly if it took them all.
   */
  lemma FailedEncryptionCutsTheFlight<C>(ch: Channel<C>, sys: Sys<C>, l: Ledger, data: Bytes, n: nat, p: int)
    requires sys.reader.ShakeWriting? && sys.writer.NoWriter? && Kept(sys, l) && IntactAt(sys, l)
    requires sys.reader.at == sys.conn.Settled() && EncryptError(ch, sys.conn, data).Failed()
    ensures var es := [StartWrite(data), NestedArrives(Wrote(n))];
            var flight, at := sys.reader.inFlight, sys.reader.at;
            var k := Min(n, |flight|);
            && Allowed(ch, sys, es)
            && var t, l' := Run(ch, sys, es), Books(ch, sys, l, es);
            && t.conn.wire == sys.conn.wire + flight[..k]
            && t.conn.sendBuffer == [] && !t.reader.ShakeWriting?
            && IntactAt(t, l')
            && (Missing(PlaceOf(t), l', p) <==> Missing(PlaceOf(sys), l, p) || at + k <= p < |t.conn.emitted|)
  {
    var e0: Event<C>, e1: Event<C> := StartWrite(data), NestedArrives(Wrote(n));
    FlightIsCut(ch, sys, l, data);
    var t, l' := Step(ch, sys, e0), Enter(ch, sys, l, e0);
    ArrivalMoves(ch, t, e1);
    NestedGoesOn(ch, t, Wrote(n));
    TwoSteps(ch, sys, l, e0, e1);
    RunExact(ch, sys, l, [e0, e1]);
    CutIsAccounted(ch, sys, l, data, n);
    OnlyRefusalsAndReturnsLose(ch, sys, l, e0, p);
    OnlyRefusalsAndReturnsLose(ch, t, l', e1, p);
    CutFlight(PlaceOf(t), l', true, |TakenBy(t, e1)|, p);
  }

  /** What the cut flight leaves behind was discarded, so nothing goes astray. */
  lemma CutIsAccounted<C>(ch: Channel<C>, sys: Sys<C>, l: Ledger, data: Bytes, n: nat)
    requires sys.reader.ShakeWriting? && sys.writer.NoWriter? && Kept(sys, l)
    requires sys.reader.at == sys.conn.Settled() && EncryptError(ch, sys.conn, data).Failed()
    ensures var e: Event<C> := StartWrite(data);
            !GoesAstray(Step(ch, sys, e), Enter(ch, sys, l, e), NestedArrives(Wrote(n)))
  {
    var e: Event<C> := StartWrite(data);
    FlightIsCut(ch, sys, l, data);
    var t, l' := Step(ch, sys, e), Enter(ch, sys, l, e);
    var k := |TakenBy(t, NestedArrives(Wrote(n)))|;
    forall p ensures LeftBehind(PlaceOf(t), l', NestedFlight(t), CallerFlight(t), k, p) ==> p in l'.discarded {
      CutFlight(PlaceOf(t), l', true, k, p);
      InRange(l.discarded, sys.conn.Settled(), |Encrypt(ch, sys.conn, data).sendBuffer|, p);
    }
    CutFlight(PlaceOf(t), l', true, k, 0);
  }

  /**
   The same from the very start: a client's first flight, and a caller whose early
   write the channel refuses.  The peer receives the flight up to what the network
   took before the refusal was noticed, and all of what was emitted exactly if that
   was the whole flight and the refusal added nothing to it.
   */
  lemma FirstFlightCut<C>(ch: Channel<C>, chan: C, setup: Emission<C>, data: Bytes, n: nat, p: int)
    requires setup.thrown.None? && setup.data != [] && SetsUp(ch, Fresh(chan), setup)
    requires ch.send(setup.chan, data).thrown.Some?
    ensures var flight, more := setup.data, ch.send(setup.chan, data).data;
            var es := [StartHandshake(setup), StartWrite(data), NestedArrives(Wrote(n))];
            && Allowed(ch, Start(chan), es)
            && var t, l := Run(ch, Start(chan), es), Books(ch, Start(chan), Blank, es);
            && t.conn.wire == flight[..Min(n, |flight|)] && t.conn.emitted == flight + more
            && t.conn.sendBuffer == [] && !t.reader.ShakeWriting? && IntactAt(t, l)
            && (Missing(PlaceOf(t), l, p) <==> Min(n, |flight|) <= p < |flight + more|)
            && (t.conn.wire == t.conn.emitted <==> n >= |flight| && more == [])
  {
    var e0: Event<C>, e1: Event<C>, e2: Event<C> := StartHandshake(setup), StartWrite(data), NestedArrives(Wrote(n));
    FlightTakesOff(ch, chan, setup);
    var s := Step(ch, Start(chan), e0);
    FailedEncryptionCutsTheFlight(ch, s, Blank, data, n, p);
    Unrolled(ch, Start(chan), Blank, e0, [e1, e2]);
    assert [e0] + [e1, e2] == [e0, e1, e2];
    FirstFlightEmits(ch, s, data, n);
  }

  lemma FirstFlightEmits<C>(ch: Channel<C>, s: Sys<C>, data: Bytes, n: nat)
    requires s.reader.ShakeWriting? && s.writer.NoWriter? && EncryptError(ch, s.conn, data).Failed()
    requires Allowed(ch, s, [StartWrite(data), NestedArrives(Wrote(n))])
    ensures Run(ch, s, [StartWrite(data), NestedArrives(Wrote(n))]).conn.emitted
            == s.conn.emitted + ch.send(s.conn.chan, data).data
  {
    var t := Step(ch, s, StartWrite(data));
    assert t.reader == s.reader;
    ArrivalMoves(ch, t, NestedArrives(Wrote(n)));
    TwoSteps(ch, s, Blank, StartWrite(data), NestedArrives(Wrote(n)));
  }

  // ----- bytes lost from a refilled buffer

  /**
   A flight whose bytes were discarded, over a buffer that holds new bytes no write
   has in flight: every byte the flight sends costs the buffer one, and that is lost
   for good.
   */
  lemma RefilledBufferLoses<C>(ch: Channel<C>, sys: Sys<C>, l: Ledger, n: nat)
    requires sys.reader.ShakeWriting? && !sys.writer.Writing? && Kept(sys, l)
    requires sys.reader.inFlight != [] && sys.reader.at + |sys.reader.inFlight| <= sys.conn.Settled()
    requires sys.conn.sendBuffer != [] && n > 0
    ensures var e, k := NestedArrives(Wrote(n)), Min(n, |sys.reader.inFlight|);
            && Enabled(ch, sys, e)
            && var t, l' := Step(ch, sys, e), Enter(ch, sys, l, e);
            && !IntactAt(t, l') && t.conn.wire == sys.conn.wire + sys.reader.inFlight[..k]
            && t.conn.sendBuffer == sys.conn.sendBuffer[Min(k, |sys.conn.sendBuffer|)..]
            && forall p :: sys.conn.Settled() <= p < sys.conn.Settled() + Min(k, |sys.conn.sendBuffer|)
                           ==> Missing(PlaceOf(t), l', p) && p !in l'.discarded
  {
    var e: Event<C> := NestedArrives(Wrote(n));
    var k := |TakenBy(sys, e)|;
    ArrivalMoves(ch, sys, e);
    StepExact(ch, sys, l, e);
    forall p | sys.conn.Settled() <= p < sys.conn.Settled() + Min(k, |sys.conn.sendBuffer|)
      ensures Missing(PlaceOf(Step(ch, sys, e)), Enter(ch, sys, l, e), p) && p !in l.discarded
    {
      RefilledFlight(PlaceOf(sys), l, true, k, p);
      OnlyRefusalsAndReturnsLose(ch, sys, l, e, p);
    }
    RefilledFlight(PlaceOf(sys), l, true, k, sys.conn.Settled());
  }

  /** A blocking write that the network fails leaves its bytes in the send buffer. */
  lemma BufferIsRefilled<C>(ch: Channel<C>, sys: Sys<C>, l: Ledger, data: Bytes, error: Failure)
    requires sys.writer.NoWriter? && sys.conn.sendBuffer == [] && Kept(sys, l)
    requires ch.send(sys.conn.chan, data).thrown.None? && ch.send(sys.conn.chan, data).data != []
    ensures var e: Event<C> := SyncWrite(data, [WriteFail(error)]);
            && Enabled(ch, sys, e)
            && var t := Step(ch, sys, e);
            && t.reader == sys.reader && t.writer == sys.writer && t.conn.wire == sys.conn.wire
            && t.conn.Settled() == sys.conn.Settled() && t.conn.sendBuffer == ch.send(sys.conn.chan, data).data
            && Kept(t, Enter(ch, sys, l, e))
  {
    var e: Event<C> := SyncWrite(data, [WriteFail(error)]);
    assert [] + ch.send(sys.conn.chan, data).data == ch.send(sys.conn.chan, data).data;
    StepKept(ch, sys, l, e);
  }

  /** A refused write during a first flight, reported to its caller. */
  lemma RefusalIsReported<C>(ch: Channel<C>, chan: C, setup: Emission<C>, data: Bytes)
    requires setup.thrown.None? && setup.data != [] && SetsUp(ch, Fresh(chan), setup)
    requires ch.send(setup.chan, data).thrown.Some?
    ensures var e0: Event<C>, e1: Event<C>, e2: Event<C> :=
              StartHandshake(setup), StartWrite(data), WriteResumed(Success);
            && Enabled(ch, Start(chan), e0) && Enabled(ch, Step(ch, Start(chan), e0), e1)
            && var s := Step(ch, Step(ch, Start(chan), e0), e1);
            && Enabled(ch, s, e2)
            && var t := Step(ch, s, e2);
            && t.reader == ShakeWriting(0, 0, setup.data) && t.writer.NoWriter?
            && t.conn.chan == ch.send(setup.chan, data).chan
            && t.conn.sendBuffer == [] && t.conn.wire == [] && t.conn.Settled() >= |setup.data|
            && Kept(t, Enter(ch, s, Enter(ch, Step(ch, Start(chan), e0), Enter(ch, Start(chan), Blank, e0), e1), e2))
  {
    var e0: Event<C>, e1: Event<C>, e2: Event<C> := StartHandshake(setup), StartWrite(data), WriteResumed(Success);
    FlightTakesOff(ch, chan, setup);
    var s0 := Step(ch, Start(chan), e0);
    FlightIsCut(ch, s0, Blank, data);
    StepKept(ch, Step(ch, s0, e1), Enter(ch, s0, Blank, e1), e2);
  }

  /**
   A new stream: its first flight in flight, a caller's write refused, and then a
   blocking write that the channel accepts and the network fails.  Each byte the
   network takes of the flight is one of the later write lost.
   */
  lemma RefillIsLost<C>(ch: Channel<C>, chan: C, setup: Emission<C>, data: Bytes, later: Bytes, error: Failure, n: nat)
    requires setup.thrown.None? && setup.data != [] && SetsUp(ch, Fresh(chan), setup)
    requires ch.send(setup.chan, data).thrown.Some? && n > 0
    requires var e := ch.send(ch.send(setup.chan, data).chan, later); e.thrown.None? && e.data != []
    ensures var es := [StartHandshake(setup), StartWrite(data)]
                      + ([WriteResumed(Success), SyncWrite(later, [WriteFail(error)])] + [NestedArrives(Wrote(n))]);
            var refill, k := ch.send(ch.send(setup.chan, data).chan, later).data, Min(n, |setup.data|);
            && Allowed(ch, Start(chan), es)
            && var t := Run(ch, Start(chan), es);
            && !IntactAt(t, Books(ch, Start(chan), Blank, es))
            && t.conn.wire == setup.data[..k] && t.conn.sendBuffer == refill[Min(k, |refill|)..]
  {
    var e0: Event<C>, e1: Event<C>, e2: Event<C> := StartHandshake(setup), StartWrite(data), WriteResumed(Success);
    var e3: Event<C>, e4: Event<C> := SyncWrite(later, [WriteFail(error)]), NestedArrives(Wrote(n));
    RefusalIsReported(ch, chan, setup, data);
    var l1 := Enter(ch, Start(chan), Blank, e0);
    var s2 := Step(ch, Step(ch, Start(chan), e0), e1);
    var l2 := Enter(ch, Step(ch, Start(chan), e0), l1, e1);
    var s3, l3 := Step(ch, s2, e2), Enter(ch, s2, l2, e2);
    BufferIsRefilled(ch, s3, l3, later, error);
    var s4, l4 := Step(ch, s3, e3), Enter(ch, s3, l3, e3);
    RefilledBufferLoses(ch, s4, l4, n);
    LastStep(ch, s4, l4, e4);
    UnrolledTwice(ch, s2, l2, e2, e3, [e4]);
    UnrolledTwice(ch, Start(chan), Blank, e0, e1, [e2, e3] + [e4]);
  }

  lemma LastStep<C>(ch: Channel<C>, sys: Sys<C>, l: Ledger, e: Event<C>)
    requires Enabled(ch, sys, e)
    ensures Allowed(ch, sys, [e]) && Run(ch, sys, [e]) == Step(ch, sys, e)
    ensures Books(ch, sys, l, [e]) == Enter(ch, sys, l, e)
  {
    Unrolled(ch, sys, l, e, []);
    assert [e] + [] == [e];
  }
}
