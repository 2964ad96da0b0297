/**
 The wire over whole runs: exactly when each emitted byte is sent once and in
 order, the ways in which overlapping writes prevent it, and what finished writes
 and handshakes promise.
 */
module TlsWireRuns {
  import opened Common
  import opened TlsModel
  import opened TlsAsync
  import opened TlsInvariant
  import opened TlsWire
  import opened TlsLedger
  import opened TlsSystem
  import opened TlsRuns

  // ----- the account of a run

  function NestedFlight<C>(sys: Sys<C>): Flight {
    if sys.reader.ShakeWriting? then Flight(sys.reader.at, sys.reader.at + |sys.reader.inFlight|) else Grounded
  }

  function CallerFlight<C>(sys: Sys<C>): Flight {
    if sys.writer.Writing? then Flight(sys.writer.at, sys.writer.at + |sys.writer.inFlight|) else Grounded
  }

  function PlaceOf<C>(sys: Sys<C>): Place {
    Place(sys.conn.Settled(), |sys.conn.emitted|, NestedFlight(sys), CallerFlight(sys))
  }

  predicate Arrival<C>(e: Event<C>) {
    e.WriteArrives? || e.NestedArrives?
  }

  /** A write whose encryption fails. */
  predicate Discards<C>(ch: Channel<C>, sys: Sys<C>, e: Event<C>) {
    e.StartWrite? && EncryptError(ch, sys.conn, e.data).Failed()
  }

  /** How much longer the wire has become. */
  function Growth<C>(s: Conn<C>, t: Conn<C>): nat {
    if |s.wire| <= |t.wire| then |t.wire| - |s.wire| else 0
  }

  /** The ledger after step `e` has led to `t`. */
  function Entry<C>(ch: Channel<C>, sys: Sys<C>, l: Ledger, e: Event<C>, t: Sys<C>): Ledger {
    var s := sys.conn;
    if Discards(ch, sys, e) then l.Discard(s.Settled(), |Encrypt(ch, s, e.data).sendBuffer|)
    else if Arrival(e) then l.Send(Own(PlaceOf(sys), e.NestedArrives?).at, |TakenBy(sys, e)|)
    else l.Send(s.Settled(), Growth(s, t.conn))
  }

  function Enter<C>(ch: Channel<C>, sys: Sys<C>, l: Ledger, e: Event<C>): Ledger
    requires Enabled(ch, sys, e)
  {
    Entry(ch, sys, l, e, Step(ch, sys, e))
  }

  /** The ledger after a run. */
  function Books<C>(ch: Channel<C>, sys: Sys<C>, l: Ledger, es: seq<Event<C>>): Ledger
    requires Allowed(ch, sys, es)
    decreases |es|
  {
    if es == [] then l else Books(ch, Step(ch, sys, es[0]), Enter(ch, sys, l, es[0]), es[1..])
  }

  // ----- the account is about the bytes

  /** A flight of bytes from position `at`, taken from the send buffer when that was its head. */
  predicate Carries<C>(s: Conn<C>, at: int, bytes: Bytes) {
    0 <= at <= s.Settled() && at + |bytes| <= |s.emitted| && bytes == s.emitted[at..at + |bytes|]
  }

  predicate Carried<C>(sys: Sys<C>) {
    && Tail(sys.conn)
    && (sys.reader.ShakeWriting? ==> Carries(sys.conn, sys.reader.at, sys.reader.inFlight))
    && (sys.writer.Writing? ==> Carries(sys.conn, sys.writer.at, sys.writer.inFlight))
  }

  /** The wire holds the bytes at the positions sent. */
  predicate Traced<C>(s: Conn<C>, l: Ledger) {
    && |l.sent| == |s.wire|
    && forall j :: 0 <= j < |l.sent| ==> 0 <= l.sent[j] < |s.emitted| && s.wire[j] == s.emitted[l.sent[j]]
  }

  /** What holds of the ledger in every run, intact or not. */
  predicate Kept<C>(sys: Sys<C>, l: Ledger) {
    Carried(sys) && Entered(PlaceOf(sys), l) && Traced(sys.conn, l)
  }

  /** A flight is not disturbed by what is emitted or sent beside it. */
  lemma CarriesOn<C>(s: Conn<C>, t: Conn<C>, at: int, bytes: Bytes)
    requires Carries(s, at, bytes) && s.emitted <= t.emitted && s.Settled() <= t.Settled()
    ensures Carries(t, at, bytes)
  {
    assert t.emitted[..|s.emitted|] == s.emitted;
  }

  lemma TraceOn<C>(s: Conn<C>, l: Ledger, t: Conn<C>, from: int, n: nat)
    requires Traced(s, l) && s.emitted <= t.emitted
    requires 0 <= from && from + n <= |t.emitted| && t.wire == s.wire + t.emitted[from..from + n]
    ensures Traced(t, l.Send(from, n))
  {
    var l' := l.Send(from, n);
    forall j | 0 <= j < |l'.sent|
      ensures 0 <= l'.sent[j] < |t.emitted| && t.wire[j] == t.emitted[l'.sent[j]]
    {
      if j < |l.sent| {
        assert l'.sent[j] == l.sent[j] && t.wire[j] == s.wire[j];
        assert t.emitted[l.sent[j]] == s.emitted[l.sent[j]];
      } else {
        assert l'.sent[j] == from + (j - |l.sent|);
      }
    }
  }

  // ----- steps that flow

  lemma ReadingFlows<C>(ch: Channel<C>, sys: Sys<C>, e: Event<C>)
    requires Enabled(ch, sys, e) && (e.StartRead? || e.ReadArrives? || e.SyncRead?)
    ensures var t := Step(ch, sys, e).conn; Flows(sys.conn, t) && t.wire == sys.conn.wire
  {
    if e.ReadArrives? {
      ProcessFlows(ch, sys.conn, ArrivedData(e.arrived));
    } else if e.SyncRead? {
      ReadSomeFlows(ch, sys.conn, e.size, Success, e.incoming);
    }
  }

  lemma BlockingHandshakeFlows<C>(ch: Channel<C>, sys: Sys<C>, e: Event<C>)
    requires Enabled(ch, sys, e) && e.SyncHandshake?
    ensures Flows(sys.conn, Step(ch, sys, e).conn)
  {
    var s0, r := sys.conn.Absorb(e.setup), Step(ch, sys, e).conn;
    AbsorbFlows(sys.conn, e.setup);
    HandshakeFlows(ch, s0, e.setup.Error(), e.incoming, e.outgoing);
    FlowsThrough(sys.conn, s0, r);
  }

  lemma BlockingWriteFlows<C>(ch: Channel<C>, sys: Sys<C>, e: Event<C>)
    requires Enabled(ch, sys, e) && (e.SyncWrite? || e.SyncShutdown?)
    ensures Flows(sys.conn, Step(ch, sys, e).conn)
  {
    var s := sys.conn;
    var sent := if e.SyncWrite? then ch.send(s.chan, e.data) else ch.close(s.chan);
    AbsorbFlows(s, sent);
    FlushFlows(s.Absorb(sent), sent.Error(), e.outgoing);
    FlowsThrough(s, s.Absorb(sent), Step(ch, sys, e).conn);
  }

  lemma StartFlows<C>(ch: Channel<C>, sys: Sys<C>, e: Event<C>)
    requires Enabled(ch, sys, e) && !Discards(ch, sys, e)
    requires e.StartHandshake? || e.StartWrite? || e.StartShutdown?
    ensures var t := Step(ch, sys, e).conn; Flows(sys.conn, t) && t.wire == sys.conn.wire
  {
    var s := sys.conn;
    AbsorbFlows(s, if e.StartHandshake? then e.setup
                   else if e.StartWrite? then ch.send(s.chan, e.data) else ch.close(s.chan));
  }

  /** Every step is a flow, except a discard and the return of a write in flight. */
  lemma StepFlows<C>(ch: Channel<C>, sys: Sys<C>, e: Event<C>)
    requires Enabled(ch, sys, e) && !Arrival(e) && !Discards(ch, sys, e)
    ensures Flows(sys.conn, Step(ch, sys, e).conn)
  {
    if e.StartRead? || e.ReadArrives? || e.SyncRead? {
      ReadingFlows(ch, sys, e);
    } else if e.SyncHandshake? {
      BlockingHandshakeFlows(ch, sys, e);
    } else if e.SyncWrite? || e.SyncShutdown? {
      BlockingWriteFlows(ch, sys, e);
    } else if e.StartHandshake? || e.StartWrite? || e.StartShutdown? {
      StartFlows(ch, sys, e);
    }
  }

  /** A slot keeps its flight, or starts one with the whole send buffer. */
  predicate SlotsGoOn<C>(sys: Sys<C>, t: Sys<C>) {
    && (t.reader == sys.reader || (!sys.reader.ShakeWriting? &&
          (t.reader.ShakeWriting? ==> t.reader.at == t.conn.Settled() && t.reader.inFlight == t.conn.sendBuffer)))
    && (t.writer == sys.writer || (!sys.writer.Writing? &&
          (t.writer.Writing? ==> t.writer.at == t.conn.Settled() && t.writer.inFlight == t.conn.sendBuffer)))
  }

  lemma ReaderSlots<C>(ch: Channel<C>, sys: Sys<C>, e: Event<C>)
    requires Enabled(ch, sys, e) && (e.StartRead? || e.StartHandshake? || e.ReadArrives? || e.ReadResumed?)
    ensures SlotsGoOn(sys, Step(ch, sys, e))
  {
  }

  lemma WriterSlots<C>(ch: Channel<C>, sys: Sys<C>, e: Event<C>)
    requires Enabled(ch, sys, e) && (e.StartWrite? || e.StartShutdown? || e.WriteResumed?)
    ensures SlotsGoOn(sys, Step(ch, sys, e))
  {
  }

  lemma StepSlots<C>(ch: Channel<C>, sys: Sys<C>, e: Event<C>)
    requires Enabled(ch, sys, e) && !Arrival(e)
    ensures SlotsGoOn(sys, Step(ch, sys, e))
  {
    if e.StartRead? || e.StartHandshake? || e.ReadArrives? || e.ReadResumed? {
      ReaderSlots(ch, sys, e);
    } else if e.StartWrite? || e.StartShutdown? || e.WriteResumed? {
      WriterSlots(ch, sys, e);
    }
  }

  /** A flow of the stream beside slots that go on is a flow of the account. */
  lemma FlowPlaces<C>(sys: Sys<C>, t: Sys<C>)
    requires Carried(sys) && Flows(sys.conn, t.conn) && SlotsGoOn(sys, t)
    ensures Carried(t) && FlowStep(PlaceOf(sys), PlaceOf(t), Growth(sys.conn, t.conn))
  {
    var s, u := sys.conn, t.conn;
    FlowPositions(s, u);
    if sys.reader.ShakeWriting? {
      CarriesOn(s, u, sys.reader.at, sys.reader.inFlight);
    }
    if sys.writer.Writing? {
      CarriesOn(s, u, sys.writer.at, sys.writer.inFlight);
    }
    assert u.emitted[u.Settled()..|u.emitted|] == u.emitted[u.Settled()..];
  }

  lemma FlowKept<C>(sys: Sys<C>, l: Ledger, t: Sys<C>)
    requires Kept(sys, l) && Flows(sys.conn, t.conn) && SlotsGoOn(sys, t)
    ensures Kept(t, l.Send(sys.conn.Settled(), Growth(sys.conn, t.conn)))
  {
    FlowPlaces(sys, t);
    FlowEnters(PlaceOf(sys), l, PlaceOf(t), Growth(sys.conn, t.conn));
    FlowPositions(sys.conn, t.conn);
    TraceOn(sys.conn, l, t.conn, sys.conn.Settled(), Growth(sys.conn, t.conn));
  }

  // ----- steps that discard

  lemma DiscardPlaces<C>(ch: Channel<C>, sys: Sys<C>, e: Event<C>)
    requires Enabled(ch, sys, e) && Discards(ch, sys, e) && Carried(sys)
    ensures var t := Step(ch, sys, e);
            && Carried(t) && t.conn.wire == sys.conn.wire && t.conn.sendBuffer == []
            && sys.conn.emitted <= t.conn.emitted && t.reader == sys.reader && t.writer.WriteYielded?
            && DiscardStep(PlaceOf(sys), PlaceOf(t), |Encrypt(ch, sys.conn, e.data).sendBuffer|)
  {
    var s, t := sys.conn, Step(ch, sys, e);
    assert t.conn == Encrypt(ch, s, e.data).DiscardSendBuffer();
    if sys.reader.ShakeWriting? {
      CarriesOn(s, t.conn, sys.reader.at, sys.reader.inFlight);
    }
  }

  lemma DiscardKept<C>(ch: Channel<C>, sys: Sys<C>, l: Ledger, e: Event<C>)
    requires Enabled(ch, sys, e) && Discards(ch, sys, e) && Kept(sys, l)
    ensures Kept(Step(ch, sys, e), Enter(ch, sys, l, e))
  {
    var t := Step(ch, sys, e);
    DiscardPlaces(ch, sys, e);
    DiscardEnters(PlaceOf(sys), l, PlaceOf(t), |Encrypt(ch, sys.conn, e.data).sendBuffer|);
    TraceOn(sys.conn, l, t.conn, 0, 0);
    assert l.sent + Range(0, 0) == l.sent;
  }

  // ----- writes that return

  /** A caller's finished write takes up what is left in the send buffer, or ends. */
  lemma CallerGoesOn<C>(ch: Channel<C>, sys: Sys<C>, ev: WriteEvent)
    requires Enabled(ch, sys, WriteArrives(ev))
    ensures var t, taken := Step(ch, sys, WriteArrives(ev)), Taken(sys.writer.inFlight, ev);
            && t.conn == sys.conn.Transmit(taken).ConsumeSendBuffer(|taken|)
            && t.reader == sys.reader
            && (if t.writer.Writing?
                then ev.Wrote? && t.writer.at == t.conn.Settled() && t.writer.inFlight == t.conn.sendBuffer != []
                else t.writer.NoWriter?)
  {
    WriteReturnsEffect(sys.conn, sys.writer.inFlight, ev);
  }

  /** What a finished write does to the stream, whichever slot it is in. */
  lemma MovePositions<C>(s: Conn<C>, at: int, bytes: Bytes, k: nat)
    requires Tail(s) && Carries(s, at, bytes) && k <= |bytes|
    ensures var t := s.Transmit(bytes[..k]).ConsumeSendBuffer(k);
            && Tail(t) && t.emitted == s.emitted
            && t.Settled() == (if s.Settled() + k <= |s.emitted| then s.Settled() + k else |s.emitted|)
            && t.wire == s.wire + t.emitted[at..at + k]
  {
    assert bytes[..k] == s.emitted[at..at + k];
  }

  /** The stream and the account after a write of either slot returned. */
  predicate Returned<C>(sys: Sys<C>, t: Sys<C>, isNested: bool, k: nat) {
    var at := Own(PlaceOf(sys), isNested).at;
    && Carried(t) && t.conn.emitted == sys.conn.emitted
    && 0 <= at && at + k <= |t.conn.emitted| && t.conn.wire == sys.conn.wire + t.conn.emitted[at..at + k]
    && Arrives(PlaceOf(sys), PlaceOf(t), isNested, k)
  }

  lemma NestedPlaces<C>(sys: Sys<C>, t: Sys<C>, k: nat)
    requires Carried(sys) && sys.reader.ShakeWriting? && k <= |sys.reader.inFlight|
    requires t.conn == sys.conn.Transmit(sys.reader.inFlight[..k]).ConsumeSendBuffer(k) && t.writer == sys.writer
    requires t.reader.ShakeWriting? ==> t.reader.at == t.conn.Settled() && t.reader.inFlight == t.conn.sendBuffer
    ensures Returned(sys, t, true, k)
  {
    MovePositions(sys.conn, sys.reader.at, sys.reader.inFlight, k);
    assert t.conn.emitted[t.conn.Settled()..|t.conn.emitted|] == t.conn.emitted[t.conn.Settled()..];
    if sys.writer.Writing? {
      CarriesOn(sys.conn, t.conn, sys.writer.at, sys.writer.inFlight);
    }
  }

  lemma CallerPlaces<C>(sys: Sys<C>, t: Sys<C>, k: nat)
    requires Carried(sys) && sys.writer.Writing? && k <= |sys.writer.inFlight|
    requires t.conn == sys.conn.Transmit(sys.writer.inFlight[..k]).ConsumeSendBuffer(k) && t.reader == sys.reader
    requires t.writer.Writing? ==> t.writer.at == t.conn.Settled() && t.writer.inFlight == t.conn.sendBuffer
    ensures Returned(sys, t, false, k)
  {
    MovePositions(sys.conn, sys.writer.at, sys.writer.inFlight, k);
    assert t.conn.emitted[t.conn.Settled()..|t.conn.emitted|] == t.conn.emitted[t.conn.Settled()..];
    if sys.reader.ShakeWriting? {
      CarriesOn(sys.conn, t.conn, sys.reader.at, sys.reader.inFlight);
    }
  }

  lemma TakenIsPrefix(bytes: Bytes, ev: WriteEvent)
    ensures |Taken(bytes, ev)| <= |bytes| && Taken(bytes, ev) == bytes[..|Taken(bytes, ev)|]
  {
  }

  lemma ArrivePlaces<C>(ch: Channel<C>, sys: Sys<C>, e: Event<C>)
    requires Enabled(ch, sys, e) && Arrival(e) && Carried(sys)
    ensures Returned(sys, Step(ch, sys, e), e.NestedArrives?, |TakenBy(sys, e)|)
  {
    var t := Step(ch, sys, e);
    if e.NestedArrives? {
      NestedGoesOn(ch, sys, e.sent);
      TakenIsPrefix(sys.reader.inFlight, e.sent);
      NestedPlaces(sys, t, |TakenBy(sys, e)|);
    } else {
      CallerGoesOn(ch, sys, e.sent);
      TakenIsPrefix(sys.writer.inFlight, e.sent);
      CallerPlaces(sys, t, |TakenBy(sys, e)|);
    }
  }

  lemma ArriveKept<C>(sys: Sys<C>, l: Ledger, t: Sys<C>, isNested: bool, k: nat)
    requires Kept(sys, l) && Returned(sys, t, isNested, k)
    ensures Kept(t, l.Send(Own(PlaceOf(sys), isNested).at, k))
  {
    ArriveEnters(PlaceOf(sys), l, PlaceOf(t), isNested, k);
    TraceOn(sys.conn, l, t.conn, Own(PlaceOf(sys), isNested).at, k);
  }

  // ----- every step

  /** What a step that leads from `sys` to `t` means for the account. */
  predicate Moved<C>(ch: Channel<C>, sys: Sys<C>, e: Event<C>, t: Sys<C>) {
    if Discards(ch, sys, e) then
      DiscardStep(PlaceOf(sys), PlaceOf(t), |Encrypt(ch, sys.conn, e.data).sendBuffer|)
    else if Arrival(e) then Arrives(PlaceOf(sys), PlaceOf(t), e.NestedArrives?, |TakenBy(sys, e)|)
    else FlowStep(PlaceOf(sys), PlaceOf(t), Growth(sys.conn, t.conn))
  }

  lemma StepMoves<C>(ch: Channel<C>, sys: Sys<C>, e: Event<C>)
    requires Enabled(ch, sys, e) && Carried(sys)
    ensures Moved(ch, sys, e, Step(ch, sys, e))
  {
    if Discards(ch, sys, e) {
      DiscardPlaces(ch, sys, e);
    } else if Arrival(e) {
      ArrivePlaces(ch, sys, e);
    } else {
      StepFlows(ch, sys, e);
      StepSlots(ch, sys, e);
      FlowPlaces(sys, Step(ch, sys, e));
    }
  }

  lemma StepKept<C>(ch: Channel<C>, sys: Sys<C>, l: Ledger, e: Event<C>)
    requires Enabled(ch, sys, e) && Kept(sys, l)
    ensures Kept(Step(ch, sys, e), Enter(ch, sys, l, e))
  {
    if Discards(ch, sys, e) {
      DiscardKept(ch, sys, l, e);
    } else if Arrival(e) {
      ArrivePlaces(ch, sys, e);
      ArriveKept(sys, l, Step(ch, sys, e), e.NestedArrives?, |TakenBy(sys, e)|);
    } else {
      StepFlows(ch, sys, e);
      StepSlots(ch, sys, e);
      FlowKept(sys, l, Step(ch, sys, e));
    }
  }

  ghost predicate IntactAt<C>(sys: Sys<C>, l: Ledger) {
    Intact(PlaceOf(sys), l)
  }

  /** A write returns and repeats, reorders or loses bytes. */
  ghost predicate GoesAstray<C>(sys: Sys<C>, l: Ledger, e: Event<C>) {
    var pl := PlaceOf(sys);
    Arrival(e) && Astray(pl, l, Own(pl, e.NestedArrives?), Other(pl, e.NestedArrives?), |TakenBy(sys, e)|)
  }

  lemma MovedExact<C>(ch: Channel<C>, sys: Sys<C>, l: Ledger, e: Event<C>, t: Sys<C>)
    requires Kept(sys, l) && Moved(ch, sys, e, t)
    ensures IntactAt(t, Entry(ch, sys, l, e, t)) <==> IntactAt(sys, l) && !GoesAstray(sys, l, e)
  {
    if Discards(ch, sys, e) {
      DiscardExact(PlaceOf(sys), l, PlaceOf(t), |Encrypt(ch, sys.conn, e.data).sendBuffer|);
    } else if Arrival(e) {
      ArriveExact(PlaceOf(sys), l, PlaceOf(t), e.NestedArrives?, |TakenBy(sys, e)|);
    } else {
      FlowExact(PlaceOf(sys), l, PlaceOf(t), Growth(sys.conn, t.conn));
    }
  }

  /** A step leaves the account intact exactly if it was and no returning write goes astray. */
  lemma StepExact<C>(ch: Channel<C>, sys: Sys<C>, l: Ledger, e: Event<C>)
    requires Enabled(ch, sys, e) && Kept(sys, l)
    ensures IntactAt(Step(ch, sys, e), Enter(ch, sys, l, e)) <==> IntactAt(sys, l) && !GoesAstray(sys, l, e)
  {
    StepMoves(ch, sys, e);
    MovedExact(ch, sys, l, e, Step(ch, sys, e));
  }

  /** What step `e` loses. */
  predicate Loses<C>(ch: Channel<C>, sys: Sys<C>, l: Ledger, e: Event<C>, p: int) {
    var pl := PlaceOf(sys);
    || (Discards(ch, sys, e) && !pl.InFlight(p)
        && pl.settled <= p < pl.settled + |Encrypt(ch, sys.conn, e.data).sendBuffer|)
    || (Arrival(e) && LeftBehind(pl, l, Own(pl, e.NestedArrives?), Other(pl, e.NestedArrives?), |TakenBy(sys, e)|, p))
  }

  lemma MovedLoses<C>(ch: Channel<C>, sys: Sys<C>, l: Ledger, e: Event<C>, t: Sys<C>, p: int)
    requires Kept(sys, l) && Moved(ch, sys, e, t)
    ensures Missing(PlaceOf(t), Entry(ch, sys, l, e, t), p) <==> Missing(PlaceOf(sys), l, p) || Loses(ch, sys, l, e, p)
  {
    if Discards(ch, sys, e) {
      DiscardMisses(PlaceOf(sys), l, PlaceOf(t), |Encrypt(ch, sys.conn, e.data).sendBuffer|, p);
    } else if Arrival(e) {
      ArriveMisses(PlaceOf(sys), l, PlaceOf(t), e.NestedArrives?, |TakenBy(sys, e)|, p);
    } else {
      FlowMisses(PlaceOf(sys), l, PlaceOf(t), Growth(sys.conn, t.conn), p);
    }
  }

  /**
   Which bytes go missing in a step: a refused write loses what was in the send
   buffer and in no flight, a returning write what it leaves behind, and no other
   step anything.  What is missing is never sent after all.
   */
  lemma OnlyRefusalsAndReturnsLose<C>(ch: Channel<C>, sys: Sys<C>, l: Ledger, e: Event<C>, p: int)
    requires Enabled(ch, sys, e) && Kept(sys, l)
    ensures Missing(PlaceOf(Step(ch, sys, e)), Enter(ch, sys, l, e), p)
            <==> Missing(PlaceOf(sys), l, p) || Loses(ch, sys, l, e, p)
  {
    StepMoves(ch, sys, e);
    MovedLoses(ch, sys, l, e, Step(ch, sys, e), p);
  }

  // ----- whole runs

  /** No write of the run repeats, reorders or loses bytes when it returns. */
  ghost predicate NeverAstray<C>(ch: Channel<C>, sys: Sys<C>, l: Ledger, es: seq<Event<C>>)
    requires Allowed(ch, sys, es)
    decreases |es|
  {
    es == [] || (!GoesAstray(sys, l, es[0])
                 && NeverAstray(ch, Step(ch, sys, es[0]), Enter(ch, sys, l, es[0]), es[1..]))
  }

  lemma {:induction false} RunExact<C>(ch: Channel<C>, sys: Sys<C>, l: Ledger, es: seq<Event<C>>)
    requires Allowed(ch, sys, es) && Kept(sys, l)
    ensures Kept(Run(ch, sys, es), Books(ch, sys, l, es))
    ensures IntactAt(Run(ch, sys, es), Books(ch, sys, l, es)) <==> IntactAt(sys, l) && NeverAstray(ch, sys, l, es)
    decreases |es|
  {
    if es != [] {
      StepKept(ch, sys, l, es[0]);
      StepExact(ch, sys, l, es[0]);
      RunExact(ch, Step(ch, sys, es[0]), Enter(ch, sys, l, es[0]), es[1..]);
    }
  }

  /**
   In every run, however operations overlap, the wire holds the emitted bytes at
   the positions the ledger says; and at its end each byte was sent at most once
   and in order, with none missing but what failed encryptions discarded, exactly
   when no write of the run went astray when it returned.
   */
  lemma RunsConserveExactly<C>(ch: Channel<C>, chan: C, es: seq<Event<C>>)
    requires Allowed(ch, Start(chan), es)
    ensures var sys, l := Run(ch, Start(chan), es), Books(ch, Start(chan), Blank, es);
            && Traced(sys.conn, l)
            && (IntactAt(sys, l) <==> NeverAstray(ch, Start(chan), Blank, es))
  {
    RunExact(ch, Start(chan), Blank, es);
  }

  // ----- runs without discards

  /** While nothing was discarded, everything out of the send buffer was sent. */
  ghost predicate Honest<C>(sys: Sys<C>, l: Ledger) {
    Kept(sys, l) && IntactAt(sys, l) && (l.discarded == [] ==> Complete(PlaceOf(sys), l))
  }

  lemma MovedCompletes<C>(ch: Channel<C>, sys: Sys<C>, l: Ledger, e: Event<C>, t: Sys<C>)
    requires Kept(sys, l) && Moved(ch, sys, e, t) && Complete(PlaceOf(sys), l) && !GoesAstray(sys, l, e)
    requires Entry(ch, sys, l, e, t).discarded == []
    ensures Complete(PlaceOf(t), Entry(ch, sys, l, e, t))
  {
    if Discards(ch, sys, e) {
      assert |Encrypt(ch, sys.conn, e.data).sendBuffer| == |Entry(ch, sys, l, e, t).discarded| - |l.discarded| == 0;
    } else if Arrival(e) {
      ArriveCompletes(PlaceOf(sys), l, PlaceOf(t), e.NestedArrives?, |TakenBy(sys, e)|);
    } else {
      FlowCompletes(PlaceOf(sys), l, PlaceOf(t), Growth(sys.conn, t.conn));
    }
  }

  lemma HonestStep<C>(ch: Channel<C>, sys: Sys<C>, l: Ledger, e: Event<C>)
    requires Enabled(ch, sys, e) && Honest(sys, l) && !GoesAstray(sys, l, e)
    ensures Honest(Step(ch, sys, e), Enter(ch, sys, l, e))
  {
    StepKept(ch, sys, l, e);
    StepExact(ch, sys, l, e);
    var l' := Enter(ch, sys, l, e);
    if l'.discarded == [] {
      assert |l.discarded| <= |l'.discarded|;
      StepMoves(ch, sys, e);
      MovedCompletes(ch, sys, l, e, Step(ch, sys, e));
    }
  }

  lemma {:induction false} HonestRun<C>(ch: Channel<C>, sys: Sys<C>, l: Ledger, es: seq<Event<C>>)
    requires Allowed(ch, sys, es) && Honest(sys, l) && NeverAstray(ch, sys, l, es)
    ensures Honest(Run(ch, sys, es), Books(ch, sys, l, es))
    decreases |es|
  {
    if es != [] {
      HonestStep(ch, sys, l, es[0]);
      HonestRun(ch, Step(ch, sys, es[0]), Enter(ch, sys, l, es[0]), es[1..]);
    }
  }

  /** Where nothing was discarded or lost, the wire is what was emitted up to the send buffer. */
  lemma HonestWire<C>(sys: Sys<C>, l: Ledger)
    requires Honest(sys, l) && l.discarded == []
    ensures sys.conn.wire + sys.conn.sendBuffer == sys.conn.emitted
    ensures forall mark: nat :: mark <= sys.conn.Settled() ==> sys.conn.emitted[..mark] <= sys.conn.wire
  {
    var s := sys.conn;
    CompleteInOrder(PlaceOf(sys), l);
    assert s.wire == s.emitted[..s.Settled()];
    assert s.emitted == s.emitted[..s.Settled()] + s.emitted[s.Settled()..];
  }

  /** A run in which no write went astray and nothing was discarded has conserved the wire, byte for byte. */
  lemma UndiscardedRunsConserve<C>(ch: Channel<C>, chan: C, es: seq<Event<C>>)
    requires Allowed(ch, Start(chan), es) && NeverAstray(ch, Start(chan), Blank, es)
    requires Books(ch, Start(chan), Blank, es).discarded == []
    ensures var s := Run(ch, Start(chan), es).conn; s.wire + s.sendBuffer == s.emitted
  {
    HonestRun(ch, Start(chan), Blank, es);
    HonestWire(Run(ch, Start(chan), es), Books(ch, Start(chan), Blank, es));
  }
}
