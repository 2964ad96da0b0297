/**
 What starting an operation does to the stream, what finished writes report, and
 that all ciphertext the network delivers reaches the channel: told from the
 channel's own answers and the network's, not from the operations.
 */
module TlsReports {
  import opened Common
  import opened TlsModel
  import opened TlsAsync
  import opened TlsInvariant
  import opened TlsSystem
  import opened TlsRuns

  // ----- starting

  /** The stream once the channel has answered `x`. */
  ghost predicate Answered<C>(s: Conn<C>, x: Emission<C>, t: Conn<C>) {
    && t.chan == x.chan && t.emitted == s.emitted + x.data
    && Untouched(s, t) && t.receiveBuffer == s.receiveBuffer && t.violated == s.violated
  }

  /** The slot of a write that was started with this error code over this send buffer. */
  predicate Launched<C>(sys: Sys<C>, t: Sys<C>, ec: ErrorCode) {
    if ec.Failed() || t.conn.sendBuffer == [] then
      t.writer.WriteYielded? && t.writer.id == sys.started && t.writer.ec == ec
    else
      && t.writer.Writing? && t.writer.id == sys.started
      && t.writer.inFlight == t.conn.sendBuffer && t.writer.at == t.conn.Settled()
  }

  /**
   An asynchronous write: what the channel emits joins the send buffer, all of which
   is then in flight, unless the channel refuses, which empties the send buffer.
   The count to report is that of the plain bytes, or nothing after a refusal.
   */
  lemma WriteLaunches<C>(ch: Channel<C>, sys: Sys<C>, data: Bytes)
    requires Enabled(ch, sys, StartWrite(data))
    ensures var t, x := Step(ch, sys, StartWrite(data)), ch.send(sys.conn.chan, data);
            && Answered(sys.conn, x, t.conn) && t.conn.wire == sys.conn.wire && t.reader == sys.reader
            && t.conn.sendBuffer == (if x.thrown.Some? then [] else sys.conn.sendBuffer + x.data)
            && Launched(sys, t, x.Error())
            && t.writer.plain == (if x.thrown.Some? then 0 else |data|)
            && t.writer.mark == |t.conn.emitted|
  {
  }

  /** An asynchronous shutdown: what closing the channel emits joins the send buffer even if it then throws. */
  lemma ShutdownLaunches<C>(ch: Channel<C>, sys: Sys<C>)
    requires Enabled(ch, sys, StartShutdown)
    ensures var t, x := Step(ch, sys, StartShutdown), ch.close(sys.conn.chan);
            && Answered(sys.conn, x, t.conn) && t.conn.wire == sys.conn.wire && t.reader == sys.reader
            && t.conn.sendBuffer == sys.conn.sendBuffer + x.data
            && Launched(sys, t, x.Error())
            && t.writer.mark == |t.conn.emitted|
  {
  }

  /** A handshake: the channel set up, its first flight in flight, and an exception reported as it is. */
  lemma HandshakeLaunches<C>(ch: Channel<C>, sys: Sys<C>, setup: Emission<C>)
    requires Enabled(ch, sys, StartHandshake(setup))
    ensures var t := Step(ch, sys, StartHandshake(setup));
            && Answered(sys.conn, setup, t.conn) && t.conn.wire == sys.conn.wire && t.writer == sys.writer
            && t.conn.sendBuffer == sys.conn.sendBuffer + setup.data
            && !t.reader.NoReader? && t.reader.id == sys.started
            && (setup.thrown.Some? ==> t.reader == ShakeYielded(sys.started, setup.Error(), true, |t.conn.emitted|))
            && (setup.thrown.None? && t.conn.sendBuffer != [] ==>
                  t.reader == ShakeWriting(sys.started, t.conn.Settled(), t.conn.sendBuffer))
  {
  }

  /** A read: it waits, or has its answer, for the buffer it was given. */
  lemma ReadLaunches<C>(ch: Channel<C>, sys: Sys<C>, size: nat)
    requires Enabled(ch, sys, StartRead(size))
    ensures var t := Step(ch, sys, StartRead(size));
            && (t.reader.Reading? || t.reader.ReadYielded?) && t.reader.id == sys.started && t.reader.size == size
            && t.writer == sys.writer
            && t.conn == sys.conn.(receiveBuffer := t.conn.receiveBuffer)
  {
  }

  /** A handshake comes to wait for the peer only on a healthy, flushed stream whose handshake is not complete. */
  lemma HandshakeWaits<C(!new)>(ch: Channel<C>, sys: Sys<C>, e: Event<C>)
    requires Orderly(ch) && Inv(ch, sys) && Enabled(ch, sys, e)
    requires e.StartHandshake? || e.NestedArrives? || (e.ReadArrives? && sys.reader.Shaking?)
    ensures var t := Step(ch, sys, e);
            t.reader.Shaking? ==>
              t.conn.Healthy() && t.conn.sendBuffer == [] && !ch.handshakeComplete(t.conn.chan)
  {
    var handed := ReadBytes(sys.completed);
    assert handed + Held(sys.reader) == handed;
    match e
    case StartHandshake(setup) => ShakeCallKeeps(ch, sys.conn.Absorb(setup), setup.Error(), [], false, handed);
    case ReadArrives(ev) => ShakeCallKeeps(ch, sys.conn, ArrivedError(ev), ArrivedData(ev), true, handed);
    case NestedArrives(ev) =>
      WriteReturnsEffect(sys.conn, sys.reader.inFlight, ev);
      var step := WriteReturns(sys.conn, sys.reader.inFlight, ev);
      if step.action.CompleteWrite? {
        ShakeCallKeeps(ch, step.conn, step.action.ec, [], true, handed);
      }
  }

  /** A network error ends a pending read or handshake at once, and is what it reports. */
  lemma NetworkErrorsEnd<C(!new)>(ch: Channel<C>, sys: Sys<C>, error: Failure)
    requires Inv(ch, sys) && Enabled(ch, sys, ReadArrives(ReadFail(error)))
    ensures var t, r := Step(ch, sys, ReadArrives(ReadFail(error))), sys.reader;
            && t.reader.NoReader? && t.conn == sys.conn && t.writer == sys.writer
            && t.completed == sys.completed +
                 [if r.Reading? then ReadDone(r.id, r.size, Returned(Reported(error), []))
                  else HandshakeDone(r.id, Reported(error))]
  {
  }

  /** A delivery ends a pending read exactly if the channel decrypted something, or ended the session. */
  lemma DeliveriesEnd<C(!new)>(ch: Channel<C>, sys: Sys<C>, data: Bytes)
    requires Inv(ch, sys) && Enabled(ch, sys, ReadArrives(Data(data))) && sys.reader.Reading? && data != []
    ensures var t, r := Step(ch, sys, ReadArrives(Data(data))), ch.receivedData(sys.conn.chan, data);
            && t.conn.chan == r.chan && t.conn.produced == sys.conn.produced + Records(r.callbacks)
            && t.conn.emitted == sys.conn.emitted + Emits(r.callbacks)
            && (t.reader == sys.reader
                <==> Records(r.callbacks) == [] && r.thrown.None? && Retained(None, r.callbacks).None?)
            && (t.reader != sys.reader ==> t.reader.NoReader?)
  {
    ProcessEffect(ch, sys.conn, data);
  }

  // ----- finished writes

  /** What the network's last word on a write of `size` bytes makes it report. */
  predicate NetworkWord<C>(s: Conn<C>, size: nat, outgoing: seq<WriteEvent>, ec: ErrorCode) {
    var outcome := Accept(size, outgoing).outcome;
    outcome.Some? && ec == s.MapEof(outcome.value)
  }

  /** What a blocking write or shutdown returns, once the channel has answered `x`. */
  ghost predicate BlockingReport<C>(s: Conn<C>, x: Emission<C>, outgoing: seq<WriteEvent>, t: Conn<C>, ec: ErrorCode) {
    && Answered(s, x, t)
    && (if x.thrown.Some? then ec == x.Error() && t.wire == s.wire && t.sendBuffer == s.sendBuffer + x.data
        else NetworkWord(t, |s.sendBuffer + x.data|, outgoing, ec))
    && t.wire + t.sendBuffer == s.wire + s.sendBuffer + x.data
    && (!ec.Failed() ==> t.sendBuffer == [] && t.wire == s.wire + s.sendBuffer + x.data)
  }

  lemma FlushReports<C>(s: Conn<C>, x: Emission<C>, outgoing: seq<WriteEvent>)
    requires SendPending(s.Absorb(x), x.Error(), outgoing).ec.Some?
    ensures var r := SendPending(s.Absorb(x), x.Error(), outgoing);
            BlockingReport(s, x, outgoing, r.conn, r.ec.value)
  {
    var s1 := s.Absorb(x);
    WriteAllEffect(s1, outgoing);
    WriteAllAccepts(s1, outgoing);
    assert s1.wire + s1.sendBuffer == s.wire + s.sendBuffer + x.data;
    var t := SendPending(s1, x.Error(), outgoing).conn;
    assert t.sendBuffer == [] ==> t.wire + [] == t.wire;
  }

  /** `write_some`: the channel's bytes follow the send buffer to the wire, and all plain bytes are counted or none. */
  lemma BlockingWriteReports<C>(ch: Channel<C>, s: Conn<C>, data: Bytes, outgoing: seq<WriteEvent>)
    requires WriteSome(ch, s, data, outgoing).ec.Some?
    ensures var r := WriteSome(ch, s, data, outgoing);
            && BlockingReport(s, ch.send(s.chan, data), outgoing, r.conn, r.ec.value)
            && WrittenBytes(r.ec.value, data) == if r.ec.value.Failed() then 0 else |data|
  {
    FlushReports(s, ch.send(s.chan, data), outgoing);
  }

  /** `shutdown`: what closing emits, a close_notify, follows the send buffer to the wire. */
  lemma BlockingShutdownReports<C>(ch: Channel<C>, s: Conn<C>, outgoing: seq<WriteEvent>)
    requires Shutdown(ch, s, outgoing).ec.Some?
    ensures var r := Shutdown(ch, s, outgoing);
            BlockingReport(s, ch.close(s.chan), outgoing, r.conn, r.ec.value)
  {
    FlushReports(s, ch.close(s.chan), outgoing);
  }

  /** What a completed write or shutdown says, in either form. */
  ghost predicate WriteReport<C>(ch: Channel<C>, sys: Sys<C>, e: Event<C>, t: Sys<C>) {
    && |t.completed| == |sys.completed| + 1 && t.completed[|sys.completed|].WriteDone?
    && var c, s, w := t.completed[|sys.completed|], sys.conn, sys.writer;
       match e
       case WriteArrives(ev) =>
         && w.Writing? && c.id == w.id && c.n == w.plain
         && c.ec == (if ev.WriteFail? then t.conn.MapEof(ev.error) else Success)
         && (ev.Wrote? ==> t.conn.sendBuffer == [])
       case WriteResumed(_) => w.WriteYielded? && c == WriteDone(w.id, w.ec, w.plain)
       case SyncWrite(data, outgoing) =>
         && c.id == sys.started && c.n == (if c.ec.Failed() then 0 else |data|)
         && BlockingReport(s, ch.send(s.chan, data), outgoing, t.conn, c.ec)
       case SyncShutdown(outgoing) =>
         c.id == sys.started && BlockingReport(s, ch.close(s.chan), outgoing, t.conn, c.ec)
       case _ => false
  }

  /** No other step reports a write. */
  lemma OnlyWritesReport<C>(ch: Channel<C>, sys: Sys<C>, e: Event<C>)
    requires Enabled(ch, sys, e) && !e.WriteArrives? && !e.WriteResumed? && !e.SyncWrite? && !e.SyncShutdown?
    ensures var t := Step(ch, sys, e);
            |t.completed| > |sys.completed| ==> !t.completed[|sys.completed|].WriteDone?
  {
  }

  lemma BlockingWritesReport<C>(ch: Channel<C>, sys: Sys<C>, e: Event<C>)
    requires Enabled(ch, sys, e) && (e.SyncWrite? || e.SyncShutdown?)
    ensures WriteReport(ch, sys, e, Step(ch, sys, e))
  {
    if e.SyncWrite? {
      BlockingWriteReports(ch, sys.conn, e.data, e.outgoing);
    } else {
      BlockingShutdownReports(ch, sys.conn, e.outgoing);
    }
  }

  /**
   A write or shutdown that ends, in either form and however interleaved: without
   error exactly if the channel did not throw and the network took everything, and
   otherwise with the error of whichever failed.
   */
  lemma WritesReport<C>(ch: Channel<C>, sys: Sys<C>, e: Event<C>)
    requires Enabled(ch, sys, e) && |Step(ch, sys, e).completed| > |sys.completed|
    requires Step(ch, sys, e).completed[|sys.completed|].WriteDone?
    ensures WriteReport(ch, sys, e, Step(ch, sys, e))
  {
    if e.WriteArrives? {
      WriteReturnsEffect(sys.conn, sys.writer.inFlight, e.sent);
    } else if e.SyncWrite? || e.SyncShutdown? {
      BlockingWritesReport(ch, sys, e);
    } else if !e.WriteResumed? {
      OnlyWritesReport(ch, sys, e);
      assert false;
    }
  }

  // ----- everything the network delivers is fed to the channel

  /** The bytes of the deliveries among some read events, in order. */
  function Delivered(evs: seq<ReadEvent>): Bytes {
    if evs == [] then [] else (if evs[0].Data? then evs[0].bytes else []) + Delivered(evs[1..])
  }

  /** The events consumed when `before` was left as `after`. */
  function Consumed(before: seq<ReadEvent>, after: seq<ReadEvent>): seq<ReadEvent> {
    if |after| <= |before| then before[..|before| - |after|] else []
  }

  lemma ConsumedMore(incoming: seq<ReadEvent>, after: seq<ReadEvent>)
    requires incoming != [] && |after| < |incoming|
    ensures Delivered(Consumed(incoming, after))
            == (if incoming[0].Data? then incoming[0].bytes else []) + Delivered(Consumed(incoming[1..], after))
  {
    var c := Consumed(incoming, after);
    assert c[0] == incoming[0] && c[1..] == Consumed(incoming[1..], after);
  }

  lemma {:induction false} ReadSomeFeeds<C>(ch: Channel<C>, s: Conn<C>, size: nat, ec: ErrorCode,
                                            incoming: seq<ReadEvent>)
    ensures var r := ReadSome(ch, s, size, ec, incoming);
            |r.incoming| <= |incoming| && r.conn.fed == s.fed + Delivered(Consumed(incoming, r.incoming))
    decreases |incoming|
  {
    var r := ReadSome(ch, s, size, ec, incoming);
    if !ec.Failed() && s.receiveBuffer == [] && s.Healthy() && incoming != [] {
      if incoming[0].Data? {
        var s1 := s.CheckBeforeRead();
        FeedsOn(ch, s1, incoming[0].bytes);
        ReadSomeFeeds(ch, ProcessEncryptedData(ch, s1, incoming[0].bytes), size, Success, incoming[1..]);
      }
      ConsumedMore(incoming, r.incoming);
    }
  }

  /** What is processed is fed, and what follows comes after it. */
  lemma FeedsOn<C>(ch: Channel<C>, s: Conn<C>, data: Bytes)
    ensures var t := ProcessEncryptedData(ch, s, data);
            t.fed == s.fed + data && forall more: Bytes {:trigger t.fed + more} :: t.fed + more == s.fed + (data + more)
  {
    ProcessEffect(ch, s, data);
  }

  /** The handshake comes to a read and the network has something to say. */
  predicate RoundReads<C>(ch: Channel<C>, s: Conn<C>, ec: ErrorCode, incoming: seq<ReadEvent>,
                          outgoing: seq<WriteEvent>) {
    var w := Flush(s, ec, outgoing);
    && !ec.Failed() && incoming != []
    && w.ec.Some? && !w.ec.value.Failed() && !ch.handshakeComplete(w.conn.chan) && w.conn.Healthy()
  }

  lemma QuietRound<C>(ch: Channel<C>, s: Conn<C>, ec: ErrorCode, incoming: seq<ReadEvent>, outgoing: seq<WriteEvent>)
    requires !RoundReads(ch, s, ec, incoming, outgoing)
    ensures var r := Handshake(ch, s, ec, incoming, outgoing); r.incoming == incoming && r.conn.fed == s.fed
  {
    WriteAllEffect(s, outgoing);
  }

  lemma FlushFeedsNothing<C>(s: Conn<C>, ec: ErrorCode, outgoing: seq<WriteEvent>)
    ensures Flush(s, ec, outgoing).conn.fed == s.fed
  {
    WriteAllEffect(s, outgoing);
  }

  lemma {:induction false} HandshakeFeeds<C>(ch: Channel<C>, s: Conn<C>, ec: ErrorCode, incoming: seq<ReadEvent>,
                                             outgoing: seq<WriteEvent>)
    ensures var r := Handshake(ch, s, ec, incoming, outgoing);
            |r.incoming| <= |incoming| && r.conn.fed == s.fed + Delivered(Consumed(incoming, r.incoming))
    decreases |incoming|
  {
    var r := Handshake(ch, s, ec, incoming, outgoing);
    if RoundReads(ch, s, ec, incoming, outgoing) {
      var w := Flush(s, ec, outgoing);
      ReadingRound(ch, s, ec, incoming, outgoing);
      FlushFeedsNothing(s, ec, outgoing);
      if incoming[0].Data? {
        var s1 := w.conn.CheckBeforeRead();
        FeedsOn(ch, s1, incoming[0].bytes);
        HandshakeFeeds(ch, ProcessEncryptedData(ch, s1, incoming[0].bytes), Success, incoming[1..], w.outgoing);
      }
      ConsumedMore(incoming, r.incoming);
    } else {
      QuietRound(ch, s, ec, incoming, outgoing);
    }
  }

  /** The ciphertext that a step brings in. */
  function FedBy<C>(ch: Channel<C>, sys: Sys<C>, e: Event<C>): Bytes {
    match e
    case ReadArrives(ev) => if ev.Data? then ev.bytes else []
    case SyncRead(size, incoming) =>
      Delivered(Consumed(incoming, ReadSome(ch, sys.conn, size, Success, incoming).incoming))
    case SyncHandshake(setup, incoming, outgoing) =>
      Delivered(Consumed(incoming, Handshake(ch, sys.conn.Absorb(setup), setup.Error(), incoming, outgoing).incoming))
    case _ => []
  }

  /** Every byte the network delivers in a step is handed to the channel in it. */
  lemma StepFeeds<C>(ch: Channel<C>, sys: Sys<C>, e: Event<C>)
    requires Enabled(ch, sys, e)
    ensures Step(ch, sys, e).conn.fed == sys.conn.fed + FedBy(ch, sys, e)
  {
    var s, t := sys.conn, Step(ch, sys, e).conn;
    assert s.fed + [] == s.fed;
    match e
    case ReadArrives(ev) => FeedsOn(ch, s, ArrivedData(ev));
    case SyncRead(size, incoming) => ReadSomeFeeds(ch, s, size, Success, incoming);
    case SyncHandshake(setup, incoming, outgoing) =>
      HandshakeFeeds(ch, s.Absorb(setup), setup.Error(), incoming, outgoing);
    case _ => OthersFeedNothing(ch, sys, e);
  }

  lemma OthersFeedNothing<C>(ch: Channel<C>, sys: Sys<C>, e: Event<C>)
    requires Enabled(ch, sys, e) && !e.ReadArrives? && !e.SyncRead? && !e.SyncHandshake?
    ensures Step(ch, sys, e).conn.fed == sys.conn.fed
  {
    if e.StartRead? || e.StartHandshake? || e.StartWrite? || e.StartShutdown? {
      StickyStarts(ch, sys, e);
    } else if e.WriteArrives? || e.NestedArrives? {
      ArrivalMoves(ch, sys, e);
    } else if e.SyncWrite? {
      WriteAllEffect(Encrypt(ch, sys.conn, e.data), e.outgoing);
    } else if e.SyncShutdown? {
      WriteAllEffect(Close(ch, sys.conn), e.outgoing);
    }
  }

  /** The ciphertext a whole run brings in, in order. */
  function FedIn<C>(ch: Channel<C>, sys: Sys<C>, es: seq<Event<C>>): Bytes
    requires Allowed(ch, sys, es)
    decreases |es|
  {
    if es == [] then [] else FedBy(ch, sys, es[0]) + FedIn(ch, Step(ch, sys, es[0]), es[1..])
  }

  lemma Regrouped(a: Bytes, b: Bytes, c: Bytes)
    ensures a + b + c == a + (b + c)
  {
  }

  lemma {:induction false} RunFeeds<C>(ch: Channel<C>, sys: Sys<C>, es: seq<Event<C>>)
    requires Allowed(ch, sys, es)
    ensures Run(ch, sys, es).conn.fed == sys.conn.fed + FedIn(ch, sys, es)
    decreases |es|
  {
    if es == [] {
      assert sys.conn.fed + [] == sys.conn.fed;
    } else {
      var t := Step(ch, sys, es[0]);
      StepFeeds(ch, sys, es[0]);
      RunFeeds(ch, t, es[1..]);
      Regrouped(sys.conn.fed, FedBy(ch, sys, es[0]), FedIn(ch, t, es[1..]));
    }
  }

  /** In every run the channel is fed exactly what the network delivered, in order. */
  lemma RunsFeedTheChannel<C>(ch: Channel<C>, chan: C, es: seq<Event<C>>)
    requires Allowed(ch, Start(chan), es)
    ensures Run(ch, Start(chan), es).conn.fed == FedIn(ch, Start(chan), es)
  {
    RunFeeds(ch, Start(chan), es);
    assert [] + FedIn(ch, Start(chan), es) == FedIn(ch, Start(chan), es);
  }
}
