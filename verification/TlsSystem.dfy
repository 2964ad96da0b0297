/**
 Whole runs of one stream: blocking calls and resumable operations in every
 interleaving of one outstanding read or handshake with one outstanding write.

 An asynchronous operation occupies a slot from its initiating call until its
 completion handler is called.  A handshake that has bytes to send keeps its
 nested write in its own slot, so the write of a caller may overlap it.
 */
module TlsSystem {
  import opened Common
  import opened TlsModel
  import opened TlsAsync
  import opened TlsInvariant

  // ----- the state of a run
  //
  // A write in flight took the whole send buffer as it was: `at` is the position of
  // its first byte in all that the channel ever emitted.  An operation that yielded
  // or writes remembers as `mark` how much had been emitted when it was started.

  datatype Reader =
    | NoReader
    | Reading(id: nat, size: nat)
    | ReadYielded(id: nat, size: nat, result: Returned)
    | Shaking(id: nat)
    | ShakeWriting(id: nat, at: int, inFlight: Bytes)
    | ShakeYielded(id: nat, ec: ErrorCode, setupFailed: bool, mark: nat)

  datatype Writer =
    | NoWriter
    | Writing(id: nat, plain: nat, mark: nat, at: int, inFlight: Bytes)
    | WriteYielded(id: nat, plain: nat, mark: nat, ec: ErrorCode)

  /** One call of a completion handler, or the return of a blocking call. */
  datatype Completion =
    | ReadDone(id: nat, size: nat, result: Returned)
    | WriteDone(id: nat, ec: ErrorCode, n: nat)
    | HandshakeDone(id: nat, ec: ErrorCode)

  datatype Sys<C> = Sys(conn: Conn<C>, reader: Reader, writer: Writer, started: nat, completed: seq<Completion>)
  {
    function Report(c: Completion): Sys<C> {
      this.(completed := completed + [c])
    }
  }

  function Start<C>(chan: C): Sys<C> {
    Sys(Fresh(chan), NoReader, NoWriter, 0, [])
  }

  /** A handshake sets the channel up first, which may emit a first flight or throw. */
  datatype Event<C> =
    | StartRead(size: nat)
    | StartHandshake(setup: Emission<C>)
    | ReadArrives(arrived: ReadEvent)
    | ReadResumed(ignored: ErrorCode)
    | NestedArrives(sent: WriteEvent)
    | StartWrite(data: Bytes)
    | StartShutdown
    | WriteArrives(sent: WriteEvent)
    | WriteResumed(ignored: ErrorCode)
    | SyncRead(size: nat, incoming: seq<ReadEvent>)
    | SyncHandshake(setup: Emission<C>, incoming: seq<ReadEvent>, outgoing: seq<WriteEvent>)
    | SyncWrite(data: Bytes, outgoing: seq<WriteEvent>)
    | SyncShutdown(outgoing: seq<WriteEvent>)

  predicate Handshaking(r: Reader) {
    r.Shaking? || r.ShakeWriting? || r.ShakeYielded?
  }

  /** A channel is set up once: setting up does not undo a completed handshake. */
  predicate SetsUp<C>(ch: Channel<C>, s: Conn<C>, setup: Emission<C>) {
    ch.handshakeComplete(s.chan) ==> ch.handshakeComplete(setup.chan)
  }

  /** One outstanding read or handshake, one outstanding write, and a blocking call that returns. */
  predicate Enabled<C>(ch: Channel<C>, sys: Sys<C>, e: Event<C>) {
    match e
    case StartRead(_) => sys.reader.NoReader?
    case StartHandshake(setup) => sys.reader.NoReader? && SetsUp(ch, sys.conn, setup)
    case ReadArrives(_) => sys.reader.Reading? || sys.reader.Shaking?
    case ReadResumed(_) => sys.reader.ReadYielded? || sys.reader.ShakeYielded?
    case NestedArrives(_) => sys.reader.ShakeWriting?
    case StartWrite(_) => sys.writer.NoWriter?
    case StartShutdown => sys.writer.NoWriter?
    case WriteArrives(_) => sys.writer.Writing?
    case WriteResumed(_) => sys.writer.WriteYielded?
    case SyncRead(size, incoming) =>
      sys.reader.NoReader? && ReadSome(ch, sys.conn, size, Success, incoming).returned.Some?
    case SyncHandshake(setup, incoming, outgoing) =>
      sys.reader.NoReader? && SetsUp(ch, sys.conn, setup)
      && Handshake(ch, sys.conn.Absorb(setup), setup.Error(), incoming, outgoing).ec.Some?
    case SyncWrite(data, outgoing) => sys.writer.NoWriter? && WriteSome(ch, sys.conn, data, outgoing).ec.Some?
    case SyncShutdown(outgoing) => sys.writer.NoWriter? && Shutdown(ch, sys.conn, outgoing).ec.Some?
  }

  // ----- one step

  function AfterRead<C>(sys: Sys<C>, id: nat, size: nat, step: ReadStep<C>): Sys<C> {
    var t := sys.(conn := step.conn);
    match step.action
    case AwaitRead => t.(reader := Reading(id, size))
    case YieldRead(result) => t.(reader := ReadYielded(id, size, result))
    case CompleteRead(result) => t.(reader := NoReader).Report(ReadDone(id, size, result))
  }

  function AfterWrite<C>(sys: Sys<C>, id: nat, plain: nat, mark: nat, step: WriteStep<C>): Sys<C> {
    var t := sys.(conn := step.conn);
    match step.action
    case AwaitWrite(inFlight) => t.(writer := Writing(id, plain, mark, t.conn.Settled(), inFlight))
    case YieldWrite(ec) => t.(writer := WriteYielded(id, plain, mark, ec))
    case CompleteWrite(ec) => t.(writer := NoWriter).Report(WriteDone(id, ec, plain))
  }

  /** The nested write is constructed, and called, inside the handshake's own call; it takes the whole buffer. */
  function AfterShake<C>(sys: Sys<C>, id: nat, setupFailed: bool, step: ShakeStep<C>): Sys<C> {
    var t := sys.(conn := step.conn);
    match step.action
    case AwaitShakeRead => t.(reader := Shaking(id))
    case YieldShake(ec) => t.(reader := ShakeYielded(id, ec, setupFailed, |t.conn.emitted|))
    case CompleteShake(ec) => t.(reader := NoReader).Report(HandshakeDone(id, ec))
    case NestedWrite => t.(reader := ShakeWriting(id, t.conn.Settled(), t.conn.sendBuffer))
  }

  function ArrivedError(ev: ReadEvent): ErrorCode { if ev.Data? then Success else ev.error }
  function ArrivedData(ev: ReadEvent): Bytes { if ev.Data? then ev.bytes else [] }

  /** The bytes a finished transport write took. */
  function Taken(inFlight: Bytes, ev: WriteEvent): Bytes {
    if ev.Wrote? then inFlight[..Min(ev.n, |inFlight|)] else []
  }

  function WroteError(ev: WriteEvent): ErrorCode { if ev.Wrote? then Success else ev.error }

  /** The call operator of a write whose transport operation has finished. */
  function WriteReturns<C>(s: Conn<C>, inFlight: Bytes, ev: WriteEvent): WriteStep<C> {
    var taken := Taken(inFlight, ev);
    WriteCall(s.Transmit(taken), WroteError(ev), |taken|, true)
  }

  /** A finished nested write goes on, or calls the handshake back with its error code. */
  function AfterNested<C>(ch: Channel<C>, sys: Sys<C>, id: nat, step: WriteStep<C>): Sys<C> {
    match step.action
    case AwaitWrite(inFlight) => sys.(conn := step.conn, reader := ShakeWriting(id, step.conn.Settled(), inFlight))
    case YieldWrite(ec) => sys
    case CompleteWrite(ec) => AfterShake(sys, id, false, ShakeCall(ch, step.conn, ec, [], true))
  }

  function StartWriting<C>(sys: Sys<C>, conn: Conn<C>, ec: ErrorCode, plain: nat): Sys<C> {
    AfterWrite(sys.(started := sys.started + 1), sys.started, plain, |conn.emitted|, WriteCall(conn, ec, 0, false))
  }

  function Step<C>(ch: Channel<C>, sys: Sys<C>, e: Event<C>): Sys<C>
    requires Enabled(ch, sys, e)
  {
    var s, id, next := sys.conn, sys.started, sys.(started := sys.started + 1);
    match e
    case StartRead(size) => AfterRead(next, id, size, ReadCall(ch, s, size, Success, [], false))
    case StartHandshake(setup) =>
      AfterShake(next, id, setup.thrown.Some?, ShakeCall(ch, s.Absorb(setup), setup.Error(), [], false))
    case ReadArrives(ev) =>
      if sys.reader.Reading? then
        AfterRead(sys, sys.reader.id, sys.reader.size,
                  ReadCall(ch, s, sys.reader.size, ArrivedError(ev), ArrivedData(ev), true))
      else
        AfterShake(sys, sys.reader.id, false, ShakeCall(ch, s, ArrivedError(ev), ArrivedData(ev), true))
    case ReadResumed(_) =>
      var r := sys.reader;
      sys.(reader := NoReader).Report(
        if r.ReadYielded? then ReadDone(r.id, r.size, r.result) else HandshakeDone(r.id, r.ec))
    case NestedArrives(ev) =>
      AfterNested(ch, sys, sys.reader.id, WriteReturns(s, sys.reader.inFlight, ev))
    case StartWrite(data) =>
      StartWriting(sys, BeginWrite(ch, s, data), EncryptError(ch, s, data), PlainBytes(ch, s, data))
    case StartShutdown =>
      StartWriting(sys, Close(ch, s), CloseError(ch, s), |Close(ch, s).sendBuffer|)
    case WriteArrives(ev) =>
      var w := sys.writer;
      AfterWrite(sys, w.id, w.plain, w.mark, WriteReturns(s, w.inFlight, ev))
    case WriteResumed(_) =>
      var w := sys.writer;
      sys.(writer := NoWriter).Report(WriteDone(w.id, w.ec, w.plain))
    case SyncRead(size, incoming) =>
      var r := ReadSome(ch, s, size, Success, incoming);
      next.(conn := r.conn).Report(ReadDone(id, size, r.returned.value))
    case SyncHandshake(setup, incoming, outgoing) =>
      var r := Handshake(ch, s.Absorb(setup), setup.Error(), incoming, outgoing);
      next.(conn := r.conn).Report(HandshakeDone(id, r.ec.value))
    case SyncWrite(data, outgoing) =>
      var r := WriteSome(ch, s, data, outgoing);
      next.(conn := r.conn).Report(WriteDone(id, r.ec.value, WrittenBytes(r.ec.value, data)))
    case SyncShutdown(outgoing) =>
      var r := Shutdown(ch, s, outgoing);
      next.(conn := r.conn).Report(WriteDone(id, r.ec.value, 0))
  }

  // ----- the invariant

  /** The bytes returned by all reads so far, in order of completion. */
  function ReadBytes(cs: seq<Completion>): Bytes {
    if cs == [] then []
    else
      var last := cs[|cs| - 1];
      ReadBytes(cs[..|cs| - 1]) + (if last.ReadDone? then last.result.data else [])
  }

  /** Bytes already copied out for a read that has not completed yet. */
  function Held(r: Reader): Bytes {
    if r.ReadYielded? then r.result.data else []
  }

  /** What a pending read or handshake relies on, whatever the writes do. */
  predicate ReaderInv<C>(ch: Channel<C>, s: Conn<C>, r: Reader) {
    match r
    case Reading(_, size) => s.Healthy() && s.receiveBuffer == [] && size > 0
    case ReadYielded(_, size, result) => ReadVerdict(s, size, result) && ReadExplained(s, result.ec, None)
    case Shaking(_) => s.Healthy()
    case ShakeYielded(_, ec, setupFailed, mark) =>
      if setupFailed then ec.Failed() else HandshakeOutcome(ch, s, ec) && mark <= s.Settled()
    case _ => true
  }

  /** What was returned, what is held and what is buffered is all that was decrypted. */
  predicate DeliveryInv<C>(sys: Sys<C>) {
    ReadBytes(sys.completed) + Held(sys.reader) + sys.conn.receiveBuffer == sys.conn.produced
  }

  ghost predicate Inv<C(!new)>(ch: Channel<C>, sys: Sys<C>) {
    ConnInv(ch, sys.conn) && ReaderInv(ch, sys.conn, sys.reader) && DeliveryInv(sys)
  }

  lemma ReportReads<C>(sys: Sys<C>, c: Completion)
    ensures ReadBytes(sys.Report(c).completed)
            == ReadBytes(sys.completed) + (if c.ReadDone? then c.result.data else [])
  {
    var t := sys.Report(c);
    assert t.completed[..|t.completed| - 1] == sys.completed;
  }

  // ----- reading calls

  lemma IngestKeeps<C(!new)>(ch: Channel<C>, s: Conn<C>, ec: ErrorCode, data: Bytes, handed: Bytes)
    requires Orderly(ch) && ConnInv(ch, s) && handed + s.receiveBuffer == s.produced
    requires data != [] ==> s.Healthy()
    ensures var t := Ingest(ch, s, ec, data);
            && ConnInv(ch, t) && handed + t.receiveBuffer == t.produced
            && (ec.Failed() || data == [] ==> t == s)
  {
    if data != [] {
      ProcessKeeps(ch, s, data, handed);
    }
  }

  /** A read call that returns hands out a prefix of the receive buffer, or an error once it is empty. */
  ghost predicate ReadStepSound<C(!new)>(ch: Channel<C>, size: nat, handed: Bytes, network: Option<Failure>,
                                         step: ReadStep<C>) {
    var t := step.conn;
    && ConnInv(ch, t)
    && if step.action.AwaitRead? then
         t.Healthy() && t.receiveBuffer == [] && size > 0 && handed == t.produced
       else
         && ReadVerdict(t, size, step.action.result) && ReadExplained(t, step.action.result.ec, network)
         && handed + step.action.result.data + t.receiveBuffer == t.produced
  }

  lemma ReadTailKeeps<C(!new)>(ch: Channel<C>, s: Conn<C>, size: nat, ec: ErrorCode, isContinuation: bool,
                               handed: Bytes, network: Option<Failure>)
    requires ConnInv(ch, s) && handed + s.receiveBuffer == s.produced
    requires ec.Failed() ==> s.receiveBuffer == [] && s.Healthy() && network.Some? && ec == Reported(network.value)
    requires !ec.Failed() ==> ec == Success
    ensures var step := ReadTail(s, size, ec, isContinuation);
            && ReadStepSound(ch, size, handed, network, step)
            && step.conn == s.(receiveBuffer := step.conn.receiveBuffer)
  {
    var k := Min(size, |s.receiveBuffer|);
    var t := s.CopyReceivedData(size);
    assert s.receiveBuffer == s.receiveBuffer[..k] + s.receiveBuffer[k..];
    assert handed + s.Available(size) + t.receiveBuffer == s.produced;
    assert handed + [] == handed;
  }

  lemma ReadCallKeeps<C(!new)>(ch: Channel<C>, s: Conn<C>, size: nat, ec: ErrorCode, data: Bytes,
                               isContinuation: bool, handed: Bytes)
    requires Orderly(ch) && ConnInv(ch, s) && handed + s.receiveBuffer == s.produced
    requires data != [] ==> s.Healthy()
    requires ec.Failed() ==> s.receiveBuffer == [] && s.Healthy()
    requires !ec.Failed() ==> ec == Success
    ensures var step := ReadCall(ch, s, size, ec, data, isContinuation);
            && ReadStepSound(ch, size, handed, if ec.Failed() then Some(ec) else None, step)
            && (data == [] ==> Untouched(s, step.conn))
  {
    var ec1 := s.MapEof(ec);
    IngestKeeps(ch, s, ec1, data, handed);
    ReadTailKeeps(ch, Ingest(ch, s, ec1, data), size, ec1, isContinuation, handed,
                  if ec.Failed() then Some(ec) else None);
  }

  /** A handshake call that returns has flushed the send buffer, or passes on the error it was given. */
  ghost predicate ShakeStepSound<C(!new)>(ch: Channel<C>, given: ErrorCode, step: ShakeStep<C>) {
    var t := step.conn;
    && ConnInv(ch, t)
    && match step.action
       case NestedWrite => t.sendBuffer != []
       case AwaitShakeRead => t.Healthy() && t.sendBuffer == [] && !ch.handshakeComplete(t.chan)
       case YieldShake(ec) => if given.Failed() then ec == t.MapEof(given) else HandshakeVerdict(ch, t, ec)
       case CompleteShake(ec) => if given.Failed() then ec == t.MapEof(given) else HandshakeVerdict(ch, t, ec)
  }

  lemma ShakeCallKeeps<C(!new)>(ch: Channel<C>, s: Conn<C>, ec: ErrorCode, data: Bytes, isContinuation: bool,
                                handed: Bytes)
    requires Orderly(ch) && ConnInv(ch, s) && handed + s.receiveBuffer == s.produced
    requires data != [] ==> s.Healthy()
    ensures var step := ShakeCall(ch, s, ec, data, isContinuation);
            && ShakeStepSound(ch, ec, step)
            && handed + step.conn.receiveBuffer == step.conn.produced
            && (data == [] ==> step.conn == s)
            && (step.action.YieldShake? ==> !isContinuation)
  {
    IngestKeeps(ch, s, s.MapEof(ec), data, handed);
  }

  lemma AfterReadInv<C(!new)>(ch: Channel<C>, sys: Sys<C>, id: nat, size: nat, network: Option<Failure>,
                              step: ReadStep<C>)
    requires step.action.YieldRead? ==> network.None?
    requires ReadStepSound(ch, size, ReadBytes(sys.completed), network, step)
    ensures Inv(ch, AfterRead(sys, id, size, step))
  {
    if step.action.CompleteRead? {
      ReportReads(sys.(conn := step.conn, reader := NoReader), ReadDone(id, size, step.action.result));
    }
  }

  lemma AfterShakeInv<C(!new)>(ch: Channel<C>, sys: Sys<C>, id: nat, setupFailed: bool, given: ErrorCode,
                               step: ShakeStep<C>)
    requires ShakeStepSound(ch, given, step)
    requires step.action.YieldShake? ==> setupFailed == given.Failed()
    requires ReadBytes(sys.completed) + step.conn.receiveBuffer == step.conn.produced
    ensures Inv(ch, AfterShake(sys, id, setupFailed, step))
  {
    if step.action.CompleteShake? {
      ReportReads(sys.(conn := step.conn, reader := NoReader), HandshakeDone(id, step.action.ec));
    }
  }

  // ----- writing calls

  /** What a write, a shutdown or a set-up leaves alone. */
  predicate Aside<C>(ch: Channel<C>, s: Conn<C>, t: Conn<C>) {
    && Untouched(s, t) && t.receiveBuffer == s.receiveBuffer && t.violated == s.violated && s.Settled() <= t.Settled()
    && (ch.handshakeComplete(s.chan) ==> ch.handshakeComplete(t.chan))
  }

  /** Whatever writes do beside it, a pending read or handshake keeps what it relies on. */
  lemma AsideKeeps<C(!new)>(ch: Channel<C>, sys: Sys<C>, t: Sys<C>)
    requires Inv(ch, sys) && Aside(ch, sys.conn, t.conn) && t.reader == sys.reader
    requires ReadBytes(t.completed) == ReadBytes(sys.completed)
    ensures Inv(ch, t)
  {
  }

  lemma WritesAside<C(!new)>(ch: Channel<C>, s: Conn<C>, data: Bytes, outgoing: seq<WriteEvent>)
    requires Orderly(ch)
    ensures Aside(ch, s, BeginWrite(ch, s, data)) && Aside(ch, s, Close(ch, s))
    ensures Aside(ch, s, WriteSome(ch, s, data, outgoing).conn) && Aside(ch, s, Shutdown(ch, s, outgoing).conn)
  {
    WriteAllEffect(Encrypt(ch, s, data), outgoing);
    WriteAllEffect(Close(ch, s), outgoing);
  }

  /** A finished transport write puts what it took on the wire and consumes as much of the send buffer. */
  lemma WriteReturnsEffect<C>(s: Conn<C>, inFlight: Bytes, ev: WriteEvent)
    ensures var step, taken := WriteReturns(s, inFlight, ev), Taken(inFlight, ev);
            && step.conn == s.Transmit(taken).ConsumeSendBuffer(|taken|)
            && !step.action.YieldWrite?
            && (step.action.AwaitWrite? ==> ev.Wrote? && step.action.inFlight == step.conn.sendBuffer != [])
            && (step.action.CompleteWrite? ==>
                  if ev.WriteFail? then step.action.ec == s.MapEof(ev.error) && step.action.ec.Failed()
                  else step.action.ec == Success && step.conn.sendBuffer == [])
  {
    var taken := Taken(inFlight, ev);
    assert taken == [] ==> s.Transmit(taken).ConsumeSendBuffer(0) == s.Transmit(taken);
  }

  /** The bytes a finished transport write took, if the step is one. */
  function TakenBy<C>(sys: Sys<C>, e: Event<C>): Bytes {
    match e
    case WriteArrives(ev) => if sys.writer.Writing? then Taken(sys.writer.inFlight, ev) else []
    case NestedArrives(ev) => if sys.reader.ShakeWriting? then Taken(sys.reader.inFlight, ev) else []
    case _ => []
  }

  /** A handshake called back by its nested write waits for the peer or completes. */
  lemma CalledBack<C>(ch: Channel<C>, s: Conn<C>, ec: ErrorCode)
    requires ec.Failed() || s.sendBuffer == []
    ensures var step := ShakeCall(ch, s, ec, [], true);
            step.conn == s && (step.action.CompleteShake? || (step.action.AwaitShakeRead? && !ec.Failed()))
  {
  }

  lemma AfterNestedShape<C>(ch: Channel<C>, sys: Sys<C>, id: nat, step: WriteStep<C>)
    requires !step.action.YieldWrite?
    requires step.action.CompleteWrite? ==> step.action.ec.Failed() || step.conn.sendBuffer == []
    ensures var t := AfterNested(ch, sys, id, step);
            && t.conn == step.conn && t.writer == sys.writer
            && (if step.action.AwaitWrite? then t.reader == ShakeWriting(id, t.conn.Settled(), step.action.inFlight)
                else t.reader.NoReader? || (t.reader.Shaking? && !step.action.ec.Failed()))
  {
    if step.action.CompleteWrite? {
      CalledBack(ch, step.conn, step.action.ec);
    }
  }

  /** A nested write takes up what is left in the send buffer, or gives the handshake its turn. */
  lemma NestedGoesOn<C>(ch: Channel<C>, sys: Sys<C>, ev: WriteEvent)
    requires Enabled(ch, sys, NestedArrives(ev))
    ensures var t, taken := Step(ch, sys, NestedArrives(ev)), Taken(sys.reader.inFlight, ev);
            && t.conn == sys.conn.Transmit(taken).ConsumeSendBuffer(|taken|)
            && t.writer == sys.writer
            && (if t.reader.ShakeWriting?
                then ev.Wrote? && t.reader.inFlight == t.conn.sendBuffer != [] && t.reader.at == t.conn.Settled()
                else t.reader.NoReader? || (t.reader.Shaking? && ev.Wrote?))
  {
    WriteReturnsEffect(sys.conn, sys.reader.inFlight, ev);
    AfterNestedShape(ch, sys, sys.reader.id, WriteReturns(sys.conn, sys.reader.inFlight, ev));
  }

  lemma ArrivalMoves<C>(ch: Channel<C>, sys: Sys<C>, e: Event<C>)
    requires Enabled(ch, sys, e) && (e.WriteArrives? || e.NestedArrives?)
    ensures var taken := TakenBy(sys, e);
            Step(ch, sys, e).conn == sys.conn.Transmit(taken).ConsumeSendBuffer(|taken|)
  {
    if e.NestedArrives? {
      NestedGoesOn(ch, sys, e.sent);
    } else {
      WriteReturnsEffect(sys.conn, sys.writer.inFlight, e.sent);
    }
  }

  // ----- every event, one by one

  lemma ReaderSteps<C(!new)>(ch: Channel<C>, sys: Sys<C>, e: Event<C>)
    requires Orderly(ch) && Inv(ch, sys) && Enabled(ch, sys, e)
    requires e.StartRead? || (e.ReadArrives? && sys.reader.Reading?)
    ensures Inv(ch, Step(ch, sys, e))
  {
    var handed := ReadBytes(sys.completed);
    assert handed + Held(sys.reader) == handed;
    if e.StartRead? {
      ReadCallKeeps(ch, sys.conn, e.size, Success, [], false, handed);
      AfterReadInv(ch, sys.(started := sys.started + 1), sys.started, e.size, None,
                   ReadCall(ch, sys.conn, e.size, Success, [], false));
    } else {
      var size, ec, data := sys.reader.size, ArrivedError(e.arrived), ArrivedData(e.arrived);
      ReadCallKeeps(ch, sys.conn, size, ec, data, true, handed);
      AfterReadInv(ch, sys, sys.reader.id, size, if ec.Failed() then Some(ec) else None,
                   ReadCall(ch, sys.conn, size, ec, data, true));
    }
  }

  lemma ShakeSteps<C(!new)>(ch: Channel<C>, sys: Sys<C>, e: Event<C>)
    requires Orderly(ch) && Inv(ch, sys) && Enabled(ch, sys, e)
    requires e.StartHandshake? || (e.ReadArrives? && sys.reader.Shaking?)
    ensures Inv(ch, Step(ch, sys, e))
  {
    var handed := ReadBytes(sys.completed);
    assert handed + Held(sys.reader) == handed;
    if e.StartHandshake? {
      var s, ec := sys.conn.Absorb(e.setup), e.setup.Error();
      ShakeCallKeeps(ch, s, ec, [], false, handed);
      AfterShakeInv(ch, sys.(started := sys.started + 1), sys.started, e.setup.thrown.Some?, ec,
                    ShakeCall(ch, s, ec, [], false));
    } else {
      var ec, data := ArrivedError(e.arrived), ArrivedData(e.arrived);
      ShakeCallKeeps(ch, sys.conn, ec, data, true, handed);
      AfterShakeInv(ch, sys, sys.reader.id, false, ec, ShakeCall(ch, sys.conn, ec, data, true));
    }
  }

  lemma NestedSteps<C(!new)>(ch: Channel<C>, sys: Sys<C>, ev: WriteEvent)
    requires Orderly(ch) && Inv(ch, sys) && Enabled(ch, sys, NestedArrives(ev))
    ensures Inv(ch, Step(ch, sys, NestedArrives(ev)))
  {
    var step := WriteReturns(sys.conn, sys.reader.inFlight, ev);
    WriteReturnsEffect(sys.conn, sys.reader.inFlight, ev);
    var handed := ReadBytes(sys.completed);
    assert handed + Held(sys.reader) == handed;
    if step.action.CompleteWrite? {
      ShakeCallKeeps(ch, step.conn, step.action.ec, [], true, handed);
      AfterShakeInv(ch, sys, sys.reader.id, false, step.action.ec,
                    ShakeCall(ch, step.conn, step.action.ec, [], true));
    }
  }

  lemma ResumeSteps<C(!new)>(ch: Channel<C>, sys: Sys<C>, e: Event<C>)
    requires Inv(ch, sys) && Enabled(ch, sys, e) && (e.ReadResumed? || e.WriteResumed?)
    ensures Inv(ch, Step(ch, sys, e))
  {
    var r, w := sys.reader, sys.writer;
    if e.WriteResumed? {
      ReportReads(sys.(writer := NoWriter), WriteDone(w.id, w.ec, w.plain));
    } else {
      ReportReads(sys.(reader := NoReader),
                  if r.ReadYielded? then ReadDone(r.id, r.size, r.result) else HandshakeDone(r.id, r.ec));
    }
  }

  lemma AfterWriteInv<C(!new)>(ch: Channel<C>, sys: Sys<C>, id: nat, plain: nat, mark: nat, step: WriteStep<C>)
    requires Inv(ch, sys) && Aside(ch, sys.conn, step.conn)
    ensures Inv(ch, AfterWrite(sys, id, plain, mark, step))
  {
    if step.action.CompleteWrite? {
      ReportReads(sys.(conn := step.conn, writer := NoWriter), WriteDone(id, step.action.ec, plain));
    }
    AsideKeeps(ch, sys, AfterWrite(sys, id, plain, mark, step));
  }

  lemma WriteStarts<C(!new)>(ch: Channel<C>, sys: Sys<C>, data: Bytes)
    requires Orderly(ch) && Inv(ch, sys) && Enabled(ch, sys, StartWrite(data))
    ensures Inv(ch, Step(ch, sys, StartWrite(data)))
  {
    var s, s1 := sys.conn, BeginWrite(ch, sys.conn, data);
    WritesAside(ch, s, data, []);
    AfterWriteInv(ch, sys.(started := sys.started + 1), sys.started, PlainBytes(ch, s, data), |s1.emitted|,
                  WriteCall(s1, EncryptError(ch, s, data), 0, false));
  }

  lemma ShutdownStarts<C(!new)>(ch: Channel<C>, sys: Sys<C>)
    requires Orderly(ch) && Inv(ch, sys) && Enabled(ch, sys, StartShutdown)
    ensures Inv(ch, Step(ch, sys, StartShutdown))
  {
    var s, s1 := sys.conn, Close(ch, sys.conn);
    WritesAside(ch, s, [], []);
    AfterWriteInv(ch, sys.(started := sys.started + 1), sys.started, |s1.sendBuffer|, |s1.emitted|,
                  WriteCall(s1, CloseError(ch, s), 0, false));
  }

  lemma WriteArrivals<C(!new)>(ch: Channel<C>, sys: Sys<C>, ev: WriteEvent)
    requires Inv(ch, sys) && Enabled(ch, sys, WriteArrives(ev))
    ensures Inv(ch, Step(ch, sys, WriteArrives(ev)))
  {
    var w := sys.writer;
    WriteReturnsEffect(sys.conn, w.inFlight, ev);
    AfterWriteInv(ch, sys, w.id, w.plain, w.mark, WriteReturns(sys.conn, w.inFlight, ev));
  }

  lemma BlockingWrites<C(!new)>(ch: Channel<C>, sys: Sys<C>, e: Event<C>)
    requires Orderly(ch) && Inv(ch, sys) && Enabled(ch, sys, e) && (e.SyncWrite? || e.SyncShutdown?)
    ensures Inv(ch, Step(ch, sys, e))
  {
    var t := Step(ch, sys, e);
    WritesAside(ch, sys.conn, if e.SyncWrite? then e.data else [], e.outgoing);
    var c := t.completed[|sys.completed|];
    assert t == sys.(started := t.started, conn := t.conn).Report(c);
    ReportReads(sys.(started := t.started, conn := t.conn), c);
    AsideKeeps(ch, sys, t);
  }

  /** Filing the result of a blocking read. */
  lemma FileRead<C(!new)>(ch: Channel<C>, sys: Sys<C>, s: Conn<C>, size: nat, result: Returned)
    requires Inv(ch, sys) && sys.reader.NoReader? && ConnInv(ch, s)
    requires ReadBytes(sys.completed) + result.data + s.receiveBuffer == s.produced
    ensures Inv(ch, sys.(started := sys.started + 1, conn := s).Report(ReadDone(sys.started, size, result)))
  {
    ReportReads(sys.(started := sys.started + 1, conn := s), ReadDone(sys.started, size, result));
  }

  lemma BlockingReads<C(!new)>(ch: Channel<C>, sys: Sys<C>, e: Event<C>)
    requires Orderly(ch) && Inv(ch, sys) && Enabled(ch, sys, e) && e.SyncRead?
    ensures Inv(ch, Step(ch, sys, e))
  {
    var handed := ReadBytes(sys.completed);
    assert handed + Held(sys.reader) == handed;
    ReadSomeKeeps(ch, sys.conn, e.size, Success, e.incoming, handed);
    var r := ReadSome(ch, sys.conn, e.size, Success, e.incoming);
    FileRead(ch, sys, r.conn, e.size, r.returned.value);
  }

  lemma BlockingHandshakes<C(!new)>(ch: Channel<C>, sys: Sys<C>, e: Event<C>)
    requires Orderly(ch) && Inv(ch, sys) && Enabled(ch, sys, e) && e.SyncHandshake?
    ensures Inv(ch, Step(ch, sys, e))
  {
    var handed := ReadBytes(sys.completed);
    assert handed + Held(sys.reader) == handed;
    var s, ec := sys.conn.Absorb(e.setup), e.setup.Error();
    var r := Handshake(ch, s, ec, e.incoming, e.outgoing);
    if !ec.Failed() {
      HandshakeKeeps(ch, s, ec, e.incoming, e.outgoing, handed);
    }
    ReportReads(sys.(started := sys.started + 1, conn := r.conn), HandshakeDone(sys.started, r.ec.value));
  }

  /** Every enabled step keeps the invariant. */
  lemma StepKeeps<C(!new)>(ch: Channel<C>, sys: Sys<C>, e: Event<C>)
    requires Orderly(ch) && Inv(ch, sys) && Enabled(ch, sys, e)
    ensures Inv(ch, Step(ch, sys, e))
  {
    match e
    case StartRead(_) => ReaderSteps(ch, sys, e);
    case StartHandshake(_) => ShakeSteps(ch, sys, e);
    case ReadArrives(_) =>
      if sys.reader.Reading? { ReaderSteps(ch, sys, e); } else { ShakeSteps(ch, sys, e); }
    case ReadResumed(_) => ResumeSteps(ch, sys, e);
    case NestedArrives(ev) => NestedSteps(ch, sys, ev);
    case StartWrite(data) => WriteStarts(ch, sys, data);
    case StartShutdown => ShutdownStarts(ch, sys);
    case WriteArrives(ev) => WriteArrivals(ch, sys, ev);
    case WriteResumed(_) => ResumeSteps(ch, sys, e);
    case SyncRead(_, _) => BlockingReads(ch, sys, e);
    case SyncHandshake(_, _, _) => BlockingHandshakes(ch, sys, e);
    case SyncWrite(_, _) => BlockingWrites(ch, sys, e);
    case SyncShutdown(_) => BlockingWrites(ch, sys, e);
  }
}
