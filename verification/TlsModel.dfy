/**
 The TLS stream that sits between a byte transport and a TLS channel
 (vendors/asio_stream.h), as functions on values: the stream state, the
 callbacks that fill its buffers, and the blocking operations.

 The channel is an arbitrary deterministic machine with state type `C`, given
 as four functions.  The transport is a script of outcomes.  A blocking call
 that runs out of script has not returned: its result is `None`.

 Besides the source's own fields a `Conn` carries an observation log: what
 went to the wire, what the channel emitted and produced, and whether one of the
 source's internal assertions was violated.
 */
module TlsModel {
  import opened Common

  // ----- error codes, alerts and exceptions

  datatype Category = System | AsioMisc | StreamCategory | AlertCategory | BotanCategory

  /** An error code is a failure exactly when its value is not zero. */
  datatype ErrorCode = ErrorCode(category: Category, value: int) {
    predicate Failed() { value != 0 }
  }

  const Success := ErrorCode(System, 0)
  const Eof := ErrorCode(AsioMisc, 2)
  const StreamTruncated := ErrorCode(StreamCategory, 1)

  type Failure = e: ErrorCode | e.Failed() witness ErrorCode(AsioMisc, 2)

  /** close_notify is alert 0, section 6.1 of RFC 8446. */
  const CLOSE_NOTIFY: nat := 0

  datatype Alert = Alert(kind: nat, fatal: bool)

  /** A local TLS exception never carries close_notify, and error types start at 1. */
  type Code = k: nat | k > 0 witness 1

  datatype Exception = TlsException(alert: Code) | BotanException(errorType: Code) | OtherException

  /** The error code left behind by a guarded call that may have thrown. */
  function TryWithErrorCode(thrown: Option<Exception>, ec: ErrorCode): ErrorCode {
    match thrown
    case None => ec
    case Some(TlsException(alert)) => ErrorCode(AlertCategory, alert)
    case Some(BotanException(errorType)) => ErrorCode(BotanCategory, errorType)
    case Some(OtherException) => ErrorCode(BotanCategory, 1)
  }

  /** An exception is always an error, an alert exactly if it is a TLS exception, and keeps its own code. */
  lemma ThrownCodes(x: Exception, ec: ErrorCode)
    ensures var r := TryWithErrorCode(Some(x), ec);
            && r.Failed() && r != Eof
            && (r.category == AlertCategory <==> x.TlsException?)
            && (r.category == BotanCategory <==> !x.TlsException?)
            && (x.TlsException? ==> r.value == x.alert)
            && (x.BotanException? ==> r.value == x.errorType)
            && (x.OtherException? ==> r.value == 1)
    ensures TryWithErrorCode(None, ec) == ec
  {
  }

  /** A network error as a reading call reports it: an unannounced end of file is a truncated stream. */
  function Reported(e: ErrorCode): ErrorCode {
    if e == Eof then StreamTruncated else e
  }

  // ----- the channel and the transport

  datatype Callback = EmitData(data: Bytes) | RecordReceived(data: Bytes) | TlsAlert(alert: Alert)

  /** What one `received_data` call does: callbacks in order, then maybe an exception. */
  datatype Reaction<C> = Reaction(chan: C, callbacks: seq<Callback>, thrown: Option<Exception>)

  /** What setting the channel up, `send` or `close` does: it can only emit records, and may throw. */
  datatype Emission<C> = Emission(chan: C, data: Bytes, thrown: Option<Exception>) {
    function Error(): ErrorCode { TryWithErrorCode(thrown, Success) }
  }

  datatype Channel<!C> = Channel(
    receivedData: (C, Bytes) -> Reaction<C>,
    send: (C, Bytes) -> Emission<C>,
    close: C -> Emission<C>,
    handshakeComplete: C -> bool)

  /** One transport read: some bytes, or a network error. */
  datatype ReadEvent = Data(bytes: Bytes) | ReadFail(error: Failure)

  /** One transport write: up to `n` bytes moved, or a network error and nothing moved. */
  datatype WriteEvent = Wrote(n: nat) | WriteFail(error: Failure)

  // ----- the stream state

  datatype Conn<C> = Conn(
    chan: C,
    sendBuffer: Bytes,
    receiveBuffer: Bytes,
    alertFromPeer: Option<Alert>,
    ecFromLastRead: ErrorCode,
    // observation log
    wire: Bytes,
    emitted: Bytes,
    fed: Bytes,
    produced: Bytes,
    violated: bool)
  {
    predicate ShutdownReceived() {
      alertFromPeer.Some? && alertFromPeer.value.kind == CLOSE_NOTIFY
    }

    /** Neither side has ended the session with an alert or an error. */
    predicate Healthy() {
      !ecFromLastRead.Failed() && alertFromPeer.None?
    }

    /** The callbacks `tls_emit_data`, `tls_record_received` and `tls_alert`. */
    function Apply(cb: Callback): Conn<C> {
      match cb
      case EmitData(data) => Emit(data)
      case RecordReceived(data) =>
        this.(receiveBuffer := receiveBuffer + data, produced := produced + data)
      case TlsAlert(alert) =>
        if alert.fatal || alert.kind == CLOSE_NOTIFY then this.(alertFromPeer := Some(alert)) else this
    }

    function Emit(data: Bytes): Conn<C> {
      this.(sendBuffer := sendBuffer + data, emitted := emitted + data)
    }

    /** The stream after the channel emitted, whether or not it then threw. */
    function Absorb(e: Emission<C>): Conn<C> {
      this.(chan := e.chan).Emit(e.data)
    }

    function ApplyAll(cbs: seq<Callback>): Conn<C>
      decreases |cbs|
    {
      if cbs == [] then this else Apply(cbs[0]).ApplyAll(cbs[1..])
    }

    /** Bytes handed to the caller's buffer of the given size, and what is left. */
    function Available(size: nat): Bytes {
      receiveBuffer[..Min(size, |receiveBuffer|)]
    }

    function CopyReceivedData(size: nat): Conn<C> {
      this.(receiveBuffer := receiveBuffer[Min(size, |receiveBuffer|)..])
    }

    /** The transport accepted these bytes. */
    function Transmit(bytes: Bytes): Conn<C> {
      this.(wire := wire + bytes)
    }

    function ConsumeSendBuffer(n: nat): Conn<C> {
      this.(sendBuffer := sendBuffer[Min(n, |sendBuffer|)..])
    }

    /** The send buffer is thrown away because encryption failed. */
    function DiscardSendBuffer(): Conn<C> {
      this.(sendBuffer := [])
    }

    /** How much of what was emitted is no longer in the send buffer. */
    function Settled(): int {
      |emitted| - |sendBuffer|
    }

    /** `handle_tls_protocol_errors`: the retained error, once nothing else failed. */
    function ProtocolErrors(ec: ErrorCode): ErrorCode {
      if ec.Failed() then ec
      else if ecFromLastRead.Failed() then ecFromLastRead
      else match alertFromPeer
        case None => ec
        case Some(alert) =>
          if alert.kind == CLOSE_NOTIFY then Eof else ErrorCode(AlertCategory, alert.kind)
    }

    /** An end of file from the transport that no close_notify announced. */
    function MapEof(ec: ErrorCode): ErrorCode {
      if ec == Eof && !ShutdownReceived() then StreamTruncated else ec
    }

    /** The two assertions made before reading from the transport. */
    function CheckBeforeRead(): Conn<C> {
      this.(violated := violated || receiveBuffer != [] || !Healthy())
    }
  }

  function Fresh<C>(chan: C): Conn<C> {
    Conn(chan, [], [], None, Success, [], [], [], [], false)
  }

  /** `process_encrypted_data`, with its assertion that no alert was seen before. */
  function ProcessEncryptedData<C>(ch: Channel<C>, s: Conn<C>, data: Bytes): Conn<C> {
    var r := ch.receivedData(s.chan, data);
    var s1 := s.(violated := s.violated || !s.Healthy(), fed := s.fed + data, chan := r.chan);
    s1.ApplyAll(r.callbacks).(ecFromLastRead := TryWithErrorCode(r.thrown, s.ecFromLastRead))
  }

  // ----- what a reaction amounts to

  function Emits(cbs: seq<Callback>): Bytes {
    if cbs == [] then []
    else (if cbs[0].EmitData? then cbs[0].data else []) + Emits(cbs[1..])
  }

  function Records(cbs: seq<Callback>): Bytes {
    if cbs == [] then []
    else (if cbs[0].RecordReceived? then cbs[0].data else []) + Records(cbs[1..])
  }

  /** The alert retained after the callbacks: the last one that is fatal or close_notify. */
  function Retained(alert: Option<Alert>, cbs: seq<Callback>): Option<Alert>
    decreases |cbs|
  {
    if cbs == [] then alert
    else
      var a := cbs[0];
      Retained(if a.TlsAlert? && (a.alert.fatal || a.alert.kind == CLOSE_NOTIFY) then Some(a.alert) else alert,
               cbs[1..])
  }

  /** What callbacks come to: bytes appended on both sides and an alert that may be new. */
  function Added<C>(s: Conn<C>, emits: Bytes, records: Bytes, alert: Option<Alert>): Conn<C> {
    s.(sendBuffer := s.sendBuffer + emits,
       emitted := s.emitted + emits,
       receiveBuffer := s.receiveBuffer + records,
       produced := s.produced + records,
       alertFromPeer := alert)
  }

  lemma ApplyEffect<C>(s: Conn<C>, cb: Callback)
    ensures s.Apply(cb) == Added(s, if cb.EmitData? then cb.data else [], if cb.RecordReceived? then cb.data else [],
                                 s.Apply(cb).alertFromPeer)
  {
    assert s.sendBuffer + [] == s.sendBuffer && s.emitted + [] == s.emitted;
    assert s.receiveBuffer + [] == s.receiveBuffer && s.produced + [] == s.produced;
  }

  lemma AddedTwice<C>(s: Conn<C>, e: Bytes, r: Bytes, a: Option<Alert>, e': Bytes, r': Bytes, a': Option<Alert>)
    ensures Added(Added(s, e, r, a), e', r', a') == Added(s, e + e', r + r', a')
  {
    assert s.sendBuffer + e + e' == s.sendBuffer + (e + e') && s.emitted + e + e' == s.emitted + (e + e');
    assert s.receiveBuffer + r + r' == s.receiveBuffer + (r + r') && s.produced + r + r' == s.produced + (r + r');
  }

  /** A whole reaction only appends to the buffers and may replace the retained alert. */
  lemma {:induction false} ApplyAllEffect<C>(s: Conn<C>, cbs: seq<Callback>)
    ensures s.ApplyAll(cbs) == Added(s, Emits(cbs), Records(cbs), Retained(s.alertFromPeer, cbs))
    decreases |cbs|
  {
    if cbs == [] {
      AddedTwice(s, [], [], s.alertFromPeer, [], [], s.alertFromPeer);
      assert s == Added(s, [], [], s.alertFromPeer);
    } else {
      var cb, rest, s1 := cbs[0], cbs[1..], s.Apply(cbs[0]);
      ApplyEffect(s, cb);
      ApplyAllEffect(s1, rest);
      AddedTwice(s, if cb.EmitData? then cb.data else [], if cb.RecordReceived? then cb.data else [], s1.alertFromPeer,
                 Emits(rest), Records(rest), Retained(s1.alertFromPeer, rest));
    }
  }

  lemma ProcessEffect<C>(ch: Channel<C>, s: Conn<C>, data: Bytes)
    ensures var r := ch.receivedData(s.chan, data);
            ProcessEncryptedData(ch, s, data) == s.(
            chan := r.chan,
            sendBuffer := s.sendBuffer + Emits(r.callbacks),
            emitted := s.emitted + Emits(r.callbacks),
            receiveBuffer := s.receiveBuffer + Records(r.callbacks),
            produced := s.produced + Records(r.callbacks),
            alertFromPeer := Retained(s.alertFromPeer, r.callbacks),
            ecFromLastRead := TryWithErrorCode(r.thrown, s.ecFromLastRead),
            fed := s.fed + data,
            violated := s.violated || !s.Healthy())
  {
    var r := ch.receivedData(s.chan, data);
    ApplyAllEffect(s.(violated := s.violated || !s.Healthy(), fed := s.fed + data, chan := r.chan), r.callbacks);
  }

  /**
   The conduct asked of a channel: application data only once its handshake is
   complete, and a completed handshake stays completed.
   */
  ghost predicate Orderly<C(!new)>(ch: Channel<C>) {
    && (forall c: C, b: Bytes ::
          var r := ch.receivedData(c, b);
          (Records(r.callbacks) != [] || ch.handshakeComplete(c)) ==> ch.handshakeComplete(r.chan))
    && (forall c: C, b: Bytes :: ch.handshakeComplete(c) ==> ch.handshakeComplete(ch.send(c, b).chan))
    && (forall c: C :: ch.handshakeComplete(c) ==> ch.handshakeComplete(ch.close(c).chan))
  }

  /** Handing the channel no bytes at all does nothing. */
  ghost predicate EmptyInputIsNoOp<C(!new)>(ch: Channel<C>) {
    forall c: C :: ch.receivedData(c, []) == Reaction(c, [], None)
  }

  // ----- the blocking operations

  datatype Returned = Returned(ec: ErrorCode, data: Bytes)

  datatype ReadResult<C> = ReadResult(conn: Conn<C>, returned: Option<Returned>, incoming: seq<ReadEvent>)

  datatype SendResult<C> = SendResult(conn: Conn<C>, ec: Option<ErrorCode>, outgoing: seq<WriteEvent>)

  datatype HandshakeResult<C> =
    HandshakeResult(conn: Conn<C>, ec: Option<ErrorCode>, incoming: seq<ReadEvent>, outgoing: seq<WriteEvent>)

  /** `read_some`: bytes if any are there, else a retained error, else read more. */
  function ReadSome<C>(ch: Channel<C>, s: Conn<C>, size: nat, ec: ErrorCode, incoming: seq<ReadEvent>): ReadResult<C>
    decreases |incoming|
  {
    if ec.Failed() then ReadResult(s, Some(Returned(ec, [])), incoming)
    else if s.receiveBuffer != [] then
      ReadResult(s.CopyReceivedData(size), Some(Returned(ec, s.Available(size))), incoming)
    else if s.ProtocolErrors(ec).Failed() then ReadResult(s, Some(Returned(s.ProtocolErrors(ec), [])), incoming)
    else
      var s1 := s.CheckBeforeRead();
      if incoming == [] then ReadResult(s1, None, [])
      else match incoming[0]
        case Data(bytes) => ReadSome(ch, ProcessEncryptedData(ch, s1, bytes), size, Success, incoming[1..])
        case ReadFail(e) =>
          ReadResult(s1, Some(Returned(Reported(e), [])), incoming[1..])
  }

  /** `boost::asio::write` of the whole send buffer, consuming what was accepted. */
  function WriteAll<C>(s: Conn<C>, outgoing: seq<WriteEvent>): SendResult<C>
    decreases |outgoing|
  {
    if s.sendBuffer == [] then SendResult(s, Some(Success), outgoing)
    else if outgoing == [] then SendResult(s, None, [])
    else match outgoing[0]
      case Wrote(n) =>
        var k := Min(n, |s.sendBuffer|);
        WriteAll(s.Transmit(s.sendBuffer[..k]).ConsumeSendBuffer(k), outgoing[1..])
      case WriteFail(e) => SendResult(s, Some(s.MapEof(e)), outgoing[1..])
  }

  /** `send_pending_encrypted_data`. */
  function SendPending<C>(s: Conn<C>, ec: ErrorCode, outgoing: seq<WriteEvent>): SendResult<C> {
    if ec.Failed() then SendResult(s, Some(ec), outgoing) else WriteAll(s, outgoing)
  }

  /** The first part of a round of `handshake`: what is pending is sent. */
  function Flush<C>(s: Conn<C>, ec: ErrorCode, outgoing: seq<WriteEvent>): SendResult<C> {
    if s.sendBuffer != [] then SendPending(s, ec, outgoing) else SendResult(s, Some(ec), outgoing)
  }

  /** The loop of `handshake`, after the channel was set up with outcome `ec`. */
  function Handshake<C>(ch: Channel<C>, s: Conn<C>, ec: ErrorCode, incoming: seq<ReadEvent>, outgoing: seq<WriteEvent>)
    : HandshakeResult<C>
    decreases |incoming|
  {
    if ec.Failed() then HandshakeResult(s, Some(ec), incoming, outgoing)
    else
      var w := Flush(s, ec, outgoing);
      if w.ec.None? then HandshakeResult(w.conn, None, incoming, w.outgoing)
      else if ch.handshakeComplete(w.conn.chan) then HandshakeResult(w.conn, w.ec, incoming, w.outgoing)
      else
        var e := w.conn.ProtocolErrors(w.ec.value);
        if e.Failed() then HandshakeResult(w.conn, Some(e), incoming, w.outgoing)
        else
          var s1 := w.conn.CheckBeforeRead();
          if incoming == [] then HandshakeResult(s1, None, [], w.outgoing)
          else match incoming[0]
            case Data(bytes) =>
              Handshake(ch, ProcessEncryptedData(ch, s1, bytes), Success, incoming[1..], w.outgoing)
            case ReadFail(f) =>
              HandshakeResult(s1, Some(Reported(f)), incoming[1..], w.outgoing)
  }

  /** `tls_encrypt`: records go to the send buffer even when the channel then throws. */
  function Encrypt<C>(ch: Channel<C>, s: Conn<C>, data: Bytes): Conn<C> {
    s.Absorb(ch.send(s.chan, data))
  }

  function EncryptError<C>(ch: Channel<C>, s: Conn<C>, data: Bytes): ErrorCode {
    ch.send(s.chan, data).Error()
  }

  /** `close` on the channel, which emits our close_notify. */
  function Close<C>(ch: Channel<C>, s: Conn<C>): Conn<C> {
    s.Absorb(ch.close(s.chan))
  }

  function CloseError<C>(ch: Channel<C>, s: Conn<C>): ErrorCode {
    ch.close(s.chan).Error()
  }

  /** `write_some`: encrypt, then flush the send buffer. */
  function WriteSome<C>(ch: Channel<C>, s: Conn<C>, data: Bytes, outgoing: seq<WriteEvent>): SendResult<C> {
    SendPending(Encrypt(ch, s, data), EncryptError(ch, s, data), outgoing)
  }

  /** `shutdown`: close the channel, then flush the send buffer. */
  function Shutdown<C>(ch: Channel<C>, s: Conn<C>, outgoing: seq<WriteEvent>): SendResult<C> {
    SendPending(Close(ch, s), CloseError(ch, s), outgoing)
  }

  lemma {:induction false} WriteAllEffect<C>(s: Conn<C>, outgoing: seq<WriteEvent>)
    ensures var r := WriteAll(s, outgoing);
            && r.conn == s.(wire := r.conn.wire, sendBuffer := r.conn.sendBuffer)
            && r.conn.wire + r.conn.sendBuffer == s.wire + s.sendBuffer
            && s.wire <= r.conn.wire
            && (r.ec.Some? && !r.ec.value.Failed() ==> r.ec.value == Success && r.conn.sendBuffer == [])
            && (r.ec.Some? ==> s.MapEof(r.ec.value) == r.ec.value)
    decreases |outgoing|
  {
    if s.sendBuffer != [] && outgoing != [] && outgoing[0].Wrote? {
      var k := Min(outgoing[0].n, |s.sendBuffer|);
      var s1 := s.Transmit(s.sendBuffer[..k]).ConsumeSendBuffer(k);
      assert s1.wire + s1.sendBuffer == s.wire + s.sendBuffer;
      WriteAllEffect(s1, outgoing[1..]);
    }
  }

  // ----- how much a transport accepts

  /** A write's outcome with an unannounced end of file renamed. */
  function Mapped<C>(s: Conn<C>, r: Option<ErrorCode>): Option<ErrorCode> {
    if r.None? then None else Some(s.MapEof(r.value))
  }

  datatype Accepted = Accepted(written: nat, outcome: Option<ErrorCode>, outgoing: seq<WriteEvent>)

  /** How much of `size` pending bytes a transport accepts before all are written or one write fails. */
  function Accept(size: nat, outgoing: seq<WriteEvent>): (a: Accepted)
    ensures a.written <= size
    decreases |outgoing|
  {
    if size == 0 then Accepted(0, Some(Success), outgoing)
    else if outgoing == [] then Accepted(0, None, [])
    else match outgoing[0]
      case Wrote(n) =>
        var k := Min(n, size);
        var a := Accept(size - k, outgoing[1..]);
        a.(written := k + a.written)
      case WriteFail(error) => Accepted(0, Some(error), outgoing[1..])
  }

  /** The stream after `n` bytes of its send buffer were accepted. */
  function Advance<C>(s: Conn<C>, n: nat): Conn<C>
    requires n <= |s.sendBuffer|
  {
    s.(wire := s.wire + s.sendBuffer[..n], sendBuffer := s.sendBuffer[n..])
  }

  lemma AdvanceTwice<C>(s: Conn<C>, k: nat, m: nat)
    requires k + m <= |s.sendBuffer|
    ensures Advance(Advance(s, k), m) == Advance(s, k + m)
    ensures Advance(s, 0) == s
  {
    var b := s.sendBuffer;
    assert b[k..][m..] == b[k + m..];
    assert s.wire + b[..k] + b[k..][..m] == s.wire + b[..k + m];
    assert s.wire + b[..0] == s.wire;
  }

  /** One accepted piece, then the rest. */
  lemma AcceptPiece(size: nat, outgoing: seq<WriteEvent>, k: nat)
    requires size > 0 && outgoing != [] && outgoing[0].Wrote? && k == Min(outgoing[0].n, size)
    ensures var a := Accept(size - k, outgoing[1..]); Accept(size, outgoing) == a.(written := k + a.written)
  {
  }

  lemma WritePiece<C>(s: Conn<C>, outgoing: seq<WriteEvent>, k: nat)
    requires s.sendBuffer != [] && outgoing != [] && outgoing[0].Wrote? && k == Min(outgoing[0].n, |s.sendBuffer|)
    ensures WriteAll(s, outgoing) == WriteAll(Advance(s, k), outgoing[1..])
  {
    assert s.Transmit(s.sendBuffer[..k]).ConsumeSendBuffer(k) == Advance(s, k);
  }

  /** The outcome of a blocking write, once the transport's is known. */
  function Outcome<C>(s: Conn<C>, a: Accepted, outgoing: seq<WriteEvent>): SendResult<C>
    requires a.written <= |s.sendBuffer|
  {
    SendResult(Advance(s, a.written), Mapped(s, a.outcome), outgoing)
  }

  lemma OutcomeOfRest<C>(s: Conn<C>, k: nat, a: Accepted, outgoing: seq<WriteEvent>)
    requires k + a.written <= |s.sendBuffer|
    ensures Outcome(Advance(s, k), a, outgoing) == Outcome(s, a.(written := k + a.written), outgoing)
  {
    AdvanceTwice(s, k, a.written);
  }

  predicate AcceptsPiece(size: nat, outgoing: seq<WriteEvent>) {
    size > 0 && outgoing != [] && outgoing[0].Wrote?
  }

  /** Consuming after each accepted piece, or once at the end, comes to the same. */
  ghost predicate ConsumesAlike<C>(s: Conn<C>, outgoing: seq<WriteEvent>) {
    var a := Accept(|s.sendBuffer|, outgoing);
    WriteAll(s, outgoing) == Outcome(s, a, a.outgoing)
  }

  lemma NothingAccepted<C>(s: Conn<C>, outgoing: seq<WriteEvent>)
    requires !AcceptsPiece(|s.sendBuffer|, outgoing)
    ensures ConsumesAlike(s, outgoing)
  {
    AdvanceTwice(s, 0, 0);
  }

  lemma PieceAccepted<C>(s: Conn<C>, outgoing: seq<WriteEvent>, k: nat)
    requires AcceptsPiece(|s.sendBuffer|, outgoing) && k == Min(outgoing[0].n, |s.sendBuffer|)
    requires ConsumesAlike(Advance(s, k), outgoing[1..])
    ensures ConsumesAlike(s, outgoing)
  {
    var n := |s.sendBuffer|;
    var a := Accept(n - k, outgoing[1..]);
    assert |Advance(s, k).sendBuffer| == n - k;
    WritePiece(s, outgoing, k);
    AcceptPiece(n, outgoing, k);
    OutcomeOfRest(s, k, a, a.outgoing);
  }

  lemma {:induction false} WriteAllAccepts<C>(s: Conn<C>, outgoing: seq<WriteEvent>)
    ensures ConsumesAlike(s, outgoing)
    decreases |outgoing|
  {
    if AcceptsPiece(|s.sendBuffer|, outgoing) {
      var k := Min(outgoing[0].n, |s.sendBuffer|);
      WriteAllAccepts(Advance(s, k), outgoing[1..]);
      PieceAccepted(s, outgoing, k);
    } else {
      NothingAccepted(s, outgoing);
    }
  }

  /** A flush in terms of what the transport accepts; only the wire and the send buffer change. */
  lemma FlushAccepts<C>(s: Conn<C>, outgoing: seq<WriteEvent>)
    ensures var a := Accept(|s.sendBuffer|, outgoing);
            Flush(s, Success, outgoing) == SendResult(Advance(s, a.written), Mapped(s, a.outcome), a.outgoing)
  {
    WriteAllAccepts(s, outgoing);
  }

  lemma {:induction false} AcceptedWhole(size: nat, outgoing: seq<WriteEvent>)
    ensures var a := Accept(size, outgoing);
            && |a.outgoing| <= |outgoing|
            && (a.outcome.Some? && !a.outcome.value.Failed() ==> a.outcome.value == Success && a.written == size)
    decreases |outgoing|
  {
    if size != 0 && outgoing != [] && outgoing[0].Wrote? {
      AcceptedWhole(size - Min(outgoing[0].n, size), outgoing[1..]);
    }
  }
}
