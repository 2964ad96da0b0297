/**
 The resumable operations of vendors/asio_async_ops.h, as functions of one call
 operator invocation, and their agreement with the blocking operations.

 A call either waits for the transport, or yields through a zero-byte transfer
 because it runs inside the initiating call, or completes.
 */
module TlsAsync {
  import opened Common
  import opened TlsModel

  // ----- one invocation of each call operator

  datatype ReadAction = AwaitRead | YieldRead(result: Returned) | CompleteRead(result: Returned)

  datatype ReadStep<C> = ReadStep(conn: Conn<C>, action: ReadAction)

  /** Both reading operations hand received bytes to the channel first. */
  function Ingest<C>(ch: Channel<C>, s: Conn<C>, ec: ErrorCode, data: Bytes): Conn<C> {
    if !ec.Failed() && data != [] then ProcessEncryptedData(ch, s, data) else s
  }

  /** The rest of a read call, once received bytes are processed. */
  function ReadTail<C>(s: Conn<C>, size: nat, ec: ErrorCode, isContinuation: bool): ReadStep<C> {
    var ec2 := if !ec.Failed() && s.receiveBuffer == [] then s.ProtocolErrors(ec) else ec;
    if !ec2.Failed() && s.receiveBuffer == [] && size > 0 then ReadStep(s, AwaitRead)
    else
      var copies := !ec2.Failed() && s.receiveBuffer != [];
      var s2 := if copies then s.CopyReceivedData(size) else s;
      var result := Returned(ec2, if copies then s.Available(size) else []);
      ReadStep(s2, if isContinuation then CompleteRead(result) else YieldRead(result))
  }

  /** `AsyncReadOperation::operator()` entered from the top. */
  function ReadCall<C>(ch: Channel<C>, s: Conn<C>, size: nat, ec: ErrorCode, data: Bytes, isContinuation: bool)
    : ReadStep<C>
  {
    var ec1 := s.MapEof(ec);
    ReadTail(Ingest(ch, s, ec1, data), size, ec1, isContinuation)
  }

  datatype WriteAction = AwaitWrite(inFlight: Bytes) | YieldWrite(ec: ErrorCode) | CompleteWrite(ec: ErrorCode)

  datatype WriteStep<C> = WriteStep(conn: Conn<C>, action: WriteAction)

  /** `AsyncWriteOperation::operator()` entered from the top. */
  function WriteCall<C>(s: Conn<C>, ec: ErrorCode, transferred: nat, isContinuation: bool): WriteStep<C> {
    var ec1 := s.MapEof(ec);
    var s1 := if !ec1.Failed() && transferred > 0 then s.ConsumeSendBuffer(transferred) else s;
    if !ec1.Failed() && s1.sendBuffer != [] then WriteStep(s1, AwaitWrite(s1.sendBuffer))
    else WriteStep(s1, if isContinuation then CompleteWrite(ec1) else YieldWrite(ec1))
  }

  datatype ShakeAction =
    | AwaitShakeRead | NestedWrite | YieldShake(ec: ErrorCode) | CompleteShake(ec: ErrorCode)

  datatype ShakeStep<C> = ShakeStep(conn: Conn<C>, action: ShakeAction)

  /** The rest of a handshake call, once received bytes are processed. */
  function ShakeTail<C>(ch: Channel<C>, s: Conn<C>, ec: ErrorCode, isContinuation: bool): ShakeStep<C> {
    if !ec.Failed() && s.sendBuffer != [] then ShakeStep(s, NestedWrite)
    else
      var pending := !ec.Failed() && !ch.handshakeComplete(s.chan);
      var ec2 := if pending then s.ProtocolErrors(ec) else ec;
      if pending && !ec2.Failed() then ShakeStep(s, AwaitShakeRead)
      else ShakeStep(s, if isContinuation then CompleteShake(ec2) else YieldShake(ec2))
  }

  /** `AsyncHandshakeOperation::operator()` entered from the top. */
  function ShakeCall<C>(ch: Channel<C>, s: Conn<C>, ec: ErrorCode, data: Bytes, isContinuation: bool)
    : ShakeStep<C>
  {
    var ec1 := s.MapEof(ec);
    ShakeTail(ch, Ingest(ch, s, ec1, data), ec1, isContinuation)
  }

  // ----- an operation driven alone over a transport script
  //
  // A yielding call is resumed by its zero-byte transfer, whose own outcome the
  // operation ignores, and then completes with what it stored before.

  function DriveRead<C>(ch: Channel<C>, s: Conn<C>, size: nat, ec: ErrorCode, data: Bytes, isContinuation: bool,
                        incoming: seq<ReadEvent>): ReadResult<C>
    decreases |incoming|
  {
    var step := ReadCall(ch, s, size, ec, data, isContinuation);
    match step.action
    case YieldRead(result) => ReadResult(step.conn, Some(result), incoming)
    case CompleteRead(result) => ReadResult(step.conn, Some(result), incoming)
    case AwaitRead =>
      if incoming == [] then ReadResult(step.conn, None, [])
      else match incoming[0]
        case Data(bytes) => DriveRead(ch, step.conn, size, Success, bytes, true, incoming[1..])
        case ReadFail(e) => DriveRead(ch, step.conn, size, e, [], true, incoming[1..])
  }

  /** `async_read_some` run to its end. */
  function AsyncReadSome<C>(ch: Channel<C>, s: Conn<C>, size: nat, incoming: seq<ReadEvent>): ReadResult<C> {
    DriveRead(ch, s, size, Success, [], false, incoming)
  }

  function DriveWrite<C>(s: Conn<C>, ec: ErrorCode, transferred: nat, isContinuation: bool, outgoing: seq<WriteEvent>)
    : SendResult<C>
    decreases |outgoing|
  {
    var step := WriteCall(s, ec, transferred, isContinuation);
    match step.action
    case YieldWrite(e) => SendResult(step.conn, Some(e), outgoing)
    case CompleteWrite(e) => SendResult(step.conn, Some(e), outgoing)
    case AwaitWrite(inFlight) =>
      if outgoing == [] then SendResult(step.conn, None, [])
      else match outgoing[0]
        case Wrote(n) =>
          var k := Min(n, |inFlight|);
          DriveWrite(step.conn.Transmit(inFlight[..k]), Success, k, true, outgoing[1..])
        case WriteFail(e) => DriveWrite(step.conn, e, 0, true, outgoing[1..])
  }

  /** The stream after the first half of `async_write_some`, which discards on failure. */
  function BeginWrite<C>(ch: Channel<C>, s: Conn<C>, data: Bytes): Conn<C> {
    var s1 := Encrypt(ch, s, data);
    if EncryptError(ch, s, data).Failed() then s1.DiscardSendBuffer() else s1
  }

  /** The byte count `async_write_some` will report, whatever the transport does. */
  function PlainBytes<C>(ch: Channel<C>, s: Conn<C>, data: Bytes): nat {
    if EncryptError(ch, s, data).Failed() then 0 else |data|
  }

  /** `async_write_some` run to its end. */
  function AsyncWriteSome<C>(ch: Channel<C>, s: Conn<C>, data: Bytes, outgoing: seq<WriteEvent>): SendResult<C> {
    DriveWrite(BeginWrite(ch, s, data), EncryptError(ch, s, data), 0, false, outgoing)
  }

  /** `async_shutdown` run to its end. */
  function AsyncShutdown<C>(ch: Channel<C>, s: Conn<C>, outgoing: seq<WriteEvent>): SendResult<C> {
    DriveWrite(Close(ch, s), CloseError(ch, s), 0, false, outgoing)
  }

  lemma {:induction false} DriveWriteFlushes<C>(s: Conn<C>, ec: ErrorCode, k: nat, isContinuation: bool,
                                                outgoing: seq<WriteEvent>)
    ensures var r := DriveWrite(s, ec, k, isContinuation, outgoing);
            r.ec.Some? && !r.ec.value.Failed() ==> r.conn.sendBuffer == []
    decreases |outgoing|
  {
    var step := WriteCall(s, ec, k, isContinuation);
    if step.action.AwaitWrite? && outgoing != [] {
      match outgoing[0]
      case Wrote(n) =>
        var m := Min(n, |step.action.inFlight|);
        DriveWriteFlushes(step.conn.Transmit(step.action.inFlight[..m]), Success, m, true, outgoing[1..]);
      case WriteFail(e) => DriveWriteFlushes(step.conn, e, 0, true, outgoing[1..]);
    }
  }

  /**
   The handshake operation and the write operations it nests: a write finishes
   by calling the handshake back with its error code and zero bytes.
   */
  function DriveShake<C>(ch: Channel<C>, s: Conn<C>, ec: ErrorCode, data: Bytes, isContinuation: bool,
                         incoming: seq<ReadEvent>, outgoing: seq<WriteEvent>): HandshakeResult<C>
    decreases |incoming|, if ShakeCall(ch, s, ec, data, isContinuation).action.NestedWrite? then 1 else 0
  {
    var step := ShakeCall(ch, s, ec, data, isContinuation);
    match step.action
    case YieldShake(e) => HandshakeResult(step.conn, Some(e), incoming, outgoing)
    case CompleteShake(e) => HandshakeResult(step.conn, Some(e), incoming, outgoing)
    case NestedWrite =>
      var w := DriveWrite(step.conn, Success, 0, false, outgoing);
      DriveWriteFlushes(step.conn, Success, 0, false, outgoing);
      if w.ec.None? then HandshakeResult(w.conn, None, incoming, w.outgoing)
      else DriveShake(ch, w.conn, w.ec.value, [], true, incoming, w.outgoing)
    case AwaitShakeRead =>
      if incoming == [] then HandshakeResult(step.conn, None, [], outgoing)
      else match incoming[0]
        case Data(bytes) => DriveShake(ch, step.conn, Success, bytes, true, incoming[1..], outgoing)
        case ReadFail(e) => DriveShake(ch, step.conn, e, [], true, incoming[1..], outgoing)
  }

  /** `async_handshake` run to its end, after the channel was set up with outcome `ec`. */
  function AsyncHandshake<C>(ch: Channel<C>, s: Conn<C>, ec: ErrorCode, incoming: seq<ReadEvent>,
                             outgoing: seq<WriteEvent>): HandshakeResult<C> {
    DriveShake(ch, s, ec, [], false, incoming, outgoing)
  }

  // ----- reading: both forms agree

  lemma ProcessNothing<C(!new)>(ch: Channel<C>, s: Conn<C>)
    requires EmptyInputIsNoOp(ch) && s.Healthy()
    ensures ProcessEncryptedData(ch, s, []) == s
  {
    assert s.fed + [] == s.fed;
  }

  lemma {:induction false} DriveReadAgrees<C(!new)>(ch: Channel<C>, s: Conn<C>, size: nat, data: Bytes,
                                                    isContinuation: bool, incoming: seq<ReadEvent>)
    requires EmptyInputIsNoOp(ch) && size > 0
    ensures var s1 := if data != [] then ProcessEncryptedData(ch, s, data) else s;
            DriveRead(ch, s, size, Success, data, isContinuation, incoming)
            == ReadSome(ch, s1, size, Success, incoming)
    decreases |incoming|
  {
    var s1 := if data != [] then ProcessEncryptedData(ch, s, data) else s;
    var step := ReadCall(ch, s, size, Success, data, isContinuation);
    if step.action.AwaitRead? && incoming != [] && incoming[0].Data? {
      assert s1.Healthy() && s1.CheckBeforeRead() == s1;
      ProcessNothing(ch, s1);
      DriveReadAgrees(ch, s1, size, incoming[0].bytes, true, incoming[1..]);
    }
  }

  /** A zero-size read on a healthy idle stream: the asynchronous form returns at once. */
  predicate PollsNothing<C>(s: Conn<C>, size: nat) {
    size == 0 && s.receiveBuffer == [] && s.Healthy()
  }

  lemma {:induction false} FedGrows<C>(ch: Channel<C>, s: Conn<C>, size: nat, incoming: seq<ReadEvent>)
    requires s.receiveBuffer == [] && s.Healthy()
    ensures var r := ReadSome(ch, s, size, Success, incoming);
            r.returned.Some? && !r.returned.value.ec.Failed() ==> |r.incoming| < |incoming|
    decreases |incoming|
  {
    if incoming != [] && incoming[0].Data? {
      var s1 := ProcessEncryptedData(ch, s.CheckBeforeRead(), incoming[0].bytes);
      if s1.receiveBuffer == [] && s1.Healthy() {
        FedGrows(ch, s1, size, incoming[1..]);
      } else {
        assert ReadSome(ch, s1, size, Success, incoming[1..]).incoming == incoming[1..];
      }
    }
  }

  /**
   `async_read_some` and `read_some` over the same script give the same error
   code, the same bytes, the same stream and leave the same script behind,
   for every channel, every stream state and every script, exactly unless the
   caller offers no room on a healthy stream with nothing buffered.
   */
  lemma ReadFormsAgree<C(!new)>(ch: Channel<C>, s: Conn<C>, size: nat, incoming: seq<ReadEvent>)
    requires EmptyInputIsNoOp(ch)
    ensures AsyncReadSome(ch, s, size, incoming) == ReadSome(ch, s, size, Success, incoming)
            <==> !PollsNothing(s, size)
  {
    if size > 0 {
      DriveReadAgrees(ch, s, size, [], false, incoming);
    } else if PollsNothing(s, size) {
      FedGrows(ch, s, size, incoming);
      assert AsyncReadSome(ch, s, size, incoming) == ReadResult(s, Some(Returned(Success, [])), incoming);
    }
  }

  // ----- writing: the forms agree except on failure

  lemma {:induction false} DriveWriteAgrees<C>(s: Conn<C>, k: nat, isContinuation: bool, outgoing: seq<WriteEvent>)
    ensures DriveWrite(s, Success, k, isContinuation, outgoing) == WriteAll(s.ConsumeSendBuffer(k), outgoing)
    decreases |outgoing|
  {
    var s1 := s.ConsumeSendBuffer(k);
    assert k == 0 ==> s1 == s;
    if s1.sendBuffer != [] && outgoing != [] && outgoing[0].Wrote? {
      var m := Min(outgoing[0].n, |s1.sendBuffer|);
      DriveWriteAgrees(s1.Transmit(s1.sendBuffer[..m]), m, true, outgoing[1..]);
    }
  }

  /** The byte count `write_some` returns. */
  function WrittenBytes(ec: ErrorCode, data: Bytes): nat {
    if ec.Failed() then 0 else |data|
  }

  lemma FlushAgrees<C>(s: Conn<C>, outgoing: seq<WriteEvent>)
    ensures DriveWrite(s, Success, 0, false, outgoing) == WriteAll(s, outgoing)
  {
    DriveWriteAgrees(s, 0, false, outgoing);
    assert s.ConsumeSendBuffer(0) == s;
  }

  lemma FailedStartEnds<C>(s: Conn<C>, ec: ErrorCode, outgoing: seq<WriteEvent>)
    requires ec.Failed() && ec != Eof
    ensures DriveWrite(s, ec, 0, false, outgoing) == SendResult(s, Some(ec), outgoing)
  {
  }

  /**
   `async_write_some` and `write_some` agree on error code, stream and script
   exactly when encryption succeeds or leaves the send buffer empty: otherwise
   the asynchronous form throws the send buffer away and the blocking form keeps it.
   */
  lemma WriteFormsAgree<C>(ch: Channel<C>, s: Conn<C>, data: Bytes, outgoing: seq<WriteEvent>)
    ensures AsyncWriteSome(ch, s, data, outgoing) == WriteSome(ch, s, data, outgoing)
            <==> !EncryptError(ch, s, data).Failed() || Encrypt(ch, s, data).sendBuffer == []
  {
    var s1, ec := Encrypt(ch, s, data), EncryptError(ch, s, data);
    if ec.Failed() {
      FailedStartEnds(s1.DiscardSendBuffer(), ec, outgoing);
    } else {
      FlushAgrees(s1, outgoing);
    }
  }

  /** The transport fails before it has accepted `size` bytes. */
  predicate NetworkFails(size: nat, outgoing: seq<WriteEvent>) {
    var outcome := Accept(size, outgoing).outcome;
    outcome.Some? && outcome.value.Failed()
  }

  /**
   When both forms return, they report the same byte count exactly unless
   encryption succeeds, there is something to report and the network fails before
   it has accepted the encrypted bytes: the asynchronous form then reports all
   bytes and the blocking form none.
   */
  lemma WriteCountsAgree<C>(ch: Channel<C>, s: Conn<C>, data: Bytes, outgoing: seq<WriteEvent>)
    ensures var r := WriteSome(ch, s, data, outgoing);
            r.ec.Some? ==>
              (PlainBytes(ch, s, data) == WrittenBytes(r.ec.value, data)
               <==> EncryptError(ch, s, data).Failed() || data == []
                    || !NetworkFails(|Encrypt(ch, s, data).sendBuffer|, outgoing))
  {
    WriteAllAccepts(Encrypt(ch, s, data), outgoing);
  }

  /** `async_shutdown` and `shutdown` always agree. */
  lemma ShutdownFormsAgree<C>(ch: Channel<C>, s: Conn<C>, outgoing: seq<WriteEvent>)
    ensures AsyncShutdown(ch, s, outgoing) == Shutdown(ch, s, outgoing)
  {
    var s1, ec := Close(ch, s), CloseError(ch, s);
    if ec.Failed() {
      FailedStartEnds(s1, ec, outgoing);
    } else {
      FlushAgrees(s1, outgoing);
    }
  }

  // ----- handshaking: both forms agree unless the blocking form asserts

  lemma {:induction false} ViolationStays<C>(ch: Channel<C>, s: Conn<C>, ec: ErrorCode, incoming: seq<ReadEvent>,
                                             outgoing: seq<WriteEvent>)
    requires s.violated
    ensures Handshake(ch, s, ec, incoming, outgoing).conn.violated
    decreases |incoming|
  {
    WriteAllEffect(s, outgoing);
    var w := Flush(s, ec, outgoing);
    if !ec.Failed() && w.ec.Some? && incoming != [] && incoming[0].Data? {
      var s1 := w.conn.CheckBeforeRead();
      var bytes := incoming[0].bytes;
      ProcessEffect(ch, s1, bytes);
      ViolationStays(ch, ProcessEncryptedData(ch, s1, bytes), Success, incoming[1..], w.outgoing);
    }
  }

  ghost predicate ShakeAgreement<C(!new)>(async: HandshakeResult<C>, sync: HandshakeResult<C>) {
    !async.conn.violated && (sync.conn.violated || async == sync)
  }

  /** The agreement from a point where the send buffer has been flushed. */
  lemma {:induction false} FlushedShakeAgrees<C(!new)>(ch: Channel<C>, s: Conn<C>, isContinuation: bool,
                                                       incoming: seq<ReadEvent>, outgoing: seq<WriteEvent>)
    requires EmptyInputIsNoOp(ch) && !s.violated && s.sendBuffer == []
    ensures ShakeAgreement(DriveShake(ch, s, Success, [], isContinuation, incoming, outgoing),
                           Handshake(ch, s, Success, incoming, outgoing))
    decreases |incoming|, 0
  {
    var step := ShakeCall(ch, s, Success, [], isContinuation);
    if step.action.AwaitShakeRead? && incoming != [] && incoming[0].Data? {
      var bytes := incoming[0].bytes;
      ProcessNothing(ch, s);
      ProcessEffect(ch, s, bytes);
      DriveShakeAgrees(ch, s, bytes, true, incoming[1..], outgoing);
      if s.receiveBuffer != [] {
        ProcessEffect(ch, s.CheckBeforeRead(), bytes);
        ViolationStays(ch, ProcessEncryptedData(ch, s.CheckBeforeRead(), bytes), Success, incoming[1..], outgoing);
      }
    }
  }

  /** The blocking form with something to send: an error ends it, otherwise it goes on flushed. */
  lemma FlushFirst<C>(ch: Channel<C>, s: Conn<C>, incoming: seq<ReadEvent>, outgoing: seq<WriteEvent>)
    requires s.sendBuffer != []
    ensures var w := WriteAll(s, outgoing);
            Handshake(ch, s, Success, incoming, outgoing)
            == if w.ec == Some(Success) then Handshake(ch, w.conn, Success, incoming, w.outgoing)
               else HandshakeResult(w.conn, w.ec, incoming, w.outgoing)
  {
    WriteAllEffect(s, outgoing);
  }

  /** The same of the asynchronous form, whose nested write calls it back. */
  lemma NestedFirst<C>(ch: Channel<C>, s: Conn<C>, isContinuation: bool, incoming: seq<ReadEvent>,
                       outgoing: seq<WriteEvent>)
    requires s.sendBuffer != []
    ensures var w := WriteAll(s, outgoing);
            DriveShake(ch, s, Success, [], isContinuation, incoming, outgoing)
            == if w.ec == Some(Success) then DriveShake(ch, w.conn, Success, [], true, incoming, w.outgoing)
               else HandshakeResult(w.conn, w.ec, incoming, w.outgoing)
  {
    FlushAgrees(s, outgoing);
    WriteAllEffect(s, outgoing);
  }

  lemma {:induction false} DriveShakeAgrees<C(!new)>(ch: Channel<C>, s: Conn<C>, data: Bytes, isContinuation: bool,
                                                     incoming: seq<ReadEvent>, outgoing: seq<WriteEvent>)
    requires EmptyInputIsNoOp(ch) && !s.violated && (data != [] ==> s.Healthy())
    ensures var s1 := if data != [] then ProcessEncryptedData(ch, s, data) else s;
            ShakeAgreement(DriveShake(ch, s, Success, data, isContinuation, incoming, outgoing),
                           Handshake(ch, s1, Success, incoming, outgoing))
    decreases |incoming|, 1
  {
    ProcessEffect(ch, s, data);
    var s1 := if data != [] then ProcessEncryptedData(ch, s, data) else s;
    assert ShakeCall(ch, s, Success, data, isContinuation) == ShakeCall(ch, s1, Success, [], isContinuation);
    assert DriveShake(ch, s, Success, data, isContinuation, incoming, outgoing)
        == DriveShake(ch, s1, Success, [], isContinuation, incoming, outgoing);
    PendingShakeAgrees(ch, s1, isContinuation, incoming, outgoing);
  }

  /** The agreement once received bytes are processed. */
  lemma {:induction false} PendingShakeAgrees<C(!new)>(ch: Channel<C>, s: Conn<C>, isContinuation: bool,
                                                       incoming: seq<ReadEvent>, outgoing: seq<WriteEvent>)
    requires EmptyInputIsNoOp(ch) && !s.violated
    ensures ShakeAgreement(DriveShake(ch, s, Success, [], isContinuation, incoming, outgoing),
                           Handshake(ch, s, Success, incoming, outgoing))
    decreases |incoming|, 1, 0
  {
    if s.sendBuffer == [] {
      FlushedShakeAgrees(ch, s, isContinuation, incoming, outgoing);
    } else {
      FlushFirst(ch, s, incoming, outgoing);
      NestedFirst(ch, s, isContinuation, incoming, outgoing);
      WriteAllEffect(s, outgoing);
      var w := WriteAll(s, outgoing);
      if w.ec == Some(Success) {
        FlushedShakeAgrees(ch, w.conn, true, incoming, w.outgoing);
      }
    }
  }

  /**
   The handshake comes to a read while decrypted data is waiting: every flight so
   far is accepted, the channel has neither completed nor ended the session, and
   the last bytes fed to it, or the stream before, brought application data.
   `pending` counts the bytes to send and `buffered` says whether data is waiting.
   */
  predicate ReadsOverData<C>(ch: Channel<C>, chan: C, pending: nat, buffered: bool, incoming: seq<ReadEvent>,
                             outgoing: seq<WriteEvent>)
    decreases |incoming|
  {
    var a := Accept(pending, outgoing);
    && a.outcome == Some(Success)
    && !ch.handshakeComplete(chan)
    && (buffered ||
        (incoming != [] && incoming[0].Data? &&
         var r := ch.receivedData(chan, incoming[0].bytes);
         && r.thrown.None? && Retained(None, r.callbacks).None?
         && ReadsOverData(ch, r.chan, |Emits(r.callbacks)|, Records(r.callbacks) != [], incoming[1..], a.outgoing)))
  }

  /** When the assertion of a blocking handshake fires, told from stream, channel and scripts. */
  predicate HandshakeAsserts<C>(ch: Channel<C>, s: Conn<C>, ec: ErrorCode, incoming: seq<ReadEvent>,
                                outgoing: seq<WriteEvent>) {
    !ec.Failed() && s.Healthy()
    && ReadsOverData(ch, s.chan, |s.sendBuffer|, s.receiveBuffer != [], incoming, outgoing)
  }

  /** The handshake gets as far as a read: flights accepted, session neither complete nor ended. */
  predicate ComesToRead<C>(ch: Channel<C>, s: Conn<C>, outgoing: seq<WriteEvent>) {
    Accept(|s.sendBuffer|, outgoing).outcome == Some(Success) && !ch.handshakeComplete(s.chan) && s.Healthy()
  }

  /** The stream at the read of a round. */
  function AtRead<C>(s: Conn<C>, outgoing: seq<WriteEvent>): Conn<C> {
    Flush(s, Success, outgoing).conn.CheckBeforeRead()
  }

  /** The script left after the flush of a round. */
  function AfterFlush<C>(s: Conn<C>, outgoing: seq<WriteEvent>): seq<WriteEvent> {
    Accept(|s.sendBuffer|, outgoing).outgoing
  }

  lemma RoundReads<C>(ch: Channel<C>, s: Conn<C>, incoming: seq<ReadEvent>, outgoing: seq<WriteEvent>)
    requires ComesToRead(ch, s, outgoing)
    ensures if incoming != [] && incoming[0].Data?
            then Handshake(ch, s, Success, incoming, outgoing)
                 == Handshake(ch, ProcessEncryptedData(ch, AtRead(s, outgoing), incoming[0].bytes), Success,
                              incoming[1..], AfterFlush(s, outgoing))
            else Handshake(ch, s, Success, incoming, outgoing).conn == AtRead(s, outgoing)
  {
    FlushAccepts(s, outgoing);
  }

  /** What the read of a round finds. */
  lemma RoundFinds<C>(ch: Channel<C>, s: Conn<C>, outgoing: seq<WriteEvent>)
    requires ComesToRead(ch, s, outgoing)
    ensures AtRead(s, outgoing)
            == s.(wire := s.wire + s.sendBuffer, sendBuffer := [], violated := s.violated || s.receiveBuffer != [])
  {
    FlushAccepts(s, outgoing);
    AcceptedWhole(|s.sendBuffer|, outgoing);
    assert s.sendBuffer[..|s.sendBuffer|] == s.sendBuffer;
  }

  /** A round that reads over waiting data trips the assertion. */
  lemma RoundAsserts<C>(ch: Channel<C>, s: Conn<C>, incoming: seq<ReadEvent>, outgoing: seq<WriteEvent>)
    requires ComesToRead(ch, s, outgoing) && s.receiveBuffer != []
    ensures Handshake(ch, s, Success, incoming, outgoing).conn.violated
  {
    RoundReads(ch, s, incoming, outgoing);
    RoundFinds(ch, s, outgoing);
    if incoming != [] && incoming[0].Data? {
      var s1, bytes := AtRead(s, outgoing), incoming[0].bytes;
      ProcessEffect(ch, s1, bytes);
      ViolationStays(ch, ProcessEncryptedData(ch, s1, bytes), Success, incoming[1..], AfterFlush(s, outgoing));
    }
  }

  /** A round that reads data over an empty receive buffer passes the question on. */
  lemma RoundPasses<C>(ch: Channel<C>, s: Conn<C>, incoming: seq<ReadEvent>, outgoing: seq<WriteEvent>)
    requires ComesToRead(ch, s, outgoing) && s.receiveBuffer == [] && incoming != [] && incoming[0].Data?
    ensures var t := ProcessEncryptedData(ch, AtRead(s, outgoing), incoming[0].bytes);
            && t.violated == s.violated
            && (HandshakeAsserts(ch, s, Success, incoming, outgoing)
                <==> HandshakeAsserts(ch, t, Success, incoming[1..], AfterFlush(s, outgoing)))
  {
    RoundFinds(ch, s, outgoing);
    ProcessEffect(ch, AtRead(s, outgoing), incoming[0].bytes);
  }

  lemma RoundStops<C>(ch: Channel<C>, s: Conn<C>, incoming: seq<ReadEvent>, outgoing: seq<WriteEvent>)
    requires !ComesToRead(ch, s, outgoing)
    ensures Handshake(ch, s, Success, incoming, outgoing).conn.violated == s.violated
    ensures !HandshakeAsserts(ch, s, Success, incoming, outgoing)
  {
    FlushAccepts(s, outgoing);
    AcceptedWhole(|s.sendBuffer|, outgoing);
  }

  /** A blocking handshake trips an assertion exactly on the streams, channels and scripts described. */
  lemma {:induction false} BlockingHandshakeAsserts<C>(ch: Channel<C>, s: Conn<C>, incoming: seq<ReadEvent>,
                                                       outgoing: seq<WriteEvent>)
    ensures Handshake(ch, s, Success, incoming, outgoing).conn.violated
            <==> s.violated || HandshakeAsserts(ch, s, Success, incoming, outgoing)
    decreases |incoming|
  {
    if !ComesToRead(ch, s, outgoing) {
      RoundStops(ch, s, incoming, outgoing);
    } else if s.receiveBuffer != [] {
      RoundAsserts(ch, s, incoming, outgoing);
    } else {
      RoundReads(ch, s, incoming, outgoing);
      if incoming != [] && incoming[0].Data? {
        RoundPasses(ch, s, incoming, outgoing);
        BlockingHandshakeAsserts(ch, ProcessEncryptedData(ch, AtRead(s, outgoing), incoming[0].bytes), incoming[1..],
                                 AfterFlush(s, outgoing));
      } else {
        RoundFinds(ch, s, outgoing);
      }
    }
  }

  /**
   `async_handshake`, with its nested writes, and `handshake` over the same
   scripts give the same error code and the same stream and leave the same
   scripts behind, exactly unless the handshake comes to a read while decrypted
   data is waiting, which only the blocking form asserts against.
   */
  lemma HandshakeFormsAgree<C(!new)>(ch: Channel<C>, s: Conn<C>, setup: Emission<C>, incoming: seq<ReadEvent>,
                                     outgoing: seq<WriteEvent>)
    requires EmptyInputIsNoOp(ch) && !s.violated
    ensures var s0, ec := s.Absorb(setup), setup.Error();
            AsyncHandshake(ch, s0, ec, incoming, outgoing) == Handshake(ch, s0, ec, incoming, outgoing)
            <==> !HandshakeAsserts(ch, s0, ec, incoming, outgoing)
  {
    if setup.thrown.None? {
      DriveShakeAgrees(ch, s.Absorb(setup), [], false, incoming, outgoing);
      BlockingHandshakeAsserts(ch, s.Absorb(setup), incoming, outgoing);
    }
  }
}
