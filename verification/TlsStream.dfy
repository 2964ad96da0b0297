/**
 The stream and its operations as the source has them: objects whose methods
 update buffers and error codes in place.  Every method is proved against the
 functions of `TlsModel` and `TlsAsync`.
 */
module TlsStream {
  import opened Common
  import opened TlsModel
  import TlsAsync

  class Stream<C> {
    const channel: Channel<C>
    var chan: C
    var sendBuffer: Bytes
    var receiveBuffer: Bytes
    var alertFromPeer: Option<Alert>
    var ecFromLastRead: ErrorCode

    // what the transport will do
    var incoming: seq<ReadEvent>
    var outgoing: seq<WriteEvent>

    // observation log
    ghost var wire: Bytes
    ghost var emitted: Bytes
    ghost var fed: Bytes
    ghost var produced: Bytes
    ghost var violated: bool

    ghost function Value(): Conn<C>
      reads this
    {
      Conn(chan, sendBuffer, receiveBuffer, alertFromPeer, ecFromLastRead,
           wire, emitted, fed, produced, violated)
    }

    constructor (channel: Channel<C>, chan: C, incoming: seq<ReadEvent>, outgoing: seq<WriteEvent>)
      ensures Value() == Fresh(chan) && this.channel == channel
      ensures this.incoming == incoming && this.outgoing == outgoing
    {
      this.channel, this.chan, this.incoming, this.outgoing := channel, chan, incoming, outgoing;
      sendBuffer, receiveBuffer, alertFromPeer, ecFromLastRead := [], [], None, Success;
      wire, emitted, fed, produced, violated := [], [], [], [], false;
    }

    // ----- callbacks

    method TlsEmitData(data: Bytes)
      modifies this
      ensures Value() == old(Value().Emit(data))
      ensures unchanged(`incoming) && unchanged(`outgoing)
    {
      sendBuffer := sendBuffer + data;
      emitted := emitted + data;
    }

    method Callback(cb: Callback)
      modifies this
      ensures Value() == old(Value().Apply(cb))
      ensures unchanged(`incoming) && unchanged(`outgoing)
    {
      match cb
      case EmitData(data) => TlsEmitData(data);
      case RecordReceived(data) =>
        receiveBuffer := receiveBuffer + data;
        produced := produced + data;
      case TlsAlert(alert) =>
        if alert.fatal || alert.kind == CLOSE_NOTIFY {
          alertFromPeer := Some(alert);
        }
    }

    // ----- building blocks

    predicate ShutdownReceived()
      reads this
    {
      alertFromPeer.Some? && alertFromPeer.value.kind == CLOSE_NOTIFY
    }

    method ProcessEncryptedData(data: Bytes)
      modifies this
      ensures Value() == old(TlsModel.ProcessEncryptedData(channel, Value(), data))
      ensures unchanged(`incoming) && unchanged(`outgoing)
    {
      violated := violated || !(alertFromPeer.None? && !ecFromLastRead.Failed());
      fed := fed + data;
      var reaction := channel.receivedData(chan, data);
      chan := reaction.chan;
      var cbs := reaction.callbacks;
      ghost var start := Value();
      for i := 0 to |cbs|
        invariant Value().ApplyAll(cbs[i..]) == start.ApplyAll(cbs)
        invariant unchanged(`incoming) && unchanged(`outgoing)
      {
        assert cbs[i..][0] == cbs[i] && cbs[i..][1..] == cbs[i + 1..];
        Callback(cbs[i]);
      }
      ApplyAllEffect(start, cbs);
      ecFromLastRead := TryWithErrorCode(reaction.thrown, ecFromLastRead);
    }

    method CopyReceivedData(size: nat) returns (data: Bytes)
      modifies this
      ensures Value() == old(Value().CopyReceivedData(size)) && data == old(Value().Available(size))
      ensures unchanged(`incoming) && unchanged(`outgoing)
    {
      var copied := Min(size, |receiveBuffer|);
      data := receiveBuffer[..copied];
      receiveBuffer := receiveBuffer[copied..];
    }

    method HandleTlsProtocolErrors(ec: ErrorCode) returns (r: ErrorCode)
      ensures r == Value().ProtocolErrors(ec)
    {
      r := ec;
      if ec.Failed() {
        return;
      } else if ecFromLastRead.Failed() {
        r := ecFromLastRead;
      } else if alertFromPeer.Some? {
        if alertFromPeer.value.kind == CLOSE_NOTIFY {
          r := Eof;
        } else {
          r := ErrorCode(AlertCategory, alertFromPeer.value.kind);
        }
      }
    }

    /** One transport read; `blocked` when the transport has nothing to say yet. */
    method ReadAndProcessEncryptedData(ec: ErrorCode) returns (blocked: bool, r: ErrorCode)
      modifies this
      ensures unchanged(`outgoing)
      ensures ec.Failed() ==> unchanged(this) && r == ec && !blocked
      ensures !ec.Failed() && old(incoming) == [] ==>
                blocked && Value() == old(Value().CheckBeforeRead()) && incoming == []
      ensures !ec.Failed() && old(incoming) != [] ==> !blocked && incoming == old(incoming)[1..]
      ensures !ec.Failed() && old(incoming) != [] && old(incoming)[0].Data? ==>
                !r.Failed() && r == Success
                && Value() == old(TlsModel.ProcessEncryptedData(channel, Value().CheckBeforeRead(), incoming[0].bytes))
      ensures !ec.Failed() && old(incoming) != [] && old(incoming)[0].ReadFail? ==>
                var e := old(incoming)[0].error;
                r == Reported(e) && Value() == old(Value().CheckBeforeRead())
    {
      blocked, r := false, ec;
      if ec.Failed() {
        return;
      }
      violated := violated || receiveBuffer != [] || !(alertFromPeer.None? && !ecFromLastRead.Failed());
      if incoming == [] {
        blocked := true;
        return;
      }
      var event := incoming[0];
      incoming := incoming[1..];
      match event
      case Data(bytes) =>
        r := Success;
        ProcessEncryptedData(bytes);
      case ReadFail(error) =>
        r := error;
        if r == Eof {
          r := StreamTruncated;
        }
    }

    /** `boost::asio::write` of `size` bytes: how many were written, and the outcome if there is one yet. */
    method AsioWrite(size: nat) returns (written: nat, r: Option<ErrorCode>)
      modifies this`outgoing
      ensures Accepted(written, r, outgoing) == Accept(size, old(outgoing))
    {
      written := 0;
      while written < size
        invariant written <= size
        invariant var a := Accept(size - written, outgoing);
                  a.(written := written + a.written) == Accept(size, old(outgoing))
        decreases |outgoing|
      {
        if outgoing == [] {
          return written, None;
        }
        var event := outgoing[0];
        outgoing := outgoing[1..];
        match event
        case Wrote(n) => written := written + Min(n, size - written);
        case WriteFail(error) => return written, Some(error);
      }
      r := Some(Success);
    }

    /** Writes the whole send buffer to the transport, then consumes what was written. */
    method SendPendingEncryptedData(ec: ErrorCode) returns (r: Option<ErrorCode>)
      modifies this
      ensures unchanged(`incoming)
      ensures SendResult(Value(), r, outgoing) == old(SendPending(Value(), ec, outgoing))
    {
      if ec.Failed() {
        return Some(ec);
      }
      WriteAllAccepts(Value(), outgoing);
      var written;
      written, r := AsioWrite(|sendBuffer|);
      wire := wire + sendBuffer[..written];
      sendBuffer := sendBuffer[written..];
      if r == Some(Eof) && !ShutdownReceived() {
        r := Some(StreamTruncated);
      }
    }

    // ----- the blocking operations

    method ReadSome(size: nat, ec: ErrorCode) returns (r: Option<Returned>)
      modifies this
      ensures unchanged(`outgoing)
      ensures ReadResult(Value(), r, incoming) == old(TlsModel.ReadSome(channel, Value(), size, ec, incoming))
    {
      var e := ec;
      ghost var goal := TlsModel.ReadSome(channel, Value(), size, ec, incoming);
      while !e.Failed()
        invariant unchanged(`outgoing)
        invariant TlsModel.ReadSome(channel, Value(), size, e, incoming) == goal
        decreases !e.Failed(), |incoming|
      {
        if receiveBuffer != [] {
          var data := CopyReceivedData(size);
          return Some(Returned(e, data));
        }
        e := HandleTlsProtocolErrors(e);
        var blocked;
        blocked, e := ReadAndProcessEncryptedData(e);
        if blocked {
          return None;
        }
      }
      return Some(Returned(e, []));
    }

    /** The channel comes into being, and a client's first flight with it. */
    method SetupNativeHandle(setup: Emission<C>) returns (ec: ErrorCode)
      modifies this
      ensures Value() == old(Value().Absorb(setup)) && ec == setup.Error()
      ensures unchanged(`incoming) && unchanged(`outgoing)
    {
      chan := setup.chan;
      TlsEmitData(setup.data);
      ec := TryWithErrorCode(setup.thrown, Success);
    }

    method Handshake(setup: Emission<C>) returns (r: Option<ErrorCode>)
      modifies this
      ensures HandshakeResult(Value(), r, incoming, outgoing)
              == old(TlsModel.Handshake(channel, Value().Absorb(setup), setup.Error(), incoming, outgoing))
    {
      var ec := SetupNativeHandle(setup);
      r := HandshakeLoop(ec);
    }

    method FlushPending(ec: ErrorCode) returns (sent: Option<ErrorCode>)
      modifies this
      ensures unchanged(`incoming)
      ensures SendResult(Value(), sent, outgoing) == old(Flush(Value(), ec, outgoing))
    {
      sent := Some(ec);
      if sendBuffer != [] {
        sent := SendPendingEncryptedData(ec);
      }
    }

    method HandshakeLoop(start: ErrorCode) returns (r: Option<ErrorCode>)
      modifies this
      ensures HandshakeResult(Value(), r, incoming, outgoing)
              == old(TlsModel.Handshake(channel, Value(), start, incoming, outgoing))
    {
      var ec := start;
      ghost var goal := TlsModel.Handshake(channel, Value(), start, incoming, outgoing);
      while !ec.Failed()
        invariant TlsModel.Handshake(channel, Value(), ec, incoming, outgoing) == goal
        decreases !ec.Failed(), |incoming|
      {
        var sent := FlushPending(ec);
        if sent.None? {
          return None;
        }
        ec := sent.value;
        if channel.handshakeComplete(chan) {
          return Some(ec);
        }
        ec := HandleTlsProtocolErrors(ec);
        var blocked;
        blocked, ec := ReadAndProcessEncryptedData(ec);
        if blocked {
          return None;
        }
      }
      return Some(ec);
    }

    method TlsEncrypt(data: Bytes) returns (ec: ErrorCode)
      modifies this
      ensures Value() == old(Encrypt(channel, Value(), data)) && ec == old(EncryptError(channel, Value(), data))
      ensures unchanged(`incoming) && unchanged(`outgoing)
    {
      var e := channel.send(chan, data);
      chan := e.chan;
      TlsEmitData(e.data);
      ec := TryWithErrorCode(e.thrown, Success);
    }

    method WriteSome(data: Bytes) returns (r: Option<ErrorCode>, n: nat)
      modifies this
      ensures unchanged(`incoming)
      ensures SendResult(Value(), r, outgoing) == old(TlsModel.WriteSome(channel, Value(), data, outgoing))
      ensures r.Some? ==> n == TlsAsync.WrittenBytes(r.value, data)
    {
      var ec := TlsEncrypt(data);
      r := SendPendingEncryptedData(ec);
      n := if r.Some? && !r.value.Failed() then |data| else 0;
    }

    method Shutdown() returns (r: Option<ErrorCode>)
      modifies this
      ensures unchanged(`incoming)
      ensures SendResult(Value(), r, outgoing) == old(TlsModel.Shutdown(channel, Value(), outgoing))
    {
      var e := channel.close(chan);
      chan := e.chan;
      TlsEmitData(e.data);
      r := SendPendingEncryptedData(TryWithErrorCode(e.thrown, Success));
    }

    /** The first half of `async_write_some`. */
    method BeginWrite(data: Bytes) returns (ec: ErrorCode, plain: nat)
      modifies this
      ensures unchanged(`incoming) && unchanged(`outgoing)
      ensures Value() == old(TlsAsync.BeginWrite(channel, Value(), data))
      ensures ec == old(EncryptError(channel, Value(), data))
      ensures plain == old(TlsAsync.PlainBytes(channel, Value(), data))
    {
      ec := TlsEncrypt(data);
      if ec.Failed() {
        sendBuffer := [];
      }
      plain := if ec.Failed() then 0 else |data|;
    }
  }

  // ----- the resumable operations

  class AsyncReadOperation<C> {
    const stream: Stream<C>
    const size: nat
    var decoded: Bytes
    var ec: ErrorCode
    var yielded: bool

    constructor (stream: Stream<C>, size: nat)
      ensures this.stream == stream && this.size == size && !yielded && decoded == []
    {
      this.stream, this.size := stream, size;
      decoded, ec, yielded := [], Success, false;
    }

    /** Resumes after the yield with the stored outcome, or runs from the top. */
    method Call(error: ErrorCode, data: Bytes, isContinuation: bool) returns (action: TlsAsync.ReadAction)
      requires !yielded ==> decoded == []
      modifies this, stream
      ensures old(yielded) ==> stream.Value() == old(stream.Value())
                               && action == TlsAsync.CompleteRead(Returned(old(ec), old(decoded)))
      ensures !old(yielded) ==>
                TlsAsync.ReadStep(stream.Value(), action)
                == old(TlsAsync.ReadCall(stream.channel, stream.Value(), size, error, data, isContinuation))
      ensures action.YieldRead? ==> yielded && Returned(ec, decoded) == action.result
      ensures action.AwaitRead? ==> !yielded && decoded == []
    {
      if yielded {
        return TlsAsync.CompleteRead(Returned(ec, decoded));
      }
      var e := error;
      if e == Eof && !stream.ShutdownReceived() {
        e := StreamTruncated;
      }
      if !e.Failed() && data != [] {
        stream.ProcessEncryptedData(data);
      }
      if !e.Failed() && stream.receiveBuffer == [] {
        e := stream.HandleTlsProtocolErrors(e);
        if !e.Failed() && size > 0 {
          return TlsAsync.AwaitRead;
        }
      }
      if !e.Failed() && stream.receiveBuffer != [] {
        decoded := stream.CopyReceivedData(size);
      }
      if !isContinuation {
        ec, yielded := e, true;
        return TlsAsync.YieldRead(Returned(ec, decoded));
      }
      return TlsAsync.CompleteRead(Returned(e, decoded));
    }
  }

  class AsyncWriteOperation<C> {
    const stream: Stream<C>
    const plain: nat
    var ec: ErrorCode
    var yielded: bool

    constructor (stream: Stream<C>, plain: nat)
      ensures this.stream == stream && this.plain == plain && !yielded
    {
      this.stream, this.plain := stream, plain;
      ec, yielded := Success, false;
    }

    method Call(error: ErrorCode, transferred: nat, isContinuation: bool) returns (action: TlsAsync.WriteAction)
      modifies this, stream
      ensures old(yielded) ==> stream.Value() == old(stream.Value()) && action == TlsAsync.CompleteWrite(old(ec))
      ensures !old(yielded) ==>
                TlsAsync.WriteStep(stream.Value(), action)
                == old(TlsAsync.WriteCall(stream.Value(), error, transferred, isContinuation))
      ensures action.YieldWrite? ==> yielded && ec == action.ec
      ensures action.AwaitWrite? ==> !yielded
    {
      if yielded {
        return TlsAsync.CompleteWrite(ec);
      }
      var e := error;
      if e == Eof && !stream.ShutdownReceived() {
        e := StreamTruncated;
      }
      if !e.Failed() && transferred > 0 {
        stream.sendBuffer := stream.sendBuffer[Min(transferred, |stream.sendBuffer|)..];
      }
      if !e.Failed() && stream.sendBuffer != [] {
        return TlsAsync.AwaitWrite(stream.sendBuffer);
      }
      if !isContinuation {
        ec, yielded := e, true;
        return TlsAsync.YieldWrite(e);
      }
      return TlsAsync.CompleteWrite(e);
    }
  }

  class AsyncHandshakeOperation<C> {
    const stream: Stream<C>
    var ec: ErrorCode
    var yielded: bool

    constructor (stream: Stream<C>)
      ensures this.stream == stream && !yielded
    {
      this.stream := stream;
      ec, yielded := Success, false;
    }

    method Call(error: ErrorCode, data: Bytes, isContinuation: bool) returns (action: TlsAsync.ShakeAction)
      modifies this, stream
      ensures old(yielded) ==> stream.Value() == old(stream.Value()) && action == TlsAsync.CompleteShake(old(ec))
      ensures !old(yielded) ==>
                TlsAsync.ShakeStep(stream.Value(), action)
                == old(TlsAsync.ShakeCall(stream.channel, stream.Value(), error, data, isContinuation))
      ensures action.YieldShake? ==> yielded && ec == action.ec
      ensures action.AwaitShakeRead? || action.NestedWrite? ==> !yielded
    {
      if yielded {
        return TlsAsync.CompleteShake(ec);
      }
      var e := error;
      if e == Eof && !stream.ShutdownReceived() {
        e := StreamTruncated;
      }
      if !e.Failed() && data != [] {
        stream.ProcessEncryptedData(data);
      }
      if !e.Failed() && stream.sendBuffer != [] {
        return TlsAsync.NestedWrite;
      }
      if !e.Failed() && !stream.channel.handshakeComplete(stream.chan) {
        e := stream.HandleTlsProtocolErrors(e);
        if !e.Failed() {
          return TlsAsync.AwaitShakeRead;
        }
      }
      if !isContinuation {
        ec, yielded := e, true;
        return TlsAsync.YieldShake(e);
      }
      return TlsAsync.CompleteShake(e);
    }
  }
}
