/**
 What every stream operation keeps on the reading side: nothing the channel
 decrypted is lost or reordered on its way to the caller, every error is
 accounted for, and no internal assertion is violated.
 */
module TlsInvariant {
  import opened Common
  import opened TlsModel

  // ----- the stream as a whole

  ghost predicate ConnInv<C(!new)>(ch: Channel<C>, s: Conn<C>) {
    && !s.violated
    && (s.receiveBuffer != [] ==> ch.handshakeComplete(s.chan))
    && (s.ecFromLastRead.Failed() ==> s.ecFromLastRead.category in {AlertCategory, BotanCategory})
  }

  /** What a finished read may say to its caller about a buffer of `size` bytes. */
  predicate ReadVerdict<C>(s: Conn<C>, size: nat, r: Returned) {
    && |r.data| <= size
    && (r.ec.Failed() ==> r.data == [] && s.receiveBuffer == [])
    && (!r.ec.Failed() && size > 0 ==> r.data != [])
    && (!r.ec.Failed() ==> |r.data| == size || s.receiveBuffer == [])
  }

  /**
   The error a stream has retained: a local one as it is, and before any alert;
   otherwise the peer's alert, of which close_notify is the end of the file.
   */
  predicate RetainedError<C>(s: Conn<C>, ec: ErrorCode) {
    if s.ecFromLastRead.Failed() then ec == s.ecFromLastRead
    else
      && s.alertFromPeer.Some?
      && ec == if s.alertFromPeer.value.kind == CLOSE_NOTIFY then Eof
               else ErrorCode(AlertCategory, s.alertFromPeer.value.kind)
  }

  /** What is reported without any other error: the retained one if there is one, and otherwise none. */
  lemma RetainedIsReported<C>(s: Conn<C>, ec: ErrorCode)
    requires !ec.Failed()
    ensures if s.Healthy() then s.ProtocolErrors(ec) == ec
            else s.ProtocolErrors(ec).Failed() && RetainedError(s, s.ProtocolErrors(ec))
  {
  }

  /** An end of file counts as truncation exactly if no close_notify announced it; other errors stay as they are. */
  lemma EofMapping<C>(s: Conn<C>, e: ErrorCode)
    ensures var announced := s.alertFromPeer.Some? && s.alertFromPeer.value.kind == CLOSE_NOTIFY;
            && (e == Eof && !announced ==> s.MapEof(e) == StreamTruncated)
            && (e != Eof || announced ==> s.MapEof(e) == e)
            && (if e == Eof then Reported(e) == StreamTruncated else Reported(e) == e)
  {
  }

  /** Why a read failed: the error retained by the stream, or the network's last word. */
  predicate ReadExplained<C>(s: Conn<C>, ec: ErrorCode, network: Option<Failure>) {
    ec.Failed() ==>
      || (!s.Healthy() && RetainedError(s, ec))
      || (s.Healthy() && network.Some? && ec == Reported(network.value))
  }

  /** The network error among the events consumed, if the last of them was one. */
  function LastFailure(before: seq<ReadEvent>, after: seq<ReadEvent>): Option<Failure> {
    if |after| < |before| && before[|before| - |after| - 1].ReadFail?
    then Some(before[|before| - |after| - 1].error) else None
  }

  /**
   What a finished handshake may say when neither setup nor network failed:
   success means the channel is complete, an error is the retained TLS error.
   */
  predicate HandshakeOutcome<C>(ch: Channel<C>, s: Conn<C>, ec: ErrorCode) {
    if ec.Failed() then !s.Healthy() && RetainedError(s, ec) else ch.handshakeComplete(s.chan)
  }

  /** The same with every emitted byte out of the send buffer. */
  predicate HandshakeVerdict<C>(ch: Channel<C>, s: Conn<C>, ec: ErrorCode) {
    s.sendBuffer == [] && HandshakeOutcome(ch, s, ec)
  }

  /** No ciphertext was processed between `s` and `t`, so the retained error is untouched. */
  predicate Untouched<C>(s: Conn<C>, t: Conn<C>) {
    && t.alertFromPeer == s.alertFromPeer
    && t.ecFromLastRead == s.ecFromLastRead
    && t.fed == s.fed
    && t.produced == s.produced
  }

  lemma ProcessKeeps<C(!new)>(ch: Channel<C>, s: Conn<C>, data: Bytes, handed: Bytes)
    requires Orderly(ch) && ConnInv(ch, s) && s.Healthy()
    requires handed + s.receiveBuffer == s.produced
    ensures var t := ProcessEncryptedData(ch, s, data);
            && ConnInv(ch, t)
            && handed + t.receiveBuffer == t.produced
  {
    ProcessEffect(ch, s, data);
  }

  /** Every blocking read, over every script. */
  lemma {:induction false} ReadSomeKeeps<C(!new)>(ch: Channel<C>, s: Conn<C>, size: nat, ec: ErrorCode,
                                                  incoming: seq<ReadEvent>, handed: Bytes)
    requires Orderly(ch) && ConnInv(ch, s) && !ec.Failed()
    requires handed + s.receiveBuffer == s.produced
    ensures var r := ReadSome(ch, s, size, ec, incoming);
            && ConnInv(ch, r.conn)
            && (r.returned.Some? ==>
                  && handed + r.returned.value.data + r.conn.receiveBuffer == r.conn.produced
                  && ReadVerdict(r.conn, size, r.returned.value))
            && (!s.Healthy() ==> Untouched(s, r.conn))
    decreases |incoming|
  {
    if s.receiveBuffer != [] {
      var k := Min(size, |s.receiveBuffer|);
      assert s.receiveBuffer == s.receiveBuffer[..k] + s.receiveBuffer[k..];
    } else if s.Healthy() && incoming != [] && incoming[0].Data? {
      assert s.CheckBeforeRead() == s;
      ProcessKeeps(ch, s, incoming[0].bytes, handed);
      ReadSomeKeeps(ch, ProcessEncryptedData(ch, s, incoming[0].bytes), size, Success, incoming[1..], handed);
    } else {
      assert handed + [] == handed;
      assert s.Healthy() ==> s.CheckBeforeRead() == s;
    }
  }

  /** A failed blocking read reports the retained error or the last network error it met. */
  lemma {:induction false} ReadSomeExplains<C>(ch: Channel<C>, s: Conn<C>, size: nat, ec: ErrorCode,
                                               incoming: seq<ReadEvent>)
    requires !ec.Failed()
    ensures var r := ReadSome(ch, s, size, ec, incoming);
            && |r.incoming| <= |incoming|
            && (r.returned.Some? ==>
                  ReadExplained(r.conn, r.returned.value.ec, LastFailure(incoming, r.incoming)))
    decreases |incoming|
  {
    if s.receiveBuffer == [] && s.Healthy() && incoming != [] && incoming[0].Data? {
      assert s.CheckBeforeRead() == s;
      ReadSomeExplains(ch, ProcessEncryptedData(ch, s, incoming[0].bytes), size, Success, incoming[1..]);
    }
  }

  predicate ReadFailedLast(before: seq<ReadEvent>, after: seq<ReadEvent>) {
    LastFailure(before, after).Some?
  }

  function LastWriteFailure(before: seq<WriteEvent>, after: seq<WriteEvent>): Option<Failure> {
    if |after| < |before| && before[|before| - |after| - 1].WriteFail?
    then Some(before[|before| - |after| - 1].error) else None
  }

  predicate WriteFailedLast(before: seq<WriteEvent>, after: seq<WriteEvent>) {
    LastWriteFailure(before, after).Some?
  }

  lemma {:induction false} WriteAllFails<C>(s: Conn<C>, outgoing: seq<WriteEvent>)
    ensures var r := WriteAll(s, outgoing);
            && |r.outgoing| <= |outgoing| && r.outgoing == outgoing[|outgoing| - |r.outgoing|..]
            && (r.ec.Some? && r.ec.value.Failed() ==>
                  && WriteFailedLast(outgoing, r.outgoing)
                  && r.ec.value == s.MapEof(LastWriteFailure(outgoing, r.outgoing).value))
    decreases |outgoing|
  {
    if s.sendBuffer != [] && outgoing != [] && outgoing[0].Wrote? {
      var k := Min(outgoing[0].n, |s.sendBuffer|);
      WriteAllFails(s.Transmit(s.sendBuffer[..k]).ConsumeSendBuffer(k), outgoing[1..]);
    }
  }

  predicate NetworkFailed<C>(incoming: seq<ReadEvent>, outgoing: seq<WriteEvent>, r: HandshakeResult<C>) {
    ReadFailedLast(incoming, r.incoming) || WriteFailedLast(outgoing, r.outgoing)
  }

  /** The error is that of the network event met last. */
  predicate NetworkReported<C>(incoming: seq<ReadEvent>, outgoing: seq<WriteEvent>, r: HandshakeResult<C>,
                               ec: ErrorCode) {
    || (ReadFailedLast(incoming, r.incoming) && ec == Reported(LastFailure(incoming, r.incoming).value))
    || (WriteFailedLast(outgoing, r.outgoing) && ec == r.conn.MapEof(LastWriteFailure(outgoing, r.outgoing).value))
  }

  /** What a handshake result says about the scripts it was given. */
  ghost predicate HandshakeSound<C(!new)>(ch: Channel<C>, incoming: seq<ReadEvent>, outgoing: seq<WriteEvent>,
                                          handed: Bytes, r: HandshakeResult<C>) {
    && ConnInv(ch, r.conn)
    && handed + r.conn.receiveBuffer == r.conn.produced
    && |r.incoming| <= |incoming| && |r.outgoing| <= |outgoing|
    && (r.ec.Some? ==>
          || HandshakeVerdict(ch, r.conn, r.ec.value)
          || (r.ec.value.Failed() && NetworkReported(incoming, outgoing, r, r.ec.value)))
  }

  lemma SoundOnSuffix<C(!new)>(ch: Channel<C>, incoming: seq<ReadEvent>, outgoing: seq<WriteEvent>,
                               later: seq<WriteEvent>, handed: Bytes, r: HandshakeResult<C>)
    requires incoming != []
    requires |later| <= |outgoing| && later == outgoing[|outgoing| - |later|..]
    requires HandshakeSound(ch, incoming[1..], later, handed, r)
    ensures HandshakeSound(ch, incoming, outgoing, handed, r)
  {
  }

  /**
   Every blocking handshake over every script: no assertion fires, success means
   complete and flushed, and an error is either a retained TLS error reported
   after the last byte of the alert is on the wire, or a network error.
   */
  lemma {:induction false} HandshakeKeeps<C(!new)>(ch: Channel<C>, s: Conn<C>, ec: ErrorCode,
                                                   incoming: seq<ReadEvent>, outgoing: seq<WriteEvent>, handed: Bytes)
    requires Orderly(ch) && ConnInv(ch, s) && !ec.Failed()
    requires handed + s.receiveBuffer == s.produced
    ensures HandshakeSound(ch, incoming, outgoing, handed, Handshake(ch, s, ec, incoming, outgoing))
    ensures !s.Healthy() ==> Untouched(s, Handshake(ch, s, ec, incoming, outgoing).conn)
    decreases |incoming|
  {
    WriteAllEffect(s, outgoing);
    WriteAllFails(s, outgoing);
    var w := Flush(s, ec, outgoing);
    if w.ec.Some? && !w.ec.value.Failed() && !ch.handshakeComplete(w.conn.chan) && w.conn.Healthy() {
      HandshakeReads(ch, s, ec, incoming, outgoing, handed, w);
    } else {
      assert HandshakeSound(ch, incoming, outgoing, handed, Handshake(ch, s, ec, incoming, outgoing));
    }
  }

  /** What a round that comes to a read does next. */
  lemma ReadingRound<C>(ch: Channel<C>, s: Conn<C>, ec: ErrorCode, incoming: seq<ReadEvent>, outgoing: seq<WriteEvent>)
    requires !ec.Failed() && incoming != []
    requires var w := Flush(s, ec, outgoing);
             w.ec.Some? && !w.ec.value.Failed() && !ch.handshakeComplete(w.conn.chan) && w.conn.Healthy()
    ensures var w, s1 := Flush(s, ec, outgoing), Flush(s, ec, outgoing).conn.CheckBeforeRead();
            Handshake(ch, s, ec, incoming, outgoing)
            == match incoming[0]
               case Data(bytes) =>
                 Handshake(ch, ProcessEncryptedData(ch, s1, bytes), Success, incoming[1..], w.outgoing)
               case ReadFail(f) => HandshakeResult(s1, Some(Reported(f)), incoming[1..], w.outgoing)
  {
  }

  /** The part of a round that reads from the transport. */
  lemma {:induction false} HandshakeReads<C(!new)>(ch: Channel<C>, s: Conn<C>, ec: ErrorCode, incoming: seq<ReadEvent>,
                                                   outgoing: seq<WriteEvent>, handed: Bytes, w: SendResult<C>)
    requires Orderly(ch) && !ec.Failed()
    requires w == Flush(s, ec, outgoing)
    requires w.ec.Some? && !w.ec.value.Failed() && !ch.handshakeComplete(w.conn.chan) && w.conn.Healthy()
    requires ConnInv(ch, w.conn) && handed + w.conn.receiveBuffer == w.conn.produced
    requires |w.outgoing| <= |outgoing| && w.outgoing == outgoing[|outgoing| - |w.outgoing|..]
    ensures HandshakeSound(ch, incoming, outgoing, handed, Handshake(ch, s, ec, incoming, outgoing))
    decreases |incoming|, 0
  {
    var s1 := w.conn;
    assert s1.CheckBeforeRead() == s1;
    var r := Handshake(ch, s, ec, incoming, outgoing);
    if incoming == [] {
      assert r == HandshakeResult(s1, None, [], w.outgoing);
    } else {
      ReadingRound(ch, s, ec, incoming, outgoing);
      match incoming[0]
      case Data(bytes) =>
        ProcessKeeps(ch, s1, bytes, handed);
        var s2 := ProcessEncryptedData(ch, s1, bytes);
        HandshakeKeeps(ch, s2, Success, incoming[1..], w.outgoing, handed);
        SoundOnSuffix(ch, incoming, outgoing, w.outgoing, handed, r);
      case ReadFail(f) =>
        assert r.incoming == incoming[1..] && ReadFailedLast(incoming, r.incoming);
    }
  }
}
