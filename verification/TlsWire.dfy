/**
 How the bytes a channel emits move: into the send buffer at its end, and from
 its head to the wire.  The send buffer is always the end of all that was emitted,
 so every byte is known by its position in that.
 */
module TlsWire {
  import opened Common
  import opened TlsModel

  // ----- flowing

  /**
   From `s` to `t` the channel may have emitted, and bytes may have moved from the
   head of the send buffer to the wire; nothing else happened to either.
   */
  predicate Flows<C>(s: Conn<C>, t: Conn<C>) {
    && s.wire <= t.wire && s.emitted <= t.emitted
    && t.wire[|s.wire|..] + t.sendBuffer == s.sendBuffer + t.emitted[|s.emitted|..]
  }

  lemma FlowsThrough<C>(s: Conn<C>, t: Conn<C>, u: Conn<C>)
    requires Flows(s, t) && Flows(t, u)
    ensures Flows(s, u)
  {
    var m, n := t.wire[|s.wire|..], u.wire[|t.wire|..];
    var x, y := t.emitted[|s.emitted|..], u.emitted[|t.emitted|..];
    assert u.wire[|s.wire|..] == m + n;
    assert u.emitted[|s.emitted|..] == x + y;
    calc {
      (m + n) + u.sendBuffer;
      m + (n + u.sendBuffer);
      m + (t.sendBuffer + y);
      (m + t.sendBuffer) + y;
      (s.sendBuffer + x) + y;
      s.sendBuffer + (x + y);
    }
  }

  // ----- positions

  /** The send buffer is the end of what was emitted. */
  predicate Tail<C>(s: Conn<C>) {
    |s.sendBuffer| <= |s.emitted| && s.sendBuffer == s.emitted[s.Settled()..]
  }

  /** What a flow puts on the wire are the bytes from the settled position on. */
  lemma FlowPositions<C>(s: Conn<C>, t: Conn<C>)
    requires Tail(s) && Flows(s, t)
    ensures var m := |t.wire| - |s.wire|;
            && Tail(t) && t.Settled() == s.Settled() + m
            && t.wire == s.wire + t.emitted[s.Settled()..s.Settled() + m]
  {
    var m, x := t.wire[|s.wire|..], t.emitted[|s.emitted|..];
    assert t.emitted == s.emitted + x && t.wire == s.wire + m;
    assert t.emitted[s.Settled()..] == s.sendBuffer + x;
    assert m + t.sendBuffer == t.emitted[s.Settled()..];
    assert (m + t.sendBuffer)[..|m|] == m && (m + t.sendBuffer)[|m|..] == t.sendBuffer;
  }

  // ----- what flows

  lemma AbsorbFlows<C>(s: Conn<C>, e: Emission<C>)
    ensures Flows(s, s.Absorb(e))
  {
  }

  lemma WriteAllFlows<C>(s: Conn<C>, outgoing: seq<WriteEvent>)
    ensures Flows(s, WriteAll(s, outgoing).conn)
  {
    WriteAllEffect(s, outgoing);
    var t := WriteAll(s, outgoing).conn;
    assert (s.wire + s.sendBuffer)[|s.wire|..] == s.sendBuffer;
    assert (t.wire + t.sendBuffer)[|s.wire|..] == t.wire[|s.wire|..] + t.sendBuffer;
  }

  lemma FlushFlows<C>(s: Conn<C>, ec: ErrorCode, outgoing: seq<WriteEvent>)
    ensures Flows(s, SendPending(s, ec, outgoing).conn) && Flows(s, Flush(s, ec, outgoing).conn)
  {
    WriteAllFlows(s, outgoing);
  }

  lemma ProcessFlows<C>(ch: Channel<C>, s: Conn<C>, data: Bytes)
    ensures var t := ProcessEncryptedData(ch, s, data);
            && Flows(s, t) && Flows(s.CheckBeforeRead(), t) && t.wire == s.wire
  {
    ProcessEffect(ch, s, data);
  }

  lemma {:induction false} ReadSomeFlows<C>(ch: Channel<C>, s: Conn<C>, size: nat, ec: ErrorCode,
                                            incoming: seq<ReadEvent>)
    ensures var t := ReadSome(ch, s, size, ec, incoming).conn; Flows(s, t) && t.wire == s.wire
    decreases |incoming|
  {
    if !ec.Failed() && s.receiveBuffer == [] && s.Healthy() && incoming != [] && incoming[0].Data? {
      var s1 := s.CheckBeforeRead();
      var s2 := ProcessEncryptedData(ch, s1, incoming[0].bytes);
      ProcessFlows(ch, s1, incoming[0].bytes);
      ReadSomeFlows(ch, s2, size, Success, incoming[1..]);
      FlowsThrough(s1, s2, ReadSome(ch, s2, size, Success, incoming[1..]).conn);
    }
  }

  lemma {:induction false} HandshakeFlows<C>(ch: Channel<C>, s: Conn<C>, ec: ErrorCode, incoming: seq<ReadEvent>,
                                             outgoing: seq<WriteEvent>)
    ensures Flows(s, Handshake(ch, s, ec, incoming, outgoing).conn)
    decreases |incoming|
  {
    FlushFlows(s, ec, outgoing);
    var w, r := Flush(s, ec, outgoing), Handshake(ch, s, ec, incoming, outgoing);
    if !ec.Failed() && w.ec.Some? && !ch.handshakeComplete(w.conn.chan)
       && !w.conn.ProtocolErrors(w.ec.value).Failed() && incoming != [] && incoming[0].Data? {
      var s1 := w.conn.CheckBeforeRead();
      var s2 := ProcessEncryptedData(ch, s1, incoming[0].bytes);
      ProcessFlows(ch, s1, incoming[0].bytes);
      HandshakeFlows(ch, s2, Success, incoming[1..], w.outgoing);
      assert r == Handshake(ch, s2, Success, incoming[1..], w.outgoing);
      FlowsThrough(s1, s2, r.conn);
      FlowsThrough(s, s1, r.conn);
    }
  }
}
