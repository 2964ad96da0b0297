/**
 What holds over every run of a stream, whatever the channel and the network do
 and however writes overlap the reads and handshakes beside them.
 */
module TlsRuns {
  import opened Common
  import opened TlsModel
  import opened TlsAsync
  import opened TlsInvariant
  import opened TlsSystem

  /** Every event of the run is enabled when it happens. */
  predicate Allowed<C>(ch: Channel<C>, sys: Sys<C>, es: seq<Event<C>>)
    decreases |es|
  {
    es == [] || (Enabled(ch, sys, es[0]) && Allowed(ch, Step(ch, sys, es[0]), es[1..]))
  }

  function Run<C>(ch: Channel<C>, sys: Sys<C>, es: seq<Event<C>>): Sys<C>
    requires Allowed(ch, sys, es)
    decreases |es|
  {
    if es == [] then sys else Run(ch, Step(ch, sys, es[0]), es[1..])
  }

  lemma {:induction false} RunKeeps<C(!new)>(ch: Channel<C>, sys: Sys<C>, es: seq<Event<C>>)
    requires Orderly(ch) && Inv(ch, sys) && Allowed(ch, sys, es)
    ensures Inv(ch, Run(ch, sys, es))
    decreases |es|
  {
    if es != [] {
      StepKeeps(ch, sys, es[0]);
      RunKeeps(ch, Step(ch, sys, es[0]), es[1..]);
    }
  }

  /** A fresh stream satisfies the invariant. */
  lemma StartKeeps<C(!new)>(ch: Channel<C>, chan: C)
    ensures Inv(ch, Start(chan))
  {
  }

  // ----- safety over whole runs

  /** No assertion of the stream fires in any run. */
  lemma RunsNeverAssert<C(!new)>(ch: Channel<C>, chan: C, es: seq<Event<C>>)
    requires Orderly(ch) && Allowed(ch, Start(chan), es)
    ensures !Run(ch, Start(chan), es).conn.violated
  {
    StartKeeps(ch, chan);
    RunKeeps(ch, Start(chan), es);
  }

  /** In every run the bytes returned by the reads are a prefix of the bytes decrypted. */
  lemma RunsDeliverInOrder<C(!new)>(ch: Channel<C>, chan: C, es: seq<Event<C>>)
    requires Orderly(ch) && Allowed(ch, Start(chan), es)
    ensures var sys := Run(ch, Start(chan), es);
            ReadBytes(sys.completed) <= sys.conn.produced
  {
    StartKeeps(ch, chan);
    RunKeeps(ch, Start(chan), es);
  }

  // ----- what a completion says

  /** The network error, if any, that the step brought to a read. */
  function NetworkError<C>(ch: Channel<C>, sys: Sys<C>, e: Event<C>): Option<Failure>
    requires Enabled(ch, sys, e)
  {
    match e
    case ReadArrives(ev) => if ev.ReadFail? then Some(ev.error) else None
    case SyncRead(size, incoming) => LastFailure(incoming, ReadSome(ch, sys.conn, size, Success, incoming).incoming)
    case _ => None
  }

  /** A read that completed says what it may, and why it failed if it did. */
  predicate ReadReport<C>(ch: Channel<C>, sys: Sys<C>, e: Event<C>, t: Sys<C>)
    requires Enabled(ch, sys, e)
  {
    && |t.completed| == |sys.completed| + 1 && t.completed[|sys.completed|].ReadDone?
    && var c := t.completed[|sys.completed|];
    && (if e.SyncRead? then c.size == e.size && c.id == sys.started
        else !sys.reader.NoReader? && c.id == sys.reader.id
             && (sys.reader.Reading? || sys.reader.ReadYielded?) && c.size == sys.reader.size)
    && ReadVerdict(t.conn, c.size, c.result)
    && ReadExplained(t.conn, c.result.ec, NetworkError(ch, sys, e))
  }

  lemma ReadArrivalReports<C(!new)>(ch: Channel<C>, sys: Sys<C>, e: Event<C>)
    requires Orderly(ch) && Inv(ch, sys) && Enabled(ch, sys, e) && e.ReadArrives? && sys.reader.Reading?
    ensures var t := Step(ch, sys, e); |t.completed| > |sys.completed| ==> ReadReport(ch, sys, e, t)
  {
    var handed := ReadBytes(sys.completed);
    assert handed + Held(sys.reader) == handed;
    ReadCallKeeps(ch, sys.conn, sys.reader.size, ArrivedError(e.arrived), ArrivedData(e.arrived), true, handed);
  }

  lemma BlockingReadReports<C(!new)>(ch: Channel<C>, sys: Sys<C>, e: Event<C>)
    requires Orderly(ch) && Inv(ch, sys) && Enabled(ch, sys, e) && e.SyncRead?
    ensures ReadReport(ch, sys, e, Step(ch, sys, e))
  {
    var handed := ReadBytes(sys.completed);
    assert handed + Held(sys.reader) == handed;
    ReadSomeKeeps(ch, sys.conn, e.size, Success, e.incoming, handed);
    ReadSomeExplains(ch, sys.conn, e.size, Success, e.incoming);
  }

  lemma ReadResumptionReports<C(!new)>(ch: Channel<C>, sys: Sys<C>, e: Event<C>)
    requires Inv(ch, sys) && Enabled(ch, sys, e) && e.ReadResumed? && sys.reader.ReadYielded?
    ensures ReadReport(ch, sys, e, Step(ch, sys, e))
  {
  }

  /** No other step reports a read. */
  lemma OnlyReadsReport<C>(ch: Channel<C>, sys: Sys<C>, e: Event<C>)
    requires Enabled(ch, sys, e) && !e.SyncRead? && !(e.ReadArrives? && sys.reader.Reading?)
    requires !(e.ReadResumed? && sys.reader.ReadYielded?)
    ensures var t := Step(ch, sys, e);
            |t.completed| > |sys.completed| ==> !t.completed[|sys.completed|].ReadDone?
  {
  }

  lemma ReadFiles<C(!new)>(ch: Channel<C>, sys: Sys<C>, e: Event<C>)
    requires Orderly(ch) && Inv(ch, sys) && Enabled(ch, sys, e)
    requires |Step(ch, sys, e).completed| > |sys.completed|
    requires Step(ch, sys, e).completed[|sys.completed|].ReadDone?
    ensures ReadReport(ch, sys, e, Step(ch, sys, e))
  {
    if e.SyncRead? {
      BlockingReadReports(ch, sys, e);
    } else if e.ReadArrives? && sys.reader.Reading? {
      ReadArrivalReports(ch, sys, e);
    } else if e.ReadResumed? && sys.reader.ReadYielded? {
      ReadResumptionReports(ch, sys, e);
    } else {
      OnlyReadsReport(ch, sys, e);
      assert false;
    }
  }

  /** A step that reports a read leaves none pending. */
  lemma ReadEnds<C>(ch: Channel<C>, sys: Sys<C>, e: Event<C>)
    requires Enabled(ch, sys, e) && |Step(ch, sys, e).completed| > |sys.completed|
    requires Step(ch, sys, e).completed[|sys.completed|].ReadDone?
    ensures Step(ch, sys, e).reader.NoReader?
  {
  }

  /**
   A read that ends, in whatever form and however interleaved, fills its buffer or
   empties the stream's, returns at least one byte when it succeeds with room to
   fill, and reports an error only when every decrypted byte has been handed out.
   The error is the one retained by the stream, or on a healthy stream the
   network's, end of file as truncation; so it is the end of the file exactly if it
   is an error, the peer's close_notify is retained, and no local error is.
   */
  lemma ReadReports<C(!new)>(ch: Channel<C>, sys: Sys<C>, e: Event<C>)
    requires Orderly(ch) && Inv(ch, sys) && Enabled(ch, sys, e)
    requires |Step(ch, sys, e).completed| > |sys.completed|
    requires Step(ch, sys, e).completed[|sys.completed|].ReadDone?
    ensures var t := Step(ch, sys, e);
            && ReadReport(ch, sys, e, t)
            && var ec := t.completed[|sys.completed|].result.ec;
            && (ec.Failed() ==> ReadBytes(t.completed) == t.conn.produced)
            && (ec == Eof <==> ec.Failed() && t.conn.ShutdownReceived() && !t.conn.ecFromLastRead.Failed())
  {
    ReadFiles(ch, sys, e);
    ReadEnds(ch, sys, e);
    StepKeeps(ch, sys, e);
    var t := Step(ch, sys, e);
    assert ReadBytes(t.completed) + Held(t.reader) == ReadBytes(t.completed);
    assert t.conn.receiveBuffer == [] ==> ReadBytes(t.completed) + [] == ReadBytes(t.completed);
  }

  /** The handshake was told of a failure by its setup or by the network. */
  predicate Excused<C>(ch: Channel<C>, sys: Sys<C>, e: Event<C>)
    requires Enabled(ch, sys, e)
  {
    match e
    case ReadArrives(ev) => ev.ReadFail?
    case NestedArrives(ev) => ev.WriteFail?
    case ReadResumed(_) => sys.reader.ShakeYielded? && sys.reader.setupFailed
    case SyncHandshake(setup, incoming, outgoing) =>
      setup.thrown.Some?
      || NetworkFailed(incoming, outgoing, Handshake(ch, sys.conn.Absorb(setup), Success, incoming, outgoing))
    case _ => false
  }

  /** The error is exactly that of the setup, or of the network event that was met. */
  predicate Blamed<C>(ch: Channel<C>, sys: Sys<C>, e: Event<C>, t: Conn<C>, ec: ErrorCode)
    requires Enabled(ch, sys, e)
  {
    && Excused(ch, sys, e)
    && match e
       case ReadArrives(ev) => ec == Reported(ev.error)
       case NestedArrives(ev) => ec == t.MapEof(ev.error)
       case ReadResumed(_) => ec == sys.reader.ec
       case SyncHandshake(setup, incoming, outgoing) =>
         if setup.thrown.Some? then ec == setup.Error()
         else NetworkReported(incoming, outgoing,
                              Handshake(ch, sys.conn.Absorb(setup), Success, incoming, outgoing), ec)
       case _ => false
  }

  /** How much had been emitted when a handshake that completes in `e` made up its mind: now, or when it yielded. */
  function EmittedByThen<C>(sys: Sys<C>, e: Event<C>, t: Conn<C>): nat {
    if e.ReadResumed? && sys.reader.ShakeYielded? then sys.reader.mark else |t.emitted|
  }

  /** What a completed handshake may report at the end of step `e`. */
  predicate HandshakeReport<C>(ch: Channel<C>, sys: Sys<C>, e: Event<C>, t: Conn<C>, ec: ErrorCode)
    requires Enabled(ch, sys, e)
  {
    || (HandshakeOutcome(ch, t, ec) && EmittedByThen(sys, e, t) <= t.Settled())
    || (ec.Failed() && Blamed(ch, sys, e, t, ec))
  }

  predicate HandshakeFiled<C>(ch: Channel<C>, sys: Sys<C>, e: Event<C>, t: Sys<C>)
    requires Enabled(ch, sys, e)
  {
    && |t.completed| == |sys.completed| + 1 && t.completed[|sys.completed|].HandshakeDone?
    && HandshakeReport(ch, sys, e, t.conn, t.completed[|sys.completed|].ec)
  }

  /** A handshake call that completes files one report of its outcome. */
  lemma ShakeCallReports<C(!new)>(ch: Channel<C>, sys: Sys<C>, e: Event<C>)
    requires Orderly(ch) && Inv(ch, sys) && Enabled(ch, sys, e) && e.ReadArrives? && sys.reader.Shaking?
    ensures var t := Step(ch, sys, e);
            |t.completed| > |sys.completed| ==> HandshakeFiled(ch, sys, e, t)
  {
    var handed := ReadBytes(sys.completed);
    assert handed + Held(sys.reader) == handed;
    ShakeCallKeeps(ch, sys.conn, ArrivedError(e.arrived), ArrivedData(e.arrived), true, handed);
  }

  lemma NestedWriteReports<C(!new)>(ch: Channel<C>, sys: Sys<C>, e: Event<C>)
    requires Orderly(ch) && Inv(ch, sys) && Enabled(ch, sys, e) && e.NestedArrives?
    ensures var t := Step(ch, sys, e);
            |t.completed| > |sys.completed| ==> HandshakeFiled(ch, sys, e, t)
  {
    var handed := ReadBytes(sys.completed);
    assert handed + Held(sys.reader) == handed;
    var w := WriteReturns(sys.conn, sys.reader.inFlight, e.sent);
    WriteReturnsEffect(sys.conn, sys.reader.inFlight, e.sent);
    if w.action.CompleteWrite? {
      ShakeCallKeeps(ch, w.conn, w.action.ec, [], true, handed);
    }
  }

  lemma BlockingHandshakeReports<C(!new)>(ch: Channel<C>, sys: Sys<C>, e: Event<C>)
    requires Orderly(ch) && Inv(ch, sys) && Enabled(ch, sys, e) && e.SyncHandshake?
    ensures HandshakeFiled(ch, sys, e, Step(ch, sys, e))
  {
    var handed := ReadBytes(sys.completed);
    assert handed + Held(sys.reader) == handed;
    var s := sys.conn.Absorb(e.setup);
    if e.setup.thrown.None? {
      assert e.setup.Error() == Success;
      HandshakeKeeps(ch, s, Success, e.incoming, e.outgoing, handed);
    } else {
      assert Handshake(ch, s, e.setup.Error(), e.incoming, e.outgoing).ec == Some(e.setup.Error());
    }
  }

  /** No other step reports a handshake. */
  lemma OnlyHandshakesReport<C>(ch: Channel<C>, sys: Sys<C>, e: Event<C>)
    requires Enabled(ch, sys, e) && !(e.ReadArrives? && sys.reader.Shaking?) && !e.NestedArrives?
    requires !e.SyncHandshake? && !(e.ReadResumed? && sys.reader.ShakeYielded?)
    ensures var t := Step(ch, sys, e);
            |t.completed| > |sys.completed| ==> !t.completed[|sys.completed|].HandshakeDone?
  {
  }

  /**
   A handshake that ends without error is complete.  One that ends with an error
   reports the retained TLS error.  Either way everything emitted by then, an
   alert included, has left the send buffer, unless setup or network failed.
   */
  lemma HandshakeReports<C(!new)>(ch: Channel<C>, sys: Sys<C>, e: Event<C>)
    requires Orderly(ch) && Inv(ch, sys) && Enabled(ch, sys, e)
    requires |Step(ch, sys, e).completed| > |sys.completed|
    requires Step(ch, sys, e).completed[|sys.completed|].HandshakeDone?
    ensures HandshakeFiled(ch, sys, e, Step(ch, sys, e))
  {
    if e.ReadArrives? && sys.reader.Shaking? {
      ShakeCallReports(ch, sys, e);
    } else if e.NestedArrives? {
      NestedWriteReports(ch, sys, e);
    } else if e.SyncHandshake? {
      BlockingHandshakeReports(ch, sys, e);
    } else if !e.ReadResumed? {
      OnlyHandshakesReport(ch, sys, e);
      assert false;
    }
  }

  // ----- retained errors are final

  lemma StickyStarts<C>(ch: Channel<C>, sys: Sys<C>, e: Event<C>)
    requires Enabled(ch, sys, e) && (e.StartRead? || e.StartHandshake? || e.StartWrite? || e.StartShutdown?)
    ensures Untouched(sys.conn, Step(ch, sys, e).conn)
  {
  }

  lemma StickyStep<C(!new)>(ch: Channel<C>, sys: Sys<C>, e: Event<C>)
    requires Orderly(ch) && Inv(ch, sys) && Enabled(ch, sys, e) && !sys.conn.Healthy()
    ensures Untouched(sys.conn, Step(ch, sys, e).conn)
  {
    var s, handed := sys.conn, ReadBytes(sys.completed);
    if e.StartRead? || e.StartHandshake? || e.StartWrite? || e.StartShutdown? {
      StickyStarts(ch, sys, e);
    } else if e.WriteArrives? || e.NestedArrives? {
      ArrivalMoves(ch, sys, e);
    } else if e.SyncRead? {
      assert handed + Held(sys.reader) == handed;
      ReadSomeKeeps(ch, s, e.size, Success, e.incoming, handed);
    } else if e.SyncHandshake? {
      assert handed + Held(sys.reader) == handed;
      HandshakeKeeps(ch, s.Absorb(e.setup), Success, e.incoming, e.outgoing, handed);
    } else if e.SyncWrite? {
      WriteAllEffect(Encrypt(ch, s, e.data), e.outgoing);
    } else if e.SyncShutdown? {
      WriteAllEffect(Close(ch, s), e.outgoing);
    }
  }

  /**
   Once an alert or a local error is retained it stays for the rest of every
   run, and no further ciphertext reaches the channel.
   */
  lemma {:induction false} RetainedErrorsAreFinal<C(!new)>(ch: Channel<C>, sys: Sys<C>, es: seq<Event<C>>)
    requires Orderly(ch) && Inv(ch, sys) && Allowed(ch, sys, es) && !sys.conn.Healthy()
    ensures Untouched(sys.conn, Run(ch, sys, es).conn)
    decreases |es|
  {
    if es != [] {
      StickyStep(ch, sys, es[0]);
      StepKeeps(ch, sys, es[0]);
      RetainedErrorsAreFinal(ch, Step(ch, sys, es[0]), es[1..]);
    }
  }

  lemma StepReports<C>(ch: Channel<C>, sys: Sys<C>, e: Event<C>)
    requires Enabled(ch, sys, e)
    ensures sys.completed <= Step(ch, sys, e).completed
  {
  }

  lemma {:induction false} RunReports<C>(ch: Channel<C>, sys: Sys<C>, es: seq<Event<C>>)
    requires Allowed(ch, sys, es)
    ensures sys.completed <= Run(ch, sys, es).completed
    decreases |es|
  {
    if es != [] {
      StepReports(ch, sys, es[0]);
      RunReports(ch, Step(ch, sys, es[0]), es[1..]);
    }
  }

  /** What was returned before is not taken back. */
  lemma {:induction false} ReadBytesGrow(cs: seq<Completion>, cs': seq<Completion>)
    requires cs <= cs'
    ensures ReadBytes(cs) <= ReadBytes(cs')
    decreases |cs'|
  {
    if |cs| < |cs'| {
      assert cs <= cs'[..|cs'| - 1];
      ReadBytesGrow(cs, cs'[..|cs'| - 1]);
    } else {
      assert cs == cs';
    }
  }

  /** Once the error is out and everything was returned, no read ever returns another byte. */
  lemma NothingFollowsTheError<C(!new)>(ch: Channel<C>, sys: Sys<C>, es: seq<Event<C>>)
    requires Orderly(ch) && Inv(ch, sys) && Allowed(ch, sys, es) && !sys.conn.Healthy()
    requires ReadBytes(sys.completed) == sys.conn.produced
    ensures ReadBytes(Run(ch, sys, es).completed) == ReadBytes(sys.completed)
  {
    RunKeeps(ch, sys, es);
    RetainedErrorsAreFinal(ch, sys, es);
    RunReports(ch, sys, es);
    ReadBytesGrow(sys.completed, Run(ch, sys, es).completed);
  }

  // ----- the two forms of a handshake, wherever a run has led

  lemma OrderlyHandshakesAgree<C(!new)>(ch: Channel<C>, s: Conn<C>, setup: Emission<C>, incoming: seq<ReadEvent>,
                                        outgoing: seq<WriteEvent>, handed: Bytes)
    requires Orderly(ch) && EmptyInputIsNoOp(ch) && ConnInv(ch, s) && SetsUp(ch, s, setup)
    requires handed + s.receiveBuffer == s.produced
    ensures var s0, ec := s.Absorb(setup), setup.Error();
            && AsyncHandshake(ch, s0, ec, incoming, outgoing) == Handshake(ch, s0, ec, incoming, outgoing)
            && !Handshake(ch, s0, ec, incoming, outgoing).conn.violated
  {
    HandshakeFormsAgree(ch, s, setup, incoming, outgoing);
    if setup.thrown.None? {
      assert setup.Error() == Success;
      HandshakeKeeps(ch, s.Absorb(setup), Success, incoming, outgoing, handed);
      BlockingHandshakeAsserts(ch, s.Absorb(setup), incoming, outgoing);
    }
  }

  /** On every stream a run can reach, a blocking and an asynchronous handshake do the same. */
  lemma ReachableHandshakesAgree<C(!new)>(ch: Channel<C>, chan: C, es: seq<Event<C>>, setup: Emission<C>,
                                          incoming: seq<ReadEvent>, outgoing: seq<WriteEvent>)
    requires Orderly(ch) && EmptyInputIsNoOp(ch) && Allowed(ch, Start(chan), es)
    requires Run(ch, Start(chan), es).reader.NoReader? && SetsUp(ch, Run(ch, Start(chan), es).conn, setup)
    ensures var s, ec := Run(ch, Start(chan), es).conn.Absorb(setup), setup.Error();
            && AsyncHandshake(ch, s, ec, incoming, outgoing) == Handshake(ch, s, ec, incoming, outgoing)
            && !Handshake(ch, s, ec, incoming, outgoing).conn.violated
  {
    StartKeeps(ch, chan);
    RunKeeps(ch, Start(chan), es);
    var sys := Run(ch, Start(chan), es);
    var handed := ReadBytes(sys.completed);
    assert handed + Held(NoReader) == handed;
    OrderlyHandshakesAgree(ch, sys.conn, setup, incoming, outgoing, handed);
  }

  // ----- why the channel must be orderly

  /** A channel that decrypts a byte whenever it is fed, and never completes its handshake. */
  const Premature: Channel<bool> := Channel(
    (c, b) => Reaction(c, [RecordReceived([7])], None),
    (c, b) => Emission(c, [], None),
    c => Emission(c, [], None),
    c => false)

  /** Application data before the handshake is complete trips the blocking handshake's assertion. */
  lemma PrematureDataAsserts()
    ensures Handshake(Premature, Fresh(true), Success, [Data([1])], []).conn.violated
  {
    var s := ProcessEncryptedData(Premature, Fresh(true), [1]);
    ProcessEffect(Premature, Fresh(true), [1]);
    assert s.receiveBuffer == [7];
    assert Handshake(Premature, s, Success, [], []).conn.violated;
  }

  // ----- completion handlers

  /** How often operation `k` completed. */
  function Completions(cs: seq<Completion>, k: nat): nat {
    if cs == [] then 0
    else Completions(cs[..|cs| - 1], k) + (if cs[|cs| - 1].id == k then 1 else 0)
  }

  /** How many slots operation `k` occupies. */
  function Pending(r: Reader, w: Writer, k: nat): nat {
    (if !r.NoReader? && r.id == k then 1 else 0) + (if !w.NoWriter? && w.id == k then 1 else 0)
  }

  /** Operation `k`, once started, either occupies one slot or has completed once. */
  predicate OnceInv<C>(sys: Sys<C>, k: nat) {
    Completions(sys.completed, k) + Pending(sys.reader, sys.writer, k) == if k < sys.started then 1 else 0
  }

  /** Operations started asynchronously never complete inside the initiating call. */
  lemma NeverInsideTheInitiatingCall<C>(ch: Channel<C>, sys: Sys<C>, e: Event<C>)
    requires Enabled(ch, sys, e)
    requires e.StartRead? || e.StartHandshake? || e.StartWrite? || e.StartShutdown?
    ensures Step(ch, sys, e).completed == sys.completed
    ensures var t := Step(ch, sys, e); Pending(t.reader, t.writer, sys.started) >= 1
  {
  }

  lemma ReportCounts<C>(sys: Sys<C>, c: Completion, k: nat)
    ensures Completions(sys.Report(c).completed, k)
            == Completions(sys.completed, k) + (if c.id == k then 1 else 0)
  {
    var t := sys.Report(c);
    assert t.completed[..|t.completed| - 1] == sys.completed;
  }

  /** Completions of `k` so far plus slots it occupies. */
  function Total<C>(sys: Sys<C>, k: nat): nat {
    Completions(sys.completed, k) + Pending(sys.reader, sys.writer, k)
  }

  lemma AfterReadOnce<C>(sys: Sys<C>, id: nat, size: nat, step: ReadStep<C>, k: nat)
    ensures Total(AfterRead(sys, id, size, step), k)
            == Total(sys.(reader := NoReader), k) + (if id == k then 1 else 0)
  {
    if step.action.CompleteRead? {
      ReportCounts(sys.(conn := step.conn, reader := NoReader), ReadDone(id, size, step.action.result), k);
    }
  }

  lemma AfterWriteOnce<C>(sys: Sys<C>, id: nat, plain: nat, mark: nat, step: WriteStep<C>, k: nat)
    ensures Total(AfterWrite(sys, id, plain, mark, step), k)
            == Total(sys.(writer := NoWriter), k) + (if id == k then 1 else 0)
  {
    if step.action.CompleteWrite? {
      ReportCounts(sys.(conn := step.conn, writer := NoWriter), WriteDone(id, step.action.ec, plain), k);
    }
  }

  lemma AfterShakeOnce<C>(sys: Sys<C>, id: nat, setupFailed: bool, step: ShakeStep<C>, k: nat)
    ensures Total(AfterShake(sys, id, setupFailed, step), k)
            == Total(sys.(reader := NoReader), k) + (if id == k then 1 else 0)
  {
    if step.action.CompleteShake? {
      ReportCounts(sys.(conn := step.conn, reader := NoReader), HandshakeDone(id, step.action.ec), k);
    }
  }

  lemma ReaderStepsOnce<C>(ch: Channel<C>, sys: Sys<C>, e: Event<C>, k: nat)
    requires Enabled(ch, sys, e) && OnceInv(sys, k)
    requires e.StartRead? || e.StartHandshake? || e.ReadArrives?
    ensures OnceInv(Step(ch, sys, e), k)
  {
    var s, id, next := sys.conn, sys.started, sys.(started := sys.started + 1);
    match e
    case StartRead(size) => AfterReadOnce(next, id, size, ReadCall(ch, s, size, Success, [], false), k);
    case StartHandshake(setup) =>
      AfterShakeOnce(next, id, setup.thrown.Some?, ShakeCall(ch, s.Absorb(setup), setup.Error(), [], false), k);
    case ReadArrives(ev) =>
      var r := sys.reader;
      if r.Reading? {
        AfterReadOnce(sys, r.id, r.size, ReadCall(ch, s, r.size, ArrivedError(ev), ArrivedData(ev), true), k);
      } else {
        AfterShakeOnce(sys, r.id, false, ShakeCall(ch, s, ArrivedError(ev), ArrivedData(ev), true), k);
      }
  }

  lemma NestedStepOnce<C>(ch: Channel<C>, sys: Sys<C>, ev: WriteEvent, k: nat)
    requires Enabled(ch, sys, NestedArrives(ev)) && OnceInv(sys, k)
    ensures OnceInv(Step(ch, sys, NestedArrives(ev)), k)
  {
    var step := WriteReturns(sys.conn, sys.reader.inFlight, ev);
    if step.action.CompleteWrite? {
      AfterShakeOnce(sys, sys.reader.id, false, ShakeCall(ch, step.conn, step.action.ec, [], true), k);
    }
  }

  lemma WriterStepsOnce<C>(ch: Channel<C>, sys: Sys<C>, e: Event<C>, k: nat)
    requires Enabled(ch, sys, e) && OnceInv(sys, k)
    requires e.StartWrite? || e.StartShutdown? || e.WriteArrives?
    ensures OnceInv(Step(ch, sys, e), k)
  {
    var s, id, w, next := sys.conn, sys.started, sys.writer, sys.(started := sys.started + 1);
    match e
    case StartWrite(data) =>
      var s1 := BeginWrite(ch, s, data);
      AfterWriteOnce(next, id, PlainBytes(ch, s, data), |s1.emitted|,
                     WriteCall(s1, EncryptError(ch, s, data), 0, false), k);
    case StartShutdown =>
      var s1 := Close(ch, s);
      AfterWriteOnce(next, id, |s1.sendBuffer|, |s1.emitted|, WriteCall(s1, CloseError(ch, s), 0, false), k);
    case WriteArrives(ev) =>
      AfterWriteOnce(sys, w.id, w.plain, w.mark, WriteReturns(s, w.inFlight, ev), k);
  }

  /** A step that only frees a slot or files a blocking call reports one operation. */
  lemma ReportingOnce<C>(sys: Sys<C>, before: Sys<C>, c: Completion, k: nat)
    requires OnceInv(sys, k) && before.completed == sys.completed
    requires Pending(before.reader, before.writer, k) + (if c.id == k then 1 else 0)
             == Pending(sys.reader, sys.writer, k) + (if sys.started <= k < before.started then 1 else 0)
    requires sys.started <= before.started
    ensures OnceInv(before.Report(c), k)
  {
    ReportCounts(before, c, k);
  }

  lemma OnceStep<C>(ch: Channel<C>, sys: Sys<C>, e: Event, k: nat)
    requires Enabled(ch, sys, e) && OnceInv(sys, k)
    ensures OnceInv(Step(ch, sys, e), k)
  {
    if e.NestedArrives? {
      NestedStepOnce(ch, sys, e.sent, k);
    } else if e.StartRead? || e.StartHandshake? || e.ReadArrives? {
      ReaderStepsOnce(ch, sys, e, k);
    } else if e.StartWrite? || e.StartShutdown? || e.WriteArrives? {
      WriterStepsOnce(ch, sys, e, k);
    } else {
      var t := Step(ch, sys, e);
      var c := t.completed[|sys.completed|];
      var before := sys.(conn := t.conn, reader := t.reader, writer := t.writer, started := t.started);
      assert t == before.Report(c);
      ReportingOnce(sys, before, c, k);
    }
  }

  lemma {:induction false} OnceRun<C>(ch: Channel<C>, sys: Sys<C>, es: seq<Event<C>>, k: nat)
    requires Allowed(ch, sys, es) && OnceInv(sys, k)
    ensures OnceInv(Run(ch, sys, es), k)
    decreases |es|
  {
    if es != [] {
      OnceStep(ch, sys, es[0], k);
      OnceRun(ch, Step(ch, sys, es[0]), es[1..], k);
    }
  }

  /**
   In every run each operation completes at most once, and exactly once when
   the run ends with both slots free; operations never started never complete.
   */
  lemma CompletesExactlyOnce<C>(ch: Channel<C>, chan: C, es: seq<Event<C>>, k: nat)
    requires Allowed(ch, Start(chan), es)
    ensures var sys := Run(ch, Start(chan), es);
            && Completions(sys.completed, k) <= (if k < sys.started then 1 else 0)
            && (sys.reader.NoReader? && sys.writer.NoWriter? ==>
                  Completions(sys.completed, k) == if k < sys.started then 1 else 0)
  {
    OnceRun(ch, Start(chan), es, k);
  }
}
