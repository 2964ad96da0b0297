/**
 Keeping account of emitted bytes by their positions, apart from what the bytes
 are: which were sent and in what order, which are in the send buffer, which a
 write has in flight, and which a failed encryption discarded.

 A write in flight works on bytes it took from the send buffer earlier.  When it
 returns it consumes as many bytes as it sent, but from the buffer as it is then.
 */
module TlsLedger {

  /** The positions a write has in flight, none if `end <= at`. */
  datatype Flight = Flight(at: int, end: int) {
    predicate Has(p: int) { at <= p < end }
  }

  const Grounded := Flight(0, 0)

  /** Positions below `settled` have left the send buffer; `total` were emitted. */
  datatype Place = Place(settled: int, total: int, nested: Flight, caller: Flight) {
    predicate InFlight(p: int) { nested.Has(p) || caller.Has(p) }
  }

  /** The positions on the wire, in order, and those that were in the send buffer when it was discarded. */
  datatype Ledger = Ledger(sent: seq<int>, discarded: seq<int>) {
    function Send(from: int, n: nat): Ledger {
      this.(sent := sent + Range(from, n))
    }

    function Discard(from: int, n: nat): Ledger {
      this.(discarded := discarded + Range(from, n))
    }
  }

  const Blank := Ledger([], [])

  function Range(from: int, n: nat): seq<int> {
    seq(n, i => from + i)
  }

  predicate Increasing(xs: seq<int>) {
    forall i, j :: 0 <= i < j < |xs| ==> xs[i] < xs[j]
  }

  // ----- a ledger that belongs to a place

  predicate Aloft(f: Flight, pl: Place) {
    f.at < f.end ==> 0 <= f.at <= pl.settled && f.end <= pl.total
  }

  predicate Placed(pl: Place) {
    0 <= pl.settled <= pl.total && Aloft(pl.nested, pl) && Aloft(pl.caller, pl)
  }

  predicate Entered(pl: Place, l: Ledger) {
    && (forall j :: 0 <= j < |l.sent| ==> 0 <= l.sent[j] < pl.settled)
    && (forall j :: 0 <= j < |l.discarded| ==> 0 <= l.discarded[j] < pl.settled)
  }

  /** A byte that has left the send buffer without being sent, and that no write has in flight. */
  predicate Missing(pl: Place, l: Ledger, p: int) {
    0 <= p < pl.settled && p !in l.sent && !pl.InFlight(p)
  }

  /**
   Every byte is sent at most once and in order, and none is missing but what a
   failed encryption discarded.
   */
  ghost predicate Intact(pl: Place, l: Ledger) {
    Increasing(l.sent) && forall p :: Missing(pl, l, p) ==> p in l.discarded
  }

  // ----- the three kinds of steps

  /** A flight goes on, or starts with the whole send buffer. */
  predicate GoesOn(f: Flight, f': Flight, pl': Place) {
    f' == f || (f.end <= f.at && f' == Flight(pl'.settled, pl'.total))
  }

  /** Bytes are emitted, and `m` move from the head of the send buffer to the wire. */
  predicate FlowStep(pl: Place, pl': Place, m: nat) {
    && pl'.settled == pl.settled + m <= pl'.total && pl.total <= pl'.total
    && GoesOn(pl.nested, pl'.nested, pl') && GoesOn(pl.caller, pl'.caller, pl')
  }

  /** Bytes are emitted, and the whole send buffer of then `n` bytes is discarded. */
  predicate DiscardStep(pl: Place, pl': Place, n: nat) {
    && pl'.settled == pl'.total == pl.settled + n && pl.total <= pl'.total
    && pl'.nested == pl.nested && pl'.caller == pl.caller
  }

  /** A finished write: it sent `k` bytes of its flight, and as many leave the send buffer. */
  predicate ArriveStep(pl: Place, pl': Place, own: Flight, k: nat, own': Flight) {
    && k <= (if own.at < own.end then own.end - own.at else 0)
    && pl'.total == pl.total
    && pl'.settled == (if pl.settled + k <= pl.total then pl.settled + k else pl.total)
    && (own'.end <= own'.at || own' == Flight(pl'.settled, pl'.total))
  }

  /** Something at or after the first byte it sent is already on the wire. */
  predicate Overtaken(l: Ledger, own: Flight, k: nat) {
    k > 0 && exists j :: 0 <= j < |l.sent| && own.at <= l.sent[j]
  }

  /**
   A byte that the finished write consumed, or had in flight and did not send,
   and that is now neither in the send buffer nor in the other flight nor sent.
   */
  predicate LeftBehind(pl: Place, l: Ledger, own: Flight, other: Flight, k: nat, p: int) {
    && own.at + k <= p < pl.settled + k && p < pl.total
    && (pl.settled <= p || p < own.end)
    && !other.Has(p) && p !in l.sent
  }

  /** The finished write repeats or reorders bytes, or loses some that no failed encryption discarded. */
  ghost predicate Astray(pl: Place, l: Ledger, own: Flight, other: Flight, k: nat) {
    || Overtaken(l, own, k)
    || exists p :: LeftBehind(pl, l, own, other, k, p) && p !in l.discarded
  }

  // ----- what each step does to the account

  lemma IncreasingRange(xs: seq<int>, from: int, n: nat)
    ensures Increasing(xs + Range(from, n))
            <==> Increasing(xs) && (n == 0 || forall j :: 0 <= j < |xs| ==> xs[j] < from)
  {
    var ys := xs + Range(from, n);
    assert forall i :: 0 <= i < |xs| ==> ys[i] == xs[i];
    assert forall i :: |xs| <= i < |ys| ==> ys[i] == from + (i - |xs|);
    if Increasing(ys) && n > 0 {
      forall j | 0 <= j < |xs| ensures xs[j] < from {
        assert ys[j] < ys[|xs|];
      }
    }
  }

  lemma InRange(xs: seq<int>, from: int, n: nat, p: int)
    ensures p in xs + Range(from, n) <==> p in xs || from <= p < from + n
  {
    if from <= p < from + n {
      assert Range(from, n)[p - from] == p;
    }
  }

  lemma FlowEnters(pl: Place, l: Ledger, pl': Place, m: nat)
    requires Placed(pl) && Entered(pl, l) && FlowStep(pl, pl', m)
    ensures Placed(pl') && Entered(pl', l.Send(pl.settled, m))
  {
  }

  lemma FlowMisses(pl: Place, l: Ledger, pl': Place, m: nat, p: int)
    requires Placed(pl) && Entered(pl, l) && FlowStep(pl, pl', m)
    ensures Missing(pl', l.Send(pl.settled, m), p) <==> Missing(pl, l, p)
  {
    InRange(l.sent, pl.settled, m, p);
  }

  lemma FlowExact(pl: Place, l: Ledger, pl': Place, m: nat)
    requires Placed(pl) && Entered(pl, l) && FlowStep(pl, pl', m)
    ensures Intact(pl', l.Send(pl.settled, m)) <==> Intact(pl, l)
  {
    IncreasingRange(l.sent, pl.settled, m);
    forall p ensures Missing(pl', l.Send(pl.settled, m), p) <==> Missing(pl, l, p) {
      FlowMisses(pl, l, pl', m, p);
    }
  }

  lemma DiscardEnters(pl: Place, l: Ledger, pl': Place, n: nat)
    requires Placed(pl) && Entered(pl, l) && DiscardStep(pl, pl', n)
    ensures Placed(pl') && Entered(pl', l.Discard(pl.settled, n))
  {
  }

  /** A discard loses what no write has in flight; the rest may still be sent. */
  lemma DiscardMisses(pl: Place, l: Ledger, pl': Place, n: nat, p: int)
    requires Placed(pl) && Entered(pl, l) && DiscardStep(pl, pl', n)
    ensures Missing(pl', l.Discard(pl.settled, n), p)
            <==> Missing(pl, l, p) || (pl.settled <= p < pl.settled + n && !pl.InFlight(p))
  {
  }

  lemma DiscardExact(pl: Place, l: Ledger, pl': Place, n: nat)
    requires Placed(pl) && Entered(pl, l) && DiscardStep(pl, pl', n)
    ensures Intact(pl', l.Discard(pl.settled, n)) <==> Intact(pl, l)
  {
    forall p
      ensures Missing(pl', l.Discard(pl.settled, n), p)
              <==> Missing(pl, l, p) || (pl.settled <= p < pl.settled + n && !pl.InFlight(p))
      ensures p in l.Discard(pl.settled, n).discarded <==> p in l.discarded || pl.settled <= p < pl.settled + n
    {
      DiscardMisses(pl, l, pl', n, p);
      InRange(l.discarded, pl.settled, n, p);
    }
  }

  /** The place after a finished write of either slot. */
  predicate Arrives(pl: Place, pl': Place, isNested: bool, k: nat) {
    if isNested then pl'.caller == pl.caller && ArriveStep(pl, pl', pl.nested, k, pl'.nested)
    else pl'.nested == pl.nested && ArriveStep(pl, pl', pl.caller, k, pl'.caller)
  }

  function Own(pl: Place, isNested: bool): Flight { if isNested then pl.nested else pl.caller }
  function Other(pl: Place, isNested: bool): Flight { if isNested then pl.caller else pl.nested }

  lemma ArriveEnters(pl: Place, l: Ledger, pl': Place, isNested: bool, k: nat)
    requires Placed(pl) && Entered(pl, l) && Arrives(pl, pl', isNested, k)
    ensures Placed(pl') && Entered(pl', l.Send(Own(pl, isNested).at, k))
  {
  }

  /** A finished write loses exactly what it left behind. */
  lemma ArriveMisses(pl: Place, l: Ledger, pl': Place, isNested: bool, k: nat, p: int)
    requires Placed(pl) && Entered(pl, l) && Arrives(pl, pl', isNested, k)
    ensures var own, other := Own(pl, isNested), Other(pl, isNested);
            Missing(pl', l.Send(own.at, k), p) <==> Missing(pl, l, p) || LeftBehind(pl, l, own, other, k, p)
  {
    InRange(l.sent, Own(pl, isNested).at, k, p);
    assert p < pl'.settled ==> !Own(pl', isNested).Has(p);
  }

  /** It keeps the account intact exactly unless it goes astray, and then for good. */
  lemma ArriveExact(pl: Place, l: Ledger, pl': Place, isNested: bool, k: nat)
    requires Placed(pl) && Entered(pl, l) && Arrives(pl, pl', isNested, k)
    ensures var own, other := Own(pl, isNested), Other(pl, isNested);
            Intact(pl', l.Send(own.at, k)) <==> Intact(pl, l) && !Astray(pl, l, own, other, k)
  {
    var own, other := Own(pl, isNested), Other(pl, isNested);
    IncreasingRange(l.sent, own.at, k);
    forall p
      ensures Missing(pl', l.Send(own.at, k), p) <==> Missing(pl, l, p) || LeftBehind(pl, l, own, other, k, p)
    {
      ArriveMisses(pl, l, pl', isNested, k, p);
    }
  }

  // ----- accounts without discards

  /** Everything out of the send buffer was sent. */
  ghost predicate Complete(pl: Place, l: Ledger) {
    forall p :: 0 <= p < pl.settled ==> p in l.sent
  }

  lemma FlowCompletes(pl: Place, l: Ledger, pl': Place, m: nat)
    requires Placed(pl) && Entered(pl, l) && FlowStep(pl, pl', m) && Complete(pl, l)
    ensures Complete(pl', l.Send(pl.settled, m))
  {
    forall p | 0 <= p < pl'.settled ensures p in l.Send(pl.settled, m).sent {
      InRange(l.sent, pl.settled, m, p);
    }
  }

  /** Where everything was sent, a finished write that is not overtaken works on the head of the send buffer. */
  lemma ArriveCompletes(pl: Place, l: Ledger, pl': Place, isNested: bool, k: nat)
    requires Placed(pl) && Entered(pl, l) && Arrives(pl, pl', isNested, k) && Complete(pl, l)
    requires !Overtaken(l, Own(pl, isNested), k)
    ensures Complete(pl', l.Send(Own(pl, isNested).at, k))
  {
    var own := Own(pl, isNested);
    assert k > 0 ==> own.at == pl.settled by {
      assert own.at in l.sent || own.at >= pl.settled || k == 0;
    }
    forall p | 0 <= p < pl'.settled ensures p in l.Send(own.at, k).sent {
      InRange(l.sent, own.at, k, p);
    }
  }

  /** Sent in order, each once and all of them: the positions are the first so many. */
  lemma CompleteInOrder(pl: Place, l: Ledger)
    requires Placed(pl) && Entered(pl, l) && Increasing(l.sent) && Complete(pl, l)
    ensures |l.sent| == pl.settled && forall j :: 0 <= j < |l.sent| ==> l.sent[j] == j
  {
    forall j | 0 <= j < |l.sent| ensures l.sent[j] == j {
      CountsUp(pl, l, j);
    }
    var n := |l.sent|;
    assert n > 0 ==> l.sent[n - 1] == n - 1 < pl.settled;
    assert n !in l.sent;
  }

  lemma {:induction false} CountsUp(pl: Place, l: Ledger, j: nat)
    requires Entered(pl, l) && Increasing(l.sent) && Complete(pl, l) && j < |l.sent|
    ensures l.sent[j] == j
  {
    if j > 0 {
      CountsUp(pl, l, j - 1);
    }
    assert l.sent[j] > j ==> j in l.sent;
  }

  // ----- accounts of writes that never overlap

  /** One flight at most, at the head of the send buffer, and every byte out of it either sent or discarded. */
  ghost predicate Separate(pl: Place, l: Ledger) {
    && (pl.nested.at < pl.nested.end ==> pl.caller.end <= pl.caller.at && pl.nested.at == pl.settled)
    && (pl.caller.at < pl.caller.end ==> pl.caller.at == pl.settled)
    && forall p :: 0 <= p < pl.settled ==> (p in l.sent <==> p !in l.discarded)
  }

  /** A flow that reaches the wire needs the flights to be over. */
  lemma FlowSeparate(pl: Place, l: Ledger, pl': Place, m: nat)
    requires Placed(pl) && Entered(pl, l) && FlowStep(pl, pl', m) && Separate(pl, l)
    requires m > 0 ==> pl.nested.end <= pl.nested.at && pl.caller.end <= pl.caller.at
    requires pl'.nested.at < pl'.nested.end ==> pl'.caller.end <= pl'.caller.at
    ensures Separate(pl', l.Send(pl.settled, m))
  {
    forall p | 0 <= p < pl'.settled ensures p in l.Send(pl.settled, m).sent <==> p !in l.discarded {
      InRange(l.sent, pl.settled, m, p);
    }
  }

  lemma DiscardSeparate(pl: Place, l: Ledger, pl': Place, n: nat)
    requires Placed(pl) && Entered(pl, l) && DiscardStep(pl, pl', n) && Separate(pl, l)
    requires pl.nested.end <= pl.nested.at && pl.caller.end <= pl.caller.at
    ensures Separate(pl', l.Discard(pl.settled, n))
  {
    forall p | 0 <= p < pl'.settled ensures p in l.sent <==> p !in l.Discard(pl.settled, n).discarded {
      InRange(l.discarded, pl.settled, n, p);
    }
  }

  lemma ArriveSeparate(pl: Place, l: Ledger, pl': Place, isNested: bool, k: nat)
    requires Placed(pl) && Entered(pl, l) && Arrives(pl, pl', isNested, k) && Separate(pl, l)
    requires Other(pl, isNested).end <= Other(pl, isNested).at
    ensures var own, other := Own(pl, isNested), Other(pl, isNested);
            Separate(pl', l.Send(own.at, k)) && !Astray(pl, l, own, other, k)
  {
    forall p | 0 <= p < pl'.settled ensures p in l.Send(Own(pl, isNested).at, k).sent <==> p !in l.discarded {
      InRange(l.sent, Own(pl, isNested).at, k, p);
    }
  }

  // ----- two flights over the same bytes

  /** Of two flights from the head of the buffer, the second to return goes astray exactly if both sent something. */
  lemma OverlapAstray(pl: Place, l: Ledger, pl': Place, isNested: bool, k: nat, j: nat)
    requires Placed(pl) && Entered(pl, l) && Arrives(pl, pl', isNested, k)
    requires Own(pl, isNested).at == Other(pl, isNested).at == pl.settled
    requires j <= Other(pl, isNested).end - pl.settled
    ensures !Astray(pl, l, Own(pl, isNested), Other(pl, isNested), k)
    ensures Astray(pl', l.Send(pl.settled, k), Other(pl, isNested), Own(pl', isNested), j) <==> k > 0 && j > 0
  {
    var l' := l.Send(pl.settled, k);
    assert k > 0 ==> l'.sent[|l.sent|] == pl.settled;
    forall p ensures p in l'.sent <==> p in l.sent || pl.settled <= p < pl.settled + k {
      InRange(l.sent, pl.settled, k, p);
    }
  }

  /** A flight whose bytes were discarded under it leaves behind exactly those it does not send. */
  lemma CutFlight(pl: Place, l: Ledger, isNested: bool, k: nat, p: int)
    requires Placed(pl) && Entered(pl, l) && pl.settled == pl.total
    requires var own, other := Own(pl, isNested), Other(pl, isNested);
             && own.at + k <= own.end <= pl.settled && other == Grounded
             && forall j :: 0 <= j < |l.sent| ==> l.sent[j] < own.at
    ensures var own, other := Own(pl, isNested), Other(pl, isNested);
            && !Overtaken(l, own, k)
            && (LeftBehind(pl, l, own, other, k, p) <==> own.at + k <= p < own.end)
  {
  }

  /** A flight that is out of the send buffer consumes bytes that are not its own. */
  lemma RefilledFlight(pl: Place, l: Ledger, isNested: bool, k: nat, p: int)
    requires Placed(pl) && Entered(pl, l)
    requires var own, other := Own(pl, isNested), Other(pl, isNested);
             own.at + k <= own.end <= pl.settled && other == Grounded
    requires pl.settled <= p < pl.settled + k && p < pl.total
    ensures LeftBehind(pl, l, Own(pl, isNested), Other(pl, isNested), k, p) && p !in l.discarded
  {
  }
}
