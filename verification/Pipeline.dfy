/**
 The transaction pipeline of realtime_benchmark.py as a state machine: one
 producer, any number of processor threads, a bounded transaction queue and a
 result queue, interleaved one atomic queue or counter operation at a time.

 A transaction is the serial number of its submission.  Elapsed time and the
 moment `running` turns false are free choices of the environment.
 */
module Pipeline {
  import opened Common

  type Tx = nat

  datatype Config = Config(batchSize: nat, maxQueue: nat, succeeds: Tx -> bool)

  /** Where a processor thread is, with its local batch. */
  datatype Processor =
    | AtTop
    | Gathering(batch: seq<Tx>)
    | Taking(batch: seq<Tx>)
    | Working(rest: seq<Tx>, succeeded: nat)
    | Exited

  /** Where the producer thread is. */
  datatype Producer =
    | AtRound
    | Submitting(attempts: nat)
    | Draining
    | Closing
    | Stopped

  datatype Accounts = Accounts(
    transactionCount: nat,
    accumulated: nat,
    currentTps: nat,
    peakTps: nat,
    // log
    drained: nat,
    windows: seq<nat>,
    rates: seq<nat>)

  datatype State = State(
    running: bool,
    queue: seq<Tx>,
    results: seq<nat>,
    processors: seq<Processor>,
    producer: Producer,
    accounts: Accounts,
    // log
    generated: nat,
    accepted: seq<Tx>,
    taken: seq<Tx>,
    processed: seq<Tx>)

  function Initial(threads: nat): State {
    State(true, [], [], seq(threads, i => AtTop), AtRound, Accounts(0, 0, 0, 0, 0, [], []), 0, [], [], [])
  }

  /** A length of time long enough to close a window: at least a tenth of a second. */
  type Window = w: real | w >= 0.1 witness 1.0

  datatype Event =
    | Produce(elapsed: bool, window: Option<Window>)
    | Process(thread: nat)
    | Stop

  // ----- steps

  function SetProcessor(s: State, i: nat, p: Processor): State
    requires i < |s.processors|
  {
    s.(processors := s.processors[i := p])
  }

  /** What a processor does once it stops gathering: work on its batch, or start over. */
  function EndGathering(batch: seq<Tx>): Processor {
    if batch == [] then AtTop else Working(batch, 0)
  }

  function ProcessorStep(c: Config, s: State, i: nat): State
    requires i < |s.processors|
  {
    match s.processors[i]
    case AtTop => SetProcessor(s, i, if s.running then Gathering([]) else Exited)
    case Gathering(batch) =>
      SetProcessor(s, i, if |batch| < c.batchSize && s.queue != [] then Taking(batch) else EndGathering(batch))
    case Taking(batch) =>
      if s.queue == [] then SetProcessor(s, i, EndGathering(batch))
      else
        SetProcessor(s, i, Gathering(batch + [s.queue[0]])).(queue := s.queue[1..], taken := s.taken + [s.queue[0]])
    case Working(rest, succeeded) =>
      if rest == [] then SetProcessor(s, i, AtTop).(results := s.results + [succeeded])
      else
        var n := if c.succeeds(rest[0]) then succeeded + 1 else succeeded;
        SetProcessor(s, i, Working(rest[1..], n)).(processed := s.processed + [rest[0]])
    case Exited => s
  }

  function CloseWindow(a: Accounts, w: Window): (r: Accounts) {
    assert a.accumulated as real / w >= 0.0;
    var rate := (a.accumulated as real / w).Floor;
    a.(currentTps := rate, peakTps := if a.peakTps < rate then rate else a.peakTps,
       accumulated := 0, windows := a.windows + [a.accumulated], rates := a.rates + [rate])
  }

  function ProducerStep(c: Config, s: State, elapsed: bool, window: Option<Window>): State {
    var a := s.accounts;
    match s.producer
    case AtRound =>
      s.(producer := if !s.running then Stopped else if elapsed then Submitting(0) else AtRound)
    case Submitting(n) =>
      if n < c.batchSize then
        var t := s.(producer := Submitting(n + 1), generated := s.generated + 1);
        if |s.queue| < c.maxQueue then
          t.(queue := s.queue + [s.generated], accepted := s.accepted + [s.generated])
        else t
      else
        s.(producer := Draining,
           accounts := a.(accumulated := a.accumulated + c.batchSize,
                          transactionCount := a.transactionCount + c.batchSize))
    case Draining =>
      if s.results == [] then s.(producer := Closing)
      else
        var n := s.results[0];
        s.(results := s.results[1..],
           accounts := a.(drained := a.drained + n,
                          accumulated := if n > 0 then a.accumulated + n else a.accumulated))
    case Closing =>
      s.(producer := AtRound, accounts := if window.Some? then CloseWindow(a, window.value) else a)
    case Stopped => s
  }

  predicate Enabled(s: State, e: Event) {
    e.Process? ==> e.thread < |s.processors|
  }

  function Step(c: Config, s: State, e: Event): State
    requires Enabled(s, e)
  {
    match e
    case Produce(elapsed, window) => ProducerStep(c, s, elapsed, window)
    case Process(i) => ProcessorStep(c, s, i)
    case Stop => s.(running := false)
  }

  // ----- counting

  function Occurrences(q: seq<Tx>, k: Tx): nat {
    if q == [] then 0 else Occurrences(q[..|q| - 1], k) + (if q[|q| - 1] == k then 1 else 0)
  }

  lemma AppendOccurrence(q: seq<Tx>, x: Tx, k: Tx)
    ensures Occurrences(q + [x], k) == Occurrences(q, k) + if x == k then 1 else 0
  {
    assert (q + [x])[..|q|] == q;
  }

  lemma {:induction false} ConcatOccurrences(p: seq<Tx>, q: seq<Tx>, k: Tx)
    ensures Occurrences(p + q, k) == Occurrences(p, k) + Occurrences(q, k)
    decreases |q|
  {
    if q == [] {
      assert p + q == p;
    } else {
      assert (p + q)[..|p + q| - 1] == p + q[..|q| - 1];
      ConcatOccurrences(p, q[..|q| - 1], k);
    }
  }

  lemma HeadOccurrence(q: seq<Tx>, k: Tx)
    requires q != []
    ensures Occurrences(q, k) == Occurrences(q[1..], k) + if q[0] == k then 1 else 0
  {
    assert q == [q[0]] + q[1..];
    ConcatOccurrences([q[0]], q[1..], k);
    AppendOccurrence([], q[0], k);
    assert [] + [q[0]] == [q[0]];
  }

  /** The transactions a processor holds and has not processed. */
  function Batch(p: Processor): seq<Tx> {
    match p
    case Gathering(batch) => batch
    case Taking(batch) => batch
    case Working(rest, _) => rest
    case _ => []
  }

  /** Successes a processor has counted and not yet published. */
  function Unpublished(p: Processor): nat {
    if p.Working? then p.succeeded else 0
  }

  /** How often `k` is in some processor's hands. */
  function InHands(ps: seq<Processor>, k: Tx): nat {
    if ps == [] then 0 else Occurrences(Batch(ps[0]), k) + InHands(ps[1..], k)
  }

  lemma {:induction false} InHandsUpdate(ps: seq<Processor>, i: nat, p: Processor, k: Tx)
    requires i < |ps|
    ensures InHands(ps[i := p], k) + Occurrences(Batch(ps[i]), k) == InHands(ps, k) + Occurrences(Batch(p), k)
  {
    if i > 0 {
      assert ps[i := p][1..] == ps[1..][i - 1 := p];
      InHandsUpdate(ps[1..], i - 1, p, k);
    }
  }

  function UnpublishedTotal(ps: seq<Processor>): nat {
    if ps == [] then 0 else Unpublished(ps[0]) + UnpublishedTotal(ps[1..])
  }

  lemma {:induction false} UnpublishedUpdate(ps: seq<Processor>, i: nat, p: Processor)
    requires i < |ps|
    ensures UnpublishedTotal(ps[i := p]) + Unpublished(ps[i]) == UnpublishedTotal(ps) + Unpublished(p)
  {
    if i > 0 {
      assert ps[i := p][1..] == ps[1..][i - 1 := p];
      UnpublishedUpdate(ps[1..], i - 1, p);
    }
  }

  /** How many of the processed transactions succeeded. */
  function Successes(c: Config, q: seq<Tx>): (n: nat)
    ensures n <= |q|
  {
    if q == [] then 0 else Successes(c, q[..|q| - 1]) + (if c.succeeds(q[|q| - 1]) then 1 else 0)
  }

  function Sum(xs: seq<nat>): nat {
    if xs == [] then 0 else Sum(xs[..|xs| - 1]) + xs[|xs| - 1]
  }

  lemma {:induction false} SumHead(xs: seq<nat>)
    requires xs != []
    ensures Sum(xs) == xs[0] + Sum(xs[1..])
    decreases |xs|
  {
    if |xs| > 1 {
      assert xs[..|xs| - 1][1..] == xs[1..][..|xs| - 2];
      SumHead(xs[..|xs| - 1]);
    }
  }

  lemma SumAppend(xs: seq<nat>, x: nat)
    ensures Sum(xs + [x]) == Sum(xs) + x
  {
    assert (xs + [x])[..|xs|] == xs;
  }

  // ----- the transactions

  /** The queue is first in, first out: what was taken followed by what is queued is what was accepted. */
  predicate Fifo(s: State) {
    s.taken + s.queue == s.accepted
  }

  /** Every transaction taken is in one processor's hands or processed, as often as it was taken. */
  predicate Accounted(s: State, k: Tx) {
    Occurrences(s.taken, k) == InHands(s.processors, k) + Occurrences(s.processed, k)
  }

  /** Accepted transactions are distinct: their numbers ascend and are all used. */
  predicate Ascending(s: State) {
    && (forall i, j :: 0 <= i < j < |s.accepted| ==> s.accepted[i] < s.accepted[j])
    && (forall i :: 0 <= i < |s.accepted| ==> s.accepted[i] < s.generated)
  }

  lemma {:induction false} AscendingOnce(q: seq<Tx>, k: Tx)
    requires forall i, j :: 0 <= i < j < |q| ==> q[i] < q[j]
    ensures Occurrences(q, k) == if k in q then 1 else 0
    decreases |q|
  {
    if q != [] {
      var r, x := q[..|q| - 1], q[|q| - 1];
      AscendingOnce(r, k);
      assert q == r + [x];
    }
  }

  /** A processor's move balances when what it took is held or processed. */
  lemma MoveBalances(s: State, t: State, i: nat, k: Tx)
    requires i < |s.processors| && |t.processors| == |s.processors| && Accounted(s, k)
    requires t.processors == s.processors[i := t.processors[i]]
    requires Occurrences(t.taken, k) + Occurrences(Batch(s.processors[i]), k) + Occurrences(s.processed, k)
             == Occurrences(s.taken, k) + Occurrences(Batch(t.processors[i]), k) + Occurrences(t.processed, k)
    ensures Accounted(t, k)
  {
    InHandsUpdate(s.processors, i, t.processors[i], k);
  }

  /** The move that takes a transaction off the queue. */
  lemma TakeMove(c: Config, s: State, i: nat)
    requires i < |s.processors| && s.processors[i].Taking? && s.queue != []
    ensures var t := ProcessorStep(c, s, i);
            && t == s.(processors := s.processors[i := Gathering(s.processors[i].batch + [s.queue[0]])],
                       queue := s.queue[1..], taken := s.taken + [s.queue[0]])
  {
  }

  /** The move that processes one transaction. */
  lemma WorkMove(c: Config, s: State, i: nat)
    requires i < |s.processors| && s.processors[i].Working? && s.processors[i].rest != []
    ensures var t := ProcessorStep(c, s, i);
            var p := s.processors[i];
            && t == s.(processors := t.processors, processed := s.processed + [p.rest[0]])
            && t.processors
               == s.processors[i := Working(p.rest[1..], p.succeeded + if c.succeeds(p.rest[0]) then 1 else 0)]
  {
  }

  /** Any other move leaves the processor with the batch it had. */
  lemma QuietMove(c: Config, s: State, i: nat)
    requires i < |s.processors|
    requires !(s.processors[i].Taking? && s.queue != []) && !(s.processors[i].Working? && s.processors[i].rest != [])
    ensures var t := ProcessorStep(c, s, i);
            && t == s.(processors := t.processors, results := t.results) && |t.processors| == |s.processors|
            && t.processors == s.processors[i := t.processors[i]]
            && Batch(t.processors[i]) == Batch(s.processors[i])
            && t.results == (if s.processors[i].Working? then s.results + [s.processors[i].succeeded] else s.results)
            && Unpublished(t.processors[i]) == 0
  {
  }

  lemma TakeBalances(c: Config, s: State, i: nat, k: Tx)
    requires i < |s.processors| && s.processors[i].Taking? && s.queue != [] && Accounted(s, k)
    ensures Accounted(ProcessorStep(c, s, i), k)
  {
    TakeMove(c, s, i);
    AppendOccurrence(s.processors[i].batch, s.queue[0], k);
    AppendOccurrence(s.taken, s.queue[0], k);
    MoveBalances(s, ProcessorStep(c, s, i), i, k);
  }

  lemma WorkBalances(c: Config, s: State, i: nat, k: Tx)
    requires i < |s.processors| && s.processors[i].Working? && s.processors[i].rest != [] && Accounted(s, k)
    ensures Accounted(ProcessorStep(c, s, i), k)
  {
    WorkMove(c, s, i);
    HeadOccurrence(s.processors[i].rest, k);
    AppendOccurrence(s.processed, s.processors[i].rest[0], k);
    MoveBalances(s, ProcessorStep(c, s, i), i, k);
  }

  lemma ProcessorBalances(c: Config, s: State, i: nat, k: Tx)
    requires i < |s.processors| && Accounted(s, k)
    ensures Accounted(ProcessorStep(c, s, i), k)
  {
    var p := s.processors[i];
    if p.Taking? && s.queue != [] {
      TakeBalances(c, s, i, k);
    } else if p.Working? && p.rest != [] {
      WorkBalances(c, s, i, k);
    } else {
      QuietMove(c, s, i);
      MoveBalances(s, ProcessorStep(c, s, i), i, k);
    }
  }

  lemma ProcessorQueues(c: Config, s: State, i: nat)
    requires i < |s.processors| && Fifo(s)
    ensures Fifo(ProcessorStep(c, s, i))
  {
    if s.processors[i].Taking? && s.queue != [] {
      assert s.taken + [s.queue[0]] + s.queue[1..] == s.taken + s.queue;
    }
  }

  lemma ProducerQueues(c: Config, s: State, elapsed: bool, window: Option<Window>)
    requires Fifo(s)
    ensures Fifo(ProducerStep(c, s, elapsed, window))
  {
    assert s.taken + (s.queue + [s.generated]) == s.taken + s.queue + [s.generated];
  }

  lemma ProducerBalances(c: Config, s: State, elapsed: bool, window: Option<Window>)
    ensures var t := ProducerStep(c, s, elapsed, window);
            t.taken == s.taken && t.processors == s.processors && t.processed == s.processed
  {
  }

  lemma StepMoves(c: Config, s: State, e: Event, k: Tx)
    requires Enabled(s, e) && Fifo(s) && Accounted(s, k)
    ensures Fifo(Step(c, s, e)) && Accounted(Step(c, s, e), k)
  {
    match e
    case Produce(elapsed, window) =>
      ProducerQueues(c, s, elapsed, window);
      ProducerBalances(c, s, elapsed, window);
    case Process(i) =>
      ProcessorQueues(c, s, i);
      ProcessorBalances(c, s, i, k);
    case Stop =>
  }

  lemma StepAscends(c: Config, s: State, e: Event)
    requires Enabled(s, e) && Ascending(s)
    ensures Ascending(Step(c, s, e))
  {
  }

  // ----- sizes and money

  /** Attempts of the current round not yet counted in `transaction_count`. */
  function Uncounted(p: Producer): nat {
    if p.Submitting? then p.attempts else 0
  }

  predicate SizeInv(c: Config, s: State) {
    && |s.queue| <= c.maxQueue
    && |s.accepted| <= s.generated
    && s.generated == s.accounts.transactionCount + Uncounted(s.producer)
    && Uncounted(s.producer) <= c.batchSize
  }

  /** The running maximum of every rate computed. */
  function MaxOf(xs: seq<nat>): nat {
    if xs == [] then 0
    else
      var m := MaxOf(xs[..|xs| - 1]);
      if m < xs[|xs| - 1] then xs[|xs| - 1] else m
  }

  /** Closed windows plus the open one are all that was credited: attempts, and completions once more. */
  predicate MoneyInv(a: Accounts) {
    && Sum(a.windows) + a.accumulated == a.transactionCount + a.drained
    && a.peakTps == MaxOf(a.rates)
    && (a.rates != [] ==> a.currentTps == a.rates[|a.rates| - 1])
  }

  /** Every success counted is unpublished, in the result queue, or drained. */
  predicate ResultInv(c: Config, s: State) {
    Successes(c, s.processed) == UnpublishedTotal(s.processors) + Sum(s.results) + s.accounts.drained
  }

  lemma CloseWindowKeeps(a: Accounts, w: Window)
    requires MoneyInv(a)
    ensures MoneyInv(CloseWindow(a, w))
  {
    var r := CloseWindow(a, w);
    SumAppend(a.windows, a.accumulated);
    assert r.rates[..|a.rates|] == a.rates;
  }

  lemma ProducerKeepsSizes(c: Config, s: State, elapsed: bool, window: Option<Window>)
    requires SizeInv(c, s)
    ensures SizeInv(c, ProducerStep(c, s, elapsed, window))
  {
  }

  lemma ProducerKeepsMoney(c: Config, s: State, elapsed: bool, window: Option<Window>)
    requires MoneyInv(s.accounts)
    ensures MoneyInv(ProducerStep(c, s, elapsed, window).accounts)
  {
    if s.producer.Closing? && window.Some? {
      CloseWindowKeeps(s.accounts, window.value);
    }
  }

  lemma ProducerKeepsResults(c: Config, s: State, elapsed: bool, window: Option<Window>)
    requires ResultInv(c, s)
    ensures ResultInv(c, ProducerStep(c, s, elapsed, window))
  {
    if s.producer.Draining? && s.results != [] {
      SumHead(s.results);
    }
  }

  lemma ProcessorKeepsSizes(c: Config, s: State, i: nat)
    requires i < |s.processors| && SizeInv(c, s)
    ensures SizeInv(c, ProcessorStep(c, s, i))
  {
  }

  lemma WorkKeepsResults(c: Config, s: State, i: nat)
    requires i < |s.processors| && s.processors[i].Working? && s.processors[i].rest != [] && ResultInv(c, s)
    ensures ResultInv(c, ProcessorStep(c, s, i))
  {
    WorkMove(c, s, i);
    var t := ProcessorStep(c, s, i);
    UnpublishedUpdate(s.processors, i, t.processors[i]);
    assert t.processed[..|s.processed|] == s.processed;
  }

  lemma QuietKeepsResults(c: Config, s: State, i: nat)
    requires i < |s.processors| && ResultInv(c, s)
    requires !(s.processors[i].Taking? && s.queue != []) && !(s.processors[i].Working? && s.processors[i].rest != [])
    ensures ResultInv(c, ProcessorStep(c, s, i))
  {
    QuietMove(c, s, i);
    var t, p := ProcessorStep(c, s, i), s.processors[i];
    UnpublishedUpdate(s.processors, i, t.processors[i]);
    if p.Working? {
      SumAppend(s.results, p.succeeded);
    }
  }

  lemma ProcessorKeepsResults(c: Config, s: State, i: nat)
    requires i < |s.processors| && ResultInv(c, s)
    ensures ResultInv(c, ProcessorStep(c, s, i))
  {
    var p := s.processors[i];
    if p.Taking? && s.queue != [] {
      TakeMove(c, s, i);
      UnpublishedUpdate(s.processors, i, ProcessorStep(c, s, i).processors[i]);
    } else if p.Working? && p.rest != [] {
      WorkKeepsResults(c, s, i);
    } else {
      QuietKeepsResults(c, s, i);
    }
  }

  lemma StepKeepsBooks(c: Config, s: State, e: Event)
    requires Enabled(s, e) && SizeInv(c, s) && MoneyInv(s.accounts) && ResultInv(c, s)
    ensures var t := Step(c, s, e); SizeInv(c, t) && MoneyInv(t.accounts) && ResultInv(c, t)
  {
    match e
    case Produce(elapsed, window) =>
      ProducerKeepsSizes(c, s, elapsed, window);
      ProducerKeepsMoney(c, s, elapsed, window);
      ProducerKeepsResults(c, s, elapsed, window);
    case Process(i) =>
      ProcessorKeepsSizes(c, s, i);
      ProcessorKeepsResults(c, s, i);
    case Stop =>
  }

  // ----- runs

  predicate Inv(c: Config, s: State, k: Tx) {
    && Fifo(s) && Accounted(s, k) && Ascending(s)
    && SizeInv(c, s) && MoneyInv(s.accounts) && ResultInv(c, s)
  }

  predicate Allowed(c: Config, s: State, es: seq<Event>)
    decreases |es|
  {
    es == [] || (Enabled(s, es[0]) && Allowed(c, Step(c, s, es[0]), es[1..]))
  }

  function Run(c: Config, s: State, es: seq<Event>): State
    requires Allowed(c, s, es)
    decreases |es|
  {
    if es == [] then s else Run(c, Step(c, s, es[0]), es[1..])
  }

  lemma {:induction false} RunKeeps(c: Config, s: State, es: seq<Event>, k: Tx)
    requires Allowed(c, s, es) && Inv(c, s, k)
    ensures Inv(c, Run(c, s, es), k)
    decreases |es|
  {
    if es != [] {
      StepMoves(c, s, es[0], k);
      StepAscends(c, s, es[0]);
      StepKeepsBooks(c, s, es[0]);
      RunKeeps(c, Step(c, s, es[0]), es[1..], k);
    }
  }

  lemma {:induction false} IdleHoldsNothing(ps: seq<Processor>, k: Tx)
    requires forall i :: 0 <= i < |ps| ==> Batch(ps[i]) == [] && Unpublished(ps[i]) == 0
    ensures InHands(ps, k) == 0 && UnpublishedTotal(ps) == 0
    decreases |ps|
  {
    if ps != [] {
      IdleHoldsNothing(ps[1..], k);
    }
  }

  lemma InitialKeeps(c: Config, threads: nat, k: Tx)
    ensures Inv(c, Initial(threads), k)
  {
    IdleHoldsNothing(Initial(threads).processors, k);
  }

  /**
   In every interleaving each accepted transaction is in exactly one place: the
   queue, one processor's batch, or the processed ones.  Nothing else is anywhere.
   */
  lemma ExactlyOnePlace(c: Config, threads: nat, es: seq<Event>, k: Tx)
    requires Allowed(c, Initial(threads), es)
    ensures var s := Run(c, Initial(threads), es);
            Occurrences(s.queue, k) + InHands(s.processors, k) + Occurrences(s.processed, k)
            == if k in s.accepted then 1 else 0
  {
    InitialKeeps(c, threads, k);
    RunKeeps(c, Initial(threads), es, k);
    var s := Run(c, Initial(threads), es);
    ConcatOccurrences(s.taken, s.queue, k);
    AscendingOnce(s.accepted, k);
  }

  lemma {:induction false} IdlePublishedAll(ps: seq<Processor>)
    requires forall i :: 0 <= i < |ps| ==> ps[i].Exited?
    ensures UnpublishedTotal(ps) == 0
    decreases |ps|
  {
    if ps != [] {
      IdlePublishedAll(ps[1..]);
    }
  }

  /**
   Once every processor has exited, each accepted transaction was processed once or
   never left the queue, and every success was drained or waits in the result queue.
   */
  lemma NothingLeftInHands(c: Config, threads: nat, es: seq<Event>, k: Tx)
    requires Allowed(c, Initial(threads), es)
    requires forall p :: p in Run(c, Initial(threads), es).processors ==> p.Exited?
    ensures var s := Run(c, Initial(threads), es);
            && InHands(s.processors, k) == 0
            && Occurrences(s.queue, k) + Occurrences(s.processed, k) == (if k in s.accepted then 1 else 0)
            && Successes(c, s.processed) == Sum(s.results) + s.accounts.drained
  {
    ExactlyOnePlace(c, threads, es, k);
    InitialKeeps(c, threads, k);
    RunKeeps(c, Initial(threads), es, k);
    ExitedHoldNothing(Run(c, Initial(threads), es).processors, k);
  }

  lemma ExitedHoldNothing(ps: seq<Processor>, k: Tx)
    requires forall p :: p in ps ==> p.Exited?
    ensures InHands(ps, k) == 0 && UnpublishedTotal(ps) == 0
  {
    assert forall i :: 0 <= i < |ps| ==> ps[i] in ps;
    IdleHoldsNothing(ps, k);
    IdlePublishedAll(ps);
  }

  /** How many transactions are in some processor's hands. */
  function Held(ps: seq<Processor>): nat {
    if ps == [] then 0 else |Batch(ps[0])| + Held(ps[1..])
  }

  lemma {:induction false} HeldUpdate(ps: seq<Processor>, i: nat, p: Processor)
    requires i < |ps|
    ensures Held(ps[i := p]) + |Batch(ps[i])| == Held(ps) + |Batch(p)|
  {
    if i > 0 {
      assert ps[i := p][1..] == ps[1..][i - 1 := p];
      HeldUpdate(ps[1..], i - 1, p);
    }
  }

  /** What was taken is processed or still held. */
  predicate TakenInv(s: State) {
    |s.taken| == |s.processed| + Held(s.processors)
  }

  lemma ProcessorBound(c: Config, s: State, i: nat)
    requires i < |s.processors| && TakenInv(s)
    ensures TakenInv(ProcessorStep(c, s, i))
  {
    var p := s.processors[i];
    if p.Taking? && s.queue != [] {
      TakeMove(c, s, i);
    } else if p.Working? && p.rest != [] {
      WorkMove(c, s, i);
    } else {
      QuietMove(c, s, i);
    }
    HeldUpdate(s.processors, i, ProcessorStep(c, s, i).processors[i]);
  }

  lemma BoundStep(c: Config, s: State, e: Event)
    requires Enabled(s, e) && TakenInv(s)
    ensures TakenInv(Step(c, s, e))
  {
    match e
    case Produce(elapsed, window) => ProducerBalances(c, s, elapsed, window);
    case Process(i) => ProcessorBound(c, s, i);
    case Stop =>
  }

  lemma {:induction false} TakenRun(c: Config, s: State, es: seq<Event>)
    requires Allowed(c, s, es) && TakenInv(s)
    ensures TakenInv(Run(c, s, es))
    decreases |es|
  {
    if es != [] {
      BoundStep(c, s, es[0]);
      TakenRun(c, Step(c, s, es[0]), es[1..]);
    }
  }

  lemma {:induction false} IdleHeld(ps: seq<Processor>)
    requires forall i :: 0 <= i < |ps| ==> Batch(ps[i]) == []
    ensures Held(ps) == 0
    decreases |ps|
  {
    if ps != [] {
      IdleHeld(ps[1..]);
    }
  }

  /** In every run what was taken from the queue was processed or is in a processor's hands. */
  lemma TakenAreHeldOrProcessed(c: Config, threads: nat, es: seq<Event>, k: Tx)
    requires Allowed(c, Initial(threads), es)
    ensures var s := Run(c, Initial(threads), es);
            && Occurrences(s.taken, k) == Occurrences(s.processed, k) + InHands(s.processors, k)
            && |s.taken| == |s.processed| + Held(s.processors)
  {
    InitialKeeps(c, threads, k);
    RunKeeps(c, Initial(threads), es, k);
    IdleHeld(Initial(threads).processors);
    TakenRun(c, Initial(threads), es);
  }

  /**
   At every point of every run the closed windows plus the open one equal the
   transactions counted plus the completions drained, and between rounds
   drained <= processed <= accepted <= counted.  So the benchmark credits each
   success twice: the total lies between `transaction_count` and twice that.
   */
  lemma WindowsBalance(c: Config, threads: nat, es: seq<Event>)
    requires Allowed(c, Initial(threads), es)
    ensures var s := Run(c, Initial(threads), es);
            var a := s.accounts;
            && Sum(a.windows) + a.accumulated == a.transactionCount + a.drained
            && a.drained <= |s.processed| <= |s.accepted| <= a.transactionCount + Uncounted(s.producer)
            && (!s.producer.Submitting? ==>
                  a.transactionCount <= Sum(a.windows) + a.accumulated <= 2 * a.transactionCount)
            && a.peakTps == MaxOf(a.rates)
  {
    InitialKeeps(c, threads, 0);
    RunKeeps(c, Initial(threads), es, 0);
    IdleHeld(Initial(threads).processors);
    TakenRun(c, Initial(threads), es);
  }

  /** The running maximum bounds every rate and is one of them. */
  lemma {:induction false} MaxOfIsMaximum(xs: seq<nat>)
    ensures forall i :: 0 <= i < |xs| ==> xs[i] <= MaxOf(xs)
    ensures xs != [] ==> MaxOf(xs) in xs
    decreases |xs|
  {
    if xs != [] {
      MaxOfIsMaximum(xs[..|xs| - 1]);
    }
  }

  lemma PositiveProduct(d: real, w: real)
    requires w > 0.0 && d > 0.0
    ensures d * w > 0.0
  {
  }

  lemma FloorBelow(x: real, w: real, q: real, r: real)
    requires w > 0.0 && q * w == x && r <= q
    ensures r * w <= x
  {
    if r < q {
      PositiveProduct(q - r, w);
    }
  }

  lemma CeilingAbove(x: real, w: real, q: real, r: real)
    requires w > 0.0 && q * w == x && q < r + 1.0
    ensures x < (r + 1.0) * w
  {
    PositiveProduct(r + 1.0 - q, w);
  }

  /** The rate of a window: the credited transactions per second, rounded down. */
  lemma RateIsFloor(a: Accounts, w: Window)
    ensures var r := CloseWindow(a, w).currentTps as real;
            r * w <= a.accumulated as real < (r + 1.0) * w
  {
    var q := a.accumulated as real / w;
    assert CloseWindow(a, w).currentTps == q.Floor;
    FloorBelow(a.accumulated as real, w, q, q.Floor as real);
    CeilingAbove(a.accumulated as real, w, q, q.Floor as real);
  }

  // ----- when threads work, and when they stop

  /** Exited only if the benchmark was stopped, and never with more than a batch in hand. */
  predicate WellBehaved(c: Config, running: bool, p: Processor) {
    && (p.Exited? ==> !running)
    && |Batch(p)| <= c.batchSize
    && (p.Taking? ==> |p.batch| < c.batchSize)
  }

  predicate Disciplined(c: Config, s: State) {
    && (forall i :: 0 <= i < |s.processors| ==> WellBehaved(c, s.running, s.processors[i]))
    && (s.producer.Stopped? ==> !s.running)
  }

  lemma ProcessorIsDisciplined(c: Config, s: State, i: nat)
    requires i < |s.processors| && Disciplined(c, s)
    ensures var t := ProcessorStep(c, s, i);
            && t.running == s.running && t.producer == s.producer && |t.processors| == |s.processors|
            && WellBehaved(c, s.running, t.processors[i])
            && forall j :: 0 <= j < |s.processors| && j != i ==> t.processors[j] == s.processors[j]
  {
  }

  lemma DisciplineStep(c: Config, s: State, e: Event)
    requires Enabled(s, e) && Disciplined(c, s)
    ensures Disciplined(c, Step(c, s, e)) && (!s.running ==> !Step(c, s, e).running)
    ensures |Step(c, s, e).processors| == |s.processors|
  {
    if e.Process? {
      ProcessorIsDisciplined(c, s, e.thread);
    }
  }

  lemma {:induction false} DisciplineRun(c: Config, s: State, es: seq<Event>)
    requires Allowed(c, s, es) && Disciplined(c, s)
    ensures Disciplined(c, Run(c, s, es)) && |Run(c, s, es).processors| == |s.processors|
    decreases |es|
  {
    if es != [] {
      DisciplineStep(c, s, es[0]);
      DisciplineRun(c, Step(c, s, es[0]), es[1..]);
    }
  }

  /** In every run no thread has ended while the benchmark runs, and no batch is too large. */
  lemma NoneExitsEarly(c: Config, threads: nat, es: seq<Event>)
    requires Allowed(c, Initial(threads), es)
    ensures Disciplined(c, Run(c, Initial(threads), es)) && |Run(c, Initial(threads), es).processors| == threads
  {
    DisciplineRun(c, Initial(threads), es);
  }

  /** The benchmark runs exactly until it is stopped, once and for all. */
  lemma {:induction false} RunsUntilStopped(c: Config, s: State, es: seq<Event>)
    requires Allowed(c, s, es)
    ensures Run(c, s, es).running <==> s.running && Stop !in es
    decreases |es|
  {
    if es != [] {
      RunsUntilStopped(c, Step(c, s, es[0]), es[1..]);
      assert es == [es[0]] + es[1..];
      assert Step(c, s, es[0]).running <==> s.running && !es[0].Stop?;
    }
  }

  /** A processor that comes to the top exits with its next step exactly if the benchmark was stopped. */
  lemma ExitsWhenStopped(c: Config, s: State, i: nat)
    requires i < |s.processors| && s.processors[i].AtTop?
    ensures Step(c, s, Process(i)).processors[i].Exited? <==> !s.running
    ensures s.running ==> Step(c, s, Process(i)) == SetProcessor(s, i, Gathering([]))
  {
  }

  /** Processor `i` scheduled alone for `n` steps. */
  function Alone(c: Config, s: State, i: nat, n: nat): (t: State)
    requires i < |s.processors|
    ensures |t.processors| == |s.processors|
    decreases n
  {
    if n == 0 then s else Alone(c, ProcessorStep(c, s, i), i, n - 1)
  }

  lemma {:induction false} AloneThen(c: Config, s: State, i: nat, n: nat, m: nat)
    requires i < |s.processors|
    ensures Alone(c, s, i, n + m) == Alone(c, Alone(c, s, i, n), i, m)
    decreases n
  {
    if n > 0 {
      AloneThen(c, ProcessorStep(c, s, i), i, n - 1, m);
    }
  }

  /** Being scheduled alone is a run. */
  lemma {:induction false} AloneIsRun(c: Config, s: State, i: nat, n: nat)
    requires i < |s.processors|
    ensures var es := seq(n, _ => Process(i)); Allowed(c, s, es) && Run(c, s, es) == Alone(c, s, i, n)
    decreases n
  {
    if n > 0 {
      var es := seq(n, _ => Process(i));
      AloneIsRun(c, ProcessorStep(c, s, i), i, n - 1);
      assert es[1..] == seq(n - 1, _ => Process(i));
    }
  }

  /** What is left of the state when `k` transactions were taken by a processor that is now at `p`. */
  function After(s: State, i: nat, k: nat, p: Processor): State
    requires i < |s.processors| && k <= |s.queue|
  {
    SetProcessor(s, i, p).(queue := s.queue[k..], taken := s.taken + s.queue[..k])
  }

  lemma AfterOneMore(s: State, i: nat, k: nat, p: Processor, p': Processor)
    requires i < |s.processors| && 0 < k <= |s.queue|
    ensures After(After(s, i, 1, p), i, k - 1, p') == After(s, i, k, p')
  {
    var t := After(s, i, 1, p);
    assert t.queue[k - 1..] == s.queue[k..];
    assert t.taken + t.queue[..k - 1] == s.taken + s.queue[..k];
  }

  lemma TakesTheHead(c: Config, s: State, i: nat, batch: seq<Tx>)
    requires i < |s.processors| && s.processors[i] == Gathering(batch) && |batch| < c.batchSize && s.queue != []
    ensures Alone(c, s, i, 2) == After(s, i, 1, Gathering(batch + [s.queue[0]]))
  {
    var s1 := ProcessorStep(c, s, i);
    assert s1 == SetProcessor(s, i, Taking(batch));
    var s2 := ProcessorStep(c, s1, i);
    assert s.queue[..1] == [s.queue[0]];
    assert s2 == After(s, i, 1, Gathering(batch + [s.queue[0]]));
    assert Alone(c, s1, i, 1) == Alone(c, s2, i, 0);
  }

  lemma EndsWithTheBatch(c: Config, s: State, i: nat, batch: seq<Tx>)
    requires i < |s.processors| && s.processors[i] == Gathering(batch)
    requires |batch| >= c.batchSize || s.queue == []
    ensures Alone(c, s, i, 1) == After(s, i, 0, EndGathering(batch))
  {
    assert s.taken + s.queue[..0] == s.taken && s.queue[0..] == s.queue;
    assert Alone(c, s, i, 1) == Alone(c, ProcessorStep(c, s, i), i, 0);
  }

  /** Gathering takes from the head of the queue until the batch is full or the queue is empty. */
  lemma {:induction false} GathersFromTheHead(c: Config, s: State, i: nat, batch: seq<Tx>, k: nat)
    requires i < |s.processors| && s.processors[i] == Gathering(batch) && |batch| + k <= c.batchSize && k <= |s.queue|
    requires |batch| + k == c.batchSize || k == |s.queue|
    ensures Alone(c, s, i, 2 * k + 1) == After(s, i, k, EndGathering(batch + s.queue[..k]))
    decreases k
  {
    if k == 0 {
      assert batch + s.queue[..0] == batch;
      EndsWithTheBatch(c, s, i, batch);
    } else {
      var more := batch + [s.queue[0]];
      var s2 := After(s, i, 1, Gathering(more));
      TakesTheHead(c, s, i, batch);
      AloneThen(c, s, i, 2, 2 * (k - 1) + 1);
      GathersFromTheHead(c, s2, i, more, k - 1);
      assert more + s2.queue[..k - 1] == batch + s.queue[..k];
      AfterOneMore(s, i, k, Gathering(more), EndGathering(batch + s.queue[..k]));
    }
  }

  lemma {:induction false} SuccessesHead(c: Config, q: seq<Tx>)
    requires q != []
    ensures Successes(c, q) == (if c.succeeds(q[0]) then 1 else 0) + Successes(c, q[1..])
    decreases |q|
  {
    if |q| > 1 {
      assert q[..|q| - 1][1..] == q[1..][..|q| - 2];
      SuccessesHead(c, q[..|q| - 1]);
    }
  }

  /** What is left when a processor has worked on `done` and published `n` successes. */
  function Published(s: State, i: nat, done: seq<Tx>, n: nat): State
    requires i < |s.processors|
  {
    SetProcessor(s, i, AtTop).(processed := s.processed + done, results := s.results + [n])
  }

  lemma ProcessesOne(c: Config, s: State, i: nat, rest: seq<Tx>, n: nat)
    requires i < |s.processors| && s.processors[i] == Working(rest, n) && rest != []
    ensures var s1 := ProcessorStep(c, s, i);
            && s1.processors[i] == Working(rest[1..], n + if c.succeeds(rest[0]) then 1 else 0)
            && forall k: nat :: Published(s1, i, rest[1..], k) == Published(s, i, rest, k)
  {
    var s1 := ProcessorStep(c, s, i);
    assert s1.processed + rest[1..] == s.processed + rest;
    assert s1.processors[i := AtTop] == s.processors[i := AtTop];
  }

  /** Working processes the batch in order and publishes how many succeeded. */
  lemma {:induction false} WorksThroughTheBatch(c: Config, s: State, i: nat, rest: seq<Tx>, n: nat)
    requires i < |s.processors| && s.processors[i] == Working(rest, n)
    ensures Alone(c, s, i, |rest| + 1) == Published(s, i, rest, n + Successes(c, rest))
    decreases |rest|
  {
    var s1 := ProcessorStep(c, s, i);
    if rest == [] {
      assert s.processed + rest == s.processed;
      assert Alone(c, s, i, 1) == Alone(c, s1, i, 0);
    } else {
      SuccessesHead(c, rest);
      ProcessesOne(c, s, i, rest, n);
      WorksThroughTheBatch(c, s1, i, rest[1..], s1.processors[i].succeeded);
    }
  }

  /** A processor that finds the queue empty is back at the top having changed nothing. */
  lemma WorkerFindsNothing(c: Config, s: State, i: nat)
    requires i < |s.processors| && s.processors[i].AtTop? && s.running && (s.queue == [] || c.batchSize == 0)
    ensures Run(c, s, [Process(i), Process(i)]) == s
  {
    var s1 := SetProcessor(s, i, Gathering([]));
    assert ProcessorStep(c, s, i) == s1;
    assert ProcessorStep(c, s1, i).processors == s.processors;
    assert [Process(i), Process(i)][1..] == [Process(i)] && [Process(i)][1..] == [];
    assert Run(c, s1, [Process(i)]) == Run(c, ProcessorStep(c, s1, i), []);
  }

  /** One that loses the race for the last transaction goes on with what it has. */
  lemma LosesTheRace(c: Config, s: State, i: nat, batch: seq<Tx>)
    requires i < |s.processors| && s.processors[i] == Taking(batch) && s.queue == []
    ensures Step(c, s, Process(i)) == SetProcessor(s, i, if batch == [] then AtTop else Working(batch, 0))
  {
  }

  /**
   A processor at the top of its loop, scheduled alone while the benchmark runs,
   takes a batch from the head of the queue, processes it in order, publishes the
   number of successes, and is at the top again.
   */
  lemma WorkerRound(c: Config, s: State, i: nat)
    requires i < |s.processors| && s.processors[i].AtTop? && s.running && s.queue != [] && c.batchSize > 0
    ensures var m := Min(c.batchSize, |s.queue|);
            var batch := s.queue[..m];
            var es := seq(3 * m + 3, _ => Process(i));
            && m > 0 && Allowed(c, s, es)
            && Run(c, s, es) == s.(queue := s.queue[m..], taken := s.taken + batch,
                                   processed := s.processed + batch, results := s.results + [Successes(c, batch)])
  {
    var m := Min(c.batchSize, |s.queue|);
    WorkerRoundAlone(c, s, i, m);
    AloneIsRun(c, s, i, 3 * m + 3);
  }

  lemma WorkerRoundAlone(c: Config, s: State, i: nat, m: nat)
    requires i < |s.processors| && s.processors[i].AtTop? && s.running && 0 < m == Min(c.batchSize, |s.queue|)
    ensures Alone(c, s, i, 3 * m + 3)
            == s.(queue := s.queue[m..], taken := s.taken + s.queue[..m], processed := s.processed + s.queue[..m],
                  results := s.results + [Successes(c, s.queue[..m])])
  {
    var s1, batch := SetProcessor(s, i, Gathering([])), s.queue[..m];
    var s2 := After(s1, i, m, Working(batch, 0));
    GathersABatch(c, s, i, m);
    AloneThen(c, s, i, 2 * m + 2, m + 1);
    assert Alone(c, s2, i, m + 1) == Published(s2, i, batch, Successes(c, batch)) by {
      WorksThroughTheBatch(c, s2, i, batch, 0);
    }
    BackAtTheTop(s, i, m);
  }

  lemma GathersABatch(c: Config, s: State, i: nat, m: nat)
    requires i < |s.processors| && s.processors[i].AtTop? && s.running && 0 < m == Min(c.batchSize, |s.queue|)
    ensures Alone(c, s, i, 2 * m + 2)
            == After(SetProcessor(s, i, Gathering([])), i, m, Working(s.queue[..m], 0))
  {
    var s1 := SetProcessor(s, i, Gathering([]));
    assert ProcessorStep(c, s, i) == s1;
    GathersFromTheHead(c, s1, i, [], m);
    assert [] + s.queue[..m] == s.queue[..m];
    assert Alone(c, s, i, 2 * m + 2) == Alone(c, s1, i, 2 * m + 1);
  }

  lemma BackAtTheTop(s: State, i: nat, m: nat)
    requires i < |s.processors| && s.processors[i].AtTop? && m <= |s.queue|
    ensures var s1 := SetProcessor(s, i, Gathering([]));
            SetProcessor(After(s1, i, m, Working(s.queue[..m], 0)), i, AtTop)
            == s.(queue := s.queue[m..], taken := s.taken + s.queue[..m])
  {
    assert s.processors[i := AtTop] == s.processors;
  }

  // ----- the producer's round

  function Producing(c: Config, s: State, window: Option<Window>, n: nat): State
    decreases n
  {
    if n == 0 then s else Producing(c, ProducerStep(c, s, true, window), window, n - 1)
  }

  lemma {:induction false} ProducingThen(c: Config, s: State, window: Option<Window>, n: nat, m: nat)
    ensures Producing(c, s, window, n + m) == Producing(c, Producing(c, s, window, n), window, m)
    decreases n
  {
    if n > 0 {
      ProducingThen(c, ProducerStep(c, s, true, window), window, n - 1, m);
    }
  }

  lemma {:induction false} ProducingIsRun(c: Config, s: State, window: Option<Window>, n: nat)
    ensures var es := seq(n, _ => Produce(true, window));
            Allowed(c, s, es) && Run(c, s, es) == Producing(c, s, window, n)
    decreases n
  {
    if n > 0 {
      var es := seq(n, _ => Produce(true, window));
      ProducingIsRun(c, ProducerStep(c, s, true, window), window, n - 1);
      assert es[1..] == seq(n - 1, _ => Produce(true, window));
    }
  }

  /** The next `n` transactions. */
  function Fresh(from: nat, n: nat): seq<Tx> {
    seq(n, i => from + i)
  }

  /** The state after `n` more attempts of a round, of which the queue had room for `k`. */
  function Offered(s: State, n: nat, k: nat): State
    requires s.producer.Submitting?
  {
    s.(producer := Submitting(s.producer.attempts + n), generated := s.generated + n,
       queue := s.queue + Fresh(s.generated, k), accepted := s.accepted + Fresh(s.generated, k))
  }

  lemma OffersOne(c: Config, s: State, window: Option<Window>)
    requires s.producer.Submitting? && s.producer.attempts < c.batchSize
    ensures ProducerStep(c, s, true, window) == Offered(s, 1, if |s.queue| < c.maxQueue then 1 else 0)
  {
    assert Fresh(s.generated, 1) == [s.generated] && Fresh(s.generated, 0) == [];
    assert s.queue + [] == s.queue && s.accepted + [] == s.accepted;
  }

  lemma OfferedMore(s: State, j: nat, n: nat, k: nat)
    requires s.producer.Submitting? && j <= 1 && (j == 0 ==> k == 0)
    ensures Offered(Offered(s, 1, j), n, k) == Offered(s, 1 + n, j + k)
  {
    var f := Fresh(s.generated, j);
    assert f + Fresh(s.generated + 1, k) == Fresh(s.generated, j + k);
    assert s.queue + f + Fresh(s.generated + 1, k) == s.queue + (f + Fresh(s.generated + 1, k));
    assert s.accepted + f + Fresh(s.generated + 1, k) == s.accepted + (f + Fresh(s.generated + 1, k));
  }

  /** Submitting offers the rest of the batch, and the queue takes what it has room for. */
  lemma {:induction false} SubmitsTheRest(c: Config, s: State, window: Option<Window>, left: nat)
    requires s.producer.Submitting? && s.producer.attempts + left == c.batchSize && |s.queue| <= c.maxQueue
    ensures Producing(c, s, window, left) == Offered(s, left, Min(left, c.maxQueue - |s.queue|))
    decreases left
  {
    if left == 0 {
      assert s.queue + [] == s.queue && s.accepted + [] == s.accepted;
    } else {
      var j := if |s.queue| < c.maxQueue then 1 else 0;
      var s1 := Offered(s, 1, j);
      OffersOne(c, s, window);
      SubmitsTheRest(c, s1, window, left - 1);
      OfferedMore(s, j, left - 1, Min(left - 1, c.maxQueue - |s1.queue|));
    }
  }

  /** Draining empties the result queue into the account. */
  lemma {:induction false} DrainsEverything(c: Config, s: State, window: Option<Window>)
    requires s.producer.Draining?
    ensures var a := s.accounts;
            Producing(c, s, window, |s.results| + 1)
            == s.(producer := Closing, results := [],
                  accounts := a.(drained := a.drained + Sum(s.results), accumulated := a.accumulated + Sum(s.results)))
    decreases |s.results|
  {
    var s1 := ProducerStep(c, s, true, window);
    if s.results == [] {
      assert Producing(c, s, window, 1) == Producing(c, s1, window, 0);
    } else {
      SumHead(s.results);
      DrainsEverything(c, s1, window);
    }
  }

  /** The state after the attempts of a round: offered, counted, and ready to drain. */
  function Submitted(c: Config, s: State): State
    requires |s.queue| <= c.maxQueue
  {
    var k, a := Min(c.batchSize, c.maxQueue - |s.queue|), s.accounts;
    s.(producer := Draining, generated := s.generated + c.batchSize,
       queue := s.queue + Fresh(s.generated, k), accepted := s.accepted + Fresh(s.generated, k),
       accounts := a.(transactionCount := a.transactionCount + c.batchSize, accumulated := a.accumulated + c.batchSize))
  }

  /** The state after everything published was drained and the window closed if it is time. */
  function Closed(t: State, window: Option<Window>): State {
    var total := Sum(t.results);
    var a := t.accounts.(drained := t.accounts.drained + total, accumulated := t.accounts.accumulated + total);
    t.(producer := AtRound, results := [], accounts := if window.Some? then CloseWindow(a, window.value) else a)
  }

  lemma SubmitsABatch(c: Config, s: State, window: Option<Window>)
    requires s.producer.AtRound? && s.running && |s.queue| <= c.maxQueue
    ensures Producing(c, s, window, c.batchSize + 2) == Submitted(c, s)
  {
    var s1 := ProducerStep(c, s, true, window);
    assert s1 == s.(producer := Submitting(0));
    SubmitsTheRest(c, s1, window, c.batchSize);
    ProducingThen(c, s1, window, c.batchSize, 1);
    var s2 := Producing(c, s1, window, c.batchSize);
    assert Producing(c, s2, window, 1) == Producing(c, ProducerStep(c, s2, true, window), window, 0);
    assert Producing(c, s, window, c.batchSize + 2) == Producing(c, s1, window, c.batchSize + 1);
  }

  /**
   A whole round of the producer, undisturbed: it offers one batch of new
   transactions, of which the queue takes what it has room for, counts the whole
   batch, drains every published result, and closes the window if it is time.
   */
  lemma ProducerRound(c: Config, s: State, window: Option<Window>)
    requires s.producer.AtRound? && s.running && |s.queue| <= c.maxQueue
    ensures var es := seq(c.batchSize + |s.results| + 4, _ => Produce(true, window));
            Allowed(c, s, es) && Run(c, s, es) == Closed(Submitted(c, s), window)
  {
    var n := |s.results|;
    SubmitsABatch(c, s, window);
    ClosesTheRound(c, Submitted(c, s), window);
    ProducingThen(c, s, window, c.batchSize + 2, n + 2);
    assert (c.batchSize + 2) + (n + 2) == c.batchSize + n + 4;
    ProducingIsRun(c, s, window, c.batchSize + n + 4);
  }

  lemma ClosesTheRound(c: Config, t: State, window: Option<Window>)
    requires t.producer.Draining?
    ensures Producing(c, t, window, |t.results| + 2) == Closed(t, window)
  {
    DrainsEverything(c, t, window);
    var u := Producing(c, t, window, |t.results| + 1);
    ProducingThen(c, t, window, |t.results| + 1, 1);
    assert Producing(c, u, window, 1) == Producing(c, ProducerStep(c, u, true, window), window, 0);
  }

  /** At the top of a round the producer stops exactly if the benchmark was stopped, and waits if it is too early. */
  lemma ProducerStops(c: Config, s: State, elapsed: bool, window: Option<Window>)
    requires s.producer.AtRound?
    ensures var t := Step(c, s, Produce(elapsed, window));
            && (t.producer.Stopped? <==> !s.running)
            && (s.running && !elapsed ==> t == s)
            && t == s.(producer := t.producer)
  {
  }

  // ----- the loop over one batch

  /** `process_batch` and the count of its successes. */
  method ProcessBatch(c: Config, batch: seq<Tx>) returns (results: seq<bool>, succeeded: nat)
    ensures |results| == |batch| && forall i :: 0 <= i < |batch| ==> results[i] == c.succeeds(batch[i])
    ensures succeeded == Successes(c, batch)
  {
    results, succeeded := [], 0;
    for i := 0 to |batch|
      invariant |results| == i && forall j :: 0 <= j < i ==> results[j] == c.succeeds(batch[j])
      invariant succeeded == Successes(c, batch[..i])
    {
      var ok := c.succeeds(batch[i]);
      results := results + [ok];
      assert batch[..i + 1][..i] == batch[..i];
      if ok {
        succeeded := succeeded + 1;
      }
    }
    assert batch[..|batch|] == batch;
  }
}
