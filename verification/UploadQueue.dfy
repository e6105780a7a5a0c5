/**
 * The profiler's upload queue (profiler/profiler.go): collect numbers batches and enqueues them on
 * a bounded channel, evicting the oldest when it is full, while send takes them off and uploads
 * them (profiler/upload.go), until exit is closed.  One step per channel operation, in any order.
 */
module UploadQueue {

  const OUT_CHANNEL_SIZE: nat := 5
  const MAX_RETRIES: nat := 2

  datatype Producer =
    | Collecting
    | Sending(iteration: nat)  // about to try p.out <- bat
    | Evicting(iteration: nat) // the queue was full, about to try <-p.out
    | Returned                 // p.out is closed

  /** What a receive gives: a batch, or the zero batch of a closed and empty channel. */
  datatype Receipt = Batch(number: nat) | ZeroBatch

  /** send between receiving and the next receive: about to check exit before a request, or requesting. */
  datatype Consumer =
    | Waiting
    | Starting(got: Receipt, attempt: nat)
    | Requesting(got: Receipt, attempt: nat)
    | Left

  datatype Taker = ByConsumer | ByEviction

  /** A batch taken off the queue, and by whom. */
  datatype Removal = Removal(bat: nat, taker: Taker)

  /**
   * Batches are known by their sequence numbers; `bat` is the one being collected or enqueued.
   * History: what left the queue, what the consumer received, the batches for which a request was
   * made, and those dropped because exit was closed before the first one.
   */
  datatype State = State(
    next: nat, bat: nat, out: seq<nat>, producer: Producer, consumer: Consumer, exiting: bool,
    removed: seq<Removal>, received: seq<Receipt>, uploaded: seq<nat>, discarded: seq<nat>)

  datatype Action =
    | Enqueue | TrySend | TryEvict | Tick | ProducerReturn
    | Take | TakeClosed | CheckExit | RequestDone(retriable: bool) | ConsumerReturn
    | Exit

  /** The first batch is numbered as collect starts. */
  const INITIAL := State(1, 0, [], Collecting, Waiting, false, [], [], [], [])

  predicate Enabled(st: State, a: Action) {
    match a
    case Enqueue => st.producer == Collecting && st.bat + 1 == st.next
    case TrySend => st.producer.Sending?
    case TryEvict => st.producer.Evicting?
    case Tick => st.producer == Collecting && st.bat == st.next
    case ProducerReturn => st.exiting && st.producer == Collecting && st.bat == st.next
    case Take => st.consumer == Waiting && st.out != []
    case TakeClosed => st.consumer == Waiting && st.out == [] && st.producer == Returned
    case CheckExit => st.consumer.Starting?
    case RequestDone(_) => st.consumer.Requesting?
    case ConsumerReturn => st.exiting && st.consumer == Waiting
    case Exit => !st.exiting
  }

  function Remove(st: State, taker: Taker): State
    requires st.out != []
  {
    st.(out := st.out[1..], removed := st.removed + [Removal(st.out[0], taker)])
  }

  function Receive(st: State, got: Receipt): State {
    st.(consumer := Starting(got, 0), received := st.received + [got])
  }

  /** upload's check before each request: with exit closed it returns, otherwise a request is made. */
  function Check(st: State, got: Receipt, attempt: nat): State {
    if st.exiting then
      st.(consumer := Waiting,
          discarded := if attempt == 0 && got.Batch? then st.discarded + [got.number] else st.discarded)
    else
      st.(consumer := Requesting(got, attempt),
          uploaded := if attempt == 0 && got.Batch? then st.uploaded + [got.number] else st.uploaded)
  }

  function Step(st: State, a: Action): State
    requires Enabled(st, a)
  {
    match a
    case Enqueue => st.(producer := Sending(1))
    case TrySend =>
      if |st.out| < OUT_CHANNEL_SIZE
      then st.(out := st.out + [st.bat], producer := Collecting, bat := st.next)
      else st.(producer := Evicting(st.producer.iteration))
    case TryEvict =>
      (if st.out != [] then Remove(st, ByEviction) else st).(producer := Sending(st.producer.iteration + 1))
    case Tick => st.(next := st.next + 1)
    case ProducerReturn => st.(producer := Returned)
    case Take => Receive(Remove(st, ByConsumer), Batch(st.out[0]))
    case TakeClosed => Receive(st, ZeroBatch)
    case CheckExit => Check(st, st.consumer.got, st.consumer.attempt)
    case RequestDone(retriable) =>
      var again := st.consumer.attempt + 1;
      st.(consumer := if retriable && again < MAX_RETRIES then Starting(st.consumer.got, again) else Waiting)
    case ConsumerReturn => st.(consumer := Left)
    case Exit => st.(exiting := true)
  }

  predicate Runs(st: State, actions: seq<Action>)
    decreases |actions|
  {
    actions == [] || (Enabled(st, actions[0]) && Runs(Step(st, actions[0]), actions[1..]))
  }

  function After(st: State, actions: seq<Action>): State
    requires Runs(st, actions)
    decreases |actions|
  {
    if actions == [] then st else After(Step(st, actions[0]), actions[1..])
  }

  // ---------------------------------------------------------------------
  // Invariants

  /** The batches put on the queue so far are those below `bat`. */
  ghost predicate QueueInv(st: State) {
    && |st.out| <= OUT_CHANNEL_SIZE
    && |st.removed| + |st.out| == st.bat
    && (forall i :: 0 <= i < |st.removed| ==> st.removed[i].bat == i)
    && (forall i :: 0 <= i < |st.out| ==> st.out[i] == |st.removed| + i)
    && (match st.producer
        case Collecting => st.bat <= st.next <= st.bat + 1
        case Returned => st.bat == st.next && st.exiting
        case Sending(n) => st.next == st.bat + 1 && (n == 1 || (n == 2 && |st.out| < OUT_CHANNEL_SIZE))
        case Evicting(n) => st.next == st.bat + 1 && n == 1)
  }

  /** The batches the consumer took, in the order in which they left the queue. */
  function TakenOf(removed: seq<Removal>): seq<nat> {
    if removed == [] then []
    else
      var rest, x := TakenOf(removed[..|removed| - 1]), removed[|removed| - 1];
      if x.taker == ByConsumer then rest + [x.bat] else rest
  }

  /** The batch received and not yet decided upon. */
  function Undecided(consumer: Consumer): seq<nat> {
    if consumer.Starting? && consumer.attempt == 0 && consumer.got.Batch? then [consumer.got.number] else []
  }

  function Zeros(n: nat): seq<Receipt> { seq(n, i => ZeroBatch) }

  function Batches(xs: seq<nat>): seq<Receipt> { seq(|xs|, i requires 0 <= i < |xs| => Batch(xs[i])) }

  ghost predicate ConsumerInv(st: State) {
    && TakenOf(st.removed) == st.uploaded + st.discarded + Undecided(st.consumer)
    && (!st.exiting ==> st.discarded == [])
    && |TakenOf(st.removed)| <= |st.received|
    && st.received == Batches(TakenOf(st.removed)) + Zeros(|st.received| - |TakenOf(st.removed)|)
    && (|st.received| > |TakenOf(st.removed)| ==> st.exiting && st.producer == Returned && st.out == [])
    && (st.consumer.Starting? && st.consumer.got == ZeroBatch ==> st.exiting && st.consumer.attempt == 0)
    && (st.consumer.Requesting? ==> st.consumer.got.Batch?)
    && ((st.consumer.Starting? || st.consumer.Requesting?) ==> st.consumer.attempt < MAX_RETRIES)
  }

  lemma QueueStep(st: State, a: Action)
    requires Enabled(st, a) && QueueInv(st)
    ensures QueueInv(Step(st, a))
  {
  }

  lemma TakenSnoc(removed: seq<Removal>, x: Removal)
    ensures TakenOf(removed + [x]) == if x.taker == ByConsumer then TakenOf(removed) + [x.bat] else TakenOf(removed)
  {
    assert (removed + [x])[..|removed|] == removed;
  }

  lemma BatchesSnoc(xs: seq<nat>, x: nat)
    ensures Batches(xs + [x]) + Zeros(0) == Batches(xs) + Zeros(0) + [Batch(x)]
  {
  }

  lemma ZerosSnoc(n: nat)
    ensures Zeros(n + 1) == Zeros(n) + [ZeroBatch]
  {
  }

  lemma TakeStep(st: State)
    requires Enabled(st, Take) && QueueInv(st) && ConsumerInv(st)
    ensures ConsumerInv(Step(st, Take))
  {
    hide TakenOf, Batches, Zeros;
    TakenSnoc(st.removed, Removal(st.out[0], ByConsumer));
    BatchesSnoc(TakenOf(st.removed), st.out[0]);
    assert TakenOf(st.removed) == st.uploaded + st.discarded;
  }

  lemma TakeClosedStep(st: State)
    requires Enabled(st, TakeClosed) && QueueInv(st) && ConsumerInv(st)
    ensures ConsumerInv(Step(st, TakeClosed))
  {
    hide TakenOf, Batches, Zeros;
    ZerosSnoc(|st.received| - |TakenOf(st.removed)|);
  }

  lemma CheckStep(st: State)
    requires Enabled(st, CheckExit) && ConsumerInv(st)
    ensures ConsumerInv(Step(st, CheckExit))
  {
    hide TakenOf, Batches, Zeros;
  }

  lemma EvictStep(st: State)
    requires Enabled(st, TryEvict) && QueueInv(st) && ConsumerInv(st)
    ensures ConsumerInv(Step(st, TryEvict))
  {
    hide TakenOf, Batches, Zeros;
    if st.out != [] {
      TakenSnoc(st.removed, Removal(st.out[0], ByEviction));
    }
  }

  lemma ConsumerStep(st: State, a: Action)
    requires Enabled(st, a) && QueueInv(st) && ConsumerInv(st)
    ensures ConsumerInv(Step(st, a))
  {
    hide TakenOf, Batches, Zeros;
    match a {
      case Take => TakeStep(st);
      case TakeClosed => TakeClosedStep(st);
      case CheckExit => CheckStep(st);
      case TryEvict => EvictStep(st);
      case _ =>
    }
  }

  lemma {:induction false} RunKeeps(st: State, actions: seq<Action>)
    requires Runs(st, actions) && QueueInv(st) && ConsumerInv(st)
    ensures QueueInv(After(st, actions)) && ConsumerInv(After(st, actions))
    decreases |actions|
  {
    hide QueueInv, ConsumerInv, Enabled, Step;
    if actions != [] {
      QueueStep(st, actions[0]);
      ConsumerStep(st, actions[0]);
      RunKeeps(Step(st, actions[0]), actions[1..]);
    }
  }

  lemma Reachable(actions: seq<Action>)
    requires Runs(INITIAL, actions)
    ensures QueueInv(After(INITIAL, actions)) && ConsumerInv(After(INITIAL, actions))
  {
    hide Runs, After;
    RunKeeps(INITIAL, actions);
  }

  // ---------------------------------------------------------------------
  // The queue

  function Range(from: nat, to: nat): seq<nat>
    requires from <= to
  {
    seq(to - from, i requires 0 <= i < to - from => from + i)
  }

  /** The queue is a contiguous run that ends at the newest batch enqueued, of length at most five. */
  lemma QueueIsContiguous(actions: seq<Action>)
    requires Runs(INITIAL, actions)
    ensures var st := After(INITIAL, actions);
            && |st.out| <= 5 && |st.out| <= st.bat
            && st.out == Range(st.bat - |st.out|, st.bat)
  {
    hide Runs, After, ConsumerInv;
    Reachable(actions);
  }

  /** No enqueue takes a third turn. */
  lemma AtMostTwoIterations(actions: seq<Action>)
    requires Runs(INITIAL, actions)
    ensures var p := After(INITIAL, actions).producer;
            && (p.Sending? ==> p.iteration <= 2) && (p.Evicting? ==> p.iteration == 1)
  {
    hide Runs, After, ConsumerInv;
    Reachable(actions);
  }

  /** An eviction only ever hits one of the five batches before the one being enqueued. */
  lemma EvictsOnlyRecent(actions: seq<Action>)
    requires Runs(INITIAL, actions) && Enabled(After(INITIAL, actions), TryEvict)
    ensures var st := After(INITIAL, actions);
            st.out != [] ==> st.bat <= st.out[0] + 5 && st.out[0] < st.bat
  {
    hide Runs, After, ConsumerInv;
    Reachable(actions);
  }

  // ---------------------------------------------------------------------
  // The fate of every batch

  /** What has happened to batch `b`. */
  datatype Place = NotYet | InHand | Queued | Evicted | Received | Uploaded | Discarded

  ghost predicate At(st: State, b: nat, place: Place) {
    match place
    case NotYet => b >= st.next
    case InHand => st.bat <= b < st.next
    case Queued => b in st.out
    case Evicted => Removal(b, ByEviction) in st.removed
    case Received => b in Undecided(st.consumer)
    case Uploaded => b in st.uploaded
    case Discarded => b in st.discarded
  }

  ghost predicate Increasing(xs: seq<nat>) {
    forall i, j :: 0 <= i < j < |xs| ==> xs[i] < xs[j]
  }

  lemma {:induction false} TakenOfOrdered(removed: seq<Removal>)
    requires forall i :: 0 <= i < |removed| ==> removed[i].bat == i
    ensures Increasing(TakenOf(removed))
    ensures forall x: nat :: x in TakenOf(removed) <==> x < |removed| && removed[x].taker == ByConsumer
    decreases |removed|
  {
    if removed != [] {
      var front := removed[..|removed| - 1];
      TakenOfOrdered(front);
      var xs := TakenOf(front);
      forall i | 0 <= i < |xs| ensures xs[i] < |front| {
        assert xs[i] in xs;
      }
    }
  }

  /** Three increasing parts of one increasing list are increasing and have nothing in common. */
  lemma IncreasingParts(xs: seq<nat>, ys: seq<nat>, zs: seq<nat>)
    requires Increasing(xs + ys + zs)
    ensures Increasing(xs) && Increasing(ys)
    ensures forall x :: x in xs ==> x !in ys && x !in zs
    ensures forall y :: y in ys ==> y !in zs
  {
    var all := xs + ys + zs;
    assert forall i :: 0 <= i < |xs| ==> all[i] == xs[i];
    assert forall i :: 0 <= i < |ys| ==> all[|xs| + i] == ys[i];
    assert forall i :: 0 <= i < |zs| ==> all[|xs| + |ys| + i] == zs[i];
  }

  /** The removed batches: evicted, or uploaded, discarded or just received. */
  lemma RemovedPlaces(st: State, b: nat)
    requires QueueInv(st) && ConsumerInv(st)
    ensures Increasing(st.uploaded) && Increasing(st.discarded)
    ensures At(st, b, Evicted) <==> b < |st.removed| && st.removed[b].taker == ByEviction
    ensures (At(st, b, Uploaded) || At(st, b, Discarded) || At(st, b, Received))
       <==> (b < |st.removed| && st.removed[b].taker == ByConsumer)
    ensures !(At(st, b, Uploaded) && At(st, b, Discarded)) && !(At(st, b, Uploaded) && At(st, b, Received))
    ensures !(At(st, b, Discarded) && At(st, b, Received))
  {
    hide TakenOf, Batches, Zeros, Undecided, Increasing;
    TakenOfOrdered(st.removed);
    IncreasingParts(st.uploaded, st.discarded, Undecided(st.consumer));
    assert b in TakenOf(st.removed) <==> b in st.uploaded || b in st.discarded || b in Undecided(st.consumer);
    if b < |st.removed| && st.removed[b].taker == ByEviction {
      assert st.removed[b] == Removal(b, ByEviction);
    }
  }

  /**
   * Every batch is in exactly one place, once: still to come, in the producer's hand, on the
   * queue, evicted, just received, uploaded (a request was made for it) or discarded.
   */
  lemma ExactlyOnePlace(actions: seq<Action>, b: nat)
    requires Runs(INITIAL, actions)
    ensures var st := After(INITIAL, actions);
            && (exists place :: At(st, b, place))
            && (forall p, q :: At(st, b, p) && At(st, b, q) ==> p == q)
            && Increasing(st.out) && Increasing(st.uploaded) && Increasing(st.discarded)
  {
    hide Runs, After;
    Reachable(actions);
    var st := After(INITIAL, actions);
    RemovedPlaces(st, b);
    assert At(st, b, Queued) <==> |st.removed| <= b < st.bat by {
      if |st.removed| <= b < st.bat {
        assert st.out[b - |st.removed|] == b;
      }
    }
    hide ConsumerInv;
    var place := if b >= st.next then NotYet else if b >= st.bat then InHand else if b >= |st.removed| then Queued
                 else if st.removed[b].taker == ByEviction then Evicted else if b in st.uploaded then Uploaded
                 else if b in st.discarded then Discarded else Received;
    assert At(st, b, place);
  }

  /** Batches are uploaded in strictly increasing order of sequence number, in every run; the zero batch never is. */
  lemma UploadsIncrease(actions: seq<Action>)
    requires Runs(INITIAL, actions)
    ensures var st := After(INITIAL, actions);
            && Increasing(st.uploaded)
            && (st.consumer.Requesting? ==> st.consumer.got.Batch? && st.consumer.attempt < MAX_RETRIES)
  {
    hide Runs, After, QueueInv;
    Reachable(actions);
    var st := After(INITIAL, actions);
    assert QueueInv(st);
    RemovedPlaces(st, 0);
  }

  /** Before exit nothing is discarded: what the consumer took is uploaded, but for the batch it has just received. */
  lemma BeforeExit(actions: seq<Action>, b: nat)
    requires Runs(INITIAL, actions) && !After(INITIAL, actions).exiting
    ensures var st := After(INITIAL, actions);
            && (At(st, b, NotYet) || At(st, b, InHand) || At(st, b, Queued) || At(st, b, Evicted)
                || At(st, b, Received) || At(st, b, Uploaded))
            && st.received == Batches(st.uploaded + Undecided(st.consumer))
  {
    hide Runs, After;
    Reachable(actions);
    var st := After(INITIAL, actions);
    ExactlyOnePlace(actions, b);
    hide TakenOf, QueueInv, At;
    assert st.uploaded + [] + Undecided(st.consumer) == st.uploaded + Undecided(st.consumer);
  }

  /** After exit no batch is uploaded any more: those the consumer still takes are discarded. */
  lemma {:induction false} AfterExit(st: State, actions: seq<Action>)
    requires Runs(st, actions) && st.exiting
    ensures After(st, actions).exiting && After(st, actions).uploaded == st.uploaded
    decreases |actions|
  {
    if actions != [] {
      AfterExit(Step(st, actions[0]), actions[1..]);
    }
  }

  lemma {:induction false} FatesGrow(st: State, actions: seq<Action>)
    requires Runs(st, actions)
    ensures st.uploaded <= After(st, actions).uploaded && st.discarded <= After(st, actions).discarded
    decreases |actions|
  {
    if actions != [] {
      FatesGrow(Step(st, actions[0]), actions[1..]);
    }
  }

  /** A batch that was received is uploaded if exit is still open when its upload begins, and otherwise never. */
  lemma UploadedIffExitOpen(before: seq<Action>, later: seq<Action>, b: nat)
    requires Runs(INITIAL, before) && After(INITIAL, before).consumer == Starting(Batch(b), 0)
    requires Runs(Step(After(INITIAL, before), CheckExit), later)
    ensures var st := After(INITIAL, before); var end := After(Step(st, CheckExit), later);
            && (b in end.uploaded <==> !st.exiting) && (b in end.discarded <==> st.exiting)
  {
    hide Runs, After, QueueInv, ConsumerInv;
    Reachable(before);
    var st := After(INITIAL, before);
    var next := Step(st, CheckExit);
    QueueStep(st, CheckExit);
    ConsumerStep(st, CheckExit);
    RunKeeps(next, later);
    FatesGrow(next, later);
    RemovedPlaces(After(next, later), b);
    assert next.uploaded == (if st.exiting then st.uploaded else st.uploaded + [b]);
    assert next.discarded == (if st.exiting then st.discarded + [b] else st.discarded);
    if st.exiting {
      assert next.discarded[|st.discarded|] == b;
    } else {
      assert next.uploaded[|st.uploaded|] == b;
    }
  }

  /**
   * What the consumer receives: first the batches it takes, in increasing order, and then only zero
   * batches, which it gets any number of times once the producer has returned and the queue is empty.
   */
  lemma ReceivedInOrder(actions: seq<Action>)
    requires Runs(INITIAL, actions)
    ensures var st := After(INITIAL, actions); var taken := TakenOf(st.removed);
            && Increasing(taken) && |taken| <= |st.received|
            && st.received == Batches(taken) + Zeros(|st.received| - |taken|)
            && (|taken| < |st.received| ==> st.exiting && st.producer == Returned && st.out == [])
  {
    hide Runs, After;
    Reachable(actions);
    TakenOfOrdered(After(INITIAL, actions).removed);
  }

  lemma {:induction false} RunOn(st: State, actions: seq<Action>, a: Action)
    requires Runs(st, actions) && Enabled(After(st, actions), a)
    ensures Runs(st, actions + [a]) && After(st, actions + [a]) == Step(After(st, actions), a)
    decreases |actions|
  {
    hide Enabled, Step;
    if actions == [] {
      assert [] + [a] == [a] && [a][1..] == [];
      assert Runs(Step(st, a), []);
    } else {
      assert (actions + [a])[1..] == actions[1..] + [a];
      RunOn(Step(st, actions[0]), actions[1..], a);
    }
  }

  function ExitRun(): seq<Action> { [] + [Enqueue] + [TrySend] + [Exit] + [ProducerReturn] }

  lemma ExitRuns()
    ensures Runs(INITIAL, ExitRun())
    ensures After(INITIAL, ExitRun()) == State(1, 1, [0], Returned, Waiting, true, [], [], [], [])
  {
    assert Runs(INITIAL, []) && After(INITIAL, []) == INITIAL;
    hide Runs, After;
    RunOn(INITIAL, [], Enqueue);
    RunOn(INITIAL, [] + [Enqueue], TrySend);
    RunOn(INITIAL, [] + [Enqueue] + [TrySend], Exit);
    RunOn(INITIAL, [] + [Enqueue] + [TrySend] + [Exit], ProducerReturn);
  }

  /** A run in which a batch is taken after exit, and then the zero batch: neither is uploaded. */
  lemma DiscardedAfterExit()
    ensures var run := ExitRun() + [Take] + [CheckExit] + [TakeClosed];
            && Runs(INITIAL, run)
            && var st := After(INITIAL, run);
               st.discarded == [0] && st.uploaded == [] && st.received == [Batch(0), ZeroBatch]
  {
    hide Runs, After, ExitRun;
    ExitRuns();
    RunOn(INITIAL, ExitRun(), Take);
    RunOn(INITIAL, ExitRun() + [Take], CheckExit);
    RunOn(INITIAL, ExitRun() + [Take] + [CheckExit], TakeClosed);
  }

  // ---------------------------------------------------------------------
  // The enqueue loop, with a consumer that may take batches before each channel operation

  /** What is on the queue and what has been taken off it, by the consumer and by evictions. */
  datatype Ledger = Ledger(out: seq<nat>, uploaded: seq<nat>, evicted: seq<nat>)

  /**
   * From `was` to `now` the queue was only taken from, in order: some batches uploaded, then
   * `evictions` evicted, then more uploaded.
   */
  ghost predicate TakenFrom(was: Ledger, now: Ledger, evictions: nat) {
    exists i: nat, j: nat, k: nat :: TakenAt(was, now, i, j, k) && j - i == evictions
  }

  ghost predicate TakenAt(was: Ledger, now: Ledger, i: nat, j: nat, k: nat) {
    && i <= j <= k <= |was.out|
    && now.uploaded == was.uploaded + (was.out[..i] + was.out[j..k])
    && now.evicted == was.evicted + was.out[i..j]
    && now.out == was.out[k..]
  }

  function Consumed(l: Ledger, n: nat): Ledger {
    var k := if n < |l.out| then n else |l.out|;
    Ledger(l.out[k..], l.uploaded + l.out[..k], l.evicted)
  }

  lemma NothingTaken(was: Ledger)
    ensures TakenFrom(was, was, 0)
  {
    assert TakenAt(was, was, 0, 0, 0);
  }

  lemma MoreUploaded(was: Ledger, now: Ledger, evictions: nat, n: nat)
    requires TakenFrom(was, now, evictions)
    ensures TakenFrom(was, Consumed(now, n), evictions)
  {
    var i: nat, j: nat, k: nat :| TakenAt(was, now, i, j, k) && j - i == evictions;
    var m := if n < |now.out| then n else |now.out|;
    SliceOn(was.out, j, k, m);
    calc {
      Consumed(now, n).uploaded;
      was.uploaded + (was.out[..i] + was.out[j..k]) + was.out[k..k + m];
      was.uploaded + (was.out[..i] + (was.out[j..k] + was.out[k..k + m]));
    }
    assert TakenAt(was, Consumed(now, n), i, j, k + m);
  }

  lemma SliceOn(q: seq<nat>, j: nat, k: nat, m: nat)
    requires j <= k && k + m <= |q|
    ensures q[k..][..m] == q[k..k + m] && q[k..][m..] == q[k + m..]
    ensures q[j..k] + q[k..k + m] == q[j..k + m]
  {
  }

  lemma SliceOne(q: seq<nat>, i: nat, k: nat)
    requires i <= k < |q|
    ensures q[..i] + q[i..k] == q[..k] + q[k + 1..k + 1] && q[i..i] == []
    ensures q[k..k + 1] == [q[k]] && q[k..][0] == q[k] && q[k..][1..] == q[k + 1..]
  {
  }

  lemma OneEvicted(was: Ledger, now: Ledger)
    requires TakenFrom(was, now, 0) && now.out != []
    ensures TakenFrom(was, now.(out := now.out[1..], evicted := now.evicted + [now.out[0]]), 1)
  {
    var i: nat, j: nat, k: nat :| TakenAt(was, now, i, j, k) && j - i == 0;
    SliceOne(was.out, i, k);
    assert TakenAt(was, now.(out := now.out[1..], evicted := now.evicted + [now.out[0]]), k, k + 1, k + 1);
  }

  class Profiler {
    var out: seq<nat>
    var uploaded: seq<nat>
    var evicted: seq<nat>

    ghost predicate Valid()
      reads this
    {
      |out| <= OUT_CHANNEL_SIZE
    }

    function Now(): Ledger
      reads this
    {
      Ledger(out, uploaded, evicted)
    }

    constructor ()
      ensures Valid() && Now() == Ledger([], [], [])
    {
      out, uploaded, evicted := [], [], [];
    }

    /** The consumer takes up to `n` batches. */
    method Consume(n: nat)
      requires Valid()
      modifies this
      ensures Valid() && Now() == Consumed(old(Now()), n)
      ensures |out| <= |old(out)|
    {
      var k := if n < |out| then n else |out|;
      uploaded := uploaded + out[..k];
      out := out[k..];
    }

    /**
     * enqueueUpload, while the consumer takes up to `takes(i)` batches before the i-th channel
     * operation.  Whatever it takes, two turns suffice; at most one batch is evicted, and only
     * from a queue that was full; all others are uploaded or stay in order before the new one.
     */
    method EnqueueUpload(bat: nat, takes: nat -> nat) returns (turns: nat)
      requires Valid()
      modifies this
      ensures Valid() && 1 <= turns <= 2
      ensures turns == 2 ==> |old(out)| == OUT_CHANNEL_SIZE
      ensures var n := |out| - 1;
              && n >= 0 && out[n] == bat
              && (TakenFrom(old(Now()), Now().(out := out[..n]), 0)
                  || (turns == 2 && TakenFrom(old(Now()), Now().(out := out[..n]), 1)))
    {
      hide TakenFrom, Consumed;
      ghost var evictions: nat := 0;
      NothingTaken(Now());
      var op := 0;
      turns := 1;
      while true
        invariant turns == 1 || (turns == 2 && |out| < OUT_CHANNEL_SIZE == |old(out)|)
        invariant evictions == 0 || (evictions == 1 && turns == 2)
        invariant turns == 1 ==> |out| <= |old(out)|
        invariant Valid() && TakenFrom(old(Now()), Now(), evictions)
        decreases 2 - turns
      {
        MoreUploaded(old(Now()), Now(), evictions, takes(op));
        Consume(takes(op));
        if |out| < OUT_CHANNEL_SIZE {
          ghost var kept := out;
          out := out + [bat];
          assert out[..|out| - 1] == kept;
          return;
        }
        MoreUploaded(old(Now()), Now(), evictions, takes(op + 1));
        Consume(takes(op + 1));
        if |out| > 0 {
          OneEvicted(old(Now()), Now());
          evicted := evicted + [out[0]];
          out := out[1..];
          evictions := 1;
        }
        op, turns := op + 2, turns + 1;
      }
    }
  }
}
