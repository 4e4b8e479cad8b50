/** The budget's calls taken apart into their atomic instructions, any number of
    threads deep in any of them at once, on counters of 64 bits that wrap. */
module BudgetSteps {
  import opened Bytes
  import Budget

  /** A queue's share: its counter, and the bytes that wait in the queue. */
  datatype Queue = Queue(held: U64, queued: nat, alive: bool)

  /** Where a thread stands: what it has done so far, by the call it is in. */
  datatype Pc =
    | Idle
    | Added(i: nat, bytes: nat, mine: U64)             // take: the share's counter raised
    | Both(i: nat, bytes: nat, mine: U64, all: U64)    // take: both raised, past the budget
    | Refused(i: nat, bytes: nat)                      // take: both to lower
    | Lowered(i: nat, bytes: nat)                      // take: the share's to lower
    | Given(i: nat, bytes: nat)                        // give: both to lower
    | Half(bytes: nat)                                 // give: the budget's to lower
    | Dropped(left: nat)                               // drop: the budget's to lower
    | Uncounted                                        // drop: the number of shares to lower

  datatype State = State(limit: nat, held: U64, count: U64, queues: seq<Queue>, threads: seq<Pc>)

  datatype Event =
    | Join
    | BeginTake(t: nat, i: nat, bytes: U64, own: U64)
    | BeginGive(t: nat, i: nat, bytes: U64)
    | BeginDrop(t: nat, i: nat)
    | Go(t: nat)

  function Wrap(n: int): U64 {
    n % TWO64
  }

  /** The share a thread is at work on. */
  predicate AtWork(pc: Pc) {
    pc.Added? || pc.Both? || pc.Refused? || pc.Lowered? || pc.Given?
  }

  predicate Uses(pc: Pc, i: nat) {
    AtWork(pc) && pc.i == i
  }

  predicate Live(s: State, i: nat) {
    i < |s.queues| && s.queues[i].alive
  }

  /** A share is dropped by its owner, when nothing else is at work on it, and
      only what is queued leaves a queue. */
  predicate Enabled(s: State, e: Event) {
    match e
    case Join => true
    case BeginTake(t, i, _, _) => t < |s.threads| && s.threads[t] == Idle && Live(s, i)
    case BeginGive(t, i, bytes) =>
      t < |s.threads| && s.threads[t] == Idle && Live(s, i) && bytes <= s.queues[i].queued
    case BeginDrop(t, i) =>
      && t < |s.threads| && s.threads[t] == Idle && Live(s, i)
      && forall u | 0 <= u < |s.threads| :: !Uses(s.threads[u], i)
    case Go(t) =>
      t < |s.threads| && s.threads[t] != Idle && (AtWork(s.threads[t]) ==> s.threads[t].i < |s.queues|)
  }

  /** With no call under way any call on a live queue may begin. */
  lemma AnyMayBegin(s: State, t: nat, i: nat, bytes: U64, own: U64)
    requires t < |s.threads| && (forall u | 0 <= u < |s.threads| :: s.threads[u] == Idle) && Live(s, i)
    ensures Enabled(s, BeginTake(t, i, bytes, own)) && Enabled(s, BeginDrop(t, i))
    ensures Enabled(s, BeginGive(t, i, bytes)) <==> bytes <= s.queues[i].queued
  {
  }

  function At(s: State, t: nat, pc: Pc): State
    requires t < |s.threads|
  {
    s.(threads := s.threads[t := pc])
  }

  function SetHeld(s: State, i: nat, held: U64): State
    requires i < |s.queues|
  {
    s.(queues := s.queues[i := s.queues[i].(held := held)])
  }

  function Enqueue(s: State, i: nat, bytes: nat): State
    requires i < |s.queues|
  {
    s.(queues := s.queues[i := s.queues[i].(queued := s.queues[i].queued + bytes)])
  }

  /** The next atomic instruction of the thread `t`. */
  function Advance(s: State, t: nat): State
    requires Enabled(s, Go(t))
  {
    var pc := s.threads[t];
    match pc
    case Added(i, bytes, mine) =>
      var all := Wrap(s.held + bytes);
      var s := s.(held := all);
      if all > s.limit then At(s, t, Both(i, bytes, mine, all)) else At(Enqueue(s, i, bytes), t, Idle)
    case Both(i, bytes, mine, all) =>
      if Budget.FarBehind(all, s.count, mine, Wrap(mine - bytes))
      then At(s, t, Refused(i, bytes))
      else At(Enqueue(s, i, bytes), t, Idle)
    case Refused(i, bytes) => At(s.(held := Wrap(s.held - bytes)), t, Lowered(i, bytes))
    case Lowered(i, bytes) =>
      At(SetHeld(s, i, Wrap(s.queues[i].held - bytes)), t, Idle)
    case Given(i, bytes) =>
      At(SetHeld(s, i, Wrap(s.queues[i].held - bytes)), t, Half(bytes))
    case Half(bytes) => At(s.(held := Wrap(s.held - bytes)), t, Idle)
    case Dropped(left) => At(s.(held := Wrap(s.held - left)), t, Uncounted)
    case Uncounted => At(s.(count := Wrap(s.count - 1)), t, Idle)
  }

  function Apply(s: State, e: Event): State
    requires Enabled(s, e)
  {
    match e
    case Join => s.(count := Wrap(s.count + 1), queues := s.queues + [Queue(0, 0, true)])
    case BeginTake(t, i, bytes, own) =>
      var mine := Wrap(s.queues[i].held + bytes);
      At(SetHeld(s, i, mine), t, if mine > own then Lowered(i, bytes) else Added(i, bytes, mine))
    case BeginGive(t, i, bytes) =>
      At(s.(queues := s.queues[i := s.queues[i].(queued := s.queues[i].queued - bytes)]), t, Given(i, bytes))
    case BeginDrop(t, i) =>
      At(s.(queues := s.queues[i := s.queues[i].(alive := false)]), t, Dropped(s.queues[i].held))
    case Go(t) => Advance(s, t)
  }

  // What each counter should say.

  /** A counter: a share's, the budget's, or that of the shares; and what the
      first `k` shares' counters make together. */
  datatype Place = Share(i: nat) | Total | Count | Below(k: nat)

  /** What a thread has added to a counter and will take away, or has yet to add
      the bytes of to a queue. */
  function Flying(pc: Pc, p: Place): nat {
    match p
    case Share(i) => if Uses(pc, i) then pc.bytes else 0
    case Total =>
      if pc.Both? || pc.Refused? || pc.Given? || pc.Half? then pc.bytes
      else if pc.Dropped? then pc.left else 0
    case Count => if pc.Dropped? || pc.Uncounted? then 1 else 0
    case Below(k) =>
      if AtWork(pc) && pc.i < k then pc.bytes else 0
  }

  function Flight(threads: seq<Pc>, p: Place): nat {
    if threads == [] then 0 else Flying(threads[0], p) + Flight(threads[1..], p)
  }

  function Waiting(q: Queue, p: Place): nat {
    if !q.alive then 0 else if p.Total? then q.queued else if p.Count? then 1 else 0
  }

  /** What the live queues hold, or how many they are. */
  function Held(queues: seq<Queue>, p: Place): nat {
    if queues == [] then 0 else Waiting(queues[0], p) + Held(queues[1..], p)
  }

  predicate Has(s: State, p: Place) {
    match p
    case Share(i) => Live(s, i)
    case Below(_) => false
    case _ => true
  }

  function Counter(s: State, p: Place): U64
    requires Has(s, p)
  {
    match p
    case Share(i) => s.queues[i].held
    case Total => s.held
    case Count => s.count
  }

  /** The bytes queued, and those in flight. */
  function Owed(s: State, p: Place): nat
    requires Has(s, p)
  {
    Flight(s.threads, p) + if p.Share? then s.queues[p.i].queued else Held(s.queues, p)
  }

  /** Every counter says what it should, but for wrapping, and no thread is at
      work on a share that is gone. */
  ghost predicate Conserved(s: State) {
    && (forall p | Has(s, p) :: Counter(s, p) == Wrap(Owed(s, p)))
    && (forall t, i | 0 <= t < |s.threads| && 0 <= i && Uses(s.threads[t], i) :: Live(s, i))
  }

  lemma {:induction false} FlightUpdate(threads: seq<Pc>, t: nat, pc: Pc, p: Place)
    requires t < |threads|
    ensures Flight(threads[t := pc], p) == Flight(threads, p) - Flying(threads[t], p) + Flying(pc, p)
  {
    hide Flying;
    if t > 0 {
      assert threads[t := pc][1..] == threads[1..][t - 1 := pc];
      FlightUpdate(threads[1..], t - 1, pc, p);
    } else {
      assert threads[t := pc][1..] == threads[1..];
    }
  }

  lemma {:induction false} HeldUpdate(queues: seq<Queue>, i: nat, q: Queue, p: Place)
    requires i < |queues|
    ensures Held(queues[i := q], p) == Held(queues, p) - Waiting(queues[i], p) + Waiting(q, p)
  {
    hide Waiting;
    if i > 0 {
      assert queues[i := q][1..] == queues[1..][i - 1 := q];
      HeldUpdate(queues[1..], i - 1, q, p);
    } else {
      assert queues[i := q][1..] == queues[1..];
    }
  }

  lemma {:induction false} HeldPush(queues: seq<Queue>, q: Queue, p: Place)
    ensures Held(queues + [q], p) == Held(queues, p) + Waiting(q, p)
  {
    hide Waiting;
    if queues == [] {
      assert [q][1..] == [];
    } else {
      assert (queues + [q])[1..] == queues[1..] + [q];
      HeldPush(queues[1..], q, p);
    }
  }

  lemma {:induction false} NoFlight(threads: seq<Pc>, p: Place)
    requires forall t | 0 <= t < |threads| :: Flying(threads[t], p) == 0
    ensures Flight(threads, p) == 0
  {
    if threads != [] {
      NoFlight(threads[1..], p);
    }
  }

  lemma {:induction false} FlyingAtMost(threads: seq<Pc>, t: nat, p: Place)
    requires t < |threads|
    ensures Flying(threads[t], p) <= Flight(threads, p)
  {
    if t > 0 {
      FlyingAtMost(threads[1..], t - 1, p);
    }
  }

  lemma WrapAdd(n: int, d: int)
    ensures Wrap(Wrap(n) + d) == Wrap(n + d)
  {
  }

  function Less(yes: bool, n: nat): int {
    if yes then 0 - n else 0
  }

  /** How much an event moves a counter. */
  function Moved(s: State, e: Event, p: Place): int
    requires Enabled(s, e)
  {
    match e
    case Join => if p.Count? then 1 else 0
    case BeginTake(_, i, bytes, _) => if p == Share(i) then bytes else 0
    case BeginGive(_, _, _) => 0
    case BeginDrop(_, _) => 0
    case Go(t) =>
      match s.threads[t]
      case Added(_, bytes, _) => if p.Total? then bytes else 0
      case Both(_, _, _, _) => 0
      case Refused(_, bytes) => Less(p.Total?, bytes)
      case Lowered(i, bytes) => Less(p == Share(i), bytes)
      case Given(i, bytes) => Less(p == Share(i), bytes)
      case Half(bytes) => Less(p.Total?, bytes)
      case Dropped(left) => Less(p.Total?, left)
      case Uncounted => Less(p.Count?, 1)
  }

  lemma CounterMoves(s: State, e: Event, p: Place)
    requires Enabled(s, e) && Has(s, p) && Has(Apply(s, e), p)
    ensures Counter(Apply(s, e), p) == Wrap(Counter(s, p) + Moved(s, e, p))
  {
    hide Budget.FarBehind;
  }

  lemma OwedMoves(s: State, e: Event, p: Place)
    requires Conserved(s) && Enabled(s, e) && Has(s, p) && Has(Apply(s, e), p)
    ensures Wrap(Owed(Apply(s, e), p)) == Wrap(Owed(s, p) + Moved(s, e, p))
  {
    hide Flight, Held, Budget.FarBehind;
    var s' := Apply(s, e);
    match e
    case Join => HeldPush(s.queues, Queue(0, 0, true), p);
    case BeginTake(t, i, _, _) =>
      FlightUpdate(s.threads, t, s'.threads[t], p);
      HeldUpdate(s.queues, i, s'.queues[i], p);
    case BeginGive(t, i, _) =>
      FlightUpdate(s.threads, t, s'.threads[t], p);
      HeldUpdate(s.queues, i, s'.queues[i], p);
    case BeginDrop(t, i) => DropMoves(s, t, i, p);
    case Go(t) => GoMoves(s, t, p);
  }

  /** What a dropped share counts is what its queue held, since nothing is at work on it. */
  lemma DropMoves(s: State, t: nat, i: nat, p: Place)
    requires Conserved(s) && Enabled(s, BeginDrop(t, i)) && Has(s, p) && Has(Apply(s, BeginDrop(t, i)), p)
    ensures Wrap(Owed(Apply(s, BeginDrop(t, i)), p)) == Wrap(Owed(s, p))
  {
    hide Flight, Held;
    var s' := Apply(s, BeginDrop(t, i));
    FlightUpdate(s.threads, t, s'.threads[t], p);
    HeldUpdate(s.queues, i, s'.queues[i], p);
    NoFlight(s.threads, Share(i));
    assert Has(s, Share(i));
    var queued := s.queues[i].queued;
    assert s.queues[i].held == Wrap(queued);
    WrapAdd(queued, Owed(s, p) - queued);
  }

  lemma GoMoves(s: State, t: nat, p: Place)
    requires Conserved(s) && Enabled(s, Go(t)) && Has(s, p) && Has(Apply(s, Go(t)), p)
    ensures Owed(Apply(s, Go(t)), p) == Owed(s, p) + Moved(s, Go(t), p)
  {
    hide Flight, Held, Budget.FarBehind;
    var pc, s' := s.threads[t], Apply(s, Go(t));
    FlightUpdate(s.threads, t, s'.threads[t], p);
    if pc.Added? || pc.Both? || pc.Lowered? || pc.Given? {
      assert Uses(pc, pc.i);
      assert Live(s, pc.i);
      HeldUpdate(s.queues, pc.i, s'.queues[pc.i], p);
    }
  }

  lemma PlacesKept(s: State, e: Event, p: Place)
    requires Enabled(s, e) && Has(Apply(s, e), p)
    ensures Has(s, p) || (e.Join? && p == Share(|s.queues|))
  {
  }

  /** Whatever the threads do next, every counter still says what it should. */
  lemma StepConserves(s: State, e: Event)
    requires Conserved(s) && Enabled(s, e)
    ensures Conserved(Apply(s, e))
  {
    hide Counter, Owed, Moved, Apply, Wrap;
    var s' := Apply(s, e);
    forall p | Has(s', p) ensures Counter(s', p) == Wrap(Owed(s', p)) {
      PlacesKept(s, e, p);
      if Has(s, p) {
        CounterMoves(s, e, p);
        OwedMoves(s, e, p);
        WrapAdd(Owed(s, p), Moved(s, e, p));
      } else {
        NewShare(s);
      }
    }
    UsersLive(s, e);
  }

  lemma NewShare(s: State)
    requires Conserved(s)
    ensures var s', p := Apply(s, Join), Share(|s.queues|);
            Has(s', p) && Counter(s', p) == Wrap(Owed(s', p))
  {
    forall t | 0 <= t < |s.threads| ensures Flying(s.threads[t], Share(|s.queues|)) == 0 {
      assert Uses(s.threads[t], |s.queues|) ==> Live(s, |s.queues|);
    }
    NoFlight(s.threads, Share(|s.queues|));
  }

  lemma UsersLive(s: State, e: Event)
    requires Conserved(s) && Enabled(s, e)
    ensures var s' := Apply(s, e);
            forall t, i | 0 <= t < |s'.threads| && 0 <= i && Uses(s'.threads[t], i) :: Live(s', i)
  {
    hide Counter, Owed, Wrap;
    var s' := Apply(s, e);
    forall t, i | 0 <= t < |s'.threads| && 0 <= i && Uses(s'.threads[t], i) ensures Live(s', i) {
      assert s'.threads[t] == s.threads[t] || e.BeginTake? || e.BeginGive? || e.BeginDrop? || e.t == t;
      if s'.threads[t] == s.threads[t] || e.Go? {
        assert Uses(s.threads[t], i);
        assert Live(s, i);
      }
    }
  }

  predicate Runs(s: State, events: seq<Event>)
    decreases events
  {
    events != [] ==> Enabled(s, events[0]) && Runs(Apply(s, events[0]), events[1..])
  }

  function Final(s: State, events: seq<Event>): State
    requires Runs(s, events)
    decreases events
  {
    if events == [] then s else Final(Apply(s, events[0]), events[1..])
  }

  function Start(limit: nat, threads: nat): State {
    State(limit, 0, 0, [], seq(threads, _ => Idle))
  }

  /** Every interleaving of the instructions of any calls conserves. */
  lemma {:induction false} RunConserves(s: State, events: seq<Event>)
    requires Conserved(s) && Runs(s, events)
    ensures Conserved(Final(s, events))
    decreases events
  {
    hide Conserved;
    if events != [] {
      StepConserves(s, events[0]);
      RunConserves(Apply(s, events[0]), events[1..]);
    }
  }

  lemma StartConserved(limit: nat, threads: nat)
    ensures Conserved(Start(limit, threads))
  {
    var s := Start(limit, threads);
    forall p | Has(s, p) ensures Owed(s, p) == 0 {
      NoFlight(s.threads, p);
    }
  }

  /** While what is owed fits a counter, the counter is exact, and no thread will
      take away more than it says. */
  lemma NeverUnderflows(s: State, p: Place)
    requires Conserved(s) && Has(s, p) && Owed(s, p) < TWO64
    ensures Counter(s, p) == Owed(s, p)
    ensures forall t | 0 <= t < |s.threads| :: Flying(s.threads[t], p) <= Counter(s, p)
  {
    forall t | 0 <= t < |s.threads| ensures Flying(s.threads[t], p) <= Owed(s, p) {
      FlyingAtMost(s.threads, t, p);
    }
  }

  /** With no call under way, the counters are what is queued: a refusal, in
      whatever company, left nothing behind. */
  lemma AtRest(s: State)
    requires Conserved(s) && forall t | 0 <= t < |s.threads| :: s.threads[t] == Idle
    ensures s.held == Wrap(Held(s.queues, Total)) && s.count == Wrap(Held(s.queues, Count))
    ensures forall i | 0 <= i && Live(s, i) :: s.queues[i].held == Wrap(s.queues[i].queued)
  {
    NoFlight(s.threads, Total);
    NoFlight(s.threads, Count);
    assert Has(s, Total) && Has(s, Count);
    forall i | 0 <= i && Live(s, i) ensures s.queues[i].held == Wrap(s.queues[i].queued) {
      NoFlight(s.threads, Share(i));
      assert Has(s, Share(i));
    }
  }

  /** From a budget nobody has drawn on, whatever calls run on it in whatever
      interleaving: every counter says what it should, and once they are done, what
      is queued. */
  lemma EveryRun(limit: nat, threads: nat, events: seq<Event>)
    requires Runs(Start(limit, threads), events)
    ensures var s := Final(Start(limit, threads), events);
            && Conserved(s)
            && ((forall t | 0 <= t < |s.threads| :: s.threads[t] == Idle) ==>
                  && s.held == Wrap(Held(s.queues, Total)) && s.count == Wrap(Held(s.queues, Count))
                  && forall i | 0 <= i && Live(s, i) :: s.queues[i].held == Wrap(s.queues[i].queued))
  {
    hide Conserved, Start, Held, Wrap, Live;
    StartConserved(limit, threads);
    RunConserves(Start(limit, threads), events);
    var s := Final(Start(limit, threads), events);
    if forall t | 0 <= t < |s.threads| :: s.threads[t] == Idle {
      AtRest(s);
    }
  }

  // The budget's counter against the shares'.

  function CounterSum(queues: seq<Queue>, k: nat): nat
    requires k <= |queues|
  {
    if k == 0 then 0 else CounterSum(queues, k - 1) + if queues[k - 1].alive then queues[k - 1].held else 0
  }

  lemma {:induction false} FlightBelow(threads: seq<Pc>, k: nat)
    ensures Flight(threads, Below(k + 1)) == Flight(threads, Below(k)) + Flight(threads, Share(k))
    ensures Flight(threads, Below(0)) == 0
  {
    if threads != [] {
      FlightBelow(threads[1..], k);
    }
  }

  lemma {:induction false} CounterSumOwed(s: State, k: nat)
    requires Conserved(s) && k <= |s.queues|
    ensures Wrap(CounterSum(s.queues, k)) == Wrap(Held(s.queues[..k], Total) + Flight(s.threads, Below(k)))
  {
    hide Flight;
    if k == 0 {
      FlightBelow(s.threads, 0);
    } else {
      CounterSumOwed(s, k - 1);
      FlightBelow(s.threads, k - 1);
      assert s.queues[..k] == s.queues[..k - 1] + [s.queues[k - 1]];
      HeldPush(s.queues[..k - 1], s.queues[k - 1], Total);
      CounterSumNext(s, k);
    }
  }

  lemma CounterSumNext(s: State, k: nat)
    requires Conserved(s) && 0 < k <= |s.queues|
    requires Wrap(CounterSum(s.queues, k - 1)) == Wrap(Held(s.queues[..k - 1], Total) + Flight(s.threads, Below(k - 1)))
    ensures Wrap(CounterSum(s.queues, k)) ==
            Wrap(Held(s.queues[..k - 1], Total) + Waiting(s.queues[k - 1], Total) +
                 Flight(s.threads, Below(k - 1)) + Flight(s.threads, Share(k - 1)))
  {
    hide Flight, Held;
    var q := s.queues[k - 1];
    var a, b := CounterSum(s.queues, k - 1), Held(s.queues[..k - 1], Total) + Flight(s.threads, Below(k - 1));
    if q.alive {
      var o := q.queued + Flight(s.threads, Share(k - 1));
      assert Has(s, Share(k - 1));
      assert q.held == Wrap(o);
      WrapAdd(a, q.held);
      WrapAdd(b, q.held);
      WrapAdd(o, b);
    } else {
      forall t | 0 <= t < |s.threads| ensures Flying(s.threads[t], Share(k - 1)) == 0 {
        assert Uses(s.threads[t], k - 1) ==> Live(s, k - 1);
      }
      NoFlight(s.threads, Share(k - 1));
    }
  }

  /** The budget holds what the shares hold together, corrected by what the
      calls under way have done to one counter and not yet to the other. */
  lemma BudgetAgainstShares(s: State)
    requires Conserved(s)
    ensures Wrap(s.held + Flight(s.threads, Below(|s.queues|))) ==
            Wrap(CounterSum(s.queues, |s.queues|) + Flight(s.threads, Total))
  {
    hide Flight, Held, CounterSum;
    var n := |s.queues|;
    CounterSumOwed(s, n);
    assert s.queues[..n] == s.queues && Has(s, Total);
    WrapAdd(Owed(s, Total), Flight(s.threads, Below(n)));
    WrapAdd(CounterSum(s.queues, n), Flight(s.threads, Total));
    WrapAdd(Held(s.queues, Total) + Flight(s.threads, Below(n)), Flight(s.threads, Total));
  }

  // A call that nothing interrupts.

  function Left(pc: Pc): nat {
    match pc
    case Idle => 0
    case Added(_, _, _) => 4
    case Both(_, _, _, _) => 3
    case Refused(_, _) => 2
    case Given(_, _) => 2
    case Dropped(_) => 2
    case Lowered(_, _) => 1
    case Half(_) => 1
    case Uncounted => 1
  }

  /** The thread `t` runs its call to the end. */
  function Finish(s: State, t: nat): State
    requires t < |s.threads| && (AtWork(s.threads[t]) ==> s.threads[t].i < |s.queues|)
    decreases if t < |s.threads| then Left(s.threads[t]) else 0
  {
    if s.threads[t] == Idle then s else Finish(Advance(s, t), t)
  }

  lemma FinishStep(s: State, t: nat)
    requires t < |s.threads| && s.threads[t] != Idle && (AtWork(s.threads[t]) ==> s.threads[t].i < |s.queues|)
    ensures Finish(s, t) == Finish(Advance(s, t), t)
  {
  }

  // Each instruction of a take, by itself.

  lemma AdvanceAdded(s: State, t: nat)
    requires Enabled(s, Go(t)) && s.threads[t].Added? && s.held + s.threads[t].bytes < TWO64
    ensures var pc := s.threads[t];
            var all := s.held + pc.bytes;
            var raised := s.(held := all);
            Advance(s, t) == if all > s.limit then At(raised, t, Both(pc.i, pc.bytes, pc.mine, all))
                             else At(Enqueue(raised, pc.i, pc.bytes), t, Idle)
  {
    hide Enqueue, At, Budget.FarBehind;
  }

  lemma AdvanceBoth(s: State, t: nat)
    requires Enabled(s, Go(t)) && s.threads[t].Both? && s.threads[t].bytes <= s.threads[t].mine
    ensures var pc := s.threads[t];
            Advance(s, t) == if Budget.FarBehind(pc.all, s.count, pc.mine, pc.mine - pc.bytes)
                             then At(s, t, Refused(pc.i, pc.bytes)) else At(Enqueue(s, pc.i, pc.bytes), t, Idle)
  {
    hide Enqueue, At, Budget.FarBehind;
  }

  lemma AdvanceRefused(s: State, t: nat)
    requires Enabled(s, Go(t)) && s.threads[t].Refused? && s.threads[t].bytes <= s.held
    ensures var pc := s.threads[t];
            Advance(s, t) == At(s.(held := s.held - pc.bytes), t, Lowered(pc.i, pc.bytes))
  {
    hide Enqueue, At, Budget.FarBehind;
  }

  lemma AdvanceLowered(s: State, t: nat)
    requires Enabled(s, Go(t)) && s.threads[t].Lowered? && s.threads[t].bytes <= s.queues[s.threads[t].i].held
    ensures var pc := s.threads[t];
            Advance(s, t) == At(SetHeld(s, pc.i, s.queues[pc.i].held - pc.bytes), t, Idle)
  {
    hide Enqueue, At, SetHeld, Budget.FarBehind;
  }

  lemma FinishIdle(s: State, t: nat)
    requires t < |s.threads| && s.threads[t] == Idle
    ensures Finish(s, t) == s
  {
  }

  /** A state but for one share's counter, one queue's bytes, the budget's counter and
      where one thread stands. */
  function Altered(s: State, t: nat, i: nat, mine: U64, queued: nat, held: U64, pc: Pc): (r: State)
    requires t < |s.threads| && i < |s.queues|
    ensures |r.threads| == |s.threads| && |r.queues| == |s.queues| && r.threads[t] == pc
    ensures r.queues[i].held == mine && r.queues[i].queued == queued && r.held == held
    ensures r.count == s.count && r.limit == s.limit
  {
    s.(held := held, threads := s.threads[t := pc],
       queues := s.queues[i := s.queues[i].(held := mine, queued := queued)])
  }

  lemma AlteredAgain(s: State, t: nat, i: nat, mine: U64, queued: nat, held: U64, pc: Pc, mine': U64, queued': nat,
                     held': U64, pc': Pc)
    requires t < |s.threads| && i < |s.queues|
    ensures Altered(Altered(s, t, i, mine, queued, held, pc), t, i, mine', queued', held', pc') ==
            Altered(s, t, i, mine', queued', held', pc')
  {
    var a := Altered(s, t, i, mine, queued, held, pc);
    assert a.threads[t := pc'] == s.threads[t := pc'];
    assert a.queues[i := a.queues[i].(held := mine', queued := queued')] ==
      s.queues[i := s.queues[i].(held := mine', queued := queued')];
  }

  /** The changes an instruction makes, as alterations. */
  lemma AsAltered(s: State, t: nat, i: nat, bytes: nat, held: U64, mine: U64, pc: Pc)
    requires t < |s.threads| && i < |s.queues|
    ensures var q := s.queues[i];
            && At(s.(held := held), t, pc) == Altered(s, t, i, q.held, q.queued, held, pc)
            && At(Enqueue(s.(held := held), i, bytes), t, pc) == Altered(s, t, i, q.held, q.queued + bytes, held, pc)
            && At(SetHeld(s, i, mine), t, pc) == Altered(s, t, i, mine, q.queued, s.held, pc)
            && At(s, t, pc) == Altered(s, t, i, q.held, q.queued, s.held, pc)
            && At(Enqueue(s, i, bytes), t, pc) == Altered(s, t, i, q.held, q.queued + bytes, s.held, pc)
            && (s.threads[t] == pc ==> Altered(s, t, i, q.held, q.queued, s.held, pc) == s)
  {
    var q := s.queues[i];
    assert s.queues[i := q] == s.queues;
    assert q.(held := q.held, queued := q.queued) == q;
    if s.threads[t] == pc {
      assert s.threads[t := pc] == s.threads;
    }
  }

  /** A refusal's instructions, the share's counter the last. */
  lemma LowerAlone(s: State, t: nat, i: nat, bytes: nat)
    requires t < |s.threads| && i < |s.queues| && s.threads[t] == Lowered(i, bytes) && bytes <= s.queues[i].held
    ensures Finish(s, t) == Altered(s, t, i, s.queues[i].held - bytes, s.queues[i].queued, s.held, Idle)
  {
    hide Finish, Advance, At, SetHeld, Enqueue, Altered;
    FinishStep(s, t);
    AdvanceLowered(s, t);
    AsAltered(s, t, i, 0, s.held, s.queues[i].held - bytes, Idle);
    FinishIdle(Advance(s, t), t);
  }

  lemma RefuseAlone(s: State, t: nat, i: nat, bytes: nat)
    requires t < |s.threads| && i < |s.queues| && s.threads[t] == Refused(i, bytes)
    requires bytes <= s.queues[i].held && bytes <= s.held
    ensures Finish(s, t) == Altered(s, t, i, s.queues[i].held - bytes, s.queues[i].queued, s.held - bytes, Idle)
  {
    hide Finish, Advance, At, SetHeld, Enqueue, Altered;
    var q := s.queues[i];
    FinishStep(s, t);
    AdvanceRefused(s, t);
    AsAltered(s, t, i, 0, s.held - bytes, q.held, Lowered(i, bytes));
    LowerAlone(Advance(s, t), t, i, bytes);
    AlteredAgain(s, t, i, q.held, q.queued, s.held - bytes, Lowered(i, bytes), q.held - bytes, q.queued, s.held - bytes,
                 Idle);
  }

  /** From the decision on: refused and both counters lowered, or queued. */
  lemma BothAlone(s: State, t: nat, i: nat, bytes: nat, mine: U64)
    requires t < |s.threads| && i < |s.queues|
    requires s.threads[t] == Both(i, bytes, mine, s.held) && s.queues[i].held == mine
    requires bytes <= mine && bytes <= s.held
    ensures Finish(s, t) ==
            if Budget.FarBehind(s.held, s.count, mine, mine - bytes)
            then Altered(s, t, i, mine - bytes, s.queues[i].queued, s.held - bytes, Idle)
            else Altered(s, t, i, mine, s.queues[i].queued + bytes, s.held, Idle)
  {
    hide Finish, Advance, At, SetHeld, Enqueue, Altered, Budget.FarBehind;
    var q := s.queues[i];
    FinishStep(s, t);
    AdvanceBoth(s, t);
    AsAltered(s, t, i, bytes, s.held, mine, Refused(i, bytes));
    AsAltered(s, t, i, bytes, s.held, mine, Idle);
    if Budget.FarBehind(s.held, s.count, mine, mine - bytes) {
      RefuseAlone(Advance(s, t), t, i, bytes);
      AlteredAgain(s, t, i, mine, q.queued, s.held, Refused(i, bytes), mine - bytes, q.queued, s.held - bytes, Idle);
    } else {
      FinishIdle(Advance(s, t), t);
    }
  }

  /** Alone, the instructions of a take do what `Budget.Share.Take` does at once: raise
      both counters and queue the item, or leave everything as it was. */
  lemma TakeAlone(s: State, t: nat, i: nat, bytes: U64, own: U64)
    requires Enabled(s, BeginTake(t, i, bytes, own))
    requires s.held + bytes < TWO64 && s.queues[i].held + bytes < TWO64
    ensures Finish(Apply(s, BeginTake(t, i, bytes, own)), t) ==
            if Budget.Decide(s.limit, s.held, s.count, s.queues[i].held, bytes, own) != Budget.Taken then s
            else Altered(s, t, i, s.queues[i].held + bytes, s.queues[i].queued + bytes, s.held + bytes, Idle)
  {
    hide Finish, Advance, At, SetHeld, Enqueue, Altered, Budget.FarBehind;
    var q, mine, all := s.queues[i], s.queues[i].held + bytes, s.held + bytes;
    var pc := if mine > own then Lowered(i, bytes) else Added(i, bytes, mine);
    var a := Apply(s, BeginTake(t, i, bytes, own));
    AsAltered(s, t, i, bytes, s.held, mine, pc);
    AsAltered(s, t, i, bytes, s.held, mine, Idle);
    assert a == Altered(s, t, i, mine, q.queued, s.held, pc);
    if mine > own {
      LowerAlone(a, t, i, bytes);
      AlteredAgain(s, t, i, mine, q.queued, s.held, pc, q.held, q.queued, s.held, Idle);
    } else {
      AddedAlone(s, t, i, bytes, mine);
    }
  }

  lemma AddedAlone(s: State, t: nat, i: nat, bytes: nat, mine: U64)
    requires t < |s.threads| && i < |s.queues| && s.threads[t] == Idle
    requires mine == s.queues[i].held + bytes && s.held + bytes < TWO64
    ensures var q, all := s.queues[i], s.held + bytes;
            Finish(Altered(s, t, i, mine, q.queued, s.held, Added(i, bytes, mine)), t) ==
            if all > s.limit && Budget.FarBehind(all, s.count, mine, q.held) then s
            else Altered(s, t, i, mine, q.queued + bytes, all, Idle)
  {
    hide Finish, Advance, At, SetHeld, Enqueue, Altered, Budget.FarBehind;
    var q, all := s.queues[i], s.held + bytes;
    var pc := Added(i, bytes, mine);
    var a := Altered(s, t, i, mine, q.queued, s.held, pc);
    FinishStep(a, t);
    AdvanceAdded(a, t);
    AsAltered(s, t, i, bytes, s.held, mine, Idle);
    if all > s.limit {
      var both := Both(i, bytes, mine, all);
      AsAltered(a, t, i, bytes, all, mine, both);
      AlteredAgain(s, t, i, mine, q.queued, s.held, pc, mine, q.queued, all, both);
      var b := Altered(s, t, i, mine, q.queued, all, both);
      BothAlone(b, t, i, bytes, mine);
      AlteredAgain(s, t, i, mine, q.queued, all, both, q.held, q.queued, s.held, Idle);
      AlteredAgain(s, t, i, mine, q.queued, all, both, mine, q.queued + bytes, all, Idle);
    } else {
      AsAltered(a, t, i, bytes, all, mine, Idle);
      AlteredAgain(s, t, i, mine, q.queued, s.held, pc, mine, q.queued + bytes, all, Idle);
      FinishIdle(Altered(s, t, i, mine, q.queued + bytes, all, Idle), t);
    }
  }
}
