/** The budget that all queues draw on, each call happening at once: whom it refuses,
    and how much one share can come to hold. `BudgetSteps` takes the calls apart. */
module Budget {

  datatype Outcome = Taken | OverOwn | OverServer

  class QueueBudget {
    const limit: nat
    var held: nat
    var shares: nat

    constructor (limit: nat)
      ensures this.limit == limit && held == 0 && shares == 0
    {
      this.limit := limit;
      held, shares := 0, 0;
    }
  }

  class Share {
    const budget: QueueBudget
    var held: nat

    constructor (budget: QueueBudget)
      modifies budget`shares
      ensures this.budget == budget && held == 0 && budget.shares == old(budget.shares) + 1
    {
      this.budget := budget;
      held := 0;
      new;
      budget.shares := budget.shares + 1;
    }

    /** Takes `bytes`, or refuses and leaves both counters as they were. */
    method Take(bytes: nat, own: nat) returns (r: Outcome)
      modifies this`held, budget`held
      ensures r == Decide(budget.limit, old(budget.held), budget.shares, old(held), bytes, own)
      ensures held == old(held) + (if r == Taken then bytes else 0)
      ensures budget.held == old(budget.held) + (if r == Taken then bytes else 0)
    {
      held := held + bytes;
      var mine := held;
      if mine > own {
        held := held - bytes;
        return OverOwn;
      }
      budget.held := budget.held + bytes;
      var all := budget.held;
      if all > budget.limit {
        if FarBehind(all, budget.shares, mine, mine - bytes) {
          budget.held := budget.held - bytes;
          held := held - bytes;
          return OverServer;
        }
      }
      r := Taken;
    }

    method Give(bytes: nat)
      requires bytes <= held && bytes <= budget.held
      modifies this`held, budget`held
      ensures held == old(held) - bytes && budget.held == old(budget.held) - bytes
    {
      held := held - bytes;
      budget.held := budget.held - bytes;
    }

    method Drop()
      requires held <= budget.held && budget.shares > 0
      modifies budget
      ensures budget.held == old(budget.held) - held && budget.shares == old(budget.shares) - 1
    {
      budget.held := budget.held - held;
      budget.shares := budget.shares - 1;
    }
  }

  function AtLeastOne(n: nat): (r: nat)
    ensures r >= 1 && r >= n && (r == n || r == 1)
  {
    if n == 0 then 1 else n
  }

  /** Past the average with an item, and past half of it without. */
  predicate FarBehind(all: nat, shares: nat, mine: nat, before: nat) {
    var average := all / AtLeastOne(shares);
    mine > average && before > average / 2
  }

  /** What a share that holds `mine` is answered, `held` being held in all. */
  function Decide(limit: nat, held: nat, shares: nat, mine: nat, bytes: nat, own: nat): Outcome {
    if mine + bytes > own then OverOwn
    else if held + bytes > limit && FarBehind(held + bytes, shares, mine + bytes, mine) then OverServer
    else Taken
  }

  // Runs.

  /** The budget's two counters, and what each live share holds. */
  datatype State = State(limit: nat, held: nat, count: nat, shares: seq<nat>)

  datatype Op = Take(i: nat, bytes: nat, own: nat) | Give(i: nat, bytes: nat) | Join | Leave(i: nat)

  function Sum(s: seq<nat>): nat {
    if s == [] then 0 else s[0] + Sum(s[1..])
  }

  /** An operation on a live share, giving back no more than was taken. */
  predicate Enabled(s: State, op: Op) {
    match op
    case Take(i, _, _) => i < |s.shares|
    case Give(i, bytes) => i < |s.shares| && bytes <= s.shares[i] && bytes <= s.held
    case Join => true
    case Leave(i) => i < |s.shares| && s.shares[i] <= s.held && s.count > 0
  }

  function Step(s: State, op: Op): State
    requires Enabled(s, op)
  {
    match op
    case Take(i, bytes, own) =>
      if Decide(s.limit, s.held, s.count, s.shares[i], bytes, own) != Taken then s
      else s.(held := s.held + bytes, shares := s.shares[i := s.shares[i] + bytes])
    case Give(i, bytes) => s.(held := s.held - bytes, shares := s.shares[i := s.shares[i] - bytes])
    case Join => s.(count := s.count + 1, shares := s.shares + [0])
    case Leave(i) =>
      s.(held := s.held - s.shares[i], count := s.count - 1, shares := s.shares[..i] + s.shares[i + 1..])
  }

  function Peak(limit: nat, w: nat): (m: nat)
    ensures m >= limit && m >= 2 * w && (m == limit || m == 2 * w)
  {
    if limit >= 2 * w then limit else 2 * w
  }

  /** Every operation is enabled when its turn comes; no item taken is larger than
      `w`, and a share that takes alone is held to the peak by its own bound. */
  predicate Runs(s: State, ops: seq<Op>, w: nat)
    decreases ops
  {
    ops != [] ==>
      && Enabled(s, ops[0]) && (ops[0].Take? ==> HeldTo(s, ops[0], w))
      && Runs(Step(s, ops[0]), ops[1..], w)
  }

  predicate HeldTo(s: State, op: Op, w: nat)
    requires op.Take?
  {
    op.bytes <= w && (|s.shares| >= 2 || op.own <= Peak(s.limit, w))
  }

  function Final(s: State, ops: seq<Op>, w: nat): State
    requires Runs(s, ops, w)
    decreases ops
  {
    if ops == [] then s else Final(Step(s, ops[0]), ops[1..], w)
  }

  /** The counters say what the shares hold. */
  predicate Balanced(s: State) {
    s.held == Sum(s.shares) && s.count == |s.shares|
  }

  predicate AtMost(shares: seq<nat>, m: nat) {
    forall i | 0 <= i < |shares| :: shares[i] <= m
  }

  lemma {:induction false} SumParts(a: seq<nat>, b: seq<nat>)
    ensures Sum(a + b) == Sum(a) + Sum(b)
  {
    if a == [] {
      assert a + b == b;
    } else {
      assert (a + b)[1..] == a[1..] + b;
      SumParts(a[1..], b);
    }
  }

  lemma SumOne(n: nat)
    ensures Sum([n]) == n
  {
    assert [n][1..] == [];
  }

  lemma SumAround(s: seq<nat>, i: nat)
    requires i < |s|
    ensures Sum(s) == Sum(s[..i]) + s[i] + Sum(s[i + 1..])
  {
    hide Sum;
    assert s == s[..i] + ([s[i]] + s[i + 1..]);
    SumParts(s[..i], [s[i]] + s[i + 1..]);
    SumParts([s[i]], s[i + 1..]);
    SumOne(s[i]);
  }

  lemma SumUpdate(s: seq<nat>, i: nat, h: nat)
    requires i < |s|
    ensures Sum(s[i := h]) == Sum(s) - s[i] + h
    ensures Sum(s[..i] + s[i + 1..]) == Sum(s) - s[i]
  {
    SumAround(s, i);
    SumAround(s[i := h], i);
    assert s[i := h][..i] == s[..i] && s[i := h][i + 1..] == s[i + 1..];
    SumParts(s[..i], s[i + 1..]);
  }

  lemma {:induction false} SumAtMost(s: seq<nat>, m: nat)
    requires AtMost(s, m)
    ensures Sum(s) <= |s| * m
  {
    if s != [] {
      assert s[0] <= m;
      SumAtMost(s[1..], m);
      assert |s| * m == (|s| - 1) * m + m;
    }
  }

  /** The others hold at most `m` each. */
  lemma OthersAtMost(s: seq<nat>, i: nat, m: nat)
    requires i < |s| && AtMost(s, m)
    ensures Sum(s) <= s[i] + (|s| - 1) * m
  {
    SumUpdate(s, i, 0);
    SumAtMost(s[..i] + s[i + 1..], m);
  }

  lemma StepBalanced(s: State, op: Op)
    requires Enabled(s, op) && Balanced(s)
    ensures Balanced(Step(s, op))
  {
    match op
    case Take(i, bytes, _) => SumUpdate(s.shares, i, s.shares[i] + bytes);
    case Give(i, bytes) => SumUpdate(s.shares, i, s.shares[i] - bytes);
    case Join => SumParts(s.shares, [0]);
    case Leave(i) => SumUpdate(s.shares, i, 0);
  }

  lemma {:induction false} Times(n: nat, a: nat, b: nat)
    requires a <= b
    ensures n * a <= n * b
  {
    if n > 0 {
      Times(n - 1, a, b);
      assert n * a == (n - 1) * a + a && n * b == (n - 1) * b + b;
    }
  }

  lemma AverageTimes(x: nat, all: nat, n: nat)
    requires n > 0
    ensures x <= all / n <==> n * x <= all
  {
    assert all == n * (all / n) + all % n;
    if x <= all / n {
      Times(n, x, all / n);
    } else {
      Times(n, all / n + 1, x);
      Shared(n, all / n, 1);
    }
  }

  lemma BelowAverage(mine: nat, all: nat, n: nat, m: nat)
    requires n >= 2 && mine <= all / n && all <= mine + (n - 1) * m
    ensures mine <= m
  {
    AverageTimes(mine, all, n);
    assert n * mine == (n - 1) * mine + mine;
    assert (n - 1) * (m + 1) == (n - 1) * m + (n - 1);
    if m < mine {
      Times(n - 1, m + 1, mine);
    }
  }

  lemma HalfAverage(h: nat, bytes: nat, all: nat, n: nat, m: nat)
    requires n >= 2 && h <= all / n / 2 && all <= h + bytes + (n - 1) * m && m >= 2 * bytes
    ensures h + bytes <= m
  {
    AverageTimes(2 * h, all, n);
    var t := n - 1;
    OneMore(t, 2 * h);
    Shared(t, h, h);
    if bytes <= h && m < h + bytes {
      Times(t, bytes, h);
      Times(t, m + 1, h + bytes);
      Shared(t, m, 1);
      Shared(t, h, bytes);
      assert false;
    }
  }

  lemma OneMore(t: nat, x: nat)
    ensures (t + 1) * x == t * x + x
  {
  }

  lemma Shared(t: nat, x: nat, y: nat)
    ensures t * (x + y) == t * x + t * y
  {
  }

  /** A share that takes an item past the budget is left with no more than the
      fullest share, or twice the largest item. */
  lemma TakeAtMost(s: State, i: nat, bytes: nat, own: nat, m: nat)
    requires Balanced(s) && 2 <= |s.shares| && i < |s.shares|
    requires AtMost(s.shares, m) && m >= s.limit && m >= 2 * bytes
    requires Decide(s.limit, s.held, s.count, s.shares[i], bytes, own) == Taken
    ensures s.shares[i] + bytes <= m
  {
    var n, h := |s.shares|, s.shares[i];
    var all := s.held + bytes;
    OthersAtMost(s.shares, i, m);
    if all <= s.limit {
      SumAround(s.shares, i);
    } else if h + bytes <= all / n {
      BelowAverage(h + bytes, all, n, m);
    } else {
      HalfAverage(h, bytes, all, n, m);
    }
  }

  /** Over any run of takes, gives, joins and leaves the counters stay right and
      no share ever holds more than the budget, or than twice the largest item. */
  lemma {:induction false} PeakBound(s: State, ops: seq<Op>, w: nat)
    requires Balanced(s) && AtMost(s.shares, Peak(s.limit, w)) && Runs(s, ops, w)
    ensures Balanced(Final(s, ops, w)) && AtMost(Final(s, ops, w).shares, Peak(s.limit, w))
    decreases ops
  {
    if ops != [] {
      StepBalanced(s, ops[0]);
      StepAtMost(s, ops[0], w);
      PeakBound(Step(s, ops[0]), ops[1..], w);
    }
  }

  lemma StepAtMost(s: State, op: Op, w: nat)
    requires Balanced(s) && AtMost(s.shares, Peak(s.limit, w)) && Enabled(s, op)
    requires op.Take? ==> HeldTo(s, op, w)
    ensures AtMost(Step(s, op).shares, Peak(s.limit, w)) && Step(s, op).limit == s.limit
  {
    if op.Take? && Decide(s.limit, s.held, s.count, s.shares[op.i], op.bytes, op.own) == Taken {
      if |s.shares| >= 2 {
        TakeAtMost(s, op.i, op.bytes, op.own, Peak(s.limit, w));
      }
    }
  }

  /** Past the budget a share is refused exactly what would leave it with more than
      the average when it already holds more than half: one that had kept up takes
      an item of any size. */
  lemma RefusedIff(s: State, i: nat, bytes: nat, own: nat)
    requires Balanced(s) && i < |s.shares|
    ensures var n, h, all := |s.shares|, s.shares[i], Sum(s.shares) + bytes;
            Decide(s.limit, s.held, s.count, h, bytes, own) == OverServer <==>
            h + bytes <= own && s.limit < all && n * (h + bytes) > all && n * (2 * h) > all
    ensures Decide(s.limit, s.held, s.count, s.shares[i], bytes, own) == OverOwn <==> s.shares[i] + bytes > own
  {
    var n, h, all := |s.shares|, s.shares[i], Sum(s.shares) + bytes;
    AverageTimes(h + bytes, all, n);
    AverageTimes(2 * h, all, n);
  }

  /** Once an item would pass the budget, the fullest of two shares or more is
      refused it, unless it is as large as all that is held. */
  lemma FullestRefused(s: State, i: nat, bytes: nat, own: nat)
    requires Balanced(s) && 2 <= |s.shares| && i < |s.shares| && AtMost(s.shares, s.shares[i])
    requires 0 < bytes < s.held && s.limit < s.held + bytes
    ensures Decide(s.limit, s.held, s.count, s.shares[i], bytes, own) != Taken
  {
    SumAtMost(s.shares, s.shares[i]);
    FullestProducts(|s.shares|, s.shares[i], bytes, s.held);
    RefusedIff(s, i, bytes, own);
  }

  lemma FullestProducts(n: nat, h: nat, bytes: nat, held: nat)
    requires n >= 2 && held <= n * h && 0 < bytes < held
    ensures n * (h + bytes) > held + bytes && n * (2 * h) > held + bytes
  {
    Times(bytes, 2, n);
    assert n * (h + bytes) == n * h + bytes * n && n * (2 * h) == 2 * (n * h);
  }

  /** A share alone is answered by its own bound only: the bound above needs the
      second share. */
  lemma AloneTakes(s: State, bytes: nat, own: nat)
    requires Balanced(s) && |s.shares| == 1
    ensures Decide(s.limit, s.held, s.count, s.shares[0], bytes, own) ==
            if s.shares[0] + bytes > own then OverOwn else Taken
  {
    assert s.shares[1..] == [] && Sum(s.shares) == s.shares[0];
  }

  /** What a share alone comes to hold of items in turn, `own` being its bound. */
  function AloneHolds(limit: nat, own: nat, items: seq<nat>): nat {
    if items == [] then 0 else
      var h, b := AloneHolds(limit, own, items[..|items| - 1]), items[|items| - 1];
      if Decide(limit, h, 1, h, b, own) == Taken then h + b else h
  }

  lemma {:induction false} AloneWithinOwn(limit: nat, own: nat, items: seq<nat>)
    ensures AloneHolds(limit, own, items) <= own
  {
    if items != [] {
      AloneWithinOwn(limit, own, items[..|items| - 1]);
    }
  }

  function Ones(n: nat): (r: seq<nat>)
    ensures |r| == n && forall i :: 0 <= i < n ==> r[i] == 1
  {
    seq(n, _ => 1)
  }

  lemma {:induction false} AloneTakesOnes(limit: nat, own: nat, n: nat)
    requires n <= own
    ensures AloneHolds(limit, own, Ones(n)) == n
  {
    if n > 0 {
      assert Ones(n)[..n - 1] == Ones(n - 1);
      AloneTakesOnes(limit, own, n - 1);
      AloneTakes(State(limit, n - 1, 1, [n - 1]), 1, own);
    }
  }

  /** Which shares break the bound alone: exactly those whose own bound is past the
      peak. */
  lemma AloneWithinPeakIff(limit: nat, own: nat, w: nat)
    requires w > 0
    ensures own <= Peak(limit, w) <==>
            forall items: seq<nat> | AtMost(items, w) :: AloneHolds(limit, own, items) <= Peak(limit, w)
  {
    if own <= Peak(limit, w) {
      forall items: seq<nat> | AtMost(items, w) ensures AloneHolds(limit, own, items) <= Peak(limit, w) {
        AloneWithinOwn(limit, own, items);
      }
    } else {
      AloneTakesOnes(limit, own, Peak(limit, w) + 1);
      assert AtMost(Ones(Peak(limit, w) + 1), w);
    }
  }
}
