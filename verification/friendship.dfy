/** The chain of identity rotations from a key, as a friendship's checker follows
    it, and the withdrawals that rest on where it ends. */
module Friendship {
  import opened Bytes
  import opened Cbor

  /** A checked rotation of the identity key to its successor. */
  datatype Rotation = Rotation(identity: Bytes32, successor: Bytes32, time: U64)

  type Hash = Bytes32 -> Bytes32

  /** The keys with a rotation away from them. */
  function Froms(fp: Hash, rotations: seq<Rotation>): (r: set<Bytes32>)
    ensures forall k :: k in r <==> exists i :: 0 <= i < |rotations| && fp(rotations[i].identity) == k
    ensures |r| <= |rotations|
  {
    if rotations == [] then {}
    else
      assert rotations == [rotations[0]] + rotations[1..];
      {fp(rotations[0].identity)} + Froms(fp, rotations[1..])
  }

  function Successors(fp: Hash, rotations: seq<Rotation>, key: Bytes32): (r: seq<Bytes32>)
    ensures r == [] <==> key !in Froms(fp, rotations)
    ensures forall s :: s in r <==>
              exists i :: 0 <= i < |rotations| && fp(rotations[i].identity) == key && rotations[i].successor == s
  {
    if rotations == [] then []
    else
      assert rotations == [rotations[0]] + rotations[1..];
      (if fp(rotations[0].identity) == key then [rotations[0].successor] else []) +
      Successors(fp, rotations[1..], key)
  }

  /** Two rotations lead from the key to different ones. */
  predicate Forked(fp: Hash, rotations: seq<Rotation>, key: Bytes32) {
    Differ(Successors(fp, rotations, key))
  }

  predicate Differ(next: seq<Bytes32>) {
    exists s, t :: s in next && t in next && s != t
  }

  function Rounds(fp: Hash, rotations: seq<Rotation>, key: Bytes32, n: nat): Option<Bytes32>
    decreases n
  {
    if n == 0 then None
    else
      var next := Successors(fp, rotations, key);
      if next == [] then Some(key)
      else if Forked(fp, rotations, key) then None
      else Rounds(fp, rotations, fp(next[0]), n - 1)
  }

  method ChainEnd(fp: Hash, start: Bytes32, rotations: seq<Rotation>) returns (r: Option<Bytes32>)
    ensures r == Rounds(fp, rotations, start, |rotations| + 1)
  {
    hide Successors, Differ;
    var key := start;
    for n := 0 to |rotations| + 1
      invariant Rounds(fp, rotations, start, |rotations| + 1) == Rounds(fp, rotations, key, |rotations| + 1 - n)
    {
      var next := Successors(fp, rotations, key);
      if next == [] {
        return Some(key);
      }
      var successor := next[0];
      DifferFromFirst(next);
      if exists s | s in next[1..] :: s != successor {
        return None;
      }
      key := fp(successor);
    }
    r := None;
  }

  lemma DifferFromFirst(next: seq<Bytes32>)
    requires next != []
    ensures Differ(next) <==> exists s | s in next[1..] :: s != next[0]
  {
    if exists s | s in next[1..] :: s != next[0] {
      var s :| s in next[1..] && s != next[0];
      assert s in next && next[0] in next;
    } else {
      forall i | 0 <= i < |next| ensures next[i] == next[0] {
        if i > 0 {
          assert next[i] in next[1..];
        }
      }
    }
  }

  // Paths of rotations.

  predicate Step(fp: Hash, rotations: seq<Rotation>, from: Bytes32, to: Bytes32) {
    exists s :: s in Successors(fp, rotations, from) && fp(s) == to
  }

  predicate Path(fp: Hash, rotations: seq<Rotation>, start: Bytes32, p: seq<Bytes32>) {
    p != [] && p[0] == start && forall i | 0 < i < |p| :: Step(fp, rotations, p[i - 1], p[i])
  }

  /** A path that stops because nothing leads on, and met no fork. */
  predicate Leads(fp: Hash, rotations: seq<Rotation>, start: Bytes32, p: seq<Bytes32>, end: Bytes32) {
    && Path(fp, rotations, start, p) && p[|p| - 1] == end && end !in Froms(fp, rotations)
    && forall i | 0 <= i < |p| :: !Forked(fp, rotations, p[i])
  }

  /** A path that comes to a fork, or comes back to a key it has been at. */
  predicate Strays(fp: Hash, rotations: seq<Rotation>, start: Bytes32, p: seq<Bytes32>) {
    && Path(fp, rotations, start, p)
    && (Forked(fp, rotations, p[|p| - 1]) || exists i, j | 0 <= i < j < |p| :: p[i] == p[j])
  }

  lemma OneStep(fp: Hash, rotations: seq<Rotation>, from: Bytes32, a: Bytes32, b: Bytes32)
    requires Step(fp, rotations, from, a) && Step(fp, rotations, from, b) && !Forked(fp, rotations, from)
    ensures a == b
  {
    hide Successors;
  }

  lemma NextStep(fp: Hash, rotations: seq<Rotation>, key: Bytes32)
    requires Successors(fp, rotations, key) != []
    ensures Step(fp, rotations, key, fp(Successors(fp, rotations, key)[0]))
  {
    hide Successors;
    assert Successors(fp, rotations, key)[0] in Successors(fp, rotations, key);
  }

  /** A path that does not stray has no key twice: it would go on from the later
      place as from the earlier one, and never end. */
  lemma {:induction false} NoReturn(fp: Hash, rotations: seq<Rotation>, start: Bytes32, p: seq<Bytes32>, end: Bytes32,
                                    i: nat, j: nat)
    requires Leads(fp, rotations, start, p, end) && i < j < |p|
    ensures p[i] != p[j]
    decreases |p| - j
  {
    hide Successors, Forked, Step, Leads, Froms;
    LeadsOn(fp, rotations, start, p, end, i);
    LeadsOn(fp, rotations, start, p, end, j);
    if p[i] == p[j] {
      if j == |p| - 1 {
        StepFrom(fp, rotations, p[i], p[i + 1]);
      } else {
        OneStep(fp, rotations, p[i], p[i + 1], p[j + 1]);
        NoReturn(fp, rotations, start, p, end, i + 1, j + 1);
      }
    }
  }

  lemma LeadsOn(fp: Hash, rotations: seq<Rotation>, start: Bytes32, p: seq<Bytes32>, end: Bytes32,
                                   i: nat)
    requires Leads(fp, rotations, start, p, end) && i < |p|
    ensures !Forked(fp, rotations, p[i])
    ensures if i == |p| - 1 then p[i] !in Froms(fp, rotations) else Step(fp, rotations, p[i], p[i + 1])
  {
    hide Successors, Forked, Step, Froms;
    assert i < |p| - 1 ==> Step(fp, rotations, p[i + 1 - 1], p[i + 1]);
  }

  lemma StepFrom(fp: Hash, rotations: seq<Rotation>, from: Bytes32, to: Bytes32)
    requires Step(fp, rotations, from, to)
    ensures from in Froms(fp, rotations)
  {
    hide Froms;
  }

  /** Different keys of a set are no more than its members. */
  lemma {:induction false} Pigeonhole(p: seq<Bytes32>, s: set<Bytes32>)
    requires forall i | 0 <= i < |p| :: p[i] in s
    requires forall i, j | 0 <= i < j < |p| :: p[i] != p[j]
    ensures |p| <= |s|
    decreases p
  {
    if p != [] {
      var q := p[..|p| - 1];
      Pigeonhole(q, s - {p[|p| - 1]});
    }
  }

  /** A path no longer than the rounds is followed to its end. */
  lemma {:induction false} RoundsFollow(fp: Hash, rotations: seq<Rotation>, start: Bytes32, p: seq<Bytes32>,
                                        end: Bytes32, n: nat)
    requires Leads(fp, rotations, start, p, end) && |p| <= n
    ensures Rounds(fp, rotations, start, n) == Some(end)
    decreases n
  {
    hide Successors, Forked, Step;
    assert !Forked(fp, rotations, p[0]);
    if |p| > 1 {
      assert Step(fp, rotations, p[1 - 1], p[1]);
      StepFrom(fp, rotations, p[0], p[1]);
      NextStep(fp, rotations, start);
      OneStep(fp, rotations, start, p[1], fp(Successors(fp, rotations, start)[0]));
      LeadsTail(fp, rotations, start, p, end);
      RoundsFollow(fp, rotations, p[1], p[1..], end, n - 1);
    }
  }

  lemma LeadsTail(fp: Hash, rotations: seq<Rotation>, start: Bytes32, p: seq<Bytes32>, end: Bytes32)
    requires Leads(fp, rotations, start, p, end) && |p| > 1
    ensures Leads(fp, rotations, p[1], p[1..], end)
  {
    hide Froms, Forked, Step;
    var q := p[1..];
    forall i | 0 < i < |q| ensures Step(fp, rotations, q[i - 1], q[i]) {
      assert q[i] == p[i + 1] && q[i - 1] == p[i + 1 - 1];
    }
  }

  lemma PathCons(fp: Hash, rotations: seq<Rotation>, start: Bytes32, next: Bytes32, p: seq<Bytes32>)
    requires Step(fp, rotations, start, next) && Path(fp, rotations, next, p)
    ensures Path(fp, rotations, start, [start] + p)
  {
    hide Step;
    var q := [start] + p;
    forall i | 0 < i < |q| ensures Step(fp, rotations, q[i - 1], q[i]) {
      assert q[i] == p[i - 1];
      if i > 1 {
        assert q[i - 1] == p[i - 1 - 1];
      }
    }
  }

  /** What the rounds go along: to an end, to a fork, or as far as they go. */
  lemma {:induction false} RoundsPath(fp: Hash, rotations: seq<Rotation>, start: Bytes32, n: nat)
    returns (p: seq<Bytes32>)
    ensures Path(fp, rotations, start, p)
    ensures match Rounds(fp, rotations, start, n)
            case Some(end) => Leads(fp, rotations, start, p, end)
            case None => Forked(fp, rotations, p[|p| - 1]) || |p| == n + 1
    decreases n
  {
    hide Successors, Froms, Forked, Step, Path, Leads;
    if n == 0 || Successors(fp, rotations, start) == [] || Forked(fp, rotations, start) {
      p := [start];
      NoRound(fp, rotations, start, n);
    } else {
      var next := fp(Successors(fp, rotations, start)[0]);
      var q := RoundsPath(fp, rotations, next, n - 1);
      p := [start] + q;
      OneRound(fp, rotations, start, n, q);
    }
  }

  lemma NoRound(fp: Hash, rotations: seq<Rotation>, start: Bytes32, n: nat)
    requires n == 0 || Successors(fp, rotations, start) == [] || Forked(fp, rotations, start)
    ensures Path(fp, rotations, start, [start])
    ensures match Rounds(fp, rotations, start, n)
            case Some(end) => Leads(fp, rotations, start, [start], end)
            case None => Forked(fp, rotations, start) || n == 0
  {
    hide Successors, Froms, Forked, Step;
    EndNotForked(fp, rotations, start);
  }

  lemma OneRound(fp: Hash, rotations: seq<Rotation>, start: Bytes32, n: nat, q: seq<Bytes32>)
    requires n > 0 && Successors(fp, rotations, start) != [] && !Forked(fp, rotations, start)
    requires var next := fp(Successors(fp, rotations, start)[0]);
             && Path(fp, rotations, next, q)
             && match Rounds(fp, rotations, next, n - 1)
                case Some(end) => Leads(fp, rotations, next, q, end)
                case None => Forked(fp, rotations, q[|q| - 1]) || |q| == n
    ensures Path(fp, rotations, start, [start] + q)
    ensures match Rounds(fp, rotations, start, n)
            case Some(end) => Leads(fp, rotations, start, [start] + q, end)
            case None => Forked(fp, rotations, ([start] + q)[|q|]) || |q| == n
  {
    hide Successors, Froms, Forked, Step;
    NextStep(fp, rotations, start);
    PathCons(fp, rotations, start, fp(Successors(fp, rotations, start)[0]), q);
  }

  lemma EndNotForked(fp: Hash, rotations: seq<Rotation>, key: Bytes32)
    ensures Successors(fp, rotations, key) == [] ==> key !in Froms(fp, rotations) && !Forked(fp, rotations, key)
  {
    hide Successors, Froms;
  }

  /** With one round more than there are rotations, the chain ends at a key exactly
      when a path past no fork leads to it and none leads on. */
  lemma ChainEndIff(fp: Hash, rotations: seq<Rotation>, start: Bytes32, end: Bytes32)
    ensures Rounds(fp, rotations, start, |rotations| + 1) == Some(end) <==>
            exists p :: Leads(fp, rotations, start, p, end)
  {
    hide Rounds, Leads;
    if exists p :: Leads(fp, rotations, start, p, end) {
      var p :| Leads(fp, rotations, start, p, end);
      LeadsShort(fp, rotations, start, p, end);
      RoundsFollow(fp, rotations, start, p, end, |rotations| + 1);
    } else {
      var p := RoundsPath(fp, rotations, start, |rotations| + 1);
    }
  }

  lemma LeadsShort(fp: Hash, rotations: seq<Rotation>, start: Bytes32, p: seq<Bytes32>, end: Bytes32)
    requires Leads(fp, rotations, start, p, end)
    ensures |p| <= |rotations| + 1
  {
    hide Froms, Forked, Step, Leads;
    var q := PathInit(fp, rotations, start, p, end);
    forall i, j | 0 <= i < j < |q| ensures q[i] != q[j] {
      NoReturn(fp, rotations, start, p, end, i, j);
    }
    Pigeonhole(q, Froms(fp, rotations));
  }

  lemma PathInit(fp: Hash, rotations: seq<Rotation>, start: Bytes32, p: seq<Bytes32>, end: Bytes32)
    returns (q: seq<Bytes32>)
    requires Leads(fp, rotations, start, p, end)
    ensures |p| == |q| + 1 && q == p[..|q|] && forall i | 0 <= i < |q| :: q[i] in Froms(fp, rotations)
  {
    hide Froms, Forked, Step;
    q := p[..|p| - 1];
    forall i | 0 <= i < |q| ensures q[i] in Froms(fp, rotations) {
      assert Step(fp, rotations, p[i + 1 - 1], p[i + 1]);
      StepFrom(fp, rotations, p[i], p[i + 1]);
    }
  }

  /** And it ends nowhere exactly when a path comes to a fork or round to itself. */
  lemma ChainStraysIff(fp: Hash, rotations: seq<Rotation>, start: Bytes32)
    ensures Rounds(fp, rotations, start, |rotations| + 1).None? <==>
            exists p :: Strays(fp, rotations, start, p)
  {
    hide Rounds, Leads, Strays;
    var r := Rounds(fp, rotations, start, |rotations| + 1);
    var p := RoundsPath(fp, rotations, start, |rotations| + 1);
    if r.None? {
      LongStrays(fp, rotations, start, p);
    } else {
      forall q ensures !Strays(fp, rotations, start, q) {
        LeadsNotStrays(fp, rotations, start, p, r.value, q);
      }
    }
  }

  lemma LongStrays(fp: Hash, rotations: seq<Rotation>, start: Bytes32, p: seq<Bytes32>)
    requires Path(fp, rotations, start, p)
    requires Forked(fp, rotations, p[|p| - 1]) || |p| == |rotations| + 2
    ensures Strays(fp, rotations, start, p)
  {
    hide Froms, Forked, Step;
    if !Forked(fp, rotations, p[|p| - 1]) {
      var q := p[..|p| - 1];
      forall i | 0 <= i < |q| ensures q[i] in Froms(fp, rotations) {
        assert Step(fp, rotations, p[i + 1 - 1], p[i + 1]);
        StepFrom(fp, rotations, p[i], p[i + 1]);
      }
      if forall i, j | 0 <= i < j < |q| :: q[i] != q[j] {
        Pigeonhole(q, Froms(fp, rotations));
      } else {
        var i, j :| 0 <= i < j < |q| && q[i] == q[j];
        assert p[i] == p[j];
      }
    }
  }

  /** Every path from the start goes along the one that leads to the end. */
  lemma {:induction false} AlongThePath(fp: Hash, rotations: seq<Rotation>, start: Bytes32, p: seq<Bytes32>,
                                        end: Bytes32, q: seq<Bytes32>, i: nat)
    requires Leads(fp, rotations, start, p, end) && Path(fp, rotations, start, q) && i < |q|
    ensures i < |p| && p[i] == q[i]
    decreases i
  {
    hide Froms, Forked, Step;
    if i > 0 {
      AlongThePath(fp, rotations, start, p, end, q, i - 1);
      assert Step(fp, rotations, q[i - 1], q[i]);
      StepFrom(fp, rotations, q[i - 1], q[i]);
      assert i < |p|;
      assert Step(fp, rotations, p[i - 1], p[i]);
      OneStep(fp, rotations, p[i - 1], p[i], q[i]);
    }
  }

  lemma LeadsNotStrays(fp: Hash, rotations: seq<Rotation>, start: Bytes32, p: seq<Bytes32>,
                                          end: Bytes32, q: seq<Bytes32>)
    requires Leads(fp, rotations, start, p, end)
    ensures !Strays(fp, rotations, start, q)
  {
    hide Froms, Forked, Step, Leads;
    if Strays(fp, rotations, start, q) {
      AlongThePath(fp, rotations, start, p, end, q, |q| - 1);
      LeadsUnforked(fp, rotations, start, p, end, |q| - 1);
      var i, j :| 0 <= i < j < |q| && q[i] == q[j];
      AlongThePath(fp, rotations, start, p, end, q, i);
      AlongThePath(fp, rotations, start, p, end, q, j);
      NoReturn(fp, rotations, start, p, end, i, j);
    }
  }

  lemma LeadsUnforked(fp: Hash, rotations: seq<Rotation>, start: Bytes32, p: seq<Bytes32>,
                                         end: Bytes32, i: nat)
    requires Leads(fp, rotations, start, p, end) && i < |p|
    ensures !Forked(fp, rotations, p[i])
  {
    hide Froms, Forked, Step;
  }

  /** Only which rotations there are matters, not their order or how often one is
      listed, though it sets the number of rounds. */
  lemma OrderDoesNotMatter(fp: Hash, r: seq<Rotation>, s: seq<Rotation>, start: Bytes32)
    requires forall x :: x in r <==> x in s
    ensures Rounds(fp, r, start, |r| + 1) == Rounds(fp, s, start, |s| + 1)
  {
    hide Rounds;
    forall p, end ensures Leads(fp, r, start, p, end) == Leads(fp, s, start, p, end) {
      LeadsSame(fp, r, s, start, p, end);
      LeadsSame(fp, s, r, start, p, end);
    }
    var a, b := Rounds(fp, r, start, |r| + 1), Rounds(fp, s, start, |s| + 1);
    if a.Some? {
      ChainEndIff(fp, r, start, a.value);
      ChainEndIff(fp, s, start, a.value);
    }
    if b.Some? {
      ChainEndIff(fp, r, start, b.value);
      ChainEndIff(fp, s, start, b.value);
    }
  }

  lemma SameSuccessors(fp: Hash, r: seq<Rotation>, s: seq<Rotation>, key: Bytes32)
    requires forall x :: x in r <==> x in s
    ensures forall x :: x in Successors(fp, r, key) ==> x in Successors(fp, s, key)
  {
    hide Successors;
    forall x | x in Successors(fp, r, key) ensures x in Successors(fp, s, key) {
      var i :| 0 <= i < |r| && fp(r[i].identity) == key && r[i].successor == x;
      assert r[i] in s;
    }
  }

  lemma NoMembers(s: seq<Bytes32>)
    ensures s == [] || exists x :: x in s
  {
    if s != [] {
      assert s[0] in s;
    }
  }

  lemma LeadsSame(fp: Hash, r: seq<Rotation>, s: seq<Rotation>, start: Bytes32, p: seq<Bytes32>,
                                     end: Bytes32)
    requires forall x :: x in r <==> x in s
    ensures Leads(fp, r, start, p, end) ==> Leads(fp, s, start, p, end)
  {
    hide Successors, Froms;
    if Leads(fp, r, start, p, end) {
      forall key ensures forall x :: x in Successors(fp, r, key) <==> x in Successors(fp, s, key) {
        SameSuccessors(fp, r, s, key);
        SameSuccessors(fp, s, r, key);
      }
      assert forall i | 0 < i < |p| :: Step(fp, r, p[i - 1], p[i]) ==> Step(fp, s, p[i - 1], p[i]);
      assert forall i | 0 <= i < |p| :: !Forked(fp, r, p[i]) ==> !Forked(fp, s, p[i]);
      assert end !in Froms(fp, s) by {
        assert Successors(fp, r, end) == [];
        assert forall x :: x !in Successors(fp, s, end);
        assert Successors(fp, s, end) == [] by {
          NoMembers(Successors(fp, s, end));
        }
      }
    }
  }

  // Withdrawals.

  datatype Pair = Pair(lo: Bytes32, hi: Bytes32)

  datatype Withdrawal = Withdrawal(from: Bytes32, pair: Bytes32, party: Option<Bytes32>, before: U64, time: U64)

  datatype Refusal = KeyMismatch(step: nat) | BadParty | BadBefore

  function EffectiveParty(fp: Hash, wd: Withdrawal): Bytes32 {
    if wd.party.Some? then wd.party.value else fp(wd.from)
  }

  /** Steps 3 and 4 of a withdrawal's check. */
  function PairRules(fp: Hash, wd: Withdrawal, pair: Pair, pairHash: Bytes32, rotations: seq<Rotation>)
    : Option<Refusal>
  {
    var from := Some(fp(wd.from));
    var party := EffectiveParty(fp, wd);
    if wd.pair != pairHash then Some(KeyMismatch(3))
    else if && Rounds(fp, rotations, pair.lo, |rotations| + 1) != from
            && Rounds(fp, rotations, pair.hi, |rotations| + 1) != from then Some(KeyMismatch(4))
    else if party != pair.lo && party != pair.hi then Some(BadParty)
    else if exists r | r in rotations :: fp(r.identity) == party && wd.before > r.time then Some(BadBefore)
    else None
  }

  /** The key that signs stands at the end of a chain past no fork from one of the
      pair's keys. */
  ghost predicate SpeaksForPair(fp: Hash, from: Bytes32, pair: Pair, rotations: seq<Rotation>) {
    exists start, p :: (start == pair.lo || start == pair.hi) && Leads(fp, rotations, start, p, fp(from))
  }

  /** A withdrawal passes exactly when it names the pair, its signer speaks for one of
      the two, its party is one of the two, and it reaches back no later than any
      rotation away from that party. */
  lemma WithdrawalStandsIff(fp: Hash, wd: Withdrawal, pair: Pair, pairHash: Bytes32,
                                               rotations: seq<Rotation>)
    ensures PairRules(fp, wd, pair, pairHash, rotations).None? <==>
            && wd.pair == pairHash && SpeaksForPair(fp, wd.from, pair, rotations)
            && EffectiveParty(fp, wd) in [pair.lo, pair.hi]
            && forall r | r in rotations && fp(r.identity) == EffectiveParty(fp, wd) :: wd.before <= r.time
  {
    hide Rounds, Leads;
    ChainEndIff(fp, rotations, pair.lo, fp(wd.from));
    ChainEndIff(fp, rotations, pair.hi, fp(wd.from));
    if exists p :: Leads(fp, rotations, pair.lo, p, fp(wd.from)) {
      var p :| Leads(fp, rotations, pair.lo, p, fp(wd.from));
    }
    if exists p :: Leads(fp, rotations, pair.hi, p, fp(wd.from)) {
      var p :| Leads(fp, rotations, pair.hi, p, fp(wd.from));
    }
  }

  /** Whether a withdrawal ends a half of the pair's friendship by a party, dated at a
      time. */
  predicate Ends(fp: Hash, wd: Withdrawal, pairHash: Bytes32, party: Bytes32, time: U64) {
    wd.pair == pairHash && EffectiveParty(fp, wd) == party && time < wd.before
  }

  /** A stolen key ends nothing: what passes is signed by a key not rotated away from,
      and ends no half its party made at or after rotating. */
  lemma EndsNothingSince(fp: Hash, wd: Withdrawal, pair: Pair, pairHash: Bytes32,
                                            rotations: seq<Rotation>, party: Bytes32, time: U64, r: Rotation)
    requires PairRules(fp, wd, pair, pairHash, rotations).None? && Ends(fp, wd, pairHash, party, time) && r in rotations
    ensures fp(r.identity) != fp(wd.from)
    ensures fp(r.identity) == party ==> time < r.time
  {
    hide Rounds, Froms, PairRules, Path;
    WithdrawalStandsIff(fp, wd, pair, pairHash, rotations);
    var start, p :| (start == pair.lo || start == pair.hi) && Leads(fp, rotations, start, p, fp(wd.from));
    var i :| 0 <= i < |rotations| && rotations[i] == r;
    assert fp(rotations[i].identity) in Froms(fp, rotations);
  }
}
