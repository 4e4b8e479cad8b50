/** It does not matter in how many fetches a client catches up with a chain, of
    which a server serves only the end. */
module HandoverBatches {
  import opened Bytes
  import opened Cbor
  import opened Signed
  import opened Messages
  import opened Handovers
  import opened HandoverRuns

  /** All the handovers there have been: linked, each key once. */
  predicate Kept(w: Checks, chain: seq<Buf>) {
    Sound(w, ServeAll(w, chain))
  }

  predicate Sound(w: Checks, s: seq<Served>) {
    && 0 < |s| && AllParsed(s) && Linked(w, Parsed(s))
    && Distinct([Parsed(s)[0].from] + Heirs(Parsed(s)))
  }

  /** The server's key after `k` handovers, and the one it is committed to. */
  function ChallengeAt(w: Checks, c: seq<Handover>, k: nat): Challenge
    requires c != [] && k <= |c|
  {
    if k == 0 then Challenge(c[0].from, Some(Commit(w, c[0].to))) else Challenge(c[k - 1].to, c[k - 1].next)
  }

  /** A client that held `held` when it stood after `j` handovers, and has come to
      stand after `k`. */
  function At(w: Checks, s: seq<Served>, j: nat, k: nat, held: seq<Followed>, dismissed: set<Bytes32>): Client
    requires s != [] && AllParsed(s) && j <= k <= |s|
  {
    var at := ChallengeAt(w, Parsed(s), k);
    Client(at.serverKey, at.next, held + Retain(Records(s[j..k]), held), dismissed)
  }

  /** What the client held is older than the handovers it has yet to follow, and
      none of the chain is a fork to it. */
  predicate Ready(s: seq<Served>, j: nat, held: seq<Followed>, dismissed: set<Bytes32>) {
    && AllParsed(s) && j <= |s|
    && (j < |s| ==> AllBefore(held, Parsed(s)[j].time))
    && Forks(s, held, dismissed).None?
  }

  lemma ServedWindow(w: Checks, chain: seq<Buf>, a: nat, m: nat)
    requires a <= m <= |chain|
    ensures ServeAll(w, chain[a..m]) == ServeAll(w, chain)[a..m]
  {
    hide ServeOne;
  }

  lemma {:induction false} RetainAppend(a: seq<Followed>, b: seq<Followed>, held: seq<Followed>)
    ensures Retain(a + b, held) == Retain(a, held) + Retain(b, held)
  {
    hide Names;
    if a == [] {
      assert a + b == b;
    } else {
      assert (a + b)[1..] == a[1..] + b;
      RetainAppend(a[1..], b, held);
    }
  }

  lemma NamesAppend(a: seq<Followed>, b: seq<Followed>, key: Bytes32)
    ensures Names(a + b, key) <==> Names(a, key) || Names(b, key)
  {
    if Names(a, key) {
      var i :| 0 <= i < |a| && a[i].from == key;
      assert (a + b)[i].from == key;
    } else if Names(b, key) {
      var i :| 0 <= i < |b| && b[i].from == key;
      assert (a + b)[|a| + i].from == key;
    }
  }

  lemma {:induction false} RetainMore(a: seq<Followed>, held: seq<Followed>, more: seq<Followed>)
    requires forall i | 0 <= i < |a| :: !Names(more, a[i].from)
    ensures Retain(a, held + more) == Retain(a, held)
  {
    hide Names;
    if a != [] {
      NamesAppend(held, more, a[0].from);
      RetainMore(a[1..], held, more);
    }
  }

  lemma DistinctFroms(w: Checks, s: seq<Served>, i: nat, j: nat)
    requires Sound(w, s) && i < j < |s|
    ensures Parsed(s)[i].from != Parsed(s)[j].from
  {
    hide Linked, Distinct;
    KeysByPlace(w, Parsed(s), i);
    KeysByPlace(w, Parsed(s), j);
    KeysApart([Parsed(s)[0].from] + Heirs(Parsed(s)), i, j);
  }

  /** The records after `k` handovers, and after `m`. */
  lemma RecordsGoOn(w: Checks, s: seq<Served>, j: nat, k: nat, m: nat, held: seq<Followed>)
    requires Sound(w, s) && j <= k <= m <= |s|
    ensures var now := held + Retain(Records(s[j..k]), held);
            now + Retain(Records(s[k..m]), now) == held + Retain(Records(s[j..m]), held)
  {
    hide Linked, Retain, Names, Distinct;
    var a, b := s[j..k], s[k..m];
    assert s[j..m] == a + b;
    ParsedAppend(a, b);
    RetainAppend(Records(a), Records(b), held);
    var more := Retain(Records(a), held);
    forall i | 0 <= i < |b| ensures !Names(more, Records(b)[i].from) {
      NotNamed(w, s, j, k, m, held, i);
    }
    RetainMore(Records(b), held, more);
  }

  lemma NotNamed(w: Checks, s: seq<Served>, j: nat, k: nat, m: nat, held: seq<Followed>, i: nat)
    requires Sound(w, s) && j <= k <= m <= |s| && i < m - k
    ensures !Names(Retain(Records(s[j..k]), held), Records(s[k..m])[i].from)
  {
    hide Sound, Retain, Parsed, Records;
    SoundParsed(w, s);
    var more := Retain(Records(s[j..k]), held);
    var from := s[k + i].handover.value.from;
    assert Records(s[k..m])[i].from == from by {
      assert s[k..m][i] == s[k + i];
    }
    forall x | 0 <= x < |more| ensures more[x].from != from {
      var y := RetainedAt(s, j, k, held, x);
      DistinctFroms(w, s, y, k + i);
    }
  }

  lemma SoundParsed(w: Checks, s: seq<Served>)
    requires Sound(w, s)
    ensures s != [] && AllParsed(s)
  {
  }

  /** Where on the chain a record kept comes from. */
  lemma RetainedAt(s: seq<Served>, j: nat, k: nat, held: seq<Followed>, x: nat) returns (y: nat)
    requires AllParsed(s) && j <= k <= |s| && x < |Retain(Records(s[j..k]), held)|
    ensures j <= y < k && Retain(Records(s[j..k]), held)[x] == Record(s[y].handover.value, s[y].sha256)
  {
    hide Retain, Parsed, Records;
    RetainedFrom(Records(s[j..k]), held, x);
    var i :| 0 <= i < k - j && Records(s[j..k])[i] == Retain(Records(s[j..k]), held)[x];
    y := j + i;
    assert s[j..k][i] == s[y];
  }

  lemma RetainedFrom(records: seq<Followed>, held: seq<Followed>, x: nat)
    requires x < |Retain(records, held)|
    ensures exists y | 0 <= y < |records| :: records[y] == Retain(records, held)[x]
  {
    hide Names, Retain;
    assert Retain(records, held)[x] in records;
  }

  // One fetch.

  lemma NoFork(w: Checks, s: seq<Served>, a: nat, j: nat, k: nat, m: nat, held: seq<Followed>,
                                  dismissed: set<Bytes32>)
    requires Sound(w, s) && j <= k <= m <= |s| && a <= m && Ready(s, j, held, dismissed)
    ensures Forks(s[a..m], held + Retain(Records(s[j..k]), held), dismissed).None?
  {
    hide Sound, Ready, Retain, Records, Parsed, Forks, Contradicts;
    SoundParsed(w, s);
    var all := held + Retain(Records(s[j..k]), held);
    forall i, x | 0 <= i < m - a && 0 <= x < |all|
      ensures Contradicts(all[x], s[a..m][i]) ==> s[a..m][i].sha256 in dismissed
    {
      assert s[a..m][i] == s[a + i];
      NoForkAt(w, s, j, k, held, dismissed, x, a + i);
    }
  }

  lemma NoForkAt(w: Checks, s: seq<Served>, j: nat, k: nat, held: seq<Followed>,
                                    dismissed: set<Bytes32>, x: nat, i: nat)
    requires Sound(w, s) && j <= k <= |s| && i < |s| && Ready(s, j, held, dismissed)
    requires x < |held + Retain(Records(s[j..k]), held)|
    ensures Contradicts((held + Retain(Records(s[j..k]), held))[x], s[i]) ==> s[i].sha256 in dismissed
  {
    hide Sound, Retain, Records, Parsed, Forks, Contradicts, AllBefore;
    if x >= |held| {
      RetainedAgrees(w, s, j, k, held, x - |held|, i);
    }
  }

  lemma RetainedAgrees(w: Checks, s: seq<Served>, j: nat, k: nat, held: seq<Followed>, x: nat,
                                          i: nat)
    requires Sound(w, s) && j <= k <= |s| && i < |s|
    requires x < |Retain(Records(s[j..k]), held)|
    ensures !Contradicts(Retain(Records(s[j..k]), held)[x], s[i])
  {
    hide Sound, Retain, Parsed, Records;
    SoundParsed(w, s);
    var at := RetainedAt(s, j, k, held, x);
    if at < i {
      DistinctFroms(w, s, at, i);
    } else if i < at {
      DistinctFroms(w, s, i, at);
    }
  }

  /** The client's key names the handover it stands before, if that is still served. */
  lemma FindsPlace(w: Checks, s: seq<Served>, a: nat, k: nat, m: nat)
    requires Sound(w, s) && k < m <= |s| && a <= m
    ensures var at := ChallengeAt(w, Parsed(s), k);
            && FirstFrom(s[a..m], at.serverKey) == (if a <= k then Some(k - a) else None)
            && at.next == Some(Commit(w, Parsed(s)[k].to))
            && ChallengeAt(w, Parsed(s), m).serverKey != at.serverKey
  {
    hide Sound, Commit, FirstFrom, ChallengeAt, Parsed;
    SoundParsed(w, s);
    KeyAt(w, s, k, m);
    SliceIsWindow(s, a, m);
    FirstAt(w, s, s[a..m], a, k);
  }

  lemma KeyAt(w: Checks, s: seq<Served>, k: nat, m: nat)
    requires Sound(w, s) && k < m <= |s|
    ensures ChallengeAt(w, Parsed(s), k) == Challenge(Parsed(s)[k].from, Some(Commit(w, Parsed(s)[k].to)))
    ensures ChallengeAt(w, Parsed(s), m).serverKey != Parsed(s)[k].from
  {
    hide Distinct, Commit, Parsed, Linked;
    var c := Parsed(s);
    LinkAt(w, c, k);
    KeysByPlace(w, c, k);
    KeysByPlace(w, c, m - 1);
    KeysApart([c[0].from] + Heirs(c), k, m);
  }

  lemma LinkAt(w: Checks, c: seq<Handover>, k: nat)
    requires Linked(w, c) && k < |c|
    ensures k > 0 ==> c[k].from == c[k - 1].to && c[k - 1].next == Some(Commit(w, c[k].to))
  {
    hide Commit;
  }

  /** The part of `s` from `a` on. */
  ghost predicate IsWindow(v: seq<Served>, s: seq<Served>, a: nat) {
    a + |v| <= |s| && forall x | 0 <= x < |v| :: v[x] == s[a + x]
  }

  lemma SliceIsWindow(s: seq<Served>, a: nat, m: nat)
    requires a <= m <= |s|
    ensures IsWindow(s[a..m], s, a)
  {
  }

  lemma FirstAt(w: Checks, s: seq<Served>, v: seq<Served>, a: nat, k: nat)
    requires Sound(w, s) && IsWindow(v, s, a) && k < a + |v|
    ensures k < |s| && AllParsed(s)
    ensures FirstFrom(v, Parsed(s)[k].from) == if a <= k then Some(k - a) else None
  {
    hide Sound, Parsed, FirstFrom, AllParsed, IsWindow, IsFrom;
    SoundParsed(w, s);
    WindowFits(v, s, a);
    var key := Parsed(s)[k].from;
    forall x | 0 <= x < |v| ensures IsFrom(v[x], key) <==> a + x == k {
      WindowAt(v, s, a, x);
      OnlyFrom(w, s, k, a + x);
    }
    if a <= k {
      FirstIs(v, key, k - a);
    } else {
      FirstNone(v, key);
    }
  }

  lemma WindowFits(v: seq<Served>, s: seq<Served>, a: nat)
    requires IsWindow(v, s, a)
    ensures a + |v| <= |s|
  {
  }

  lemma WindowAt(v: seq<Served>, s: seq<Served>, a: nat, x: nat)
    requires IsWindow(v, s, a) && x < |v|
    ensures a + x < |s| && v[x] == s[a + x]
  {
  }

  predicate IsFrom(s: Served, key: Bytes32) {
    s.handover.Ok? && s.handover.value.from == key
  }

  /** Of all the handovers only one is from its key. */
  lemma OnlyFrom(w: Checks, s: seq<Served>, k: nat, i: nat)
    requires Sound(w, s) && k < |s| && i < |s|
    ensures AllParsed(s)
    ensures IsFrom(s[i], Parsed(s)[k].from) <==> i == k
  {
    hide Sound, Parsed, AllParsed;
    SoundParsed(w, s);
    ParsedAt(s, i);
    if i < k {
      DistinctFroms(w, s, i, k);
    } else if k < i {
      DistinctFroms(w, s, k, i);
    }
  }

  lemma FirstIs(v: seq<Served>, key: Bytes32, i: nat)
    requires i < |v| && forall x | 0 <= x < |v| :: IsFrom(v[x], key) <==> x == i
    ensures FirstFrom(v, key) == Some(i)
  {
    hide FirstFrom;
    assert IsFrom(v[i], key);
    var r := FirstFrom(v, key);
    if r.Some? {
      assert IsFrom(v[r.value], key);
    }
  }

  lemma FirstNone(v: seq<Served>, key: Bytes32)
    ensures FirstFrom(v, key) == None || exists x | 0 <= x < |v| :: IsFrom(v[x], key)
  {
    hide FirstFrom;
    var r := FirstFrom(v, key);
    if r.Some? {
      assert IsFrom(v[r.value], key);
    }
  }

  lemma KeysApart(keys: seq<Bytes32>, i: nat, j: nat)
    requires Distinct(keys) && i < j < |keys|
    ensures keys[i] != keys[j]
  {
  }

  lemma ParsedBetween(s: seq<Served>, k: nat, m: nat)
    requires AllParsed(s) && k <= m <= |s|
    ensures AllParsed(s[k..m]) && Parsed(s[k..m]) == Parsed(s)[k..m]
  {
    hide Parsed, AllParsed;
    AllParsedBetween(s, k, m);
    var p, q := Parsed(s[k..m]), Parsed(s)[k..m];
    assert |p| == m - k == |q|;
    forall i | 0 <= i < |p| ensures p[i] == q[i] {
      assert s[k..m][i] == s[k + i];
    }
  }

  lemma AllParsedBetween(s: seq<Served>, k: nat, m: nat)
    requires AllParsed(s) && k <= m <= |s|
    ensures AllParsed(s[k..m])
  {
  }

  lemma LinkedBetween(w: Checks, c: seq<Handover>, k: nat, m: nat, now: U64)
    requires Linked(w, c) && k <= m <= |c| && Timely(c[..m], now)
    ensures Linked(w, c[k..m]) && Timely(c[k..m], now)
  {
    hide Commit, Saturating;
    var d := c[k..m];
    forall i | 0 <= i < |d| ensures d[i].time <= Saturating(now + SKEW) {
      assert d[i] == c[..m][k + i];
    }
    forall i | 0 < i < |d|
      ensures d[i].from == d[i - 1].to && d[i - 1].next == Some(Commit(w, d[i].to)) && d[i - 1].time < d[i].time
    {
      assert d[i] == c[k + i] && d[i - 1] == c[k + i - 1];
    }
  }

  /** The handovers between two places are a chain a walk passes. */
  lemma BetweenWalks(w: Checks, s: seq<Served>, k: nat, m: nat, now: U64)
    requires Sound(w, s) && k < m <= |s| && Timely(Parsed(s)[..m], now)
    ensures Walks(w, s[k..m], ChallengeAt(w, Parsed(s), m), now)
  {
    hide Commit, Saturating, Distinct, Linked, Timely, AllParsed, Parsed, Heirs;
    ParsedBetween(s, k, m);
    LinkedBetween(w, Parsed(s), k, m, now);
    DistinctBetween(w, Parsed(s), k, m);
  }

  lemma DistinctBetween(w: Checks, c: seq<Handover>, k: nat, m: nat)
    requires Linked(w, c) && k < m <= |c| && Distinct([c[0].from] + Heirs(c))
    ensures Distinct([c[k].from] + Heirs(c[k..m]))
  {
    hide Linked, Distinct, Heirs;
    var keys, part := [c[0].from] + Heirs(c), [c[k].from] + Heirs(c[k..m]);
    forall i | 0 <= i < |part| ensures part[i] == keys[k + i] {
      if i == 0 {
        KeysByPlace(w, c, k);
      } else {
        KeysByPlace(w, c, k + i - 1);
        assert c[k..m][i - 1] == c[k + i - 1];
      }
    }
    DistinctPart(keys, part, k);
  }

  lemma DistinctPart(keys: seq<Bytes32>, part: seq<Bytes32>, k: nat)
    requires Distinct(keys) && k + |part| <= |keys| && forall i | 0 <= i < |part| :: part[i] == keys[k + i]
    ensures Distinct(part)
  {
    forall i, j | 0 <= i < j < |part| ensures part[i] != part[j] {
      assert keys[k + i] != keys[k + j];
    }
  }

  lemma HeldBefore(w: Checks, s: seq<Served>, j: nat, k: nat, held: seq<Followed>)
    requires Sound(w, s) && j <= k < |s|
    requires AllBefore(held, Parsed(s)[j].time)
    ensures AllBefore(held + Retain(Records(s[j..k]), held), Parsed(s)[k].time)
  {
    hide Linked, Distinct, Retain, Parsed, Records;
    var more := Retain(Records(s[j..k]), held);
    if j < k {
      TimesAscend(w, Parsed(s), j, k);
    }
    forall x | 0 <= x < |held + more| ensures (held + more)[x].time < Parsed(s)[k].time {
      if x < |held| {
        assert (held + more)[x] == held[x];
      } else {
        assert (held + more)[x] == more[x - |held|];
        var y := RetainedAt(s, j, k, held, x - |held|);
        TimesAscend(w, Parsed(s), y, k);
      }
    }
  }

  /** A client somewhere on the chain that fetches any longer stretch of it, from no
      later than where it stands, lands at the stretch's end. */
  lemma FetchLands(w: Checks, chain: seq<Buf>, a: nat, j: nat, k: nat, m: nat, held: seq<Followed>,
                                      dismissed: set<Bytes32>, now: U64)
    requires Kept(w, chain) && j <= k <= m <= |chain| && Ready(ServeAll(w, chain), j, held, dismissed)
    requires a <= m <= a + MAX_CHAIN && (a <= k || k == m)
    requires Timely(Parsed(ServeAll(w, chain))[..m], now)
    ensures var s := ServeAll(w, chain);
            Apply(w, At(w, s, j, k, held, dismissed), Fetched(chain[a..m], ChallengeAt(w, Parsed(s), m), now)) ==
            At(w, s, j, m, held, dismissed)
  {
    hide Timely, ChallengeAt, Parsed, ServeAll, Sound, Ready, AllParsed, At, Apply;
    var s := ServeAll(w, chain);
    SoundParsed(w, s);
    if k < m {
      FollowLands(w, chain, a, j, k, m, held, dismissed, now);
    } else {
      KeepLands(w, chain, a, j, k, held, dismissed, now);
    }
  }

  lemma KeepLands(w: Checks, chain: seq<Buf>, a: nat, j: nat, k: nat, held: seq<Followed>, dismissed: set<Bytes32>,
                  now: U64)
    requires Kept(w, chain) && j <= k <= |chain| && Ready(ServeAll(w, chain), j, held, dismissed)
    requires a <= k <= a + MAX_CHAIN && AllParsed(ServeAll(w, chain)) && chain != []
    ensures var s := ServeAll(w, chain);
            var c := At(w, s, j, k, held, dismissed);
            Apply(w, c, Fetched(chain[a..k], ChallengeAt(w, Parsed(s), k), now)) == c
  {
    hide AllParsed, ChallengeAt, Forks, Parsed, ServeAll, Records, Retain, Sound, Ready, Handovers.Check, Apply;
    var s := ServeAll(w, chain);
    var c, at := At(w, s, j, k, held, dismissed), ChallengeAt(w, Parsed(s), k);
    ServedWindow(w, chain, a, k);
    NoFork(w, s, a, j, k, k, held, dismissed);
    FetchApplied(w, c, chain[a..k], at, now);
    CheckKeeps(w, c, chain[a..k], at, now);
  }

  lemma FollowLands(w: Checks, chain: seq<Buf>, a: nat, j: nat, k: nat, m: nat, held: seq<Followed>,
                    dismissed: set<Bytes32>, now: U64)
    requires Kept(w, chain) && j <= k < m <= |chain| && Ready(ServeAll(w, chain), j, held, dismissed)
    requires a <= k && m <= a + MAX_CHAIN && AllParsed(ServeAll(w, chain)) && chain != []
    requires Timely(Parsed(ServeAll(w, chain))[..m], now)
    ensures var s := ServeAll(w, chain);
            Apply(w, At(w, s, j, k, held, dismissed), Fetched(chain[a..m], ChallengeAt(w, Parsed(s), m), now)) ==
            At(w, s, j, m, held, dismissed)
  {
    hide Retain, Timely, Commit, AllBefore, AllParsed, WalkAll, ChallengeAt, Forks, FirstFrom, Parsed, ServeAll,
         Records, Sound, Ready, Handovers.Check, Apply, At;
    var s := ServeAll(w, chain);
    var c, at := At(w, s, j, k, held, dismissed), ChallengeAt(w, Parsed(s), m);
    ServedWindow(w, chain, a, m);
    AllParsedBetween(s, k, m);
    WindowFollows(w, s, a, j, k, m, held, dismissed, now);
    FetchApplied(w, c, chain[a..m], at, now);
    CheckFollows(w, c, chain[a..m], at, now, k - a, Records(s[k..m]));
    ClientGoesOn(w, s, j, k, m, held, dismissed);
  }

  lemma ClientGoesOn(w: Checks, s: seq<Served>, j: nat, k: nat, m: nat, held: seq<Followed>, dismissed: set<Bytes32>)
    requires Sound(w, s) && s != [] && AllParsed(s) && j <= k <= m <= |s| && AllParsed(s[k..m])
    ensures var c, at := At(w, s, j, k, held, dismissed), ChallengeAt(w, Parsed(s), m);
            At(w, s, j, m, held, dismissed) ==
            Client(at.serverKey, at.next, c.followed + Retain(Records(s[k..m]), c.followed), c.dismissed)
  {
    hide Sound, AllParsed, Parsed, Records, Retain, ChallengeAt;
    RecordsGoOn(w, s, j, k, m, held);
  }

  /** What is served to a client that stands on it is what it follows. */
  lemma WindowFollows(w: Checks, s: seq<Served>, a: nat, j: nat, k: nat, m: nat, held: seq<Followed>,
                      dismissed: set<Bytes32>, now: U64)
    requires Sound(w, s) && s != [] && AllParsed(s) && j <= k < m <= |s| && AllParsed(s[k..m]) && a <= k
    requires Ready(s, j, held, dismissed) && Timely(Parsed(s)[..m], now)
    ensures var c, at := At(w, s, j, k, held, dismissed), ChallengeAt(w, Parsed(s), m);
            && Forks(s[a..m], c.followed, c.dismissed).None? && at.serverKey != c.key
            && FirstFrom(s[a..m], c.key) == Some(k - a)
            && c.commitment == Some(Commit(w, s[a..m][k - a].handover.value.to))
            && AllBefore(c.followed, s[a..m][k - a].handover.value.time)
            && WalkAll(w, s[a..m][k - a..], at, now) == Ok(Records(s[k..m]))
  {
    hide Retain, Timely, Commit, AllBefore, AllParsed, WalkAll, ChallengeAt, Forks, FirstFrom, Parsed, Records, Sound,
         Ready;
    NoFork(w, s, a, j, k, m, held, dismissed);
    ReadyBefore(s, j, held, dismissed);
    FindsPlace(w, s, a, k, m);
    HeldBefore(w, s, j, k, held);
    StretchWalks(w, s, k, m, now);
    WindowRest(s, a, k, m);
    ParsedAt(s, k);
  }

  lemma ParsedAt(s: seq<Served>, k: nat)
    requires AllParsed(s) && k < |s|
    ensures s[k].handover.Ok? && Parsed(s)[k] == s[k].handover.value
  {
  }

  lemma StretchWalks(w: Checks, s: seq<Served>, k: nat, m: nat, now: U64)
    requires Sound(w, s) && k < m <= |s| && AllParsed(s) && Timely(Parsed(s)[..m], now)
    ensures AllParsed(s[k..m]) && WalkAll(w, s[k..m], ChallengeAt(w, Parsed(s), m), now) == Ok(Records(s[k..m]))
  {
    hide Timely, AllParsed, WalkAll, Walks, ChallengeAt, Parsed, Records, Sound;
    BetweenWalks(w, s, k, m, now);
    WalkIff(w, s[k..m], ChallengeAt(w, Parsed(s), m), now);
  }

  lemma FetchApplied(w: Checks, c: Client, chain: seq<Buf>, challenge: Challenge, now: U64)
    ensures Apply(w, c, Fetched(chain, challenge, now)) ==
            match Handovers.Check(w, c, chain, challenge, now)
            case Follow(key, commitment, followed) =>
              Client(key, commitment, c.followed + followed, c.dismissed)
            case _ => c
  {
    hide Handovers.Check;
  }

  lemma WindowRest<T>(s: seq<T>, a: nat, k: nat, m: nat)
    requires a <= k < m <= |s|
    ensures s[a..m][k - a..] == s[k..m] && s[a..m][k - a] == s[k]
  {
  }

  /** One whose next handover is no longer served is warned, and stays where it was. */
  lemma TooFarBehind(w: Checks, chain: seq<Buf>, a: nat, j: nat, k: nat, m: nat, held: seq<Followed>,
                     dismissed: set<Bytes32>, now: U64)
    requires Kept(w, chain) && j <= k < a <= m <= |chain| && m <= a + MAX_CHAIN
    requires Ready(ServeAll(w, chain), j, held, dismissed)
    ensures var s := ServeAll(w, chain);
            var c, fetch := At(w, s, j, k, held, dismissed), Fetched(chain[a..m], ChallengeAt(w, Parsed(s), m), now);
            && Handovers.Check(w, c, fetch.chain, fetch.challenge, now) == Warn(Chain(NotServed))
            && Apply(w, c, fetch) == c
  {
    hide Linked, Retain, Distinct, Commit, AllBefore, WalkAll, Walks, ChallengeAt, Forks, FirstFrom, Saturating,
         Parsed, AllParsed, Heirs, ServeAll, Records, Sound, Ready, Apply;
    var s := ServeAll(w, chain);
    SoundParsed(w, s);
    ServedWindow(w, chain, a, m);
    NoFork(w, s, a, j, k, m, held, dismissed);
    FindsPlace(w, s, a, k, m);
    FetchApplied(w, At(w, s, j, k, held, dismissed), chain[a..m], ChallengeAt(w, Parsed(s), m), now);
  }

  lemma ReadyBefore(s: seq<Served>, j: nat, held: seq<Followed>, dismissed: set<Bytes32>)
    requires Ready(s, j, held, dismissed)
    ensures j < |s| ==> AllParsed(s) && AllBefore(held, Parsed(s)[j].time)
  {
  }

  lemma CheckKeeps(w: Checks, c: Client, chain: seq<Buf>, challenge: Challenge, now: U64)
    requires |chain| <= MAX_CHAIN && Forks(ServeAll(w, chain), c.followed, c.dismissed).None?
    requires challenge == Challenge(c.key, c.commitment)
    ensures Handovers.Check(w, c, chain, challenge, now) == Keep
  {
    hide Forks, ServeAll;
  }

  lemma CheckFollows(w: Checks, c: Client, chain: seq<Buf>, challenge: Challenge, now: U64, i: nat,
                                        records: seq<Followed>)
    requires |chain| <= MAX_CHAIN && Forks(ServeAll(w, chain), c.followed, c.dismissed).None?
    requires challenge.serverKey != c.key
    requires FirstFrom(ServeAll(w, chain), c.key) == Some(i)
    requires var first := ServeAll(w, chain)[i].handover.value;
             c.commitment == Some(Commit(w, first.to)) && AllBefore(c.followed, first.time)
    requires WalkAll(w, ServeAll(w, chain)[i..], challenge, now) == Ok(records)
    ensures Handovers.Check(w, c, chain, challenge, now) ==
            Follow(challenge.serverKey, challenge.next, Retain(records, c.followed))
  {
    hide Forks, ServeAll, FirstFrom, WalkAll, Retain, Commit, AllBefore;
  }

  // Any schedule of fetches.

  /** A fetch, at `now`, of the handovers from the `a`th to the `m`th. */
  datatype Fetch = Fetch(a: nat, m: nat, now: U64)

  /** The server only adds to its chain, serves no more than clients verify, and
      still serves what the client has yet to follow; its times suit the clock. */
  predicate Reachable(w: Checks, chain: seq<Buf>, k: nat, fetches: seq<Fetch>)
    decreases fetches
  {
    fetches != [] ==>
      var f := fetches[0];
      && k <= f.m <= |chain| && f.a <= f.m <= f.a + MAX_CHAIN && (f.a <= k || k == f.m)
      && AllParsed(ServeAll(w, chain)) && Timely(Parsed(ServeAll(w, chain))[..f.m], f.now)
      && Reachable(w, chain, f.m, fetches[1..])
  }

  function Events(w: Checks, chain: seq<Buf>, k: nat, fetches: seq<Fetch>): seq<Event>
    requires Kept(w, chain) && Reachable(w, chain, k, fetches)
    decreases fetches
  {
    if fetches == [] then []
    else
      var f := fetches[0];
      [Fetched(chain[f.a..f.m], ChallengeAt(w, Parsed(ServeAll(w, chain)), f.m), f.now)] +
      Events(w, chain, f.m, fetches[1..])
  }

  /** Where the last fetch leaves the client. */
  function Last(k: nat, fetches: seq<Fetch>): nat {
    if fetches == [] then k else fetches[|fetches| - 1].m
  }

  /** However many fetches it takes a client to get there, and however long the chain
      comes to be, it ends with the pin, the commitment and the records that are due
      at the end: those of one fetch, where one could serve it all. */
  lemma {:induction false} BatchingDoesNotMatter(w: Checks, chain: seq<Buf>, j: nat, k: nat, held: seq<Followed>,
                                                 dismissed: set<Bytes32>, fetches: seq<Fetch>)
    requires Kept(w, chain) && j <= k <= |chain| && Ready(ServeAll(w, chain), j, held, dismissed)
    requires Reachable(w, chain, k, fetches)
    ensures Last(k, fetches) <= |chain| && k <= Last(k, fetches)
    ensures var s := ServeAll(w, chain);
            Final(w, At(w, s, j, k, held, dismissed), Events(w, chain, k, fetches)) ==
            At(w, s, j, Last(k, fetches), held, dismissed)
    decreases fetches
  {
    hide Apply, Kept, Ready, Timely, ChallengeAt, Parsed, ServeAll, AllParsed, At;
    if fetches != [] {
      var f := fetches[0];
      KeptParsed(w, chain);
      FetchLands(w, chain, f.a, j, k, f.m, held, dismissed, f.now);
      BatchingDoesNotMatter(w, chain, j, f.m, held, dismissed, fetches[1..]);
      var s := ServeAll(w, chain);
      var events := Events(w, chain, k, fetches);
      assert events[1..] == Events(w, chain, f.m, fetches[1..]);
    }
  }

  lemma KeptParsed(w: Checks, chain: seq<Buf>)
    requires Kept(w, chain)
    ensures chain != [] && AllParsed(ServeAll(w, chain))
  {
  }

  /** A first pin anywhere on the chain is that of a client who was there from the
      first handover served. */
  lemma FirstPinLands(w: Checks, chain: seq<Buf>, a: nat, m: nat, now: U64)
    requires Kept(w, chain) && a <= m <= |chain| && m <= a + MAX_CHAIN
    requires Timely(Parsed(ServeAll(w, chain))[..m], now)
    ensures var s := ServeAll(w, chain);
            FirstPin(w, chain[a..m], ChallengeAt(w, Parsed(s), m), now) == At(w, s, a, m, [], {})
  {
    hide Linked, Distinct, Timely, Commit, WalkAll, Walks, Forks, FirstFrom, Saturating, Parsed, Heirs, ServeAll,
         Records, Sound, Retain, ChallengeAt;
    var s := ServeAll(w, chain);
    SoundParsed(w, s);
    ServedWindow(w, chain, a, m);
    var at := ChallengeAt(w, Parsed(s), m);
    if a < m {
      BetweenWalks(w, s, a, m, now);
    } else {
      NothingWalks(w, at, now);
      assert s[a..m] == [];
    }
    WalkIff(w, s[a..m], at, now);
    WalksParsed(w, s[a..m], at, now);
    NoneNamed(Records(s[a..m]));
    assert [] + Records(s[a..m]) == Records(s[a..m]);
  }

  lemma NoneNamed(records: seq<Followed>)
    ensures Retain(records, []) == records
  {
    RetainAll(records, []);
  }

  lemma NothingWalks(w: Checks, challenge: Challenge, now: U64)
    ensures Walks(w, [], challenge, now)
  {
  }

  lemma ReadyAtStart(s: seq<Served>, a: nat)
    requires AllParsed(s) && a <= |s|
    ensures Ready(s, a, [], {})
  {
  }

  /** When a client first came does not matter either: after a first pin and any
      schedule of fetches it is as one that first pins at the end, to whom as much is
      served. */
  lemma PinThenFetch(w: Checks, chain: seq<Buf>, a: nat, m: nat, now: U64, fetches: seq<Fetch>,
                                        later: U64)
    requires Kept(w, chain) && a <= m <= |chain| && m <= a + MAX_CHAIN
    requires Timely(Parsed(ServeAll(w, chain))[..m], now) && Reachable(w, chain, m, fetches)
    requires Last(m, fetches) <= |chain| && Last(m, fetches) <= a + MAX_CHAIN
    requires Timely(Parsed(ServeAll(w, chain))[..Last(m, fetches)], later)
    ensures var c := Parsed(ServeAll(w, chain));
            var end := Last(m, fetches);
            m <= end &&
            Final(w, FirstPin(w, chain[a..m], ChallengeAt(w, c, m), now), Events(w, chain, m, fetches)) ==
            FirstPin(w, chain[a..end], ChallengeAt(w, c, end), later)
  {
    hide FirstPin, Kept, Ready, Timely, ChallengeAt, Parsed, ServeAll, AllParsed, At, Reachable, Events, Last, Final;
    var s := ServeAll(w, chain);
    KeptParsed(w, chain);
    FirstPinLands(w, chain, a, m, now);
    ReadyAtStart(s, a);
    BatchingDoesNotMatter(w, chain, a, m, [], {}, fetches);
    FirstPinLands(w, chain, a, Last(m, fetches), later);
  }
}
