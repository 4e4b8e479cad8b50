/** Whole runs of a client that follows handovers: what its records keep, what
    joins its pins, and when the records are all there is to know of a run. */
module HandoverRuns {
  import opened Bytes
  import opened Cbor
  import opened Signed
  import opened Messages
  import opened Handovers

  /** A fetch of discovery, a warning the user accepts, which pins again, or a
      fork's hash the user dismisses. */
  datatype Event =
    | Fetched(chain: seq<Buf>, challenge: Challenge, now: U64)
    | Accepted(chain: seq<Buf>, challenge: Challenge)
    | Dismissed(sha256: Bytes32)

  function FirstPin(w: Checks, chain: seq<Buf>, challenge: Challenge, now: U64): Client {
    Client(challenge.serverKey, challenge.next, Pin(w, chain, challenge, now), {})
  }

  function Apply(w: Checks, c: Client, e: Event): Client {
    match e
    case Fetched(chain, challenge, now) =>
      (match Handovers.Check(w, c, chain, challenge, now)
       case Follow(key, commitment, followed) =>
         c.(key := key, commitment := commitment, followed := c.followed + followed)
       case _ => c)
    case Accepted(chain, challenge) =>
      if Repin(w, chain, c.followed, c.dismissed).Some? then c
      else c.(key := challenge.serverKey, commitment := challenge.next)
    case Dismissed(sha256) => c.(dismissed := c.dismissed + {sha256})
  }

  function Final(w: Checks, c: Client, events: seq<Event>): Client
    decreases events
  {
    if events == [] then c else Final(w, Apply(w, c, events[0]), events[1..])
  }

  // The records.

  /** Times strictly ascending, and no key recorded twice. */
  predicate InOrder(records: seq<Followed>) {
    forall i, j | 0 <= i < j < |records| ::
      records[i].time < records[j].time && records[i].from != records[j].from
  }

  lemma {:induction false} TimesAscend(w: Checks, c: seq<Handover>, i: nat, j: nat)
    requires Linked(w, c) && i < j < |c|
    ensures c[i].time < c[j].time
    decreases j
  {
    hide Commit;
    if i + 1 < j {
      TimesAscend(w, c, i, j - 1);
    }
    assert c[j - 1].time < c[j].time;
  }

  /** The keys of a linked chain, the first one and every heir, by place. */
  lemma KeysByPlace(w: Checks, c: seq<Handover>, i: nat)
    requires c != [] && Linked(w, c) && i < |c|
    ensures ([c[0].from] + Heirs(c))[i] == c[i].from && ([c[0].from] + Heirs(c))[i + 1] == c[i].to
  {
    hide Commit;
    if i > 0 {
      assert c[i].from == c[i - 1].to;
    }
  }

  lemma WalkedInOrder(w: Checks, chain: seq<Served>, challenge: Challenge, now: U64)
    requires Walks(w, chain, challenge, now)
    ensures InOrder(Records(chain))
  {
    hide Linked, Timely, Commit, Saturating;
    var c, r := Parsed(chain), Records(chain);
    forall i, j | 0 <= i < j < |r| ensures r[i].time < r[j].time && r[i].from != r[j].from {
      TimesAscend(w, c, i, j);
      KeysByPlace(w, c, i);
      KeysByPlace(w, c, j);
      var keys := [c[0].from] + Heirs(c);
      assert keys[i] != keys[j];
    }
  }

  lemma TailInOrder(records: seq<Followed>)
    requires records != [] && InOrder(records)
    ensures InOrder(records[1..])
    ensures forall i | 0 < i < |records| :: records[0].time < records[i].time && records[0].from != records[i].from
  {
    var t := records[1..];
    forall i, j | 0 <= i < j < |t| ensures t[i].time < t[j].time && t[i].from != t[j].from {
      assert t[i] == records[i + 1] && t[j] == records[j + 1];
    }
  }

  lemma {:induction false} RetainInOrder(records: seq<Followed>, held: seq<Followed>)
    requires InOrder(records)
    ensures InOrder(Retain(records, held))
    ensures forall x | x in Retain(records, held) :: x in records
  {
    hide Names;
    if records != [] {
      TailInOrder(records);
      RetainInOrder(records[1..], held);
      var r := Retain(records[1..], held);
      forall i | 0 <= i < |r| ensures records[0].time < r[i].time && records[0].from != r[i].from {
        assert r[i] in records[1..];
      }
      ConsInOrder(records[0], r);
    }
  }

  lemma ConsInOrder(x: Followed, r: seq<Followed>)
    requires InOrder(r) && forall i | 0 <= i < |r| :: x.time < r[i].time && x.from != r[i].from
    ensures InOrder([x] + r)
  {
    var s := [x] + r;
    forall i, j | 0 <= i < j < |s| ensures s[i].time < s[j].time && s[i].from != s[j].from {
      assert s[j] == r[j - 1];
      if i > 0 {
        assert s[i] == r[i - 1];
      }
    }
  }

  lemma JoinInOrder(held: seq<Followed>, more: seq<Followed>, time: U64)
    requires InOrder(held) && InOrder(more) && AllBefore(held, time)
    requires forall i | 0 <= i < |more| :: time <= more[i].time && !Names(held, more[i].from)
    ensures InOrder(held + more)
  {
    var s := held + more;
    forall i, j | 0 <= i < j < |s| ensures s[i].time < s[j].time && s[i].from != s[j].from {
      if j < |held| {
        assert s[i] == held[i] && s[j] == held[j];
      } else if i < |held| {
        assert s[i] == held[i] && s[j] == more[j - |held|];
      } else {
        assert s[i] == more[i - |held|] && s[j] == more[j - |held|];
      }
    }
  }

  /** The handovers walked when `Check` says to follow. */
  function Walked(w: Checks, c: Client, chain: seq<Buf>): seq<Served> {
    var served := ServeAll(w, chain);
    match FirstFrom(served, c.key)
    case None => []
    case Some(i) => served[i..]
  }

  /** Bytes of the chain that the key handing over signed, and their hash. */
  ghost predicate ServedSigned(w: Checks, chain: seq<Buf>, s: Served) {
    s.handover.Ok? && exists b :: b in chain && HandsOver(w, b, s.handover.value) && s.sha256 == w.sha256(b)
  }

  lemma ServedIff(w: Checks, chain: seq<Buf>, i: nat)
    requires i < |chain|
    ensures ServeAll(w, chain)[i] == ServeOne(w, chain[i])
    ensures ServeAll(w, chain)[i].handover.Ok? ==> ServedSigned(w, chain, ServeAll(w, chain)[i])
    ensures forall h | HandsOver(w, chain[i], h) :: ServeAll(w, chain)[i] == Served(Ok(h), w.sha256(chain[i]))
  {
    hide HandsOver, ParseHandover;
    var s := ServeAll(w, chain)[i];
    if s.handover.Ok? {
      HandoverIff(w, chain[i], s.handover.value);
      assert chain[i] in chain;
    }
    forall h | HandsOver(w, chain[i], h) ensures s == Served(Ok(h), w.sha256(chain[i])) {
      HandoverIff(w, chain[i], h);
    }
  }

  lemma WalkedSigned(w: Checks, c: Client, chain: seq<Buf>, challenge: Challenge, now: U64)
    requires Handovers.Check(w, c, chain, challenge, now).Follow?
    ensures forall x | x in Walked(w, c, chain) :: ServedSigned(w, chain, x)
  {
    hide Followable, WalkAll, ServeAll, FirstFrom, Forks, ServedSigned, Walks, Handovers.Check, Walked;
    var served, s := ServeAll(w, chain), Walked(w, c, chain);
    FollowParts(w, c, chain, challenge, now);
    FollowableParts(w, c, served, challenge, now);
    var from := FirstFrom(served, c.key).value;
    WalkedFrom(w, c, chain);
    WalkIff(w, s, challenge, now);
    forall x | x in s ensures ServedSigned(w, chain, x) {
      var i :| 0 <= i < |s| && s[i] == x;
      assert s[i] == served[from + i];
      ServedIff(w, chain, from + i);
    }
  }

  lemma WalkedFrom(w: Checks, c: Client, chain: seq<Buf>)
    ensures var served := ServeAll(w, chain);
            FirstFrom(served, c.key).Some? ==> Walked(w, c, chain) == served[FirstFrom(served, c.key).value..]
  {
    hide FirstFrom, ServeAll;
  }

  // The verdict.

  /** A served handover hands a recorded key over by other bytes than those recorded,
      which no one has dismissed. */
  ghost predicate Forked(w: Checks, c: Client, chain: seq<Buf>) {
    |chain| <= MAX_CHAIN &&
    exists b, h, f ::
      && b in chain && HandsOver(w, b, h) && f in c.followed
      && f.from == h.from && f.sha256 != w.sha256(b) && w.sha256(b) !in c.dismissed
  }

  lemma ForkedIff(w: Checks, c: Client, chain: seq<Buf>)
    ensures Forked(w, c, chain) <==> Forks(ValueOr(Serve(w, chain), []), c.followed, c.dismissed).Some?
  {
    hide HandsOver, Forks, ServeAll;
    if |chain| <= MAX_CHAIN {
      var served := ServeAll(w, chain);
      forall b, h, f | b in chain && HandsOver(w, b, h) && f in c.followed && f.from == h.from
                       && f.sha256 != w.sha256(b) && w.sha256(b) !in c.dismissed
        ensures Forks(served, c.followed, c.dismissed).Some?
      {
        var i :| 0 <= i < |chain| && chain[i] == b;
        var j :| 0 <= j < |c.followed| && c.followed[j] == f;
        ServedIff(w, chain, i);
        assert Contradicts(c.followed[j], served[i]);
      }
      if Forks(served, c.followed, c.dismissed).Some? {
        var i, j :| 0 <= i < |served| && 0 <= j < |c.followed| && Contradicts(c.followed[j], served[i])
                    && served[i].sha256 !in c.dismissed;
        ServedIff(w, chain, i);
        assert c.followed[j] in c.followed;
      }
    }
  }

  /** A warning accepted moves the pin, and adds no record, unless there is a fork. */
  lemma AcceptedIs(w: Checks, c: Client, chain: seq<Buf>, challenge: Challenge)
    ensures Apply(w, c, Accepted(chain, challenge)) ==
            if Forked(w, c, chain) then c
            else Client(challenge.serverKey, challenge.next, c.followed, c.dismissed)
  {
    hide Forks, Forked;
    ForkedIff(w, c, chain);
  }

  /** The served handovers from the client's key on carry it to the key that answered. */
  ghost predicate Carries(w: Checks, c: Client, chain: seq<Buf>, challenge: Challenge, now: U64) {
    var s := Walked(w, c, chain);
    && |chain| <= MAX_CHAIN && s != [] && Walks(w, s, challenge, now) && AllParsed(s)
    && c.commitment == Some(Commit(w, Parsed(s)[0].to)) && AllBefore(c.followed, Parsed(s)[0].time)
  }

  /** When each verdict is given. */
  lemma VerdictIff(w: Checks, c: Client, chain: seq<Buf>, challenge: Challenge, now: U64)
    ensures var v := Handovers.Check(w, c, chain, challenge, now);
            var same := challenge.serverKey == c.key;
            && (v.Warn? && v.warning.Fork? <==> Forked(w, c, chain))
            && (v == Keep <==>
                !Forked(w, c, chain) && same && (c.commitment.None? || c.commitment == challenge.next))
            && (v == Warn(Recommitted) <==>
                !Forked(w, c, chain) && same && c.commitment.Some? && c.commitment != challenge.next)
            && (v.Follow? <==> !Forked(w, c, chain) && !same && Carries(w, c, chain, challenge, now))
  {
    hide Forks, Forked, Followable, Carries, ServeAll;
    ForkedIff(w, c, chain);
    ForkWarns(ValueOr(Serve(w, chain), []), c.followed, c.dismissed);
    FollowableIff(w, c, chain, challenge, now);
  }

  lemma {:induction false} ForkWarns(served: seq<Served>, followed: seq<Followed>, dismissed: set<Bytes32>)
    ensures var r := Forks(served, followed, dismissed); r.Some? ==> r.value.Fork?
  {
    hide Contradicts;
    if served != [] {
      ForkWarns(served[1..], followed, dismissed);
    }
  }

  lemma FollowableIff(w: Checks, c: Client, chain: seq<Buf>, challenge: Challenge, now: U64)
    ensures Followable(w, c, Serve(w, chain), challenge, now).Ok? <==> Carries(w, c, chain, challenge, now)
  {
    hide FirstFrom, WalkAll, Retain, AllBefore, Commit, Walks, ServeAll, AllParsed, Parsed;
    var served := ServeAll(w, chain);
    var s := Walked(w, c, chain);
    WalkIff(w, s, challenge, now);
    if Walks(w, s, challenge, now) {
      WalksParsed(w, s, challenge, now);
    }
    if FirstFrom(served, c.key).Some? {
      assert s[0] == served[FirstFrom(served, c.key).value];
    }
  }

  /** What a verdict to follow was given for. */
  lemma FollowMeans(w: Checks, c: Client, chain: seq<Buf>, challenge: Challenge, now: U64)
    requires Handovers.Check(w, c, chain, challenge, now).Follow?
    ensures var s := Walked(w, c, chain);
            && s != [] && Walks(w, s, challenge, now)
            && Parsed(s)[0].from == c.key && c.commitment == Some(Commit(w, Parsed(s)[0].to))
            && AllBefore(c.followed, Parsed(s)[0].time)
            && Handovers.Check(w, c, chain, challenge, now) ==
               Follow(challenge.serverKey, challenge.next, Retain(Records(s), c.followed))
    ensures forall i, j | 0 <= i < |Walked(w, c, chain)| && 0 <= j < |c.followed| ::
              Contradicts(c.followed[j], Walked(w, c, chain)[i]) ==> Walked(w, c, chain)[i].sha256 in c.dismissed
    ensures forall x | x in Walked(w, c, chain) :: ServedSigned(w, chain, x)
  {
    hide Walks, WalkAll, Retain, ServeAll, AllBefore, Contradicts, Forks, FirstFrom, Parsed, Records, Commit,
         Followable, Handovers.Check, ServedSigned;
    WalkedSigned(w, c, chain, challenge, now);
    var served := ServeAll(w, chain);
    FollowParts(w, c, chain, challenge, now);
    FollowableParts(w, c, served, challenge, now);
    var s := Walked(w, c, chain);
    WalkIff(w, s, challenge, now);
    WalksParsed(w, s, challenge, now);
    assert s[0] == served[FirstFrom(served, c.key).value];
    NoForkFrom(served, FirstFrom(served, c.key).value, c.followed, c.dismissed);
  }

  lemma FollowParts(w: Checks, c: Client, chain: seq<Buf>, challenge: Challenge, now: U64)
    requires Handovers.Check(w, c, chain, challenge, now).Follow?
    ensures Forks(ServeAll(w, chain), c.followed, c.dismissed).None?
    ensures var f := Followable(w, c, Some(ServeAll(w, chain)), challenge, now);
            && f.Ok?
            && Handovers.Check(w, c, chain, challenge, now) == Follow(challenge.serverKey, challenge.next, f.value)
  {
    hide Forks, ServeAll, FirstFrom, WalkAll, Retain, AllBefore, Commit;
  }

  lemma FollowableParts(w: Checks, c: Client, served: seq<Served>, challenge: Challenge, now: U64)
    requires Followable(w, c, Some(served), challenge, now).Ok?
    ensures FirstFrom(served, c.key).Some?
    ensures var i := FirstFrom(served, c.key).value;
            var first := served[i].handover.value;
            && c.commitment == Some(Commit(w, first.to)) && AllBefore(c.followed, first.time)
            && WalkAll(w, served[i..], challenge, now).Ok?
            && Followable(w, c, Some(served), challenge, now).value ==
               Retain(WalkAll(w, served[i..], challenge, now).value, c.followed)
  {
    hide FirstFrom, WalkAll, Retain, AllBefore, Commit;
  }

  lemma NoForkFrom(served: seq<Served>, from: nat, followed: seq<Followed>, dismissed: set<Bytes32>)
    requires Forks(served, followed, dismissed).None? && from <= |served|
    ensures forall i, j | 0 <= i < |served[from..]| && 0 <= j < |followed| ::
              Contradicts(followed[j], served[from..][i]) ==> served[from..][i].sha256 in dismissed
  {
    hide Forks, Contradicts;
    forall i, j | 0 <= i < |served[from..]| && 0 <= j < |followed| && Contradicts(followed[j], served[from..][i])
      ensures served[from..][i].sha256 in dismissed
    {
      assert served[from..][i] == served[from + i];
    }
  }

  lemma WalksParsed(w: Checks, chain: seq<Served>, challenge: Challenge, now: U64)
    requires Walks(w, chain, challenge, now)
    ensures AllParsed(chain)
  {
    hide Linked, Timely;
  }

  lemma FollowInOrder(w: Checks, c: Client, chain: seq<Buf>, challenge: Challenge, now: U64)
    requires InOrder(c.followed) && Handovers.Check(w, c, chain, challenge, now).Follow?
    ensures InOrder(c.followed + Handovers.Check(w, c, chain, challenge, now).followed)
  {
    hide Timely, Commit, Saturating, Handovers.Check, Walked, InOrder, AllBefore, Names;
    FollowMeans(w, c, chain, challenge, now);
    var s := Walked(w, c, chain);
    WalkedInOrder(w, s, challenge, now);
    RetainInOrder(Records(s), c.followed);
    var more := Retain(Records(s), c.followed);
    FirstTime(w, s);
    JoinInOrder(c.followed, more, Parsed(s)[0].time);
  }

  lemma FirstTime(w: Checks, s: seq<Served>)
    requires s != [] && AllParsed(s) && Linked(w, Parsed(s))
    ensures forall x | x in Records(s) :: Parsed(s)[0].time <= x.time
  {
    hide Linked;
    forall i | 0 <= i < |s| ensures Parsed(s)[0].time <= Records(s)[i].time {
      if i > 0 {
        TimesAscend(w, Parsed(s), 0, i);
      }
    }
  }

  /** Whatever the server serves, the clock says and the user accepts, the records
      keep strictly ascending times and distinct keys. */
  lemma {:induction false} RunInOrder(w: Checks, c: Client, events: seq<Event>)
    requires InOrder(c.followed)
    ensures InOrder(Final(w, c, events).followed)
    decreases events
  {
    hide InOrder, Handovers.Check, Repin;
    if events != [] {
      match events[0] {
        case Fetched(chain, challenge, now) =>
          if Handovers.Check(w, c, chain, challenge, now).Follow? {
            FollowInOrder(w, c, chain, challenge, now);
          }
        case _ =>
      }
      RunInOrder(w, Apply(w, c, events[0]), events[1..]);
    }
  }

  lemma FirstPinInOrder(w: Checks, chain: seq<Buf>, challenge: Challenge, now: U64)
    ensures InOrder(FirstPin(w, chain, challenge, now).followed)
  {
    hide Walks, WalkAll;
    var served := Serve(w, chain);
    if served.Some? && WalkAll(w, served.value, challenge, now).Ok? {
      WalkIff(w, served.value, challenge, now);
      WalkedInOrder(w, served.value, challenge, now);
    }
  }

  // What joins one pin to the next.

  /** An unbroken chain of commitments from one pin to another. */
  predicate Joined(w: Checks, key: Bytes32, commitment: Option<Bytes32>, c: seq<Handover>, last: Bytes32,
                   next: Option<Bytes32>)
    decreases c
  {
    if c == [] then key == last && commitment == next
    else c[0].from == key && commitment == Some(Commit(w, c[0].to)) && Joined(w, c[0].to, c[0].next, c[1..], last, next)
  }

  lemma {:induction false} JoinedAppend(w: Checks, key: Bytes32, commitment: Option<Bytes32>, c: seq<Handover>,
                                        mid: Bytes32, between: Option<Bytes32>, d: seq<Handover>, last: Bytes32,
                                        next: Option<Bytes32>)
    requires Joined(w, key, commitment, c, mid, between) && Joined(w, mid, between, d, last, next)
    ensures Joined(w, key, commitment, c + d, last, next)
    decreases c
  {
    if c == [] {
      assert c + d == d;
    } else {
      assert (c + d)[1..] == c[1..] + d;
      JoinedAppend(w, c[0].to, c[0].next, c[1..], mid, between, d, last, next);
    }
  }

  lemma {:induction false} LinkedJoined(w: Checks, c: seq<Handover>)
    requires c != [] && Linked(w, c)
    ensures Joined(w, c[0].from, Some(Commit(w, c[0].to)), c, c[|c| - 1].to, c[|c| - 1].next)
    decreases c
  {
    hide Commit, Linked;
    var t := c[1..];
    if t != [] {
      assert c == [c[0]] + t;
      LinkedStep(w, c[0], t);
      LinkedJoined(w, t);
    }
  }

  /** The handovers followed over a run. */
  function History(w: Checks, c: Client, events: seq<Event>): seq<Served>
    decreases events
  {
    if events == [] then []
    else FollowedAt(w, c, events[0]) + History(w, Apply(w, c, events[0]), events[1..])
  }

  function FollowedAt(w: Checks, c: Client, e: Event): seq<Served> {
    match e
    case Fetched(chain, challenge, now) =>
      if Handovers.Check(w, c, chain, challenge, now).Follow? then Walked(w, c, chain) else []
    case _ => []
  }

  predicate OnlyFetches(events: seq<Event>) {
    forall i | 0 <= i < |events| :: events[i].Fetched?
  }

  lemma ParsedAppend(s: seq<Served>, t: seq<Served>)
    requires AllParsed(s) && AllParsed(t)
    ensures AllParsed(s + t) && Parsed(s + t) == Parsed(s) + Parsed(t) && Records(s + t) == Records(s) + Records(t)
  {
    hide Parsed, Records;
    var p := s + t;
    forall i | 0 <= i < |p| ensures p[i].handover.Ok? {
      if i < |s| { assert p[i] == s[i]; } else { assert p[i] == t[i - |s|]; }
    }
  }

  lemma StepJoined(w: Checks, c: Client, e: Event)
    requires e.Fetched?
    ensures var d := Apply(w, c, e);
            && AllParsed(FollowedAt(w, c, e))
            && Joined(w, c.key, c.commitment, Parsed(FollowedAt(w, c, e)), d.key, d.commitment)
  {
    hide Linked, Timely, Commit, Handovers.Check, Walked, Joined;
    if Handovers.Check(w, c, e.chain, e.challenge, e.now).Follow? {
      FollowMeans(w, c, e.chain, e.challenge, e.now);
      LinkedJoined(w, Parsed(Walked(w, c, e.chain)));
    } else {
      JoinedNone(w, c);
    }
  }

  lemma JoinedNone(w: Checks, c: Client)
    ensures Joined(w, c.key, c.commitment, [], c.key, c.commitment)
  {
  }

  /** Every pin reached without a warning accepted is joined to the one it started
      from by handovers that parsed, each by the key before it and to the key that
      one committed to. */
  lemma {:induction false} RunJoined(w: Checks, c: Client, events: seq<Event>)
    requires OnlyFetches(events)
    ensures AllParsed(History(w, c, events))
    ensures var d := Final(w, c, events);
            Joined(w, c.key, c.commitment, Parsed(History(w, c, events)), d.key, d.commitment)
    decreases events
  {
    hide Apply, FollowedAt, Joined;
    if events == [] {
      JoinedNone(w, c);
    } else {
      var d := Apply(w, c, events[0]);
      StepJoined(w, c, events[0]);
      RunJoined(w, d, events[1..]);
      var s, t := FollowedAt(w, c, events[0]), History(w, d, events[1..]);
      ParsedAppend(s, t);
      var e := Final(w, c, events);
      JoinedAppend(w, c.key, c.commitment, Parsed(s), d.key, d.commitment, Parsed(t), e.key, e.commitment);
    }
  }

  // No key handed over twice in silence.

  /** A record for the handover, under its hash. */
  predicate Recorded(records: seq<Followed>, s: Served) {
    s.handover.Ok? && exists j | 0 <= j < |records| ::
      records[j].from == s.handover.value.from && records[j].sha256 == s.sha256
  }

  lemma {:induction false} RetainKeeps(records: seq<Followed>, held: seq<Followed>, i: nat)
    requires i < |records| && !Names(held, records[i].from)
    ensures exists j | 0 <= j < |Retain(records, held)| :: Retain(records, held)[j] == records[i]
  {
    hide Names;
    var r := Retain(records, held);
    if i == 0 {
      assert r[0] == records[0];
    } else {
      RetainKeeps(records[1..], held, i - 1);
      var j :| 0 <= j < |Retain(records[1..], held)| && Retain(records[1..], held)[j] == records[1..][i - 1];
      if Names(held, records[0].from) {
        assert r[j] == records[i];
      } else {
        assert r[j + 1] == records[i];
      }
    }
  }

  lemma RecordedMore(records: seq<Followed>, more: seq<Followed>, s: Served)
    requires Recorded(records, s)
    ensures Recorded(records + more, s)
  {
    var j :| 0 <= j < |records| && records[j].from == s.handover.value.from && records[j].sha256 == s.sha256;
    assert (records + more)[j] == records[j];
  }

  lemma RetainRecords(held: seq<Followed>, s: seq<Served>, i: nat)
    requires AllParsed(s) && i < |s| && forall j | 0 <= j < |held| :: !Contradicts(held[j], s[i])
    ensures Recorded(held + Retain(Records(s), held), s[i])
  {
    hide Retain, Parsed;
    var r := Records(s);
    var more := Retain(r, held);
    if Names(held, r[i].from) {
      var j :| 0 <= j < |held| && held[j].from == r[i].from;
      assert !Contradicts(held[j], s[i]);
      RecordedMore(held, more, s[i]);
    } else {
      RetainKeeps(r, held, i);
      var j :| 0 <= j < |more| && more[j] == r[i];
      assert (held + more)[|held| + j] == r[i];
    }
  }

  lemma StepRecorded(w: Checks, c: Client, e: Event, i: nat)
    requires e.Fetched? && c.dismissed == {} && i < |FollowedAt(w, c, e)|
    ensures Recorded(Apply(w, c, e).followed, FollowedAt(w, c, e)[i])
  {
    hide Linked, Timely, Commit, Handovers.Check, Walked, Retain, AllBefore, Recorded, Contradicts, Heirs, Parsed,
         Distinct;
    FollowMeans(w, c, e.chain, e.challenge, e.now);
    RetainRecords(c.followed, Walked(w, c, e.chain), i);
  }

  /** The records only grow. */
  lemma {:induction false} RecordsGrow(w: Checks, c: Client, events: seq<Event>)
    ensures var r := Final(w, c, events).followed;
            |c.followed| <= |r| && r[..|c.followed|] == c.followed
    decreases events
  {
    hide Handovers.Check, Repin;
    if events != [] {
      RecordsGrow(w, Apply(w, c, events[0]), events[1..]);
    }
  }

  lemma {:induction false} RunRecorded(w: Checks, c: Client, events: seq<Event>, i: nat)
    requires OnlyFetches(events) && c.dismissed == {} && i < |History(w, c, events)|
    ensures Recorded(Final(w, c, events).followed, History(w, c, events)[i])
    decreases events
  {
    hide Handovers.Check, FollowedAt, Recorded, Apply;
    var d := Apply(w, c, events[0]);
    var s := FollowedAt(w, c, events[0]);
    StillNone(w, c, events[0]);
    if i < |s| {
      StepRecorded(w, c, events[0], i);
      RecordsGrow(w, d, events[1..]);
      var r := Final(w, d, events[1..]).followed;
      RecordedMore(d.followed, r[|d.followed|..], s[i]);
      assert r == d.followed + r[|d.followed|..];
    } else {
      RunRecorded(w, d, events[1..], i - |s|);
    }
  }

  lemma StillNone(w: Checks, c: Client, e: Event)
    requires e.Fetched?
    ensures Apply(w, c, e).dismissed == c.dismissed
  {
    hide Handovers.Check;
  }

  /** With no fork dismissed, no key is handed over in silence by two different
      handovers: one followed has the hash of any other from its key, whether that was
      followed too, recorded on the way or recorded before. */
  lemma OneHeir(w: Checks, c: Client, events: seq<Event>, i: nat)
    requires InOrder(c.followed) && OnlyFetches(events) && c.dismissed == {} && i < |History(w, c, events)|
    ensures var h, r := History(w, c, events), Final(w, c, events).followed;
            && h[i].handover.Ok?
            && (forall j | 0 <= j < |h| :: SameHeir(h[i], h[j]))
            && (forall x | 0 <= x < |r| :: !Contradicts(r[x], h[i]))
            && (forall x | 0 <= x < |c.followed| :: !Contradicts(c.followed[x], h[i]))
  {
    hide History, Final;
    var h, r := History(w, c, events), Final(w, c, events).followed;
    RunInOrder(w, c, events);
    RunRecorded(w, c, events, i);
    RecordsGrow(w, c, events);
    forall x | 0 <= x < |c.followed| ensures c.followed[x] == r[x] {
      assert r[..|c.followed|][x] == r[x];
    }
    forall j | 0 <= j < |h| ensures SameHeir(h[i], h[j]) {
      RunRecorded(w, c, events, j);
    }
  }

  predicate SameHeir(a: Served, b: Served) {
    a.handover.Ok? && b.handover.Ok? && a.handover.value.from == b.handover.value.from ==> a.sha256 == b.sha256
  }

  /** Among what a run recorded and followed, the hash tells handovers apart. */
  predicate Faithful(records: seq<Followed>, s: seq<Served>) {
    forall i, j | 0 <= i < |records| && 0 <= j < |s| ::
      records[i].sha256 == s[j].sha256 ==>
        s[j].handover.Ok? && records[i] == Record(s[j].handover.value, s[j].sha256)
  }

  lemma {:induction false} RetainAll(records: seq<Followed>, held: seq<Followed>)
    requires forall i | 0 <= i < |records| :: !Names(held, records[i].from)
    ensures Retain(records, held) == records
  {
    hide Names;
    if records != [] {
      RetainAll(records[1..], held);
    }
  }

  lemma StepRecords(w: Checks, c: Client, e: Event)
    requires e.Fetched? && c.dismissed == {} && Faithful(c.followed, FollowedAt(w, c, e))
    ensures AllParsed(FollowedAt(w, c, e)) && Apply(w, c, e).followed == c.followed + Records(FollowedAt(w, c, e))
  {
    hide Timely, Commit, Handovers.Check, Walked, Linked;
    if Handovers.Check(w, c, e.chain, e.challenge, e.now).Follow? {
      FollowMeans(w, c, e.chain, e.challenge, e.now);
      var s := Walked(w, c, e.chain);
      var r := Records(s);
      FirstTime(w, s);
      forall i | 0 <= i < |r| ensures !Names(c.followed, r[i].from) {
        assert r[i] in r;
        forall j | 0 <= j < |c.followed| ensures c.followed[j].from != r[i].from {
          assert !Contradicts(c.followed[j], s[i]) && c.followed[j].time < Parsed(s)[0].time;
        }
      }
      RetainAll(r, c.followed);
    } else {
      assert c.followed + [] == c.followed;
    }
  }

  lemma FaithfulParts(records: seq<Followed>, held: nat, s: seq<Served>, t: seq<Served>)
    requires Faithful(records, s + t) && held <= |records|
    ensures Faithful(records[..held], s) && Faithful(records, t)
  {
    forall i, j | 0 <= i < held && 0 <= j < |s|
      ensures records[..held][i].sha256 == s[j].sha256 ==>
                s[j].handover.Ok? && records[..held][i] == Record(s[j].handover.value, s[j].sha256)
    {
      assert (s + t)[j] == s[j] && records[..held][i] == records[i];
    }
    forall i, j | 0 <= i < |records| && 0 <= j < |t|
      ensures records[i].sha256 == t[j].sha256 ==>
                t[j].handover.Ok? && records[i] == Record(t[j].handover.value, t[j].sha256)
    {
      assert (s + t)[|s| + j] == t[j];
    }
  }

  /** And unless two handovers share a hash, the records are the history: no key
      is handed over twice, and its times ascend throughout. */
  lemma {:induction false} RecordsAreHistory(w: Checks, c: Client, events: seq<Event>)
    requires InOrder(c.followed) && OnlyFetches(events) && c.dismissed == {}
    requires Faithful(Final(w, c, events).followed, History(w, c, events))
    ensures AllParsed(History(w, c, events))
    ensures Final(w, c, events).followed == c.followed + Records(History(w, c, events))
    ensures InOrder(Final(w, c, events).followed)
    decreases events
  {
    hide Apply, FollowedAt, Faithful, InOrder, Parsed, Records, AllParsed, History, Final;
    RunInOrder(w, c, events);
    if events == [] {
      NoHistory(w, c);
    } else {
      var e, rest := events[0], events[1..];
      var d := Apply(w, c, e);
      var s, t := FollowedAt(w, c, e), History(w, d, rest);
      HistoryStep(w, c, events);
      RecordsGrow(w, c, events);
      FaithfulParts(Final(w, c, events).followed, |c.followed|, s, t);
      StepRecords(w, c, e);
      StillNone(w, c, e);
      StepInOrder(w, c, e);
      RecordsAreHistory(w, d, rest);
      ParsedAppend(s, t);
      assert c.followed + (Records(s) + Records(t)) == c.followed + Records(s) + Records(t);
    }
  }

  lemma NoHistory(w: Checks, c: Client)
    ensures History(w, c, []) == [] && Final(w, c, []) == c && AllParsed([]) && c.followed + Records([]) == c.followed
  {
  }

  lemma HistoryStep(w: Checks, c: Client, events: seq<Event>)
    requires events != []
    ensures var d := Apply(w, c, events[0]);
            && History(w, c, events) == FollowedAt(w, c, events[0]) + History(w, d, events[1..])
            && Final(w, c, events) == Final(w, d, events[1..])
  {
    hide Apply, FollowedAt;
  }

  lemma StepInOrder(w: Checks, c: Client, e: Event)
    requires InOrder(c.followed)
    ensures InOrder(Apply(w, c, e).followed)
  {
    hide Apply, InOrder;
    assert Final(w, Apply(w, c, e), []) == Apply(w, c, e);
    assert Final(w, c, [e]) == Final(w, Apply(w, c, e), [e][1..]) && [e][1..] == [];
    RunInOrder(w, c, [e]);
  }
}
