/** Handovers of a server's key as a client follows them: parsing one, walking a
    chain of them, and the verdict on a fetch given what the client has pinned. */
module Handovers {
  import opened Bytes
  import opened Cbor
  import opened Maps
  import opened Signed
  import opened Messages

  const MAX_CHAIN: nat := 16

  /** `from` hands over to `to`, which commits to the key after it in `next`. */
  datatype Handover = Handover(from: Bytes32, to: Bytes32, next: Option<Bytes32>, time: U64)

  /** The record of a handover followed, or taken at a first pin. */
  datatype Followed = Followed(from: Bytes32, sha256: Bytes32, time: U64, next: Option<Bytes32>)

  /** A hash, and why a key's signature over a handover's bytes does not verify. */
  datatype Checks = Checks(sha256: Buf -> Bytes32, verifies: (Bytes32, Buf, Buf) -> Option<Error>)

  /** What the server's own challenge says, once it has been checked. */
  datatype Challenge = Challenge(serverKey: Bytes32, next: Option<Bytes32>)

  datatype Client = Client(key: Bytes32, commitment: Option<Bytes32>, followed: seq<Followed>,
                           dismissed: set<Bytes32>)

  datatype Broken = TooLong | NotServed | Commitment | BadHandover(error: Error) | Link | Time | RepeatedKey
                  | ServerKey | Next

  datatype Warning = Fork(sha256: Bytes32) | Recommitted | Chain(broken: Broken)

  datatype Verdict =
    | Keep
    | Follow(key: Bytes32, commitment: Option<Bytes32>, followed: seq<Followed>)
    | Warn(warning: Warning)

  datatype Served = Served(handover: Result<Handover, Error>, sha256: Bytes32)

  function ParseHandover(w: Checks, bytes: Buf): (r: Result<Handover, Error>)
    ensures r.Ok? ==> r.value.from != r.value.to
  {
    var env :- OpenUpto(bytes, VERSION);
    var from :- BytesOf(env.value, "old", 32);
    var to :- BytesOf(env.value, "new", 32);
    var next :- OptBytes32(env.value, "next");
    var time :- UintField(env.value, "time");
    var _ :- Signed.Check(to != from, BadField("new"));
    var _ :- Unless(w.verifies(from, env.signedBytes, env.sig));
    Ok(Handover(from, to, next, time))
  }

  /** `v` holds a signature the key made over the rest of it. */
  ghost predicate SignedBy(w: Checks, v: Value, key: Bytes32) {
    exists sig: Buf ::
      && |sig| == SIG_BYTES && Get(v, Name("sig")) == Some(Blob(sig))
      && w.verifies(key, Encode(Without(v, Name("sig"))), sig).None?
  }

  ghost predicate HasHandover(v: Value, h: Handover) {
    && v.Map? && Get(v, Name("v")) == Some(Uint(VERSION))
    && Get(v, Name("old")) == Some(Blob(h.from)) && Get(v, Name("new")) == Some(Blob(h.to))
    && Get(v, Name("next")) == (if h.next.Some? then Some(Blob(h.next.value)) else None)
    && Get(v, Name("time")) == Some(Uint(h.time))
  }

  /** The bytes are a handover, signed by the key that hands over. */
  ghost predicate HandsOver(w: Checks, bytes: Buf, h: Handover) {
    && DecodeCanonical(bytes).Ok? && HasHandover(DecodeCanonical(bytes).value, h)
    && h.from != h.to && SignedBy(w, DecodeCanonical(bytes).value, h.from)
  }

  lemma HandoverIff(w: Checks, bytes: Buf, h: Handover)
    ensures ParseHandover(w, bytes) == Ok(h) <==> HandsOver(w, bytes, h)
  {
    hide DecodeCanonical, Get, Name, Encode, Without;
    SigIs();
  }

  lemma SigIs()
    ensures Name("sig") == SIG
  {
    hide Name;
  }

  function ServeOne(w: Checks, bytes: Buf): Served {
    Served(ParseHandover(w, bytes), w.sha256(bytes))
  }

  function ServeAll(w: Checks, chain: seq<Buf>): (r: seq<Served>)
    ensures |r| == |chain|
  {
    seq(|chain|, i requires 0 <= i < |chain| => ServeOne(w, chain[i]))
  }

  /** Nothing for a list longer than a client verifies. */
  function Serve(w: Checks, chain: seq<Buf>): Option<seq<Served>> {
    if |chain| > MAX_CHAIN then None else Some(ServeAll(w, chain))
  }

  function ValueOr<T>(o: Option<T>, otherwise: T): T {
    if o.Some? then o.value else otherwise
  }

  /** The record contradicts a handover served under this hash. */
  predicate Contradicts(f: Followed, s: Served) {
    s.handover.Ok? && f.from == s.handover.value.from && f.sha256 != s.sha256
  }

  function Forks(served: seq<Served>, followed: seq<Followed>, dismissed: set<Bytes32>): (r: Option<Warning>)
    ensures r.None? <==> forall i, j | 0 <= i < |served| && 0 <= j < |followed| ::
              Contradicts(followed[j], served[i]) ==> served[i].sha256 in dismissed
  {
    if served == [] then None
    else if served[0].sha256 !in dismissed && exists j | 0 <= j < |followed| :: Contradicts(followed[j], served[0])
    then Some(Fork(served[0].sha256))
    else
      assert forall i | 0 <= i < |served| - 1 :: served[1..][i] == served[i + 1];
      Forks(served[1..], followed, dismissed)
  }

  function Commit(w: Checks, key: Bytes32): Bytes32 {
    w.sha256(key)
  }

  // Walking a chain.

  function Record(h: Handover, sha256: Bytes32): Followed {
    Followed(h.from, sha256, h.time, h.next)
  }

  /** The checks a handover passes after `prev`, or at the start, in their order. */
  function Refusal(w: Checks, h: Handover, keys: seq<Bytes32>, prev: Option<Handover>, now: U64): Option<Broken> {
    var seen := if prev.None? then keys + [h.from] else keys;
    if prev.Some? && (h.from != prev.value.to || prev.value.next != Some(Commit(w, h.to))) then Some(Link)
    else if prev.Some? && h.time <= prev.value.time then Some(Time)
    else if h.time > Saturating(now + SKEW) then Some(Time)
    else if h.to in seen then Some(RepeatedKey)
    else None
  }

  /** A handover breaks the link to the one before by its keys or its commitment; is
      out of time if not later than it or later than the clock allows; and repeats a
      key if it hands over to one that has been named. */
  lemma RefusalIff(w: Checks, h: Handover, keys: seq<Bytes32>, prev: Option<Handover>, now: U64)
    ensures var r := Refusal(w, h, keys, prev, now);
            var linked := prev.Some? ==> h.from == prev.value.to && prev.value.next == Some(w.sha256(h.to));
            var timely := h.time <= now + SKEW && (prev.Some? ==> h.time > prev.value.time);
            && (r == Some(Link) <==> !linked) && (r == Some(Time) <==> linked && !timely)
            && (r == Some(RepeatedKey) <==> linked && timely && (h.to in keys || (prev.None? && h.to == h.from)))
  {
  }

  function Seen(h: Handover, keys: seq<Bytes32>, prev: Option<Handover>): seq<Bytes32> {
    (if prev.None? then keys + [h.from] else keys) + [h.to]
  }

  /** How the walk ends: the last handover is to the key that answered. */
  function Ended(prev: Option<Handover>, challenge: Challenge): Option<Broken> {
    if prev.Some? && prev.value.to != challenge.serverKey then Some(ServerKey)
    else if prev.Some? && prev.value.next != challenge.next then Some(Next)
    else None
  }

  /** The rest of a walk: `keys` and `prev` as they stand after the handovers before. */
  function WalkRest(w: Checks, chain: seq<Served>, keys: seq<Bytes32>, prev: Option<Handover>, challenge: Challenge,
                    now: U64): Result<seq<Followed>, Broken>
    decreases chain
  {
    if chain == [] then
      match Ended(prev, challenge)
      case Some(b) => Err(b)
      case None => Ok([])
    else
      match chain[0].handover
      case Err(e) => Err(BadHandover(e))
      case Ok(h) =>
        match Refusal(w, h, keys, prev, now)
        case Some(b) => Err(b)
        case None =>
          match WalkRest(w, chain[1..], Seen(h, keys, prev), Some(h), challenge, now)
          case Err(b) => Err(b)
          case Ok(more) => Ok([Record(h, chain[0].sha256)] + more)
  }

  function After(followed: seq<Followed>, more: Result<seq<Followed>, Broken>): Result<seq<Followed>, Broken> {
    match more
    case Err(b) => Err(b)
    case Ok(more) => Ok(followed + more)
  }

  method Walk(w: Checks, chain: seq<Served>, challenge: Challenge, now: U64)
    returns (r: Result<seq<Followed>, Broken>)
    ensures r == WalkRest(w, chain, [], None, challenge, now)
  {
    var keys: seq<Bytes32> := [];
    var prev: Option<Handover> := None;
    var followed: seq<Followed> := [];
    assert chain[0..] == chain;
    WalkStart(w, chain, challenge, now);
    for i := 0 to |chain|
      invariant WalkRest(w, chain, [], None, challenge, now) ==
                After(followed, WalkRest(w, chain[i..], keys, prev, challenge, now))
    {
      WalkNext(w, chain, i, followed, keys, prev, challenge, now);
      if chain[i].handover.Err? {
        return Err(BadHandover(chain[i].handover.error));
      }
      var h := chain[i].handover.value;
      if prev.Some? {
        if h.from != prev.value.to || prev.value.next != Some(Commit(w, h.to)) {
          return Err(Link);
        }
        if h.time <= prev.value.time {
          return Err(Time);
        }
      } else {
        keys := keys + [h.from];
      }
      if h.time > Saturating(now + SKEW) {
        return Err(Time);
      }
      if h.to in keys {
        return Err(RepeatedKey);
      }
      keys := keys + [h.to];
      followed := followed + [Record(h, chain[i].sha256)];
      prev := Some(h);
    }
    assert chain[|chain|..] == [];
    if prev.Some? {
      if prev.value.to != challenge.serverKey {
        return Err(ServerKey);
      }
      if prev.value.next != challenge.next {
        return Err(Next);
      }
    }
    assert followed + [] == followed;
    r := Ok(followed);
  }

  lemma WalkStart(w: Checks, chain: seq<Served>, challenge: Challenge, now: U64)
    ensures var r := WalkRest(w, chain, [], None, challenge, now); After([], r) == r
  {
    hide WalkRest;
    var r := WalkRest(w, chain, [], None, challenge, now);
    if r.Ok? {
      assert [] + r.value == r.value;
    }
  }

  lemma WalkNext(w: Checks, chain: seq<Served>, i: nat, followed: seq<Followed>,
                                    keys: seq<Bytes32>, prev: Option<Handover>, challenge: Challenge, now: U64)
    requires i < |chain|
    ensures After(followed, WalkRest(w, chain[i..], keys, prev, challenge, now)) ==
            match chain[i].handover
            case Err(e) => Err(BadHandover(e))
            case Ok(h) =>
              match Refusal(w, h, keys, prev, now)
              case Some(b) => Err(b)
              case None =>
                After(followed + [Record(h, chain[i].sha256)],
                      WalkRest(w, chain[i + 1..], Seen(h, keys, prev), Some(h), challenge, now))
  {
    hide Refusal, Seen, Record;
    assert chain[i..][0] == chain[i] && chain[i..][1..] == chain[i + 1..];
    var s := chain[i];
    if s.handover.Ok? {
      var h := s.handover.value;
      var more := WalkRest(w, chain[i + 1..], Seen(h, keys, prev), Some(h), challenge, now);
      if more.Ok? {
        assert followed + ([Record(h, s.sha256)] + more.value) == followed + [Record(h, s.sha256)] + more.value;
      }
    }
  }

  // The client.

  function WalkAll(w: Checks, chain: seq<Served>, challenge: Challenge, now: U64): Result<seq<Followed>, Broken> {
    WalkRest(w, chain, [], None, challenge, now)
  }

  /** The records of a first pin: none if the chain fails. */
  function Pin(w: Checks, chain: seq<Buf>, challenge: Challenge, now: U64): seq<Followed> {
    match Serve(w, chain)
    case None => []
    case Some(served) =>
      match WalkAll(w, served, challenge, now)
      case Ok(followed) => followed
      case Err(_) => []
  }

  /** A first pin takes the records of a chain that walks, all of it, and none of one
      that does not or is too long. */
  lemma PinIs(w: Checks, chain: seq<Buf>, challenge: Challenge, now: U64)
    ensures var served := ServeAll(w, chain);
            Pin(w, chain, challenge, now) ==
            if |chain| <= MAX_CHAIN && Walks(w, served, challenge, now) && AllParsed(served) then Records(served)
            else []
  {
    hide WalkAll, Walks, ServeAll, Records, AllParsed;
    WalkIff(w, ServeAll(w, chain), challenge, now);
  }

  function Repin(w: Checks, chain: seq<Buf>, followed: seq<Followed>, dismissed: set<Bytes32>): Option<Warning> {
    Forks(ValueOr(Serve(w, chain), []), followed, dismissed)
  }

  predicate SameKey(remembered: Option<Bytes32>, seen: Option<Bytes32>) {
    remembered.None? || remembered == seen
  }

  /** The first served handover from `key`. */
  function FirstFrom(served: seq<Served>, key: Bytes32): (r: Option<nat>)
    ensures r.Some? ==> r.value < |served| && served[r.value].handover.Ok? && served[r.value].handover.value.from == key
    ensures r.Some? ==> forall i | 0 <= i < r.value ::
              served[i].handover.Ok? ==> served[i].handover.value.from != key
    ensures r.None? ==> forall i | 0 <= i < |served| ::
              served[i].handover.Ok? ==> served[i].handover.value.from != key
  {
    if served == [] then None
    else if served[0].handover.Ok? && served[0].handover.value.from == key then Some(0)
    else
      match FirstFrom(served[1..], key)
      case None =>
        assert forall i | 0 < i < |served| :: served[i] == served[1..][i - 1];
        None
      case Some(i) =>
        assert forall j | 0 < j < |served| :: served[j] == served[1..][j - 1];
        Some(i + 1)
  }

  /** The records whose `from` no record held already has. */
  function Retain(followed: seq<Followed>, held: seq<Followed>): (r: seq<Followed>)
    ensures forall i | 0 <= i < |r| :: r[i] in followed && !Names(held, r[i].from)
  {
    if followed == [] then []
    else if Names(held, followed[0].from) then Retain(followed[1..], held)
    else [followed[0]] + Retain(followed[1..], held)
  }

  predicate Names(held: seq<Followed>, key: Bytes32) {
    exists i | 0 <= i < |held| :: held[i].from == key
  }

  predicate AllBefore(held: seq<Followed>, time: U64) {
    forall i | 0 <= i < |held| :: held[i].time < time
  }

  function Followable(w: Checks, pinned: Client, served: Option<seq<Served>>, challenge: Challenge, now: U64)
    : Result<seq<Followed>, Broken>
  {
    match served
    case None => Err(TooLong)
    case Some(served) =>
      match FirstFrom(served, pinned.key)
      case None => Err(NotServed)
      case Some(i) =>
        var first := served[i].handover.value;
        if pinned.commitment != Some(Commit(w, first.to)) then Err(Commitment)
        else if !AllBefore(pinned.followed, first.time) then Err(Time)
        else
          match WalkAll(w, served[i..], challenge, now)
          case Err(b) => Err(b)
          case Ok(followed) => Ok(Retain(followed, pinned.followed))
  }

  function Check(w: Checks, pinned: Client, chain: seq<Buf>, challenge: Challenge, now: U64): Verdict {
    var served := Serve(w, chain);
    match Forks(ValueOr(served, []), pinned.followed, pinned.dismissed)
    case Some(warning) => Warn(warning)
    case None =>
      if challenge.serverKey == pinned.key then
        if SameKey(pinned.commitment, challenge.next) then Keep else Warn(Recommitted)
      else
        match Followable(w, pinned, served, challenge, now)
        case Err(b) => Warn(Chain(b))
        case Ok(followed) => Follow(challenge.serverKey, challenge.next, followed)
  }

  // What a chain a client follows looks like.

  /** Each handover follows the one before it. */
  predicate Linked(w: Checks, c: seq<Handover>) {
    forall i | 0 < i < |c| ::
      c[i].from == c[i - 1].to && c[i - 1].next == Some(Commit(w, c[i].to)) && c[i - 1].time < c[i].time
  }

  predicate Distinct<T(==)>(s: seq<T>) {
    forall i, j | 0 <= i < j < |s| :: s[i] != s[j]
  }

  function Heirs(c: seq<Handover>): (r: seq<Bytes32>)
    ensures |r| == |c| && forall i :: 0 <= i < |r| ==> r[i] == c[i].to
  {
    if c == [] then [] else [c[0].to] + Heirs(c[1..])
  }

  predicate AllParsed(chain: seq<Served>) {
    forall i | 0 <= i < |chain| :: chain[i].handover.Ok?
  }

  function Parsed(chain: seq<Served>): (r: seq<Handover>)
    requires AllParsed(chain)
    ensures |r| == |chain| && forall i :: 0 <= i < |r| ==> r[i] == chain[i].handover.value
  {
    if chain == [] then [] else [chain[0].handover.value] + Parsed(chain[1..])
  }

  function Records(chain: seq<Served>): (r: seq<Followed>)
    requires AllParsed(chain)
    ensures |r| == |chain| && forall i :: 0 <= i < |r| ==> r[i] == Record(chain[i].handover.value, chain[i].sha256)
  {
    if chain == [] then [] else [Record(chain[0].handover.value, chain[0].sha256)] + Records(chain[1..])
  }

  predicate Timely(c: seq<Handover>, now: U64) {
    forall i | 0 <= i < |c| :: c[i].time <= Saturating(now + SKEW)
  }

  /** A walk passes exactly the chains that parse, link, come in time, name every
      key once and end at the key that answered; it records each of them. */
  predicate Walks(w: Checks, chain: seq<Served>, challenge: Challenge, now: U64) {
    && AllParsed(chain)
    && var c := Parsed(chain);
       && Linked(w, c) && Timely(c, now)
       && (c != [] ==>
           && Distinct([c[0].from] + Heirs(c))
           && c[|c| - 1].to == challenge.serverKey && c[|c| - 1].next == challenge.next)
  }

  /** What `Walks` asks of the rest of a chain. */
  predicate RestWalks(w: Checks, chain: seq<Served>, keys: seq<Bytes32>, prev: Handover, challenge: Challenge,
                      now: U64)
  {
    && AllParsed(chain)
    && var c := [prev] + Parsed(chain);
       && Linked(w, c) && Timely(c[1..], now) && Distinct(keys + Heirs(c[1..]))
       && c[|c| - 1].to == challenge.serverKey && c[|c| - 1].next == challenge.next
  }

  lemma {:induction false} WalkRestIff(w: Checks, chain: seq<Served>, keys: seq<Bytes32>, prev: Handover,
                                       challenge: Challenge, now: U64)
    requires Distinct(keys)
    ensures var r := WalkRest(w, chain, keys, Some(prev), challenge, now);
            && (r.Ok? <==> RestWalks(w, chain, keys, prev, challenge, now))
            && (r.Ok? ==> r.value == Records(chain))
    decreases chain
  {
    hide Commit, Saturating, Linked, Distinct, Timely, RestWalks;
    if chain == [] {
      RestNone(w, keys, prev, challenge, now);
    } else if chain[0].handover.Ok? {
      var h := chain[0].handover.value;
      RestStep(w, chain, keys, prev, challenge, now);
      if Refusal(w, h, keys, Some(prev), now).None? {
        DistinctAppend(keys, h.to);
        WalkRestIff(w, chain[1..], keys + [h.to], h, challenge, now);
      }
    } else {
      RestParsed(w, chain, keys, prev, challenge, now);
    }
  }

  lemma RestParsed(w: Checks, chain: seq<Served>, keys: seq<Bytes32>, prev: Handover,
                                      challenge: Challenge, now: U64)
    ensures RestWalks(w, chain, keys, prev, challenge, now) ==> AllParsed(chain)
  {
    hide Linked, Timely, Distinct;
  }

  lemma RestNone(w: Checks, keys: seq<Bytes32>, prev: Handover, challenge: Challenge, now: U64)
    requires Distinct(keys)
    ensures RestWalks(w, [], keys, prev, challenge, now) <==>
            prev.to == challenge.serverKey && prev.next == challenge.next
  {
    var c := [prev] + Parsed([]);
    assert c == [prev] && keys + Heirs(c[1..]) == keys;
  }

  lemma DistinctAppend(keys: seq<Bytes32>, k: Bytes32)
    ensures Distinct(keys + [k]) <==> Distinct(keys) && k !in keys
  {
    var s := keys + [k];
    if Distinct(s) {
      forall i, j | 0 <= i < j < |keys| ensures keys[i] != keys[j] {
        assert s[i] != s[j];
      }
      forall i | 0 <= i < |keys| ensures keys[i] != k {
        assert s[i] != s[|keys|];
      }
    }
  }

  lemma DistinctParts<T>(s: seq<T>, t: seq<T>)
    requires Distinct(s + t)
    ensures Distinct(s) && Distinct(t)
  {
    forall i, j | 0 <= i < j < |s| ensures s[i] != s[j] {
      assert (s + t)[i] != (s + t)[j];
    }
    forall i, j | 0 <= i < j < |t| ensures t[i] != t[j] {
      assert (s + t)[|s| + i] != (s + t)[|s| + j];
    }
  }

  lemma ParsedStep(chain: seq<Served>)
    requires chain != [] && chain[0].handover.Ok?
    ensures AllParsed(chain) <==> AllParsed(chain[1..])
    ensures AllParsed(chain) ==> Parsed(chain)[0] == chain[0].handover.value && Parsed(chain)[1..] == Parsed(chain[1..])
  {
    assert forall i | 0 < i < |chain| :: chain[i] == chain[1..][i - 1];
  }

  lemma DistinctStep(keys: seq<Bytes32>, c: seq<Handover>)
    requires c != [] && Distinct(keys)
    ensures Distinct(keys + Heirs(c)) <==> c[0].to !in keys && Distinct(keys + [c[0].to] + Heirs(c[1..]))
  {
    hide Distinct;
    assert keys + Heirs(c) == keys + [c[0].to] + Heirs(c[1..]);
    if Distinct(keys + Heirs(c)) {
      DistinctParts(keys + [c[0].to], Heirs(c[1..]));
    }
    DistinctAppend(keys, c[0].to);
  }

  lemma RestStep(w: Checks, chain: seq<Served>, keys: seq<Bytes32>, prev: Handover,
                                    challenge: Challenge, now: U64)
    requires chain != [] && chain[0].handover.Ok? && Distinct(keys)
    ensures var h := chain[0].handover.value;
            RestWalks(w, chain, keys, prev, challenge, now) <==>
            Refusal(w, h, keys, Some(prev), now).None? && RestWalks(w, chain[1..], keys + [h.to], h, challenge, now)
  {
    hide Commit, Saturating, Distinct, Linked, Timely, AllParsed, Parsed, Heirs;
    var h := chain[0].handover.value;
    ParsedStep(chain);
    if AllParsed(chain) {
      var c, rest := Parsed(chain), Parsed(chain[1..]);
      assert c == [h] + rest;
      LinkedStep(w, prev, c);
      TimelyStep(c, now);
      DistinctStep(keys, c);
      assert ([prev] + c)[1..] == c && ([h] + rest)[1..] == rest;
      assert ([prev] + c)[|c|] == ([h] + rest)[|rest|];
    }
  }

  lemma LinkedStep(w: Checks, prev: Handover, c: seq<Handover>)
    requires c != []
    ensures Linked(w, [prev] + c) <==>
            && c[0].from == prev.to && prev.next == Some(Commit(w, c[0].to)) && prev.time < c[0].time
            && Linked(w, c)
  {
    hide Commit;
    var d := [prev] + c;
    assert d[0] == prev && d[1] == c[0];
    if Linked(w, d) {
      forall i | 0 < i < |c|
        ensures c[i].from == c[i - 1].to && c[i - 1].next == Some(Commit(w, c[i].to)) && c[i - 1].time < c[i].time
      {
        assert d[i + 1] == c[i] && d[i + 1 - 1] == c[i - 1];
      }
    } else {
      var i :| 0 < i < |d| &&
               !(d[i].from == d[i - 1].to && d[i - 1].next == Some(Commit(w, d[i].to)) && d[i - 1].time < d[i].time);
      if i > 1 {
        assert d[i] == c[i - 1] && d[i - 1] == c[i - 1 - 1];
      }
    }
  }

  lemma TimelyStep(c: seq<Handover>, now: U64)
    requires c != []
    ensures Timely(c, now) <==> c[0].time <= Saturating(now + SKEW) && Timely(c[1..], now)
  {
    hide Saturating;
    assert forall i | 0 < i < |c| :: c[i] == c[1..][i - 1];
  }

  lemma WalkIff(w: Checks, chain: seq<Served>, challenge: Challenge, now: U64)
    ensures var r := WalkAll(w, chain, challenge, now);
            && (r.Ok? <==> Walks(w, chain, challenge, now))
            && (r.Ok? ==> AllParsed(chain) && r.value == Records(chain))
  {
    hide Commit, Saturating, Linked, Distinct, Timely;
    if chain == [] {
      StartNone(w, now);
    } else if chain[0].handover.Ok? {
      var h := chain[0].handover.value;
      StartStep(w, chain, challenge, now);
      StartKeys(h);
      if Refusal(w, h, [], None, now).None? {
        WalkRestIff(w, chain[1..], [h.from, h.to], h, challenge, now);
      }
    }
  }

  lemma StartNone(w: Checks, now: U64)
    ensures Linked(w, []) && Timely([], now)
  {
  }

  lemma StartKeys(h: Handover)
    ensures Distinct([h.from, h.to]) <==> h.from != h.to
    ensures [] + [h.from] + [h.to] == [h.from, h.to]
  {
    var s := [h.from, h.to];
    if Distinct(s) {
      assert s[0] != s[1];
    }
  }

  lemma StartStep(w: Checks, chain: seq<Served>, challenge: Challenge, now: U64)
    requires chain != [] && chain[0].handover.Ok?
    ensures var h := chain[0].handover.value;
            Walks(w, chain, challenge, now) <==>
            Refusal(w, h, [], None, now).None? && RestWalks(w, chain[1..], [h.from, h.to], h, challenge, now)
  {
    hide Commit, Saturating, Distinct, Linked, Timely, AllParsed, Parsed, Heirs;
    var h := chain[0].handover.value;
    ParsedStep(chain);
    StartKeys(h);
    if AllParsed(chain) {
      var c, rest := Parsed(chain), Parsed(chain[1..]);
      assert c == [h] + rest;
      TimelyStep(c, now);
      assert ([h] + rest)[1..] == rest && c[|c| - 1] == ([h] + rest)[|rest|];
      OneDistinct(h.from);
      DistinctStep([h.from], c);
      assert [h.from] + [h.to] == [h.from, h.to];
    }
  }

  lemma OneDistinct(k: Bytes32)
    ensures Distinct([k])
  {
  }
}
