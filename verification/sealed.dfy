/** Opening a sealed private message against the reader's clock and the memory of
    what a device has accepted. HPKE's opening comes as a function. */
module SealedMessages {
  import opened Bytes
  import opened Cbor
  import opened Signed
  import opened Messages
  import opened Padding

  const SIGNED_BOX: Byte := 1
  const DENIABLE_BOX: Byte := 2
  const OVERHEAD: nat := 1 + 32 + 16
  const HOLD: U64 := 24 * 3600

  /** How the sender is shown: by a fingerprint, with none, or as the certificate
      says. */
  datatype Sender = Named(fingerprint: Bytes32) | Unknown | Certificate

  datatype Opening = Opening(now: U64, at: U64, reader: Bytes32, sender: Sender)

  /** What opens a ciphertext: the box's form, the sender's key of a deniable one,
      the encapsulated key and the ciphertext. */
  type Unseal = (Byte, Option<Buf>, Buf, Buf) -> Option<Buf>

  datatype Opened =
    | Verified(message: Message, cert: DeviceCert, whole: Value, sentApart: bool)
    | Deniable(message: Message, cert: DeviceCert, sentApart: bool)
    | Unverified(message: Message, signer: Bytes32, mapBytes: Option<Buf>)
    | Invalid(message: Message, error: Error)
    | Dropped(error: Error)
    | Unopened(error: Error)

  /** Who signed it, and the id they gave it. */
  datatype Seen = Seen(signer: Bytes32, id: Bytes16)

  predicate IsBoxSize(len: nat) {
    exists i :: 0 <= i < |PAD_SIZES| && PAD_SIZES[i] + OVERHEAD == len
  }

  function CheckLen(form: Byte, len: nat): Result<(), Error> {
    if form != SIGNED_BOX && form != DENIABLE_BOX then Err(UnsupportedVersion(form))
    else if !IsBoxSize(len) then Err(BadField("padding"))
    else Ok(())
  }

  function Split32(bytes: Buf): Result<(Buf, Buf), Error> {
    if |bytes| < 32 then Err(OpenFailed) else Ok((bytes[..32], bytes[32..]))
  }

  /** Step 1. */
  function Unbox(unseal: Unseal, sealed: Buf): (r: Result<(Buf, Option<Buf>), Error>) {
    if sealed == [] then Err(OpenFailed) else
      var form := sealed[0];
      var _ :- CheckLen(form, |sealed|);
      var (pkS, rest) :-
        if form == SIGNED_BOX then Ok((None, sealed[1..])) else
          var (pk, rest) :- Split32(sealed[1..]);
          Ok((Some(pk), rest));
      var (enc, ct) :- Split32(rest);
      match unseal(form, pkS, enc, ct)
      case None => Err(OpenFailed)
      case Some(padded) => Ok((padded, pkS))
  }

  /** Step 2. */
  function ReadMap(padded: Buf, deniable: bool, reader: Bytes32): (r: Result<(Message, Option<Envelope>), Error>)
    ensures r.Ok? ==> r.value.0.PrivateMessage?
  {
    hide Unpad, PrivateFrom, FromValueUpto, Decoded;
    var bytes :- Unpad(padded, deniable);
    var value :- Decoded(bytes);
    var (message, env) :- ReadPlain(value, deniable);
    if message.to != reader then Err(BadField("to")) else Ok((message, env))
  }

  function ReadPlain(value: Value, deniable: bool): (r: Result<(Message, Option<Envelope>), Error>)
    ensures r.Ok? ==> r.value.0.PrivateMessage?
  {
    hide Get, FromValueUpto, PrivateFrom;
    if deniable then
      if !value.Map? then Err(NotAMap) else
        var _ :- Signed.Check(Get(value, SIG).None?, BadField("sig"));
        var v :- UintField(value, "v");
        var _ :- Signed.Check(v == VERSION, UnsupportedVersion(v));
        var message :- PrivateFrom(value, false);
        Ok((message, None))
    else
      var env :- FromValueUpto(value, VERSION);
      var message :- PrivateFrom(env.value, false);
      Ok((message, Some(env)))
  }

  /** Step 3: no earlier than can be held before the latest time known, no later
      than the clock allows. */
  function Fresh(sent: U64, now: U64, latest: U64): Result<(), Error> {
    var newest := if now < latest then latest else now;
    var earliest := if newest < HOLD then 0 else newest - HOLD;
    if sent < earliest || sent > Saturating(now + SKEW) then Err(ClockSkew) else Ok(())
  }

  /** Steps 5 and 6. */
  function VerifyBox(w: World, message: Message, env: Option<Envelope>, pkS: Option<Buf>, ctx: Opening)
    : Result<DeviceCert, Error>
  {
    var cert :- CheckCert(w, message.cert, message.sent, ctx.at);
    var _ :- Unless(CheckWindow(cert.issued, cert.expires, ctx.now, SKEW));
    var shownAsAnother := ctx.sender.Named? && ctx.sender.fingerprint != w.sha256(cert.identity);
    var _ :- Signed.Check(!shownAsAnother && (pkS.Some? ==> pkS.value == cert.deviceEnc), KeyMismatch);
    var _ :- if env.Some? then Unless(w.verifies(cert.device, Private, env.value.signedBytes, env.value.sig))
             else Ok(());
    Ok(cert)
  }

  /** How long an accepted message is remembered. */
  function Until(sent: U64): U64 {
    Saturating(sent + HOLD + SKEW)
  }

  predicate Apart(sent: U64, at: U64) {
    sent > at + SKEW || at > sent + SKEW
  }

  /** A device's memory: the latest time its clock has shown, and until when each
      accepted message is remembered. */
  datatype Memory = Memory(latest: U64, accepted: map<Seen, U64>)

  function Max(a: U64, b: U64): U64 {
    if a < b then b else a
  }

  /** What a box is opened as, and what that leaves in the memory. */
  function Opens(w: World, unseal: Unseal, sealed: Buf, ctx: Opening, m: Memory): (Opened, Memory) {
    match ReadBox(unseal, sealed, ctx.reader)
    case Err(e) => (Unopened(e), m)
    case Ok((message, env, pkS)) =>
      var m := m.(latest := Max(m.latest, ctx.now));
      var freshness := Fresh(message.sent, ctx.now, m.latest);
      if freshness.Err? then (Dropped(freshness.error), m)
      else if Claimed(w, message, m.accepted) then (Dropped(Replayed), m)
      else
        var cert := VerifyBox(w, message, env, pkS, ctx);
        if cert.Err? then (Invalid(message, cert.error), m) else
          var signer := w.sha256(cert.value.identity);
          if ctx.sender.Unknown? then
            (Unverified(message, signer, if env.Some? then Some(Encode(env.value.value)) else None), m)
          else if Seen(signer, message.id) in m.accepted then (Dropped(Replayed), m)
          else
            (Shown(message, env, cert.value, ctx.at),
             m.(accepted := m.accepted[Seen(signer, message.id) := Until(message.sent)]))
  }

  function ReadBox(unseal: Unseal, sealed: Buf, reader: Bytes32)
    : (r: Result<(Message, Option<Envelope>, Option<Buf>), Error>)
    ensures r.Ok? ==> r.value.0.PrivateMessage?
  {
    hide ReadMap, Unbox;
    var (padded, pkS) :- Unbox(unseal, sealed);
    var (message, env) :- ReadMap(padded, pkS.Some?, reader);
    Ok((message, env, pkS))
  }

  /** The certificate reads, and its message was accepted before. */
  predicate Claimed(w: World, message: Message, accepted: map<Seen, U64>) {
    var cert := w.readCert(message.cert);
    cert.Ok? && Seen(w.sha256(cert.value.identity), message.id) in accepted
  }

  function Shown(message: Message, env: Option<Envelope>, cert: DeviceCert, at: U64): Opened {
    if env.Some? then Verified(message, cert, env.value.value, Apart(message.sent, at))
    else Deniable(message, cert, Apart(message.sent, at))
  }

  class Replay {
    var latest: U64
    var accepted: map<Seen, U64>

    constructor ()
      ensures View() == Memory(0, map[])
    {
      latest, accepted := 0, map[];
    }

    function View(): Memory
      reads this
    {
      Memory(latest, accepted)
    }

    method Latest(now: U64) returns (r: U64)
      modifies this`latest
      ensures latest == Max(old(latest), now) && r == latest
    {
      if latest < now {
        latest := now;
      }
      r := latest;
    }

    /** Inserts if absent. */
    method Accept(signer: Bytes32, id: Bytes16, until: U64) returns (r: bool)
      modifies this`accepted
      ensures r <==> Seen(signer, id) !in old(accepted)
      ensures accepted == if r then old(accepted)[Seen(signer, id) := until] else old(accepted)
    {
      if Seen(signer, id) in accepted {
        return false;
      }
      accepted := accepted[Seen(signer, id) := until];
      r := true;
    }

    /** Forgets some of what the latest time is past. */
    method Prune(keys: set<Seen>)
      requires Prunable(View(), keys)
      modifies this`accepted
      ensures View() == Pruned(old(View()), keys)
    {
      accepted := accepted - keys;
    }

    method Open(w: World, unseal: Unseal, sealed: Buf, ctx: Opening) returns (r: Opened)
      modifies this
      ensures (r, View()) == Opens(w, unseal, sealed, ctx, old(View()))
    {
      hide ReadBox, Fresh, VerifyBox, Claimed;
      var read := ReadBox(unseal, sealed, ctx.reader);
      if read.Err? {
        return Unopened(read.error);
      }
      var (message, env, pkS) := read.value;
      var newest := Latest(ctx.now);
      var freshness := Fresh(message.sent, ctx.now, newest);
      if freshness.Err? {
        return Dropped(freshness.error);
      }
      if Claimed(w, message, accepted) {
        return Dropped(Replayed);
      }
      var cert := VerifyBox(w, message, env, pkS, ctx);
      if cert.Err? {
        return Invalid(message, cert.error);
      }
      var signer := w.sha256(cert.value.identity);
      if ctx.sender.Unknown? {
        return Unverified(message, signer, if env.Some? then Some(Encode(env.value.value)) else None);
      }
      var first := Accept(signer, message.id, Until(message.sent));
      if !first {
        return Dropped(Replayed);
      }
      r := Shown(message, env, cert.value, ctx.at);
    }
  }

  predicate Prunable(m: Memory, keys: set<Seen>) {
    forall k | k in keys && k in m.accepted :: m.accepted[k] < m.latest
  }

  function Pruned(m: Memory, keys: set<Seen>): Memory {
    m.(accepted := m.accepted - keys)
  }

  // At most once.

  /** A message shown as its signer's, or as deniably theirs. */
  datatype Show = Show(seen: Seen, sent: U64)

  predicate IsShown(o: Opened) {
    o.Verified? || o.Deniable?
  }

  function ShowOf(w: World, o: Opened): Show
    requires IsShown(o) && o.message.PrivateMessage?
  {
    Show(Seen(w.sha256(o.cert.identity), o.message.id), o.message.sent)
  }

  /** The instructions opening comes down to, on a memory several sessions share:
      the clock read, an acceptance, and pruning. */
  datatype Step = Clock(now: U64) | Accept(show: Show) | Prune(keys: set<Seen>)

  datatype Log = Log(memory: Memory, shown: seq<Show>)

  /** An acceptance in time: the memory has not yet passed the point to which the
      message would be remembered. */
  predicate InTime(m: Memory, step: Step) {
    match step
    case Clock(_) => true
    case Accept(show) => m.latest <= Until(show.sent)
    case Prune(keys) => Prunable(m, keys)
  }

  function Do(l: Log, step: Step): Log {
    match step
    case Clock(now) => l.(memory := l.memory.(latest := Max(l.memory.latest, now)))
    case Accept(show) =>
      if show.seen in l.memory.accepted then l
      else Log(l.memory.(accepted := l.memory.accepted[show.seen := Until(show.sent)]), l.shown + [show])
    case Prune(keys) => l.(memory := Pruned(l.memory, keys))
  }

  function DoAll(l: Log, steps: seq<Step>): Log
    decreases steps
  {
    if steps == [] then l else DoAll(Do(l, steps[0]), steps[1..])
  }

  predicate AllInTime(l: Log, steps: seq<Step>)
    decreases steps
  {
    steps != [] ==> InTime(l.memory, steps[0]) && AllInTime(Do(l, steps[0]), steps[1..])
  }

  /** What was shown is remembered, or too old to be remembered. */
  predicate Remembers(l: Log, show: Show) {
    || Until(show.sent) < l.memory.latest
    || (show.seen in l.memory.accepted && Until(show.sent) <= l.memory.accepted[show.seen])
  }

  ghost predicate Sound(l: Log) {
    && (forall i | 0 <= i < |l.shown| :: Remembers(l, l.shown[i]))
    && (forall i, j | 0 <= i < j < |l.shown| && l.shown[i].seen == l.shown[j].seen ::
          Until(l.shown[i].sent) < Until(l.shown[j].sent))
  }

  lemma StepSound(l: Log, step: Step)
    requires Sound(l) && InTime(l.memory, step)
    ensures Sound(Do(l, step))
  {
    hide Until;
    var d := Do(l, step);
    forall i | 0 <= i < |l.shown| ensures Remembers(d, l.shown[i]) {
      assert Remembers(l, l.shown[i]);
    }
    if step.Accept? && step.show.seen !in l.memory.accepted {
      forall i | 0 <= i < |l.shown| && l.shown[i].seen == step.show.seen
        ensures Until(l.shown[i].sent) < Until(step.show.sent)
      {
        assert Remembers(l, l.shown[i]);
      }
    }
  }

  /** However the clock is set and whenever the memory is pruned, a message of one
      signer, id and time is shown once at most; shown again under its id, it is
      another one, that would be remembered for longer. */
  lemma {:induction false} AtMostOnce(l: Log, steps: seq<Step>)
    requires Sound(l) && AllInTime(l, steps)
    ensures Sound(DoAll(l, steps))
    ensures var s := DoAll(l, steps).shown;
            forall i, j | 0 <= i < j < |s| :: s[i] != s[j]
    decreases steps
  {
    hide InTime, Do, Until;
    if steps != [] {
      StepSound(l, steps[0]);
      AtMostOnce(Do(l, steps[0]), steps[1..]);
    }
  }

  /** The memory holds nothing but what was shown. */
  ghost predicate Accounted(l: Log) {
    forall k | k in l.memory.accepted :: ShownUntil(l.shown, k, l.memory.accepted[k])
  }

  ghost predicate ShownUntil(shown: seq<Show>, seen: Seen, until: U64) {
    exists i :: 0 <= i < |shown| && shown[i].seen == seen && Until(shown[i].sent) == until
  }

  lemma StepAccounted(l: Log, step: Step)
    requires Accounted(l)
    ensures Accounted(Do(l, step))
  {
    hide Until;
    var d := Do(l, step);
    forall k | k in d.memory.accepted ensures ShownUntil(d.shown, k, d.memory.accepted[k]) {
      if d.shown != l.shown && k == step.show.seen {
        assert d.shown[|l.shown|] == step.show;
      } else {
        var i :| 0 <= i < |l.shown| && l.shown[i].seen == k && Until(l.shown[i].sent) == l.memory.accepted[k];
        assert d.shown[i] == l.shown[i];
      }
    }
  }

  lemma {:induction false} RunAccounted(l: Log, steps: seq<Step>)
    requires Accounted(l)
    ensures Accounted(DoAll(l, steps))
    decreases steps
  {
    hide Do, Accounted;
    if steps != [] {
      StepAccounted(l, steps[0]);
      RunAccounted(Do(l, steps[0]), steps[1..]);
    }
  }

  /** The last message shown under its id. */
  ghost predicate LastUnderId(l: Log, i: nat) {
    i < |l.shown| && forall j | i < j < |l.shown| :: l.shown[j].seen != l.shown[i].seen
  }

  /** Being in time is exactly what it takes: as long as the memory has not passed
      the point to which a message is remembered, accepting it again is refused
      whatever has been pruned, and from then on some pruning has it shown again. */
  lemma RefusedAgainIff(l: Log, i: nat)
    requires Sound(l) && Accounted(l) && LastUnderId(l, i)
    ensures InTime(l.memory, Accept(l.shown[i])) <==>
            forall keys | Prunable(l.memory, keys) :: Do(Do(l, Prune(keys)), Accept(l.shown[i])).shown == l.shown
  {
    hide Until;
    var show := l.shown[i];
    assert Remembers(l, show);
    if !InTime(l.memory, Accept(show)) {
      LateIsPrunable(l, i);
      assert Do(Do(l, Prune({show.seen})), Accept(show)).shown == l.shown + [show];
    }
  }

  /** So it is after every run in time from an empty memory. */
  lemma RunRefusedAgainIff(steps: seq<Step>, i: nat)
    requires AllInTime(Log(Memory(0, map[]), []), steps)
    requires LastUnderId(DoAll(Log(Memory(0, map[]), []), steps), i)
    ensures var l := DoAll(Log(Memory(0, map[]), []), steps);
            InTime(l.memory, Accept(l.shown[i])) <==>
            forall keys | Prunable(l.memory, keys) :: Do(Do(l, Prune(keys)), Accept(l.shown[i])).shown == l.shown
  {
    hide AllInTime, DoAll, InTime, Do, Until;
    var start := Log(Memory(0, map[]), []);
    AtMostOnce(start, steps);
    RunAccounted(start, steps);
    RefusedAgainIff(DoAll(start, steps), i);
  }

  lemma LateIsPrunable(l: Log, i: nat)
    requires Sound(l) && Accounted(l) && LastUnderId(l, i) && !InTime(l.memory, Accept(l.shown[i]))
    ensures Prunable(l.memory, {l.shown[i].seen})
  {
    hide Until;
    var k := l.shown[i].seen;
    if k in l.memory.accepted {
      assert ShownUntil(l.shown, k, l.memory.accepted[k]);
      var j :| 0 <= j < |l.shown| && l.shown[j].seen == k && Until(l.shown[j].sent) == l.memory.accepted[k];
      assert j <= i;
    }
  }

  /** How it comes about: a session that read the clock, and accepts only after
      another has accepted the same message and the clock has run past both
      allowances and the memory been pruned, shows it again. */
  lemma StalledShowsTwice(seen: Seen)
    ensures var show := Show(seen, 0);
            var l := DoAll(Log(Memory(0, map[]), []),
                           [Clock(10), Accept(show), Clock(HOLD + SKEW + 1), Prune({seen}), Accept(show)]);
            l.shown == [show, show] && Fresh(0, 10, 10).Ok?
  {
    var show := Show(seen, 0);
    var l0 := Log(Memory(0, map[]), []);
    var l1 := Do(l0, Clock(10));
    var l2 := Do(l1, Accept(show));
    var l3 := Do(l2, Clock(HOLD + SKEW + 1));
    var l4 := Do(l3, Prune({seen}));
    var l5 := Do(l4, Accept(show));
    assert seen !in l4.memory.accepted;
    var steps := [Clock(10), Accept(show), Clock(HOLD + SKEW + 1), Prune({seen}), Accept(show)];
    assert steps[1..] == [Accept(show), Clock(HOLD + SKEW + 1), Prune({seen}), Accept(show)];
    assert steps[1..][1..] == [Clock(HOLD + SKEW + 1), Prune({seen}), Accept(show)];
    assert steps[1..][1..][1..] == [Prune({seen}), Accept(show)];
    assert steps[1..][1..][1..][1..] == [Accept(show)];
    assert steps[1..][1..][1..][1..][1..] == [];
    assert DoAll(l4, [Accept(show)]) == DoAll(l5, []) by {
      assert [Accept(show)][1..] == [];
    }
    assert DoAll(l3, [Prune({seen}), Accept(show)]) == DoAll(l4, [Accept(show)]);
    assert DoAll(l2, steps[1..][1..]) == DoAll(l3, steps[1..][1..][1..]);
    assert DoAll(l1, steps[1..]) == DoAll(l2, steps[1..][1..]);
    assert DoAll(l0, steps) == DoAll(l1, steps[1..]);
  }

  // Whole openings.

  datatype Event = BoxOpened(sealed: Buf, ctx: Opening) | Forgotten(keys: set<Seen>)

  /** An opening, with nothing of another session inside it, or pruning. */
  function Apply(w: World, unseal: Unseal, l: Log, e: Event): Log {
    match e
    case BoxOpened(sealed, ctx) =>
      var (o, m) := Opens(w, unseal, sealed, ctx, l.memory);
      Log(m, if IsShown(o) && o.message.PrivateMessage? then l.shown + [ShowOf(w, o)] else l.shown)
    case Forgotten(keys) => if Prunable(l.memory, keys) then l.(memory := Pruned(l.memory, keys)) else l
  }

  function Run(w: World, unseal: Unseal, l: Log, events: seq<Event>): Log
    decreases events
  {
    if events == [] then l else Run(w, unseal, Apply(w, unseal, l, events[0]), events[1..])
  }

  /** Only what is shown is added to the memory, and it was not there. */
  lemma OnlyShownRemembered(w: World, unseal: Unseal, sealed: Buf, ctx: Opening, m: Memory)
    ensures var (o, n) := Opens(w, unseal, sealed, ctx, m);
            && (n.accepted == m.accepted <==> !IsShown(o))
            && (IsShown(o) ==>
                && o.message.PrivateMessage? && ShowOf(w, o).seen !in m.accepted
                && n.accepted == m.accepted[ShowOf(w, o).seen := Until(o.message.sent)]
                && n.latest == Max(m.latest, ctx.now) && Fresh(o.message.sent, ctx.now, n.latest).Ok?)
  {
    hide ReadBox, Fresh, VerifyBox, Claimed, Until;
    var (o, n) := Opens(w, unseal, sealed, ctx, m);
    if IsShown(o) {
      assert ShowOf(w, o).seen in n.accepted;
    }
  }

  lemma FreshInTime(sent: U64, now: U64, latest: U64)
    requires Fresh(sent, now, latest).Ok?
    ensures latest <= Until(sent) && (latest <= sent + HOLD || latest <= HOLD)
  {
  }

  lemma ClockSound(l: Log, latest: U64)
    requires Sound(l) && l.memory.latest <= latest
    ensures Sound(l.(memory := l.memory.(latest := latest)))
  {
    hide Until;
    var d := l.(memory := l.memory.(latest := latest));
    forall i | 0 <= i < |l.shown| ensures Remembers(d, l.shown[i]) {
      assert Remembers(l, l.shown[i]);
    }
  }

  lemma ApplySound(w: World, unseal: Unseal, l: Log, e: Event)
    requires Sound(l)
    ensures Sound(Apply(w, unseal, l, e))
  {
    hide Opens, Sound, Fresh, Until, Prunable;
    match e
    case BoxOpened(sealed, ctx) =>
      var (o, m) := Opens(w, unseal, sealed, ctx, l.memory);
      OnlyShownRemembered(w, unseal, sealed, ctx, l.memory);
      LatestGrows(w, unseal, sealed, ctx, l.memory);
      ClockSound(l, m.latest);
      if IsShown(o) {
        FreshInTime(o.message.sent, ctx.now, m.latest);
        StepSound(l.(memory := l.memory.(latest := m.latest)), Accept(ShowOf(w, o)));
      } else {
        assert l.memory.(latest := m.latest) == m;
      }
    case Forgotten(keys) =>
      if Prunable(l.memory, keys) {
        StepSound(l, Prune(keys));
      }
  }

  lemma LatestGrows(w: World, unseal: Unseal, sealed: Buf, ctx: Opening, m: Memory)
    ensures m.latest <= Opens(w, unseal, sealed, ctx, m).1.latest
  {
    hide ReadBox, Fresh, VerifyBox, Claimed, Until;
  }

  /** Messages shown under one id were sent more than the skew apart, in order. */
  predicate Spaced(shown: seq<Show>) {
    forall i, j | 0 <= i < j < |shown| && shown[i].seen == shown[j].seen :: shown[i].sent + SKEW < shown[j].sent
  }

  lemma ApplySpaced(w: World, unseal: Unseal, l: Log, e: Event)
    requires Sound(l) && Spaced(l.shown)
    ensures Spaced(Apply(w, unseal, l, e).shown)
  {
    hide Opens, Fresh, Until;
    if e.BoxOpened? {
      var (o, m) := Opens(w, unseal, e.sealed, e.ctx, l.memory);
      OnlyShownRemembered(w, unseal, e.sealed, e.ctx, l.memory);
      if IsShown(o) {
        FreshInTime(o.message.sent, e.ctx.now, m.latest);
        LatestGrows(w, unseal, e.sealed, e.ctx, l.memory);
        var show := ShowOf(w, o);
        forall i | 0 <= i < |l.shown| && l.shown[i].seen == show.seen ensures l.shown[i].sent + SKEW < show.sent {
          assert Remembers(l, l.shown[i]);
          PastUntil(l.shown[i].sent, m.latest, show.sent);
        }
      }
    }
  }

  lemma PastUntil(sent: U64, latest: U64, later: U64)
    requires Until(sent) < latest && (latest <= later + HOLD || latest <= HOLD)
    ensures sent + SKEW < later
  {
  }

  /** Over any run of openings and pruning, whatever the clock says, a signer's
      message of one id and time is shown as theirs at most once, and one shown
      later under the same id was sent more than the skew later. */
  lemma {:induction false} RunAtMostOnce(w: World, unseal: Unseal, l: Log, events: seq<Event>)
    requires Sound(l) && Spaced(l.shown)
    ensures Sound(Run(w, unseal, l, events)) && Spaced(Run(w, unseal, l, events).shown)
    ensures var s := Run(w, unseal, l, events).shown;
            forall i, j | 0 <= i < j < |s| :: s[i] != s[j]
    decreases events
  {
    hide Apply, Until;
    if events != [] {
      ApplySound(w, unseal, l, events[0]);
      ApplySpaced(w, unseal, l, events[0]);
      RunAtMostOnce(w, unseal, Apply(w, unseal, l, events[0]), events[1..]);
    }
  }
}
