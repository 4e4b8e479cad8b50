/** What an opened box proves: exactly which bytes hold which message, and when it is
    shown as its signer's, hidden as unverified or invalid, or dropped. */
module OpenedBoxes {
  import opened Bytes
  import opened Cbor
  import opened Canonical
  import opened Maps
  import opened Signed
  import opened Messages
  import opened Padding
  import opened AcceptedMessages
  import opened SealedMessages

  /** One size of a box and one of its two forms, opening to `padded`. */
  ghost predicate OpensTo(unseal: Unseal, sealed: Buf, padded: Buf, deniable: bool) {
    && (exists i | 0 <= i < |PAD_SIZES| :: |sealed| == PAD_SIZES[i] + 49)
    && sealed[0] == (if deniable then 2 else 1)
    && (if deniable then unseal(2, Some(sealed[1..33]), sealed[33..65], sealed[65..])
        else unseal(1, None, sealed[1..33], sealed[33..])) == Some(padded)
  }

  lemma UnboxIff(unseal: Unseal, sealed: Buf, padded: Buf, pkS: Option<Buf>)
    ensures Unbox(unseal, sealed) == Ok((padded, pkS)) <==>
            OpensTo(unseal, sealed, padded, pkS.Some?) && (pkS.Some? ==> pkS.value == sealed[1..33])
  {
    assert forall i | 0 <= i < |PAD_SIZES| :: PAD_SIZES[i] >= 512;
    if |sealed| >= 65 {
      var rest := sealed[1..];
      assert rest[..32] == sealed[1..33] && rest[32..] == sealed[33..];
      assert sealed[33..][..32] == sealed[33..65] && sealed[33..][32..] == sealed[65..];
    }
  }

  /** A padded map: its encoding, then zeros up to one of the form's sizes. */
  lemma UnpadIff(padded: Buf, deniable: bool, v: Value)
    ensures var m := Encode(v);
            (Unpad(padded, deniable).Ok? && DecodeCanonical(Unpad(padded, deniable).value) == Ok(v)) <==>
            && (exists i | 0 <= i < |PAD_SIZES| :: |padded| == PAD_SIZES[i] - (if deniable then 32 else 0))
            && IsCanonical(v) && |m| <= |padded| && m == padded[..|m|]
            && forall i | |m| <= i < |padded| :: padded[i] == 0
  {
    hide Encode, IsCanonical, DecodeCanonical, ReadItem;
    var m, u := Encode(v), Unpad(padded, deniable);
    assert forall i | 0 <= i < |PAD_SIZES| :: PadSize(i, deniable) == PAD_SIZES[i] - (if deniable then 32 else 0);
    if u.Ok? {
      DecodeIff(u.value, v);
    }
    if IsCanonical(v) && |m| <= |padded| && m == padded[..|m|] {
      DecodeIff(m, v);
      CanonicalReads(v, padded[|m|..]);
      assert m + padded[|m|..] == padded;
    }
  }

  lemma CanonicalReads(v: Value, rest: Buf)
    requires IsCanonical(v)
    ensures ReadItem(Encode(v) + rest, 0) == Done(v, rest)
  {
    hide Encode, ReadItem;
    ReadEncode(v, rest, 0);
    ScanIsEnough(v);
    DeepSortOrdered(v);
  }

  /** The signature in a signed box's map; a deniable one has none. */
  ghost predicate SignedIn(v: Value, deniable: bool, sig: Option<Buf>) {
    && sig.None? == deniable && (sig.Some? ==> |sig.value| == 64)
    && Get(v, Name("sig")) == if sig.Some? then Some(Blob(sig.value)) else None
  }

  ghost predicate PadHolds(padded: Buf, deniable: bool, v: Value) {
    Unpad(padded, deniable).Ok? && DecodeCanonical(Unpad(padded, deniable).value) == Ok(v)
  }

  /** The box holds this map, a private message to the reader. */
  ghost predicate BoxHolds(unseal: Unseal, sealed: Buf, reader: Bytes32, deniable: bool, v: Value, message: Message,
                           sig: Option<Buf>) {
    && (exists padded :: OpensTo(unseal, sealed, padded, deniable) && PadHolds(padded, deniable, v))
    && v.Map? && Get(v, Name("v")) == Some(Uint(VERSION))
    && IsPrivate(v, false, message) && message.to == reader && SignedIn(v, deniable, sig)
  }

  lemma ReadPlainIff(v: Value, deniable: bool, message: Message, env: Option<Envelope>)
    ensures ReadPlain(v, deniable) == Ok((message, env)) <==>
            && v.Map? && Get(v, Name("v")) == Some(Uint(VERSION)) && IsPrivate(v, false, message)
            && env.None? == deniable
            && SignedIn(v, deniable, if env.Some? then Some(env.value.sig) else None)
            && (env.Some? ==> env.value == Envelope(v, VERSION, Encode(Without(v, Name("sig"))), env.value.sig))
  {
    hide Get, Name, Encode, Without, IsPrivate, PrivateFrom, FromValue;
    SigIs();
    PrivateRead(v, message);
    if ReadPlain(v, deniable).Ok? {
      PrivateRead(v, ReadPlain(v, deniable).value.0);
    }
  }

  lemma PrivateRead(v: Value, message: Message)
    ensures PrivateFrom(v, false) == Ok(message) <==> IsPrivate(v, false, message)
  {
    hide IsPrivate, PrivateFrom;
    PrivateIff(v, false, message);
  }

  function EnvelopeIn(v: Value, sig: Option<Buf>): Option<Envelope> {
    if sig.None? then None else Some(Envelope(v, VERSION, Encode(Without(v, Name("sig"))), sig.value))
  }

  /** A box that holds a message reads as it. */
  lemma HeldReads(unseal: Unseal, sealed: Buf, reader: Bytes32, deniable: bool, v: Value, message: Message,
                  sig: Option<Buf>)
    requires BoxHolds(unseal, sealed, reader, deniable, v, message, sig)
    ensures |sealed| > 33
    ensures ReadBox(unseal, sealed, reader) ==
            Ok((message, EnvelopeIn(v, sig), if deniable then Some(sealed[1..33]) else None))
  {
    hide OpensTo, IsPrivate, Unbox, Unpad, ReadPlain, DecodeCanonical, Get, Name, Encode, Without;
    var padded :| OpensTo(unseal, sealed, padded, deniable) && PadHolds(padded, deniable, v);
    BoxLong(unseal, sealed, padded, deniable);
    UnboxIff(unseal, sealed, padded, if deniable then Some(sealed[1..33]) else None);
    ReadPlainIff(v, deniable, message, EnvelopeIn(v, sig));
  }

  lemma BoxLong(unseal: Unseal, sealed: Buf, padded: Buf, deniable: bool)
    requires OpensTo(unseal, sealed, padded, deniable)
    ensures |sealed| > 65
  {
    assert forall i | 0 <= i < |PAD_SIZES| :: PAD_SIZES[i] >= 512;
  }

  /** And one that reads holds what it reads as. */
  lemma ReadHolds(unseal: Unseal, sealed: Buf, reader: Bytes32) returns (v: Value)
    requires ReadBox(unseal, sealed, reader).Ok?
    ensures var (message, env, pkS) := ReadBox(unseal, sealed, reader).value;
            BoxHolds(unseal, sealed, reader, pkS.Some?, v, message, if env.Some? then Some(env.value.sig) else None)
  {
    hide OpensTo, IsPrivate, Unbox, Unpad, ReadPlain, DecodeCanonical, Get, Name, Encode, Without;
    var (message, env, pkS) := ReadBox(unseal, sealed, reader).value;
    var (padded, pk) := Unbox(unseal, sealed).value;
    v := DecodeCanonical(Unpad(padded, pk.Some?).value).value;
    UnboxIff(unseal, sealed, padded, pk);
    ReadPlainIff(v, pk.Some?, message, env);
    assert OpensTo(unseal, sealed, padded, pk.Some?) && PadHolds(padded, pk.Some?, v);
  }

  // The signer.

  /** The certificate is good when the message was sent, when it came and now, names
      whom the sender is shown as, and made the box: its device signed the map, or
      its key is the one a deniable box opened under. */
  ghost predicate Vouches(w: World, sealed: Buf, deniable: bool, v: Value, message: Message, cert: DeviceCert,
                          ctx: Opening)
    requires |sealed| > 33
  {
    && CertGood(w, message.cert, cert, message.sent, ctx.at) && Covers(cert.issued, cert.expires, ctx.now, SKEW)
    && (ctx.sender.Named? ==> ctx.sender.fingerprint == w.sha256(cert.identity))
    && if deniable then sealed[1..33] == cert.deviceEnc else SignedBy(w, Private, v, cert.device)
  }

  lemma VouchesIff(w: World, sealed: Buf, deniable: bool, v: Value, message: Message, sig: Option<Buf>,
                   cert: DeviceCert, ctx: Opening)
    requires |sealed| > 33 && SignedIn(v, deniable, sig)
    ensures var pkS := if deniable then Some(sealed[1..33]) else None;
            VerifyBox(w, message, EnvelopeIn(v, sig), pkS, ctx) == Ok(cert) <==>
            Vouches(w, sealed, deniable, v, message, cert, ctx)
  {
    hide CheckCert, CertGood, CheckWindow, Covers, Get, Name, Encode, Without;
    CertIff(w, message.cert, cert, message.sent, ctx.at);
    WindowIff(cert.issued, cert.expires, ctx.now, SKEW);
  }

  // The answer.

  /** Sent neither further back than can be held, from the latest time known, nor
      later than the clock allows. */
  predicate Timely(sent: U64, now: U64, latest: U64) {
    now <= sent + HOLD && latest <= sent + HOLD && sent <= now + SKEW
  }

  lemma TimelyIff(sent: U64, now: U64, latest: U64)
    ensures Fresh(sent, now, latest) == if Timely(sent, now, latest) then Ok(()) else Err(ClockSkew)
  {
  }

  /** Accepted already, as its certificate and its id say. */
  ghost predicate AcceptedBefore(w: World, message: Message, accepted: map<Seen, U64>)
    requires message.PrivateMessage?
  {
    exists cert: DeviceCert ::
      w.readCert(message.cert) == Ok(cert) && Seen(w.sha256(cert.identity), message.id) in accepted
  }

  lemma ClaimedIff(w: World, message: Message, accepted: map<Seen, U64>)
    requires message.PrivateMessage?
    ensures Claimed(w, message, accepted) <==> AcceptedBefore(w, message, accepted)
  {
    if w.readCert(message.cert).Ok? {
      assert w.readCert(message.cert) == Ok(w.readCert(message.cert).value);
    }
  }

  /** A box answers nothing but that it could not be opened exactly when it holds no
      message to the reader. */
  lemma UnopenedIff(w: World, unseal: Unseal, sealed: Buf, ctx: Opening, m: Memory)
    ensures Opens(w, unseal, sealed, ctx, m).0.Unopened? <==>
            forall deniable, v, message, sig :: !BoxHolds(unseal, sealed, ctx.reader, deniable, v, message, sig)
  {
    hide BoxHolds, ReadBox, Fresh, Claimed, VerifyBox, Until, Encode;
    if ReadBox(unseal, sealed, ctx.reader).Ok? {
      var v := ReadHolds(unseal, sealed, ctx.reader);
    }
    forall deniable, v, message, sig | BoxHolds(unseal, sealed, ctx.reader, deniable, v, message, sig)
      ensures ReadBox(unseal, sealed, ctx.reader).Ok?
    {
      HeldReads(unseal, sealed, ctx.reader, deniable, v, message, sig);
    }
  }

  /** How a message from this certificate is shown. */
  function ShownAs(w: World, deniable: bool, v: Value, message: Message, cert: DeviceCert, ctx: Opening): Opened {
    var apart := message.sent > ctx.at + SKEW || ctx.at > message.sent + SKEW;
    if ctx.sender.Unknown? then Unverified(message, w.sha256(cert.identity), if deniable then None else Some(Encode(v)))
    else if deniable then Deniable(message, cert, apart)
    else Verified(message, cert, v, apart)
  }

  /** What a box that holds a message is answered with: dropped if out of time or
      accepted before, else shown as a certificate vouches for, and invalid if none
      does. */
  lemma AnswerIs(w: World, unseal: Unseal, sealed: Buf, ctx: Opening, m: Memory, deniable: bool, v: Value,
                 message: Message, sig: Option<Buf>)
    requires |sealed| > 33 && BoxHolds(unseal, sealed, ctx.reader, deniable, v, message, sig)
    ensures var o := Opens(w, unseal, sealed, ctx, m).0;
            if !Timely(message.sent, ctx.now, m.latest) then o == Dropped(ClockSkew)
            else if AcceptedBefore(w, message, m.accepted) then o == Dropped(Replayed)
            else if exists cert :: Vouches(w, sealed, deniable, v, message, cert, ctx) then
              exists cert ::
                Vouches(w, sealed, deniable, v, message, cert, ctx) && o == ShownAs(w, deniable, v, message, cert, ctx)
            else o.Invalid? && o.message == message
  {
    hide OpensTo, PadHolds, IsPrivate, ReadBox, Fresh, Claimed, VerifyBox, Until, Encode, Vouches, Get, Name,
         AcceptedBefore;
    HeldReads(unseal, sealed, ctx.reader, deniable, v, message, sig);
    ClaimedIff(w, message, m.accepted);
    TimelyIff(message.sent, ctx.now, Max(m.latest, ctx.now));
    var pkS := if deniable then Some(sealed[1..33]) else None;
    var r := VerifyBox(w, message, EnvelopeIn(v, sig), pkS, ctx);
    forall cert ensures r == Ok(cert) <==> Vouches(w, sealed, deniable, v, message, cert, ctx) {
      VouchesIff(w, sealed, deniable, v, message, sig, cert, ctx);
    }
    if r.Ok? && !AcceptedBefore(w, message, m.accepted) {
      assert Vouches(w, sealed, deniable, v, message, r.value, ctx);
      NotYetAccepted(w, sealed, deniable, v, message, r.value, ctx, m.accepted);
    }
  }

  lemma NotYetAccepted(w: World, sealed: Buf, deniable: bool, v: Value, message: Message, cert: DeviceCert,
                       ctx: Opening, accepted: map<Seen, U64>)
    requires |sealed| > 33 && message.PrivateMessage? && Vouches(w, sealed, deniable, v, message, cert, ctx)
    requires !AcceptedBefore(w, message, accepted)
    ensures Seen(w.sha256(cert.identity), message.id) !in accepted
  {
    hide Covers, SignedBy;
  }

  /** What a message shown as its signer's proves. */
  lemma ShownProves(w: World, unseal: Unseal, sealed: Buf, ctx: Opening, m: Memory) returns (v: Value, sig: Option<Buf>)
    requires IsShown(Opens(w, unseal, sealed, ctx, m).0)
    ensures var o := Opens(w, unseal, sealed, ctx, m).0;
            && |sealed| > 33 && BoxHolds(unseal, sealed, ctx.reader, o.Deniable?, v, o.message, sig)
            && Timely(o.message.sent, ctx.now, m.latest)
            && Vouches(w, sealed, o.Deniable?, v, o.message, o.cert, ctx)
            && (o.Verified? ==> o.whole == v)
  {
    hide BoxHolds, ReadBox, Vouches, Timely, AcceptedBefore, Fresh, Claimed, VerifyBox, Until, Encode;
    var o := Opens(w, unseal, sealed, ctx, m).0;
    v := ReadHolds(unseal, sealed, ctx.reader);
    var (message, env, pkS) := ReadBox(unseal, sealed, ctx.reader).value;
    sig := if env.Some? then Some(env.value.sig) else None;
    HeldReads(unseal, sealed, ctx.reader, pkS.Some?, v, message, sig);
    AnswerIs(w, unseal, sealed, ctx, m, pkS.Some?, v, message, sig);
  }
}
