/** A private message sealed, in either form, opens as what its sender meant. */
module SealedBoxes {
  import opened Bytes
  import opened Cbor
  import opened Canonical
  import opened Maps
  import opened Signed
  import opened LineEndings
  import opened Messages
  import opened Objects
  import opened Fields
  import opened Padding
  import opened SealedMessages

  /** The box around a ciphertext. */
  function Boxed(pkS: Option<Buf>, enc: Buf, ct: Buf): Buf {
    match pkS
    case None => [SIGNED_BOX] + enc + ct
    case Some(pk) => [DENIABLE_BOX] + pk + enc + ct
  }

  /** The ciphertext of a padded plaintext is 16 bytes longer, and opens as it. */
  predicate Encrypts(unseal: Unseal, pkS: Option<Buf>, enc: Buf, ct: Buf, padded: Buf) {
    && |enc| == 32 && |ct| == |padded| + 16 && (pkS.Some? ==> |pkS.value| == 32)
    && unseal(if pkS.None? then SIGNED_BOX else DENIABLE_BOX, pkS, enc, ct) == Some(padded)
  }

  lemma UnboxBoxed(unseal: Unseal, pkS: Option<Buf>, enc: Buf, ct: Buf, m: Buf, padded: Buf)
    requires Encrypts(unseal, pkS, enc, ct, padded) && PadsTo(m, pkS.Some?, padded)
    ensures Unbox(unseal, Boxed(pkS, enc, ct)) == Ok((padded, pkS))
  {
    hide Zeros;
    var sealed := Boxed(pkS, enc, ct);
    var i :| 0 <= i < |PAD_SIZES| && SmallestFit(m, pkS.Some?, |padded|, i);
    assert PAD_SIZES[i] + OVERHEAD == |sealed|;
    match pkS
    case None =>
      assert sealed[1..] == enc + ct;
      assert (enc + ct)[..32] == enc && (enc + ct)[32..] == ct;
    case Some(pk) =>
      assert sealed[1..] == pk + (enc + ct);
      assert (pk + (enc + ct))[..32] == pk && (pk + (enc + ct))[32..] == enc + ct;
      assert (enc + ct)[..32] == enc && (enc + ct)[32..] == ct;
  }

  /** The map in a box: signed, or in a deniable one without its signature. */
  function Inside(m: Message, sig: Option<Buf>): Value {
    if sig.Some? then Push(Unsigned(m), SIG, Blob(sig.value)) else Unsigned(m)
  }

  function EnvelopeOf(m: Message, sig: Option<Buf>): Option<Envelope> {
    if sig.Some?
    then Some(Envelope(DeepSort(Inside(m, sig)), VERSION, Encode(Unsigned(m)), sig.value))
    else None
  }

  lemma OpenFits(v: Value)
    requires OpenMap(v)
    ensures Fits(v) && Within(v, MAX_DEPTH)
  {
    forall e | e in v.entries ensures FitsEntry(e) && WithinEntry(e, MAX_DEPTH - 1) {
      assert CanonicalEntry(e);
    }
  }

  lemma InsideReads(m: Message, sig: Option<Buf>)
    requires m.PrivateMessage? && PrivateHeld(m) && (sig.Some? ==> |sig.value| == SIG_BYTES)
    requires FromValue(Private, Unsigned(m), false).Ok?
    ensures Fits(Inside(m, sig)) && Within(Inside(m, sig), MAX_DEPTH)
    ensures Decoded(Encode(Inside(m, sig))) == Ok(DeepSort(Inside(m, sig)))
    ensures ReadPlain(DeepSort(Inside(m, sig)), sig.None?) == Ok((Normal(m), EnvelopeOf(m, sig)))
  {
    hide Encode, DeepSort, DecodeCanonical, FromValueUpto, PrivateGet, PrivateHeld, CanonicalEntry, KeysApart,
         CanonicalText, Fits, Within, BuildMap, Find, PrivateFrom, Normal;
    PrivateGets(m);
    PrivateReads(Unsigned(m), m);
    PrivateOpen(m);
    SigNames();
    if sig.Some? {
      SmallLeaf(sig.value);
      PushOpen(Unsigned(m), SIG, Blob(sig.value));
      SealedReads(m, sig.value);
      OpenFits(Inside(m, sig));
      PrivateReads(DeepSort(Inside(m, sig)), m);
    } else {
      OpenFits(Unsigned(m));
      OpenCanonical(Unsigned(m));
      DeniableReads(m);
    }
  }

  /** The unsigned map, its entries in canonical order, still has the fields. */
  lemma UnsignedGets(m: Message)
    requires m.PrivateMessage? && OpenMap(Unsigned(m))
    ensures var c := DeepSort(Unsigned(m));
            c.Map? && PrivateGet(c, m) && Get(c, SIG).None? && Get(c, Name("v")) == Some(Uint(VERSION))
  {
    hide Encode, DeepSort, DecodeCanonical, CanonicalEntry, KeysApart, CanonicalText, BuildMap, IsCanonical, Find,
         StringsApart, CanonicalValue, NamesApart;
    var c := DeepSort(Unsigned(m));
    PrivateGets(m);
    OpenCanonical(Unsigned(m));
    CanonicalIsOpen(c);
    forall name ensures Get(c, name) == Get(Unsigned(m), name) {
      SameEntriesGet(c, Unsigned(m), name);
    }
  }

  lemma DeniableReads(m: Message)
    requires m.PrivateMessage? && FromValue(Private, Unsigned(m), false).Ok? && OpenMap(Unsigned(m))
    ensures ReadPlain(DeepSort(Unsigned(m)), true) == Ok((Normal(m), None))
  {
    hide DeepSort, OpenMap, CanonicalText, PrivateFrom, Normal, Unsigned, Get, CheckText, PrivateGet;
    var c := DeepSort(Unsigned(m));
    PrivateGets(m);
    PrivateReads(Unsigned(m), m);
    UnsignedGets(m);
    PrivateReads(c, m);
  }

  /** What a sender pads is what the reader reads. */
  lemma PaddedReads(m: Message, sig: Option<Buf>, padded: Buf)
    requires m.PrivateMessage? && PrivateHeld(m) && (sig.Some? ==> |sig.value| == SIG_BYTES)
    requires FromValue(Private, Unsigned(m), false).Ok?
    requires PadsTo(Encode(Inside(m, sig)), sig.None?, padded)
    ensures ReadMap(padded, sig.None?, m.to) == Ok((Normal(m), EnvelopeOf(m, sig)))
  {
    hide Encode, DeepSort, FromValue, PrivateHeld, PadsTo, Fits, Within, ReadPlain, Inside, Unpad, Decoded,
         CanonicalText, EnvelopeOf;
    InsideReads(m, sig);
    UnpadPad(Inside(m, sig), sig.None?, padded);
  }

  /** The checks a reader makes of its own, at its own time. */
  predicate Accepts(w: World, m: Message, sig: Option<Buf>, pkS: Option<Buf>, ctx: Opening, memory: Memory)
    requires m.PrivateMessage?
  {
    && ctx.reader == m.to && !ctx.sender.Unknown?
    && Fresh(m.sent, ctx.now, Max(memory.latest, ctx.now)).Ok?
    && VerifyBox(w, Normal(m), EnvelopeOf(m, sig), pkS, ctx).Ok?
    && var signer := w.sha256(VerifyBox(w, Normal(m), EnvelopeOf(m, sig), pkS, ctx).value.identity);
       Seen(signer, m.id) !in memory.accepted
  }

  lemma VerifiedClaims(w: World, m: Message, env: Option<Envelope>, pkS: Option<Buf>, ctx: Opening)
    requires VerifyBox(w, m, env, pkS, ctx).Ok?
    ensures w.readCert(m.cert) == Ok(VerifyBox(w, m, env, pkS, ctx).value)
  {
    hide CheckWindow;
  }

  /** Every message that passes its checks, padded and sealed in either form, opens
      as its signer's or deniably theirs, its texts in canonical form, for the
      reader it is to, and is remembered. */
  lemma SealedOpens(w: World, unseal: Unseal, m: Message, sig: Option<Buf>, pkS: Option<Buf>,
                                       padded: Buf, enc: Buf, ct: Buf, ctx: Opening, memory: Memory)
    requires m.PrivateMessage? && PrivateHeld(m) && (sig.Some? ==> |sig.value| == SIG_BYTES)
    requires sig.None? <==> pkS.Some?
    requires FromValue(Private, Unsigned(m), false).Ok?
    requires PadsTo(Encode(Inside(m, sig)), sig.None?, padded) && Encrypts(unseal, pkS, enc, ct, padded)
    requires Accepts(w, m, sig, pkS, ctx, memory)
    ensures var cert := VerifyBox(w, Normal(m), EnvelopeOf(m, sig), pkS, ctx).value;
            Opens(w, unseal, Boxed(pkS, enc, ct), ctx, memory) ==
            (Shown(Normal(m), EnvelopeOf(m, sig), cert, ctx.at),
             Memory(Max(memory.latest, ctx.now),
                    memory.accepted[Seen(w.sha256(cert.identity), m.id) := Until(m.sent)]))
  {
    hide Encode, DeepSort, FromValue, PrivateHeld, PadsTo, ReadMap, Inside, EnvelopeOf, Unbox, Boxed, Encrypts,
         VerifyBox, Fresh, Until, CanonicalText;
    PaddedReads(m, sig, padded);
    UnboxBoxed(unseal, pkS, enc, ct, Encode(Inside(m, sig)), padded);
    VerifiedClaims(w, Normal(m), EnvelopeOf(m, sig), pkS, ctx);
  }
}
