/** Envelopes around signed maps, with one signer or two: what opening what was
    sealed gives, and that an accepted object's bytes follow from what was signed.
    Signatures are bytes here; whoever uses an envelope asks if they verify. */
module Signed {
  import opened Bytes
  import opened Cbor
  import opened Canonical
  import opened Maps

  datatype Error =
    | CborFailed(cause: CborError)
    | NotAMap
    | MissingField(field: string)
    | BadField(field: string)
    | UnsupportedVersion(v: nat)
    | InvalidKey
    | BadSignature
    | KeyMismatch
    | Expired
    | NotYetValid
    | ClockSkew
    | CapabilityMissing
    | TooLarge
    | CertMismatch
    | OpenFailed
    | Replayed

  const VERSION: U64 := 1
  const SIG: Buf := Name("sig")
  const ACK: Buf := Name("ack")
  const SIG_BYTES: nat := 64

  // Field readers: an `Opt` one answers `None` for a key that is not there, the other
  // kind an error, and both an error for a value of another kind.

  function OptUint(v: Value, key: string): Result<Option<U64>, Error> {
    match Get(v, Name(key))
    case Some(Uint(n)) => Ok(Some(n))
    case Some(_) => Err(BadField(key))
    case None => Ok(None)
  }

  function OptBytes(v: Value, key: string): Result<Option<Buf>, Error> {
    match Get(v, Name(key))
    case Some(Blob(b)) => Ok(Some(b))
    case Some(_) => Err(BadField(key))
    case None => Ok(None)
  }

  function OptText(v: Value, key: string): Result<Option<Buf>, Error> {
    match Get(v, Name(key))
    case Some(Text(s)) => Ok(Some(s))
    case Some(_) => Err(BadField(key))
    case None => Ok(None)
  }

  function OptBool(v: Value, key: string): Result<Option<bool>, Error> {
    match Get(v, Name(key))
    case Some(Bool(b)) => Ok(Some(b))
    case Some(_) => Err(BadField(key))
    case None => Ok(None)
  }

  /** A byte string of exactly `n` bytes, if there is one. */
  function OptBytesOf(v: Value, key: string, n: nat): (r: Result<Option<Buf>, Error>)
    ensures r.Ok? && r.value.Some? ==> |r.value.value| == n
  {
    match OptBytes(v, key)
    case Ok(Some(b)) => if |b| == n then Ok(Some(b)) else Err(BadField(key))
    case other => other
  }

  function Required<T>(r: Result<Option<T>, Error>, key: string): Result<T, Error> {
    match r
    case Ok(Some(x)) => Ok(x)
    case Ok(None) => Err(MissingField(key))
    case Err(e) => Err(e)
  }

  function UintField(v: Value, key: string): Result<U64, Error> {
    Required(OptUint(v, key), key)
  }

  function BytesField(v: Value, key: string): Result<Buf, Error> {
    Required(OptBytes(v, key), key)
  }

  function BytesOf(v: Value, key: string, n: nat): (r: Result<Buf, Error>)
    ensures r.Ok? ==> |r.value| == n
  {
    Required(OptBytesOf(v, key, n), key)
  }

  function TextField(v: Value, key: string): Result<Buf, Error> {
    Required(OptText(v, key), key)
  }

  /** A failure found, if one was. */
  function Unless(found: Option<Error>): Result<(), Error> {
    match found
    case None => Ok(())
    case Some(e) => Err(e)
  }

  function Check(holds: bool, otherwise: Error): Result<(), Error> {
    if holds then Ok(()) else Err(otherwise)
  }

  // One signer.

  datatype Envelope = Envelope(value: Value, v: U64, signedBytes: Buf, sig: Buf)

  /** `seal`, with the signature made over `Encode(unsigned)`. */
  function Sealed(unsigned: Value, sig: Buf): Buf
    requires unsigned.Map?
  {
    Encode(Push(unsigned, SIG, Blob(sig)))
  }

  function FromValueUpto(value: Value, newest: U64): (r: Result<Envelope, Error>) {
    if !value.Map? then Err(NotAMap) else
      var v :- UintField(value, "v");
      var _ :- Check(v != 0 && v <= newest, UnsupportedVersion(v));
      var sig :- BytesOf(value, "sig", SIG_BYTES);
      Ok(Envelope(value, v, Encode(Without(value, SIG)), sig))
  }

  function OpenUpto(bytes: Buf, newest: U64): (r: Result<Envelope, Error>) {
    match DecodeCanonical(bytes)
    case Err(e) => Err(CborFailed(e))
    case Ok(value) => FromValueUpto(value, newest)
  }

  // Two signers, both over the map without either signature.

  datatype AckedEnvelope = AckedEnvelope(value: Value, signedBytes: Buf, sig: Buf, ack: Buf)

  function SealedAcked(unsigned: Value, sig: Buf, ack: Buf): Buf
    requires unsigned.Map?
  {
    Encode(Push(Push(unsigned, SIG, Blob(sig)), ACK, Blob(ack)))
  }

  function AckedFromValue(value: Value): (r: Result<AckedEnvelope, Error>) {
    if !value.Map? then Err(NotAMap) else
      var v :- UintField(value, "v");
      var _ :- Check(v == VERSION, UnsupportedVersion(v));
      var sig :- BytesOf(value, "sig", SIG_BYTES);
      var ack :- BytesOf(value, "ack", SIG_BYTES);
      Ok(AckedEnvelope(value, Encode(Without(Without(value, SIG), ACK)), sig, ack))
  }

  function OpenAcked(bytes: Buf): (r: Result<AckedEnvelope, Error>) {
    match DecodeCanonical(bytes)
    case Err(e) => Err(CborFailed(e))
    case Ok(value) => AckedFromValue(value)
  }

  lemma SigNames()
    ensures SIG != ACK && SIG != Name("v") && ACK != Name("v")
    ensures Leaf(Text(SIG)) && Leaf(Text(ACK))
  {
    assert SIG[0] == 's' as int && ACK[0] == 'a' as int;
    NameText("sig");
    NameText("ack");
  }

  /** What any map opens as once it is sealed: its own bytes as the signed ones and
      the signature it was given, unless it nests too deep, names a key twice or
      the signature's at all, or has a version the reader does not take. */
  lemma SealOpens(unsigned: Value, sig: Buf, newest: U64)
    requires unsigned.Map? && Fits(unsigned) && |unsigned.entries| + 1 < TWO64 && |sig| == SIG_BYTES
    ensures OpenUpto(Sealed(unsigned, sig), newest) ==
            if !Within(unsigned, MAX_DEPTH) then Err(CborFailed(TooDeep))
            else if Get(unsigned, SIG).Some? || HasDuplicateKeys(DeepSort(unsigned)) then Err(CborFailed(NotCanonical))
            else match UintField(unsigned, "v")
            case Err(e) => Err(e)
            case Ok(n) =>
              if n == 0 || n > newest then Err(UnsupportedVersion(n)) else
                Ok(Envelope(DeepSort(Push(unsigned, SIG, Blob(sig))), n, Encode(unsigned), sig))
  {
    hide Encode, DeepSort, DecodeCanonical, Fits, Within, HasDuplicateKeys, FromValueUpto, OpenMap, Clash, Find,
         Pushable, CanonicalEntry, UintField;
    var es, e := unsigned.entries, Entry(Text(SIG), Blob(sig));
    SignaturePushable(SIG, sig);
    OnePushable(e);
    PushedDecodes(es, [e]);
    ClashFound(es, [e]);
    if Within(unsigned, MAX_DEPTH) && !Clash(es, [e]) {
      SortedReads(unsigned);
      DeepSortGet(unsigned, SIG);
      DeepSortTwice(es, [e]);
      OpenSeals(DeepSort(unsigned), sig, newest);
    }
  }

  lemma SignaturePushable(name: Buf, sig: Buf)
    requires name == SIG || name == ACK
    requires |sig| == SIG_BYTES
    ensures CanonicalEntry(Entry(Text(name), Blob(sig)))
  {
    hide CanonicalEntry, Leaf;
    SigNames();
    SmallLeaf(sig);
    LeafEntry(Entry(Text(name), Blob(sig)));
  }

  lemma SortedReads(v: Value)
    requires v.Map? && OpenMap(DeepSort(v))
    ensures UintField(DeepSort(v), "v") == UintField(v, "v")
    ensures Encode(DeepSort(v)) == Encode(v)
    ensures DeepSort(v).Map? && |DeepSort(v).entries| == |v.entries|
  {
    hide OpenMap, Encode, Find;
    DeepSortGet(v, Name("v"));
    EncodeDeepSort(v);
  }

  /** `SealOpens` of a map in order inside. */
  lemma OpenSeals(unsigned: Value, sig: Buf, newest: U64)
    requires OpenMap(unsigned) && Get(unsigned, SIG).None? && |sig| == SIG_BYTES
    requires |unsigned.entries| + 1 < TWO64
    ensures OpenUpto(Sealed(unsigned, sig), newest) ==
            match UintField(unsigned, "v")
            case Err(e) => Err(e)
            case Ok(n) =>
              if n == 0 || n > newest then Err(UnsupportedVersion(n)) else
                Ok(Envelope(DeepSort(Push(unsigned, SIG, Blob(sig))), n, Encode(unsigned), sig))
  {
    hide OpenMap, Encode, DeepSort, DecodeCanonical, Get, Push, Without;
    OpenPushed(unsigned, sig);
  }

  lemma OpenPushed(unsigned: Value, sig: Buf)
    requires OpenMap(unsigned) && Get(unsigned, SIG).None? && |sig| == SIG_BYTES
    requires |unsigned.entries| + 1 < TWO64
    ensures var whole := Push(unsigned, SIG, Blob(sig));
            var c := DeepSort(whole);
            && DecodeCanonical(Encode(whole)) == Ok(c) && c.Map? && Encode(Without(c, SIG)) == Encode(unsigned)
            && Get(c, SIG) == Some(Blob(sig)) && Get(c, Name("v")) == Get(unsigned, Name("v"))
  {
    hide CanonicalEntry, KeysApart, Encode, DeepSort, DecodeCanonical, Leaf, IsCanonical, Find, Drop;
    SigNames();
    SmallLeaf(sig);
    var whole := Push(unsigned, SIG, Blob(sig));
    PushOpen(unsigned, SIG, Blob(sig));
    OpenCanonical(whole);
    var c := DeepSort(whole);
    CanonicalIsOpen(c);
    SameEntriesGet(c, whole, SIG);
    SameEntriesGet(c, whole, Name("v"));
    WithoutOpen(c, SIG);
    DropPushed(unsigned, SIG, Blob(sig));
    WithoutSame(c, whole, SIG);
    SameEntriesEncode(Without(c, SIG), unsigned);
  }

  lemma WithoutSame(v: Value, w: Value, name: Buf)
    requires v.Map? && w.Map? && forall e :: e in v.entries <==> e in w.entries
    ensures forall e :: e in Without(v, name).entries <==> e in Without(w, name).entries
  {
  }

  /** An accepted object is its signed bytes' map with its signature put back. */
  lemma EnvelopeWhole(bytes: Buf, newest: U64)
    requires OpenUpto(bytes, newest).Ok?
    ensures var env := OpenUpto(bytes, newest).value;
            && OpenMap(env.value) && Encode(env.value) == bytes
            && DecodeCanonical(env.signedBytes) == Ok(Without(env.value, SIG))
            && bytes == Sealed(Without(env.value, SIG), env.sig)
  {
    hide CanonicalEntry, KeysApart, Encode, DeepSort, DecodeCanonical, Leaf, IsCanonical;
    var env := OpenUpto(bytes, newest).value;
    DecodeIff(bytes, env.value);
    CanonicalIsOpen(env.value);
    WithoutCanonical(env.value, SIG);
    var body := Without(env.value, SIG);
    DecodeIff(env.signedBytes, body);
    PushBack(env.value, SIG);
    SameEntriesEncode(Push(body, SIG, Blob(env.sig)), env.value);
  }

  lemma WithoutCanonical(v: Value, name: Buf)
    requires IsCanonical(v) && v.Map?
    ensures IsCanonical(Without(v, name))
  {
    hide Encode, EncodeEntries, DeepSort;
    CanonicalIsOpen(v);
    DropStrict(v.entries, name);
    WithoutOpen(v, name);
    OpenEntriesFit(Without(v, name));
  }

  lemma {:induction false} DropStrict(es: seq<Entry>, name: Buf)
    requires Sorting.Strict(EncodeEntries(es))
    ensures Sorting.Strict(EncodeEntries(Drop(es, name)))
  {
    hide Encode, EncodeEntry, EncodeEntries, Sorting.Strict, LexLt;
    if es != [] {
      StrictTail(es);
      DropStrict(es[1..], name);
      var r := Drop(es[1..], name);
      if !IsKey(es[0].key, name) {
        StrictBefore(es[0], r);
      }
    }
  }

  lemma StrictTail(es: seq<Entry>)
    requires es != [] && Sorting.Strict(EncodeEntries(es))
    ensures Sorting.Strict(EncodeEntries(es[1..]))
    ensures forall e | e in es[1..] :: LexLt(EncodeEntry(es[0]).key, EncodeEntry(e).key)
  {
    hide EncodeEntry, EncodeEntries, LexLt, Sorting.Strict;
    Sorting.StrictRest(EncodeEntries(es));
    EncodedTail(es);
    var q := EncodeEntries(es[1..]);
    forall e | e in es[1..] ensures LexLt(EncodeEntry(es[0]).key, EncodeEntry(e).key) {
      var k :| 0 <= k < |es[1..]| && es[1..][k] == e;
      assert q[k] == EncodeEntry(e) && q[k] in q;
    }
  }

  lemma EncodedTail(es: seq<Entry>)
    requires es != []
    ensures EncodeEntries(es)[1..] == EncodeEntries(es[1..])
  {
    hide EncodeEntry;
  }

  lemma StrictBefore(e: Entry, es: seq<Entry>)
    requires Sorting.Strict(EncodeEntries(es))
    requires forall x | x in es :: LexLt(EncodeEntry(e).key, EncodeEntry(x).key)
    ensures Sorting.Strict(EncodeEntries([e] + es))
  {
    hide EncodeEntry, LexLt, Sorting.Strict;
    var q := EncodeEntries(es);
    forall y | y in q ensures LexLt(EncodeEntry(e).key, y.key) {
      var j :| 0 <= j < |q| && q[j] == y;
      assert es[j] in es;
    }
    Sorting.StrictCons(EncodeEntry(e), q);
    assert ([e] + es)[1..] == es;
  }

  /** No two accepted objects share their signed bytes and their signature. */
  lemma EnvelopeDetermined(a: Buf, b: Buf, newest: U64)
    requires OpenUpto(a, newest).Ok? && OpenUpto(b, newest).Ok?
    requires OpenUpto(a, newest).value.signedBytes == OpenUpto(b, newest).value.signedBytes
    requires OpenUpto(a, newest).value.sig == OpenUpto(b, newest).value.sig
    ensures a == b
  {
    hide OpenMap, Encode, DecodeCanonical, OpenUpto, Sealed;
    EnvelopeWhole(a, newest);
    EnvelopeWhole(b, newest);
  }

  /** The two signatures come off in either order. */
  lemma {:induction false} DropCommutes(es: seq<Entry>, a: Buf, b: Buf)
    ensures Drop(Drop(es, a), b) == Drop(Drop(es, b), a)
  {
    if es != [] {
      DropCommutes(es[1..], a, b);
      HeadAndTail(es);
    }
  }

  /** Both signatures pushed, and taken off again in either order. */
  lemma AckedPushed(unsigned: Value, sig: Buf, ack: Buf)
    requires OpenMap(unsigned) && Get(unsigned, SIG).None? && Get(unsigned, ACK).None?
    requires |sig| == SIG_BYTES && |ack| == SIG_BYTES && |unsigned.entries| + 2 < TWO64
    ensures var both := Push(Push(unsigned, SIG, Blob(sig)), ACK, Blob(ack));
            && OpenMap(both)
            && Get(both, SIG) == Some(Blob(sig)) && Get(both, ACK) == Some(Blob(ack))
            && Get(both, Name("v")) == Get(unsigned, Name("v"))
            && Without(Without(both, SIG), ACK) == unsigned
            && Without(Without(both, ACK), SIG) == unsigned
  {
    hide CanonicalEntry, KeysApart, Encode, Leaf;
    SigNames();
    SmallLeaf(sig);
    SmallLeaf(ack);
    var one := Push(unsigned, SIG, Blob(sig));
    var both := Push(one, ACK, Blob(ack));
    PushOpen(unsigned, SIG, Blob(sig));
    PushOpen(one, ACK, Blob(ack));
    DropPushed(unsigned, SIG, Blob(sig));
    DropPushed(one, ACK, Blob(ack));
    DropCommutes(both.entries, SIG, ACK);
  }

  /** `SealOpens` for two signers. */
  lemma SealAckedOpens(unsigned: Value, sig: Buf, ack: Buf)
    requires unsigned.Map? && Fits(unsigned) && |unsigned.entries| + 2 < TWO64
    requires |sig| == SIG_BYTES && |ack| == SIG_BYTES
    ensures OpenAcked(SealedAcked(unsigned, sig, ack)) ==
            if !Within(unsigned, MAX_DEPTH) then Err(CborFailed(TooDeep))
            else if Get(unsigned, SIG).Some? || Get(unsigned, ACK).Some? || HasDuplicateKeys(DeepSort(unsigned))
            then Err(CborFailed(NotCanonical))
            else match UintField(unsigned, "v")
            case Err(e) => Err(e)
            case Ok(n) =>
              if n != VERSION then Err(UnsupportedVersion(n)) else
                Ok(AckedEnvelope(DeepSort(Push(Push(unsigned, SIG, Blob(sig)), ACK, Blob(ack))),
                                 Encode(unsigned), sig, ack))
  {
    hide Encode, DeepSort, DecodeCanonical, Fits, Within, HasDuplicateKeys, AckedFromValue, OpenMap, Find, UintField,
         SealedAcked, Push, Get;
    AckedDecodes(unsigned, sig, ack);
    if Within(unsigned, MAX_DEPTH) && Get(unsigned, SIG).None? && Get(unsigned, ACK).None?
       && !HasDuplicateKeys(DeepSort(unsigned)) {
      AckedSorted(unsigned, sig, ack);
    }
  }

  /** What was sealed twice decodes as, and when the map under it can be sorted. */
  lemma AckedDecodes(unsigned: Value, sig: Buf, ack: Buf)
    requires unsigned.Map? && Fits(unsigned) && |unsigned.entries| + 2 < TWO64
    requires |sig| == SIG_BYTES && |ack| == SIG_BYTES
    ensures var clash := Get(unsigned, SIG).Some? || Get(unsigned, ACK).Some? || HasDuplicateKeys(DeepSort(unsigned));
            && (!Within(unsigned, MAX_DEPTH) ==> DecodeCanonical(SealedAcked(unsigned, sig, ack)) == Err(TooDeep))
            && (Within(unsigned, MAX_DEPTH) && clash ==>
                  DecodeCanonical(SealedAcked(unsigned, sig, ack)) == Err(NotCanonical))
            && (Within(unsigned, MAX_DEPTH) && !clash ==>
                  && OpenMap(DeepSort(unsigned))
                  && OpenMap(Push(Push(DeepSort(unsigned), SIG, Blob(sig)), ACK, Blob(ack))))
  {
    hide Encode, DeepSort, DecodeCanonical, Fits, Within, HasDuplicateKeys, OpenMap, Clash, Find, Pushable, Push,
         Signatures;
    var more := Signatures(sig, ack);
    SignaturesPushable(sig, ack);
    PushedDecodes(unsigned.entries, more);
    SignaturesClash(unsigned.entries, sig, ack);
    PushedBoth(unsigned, sig, ack);
    SortedMap(unsigned.entries);
    PushedBoth(DeepSort(unsigned), sig, ack);
  }

  function Signatures(sig: Buf, ack: Buf): (r: seq<Entry>)
    ensures |r| == 2
  {
    [Entry(Text(SIG), Blob(sig)), Entry(Text(ACK), Blob(ack))]
  }

  lemma SignaturesPushable(sig: Buf, ack: Buf)
    requires |sig| == SIG_BYTES && |ack| == SIG_BYTES
    ensures Pushable(Signatures(sig, ack))
  {
    hide CanonicalEntry, Pushable;
    SigNames();
    SignaturePushable(SIG, sig);
    SignaturePushable(ACK, ack);
    TwoPushable(Entry(Text(SIG), Blob(sig)), Entry(Text(ACK), Blob(ack)));
  }

  lemma SignaturesClash(es: seq<Entry>, sig: Buf, ack: Buf)
    requires |sig| == SIG_BYTES && |ack| == SIG_BYTES
    ensures Clash(es, Signatures(sig, ack)) <==>
            Find(es, SIG).Some? || Find(es, ACK).Some? || HasDuplicateKeys(DeepSort(Map(es)))
  {
    hide Clash, Pushable, Find, HasDuplicateKeys, DeepSort;
    var more := Signatures(sig, ack);
    SignaturesPushable(sig, ack);
    ClashFound(es, more);
    assert more[0] in more && more[1] in more;
  }

  lemma AckedSorted(unsigned: Value, sig: Buf, ack: Buf)
    requires unsigned.Map? && OpenMap(DeepSort(unsigned)) && |unsigned.entries| + 2 < TWO64
    requires |sig| == SIG_BYTES && |ack| == SIG_BYTES && Get(unsigned, SIG).None? && Get(unsigned, ACK).None?
    requires OpenMap(Push(Push(DeepSort(unsigned), SIG, Blob(sig)), ACK, Blob(ack)))
    ensures OpenAcked(SealedAcked(unsigned, sig, ack)) ==
            match UintField(unsigned, "v")
            case Err(e) => Err(e)
            case Ok(n) =>
              if n != VERSION then Err(UnsupportedVersion(n)) else
                Ok(AckedEnvelope(DeepSort(Push(Push(unsigned, SIG, Blob(sig)), ACK, Blob(ack))),
                                 Encode(unsigned), sig, ack))
  {
    hide Encode, DeepSort, AckedFromValue, OpenMap, OpenAcked, Find, UintField, Push, Signatures;
    var u := DeepSort(unsigned);
    SortedReads(unsigned);
    DeepSortGet(unsigned, SIG);
    DeepSortGet(unsigned, ACK);
    PushedBoth(unsigned, sig, ack);
    PushedBoth(u, sig, ack);
    DeepSortTwice(unsigned.entries, Signatures(sig, ack));
    OpenSealsAcked(u, sig, ack);
  }

  lemma PushedBoth(v: Value, sig: Buf, ack: Buf)
    requires v.Map?
    ensures Push(Push(v, SIG, Blob(sig)), ACK, Blob(ack)) ==
            Map(v.entries + Signatures(sig, ack))
  {
  }

  /** `SealAckedOpens` of a map in order inside. */
  lemma OpenSealsAcked(unsigned: Value, sig: Buf, ack: Buf)
    requires OpenMap(unsigned) && Get(unsigned, SIG).None? && Get(unsigned, ACK).None?
    requires |sig| == SIG_BYTES && |ack| == SIG_BYTES && |unsigned.entries| + 2 < TWO64
    ensures OpenAcked(SealedAcked(unsigned, sig, ack)) ==
            match UintField(unsigned, "v")
            case Err(e) => Err(e)
            case Ok(n) =>
              if n != VERSION then Err(UnsupportedVersion(n)) else
                Ok(AckedEnvelope(DeepSort(Push(Push(unsigned, SIG, Blob(sig)), ACK, Blob(ack))),
                                 Encode(unsigned), sig, ack))
  {
    hide OpenMap, Encode, DeepSort, DecodeCanonical, Get, Push, Without;
    OpenPushedBoth(unsigned, sig, ack);
  }

  lemma OpenPushedBoth(unsigned: Value, sig: Buf, ack: Buf)
    requires OpenMap(unsigned) && Get(unsigned, SIG).None? && Get(unsigned, ACK).None?
    requires |sig| == SIG_BYTES && |ack| == SIG_BYTES && |unsigned.entries| + 2 < TWO64
    ensures var both := Push(Push(unsigned, SIG, Blob(sig)), ACK, Blob(ack));
            var c := DeepSort(both);
            && DecodeCanonical(Encode(both)) == Ok(c) && c.Map?
            && Encode(Without(Without(c, SIG), ACK)) == Encode(unsigned)
            && Get(c, SIG) == Some(Blob(sig)) && Get(c, ACK) == Some(Blob(ack))
            && Get(c, Name("v")) == Get(unsigned, Name("v"))
  {
    hide OpenMap, Encode, DeepSort, DecodeCanonical, Leaf, IsCanonical, Drop, Find;
    AckedPushed(unsigned, sig, ack);
    var both := Push(Push(unsigned, SIG, Blob(sig)), ACK, Blob(ack));
    OpenCanonical(both);
    var c := DeepSort(both);
    CanonicalIsOpen(c);
    SameEntriesGet(c, both, SIG);
    SameEntriesGet(c, both, ACK);
    SameEntriesGet(c, both, Name("v"));
    WithoutOpen(c, SIG);
    WithoutOpen(Without(c, SIG), ACK);
    WithoutSame(c, both, SIG);
    WithoutSame(Without(c, SIG), Without(both, SIG), ACK);
    SameEntriesEncode(Without(Without(c, SIG), ACK), unsigned);
  }

  lemma AckedWhole(bytes: Buf)
    requires OpenAcked(bytes).Ok?
    ensures var env := OpenAcked(bytes).value;
            var body := Without(Without(env.value, SIG), ACK);
            && DecodeCanonical(env.signedBytes) == Ok(body)
            && bytes == SealedAcked(body, env.sig, env.ack)
  {
    hide CanonicalEntry, KeysApart, Encode, DeepSort, DecodeCanonical, Leaf, IsCanonical;
    SigNames();
    var env := OpenAcked(bytes).value;
    DecodeIff(bytes, env.value);
    CanonicalIsOpen(env.value);
    WithoutCanonical(env.value, SIG);
    var one := Without(env.value, SIG);
    WithoutCanonical(one, ACK);
    var body := Without(one, ACK);
    DecodeIff(env.signedBytes, body);
    WithoutOpen(env.value, SIG);
    PushBack(env.value, SIG);
    PushBack(one, ACK);
    WithoutOpen(one, ACK);
    SmallLeaf(env.sig);
    SmallLeaf(env.ack);
    PushOpen(body, SIG, Blob(env.sig));
    PushOpen(Push(body, SIG, Blob(env.sig)), ACK, Blob(env.ack));
    SameEntriesEncode(Push(Push(body, SIG, Blob(env.sig)), ACK, Blob(env.ack)), env.value);
  }

  lemma AckedDetermined(a: Buf, b: Buf)
    requires OpenAcked(a).Ok? && OpenAcked(b).Ok?
    requires OpenAcked(a).value.signedBytes == OpenAcked(b).value.signedBytes
    requires OpenAcked(a).value.sig == OpenAcked(b).value.sig
    requires OpenAcked(a).value.ack == OpenAcked(b).value.ack
    ensures a == b
  {
    hide Encode, DecodeCanonical, OpenAcked, SealedAcked;
    AckedWhole(a);
    AckedWhole(b);
  }

  /** The validity window certificates and attestations share; the additions
      saturate. */
  function CheckWindow(issued: U64, expires: U64, now: U64, skew: U64): Option<Error> {
    if expires <= issued then Some(NotYetValid)
    else if issued > Saturating(now + skew) then Some(NotYetValid)
    else if Saturating(expires + skew) < now then Some(Expired)
    else None
  }

  function Saturating(n: nat): U64 {
    if n < TWO64 then n else TWO64 - 1
  }
}
