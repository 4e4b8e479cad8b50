/** Padding a private message, and why every one that passes its checks fits. */
module Padding {
  import opened Bytes
  import opened Cbor
  import opened Canonical
  import opened Maps
  import opened Signed
  import opened LineEndings
  import opened Messages
  import opened Objects
  import opened Fields
  import Contents

  const PAD_SIZES: seq<nat> := [512, 1024, 2048, 4096, 8192, 17_103]
  const DENIABLE_KEY_BYTES: nat := 32

  function PadLess(deniable: bool): nat {
    if deniable then DENIABLE_KEY_BYTES else 0
  }

  function PadSize(i: nat, deniable: bool): nat
    requires i < |PAD_SIZES|
  {
    PAD_SIZES[i] - PadLess(deniable)
  }

  function Zeros(n: nat): (r: Buf)
    ensures |r| == n && forall i :: 0 <= i < n ==> r[i] == 0
  {
    if n == 0 then [] else Zeros(n - 1) + [0]
  }

  /** `padded` is `m` and then zeros, at the smallest size that holds `m`. */
  ghost predicate PadsTo(m: Buf, deniable: bool, padded: Buf) {
    && |m| <= |padded| && padded == m + Zeros(|padded| - |m|)
    && exists i :: 0 <= i < |PAD_SIZES| && SmallestFit(m, deniable, |padded|, i)
  }

  ghost predicate SmallestFit(m: Buf, deniable: bool, size: nat, i: nat) {
    i < |PAD_SIZES| && size == PadSize(i, deniable) && forall j :: 0 <= j < i ==> PadSize(j, deniable) < |m|
  }

  method Pad(m: Buf, deniable: bool) returns (r: Result<Buf, Error>)
    ensures r.Ok? ==> PadsTo(m, deniable, r.value)
    ensures r.Ok? <==> |m| <= PadSize(|PAD_SIZES| - 1, deniable)
    ensures r.Err? ==> r.error == TooLarge
  {
    var i := 0;
    while i < |PAD_SIZES| && |m| > PadSize(i, deniable)
      invariant i <= |PAD_SIZES|
      invariant forall j :: 0 <= j < i ==> PadSize(j, deniable) < |m|
    {
      i := i + 1;
    }
    if i == |PAD_SIZES| {
      assert PadSize(|PAD_SIZES| - 1, deniable) < |m|;
      return Err(TooLarge);
    }
    assert PadSize(i, deniable) <= PadSize(|PAD_SIZES| - 1, deniable);
    var padded := m;
    assert m + Zeros(0) == m;
    while |padded| < PadSize(i, deniable)
      invariant |m| <= |padded| <= PadSize(i, deniable) && padded == m + Zeros(|padded| - |m|)
    {
      assert m + (Zeros(|padded| - |m|) + [0]) == m + Zeros(|padded| - |m|) + [0];
      padded := padded + [0];
    }
    assert SmallestFit(m, deniable, |padded|, i);
    r := Ok(padded);
  }

  predicate IsPadSize(n: nat, deniable: bool) {
    exists i :: 0 <= i < |PAD_SIZES| && PadSize(i, deniable) == n
  }

  /** Undoes `Pad`: the bytes of the one item, refused if the size is none of the
      form's or anything but zeros follows. */
  function Unpad(padded: Buf, deniable: bool): (r: Result<Buf, Error>) {
    if !IsPadSize(|padded|, deniable) then Err(BadField("padding")) else
      match ItemLen(padded)
      case Err(e) => Err(CborFailed(e))
      case Ok(end) =>
        if exists i :: end <= i < |padded| && padded[i] != 0 then Err(BadField("padding")) else Ok(padded[..end])
  }

  /** What was padded is what comes back, for every map an encoder could write. */
  lemma UnpadPad(v: Value, deniable: bool, padded: Buf)
    requires Fits(v) && Within(v, MAX_DEPTH) && PadsTo(Encode(v), deniable, padded)
    ensures Unpad(padded, deniable) == Ok(Encode(v))
  {
    hide Fits, Within, Encode, ReadItem;
    var m := Encode(v);
    var rest := Zeros(|padded| - |m|);
    ReadEncode(v, rest, 0);
    var i :| 0 <= i < |PAD_SIZES| && SmallestFit(m, deniable, |padded|, i);
    assert padded[..|m|] == m;
    forall j | |m| <= j < |padded| ensures padded[j] == 0 {
      assert padded[j] == rest[j - |m|];
    }
  }

  // How long a private message is.

  lemma PrivateLength(m: Message)
    requires m.PrivateMessage? && |m.cert| <= CERT_MAX_BYTES
    requires |CanonicalText(m.text)| <= 8192
    requires m.quote.Some? ==> |CanonicalText(m.quote.value)| <= 8192
    ensures FieldsLength(PrivateFields(m)) <= 17_001
  {
    hide Encode, CanonicalText;
    var f := PrivateFields(m);
    HeadLength(0, 1);
    HeadLength(0, m.sent);
    UintLength(1);
    UintLength(m.sent);
    BlobLength(m.id);
    BlobLength(m.to);
    BlobLength(m.cert);
    TextLength(CanonicalText(m.text));
    if m.quote.Some? { TextLength(CanonicalText(m.quote.value)); }
    BoolLength(true);
    EightFields(f);
  }

  /** Every private message whose fields and certificate pass fits the largest
      padding, signed or, with 32 bytes less, unsigned. */
  lemma PrivateFits(m: Message, sig: Buf)
    requires m.PrivateMessage? && |m.cert| <= CERT_MAX_BYTES && |sig| == SIG_BYTES
    requires FromValue(Private, Unsigned(m), false).Ok?
    ensures |Sealed(Unsigned(m), sig)| <= PadSize(|PAD_SIZES| - 1, false)
    ensures |Encode(Unsigned(m))| <= PadSize(|PAD_SIZES| - 1, true)
  {
    hide Encode, FromValue, FieldsLength, Sealed, PrivateGet, BuildMap, CanonicalText;
    PrivateGets(m);
    PrivateReads(Unsigned(m), m);
    PrivateLength(m);
    ObjectLength(PrivateFields(m), sig);
  }

  /** The texts a program holds are UTF-8, and its lengths fit a machine word. */
  ghost predicate PrivateHeld(m: Message)
    requires m.PrivateMessage?
  {
    && |m.cert| < TWO64 && ValidUtf8(m.text) && |m.text| < TWO64
    && (m.quote.Some? ==> ValidUtf8(m.quote.value) && |m.quote.value| < TWO64)
  }

  lemma PrivateOpen(m: Message)
    requires m.PrivateMessage? && PrivateHeld(m)
    ensures OpenMap(Unsigned(m)) && |Unsigned(m).entries| <= 8
  {
    hide OpenMap, CanonicalText, Leaf, BuildMap, NamesApart, ReplaceCr, ReplaceCrLf, PrivateGet;
    PrivateGets(m);
    var f := PrivateFields(m);
    SmallLeaf(m.id);
    SmallLeaf(m.to);
    SmallLeaf(m.cert);
    NumberLeaf(VERSION);
    NumberLeaf(m.sent);
    Contents.CanonicalLeaf(m.text);
    if m.quote.Some? { Contents.CanonicalLeaf(m.quote.value); }
    BuiltOpen(f);
    BuiltFew(f);
  }

  /** The sealed map opens as an envelope over the unsigned one, with its fields. */
  lemma SealedReads(m: Message, sig: Buf)
    requires m.PrivateMessage? && PrivateHeld(m) && |sig| == SIG_BYTES
    ensures var c := DeepSort(Push(Unsigned(m), SIG, Blob(sig)));
            && DecodeCanonical(Sealed(Unsigned(m), sig)) == Ok(c)
            && PrivateGet(c, m) && Encode(c) == Sealed(Unsigned(m), sig)
            && FromValueUpto(c, VERSION) == Ok(Envelope(c, VERSION, Encode(Unsigned(m)), sig))
  {
    hide CanonicalEntry, KeysApart, Encode, DeepSort, DecodeCanonical, Find, BuildMap, PrivateHeld, FromValueUpto,
         IsCanonical, Name, CanonicalText;
    PrivateOpen(m);
    PrivateGets(m);
    SigNames();
    SmallLeaf(sig);
    PushOpen(Unsigned(m), SIG, Blob(sig));
    var whole := Push(Unsigned(m), SIG, Blob(sig));
    OpenCanonical(whole);
    var c := DeepSort(whole);
    CanonicalIsOpen(c);
    OpenSeals(Unsigned(m), sig, VERSION);
    forall name | name != SIG ensures Get(c, name) == Get(Unsigned(m), name) {
      SameEntriesGet(c, whole, name);
    }
    NotSig();
  }

  lemma NotSig()
    ensures forall i :: 0 <= i < |PRIVATE_NAMES| ==> Name(PRIVATE_NAMES[i]) != SIG
    ensures Name("v") != SIG && Name("id") != SIG && Name("sent") != SIG && Name("to") != SIG && Name("cert") != SIG
    ensures Name("text") != SIG && Name("quote") != SIG && Name("auto") != SIG && Name("in") != SIG
    ensures Name("cert_sha256") != SIG
  {
    hide Name;
    assert SIG[0] == 's' as int && |SIG| == 3;
  }

  /** A private message signed, and read back whole: its own fields, its texts in
      canonical form. */
  lemma PrivateSigned(w: World, m: Message, sig: Buf, at: U64)
    requires m.PrivateMessage? && PrivateHeld(m) && |sig| == SIG_BYTES
    requires FromValue(Private, Unsigned(m), false).Ok? && CheckCert(w, m.cert, m.sent, at).Ok?
    requires w.verifies(CheckCert(w, m.cert, m.sent, at).value.device, Private, Encode(Unsigned(m)), sig).None?
    ensures var r := ParseWhole(w, Private, Sealed(Unsigned(m), sig), at);
            r.Ok? && r.value.message == Normal(m) && Encode(r.value.whole) == Sealed(Unsigned(m), sig)
  {
    hide Encode, DeepSort, DecodeCanonical, FromValue, FromValueUpto, Entries, Sealed, CheckWindow, PrivateGet,
         ValidUtf8, CanonicalText, PrivateHeld;
    PrivateGets(m);
    PrivateReads(Unsigned(m), m);
    PrivateFits(m, sig);
    SealedReads(m, sig);
    PrivateReads(DeepSort(Push(Unsigned(m), SIG, Blob(sig))), m);
  }
}
