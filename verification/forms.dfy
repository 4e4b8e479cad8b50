/** The whole, detached and link forms of a message are one message: whichever a
    reader is handed, it ends with the same bytes, fields and certificate. */
module Forms {
  import opened Bytes
  import opened Cbor
  import opened Canonical
  import opened Maps
  import opened Signed
  import opened LineEndings
  import opened Messages

  ghost predicate Under(e: Entry, keys: seq<string>) {
    exists i :: 0 <= i < |keys| && IsKey(e.key, Name(keys[i]))
  }

  /** `u` holds the entries of `v` but those under `keys`. */
  ghost predicate SameBut(u: Value, v: Value, keys: seq<string>) {
    && OpenMap(u) && OpenMap(v)
    && |u.entries| + |keys| == |v.entries|
    && forall e :: e in u.entries <==> e in v.entries && !Under(e, keys)
  }

  ghost predicate AllPresent(v: Value, keys: seq<string>) {
    && (forall i :: 0 <= i < |keys| ==> Get(v, Name(keys[i])).Some?)
    && (forall i, j :: 0 <= i < j < |keys| ==> Name(keys[i]) != Name(keys[j]))
  }

  /** The texts carried beside a form, as they may have been rewritten. */
  ghost predicate TextsMatch(v: Value, keys: seq<string>, texts: seq<Buf>) {
    && |keys| == |texts|
    && forall i :: 0 <= i < |keys| ==> Get(v, Name(keys[i])) == Some(Text(CanonicalText(texts[i])))
  }

  /** A message some check passed. */
  ghost predicate Genuine(w: World, kind: Kind, s: Checked) {
    OpenMap(s.whole) && exists d, at :: Verify(w, kind, s.whole, d, at) == Ok(s)
  }

  /** What two readings of one message agree on. */
  ghost predicate SameMessage(s: Checked, t: Checked) {
    && Encode(s.whole) == Encode(t.whole) && s.message == t.message && s.cert == t.cert
    && s.whole.Map? && t.whole.Map? && forall e :: e in s.whole.entries <==> e in t.whole.entries
  }

  lemma UnderCons(keys: seq<string>)
    requires keys != []
    ensures forall e :: Under(e, keys) <==> IsKey(e.key, Name(keys[0])) || Under(e, keys[1..])
  {
    forall e ensures Under(e, keys) <==> IsKey(e.key, Name(keys[0])) || Under(e, keys[1..]) {
      if Under(e, keys) {
        var i :| 0 <= i < |keys| && IsKey(e.key, Name(keys[i]));
        if i > 0 { assert keys[1..][i - 1] == keys[i]; }
      }
      if Under(e, keys[1..]) {
        var i :| 0 <= i < |keys| - 1 && IsKey(e.key, Name(keys[1..][i]));
        assert keys[i + 1] == keys[1..][i];
      }
    }
  }

  lemma {:induction false} DetachedSame(v: Value, keys: seq<string>)
    requires OpenMap(v) && AllPresent(v, keys)
    ensures SameBut(DetachedValue(v, keys), v, keys)
    decreases |keys|
  {
    hide CanonicalEntry, KeysApart, Find;
    if keys != [] {
      var u := Without(v, Name(keys[0]));
      WithoutOpen(v, Name(keys[0]));
      DropOne(v.entries, Name(keys[0]));
      forall i | 0 <= i < |keys| - 1 ensures Get(u, Name(keys[1..][i])).Some? {
        assert keys[1..][i] == keys[i + 1];
      }
      DetachedSame(u, keys[1..]);
      UnderCons(keys);
    }
  }

  lemma SameButDecoded(u: Value, v: Value, keys: seq<string>)
    requires SameBut(u, v, keys)
    ensures DecodeCanonical(Encode(u)) == Ok(DeepSort(u)) && SameBut(DeepSort(u), v, keys)
  {
    hide CanonicalEntry, KeysApart, Encode, DeepSort, DecodeCanonical, IsCanonical;
    OpenCanonical(u);
    CanonicalIsOpen(DeepSort(u));
  }

  /** A name none of the `keys` keeps what `v` has under it. */
  lemma SameButGet(u: Value, v: Value, keys: seq<string>, name: Buf)
    requires SameBut(u, v, keys)
    ensures Get(u, name) ==
            if exists i :: 0 <= i < |keys| && Name(keys[i]) == name then None else Get(v, name)
  {
    hide OpenMap;
    GetMember(u, name);
    GetMember(v, name);
    if exists i :: 0 <= i < |keys| && Name(keys[i]) == name {
      assert forall x :: Under(Entry(Text(name), x), keys);
    } else {
      SameUnderName(u, v, name);
    }
  }

  /** Pushing back what `v` holds under one of the names. */
  lemma SameButPush(u: Value, v: Value, keys: seq<string>)
    requires SameBut(u, v, keys) && AllPresent(v, keys) && keys != []
    ensures Get(u, Name(keys[0])).None?
    ensures SameBut(Push(u, Name(keys[0]), Get(v, Name(keys[0])).value), v, keys[1..])
    ensures AllPresent(v, keys[1..])
  {
    hide CanonicalEntry, KeysApart, Find;
    var name := Name(keys[0]);
    var x := Get(v, name).value;
    SameButGet(u, v, keys, name);
    GetMember(v, name);
    GetLeaf(v, name);
    PushOpen(u, name, x);
    UnderCons(keys);
    forall e ensures e in Push(u, name, x).entries <==> e in v.entries && !Under(e, keys[1..]) {
      if e == Entry(Text(name), x) {
        assert forall i :: 0 <= i < |keys| - 1 ==> keys[1..][i] == keys[i + 1];
      }
      if e in v.entries && IsKey(e.key, name) {
        assert e == Entry(Text(name), e.val);
      }
    }
  }

  lemma {:induction false} AttachSame(u: Value, v: Value, keys: seq<string>, texts: seq<Buf>)
    requires SameBut(u, v, keys) && AllPresent(v, keys) && TextsMatch(v, keys, texts)
    ensures Attach(u, keys, texts).Ok? && SameBut(Attach(u, keys, texts).value, v, [])
    decreases |keys|
  {
    hide CanonicalEntry, KeysApart, Find, CanonicalText;
    if keys != [] {
      SameButPush(u, v, keys);
      assert TextsMatch(v, keys[1..], texts[1..]);
      AttachSame(Push(u, Name(keys[0]), Text(CanonicalText(texts[0]))), v, keys[1..], texts[1..]);
    }
  }

  // What a check reads of a map.

  /** Every field accessor answers alike under `key`. */
  ghost predicate FieldSame(u: Value, v: Value, key: string) {
    && Refuse(u, key) == Refuse(v, key)
    && UintField(u, key) == UintField(v, key) && BytesField(u, key) == BytesField(v, key)
    && OptText(u, key) == OptText(v, key) && TextField(u, key) == TextField(v, key)
    && Bytes16Field(u, key) == Bytes16Field(v, key) && Bytes32Field(u, key) == Bytes32Field(v, key)
    && OnlyTrue(u, key) == OnlyTrue(v, key)
    && (forall allowed :: Exact(u, key, allowed) == Exact(v, key, allowed))
    && (forall min, max :: BoundedText(u, key, min, max) == BoundedText(v, key, min, max))
  }

  ghost predicate OptionalSame(u: Value, v: Value, key: string) {
    && OptUint(u, key) == OptUint(v, key) && OptBytes(u, key) == OptBytes(v, key)
    && OptText(u, key) == OptText(v, key) && OptBool(u, key) == OptBool(v, key)
  }

  lemma OptionalReads(u: Value, v: Value, key: string)
    requires Get(u, Name(key)) == Get(v, Name(key))
    ensures OptionalSame(u, v, key) && Refuse(u, key) == Refuse(v, key)
  {
    hide Get, Name;
  }

  lemma ExactReads(u: Value, v: Value, key: string)
    requires Get(u, Name(key)) == Get(v, Name(key))
    ensures forall allowed :: Exact(u, key, allowed) == Exact(v, key, allowed)
  {
    hide Get, Name;
  }

  lemma BytesReads(u: Value, v: Value, key: string)
    requires OptBytes(u, key) == OptBytes(v, key)
    ensures BytesField(u, key) == BytesField(v, key)
    ensures OptBytes16(u, key) == OptBytes16(v, key) && OptBytes32(u, key) == OptBytes32(v, key)
    ensures Bytes16Field(u, key) == Bytes16Field(v, key) && Bytes32Field(u, key) == Bytes32Field(v, key)
  {
    hide OptBytes;
  }

  lemma FieldReads(u: Value, v: Value, key: string)
    requires Get(u, Name(key)) == Get(v, Name(key))
    ensures FieldSame(u, v, key)
  {
    hide Get, Name, CheckText, Exact, OptBytes, OptBytes16, OptBytes32, BytesField, Bytes16Field, Bytes32Field,
         OptUint, OptText, OptBool, Refuse;
    OptionalReads(u, v, key);
    ExactReads(u, v, key);
    BytesReads(u, v, key);
  }

  /** The fields are read through `Get` alone. */
  lemma FromValueSame(kind: Kind, u: Value, v: Value, detached: bool)
    requires forall name :: Get(u, name) == Get(v, name)
    ensures FromValue(kind, u, detached) == FromValue(kind, v, detached)
  {
    hide Get, Name;
    forall key: string ensures FieldSame(u, v, key) {
      FieldReads(u, v, key);
    }
    hide FieldSame;
    CommonSame(u, v);
    match kind
    case Private => PrivateSame(u, v, detached);
    case Chat => ChatSame(u, v);
    case News =>
      ParentSame(u, v);
      NewsSame(u, v);
  }

  lemma ParentSame(u: Value, v: Value)
    requires FieldSame(u, v, "parent") && Get(u, Name("parent")) == Get(v, Name("parent"))
    ensures ParentFrom(u) == ParentFrom(v)
  {
    hide Get, Name, Exact, Refuse, UintField, BytesField, OptText, TextField, Bytes16Field, Bytes32Field, OnlyTrue,
         BoundedText, OptBytes16, OptBytes32;
  }

  lemma CommonSame(u: Value, v: Value)
    requires forall key: string :: FieldSame(u, v, key)
    ensures Common(u) == Common(v)
  {
    hide Refuse, UintField, BytesField, Bytes16Field, OptText, TextField, Bytes32Field, OnlyTrue, Exact, BoundedText,
         Name;
    assert FieldSame(u, v, "cert_sha256") && FieldSame(u, v, "id") && FieldSame(u, v, "sent")
           && FieldSame(u, v, "cert");
  }

  lemma PrivateSame(u: Value, v: Value, detached: bool)
    requires Common(u) == Common(v) && forall key: string :: FieldSame(u, v, key)
    ensures PrivateFrom(u, detached) == PrivateFrom(v, detached)
  {
    hide Common, Refuse, UintField, BytesField, Bytes16Field, OptText, BoundedText, Bytes32Field, OnlyTrue, CheckText,
         Get, Name, Check, ParentFrom, Exact, TextField;
    assert FieldSame(u, v, "in") && FieldSame(u, v, "quote") && FieldSame(u, v, "text");
    assert FieldSame(u, v, "to") && FieldSame(u, v, "auto");
  }

  lemma ChatSame(u: Value, v: Value)
    requires Common(u) == Common(v) && forall key: string :: FieldSame(u, v, key)
    ensures ChatFrom(u) == ChatFrom(v)
  {
    hide Common, Refuse, UintField, BytesField, Exact, BoundedText, Bytes32Field, OnlyTrue, Name;
    assert FieldSame(u, v, "to") && FieldSame(u, v, "in") && FieldSame(u, v, "text") && FieldSame(u, v, "act");
  }

  lemma NewsSame(u: Value, v: Value)
    requires Common(u) == Common(v) && forall key: string :: FieldSame(u, v, key)
    requires ParentFrom(u) == ParentFrom(v)
    ensures NewsFrom(u) == NewsFrom(v)
  {
    hide Common, Refuse, UintField, BytesField, Exact, BoundedText, TextField, Bytes16Field, Bytes32Field, Name, Get,
         OptText, OnlyTrue, UintField, ParentFrom;
    assert FieldSame(u, v, "to") && FieldSame(u, v, "in") && FieldSame(u, v, "parent") && FieldSame(u, v, "subject");
    assert FieldSame(u, v, "body") && FieldSame(u, v, "mime");
  }

  /** A detached form's limits only refuse more. */
  lemma FromValueEither(kind: Kind, v: Value)
    requires FromValue(kind, v, true).Ok?
    ensures FromValue(kind, v, false) == FromValue(kind, v, true)
  {
    hide Get, Name, IsCanonicalText;
  }

  ghost predicate HasText(v: Value, key: string) {
    match Get(v, Name(key))
    case Some(Text(s)) => CR !in s
    case _ => false
  }

  lemma BoundedTextHas(v: Value, key: string, min: nat, max: nat)
    requires BoundedText(v, key, min, max).Ok?
    ensures HasText(v, key)
  {
    hide Get, Name;
  }

  lemma CommonHas(v: Value)
    requires Common(v).Ok?
    ensures Get(v, CERT) == Some(Blob(Common(v).value.2)) && Get(v, CERT_SHA256).None?
  {
    hide Get, Name, Bytes16Field, UintField;
  }

  /** What reading a map's fields guarantees the forms: every text key is there and
      free of CR, the certificate is the message's, and the hash's key is unused. */
  lemma FromValueTexts(kind: Kind, v: Value, detached: bool)
    requires FromValue(kind, v, detached).Ok?
    ensures forall i :: 0 <= i < |TextKeys(kind)| ==> HasText(v, TextKeys(kind)[i])
    ensures AllPresent(v, TextKeys(kind))
    ensures Get(v, CERT) == Some(Blob(FromValue(kind, v, detached).value.cert)) && Get(v, CERT_SHA256).None?
  {
    hide Get, Name, Refuse, OptText, TextField, Bytes16Field, Bytes32Field, OnlyTrue, Exact, CheckText, ParentFrom,
         BoundedText, Common, HasText, UintField;
    CommonHas(v);
    match kind {
      case Private => BoundedTextHas(v, "text", 1, if detached then 4096 else 8192);
      case Chat => BoundedTextHas(v, "text", 1, 4096);
      case News =>
        BoundedTextHas(v, "subject", 1, 255);
        BoundedTextHas(v, "body", 0, 65_535);
    }
    TextKeysPresent(kind, v);
  }

  lemma TextKeysPresent(kind: Kind, v: Value)
    requires forall i :: 0 <= i < |TextKeys(kind)| ==> HasText(v, TextKeys(kind)[i])
    ensures AllPresent(v, TextKeys(kind))
  {
    hide Name, Get;
    NameInjective("subject", "body");
    assert forall i :: 0 <= i < |TextKeys(kind)| ==> HasText(v, TextKeys(kind)[i]);
  }

  lemma VerifySame(w: World, kind: Kind, u: Value, v: Value, detached: bool, at: U64)
    requires SameBut(u, v, [])
    ensures Encode(u) == Encode(v)
    ensures var r := Verify(w, kind, v, detached, at);
            Verify(w, kind, u, detached, at) == if r.Err? then r else Ok(Checked(r.value.message, r.value.cert, u))
  {
    hide CanonicalEntry, KeysApart, Encode, DeepSort, FromValue, Find, CheckCert;
    SameEntriesEncode(u, v);
    forall name ensures Get(u, name) == Get(v, name) {
      SameEntriesGet(u, v, name);
    }
    FromValueSame(kind, u, v, detached);
    WithoutOpen(u, SIG);
    WithoutOpen(v, SIG);
    WithoutSame(u, v, SIG);
    SameEntriesEncode(Without(u, SIG), Without(v, SIG));
  }

  /** Checked again, at a time its certificate is valid, a genuine message passes
      under a detached form's limits if its fields do. */
  lemma VerifyAgain(w: World, kind: Kind, s: Checked, at: U64)
    requires Genuine(w, kind, s) && FromValue(kind, s.whole, true).Ok?
    requires CheckCert(w, s.message.cert, s.message.sent, at).Ok?
    ensures Verify(w, kind, s.whole, true, at) == Ok(s)
    ensures FromValue(kind, s.whole, true) == Ok(s.message)
  {
    hide OpenMap, Encode, FromValue, Get;
    FromValueEither(kind, s.whole);
  }

  /** A form's map decoded and its texts put back is the whole map again. */
  lemma ReassembledSame(kind: Kind, v: Value, texts: seq<Buf>)
    requires OpenMap(v) && FromValue(kind, v, true).Ok? && TextsMatch(v, TextKeys(kind), texts)
    ensures var d := DetachedValue(v, TextKeys(kind));
            && DecodeCanonical(Encode(d)) == Ok(DeepSort(d)) && DeepSort(d).Map?
            && Attach(DeepSort(d), TextKeys(kind), texts).Ok?
            && SameBut(Attach(DeepSort(d), TextKeys(kind), texts).value, v, [])
  {
    hide Encode, DeepSort, DecodeCanonical, FromValue, Get, DetachedValue, Attach, CanonicalEntry, KeysApart, TextKeys;
    var keys := TextKeys(kind);
    FromValueTexts(kind, v, true);
    DetachedSame(v, keys);
    SameButDecoded(DetachedValue(v, keys), v, keys);
    AttachSame(DeepSort(DetachedValue(v, keys)), v, keys, texts);
  }

  lemma ReassembledAgrees(w: World, kind: Kind, s: Checked, u: Value, at: U64)
    requires Genuine(w, kind, s) && FromValue(kind, s.whole, true).Ok? && SameBut(u, s.whole, [])
    requires CheckCert(w, s.message.cert, s.message.sent, at).Ok?
    ensures var r := Verify(w, kind, u, true, at);
            r.Ok? && SameMessage(r.value, s) && Genuine(w, kind, r.value)
  {
    hide Encode, FromValue, Verify, CanonicalEntry, KeysApart, CheckCert;
    VerifyAgain(w, kind, s, at);
    VerifySame(w, kind, u, s.whole, true, at);
    NoKeys(u, s.whole);
  }

  /** The detached form reads back as the message it was made from. */
  lemma DetachedAgrees(w: World, kind: Kind, s: Checked, texts: seq<Buf>, at: U64)
    requires Genuine(w, kind, s) && Detached(kind, s).Ok?
    requires TextsMatch(s.whole, TextKeys(kind), texts)
    requires CheckCert(w, s.message.cert, s.message.sent, at).Ok?
    ensures var r := ParseDetached(w, kind, Detached(kind, s).value, texts, at);
            r.Ok? && SameMessage(r.value, s) && Genuine(w, kind, r.value)
  {
    hide OpenMap, Encode, DeepSort, DecodeCanonical, FromValue, Verify, Get, DetachedValue, Attach, SameBut, TextKeys,
         SameMessage, CheckCert;
    ReassembledSame(kind, s.whole, texts);
    var d := DeepSort(DetachedValue(s.whole, TextKeys(kind)));
    ReassembledAgrees(w, kind, s, Attach(d, TextKeys(kind), texts).value, at);
  }

  lemma NoKeys(u: Value, v: Value)
    requires SameBut(u, v, [])
    ensures forall e :: e in u.entries <==> e in v.entries
  {
  }

  // The link form.

  lemma {:induction false} DetachedAppend(v: Value, keys: seq<string>, key: string)
    ensures DetachedValue(v, keys + [key]) == Without(DetachedValue(v, keys), Name(key))
    decreases |keys|
  {
    if keys != [] {
      assert (keys + [key])[1..] == keys[1..] + [key];
      DetachedAppend(Without(v, Name(keys[0])), keys[1..], key);
    } else {
      assert (keys + [key])[1..] == [];
    }
  }

  /** The order of the names left out does not matter. */
  lemma SameButRotate(u: Value, v: Value, keys: seq<string>, key: string)
    requires SameBut(u, v, keys + [key])
    ensures SameBut(u, v, [key] + keys)
  {
    hide OpenMap;
    forall e ensures Under(e, keys + [key]) <==> Under(e, [key] + keys) {
      var a, b := keys + [key], [key] + keys;
      if Under(e, a) {
        var i :| 0 <= i < |a| && IsKey(e.key, Name(a[i]));
        assert if i < |keys| then b[i + 1] == a[i] else b[0] == a[i];
      }
      if Under(e, b) {
        var i :| 0 <= i < |b| && IsKey(e.key, Name(b[i]));
        assert if i > 0 then a[i - 1] == b[i] else a[|keys|] == b[i];
      }
    }
  }

  lemma FormNames(kind: Kind)
    ensures forall i :: 0 <= i < |TextKeys(kind)| ==>
      Name(TextKeys(kind)[i]) !in {CERT, CERT_SHA256, SENT, SIG}
    ensures CERT != CERT_SHA256 && CERT != SENT && CERT != SIG && SENT != SIG
    ensures CERT_SHA256 != SENT && CERT_SHA256 != SIG
    ensures Leaf(Text(CERT_SHA256))
  {
    hide Name;
    assert |SENT| == 4 && |CERT| == 4 && |SIG| == 3 && |CERT_SHA256| == 11;
    assert SENT[0] == 's' as int && CERT[0] == 'c' as int;
    assert |Name("text")| == 4 && Name("text")[0] == 't' as int;
    assert |Name("body")| == 4 && Name("body")[0] == 'b' as int && |Name("subject")| == 7;
    NameText("cert_sha256");
  }

  lemma AllPresentAppend(v: Value, kind: Kind)
    requires AllPresent(v, TextKeys(kind)) && Get(v, CERT).Some?
    ensures AllPresent(v, TextKeys(kind) + ["cert"]) && AllPresent(v, ["cert"] + TextKeys(kind))
  {
    hide Get, Name;
    FormNames(kind);
  }

  /** What is left of the whole map once its texts and certificate are out. */
  function Stripped(v: Value, kind: Kind): Value {
    Without(DetachedValue(v, TextKeys(kind)), CERT)
  }

  lemma StrippedSame(v: Value, kind: Kind)
    requires OpenMap(v) && FromValue(kind, v, true).Ok?
    ensures SameBut(Stripped(v, kind), v, TextKeys(kind) + ["cert"])
    ensures Get(Stripped(v, kind), CERT).None? && Get(Stripped(v, kind), CERT_SHA256).None?
  {
    hide OpenMap, Get, FromValue, SameBut, AllPresent, DetachedValue, TextKeys;
    FromValueTexts(kind, v, true);
    AllPresentAppend(v, kind);
    var keys := TextKeys(kind);
    DetachedAppend(v, keys, "cert");
    DetachedSame(v, keys + ["cert"]);
    StrippedGets(v, kind);
  }

  lemma StrippedGets(v: Value, kind: Kind)
    requires SameBut(Stripped(v, kind), v, TextKeys(kind) + ["cert"]) && Get(v, CERT_SHA256).None?
    ensures Get(Stripped(v, kind), CERT).None? && Get(Stripped(v, kind), CERT_SHA256).None?
  {
    hide OpenMap, Get, SameBut, DetachedValue;
    var keys := TextKeys(kind) + ["cert"];
    assert keys[|keys| - 1] == "cert";
    SameButGet(Stripped(v, kind), v, keys, CERT);
    SameButGet(Stripped(v, kind), v, keys, CERT_SHA256);
  }

  /** A link form decodes to the stripped map and the hash. */
  lemma LinkReads(v: Value, kind: Kind, hash: Bytes32)
    requires OpenMap(v) && FromValue(kind, v, true).Ok?
    ensures Stripped(v, kind).Map?
    ensures var l := Push(Stripped(v, kind), CERT_SHA256, Blob(hash));
            && DecodeCanonical(Encode(l)) == Ok(DeepSort(l)) && DeepSort(l).Map?
            && Get(DeepSort(l), CERT).None? && Get(DeepSort(l), CERT_SHA256) == Some(Blob(hash))
            && SameBut(Without(DeepSort(l), CERT_SHA256), v, TextKeys(kind) + ["cert"])
  {
    hide CanonicalEntry, KeysApart, Encode, DeepSort, DecodeCanonical, Find, FromValue, Stripped, IsCanonical,
         TextKeys, Name, Under, Drop;
    var c := Stripped(v, kind);
    StrippedSame(v, kind);
    FormNames(kind);
    PushOpen(c, CERT_SHA256, Blob(hash));
    var l := Push(c, CERT_SHA256, Blob(hash));
    OpenCanonical(l);
    CanonicalIsOpen(DeepSort(l));
    SameEntriesGet(DeepSort(l), l, CERT);
    SameEntriesGet(DeepSort(l), l, CERT_SHA256);
    DropPushed(c, CERT_SHA256, Blob(hash));
    WithoutSame(DeepSort(l), l, CERT_SHA256);
    WithoutOpen(DeepSort(l), CERT_SHA256);
    DropOne(DeepSort(l).entries, CERT_SHA256);
  }

  /** What a reader of a link form makes of it, up to the last check. */
  lemma LinkReassembled(v: Value, kind: Kind, hash: Bytes32, texts: seq<Buf>)
    requires OpenMap(v) && FromValue(kind, v, true).Ok? && TextsMatch(v, TextKeys(kind), texts)
    ensures Stripped(v, kind).Map? && Get(v, CERT).Some?
    ensures var c := DeepSort(Push(Stripped(v, kind), CERT_SHA256, Blob(hash)));
            && c.Map? && Without(c, CERT_SHA256).Map?
            && var u := Attach(Push(Without(c, CERT_SHA256), CERT, Get(v, CERT).value), TextKeys(kind), texts);
               u.Ok? && SameBut(u.value, v, [])
  {
    hide OpenMap, Encode, DeepSort, DecodeCanonical, FromValue, Get, Stripped, Attach, Drop, SameBut, TextKeys,
         TextsMatch, AllPresent;
    LinkReads(v, kind, hash);
    FromValueTexts(kind, v, true);
    AllPresentAppend(v, kind);
    var keys := TextKeys(kind);
    var u := Without(DeepSort(Push(Stripped(v, kind), CERT_SHA256, Blob(hash))), CERT_SHA256);
    SameButRotate(u, v, keys, "cert");
    SameButPush(u, v, ["cert"] + keys);
    assert (["cert"] + keys)[0] == "cert" && (["cert"] + keys)[1..] == keys;
    AttachSame(Push(u, CERT, Get(v, CERT).value), v, keys, texts);
  }

  lemma LinkParses(w: World, kind: Kind, s: Checked, texts: seq<Buf>, at: U64, c: Value)
    requires Stripped(s.whole, kind).Map?
    requires Link(w, kind, s).Ok? && |texts| == |TextKeys(kind)|
    requires var l := Push(Stripped(s.whole, kind), CERT_SHA256, Blob(w.sha256(s.message.cert)));
             DecodeCanonical(Encode(l)) == Ok(c) && c.Map?
    requires Get(c, CERT).None? && Get(c, CERT_SHA256) == Some(Blob(w.sha256(s.message.cert)))
    ensures ParseLink(w, kind, Link(w, kind, s).value, texts, s.message.cert, at) ==
            Reassemble(w, kind, Push(Without(c, CERT_SHA256), CERT, Blob(s.message.cert)), texts, at)
  {
    hide Encode, DecodeCanonical, FromValue, Get, DetachedValue, TextKeys, Drop, Reassemble, Name;
  }

  /** The link form reads back as the message it was made from, given the
      certificate it names. */
  lemma LinkAgrees(w: World, kind: Kind, s: Checked, texts: seq<Buf>, at: U64)
    requires Genuine(w, kind, s) && Link(w, kind, s).Ok?
    requires TextsMatch(s.whole, TextKeys(kind), texts)
    requires CheckCert(w, s.message.cert, s.message.sent, at).Ok?
    ensures var r := ParseLink(w, kind, Link(w, kind, s).value, texts, s.message.cert, at);
            r.Ok? && SameMessage(r.value, s) && Genuine(w, kind, r.value)
  {
    hide OpenMap, Encode, DeepSort, DecodeCanonical, FromValue, Verify, Get, DetachedValue, Attach, SameBut, TextKeys,
         SameMessage, CheckCert, Drop, ParseLink;
    var v := s.whole;
    var hash := w.sha256(s.message.cert);
    VerifyAgain(w, kind, s, at);
    FromValueTexts(kind, v, true);
    LinkReads(v, kind, hash);
    LinkReassembled(v, kind, hash, texts);
    var c := DeepSort(Push(Stripped(v, kind), CERT_SHA256, Blob(hash)));
    LinkParses(w, kind, s, texts, at, c);
    var back := Push(Without(c, CERT_SHA256), CERT, Blob(s.message.cert));
    ReassembledAgrees(w, kind, s, Attach(back, TextKeys(kind), texts).value, at);
  }
}
