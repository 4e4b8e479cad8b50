/** Exactly when a message's detached and link forms come back as it: when the
    texts carried beside them are, in canonical form, the texts that were signed. */
module Reassembly {
  import opened Bytes
  import opened Cbor
  import opened Canonical
  import opened Maps
  import opened Signed
  import opened LineEndings
  import opened Messages
  import opened Forms
  import opened Contents

  // What the texts put back are found as.

  lemma {:induction false} FindAppend(es: seq<Entry>, e: Entry, name: Buf)
    ensures Find(es + [e], name) ==
            if Find(es, name).Some? then Find(es, name) else if IsKey(e.key, name) then Some(e.val) else None
  {
    if es != [] {
      assert (es + [e])[1..] == es[1..] + [e];
      FindAppend(es[1..], e, name);
    }
  }

  lemma {:induction false} AttachKeeps(v: Value, keys: seq<string>, texts: seq<Buf>, name: Buf)
    requires v.Map? && |keys| == |texts| && Attach(v, keys, texts).Ok? && Get(v, name).Some?
    ensures Get(Attach(v, keys, texts).value, name) == Get(v, name)
    decreases |keys|
  {
    hide Find, CanonicalText, Name;
    if keys != [] {
      var e := Entry(Text(Name(keys[0])), Text(CanonicalText(texts[0])));
      FindAppend(v.entries, e, name);
      AttachKeeps(Push(v, Name(keys[0]), e.val), keys[1..], texts[1..], name);
    }
  }

  /** Each text is found under its own key, in canonical form. */
  lemma {:induction false} AttachGets(v: Value, keys: seq<string>, texts: seq<Buf>, i: nat)
    requires v.Map? && |keys| == |texts| && Attach(v, keys, texts).Ok? && i < |keys|
    ensures Get(Attach(v, keys, texts).value, Name(keys[i])) == Some(Text(CanonicalText(texts[i])))
    decreases |keys|
  {
    hide Find, CanonicalText, Name;
    var e := Entry(Text(Name(keys[0])), Text(CanonicalText(texts[0])));
    var u := Push(v, Name(keys[0]), e.val);
    if i == 0 {
      FindAppend(v.entries, e, Name(keys[0]));
      AttachKeeps(u, keys[1..], texts[1..], Name(keys[0]));
    } else {
      AttachGets(u, keys[1..], texts[1..], i - 1);
    }
  }

  /** Maps of one encoding answer every lookup alike. */
  lemma SameBytesGet(u: Value, v: Value, name: Buf)
    requires OpenMap(u) && OpenMap(v) && Encode(u) == Encode(v)
    ensures Get(u, name) == Get(v, name)
  {
    hide CanonicalEntry, KeysApart, Encode, DeepSort, DecodeCanonical, Find, IsCanonical;
    OpenCanonical(u);
    OpenCanonical(v);
    SameEntriesGet(u, v, name);
  }

  /** So a map with these texts put back that encodes as the whole one says they are
      its own. */
  lemma SameBytesMatch(v: Value, u: Value, keys: seq<string>, texts: seq<Buf>, whole: Value)
    requires v.Map? && |keys| == |texts| && Attach(v, keys, texts) == Ok(u)
    requires OpenMap(u) && OpenMap(whole) && Encode(u) == Encode(whole)
    ensures TextsMatch(whole, keys, texts)
  {
    hide OpenMap, Encode, Get, Attach, CanonicalText, Name;
    forall i | 0 <= i < |keys| ensures Get(whole, Name(keys[i])) == Some(Text(CanonicalText(texts[i]))) {
      AttachGets(v, keys, texts, i);
      SameBytesGet(u, whole, Name(keys[i]));
    }
  }

  // The detached form.

  lemma VerifiedWhole(w: World, kind: Kind, v: Value, detached: bool, at: U64)
    requires Verify(w, kind, v, detached, at).Ok?
    ensures Verify(w, kind, v, detached, at).value.whole == v
  {
    hide FromValue, CheckCert, Encode;
  }

  /** What comes back as the message had its texts beside it. */
  lemma ReassembledMatch(w: World, kind: Kind, value: Value, texts: seq<Buf>, at: U64, whole: Value)
    requires |texts| == |TextKeys(kind)| && Reassemble(w, kind, value, texts, at).Ok?
    requires var r := Reassemble(w, kind, value, texts, at).value.whole; OpenMap(r) && Encode(r) == Encode(whole)
    requires OpenMap(whole)
    ensures TextsMatch(whole, TextKeys(kind), texts)
  {
    hide OpenMap, Encode, Verify, Attach, TextsMatch, TextKeys;
    var u := Attach(value, TextKeys(kind), texts).value;
    VerifiedWhole(w, kind, u, true, at);
    SameBytesMatch(value, u, TextKeys(kind), texts, whole);
  }

  /** A detached form whose certificate is still good comes back byte for byte
      exactly when the texts beside it are the message's. */
  lemma DetachedIff(w: World, kind: Kind, s: Checked, texts: seq<Buf>, at: U64)
    requires Genuine(w, kind, s) && Detached(kind, s).Ok? && |texts| == |TextKeys(kind)| && TextsHeld(texts)
    requires CheckCert(w, s.message.cert, s.message.sent, at).Ok?
    ensures var r := ParseDetached(w, kind, Detached(kind, s).value, texts, at);
            r.Ok? && Encode(r.value.whole) == Encode(s.whole) <==> TextsMatch(s.whole, TextKeys(kind), texts)
  {
    hide OpenMap, Encode, Reassemble, TextsMatch, TextKeys, CheckCert, DetachedValue, TextsHeld, DecodeCanonical,
         FromValue, Verify;
    var bytes := Detached(kind, s).value;
    var r := ParseDetached(w, kind, bytes, texts, at);
    if r.Ok? && Encode(r.value.whole) == Encode(s.whole) {
      ParsedDetachedGenuine(w, kind, bytes, texts, at);
      ReassembledMatch(w, kind, DecodeCanonical(bytes).value, texts, at, s.whole);
    }
    if TextsMatch(s.whole, TextKeys(kind), texts) {
      DetachedAgrees(w, kind, s, texts, at);
    }
  }

  // The link form.

  /** What a link form that passes is, put back together. */
  lemma LinkParts(w: World, kind: Kind, bytes: Buf, texts: seq<Buf>, cert: Buf, at: U64)
    returns (value: Value)
    requires |texts| == |TextKeys(kind)| && ParseLink(w, kind, bytes, texts, cert, at).Ok?
    ensures DecodeCanonical(bytes) == Ok(value) && value.Map? && |bytes| <= LINK_MAX_BYTES && Get(value, CERT).None?
    ensures ParseLink(w, kind, bytes, texts, cert, at) ==
            Reassemble(w, kind, Push(Without(value, CERT_SHA256), CERT, Blob(cert)), texts, at)
  {
    hide DecodeCanonical, Get, Reassemble, TextKeys, Drop, Name, Bytes32Field;
    value := LinkValue(bytes).value.0;
  }

  lemma ReassembledGenuine(w: World, kind: Kind, v: Value, texts: seq<Buf>, at: U64)
    requires OpenMap(v) && |v.entries| < 1000 && |texts| == |TextKeys(kind)| && TextsHeld(texts)
    requires Reassemble(w, kind, v, texts, at).Ok?
    ensures Genuine(w, kind, Reassemble(w, kind, v, texts, at).value)
  {
    hide OpenMap, TextsHeld, Verify, Attach, Ascii;
    TextKeysAscii(kind);
    AttachOpen(v, TextKeys(kind), texts);
    var u := Attach(v, TextKeys(kind), texts).value;
    VerifiedWhole(w, kind, u, true, at);
  }

  /** Every check of a link form answers a genuine message too. */
  lemma ParsedLinkGenuine(w: World, kind: Kind, bytes: Buf, texts: seq<Buf>, cert: Buf, at: U64)
    requires |texts| == |TextKeys(kind)| && TextsHeld(texts) && |cert| < TWO64
    requires ParseLink(w, kind, bytes, texts, cert, at).Ok?
    ensures Genuine(w, kind, ParseLink(w, kind, bytes, texts, cert, at).value)
  {
    hide OpenMap, DecodeCanonical, TextsHeld, Get, Drop, ParseLink, Reassemble, TextKeys, Genuine;
    var value := LinkParts(w, kind, bytes, texts, cert, at);
    LinkPushedOpen(bytes, value, cert);
    ReassembledGenuine(w, kind, Push(Without(value, CERT_SHA256), CERT, Blob(cert)), texts, at);
  }

  lemma LinkPushedOpen(bytes: Buf, value: Value, cert: Buf)
    requires DecodeCanonical(bytes) == Ok(value) && value.Map? && |bytes| <= LINK_MAX_BYTES
    requires Get(value, CERT).None? && |cert| < TWO64
    ensures var v := Push(Without(value, CERT_SHA256), CERT, Blob(cert));
            OpenMap(v) && |v.entries| <= LINK_MAX_BYTES + 1
  {
    hide OpenMap, DecodeCanonical, Leaf, Get, Drop;
    DecodedOpen(bytes, value);
    WithoutOpen(value, CERT_SHA256);
    CertNames();
    SmallLeaf(cert);
    PushOpen(Without(value, CERT_SHA256), CERT, Blob(cert));
  }

  lemma CertNames()
    ensures CERT != CERT_SHA256 && Leaf(Text(CERT))
  {
    NameText("cert");
    assert |CERT| == 4 && |CERT_SHA256| == 11;
  }

  lemma CertHeld(w: World, cert: Buf, sent: U64, at: U64)
    requires CheckCert(w, cert, sent, at).Ok?
    ensures |cert| < TWO64
  {
  }

  /** A link form, given the certificate it names, likewise. */
  lemma LinkIff(w: World, kind: Kind, s: Checked, texts: seq<Buf>, at: U64)
    requires Genuine(w, kind, s) && Link(w, kind, s).Ok? && |texts| == |TextKeys(kind)| && TextsHeld(texts)
    requires CheckCert(w, s.message.cert, s.message.sent, at).Ok?
    ensures var r := ParseLink(w, kind, Link(w, kind, s).value, texts, s.message.cert, at);
            r.Ok? && Encode(r.value.whole) == Encode(s.whole) <==> TextsMatch(s.whole, TextKeys(kind), texts)
  {
    hide OpenMap, Encode, Reassemble, TextsMatch, TextKeys, TextsHeld, DecodeCanonical, Link, ParseLink, CheckCert,
         Drop, Get, Verify;
    var bytes, cert := Link(w, kind, s).value, s.message.cert;
    var r := ParseLink(w, kind, bytes, texts, cert, at);
    if r.Ok? && Encode(r.value.whole) == Encode(s.whole) {
      CertHeld(w, cert, s.message.sent, at);
      ParsedLinkGenuine(w, kind, bytes, texts, cert, at);
      var value := LinkParts(w, kind, bytes, texts, cert, at);
      ReassembledMatch(w, kind, Push(Without(value, CERT_SHA256), CERT, Blob(cert)), texts, at, s.whole);
    }
    if TextsMatch(s.whole, TextKeys(kind), texts) {
      LinkAgrees(w, kind, s, texts, at);
    }
  }

  /** With texts whose line endings a wire rewrote, either form comes back byte for
      byte exactly when no CR came to stand before an LF in any of them. */
  lemma RewrittenFormsIff(w: World, kind: Kind, s: Checked, how: seq<seq<Ending>>, texts: seq<Buf>,
                                             at: U64)
    requires Genuine(w, kind, s) && TextsRewritten(s.whole, TextKeys(kind), how, texts) && TextsHeld(texts)
    requires CheckCert(w, s.message.cert, s.message.sent, at).Ok?
    ensures Detached(kind, s).Ok? ==>
              var r := ParseDetached(w, kind, Detached(kind, s).value, texts, at);
              r.Ok? && Encode(r.value.whole) == Encode(s.whole) <==> NoneJoins(s.whole, TextKeys(kind), how, texts)
    ensures Link(w, kind, s).Ok? ==>
              var r := ParseLink(w, kind, Link(w, kind, s).value, texts, s.message.cert, at);
              r.Ok? && Encode(r.value.whole) == Encode(s.whole) <==> NoneJoins(s.whole, TextKeys(kind), how, texts)
  {
    hide Genuine, Encode, Detached, Link, ParseDetached, ParseLink, TextsMatch, TextKeys, NoneJoins, CheckCert,
         TextsHeld, Get;
    RewrittenMatchIff(w, kind, s, how, texts);
    if Detached(kind, s).Ok? {
      DetachedIff(w, kind, s, texts, at);
    }
    if Link(w, kind, s).Ok? {
      LinkIff(w, kind, s, texts, at);
    }
  }
}
