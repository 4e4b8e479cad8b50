/** What messages are compared by, whichever form they came in, and when a text
    whose line endings a wire rewrote is still the text that was signed. */
module Contents {
  import opened Bytes
  import opened Cbor
  import opened Canonical
  import opened Maps
  import opened Signed
  import opened LineEndings
  import opened Messages
  import opened Forms

  // Every check answers a genuine message.

  lemma ParsedWholeGenuine(w: World, kind: Kind, bytes: Buf, at: U64)
    requires ParseWhole(w, kind, bytes, at).Ok?
    ensures var s := ParseWhole(w, kind, bytes, at).value;
            Genuine(w, kind, s) && Encode(s.whole) == bytes
  {
    hide CanonicalEntry, KeysApart, OpenMap, Encode, DecodeCanonical, DeepSort, FromValue, IsCanonical, CheckCert, Get,
         Drop;
    var v := DecodeCanonical(bytes).value;
    DecodeIff(bytes, v);
    CanonicalIsOpen(v);
    var s := ParseWhole(w, kind, bytes, at).value;
    assert Verify(w, kind, s.whole, false, at) == Ok(s);
  }

  ghost predicate TextsHeld(texts: seq<Buf>) {
    forall i :: 0 <= i < |texts| ==> ValidUtf8(texts[i]) && |texts[i]| < TWO64
  }

  lemma {:induction false} ReplaceShortens(s: Buf)
    ensures |ReplaceCrLf(s)| <= |s|
    decreases |s|
  {
    if |s| >= 2 && s[0] == CR && s[1] == LF {
      ReplaceShortens(s[2..]);
    } else if s != [] {
      ReplaceShortens(s[1..]);
    }
  }

  lemma {:induction false} AttachOpen(v: Value, keys: seq<string>, texts: seq<Buf>)
    requires OpenMap(v) && |keys| == |texts| && |v.entries| + |keys| < TWO64 && TextsHeld(texts)
    requires forall i :: 0 <= i < |keys| ==> Ascii(keys[i]) && |keys[i]| < TWO64
    ensures Attach(v, keys, texts).Ok? ==> OpenMap(Attach(v, keys, texts).value)
    decreases |keys|
  {
    hide CanonicalEntry, KeysApart, Find, CanonicalText, ValidUtf8, Ascii;
    if keys != [] && Get(v, Name(keys[0])).None? {
      CanonicalLeaf(texts[0]);
      NameText(keys[0]);
      PushOpen(v, Name(keys[0]), Text(CanonicalText(texts[0])));
      AttachOpen(Push(v, Name(keys[0]), Text(CanonicalText(texts[0]))), keys[1..], texts[1..]);
    }
  }

  lemma CanonicalLeaf(t: Buf)
    requires ValidUtf8(t) && |t| < TWO64
    ensures Leaf(Text(CanonicalText(t)))
  {
    CanonicalUtf8(t);
    ReplaceShortens(t);
  }

  lemma DecodedOpen(bytes: Buf, v: Value)
    requires DecodeCanonical(bytes) == Ok(v) && v.Map?
    ensures OpenMap(v) && 2 * |v.entries| <= |bytes|
  {
    hide CanonicalEntry, KeysApart, Encode, DecodeCanonical;
    DecodeIff(bytes, v);
    CanonicalIsOpen(v);
    ScanIsEnough(v);
    EntriesShorter(v);
  }

  lemma TextKeysAscii(kind: Kind)
    ensures forall i :: 0 <= i < |TextKeys(kind)| ==> Ascii(TextKeys(kind)[i]) && |TextKeys(kind)[i]| < TWO64
  {
  }

  lemma ParsedDetachedGenuine(w: World, kind: Kind, bytes: Buf, texts: seq<Buf>, at: U64)
    requires |texts| == |TextKeys(kind)| && TextsHeld(texts)
    requires ParseDetached(w, kind, bytes, texts, at).Ok?
    ensures Genuine(w, kind, ParseDetached(w, kind, bytes, texts, at).value)
  {
    hide OpenMap, Encode, DecodeCanonical, FromValue, CheckCert, Attach, TextsHeld, Get, Name, Ascii, Drop;
    var v := DecodeCanonical(bytes).value;
    DecodedOpen(bytes, v);
    TextKeysAscii(kind);
    AttachOpen(v, TextKeys(kind), texts);
    var s := ParseDetached(w, kind, bytes, texts, at).value;
    assert Verify(w, kind, s.whole, true, at) == Ok(s);
  }

  lemma EntriesShorter(v: Value)
    requires v.Map? && Ordered(v)
    ensures 2 * |v.entries| <= |Encode(v)|
  {
    hide EncodeEntries, Join, Head;
    JoinLength(v.entries);
    Sorting.SortOfSorted(EncodeEntries(v.entries));
  }

  // Texts as a wire may rewrite them.

  /** The texts of a message, each with its line feeds written as `how` says. */
  ghost predicate TextsRewritten(v: Value, keys: seq<string>, how: seq<seq<Ending>>, texts: seq<Buf>) {
    && |keys| == |how| == |texts|
    && forall i :: 0 <= i < |keys| ==>
         && Get(v, Name(keys[i])).Some? && Get(v, Name(keys[i])).value.Text?
         && var t := Get(v, Name(keys[i])).value.s;
            |t| == |how[i]| && texts[i] == Rewritten(t, how[i])
  }

  ghost predicate NoneJoins(v: Value, keys: seq<string>, how: seq<seq<Ending>>, texts: seq<Buf>)
    requires TextsRewritten(v, keys, how, texts)
  {
    forall i :: 0 <= i < |keys| ==> !Joins(Get(v, Name(keys[i])).value.s, how[i])
  }

  /** Rewritten texts are a genuine message's own exactly when no CR stands for
      one line feed where the next was left an LF. */
  lemma RewrittenMatchIff(w: World, kind: Kind, s: Checked, how: seq<seq<Ending>>, texts: seq<Buf>)
    requires Genuine(w, kind, s) && TextsRewritten(s.whole, TextKeys(kind), how, texts)
    ensures TextsMatch(s.whole, TextKeys(kind), texts) <==> NoneJoins(s.whole, TextKeys(kind), how, texts)
  {
    hide OpenMap, FromValue, Get, Name, CanonicalText, Rewritten, Joins, CheckCert, Encode;
    var d, at :| Verify(w, kind, s.whole, d, at) == Ok(s);
    FromValueTexts(kind, s.whole, d);
    var keys := TextKeys(kind);
    forall i | 0 <= i < |keys|
      ensures Get(s.whole, Name(keys[i])) == Some(Text(CanonicalText(texts[i]))) <==>
              !Joins(Get(s.whole, Name(keys[i])).value.s, how[i])
    {
      assert HasText(s.whole, keys[i]);
      RewrittenIff(Get(s.whole, Name(keys[i])).value.s, how[i]);
    }
  }

  // Content.

  lemma ContentSame(s: Checked, t: Checked)
    requires OpenMap(s.whole) && OpenMap(t.whole) && SameMessage(s, t)
    ensures Content(s) == Content(t)
  {
    hide CanonicalEntry, KeysApart, Encode;
    var a, b := Without(Without(s.whole, SENT), CERT), Without(Without(t.whole, SENT), CERT);
    WithoutOpen(s.whole, SENT);
    WithoutOpen(t.whole, SENT);
    WithoutOpen(Without(s.whole, SENT), CERT);
    WithoutOpen(Without(t.whole, SENT), CERT);
    WithoutOpen(a, SIG);
    WithoutOpen(b, SIG);
    SameEntriesEncode(Without(a, SIG), Without(b, SIG));
  }

  lemma {:induction false} PushTextsAttach(v: Value, keys: seq<string>, texts: seq<Buf>)
    requires v.Map? && |keys| == |texts| && Attach(v, keys, texts).Ok?
    ensures Attach(v, keys, texts) == Ok(PushTexts(v, keys, texts))
    decreases |keys|
  {
    hide CanonicalText, Name, Find;
    if keys != [] {
      PushTextsAttach(Push(v, Name(keys[0]), Text(CanonicalText(texts[0]))), keys[1..], texts[1..]);
    }
  }

  /** The map both sides of a comparison are made from. */
  function Compared(v: Value): Value {
    Without(Without(Without(v, SENT), CERT), SIG)
  }

  lemma WithoutTwo(u: Value)
    requires OpenMap(u) && Get(u, SENT).Some? && Get(u, SIG).Some? && SENT != SIG
    ensures var r := Without(Without(u, SENT), SIG);
            && OpenMap(r) && |r.entries| + 2 == |u.entries|
            && forall e :: e in r.entries <==> e in u.entries && !IsKey(e.key, SENT) && !IsKey(e.key, SIG)
  {
    hide CanonicalEntry, KeysApart, Find, Name;
    WithoutOpen(u, SENT);
    DropOne(u.entries, SENT);
    WithoutOpen(Without(u, SENT), SIG);
    DropOne(Without(u, SENT).entries, SIG);
  }

  /** `u`, which is `v` without `keys` and its certificate, loses its `sent` and
      its `sig` to become what is compared without `keys`. */
  lemma ComparedSame(u: Value, v: Value, kind: Kind)
    requires SameBut(u, v, TextKeys(kind) + ["cert"]) && Get(v, CERT).Some?
    requires Get(v, SENT).Some? && Get(v, SIG).Some? && AllPresent(v, TextKeys(kind))
    ensures SameBut(Without(Without(u, SENT), SIG), Compared(v), TextKeys(kind))
    ensures AllPresent(Compared(v), TextKeys(kind))
    ensures forall i :: 0 <= i < |TextKeys(kind)| ==>
      Get(Compared(v), Name(TextKeys(kind)[i])) == Get(v, Name(TextKeys(kind)[i]))
  {
    hide OpenMap, Get, TextKeys, Without, Compared, Name, Under;
    FormNames(kind);
    SentAndSigKept(u, v, kind);
    SameButNotUnder(u, v, kind);
    ComparedOpen(v);
    WithoutTwo(u);
  }

  lemma SameButNotUnder(u: Value, v: Value, kind: Kind)
    requires SameBut(u, v, TextKeys(kind) + ["cert"])
    ensures forall e :: e in u.entries <==> e in v.entries && !Under(e, TextKeys(kind)) && !IsKey(e.key, CERT)
  {
    hide OpenMap, TextKeys, Name;
    UnderLast(TextKeys(kind), "cert");
  }

  lemma UnderLast(keys: seq<string>, key: string)
    ensures forall e :: Under(e, keys + [key]) <==> Under(e, keys) || IsKey(e.key, Name(key))
  {
    hide Name;
    var all := keys + [key];
    forall e ensures Under(e, all) <==> Under(e, keys) || IsKey(e.key, Name(key)) {
      if Under(e, keys) {
        var i :| 0 <= i < |keys| && IsKey(e.key, Name(keys[i]));
        assert all[i] == keys[i];
      }
      assert all[|keys|] == key;
    }
  }

  lemma ComparedOpen(v: Value)
    requires OpenMap(v) && Get(v, SENT).Some? && Get(v, CERT).Some? && Get(v, SIG).Some?
    requires CERT != SENT && CERT != SIG && SENT != SIG
    ensures OpenMap(Compared(v)) && |Compared(v).entries| + 3 == |v.entries|
    ensures forall name :: name !in {SENT, CERT, SIG} ==> Get(Compared(v), name) == Get(v, name)
    ensures forall e :: e in Compared(v).entries <==>
              e in v.entries && !IsKey(e.key, SENT) && !IsKey(e.key, CERT) && !IsKey(e.key, SIG)
  {
    hide CanonicalEntry, KeysApart, Find, Name;
    WithoutOpen(v, SENT);
    DropOne(v.entries, SENT);
    var a := Without(v, SENT);
    WithoutOpen(a, CERT);
    DropOne(a.entries, CERT);
    var b := Without(a, CERT);
    WithoutOpen(b, SIG);
    DropOne(b.entries, SIG);
  }

  lemma SentAndSigKept(u: Value, v: Value, kind: Kind)
    requires SameBut(u, v, TextKeys(kind) + ["cert"])
    ensures Get(u, SENT) == Get(v, SENT) && Get(u, SIG) == Get(v, SIG)
  {
    hide OpenMap, Get, SameBut, Name;
    FormNames(kind);
    var keys := TextKeys(kind) + ["cert"];
    assert forall i :: 0 <= i < |keys| ==> keys[i] == (if i < |TextKeys(kind)| then TextKeys(kind)[i] else "cert");
    SameButGet(u, v, keys, SENT);
    SameButGet(u, v, keys, SIG);
  }

  lemma VerifiedHas(w: World, kind: Kind, s: Checked)
    requires Genuine(w, kind, s)
    ensures Get(s.whole, SIG).Some? && Get(s.whole, SENT).Some?
  {
    hide OpenMap, Encode, CheckCert, Find, PrivateFrom, ChatFrom, NewsFrom;
    var d, at :| Verify(w, kind, s.whole, d, at) == Ok(s);
    HasSent(kind, s.whole, d);
  }

  lemma HasSent(kind: Kind, v: Value, d: bool)
    requires FromValue(kind, v, d).Ok?
    ensures Get(v, SENT).Some?
  {
    hide Refuse, BytesField, TextField, Bytes16Field, Bytes32Field, OnlyTrue, Exact, CheckText, ParentFrom,
         BoundedText, OptText, Find, Name;
  }

  /** A reader that cannot check a link form yet compares by the same bytes as one
      that holds the whole message. */
  lemma LinkContentAgrees(w: World, kind: Kind, s: Checked, texts: seq<Buf>)
    requires Genuine(w, kind, s) && Link(w, kind, s).Ok?
    requires TextsMatch(s.whole, TextKeys(kind), texts)
    ensures LinkContent(kind, Link(w, kind, s).value, texts) == Ok(Content(s))
  {
    hide OpenMap, Encode, DeepSort, DecodeCanonical, FromValue, Verify, Get, DetachedValue, Attach, PushTexts, SameBut,
         TextKeys, CheckCert, Drop, Name, AllPresent;
    var v := s.whole;
    var hash := w.sha256(s.message.cert);
    var c := DeepSort(Push(Stripped(v, kind), CERT_SHA256, Blob(hash)));
    VerifiedHas(w, kind, s);
    FromValueTexts(kind, v, true);
    LinkReads(v, kind, hash);
    LinkContentParses(w, kind, s, texts, c);
    var u := Without(c, CERT_SHA256);
    ComparedSame(u, v, kind);
    ContentJoined(kind, Without(Without(u, SENT), SIG), Compared(v), texts);
  }

  lemma LinkContentParses(w: World, kind: Kind, s: Checked, texts: seq<Buf>, c: Value)
    requires Stripped(s.whole, kind).Map?
    requires Link(w, kind, s).Ok? && |texts| == |TextKeys(kind)|
    requires var l := Push(Stripped(s.whole, kind), CERT_SHA256, Blob(w.sha256(s.message.cert)));
             DecodeCanonical(Encode(l)) == Ok(c) && c.Map?
    requires Get(c, CERT).None? && Get(c, CERT_SHA256) == Some(Blob(w.sha256(s.message.cert)))
    ensures LinkContent(kind, Link(w, kind, s).value, texts) ==
            Ok(Encode(PushTexts(Without(Without(Without(c, CERT_SHA256), SENT), SIG), TextKeys(kind), texts)))
  {
    hide Encode, DecodeCanonical, FromValue, Get, DetachedValue, TextKeys, Drop, PushTexts, Name;
  }

  lemma ContentJoined(kind: Kind, u: Value, v: Value, texts: seq<Buf>)
    requires SameBut(u, v, TextKeys(kind)) && AllPresent(v, TextKeys(kind))
    requires TextsMatch(v, TextKeys(kind), texts)
    ensures u.Map? && Encode(PushTexts(u, TextKeys(kind), texts)) == Encode(v)
  {
    hide CanonicalEntry, KeysApart, Encode, Attach, PushTexts, TextKeys, Get;
    AttachSame(u, v, TextKeys(kind), texts);
    PushTextsAttach(u, TextKeys(kind), texts);
    NoKeys(PushTexts(u, TextKeys(kind), texts), v);
    SameEntriesEncode(PushTexts(u, TextKeys(kind), texts), v);
  }
}
