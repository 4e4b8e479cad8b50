/** Chat lines and articles signed, and read back whole: they fit their bound, and
    they come back as what was signed. */
module Signing {
  import opened Bytes
  import opened Cbor
  import opened Canonical
  import opened Maps
  import opened Signed
  import opened LineEndings
  import opened Messages
  import opened Objects
  import opened Fields
  import Contents

  // An object whose fields hold maps of their own, each put in canonical order.

  function SortedField(f: Field): Field {
    Field(f.name, if f.val.Some? then Some(DeepSort(f.val.value)) else None)
  }

  function SortedFields(fields: seq<Field>): (r: seq<Field>)
    ensures |r| == |fields| && forall i :: 0 <= i < |r| ==> r[i] == SortedField(fields[i])
  {
    if fields == [] then [] else [SortedField(fields[0])] + SortedFields(fields[1..])
  }

  /** Entries that encode alike, one by one. */
  ghost predicate EncodeAlike(es: seq<Entry>, fs: seq<Entry>) {
    EncodeEntries(es) == EncodeEntries(fs) && |es| == |fs|
  }

  lemma {:induction false} SortedAlike(fields: seq<Field>, tail: seq<Entry>)
    ensures EncodeAlike(Entries(SortedFields(fields)) + tail, Entries(fields) + tail)
  {
    hide Encode, DeepSort, Name;
    var es, fs := Entries(SortedFields(fields)), Entries(fields);
    if fields == [] {
      assert es + tail == fs + tail;
    } else {
      SortedAlike(fields[1..], tail);
      assert SortedFields(fields)[1..] == SortedFields(fields[1..]);
      if fields[0].val.Some? {
        EncodeDeepSort(fields[0].val.value);
        assert (es + tail)[1..] == Entries(SortedFields(fields[1..])) + tail;
        assert (fs + tail)[1..] == Entries(fields[1..]) + tail;
      }
    }
  }

  lemma AlikeEncode(es: seq<Entry>, fs: seq<Entry>)
    requires EncodeAlike(es, fs)
    ensures Encode(Map(es)) == Encode(Map(fs))
  {
    hide EncodeEntries, Join, Head;
  }

  /** A value that sorted may be held in a map. */
  ghost predicate Holdable(x: Value) {
    Leaf(DeepSort(x))
  }

  lemma LeafHoldable(x: Value)
    requires Leaf(x) && !x.Array? && !x.Map?
    ensures Holdable(x)
  {
  }

  /** A map of plain values nests one level. */
  lemma ScopeHoldable(fields: seq<Field>)
    requires OpenMap(BuildMap(fields))
    requires forall i | 0 <= i < |fields| && fields[i].val.Some? ::
               !fields[i].val.value.Array? && !fields[i].val.value.Map?
    ensures Holdable(BuildMap(fields))
  {
    hide CanonicalEntry, KeysApart, Encode, DeepSort, DecodeCanonical, Name, Fits, Ascending;
    var v := BuildMap(fields);
    OpenCanonical(v);
    BuiltMembers(fields);
    forall e | e in Entries(fields) ensures WithinEntry(e, 0) {
    }
    assert Within(v, 1);
    DeepSortWithin(v, 1);
    WithinMore(DeepSort(v), 1, MAX_DEPTH - 1);
  }

  lemma SortedOpen(fields: seq<Field>)
    requires NamesApart(fields) && |fields| < 100
    requires forall i | 0 <= i < |fields| :: Ascii(fields[i].name) && |fields[i].name| < 100
    requires forall i | 0 <= i < |fields| && fields[i].val.Some? :: Holdable(fields[i].val.value)
    ensures OpenMap(BuildMap(SortedFields(fields))) && NamesApart(SortedFields(fields))
    ensures |BuildMap(SortedFields(fields)).entries| < 100
  {
    hide Ascii, Name, DeepSort, Leaf, Entries, OpenMap;
    BuiltOpen(SortedFields(fields));
    BuiltFew(SortedFields(fields));
  }

  /** Sealed and opened: the signed bytes are the object's own, and each field is
      there with its map in order. */
  lemma SealedFields(fields: seq<Field>, sig: Buf)
    requires NamesApart(fields) && |fields| < 100 && |sig| == SIG_BYTES
    requires forall i | 0 <= i < |fields| :: Ascii(fields[i].name) && |fields[i].name| < 100
    requires forall i | 0 <= i < |fields| && fields[i].val.Some? :: Holdable(fields[i].val.value)
    requires Get(BuildMap(SortedFields(fields)), Name("v")) == Some(Uint(VERSION))
    requires Get(BuildMap(SortedFields(fields)), SIG).None?
    ensures var u := BuildMap(SortedFields(fields));
            var c := DeepSort(Push(u, SIG, Blob(sig)));
            && DecodeCanonical(Sealed(BuildMap(fields), sig)) == Ok(c) && Encode(c) == Sealed(BuildMap(fields), sig)
            && FromValueUpto(c, VERSION) == Ok(Envelope(c, VERSION, Encode(BuildMap(fields)), sig))
            && forall name | name != SIG :: Get(c, name) == Get(u, name)
  {
    hide CanonicalEntry, KeysApart, Encode, DeepSort, DecodeCanonical, Find, FromValueUpto, IsCanonical, Name, Entries,
         SortedFields, NamesApart, Holdable, Ascii;
    var u := BuildMap(SortedFields(fields));
    var e := Entry(Text(SIG), Blob(sig));
    SortedOpen(fields);
    SortedAlike(fields, [e]);
    AlikeEncode(u.entries + [e], Entries(fields) + [e]);
    SortedAlike(fields, []);
    assert u.entries + [] == u.entries && Entries(fields) + [] == Entries(fields);
    AlikeEncode(u.entries, Entries(fields));
    SigNames();
    SmallLeaf(sig);
    PushOpen(u, SIG, Blob(sig));
    var whole := Push(u, SIG, Blob(sig));
    OpenCanonical(whole);
    var c := DeepSort(whole);
    CanonicalIsOpen(c);
    OpenSeals(u, sig, VERSION);
    forall name | name != SIG ensures Get(c, name) == Get(u, name) {
      SameEntriesGet(c, whole, name);
    }
  }

  // Chat lines.

  /** What a program holds: texts that are UTF-8 and lengths that fit a word. */
  ghost predicate ChatHeld(m: Message)
    requires m.ChatLine?
  {
    |m.cert| < TWO64 && ValidUtf8(m.text) && |m.text| < TWO64
  }

  lemma ChatHoldable(m: Message)
    requires m.ChatLine? && ChatHeld(m)
    ensures forall i | 0 <= i < 7 && ChatFields(m)[i].val.Some? :: Holdable(ChatFields(m)[i].val.value)
  {
    hide DeepSort, Leaf, CanonicalText, Holdable, Entries, HasFields;
    SmallLeaf(m.id);
    SmallLeaf(m.cert);
    NumberLeaf(VERSION);
    NumberLeaf(m.sent);
    Contents.CanonicalLeaf(m.text);
    LeafHoldable(Uint(VERSION));
    LeafHoldable(Blob(m.id));
    LeafHoldable(Uint(m.sent));
    LeafHoldable(Blob(m.cert));
    LeafHoldable(CanonicalValue(m.text));
    LeafHoldable(Bool(true));
    ChatScopeOpen(m);
    ScopeHoldable(ChatScopeFields(m));
  }

  lemma ChatScopeOpen(m: Message)
    requires m.ChatLine?
    ensures OpenMap(BuildMap(ChatScopeFields(m)))
  {
    hide OpenMap, Get;
    ChatScopeGets(m);
  }

  /** The line's fields, its scope in canonical order, are still its fields. */
  lemma ChatSorted(m: Message)
    requires m.ChatLine?
    ensures var u := BuildMap(SortedFields(ChatFields(m)));
            && ChatGet(u, m) && Get(u, Name("sig")).None? && Get(u, Name("v")) == Some(Uint(VERSION))
  {
    hide Get, Name, BuildMap, NamesApart, CanonicalValue, HasFields, DeepSort;
    ChatGetsOf(SortedFields(ChatFields(m)));
    SortedPlain();
    ChatScopeOpen(m);
    SortedHasFields(ChatScopeFields(m));
  }

  lemma SortedPlain()
    ensures forall x: Value :: x.Uint? || x.Blob? || x.Text? || x.Bool? ==> DeepSort(x) == x
    ensures forall t :: DeepSort(CanonicalValue(t)) == CanonicalValue(t)
  {
  }

  lemma SortedHasFields(fields: seq<Field>)
    requires OpenMap(BuildMap(fields))
    ensures HasFields(DeepSort(BuildMap(fields)), fields)
  {
    hide CanonicalEntry, KeysApart, Encode, DeepSort, DecodeCanonical, IsCanonical, Entries;
    OpenCanonical(BuildMap(fields));
    CanonicalIsOpen(DeepSort(BuildMap(fields)));
  }

  lemma ScopeLength(fields: seq<Field>)
    requires |fields| < 23 && forall i :: 0 <= i < |fields| ==> |fields[i].name| < 24
    ensures |Encode(BuildMap(fields))| == 1 + FieldsLength(fields)
  {
    hide Encode, EntriesLength, FieldsLength, Head, Name;
    MapLength(Entries(fields));
    HeadLength(5, |Entries(fields)|);
    BuiltLength(fields);
  }

  lemma ChatLength(m: Message)
    requires m.ChatLine? && |m.cert| <= CERT_MAX_BYTES && |CanonicalText(m.text)| <= 4096
    ensures FieldsLength(ChatFields(m)) <= 4900
  {
    hide Encode, CanonicalText, FieldsLength, BuildMap;
    var f, s := ChatFields(m), ChatScopeFields(m);
    assert f[0..] == f && s[0..] == s;
    UintLength(VERSION);
    UintLength(m.sent);
    UintLength(m.room);
    BlobLength(m.id);
    BlobLength(m.server);
    BlobLength(m.cert);
    TextLength(CanonicalText(m.text));
    BoolLength(true);
    ScopeLength(s);
    LengthFrom(s, 0);
    LengthFrom(s, 1);
    LengthFrom(s, 2);
    LengthFrom(f, 0);
    LengthFrom(f, 1);
    LengthFrom(f, 2);
    LengthFrom(f, 3);
    LengthFrom(f, 4);
    LengthFrom(f, 5);
    LengthFrom(f, 6);
    LengthFrom(f, 7);
  }

  /** A chat line whose text and certificate pass signs within its form's bound. */
  lemma ChatFits(m: Message, sig: Buf)
    requires m.ChatLine? && |m.cert| <= CERT_MAX_BYTES && |sig| == SIG_BYTES
    requires FromValue(Chat, Unsigned(m), false).Ok?
    ensures |Sealed(Unsigned(m), sig)| <= WholeMaxBytes(Chat)
  {
    hide Encode, FromValue, FieldsLength, Sealed, ChatGet, BuildMap, CanonicalText, IsCanonicalText;
    ChatGets(m);
    ChatReads(Unsigned(m), m);
    ChatLength(m);
    ObjectLength(ChatFields(m), sig);
  }

  lemma SigName()
    ensures Name("sig") == SIG
  {
  }

  /** A chat line signed, and parsed whole: the line, its text in canonical form, and
      the very bytes that were signed. */
  lemma ChatSigned(w: World, m: Message, sig: Buf, at: U64)
    requires m.ChatLine? && ChatHeld(m) && |sig| == SIG_BYTES
    requires FromValue(Chat, Unsigned(m), false).Ok? && CheckCert(w, m.cert, m.sent, at).Ok?
    requires w.verifies(CheckCert(w, m.cert, m.sent, at).value.device, Chat, Encode(Unsigned(m)), sig).None?
    ensures var r := ParseWhole(w, Chat, Sealed(Unsigned(m), sig), at);
            r.Ok? && r.value.message == Normal(m) && Encode(r.value.whole) == Sealed(Unsigned(m), sig)
  {
    hide Encode, DeepSort, DecodeCanonical, FromValue, FromValueUpto, Sealed, CheckWindow, ChatGet, Entries, Get, Name,
         ValidUtf8, CanonicalText, ChatHeld, Holdable, SortedFields, NamesApart, Ascii, IsCanonicalText;
    var c := DeepSort(Push(BuildMap(SortedFields(ChatFields(m))), SIG, Blob(sig)));
    ChatGets(m);
    ChatReads(Unsigned(m), m);
    ChatFits(m, sig);
    ChatSealed(m, sig);
    ChatReads(c, m);
  }

  lemma ChatSealed(m: Message, sig: Buf)
    requires m.ChatLine? && ChatHeld(m) && |sig| == SIG_BYTES
    ensures var c := DeepSort(Push(BuildMap(SortedFields(ChatFields(m))), SIG, Blob(sig)));
            && DecodeCanonical(Sealed(Unsigned(m), sig)) == Ok(c) && Encode(c) == Sealed(Unsigned(m), sig)
            && FromValueUpto(c, VERSION) == Ok(Envelope(c, VERSION, Encode(Unsigned(m)), sig)) && ChatGet(c, m)
  {
    hide Encode, DeepSort, DecodeCanonical, FromValueUpto, Sealed, HasFields, Entries, Get, ChatFields, ChatGet,
         ValidUtf8, CanonicalText, ChatHeld, Holdable, SortedFields, NamesApart, Ascii, Name;
    ChatGets(m);
    ChatHoldable(m);
    ChatSorted(m);
    ChatNamesShort(m);
    SigName();
    SealedFields(ChatFields(m), sig);
    ChatUnsigned(m);
    ChatGetSame(DeepSort(Push(BuildMap(SortedFields(ChatFields(m))), SIG, Blob(sig))),
                BuildMap(SortedFields(ChatFields(m))), m);
  }

  lemma ChatUnsigned(m: Message)
    requires m.ChatLine?
    ensures Unsigned(m) == BuildMap(ChatFields(m))
  {
  }

  lemma AsciiNames()
    ensures Ascii("v") && Ascii("id") && Ascii("sent") && Ascii("in") && Ascii("cert") && Ascii("text") && Ascii("act")
    ensures Ascii("parent") && Ascii("subject") && Ascii("body") && Ascii("mime")
  {
  }

  lemma ChatNamesShort(m: Message)
    requires m.ChatLine?
    ensures forall i | 0 <= i < |ChatFields(m)| :: Ascii(ChatFields(m)[i].name) && |ChatFields(m)[i].name| < 100
  {
    hide Ascii, CanonicalValue, BuildMap;
    AsciiNames();
  }

  lemma ChatGetSame(c: Value, u: Value, m: Message)
    requires m.ChatLine? && ChatGet(u, m) && forall name | name != SIG :: Get(c, name) == Get(u, name)
    ensures ChatGet(c, m)
  {
    hide Get, Name, HasFields, CanonicalValue;
    NotSigNames();
  }

  lemma NotSigNames()
    ensures Name("v") != SIG && Name("id") != SIG && Name("sent") != SIG && Name("in") != SIG && Name("cert") != SIG
    ensures Name("text") != SIG && Name("act") != SIG && Name("to") != SIG && Name("cert_sha256") != SIG
    ensures Name("parent") != SIG && Name("subject") != SIG && Name("body") != SIG && Name("mime") != SIG
  {
    hide Name;
    assert SIG[0] == 's' as int && |SIG| == 3;
  }

  // Articles.

  ghost predicate NewsHeld(m: Message)
    requires m.Article?
  {
    && |m.cert| < TWO64 && ValidUtf8(m.subject) && |m.subject| < TWO64
    && ValidUtf8(m.body) && |m.body| < TWO64 && ValidUtf8(m.mime) && |m.mime| < TWO64
  }

  lemma NewsHoldable(m: Message)
    requires m.Article? && NewsHeld(m)
    ensures forall i | 0 <= i < 9 && NewsFields(m)[i].val.Some? :: Holdable(NewsFields(m)[i].val.value)
  {
    hide DeepSort, Leaf, CanonicalText, Holdable, Entries, HasFields, ValidUtf8;
    SmallLeaf(m.id);
    SmallLeaf(m.cert);
    NumberLeaf(VERSION);
    NumberLeaf(m.sent);
    Contents.CanonicalLeaf(m.subject);
    Contents.CanonicalLeaf(m.body);
    TextLeaf(m.mime);
    LeafHoldable(Uint(VERSION));
    LeafHoldable(Blob(m.id));
    LeafHoldable(Uint(m.sent));
    LeafHoldable(Blob(m.cert));
    LeafHoldable(CanonicalValue(m.subject));
    LeafHoldable(CanonicalValue(m.body));
    LeafHoldable(Text(m.mime));
    NewsScopesOpen(m);
    ScopeHoldable(NewsScopeFields(m));
    if m.parent.Some? {
      ScopeHoldable(ParentFields(m.parent.value));
    }
  }

  lemma NewsScopesOpen(m: Message)
    requires m.Article?
    ensures OpenMap(BuildMap(NewsScopeFields(m)))
    ensures m.parent.Some? ==> OpenMap(BuildMap(ParentFields(m.parent.value)))
  {
    hide OpenMap, Get;
    NewsScopeGets(m);
    if m.parent.Some? {
      ParentGets(m.parent.value);
    }
  }

  lemma NewsSorted(m: Message)
    requires m.Article?
    ensures var u := BuildMap(SortedFields(NewsFields(m)));
            && NewsGet(u, m) && Get(u, Name("sig")).None? && Get(u, Name("v")) == Some(Uint(VERSION))
  {
    hide Get, Name, BuildMap, NamesApart, CanonicalValue, HasFields, DeepSort;
    NewsGetsOf(SortedFields(NewsFields(m)));
    SortedPlain();
    NewsScopesOpen(m);
    SortedHasFields(NewsScopeFields(m));
    if m.parent.Some? {
      SortedHasFields(ParentFields(m.parent.value));
    }
  }

  lemma NewsScopesLength(m: Message)
    requires m.Article?
    ensures |Encode(BuildMap(NewsScopeFields(m)))| <= 68
    ensures m.parent.Some? ==> |Encode(BuildMap(ParentFields(m.parent.value)))| <= 78
  {
    hide Encode, FieldsLength, BuildMap;
    var s := NewsScopeFields(m);
    assert s[0..] == s;
    BlobLength(m.server);
    BlobLength(m.category);
    ScopeLength(s);
    LengthFrom(s, 0);
    LengthFrom(s, 1);
    LengthFrom(s, 2);
    if m.parent.Some? {
      ParentLength(m.parent.value);
    }
  }

  lemma ParentLength(parent: Parent)
    ensures |Encode(BuildMap(ParentFields(parent)))| <= 78
  {
    hide Encode, FieldsLength, BuildMap;
    var p := ParentFields(parent);
    assert p[0..] == p;
    UintLength(parent.article);
    if parent.signed.Some? {
      BlobLength(parent.signed.value.0);
      BlobLength(parent.signed.value.1);
    }
    ScopeLength(p);
    LengthFrom(p, 0);
    LengthFrom(p, 1);
    LengthFrom(p, 2);
    LengthFrom(p, 3);
  }

  lemma NewsHeadLengths(m: Message)
    requires m.Article? && |m.cert| <= CERT_MAX_BYTES
    ensures var f := NewsFields(m);
            && FieldLength(f[0]) == 3 && FieldLength(f[1]) <= 40 && FieldLength(f[2]) <= 14 && FieldLength(f[3]) <= 71
            && FieldLength(f[4]) <= 85 && FieldLength(f[5]) <= 8 + CERT_MAX_BYTES
  {
    hide Encode, BuildMap, CanonicalValue;
    UintLength(VERSION);
    UintLength(m.sent);
    BlobLength(m.id);
    BlobLength(m.cert);
    NewsScopesLength(m);
  }

  lemma NewsTextLengths(m: Message)
    requires m.Article? && |m.mime| <= 13
    requires |CanonicalText(m.subject)| <= 255 && |CanonicalText(m.body)| <= 65_535
    ensures var f := NewsFields(m);
            FieldLength(f[6]) <= 265 && FieldLength(f[7]) <= 65_543 && FieldLength(f[8]) <= 20
  {
    hide Encode, BuildMap, CanonicalText;
    TextLength(CanonicalText(m.subject));
    TextLength(CanonicalText(m.body));
    TextLength(m.mime);
  }

  lemma NewsLength(m: Message)
    requires m.Article? && |m.cert| <= CERT_MAX_BYTES && |m.mime| <= 13
    requires |CanonicalText(m.subject)| <= 255 && |CanonicalText(m.body)| <= 65_535
    ensures FieldsLength(NewsFields(m)) <= 66_600
  {
    hide NewsFields, CanonicalText, FieldsLength, FieldLength;
    var f := NewsFields(m);
    NewsHeadLengths(m);
    NewsTextLengths(m);
    assert f[0..] == f;
    LengthFrom(f, 0);
    LengthFrom(f, 1);
    LengthFrom(f, 2);
    LengthFrom(f, 3);
    LengthFrom(f, 4);
    LengthFrom(f, 5);
    LengthFrom(f, 6);
    LengthFrom(f, 7);
    LengthFrom(f, 8);
    LengthFrom(f, 9);
  }

  lemma NewsBounds(m: Message)
    requires m.Article? && NewsOutcome(m).Ok?
    ensures |CanonicalText(m.subject)| <= 255 && |CanonicalText(m.body)| <= 65_535 && |m.mime| <= 13
  {
    hide CanonicalText, IsCanonicalText, Name;
    assert |Name("text/plain")| == 10 && |Name("text/markdown")| == 13;
  }

  /** An article whose texts, type and certificate pass signs within its form's
      bound. */
  lemma NewsFits(m: Message, sig: Buf)
    requires m.Article? && |m.cert| <= CERT_MAX_BYTES && |sig| == SIG_BYTES
    requires FromValue(News, Unsigned(m), false).Ok?
    ensures |Sealed(Unsigned(m), sig)| <= WholeMaxBytes(News)
  {
    hide Encode, FromValue, FieldsLength, Sealed, NewsGet, BuildMap, CanonicalText, IsCanonicalText, NewsOutcome;
    NewsGets(m);
    NewsReads(Unsigned(m), m);
    NewsBounds(m);
    NewsLength(m);
    ObjectLength(NewsFields(m), sig);
  }

  lemma NewsUnsigned(m: Message)
    requires m.Article?
    ensures Unsigned(m) == BuildMap(NewsFields(m))
  {
  }

  lemma NewsNamesShort(m: Message)
    requires m.Article?
    ensures forall i | 0 <= i < |NewsFields(m)| :: Ascii(NewsFields(m)[i].name) && |NewsFields(m)[i].name| < 100
  {
    hide Ascii, CanonicalValue, BuildMap;
    AsciiNames();
  }

  lemma NewsGetSame(c: Value, u: Value, m: Message)
    requires m.Article? && NewsGet(u, m) && forall name | name != SIG :: Get(c, name) == Get(u, name)
    ensures NewsGet(c, m)
  {
    hide Get, Name, HasFields, CanonicalValue;
    NotSigNames();
  }

  lemma NewsSealed(m: Message, sig: Buf)
    requires m.Article? && NewsHeld(m) && |sig| == SIG_BYTES
    ensures var c := DeepSort(Push(BuildMap(SortedFields(NewsFields(m))), SIG, Blob(sig)));
            && DecodeCanonical(Sealed(Unsigned(m), sig)) == Ok(c) && Encode(c) == Sealed(Unsigned(m), sig)
            && FromValueUpto(c, VERSION) == Ok(Envelope(c, VERSION, Encode(Unsigned(m)), sig)) && NewsGet(c, m)
  {
    hide Encode, DeepSort, DecodeCanonical, FromValueUpto, Sealed, HasFields, Entries, Get, NewsFields, NewsGet,
         ValidUtf8, CanonicalText, NewsHeld, Holdable, SortedFields, NamesApart, Ascii, Name;
    NewsGets(m);
    NewsHoldable(m);
    NewsSorted(m);
    NewsNamesShort(m);
    SigName();
    SealedFields(NewsFields(m), sig);
    NewsUnsigned(m);
    NewsGetSame(DeepSort(Push(BuildMap(SortedFields(NewsFields(m))), SIG, Blob(sig))),
                BuildMap(SortedFields(NewsFields(m))), m);
  }

  /** An article signed, and parsed whole: the article, its subject and body in
      canonical form, and the very bytes that were signed. */
  lemma NewsSigned(w: World, m: Message, sig: Buf, at: U64)
    requires m.Article? && NewsHeld(m) && |sig| == SIG_BYTES
    requires FromValue(News, Unsigned(m), false).Ok? && CheckCert(w, m.cert, m.sent, at).Ok?
    requires w.verifies(CheckCert(w, m.cert, m.sent, at).value.device, News, Encode(Unsigned(m)), sig).None?
    ensures var r := ParseWhole(w, News, Sealed(Unsigned(m), sig), at);
            r.Ok? && r.value.message == Normal(m) && Encode(r.value.whole) == Sealed(Unsigned(m), sig)
  {
    hide Encode, DeepSort, DecodeCanonical, FromValue, FromValueUpto, Sealed, CheckWindow, NewsGet, Entries, Get, Name,
         ValidUtf8, CanonicalText, NewsHeld, Holdable, SortedFields, NamesApart, Ascii, IsCanonicalText;
    var c := DeepSort(Push(BuildMap(SortedFields(NewsFields(m))), SIG, Blob(sig)));
    NewsGets(m);
    NewsReads(Unsigned(m), m);
    NewsFits(m, sig);
    NewsSealed(m, sig);
    NewsReads(c, m);
  }
}
