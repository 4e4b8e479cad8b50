/** What a message proves by being accepted, and exactly which are: its fields and
    their bounds, its certificate, and the signature over its map. */
module AcceptedMessages {
  import opened Bytes
  import opened Cbor
  import opened Canonical
  import opened Maps
  import opened Signed
  import opened LineEndings
  import opened Messages
  import opened Contents
  import Reassembly

  // Fields.

  /** What every kind of message holds. */
  ghost predicate HoldsCommon(v: Value, m: Message) {
    && Get(v, Name("id")) == Some(Blob(m.id)) && Get(v, Name("sent")) == Some(Uint(m.sent))
    && Get(v, Name("cert")) == Some(Blob(m.cert)) && Get(v, Name("cert_sha256")).None?
  }

  ghost predicate HoldsText(v: Value, key: string, t: Buf, min: nat, max: nat) {
    && Get(v, Name(key)) == Some(Text(t)) && min <= |t| <= max
    && forall i | 0 <= i < |t| :: t[i] >= 0x20 || t[i] == LF || t[i] == TAB
  }

  /** A flag is there and true, or not there. */
  ghost predicate HoldsFlag(v: Value, key: string, on: bool) {
    Get(v, Name(key)) == if on then Some(Bool(true)) else None
  }

  /** The map under `key` has no keys but these. */
  ghost predicate HoldsOnly(v: Value, key: string, names: seq<Buf>) {
    && Get(v, Name(key)).Some? && Get(v, Name(key)).value.Map?
    && forall e | e in Get(v, Name(key)).value.entries :: e.key.Text? && e.key.s in names
  }

  lemma CommonIff(v: Value, id: Bytes16, sent: U64, cert: Buf)
    ensures Common(v) == Ok((id, sent, cert)) <==>
            && Get(v, Name("id")) == Some(Blob(id)) && Get(v, Name("sent")) == Some(Uint(sent))
            && Get(v, Name("cert")) == Some(Blob(cert)) && Get(v, Name("cert_sha256")).None?
  {
    hide Get, Name;
  }

  lemma TextIff(v: Value, key: string, min: nat, max: nat)
    ensures forall t :: BoundedText(v, key, min, max) == Ok(t) <==> HoldsText(v, key, t, min, max)
  {
    hide Get, Name;
  }

  lemma FlagIff(v: Value, key: string, on: bool)
    ensures OnlyTrue(v, key) == Ok(on) <==> HoldsFlag(v, key, on)
  {
    hide Get, Name;
  }

  lemma OnlyIff(v: Value, key: string, names: seq<Buf>, x: Value)
    ensures Exact(v, key, names) == Ok(x) <==>
            Get(v, Name(key)) == Some(x) && HoldsOnly(v, key, names)
  {
    hide Get, Name;
    if Get(v, Name(key)).Some? && Get(v, Name(key)).value.Map? {
      var es := Get(v, Name(key)).value.entries;
      assert forall i :: 0 <= i < |es| ==> es[i] in es;
    }
  }

  lemma BytesIff(v: Value, key: string)
    ensures forall b: Bytes32 :: Bytes32Field(v, key) == Ok(b) <==> Get(v, Name(key)) == Some(Blob(b))
    ensures forall b: Bytes16 :: Bytes16Field(v, key) == Ok(b) <==> Get(v, Name(key)) == Some(Blob(b))
    ensures forall b: Bytes32 :: OptBytes32(v, key) == Ok(Some(b)) <==> Get(v, Name(key)) == Some(Blob(b))
    ensures forall b: Bytes16 :: OptBytes16(v, key) == Ok(Some(b)) <==> Get(v, Name(key)) == Some(Blob(b))
    ensures OptBytes32(v, key) == Ok(None) <==> Get(v, Name(key)).None?
    ensures OptBytes16(v, key) == Ok(None) <==> Get(v, Name(key)).None?
  {
    hide Get, Name;
  }

  lemma PlainIff(v: Value, key: string)
    ensures forall n: U64 :: UintField(v, key) == Ok(n) <==> Get(v, Name(key)) == Some(Uint(n))
    ensures forall t :: TextField(v, key) == Ok(t) <==> Get(v, Name(key)) == Some(Text(t))
    ensures forall t :: OptText(v, key) == Ok(Some(t)) <==> Get(v, Name(key)) == Some(Text(t))
    ensures OptText(v, key) == Ok(None) <==> Get(v, Name(key)).None?
  {
    hide Get, Name;
  }

  ghost predicate HoldsQuote(v: Value, quote: Option<Buf>, detached: bool) {
    match quote
    case None => Get(v, Name("quote")).None?
    case Some(q) => !detached && HoldsText(v, "quote", q, 1, 8192)
  }

  ghost predicate IsPrivate(v: Value, detached: bool, m: Message) {
    && m.PrivateMessage? && HoldsCommon(v, m) && Get(v, Name("in")).None?
    && Get(v, Name("to")) == Some(Blob(m.to)) && HoldsText(v, "text", m.text, 1, if detached then 4096 else 8192)
    && HoldsQuote(v, m.quote, detached) && HoldsFlag(v, "auto", m.auto)
  }

  /** Exactly which maps are private messages, and of which fields. */
  lemma PrivateIff(v: Value, detached: bool, m: Message)
    ensures FromValue(Private, v, detached) == Ok(m) <==> IsPrivate(v, detached, m)
  {
    hide IsPrivate, PrivateFrom;
    if FromValue(Private, v, detached) == Ok(m) {
      PrivateHolds(v, detached, m);
    }
    if IsPrivate(v, detached, m) {
      PrivateComes(v, detached, m);
    }
  }

  lemma PrivateHolds(v: Value, detached: bool, m: Message)
    requires PrivateFrom(v, detached) == Ok(m)
    ensures IsPrivate(v, detached, m)
  {
    hide Get, Name, Common, HoldsText, HoldsFlag, BoundedText, OnlyTrue, Bytes32Field, OptText, TextField, CheckText;
    CommonAs(v, m);
    TextIff(v, "text", 1, if detached then 4096 else 8192);
    PlainIff(v, "quote");
    BytesIff(v, "to");
    FlagIff(v, "auto", m.auto);
    QuoteIff(v);
  }

  lemma PrivateComes(v: Value, detached: bool, m: Message)
    requires IsPrivate(v, detached, m)
    ensures PrivateFrom(v, detached) == Ok(m)
  {
    hide Get, Name, Common, HoldsText, HoldsFlag, BoundedText, OnlyTrue, Bytes32Field, OptText, TextField, CheckText;
    CommonAs(v, m);
    TextIff(v, "text", 1, if detached then 4096 else 8192);
    PlainIff(v, "quote");
    BytesIff(v, "to");
    FlagIff(v, "auto", m.auto);
    QuoteIff(v);
  }

  lemma QuoteIff(v: Value)
    ensures forall q :: HoldsText(v, "quote", q, 1, 8192) <==>
              Get(v, Name("quote")) == Some(Text(q)) && CheckText(q, "quote", 1, 8192).Ok?
  {
    hide Get, Name;
  }

  lemma CommonAs(v: Value, m: Message)
    ensures HoldsCommon(v, m) <==> Common(v) == Ok((m.id, m.sent, m.cert))
    ensures Common(v).Ok? ==> Common(v) == Ok((Common(v).value.0, Common(v).value.1, Common(v).value.2))
  {
    hide Get, Name, Common;
    CommonIff(v, m.id, m.sent, m.cert);
  }

  ghost predicate InRoom(v: Value, server: Bytes32, room: U64) {
    && HoldsOnly(v, "in", [Name("server"), Name("room")])
    && Get(Get(v, Name("in")).value, Name("server")) == Some(Blob(server))
    && Get(Get(v, Name("in")).value, Name("room")) == Some(Uint(room))
  }

  ghost predicate IsChat(v: Value, m: Message) {
    && m.ChatLine? && HoldsCommon(v, m) && Get(v, Name("to")).None?
    && InRoom(v, m.server, m.room) && HoldsText(v, "text", m.text, 1, 4096) && HoldsFlag(v, "act", m.act)
  }

  /** And chat lines. */
  lemma ChatIff(v: Value, detached: bool, m: Message)
    ensures FromValue(Chat, v, detached) == Ok(m) <==> IsChat(v, m)
  {
    hide IsChat, ChatFrom;
    if FromValue(Chat, v, detached) == Ok(m) {
      ChatHolds(v, m);
    }
    if IsChat(v, m) {
      ChatComes(v, m);
    }
  }

  lemma RoomIff(v: Value, server: Bytes32, room: U64)
    ensures var scope := Exact(v, "in", [Name("server"), Name("room")]);
            InRoom(v, server, room) <==>
            && scope.Ok? && As(Bytes32Field(scope.value, "server"), "in") == Ok(server)
            && As(UintField(scope.value, "room"), "in") == Ok(room)
  {
    hide Get, Name, Bytes32Field, UintField, Exact;
    var names := [Name("server"), Name("room")];
    var scope := Exact(v, "in", names);
    if scope.Ok? {
      OnlyIff(v, "in", names, scope.value);
      BytesIff(scope.value, "server");
      PlainIff(scope.value, "room");
    }
    if Get(v, Name("in")).Some? {
      OnlyIff(v, "in", names, Get(v, Name("in")).value);
    }
  }

  lemma ChatHolds(v: Value, m: Message)
    requires ChatFrom(v) == Ok(m)
    ensures IsChat(v, m)
  {
    hide Get, Name, Common, HoldsText, HoldsFlag, InRoom, BoundedText, OnlyTrue, Bytes32Field, UintField, Exact;
    CommonAs(v, m);
    RoomIff(v, m.server, m.room);
    TextIff(v, "text", 1, 4096);
    FlagIff(v, "act", m.act);
  }

  lemma ChatComes(v: Value, m: Message)
    requires IsChat(v, m)
    ensures ChatFrom(v) == Ok(m)
  {
    hide Get, Name, Common, HoldsText, HoldsFlag, InRoom, BoundedText, OnlyTrue, Bytes32Field, UintField, Exact;
    CommonAs(v, m);
    RoomIff(v, m.server, m.room);
    TextIff(v, "text", 1, 4096);
    FlagIff(v, "act", m.act);
  }

  ghost predicate InCategory(v: Value, server: Bytes32, category: Bytes16) {
    && HoldsOnly(v, "in", [Name("server"), Name("category")])
    && Get(Get(v, Name("in")).value, Name("server")) == Some(Blob(server))
    && Get(Get(v, Name("in")).value, Name("category")) == Some(Blob(category))
  }

  lemma CategoryIff(v: Value, server: Bytes32, category: Bytes16)
    ensures var scope := Exact(v, "in", [Name("server"), Name("category")]);
            InCategory(v, server, category) <==>
            && scope.Ok? && As(Bytes32Field(scope.value, "server"), "in") == Ok(server)
            && As(Bytes16Field(scope.value, "category"), "in") == Ok(category)
  {
    hide Get, Name, Bytes32Field, Bytes16Field, Exact;
    var names := [Name("server"), Name("category")];
    var scope := Exact(v, "in", names);
    if scope.Ok? {
      OnlyIff(v, "in", names, scope.value);
      BytesIff(scope.value, "server");
      BytesIff(scope.value, "category");
    }
    if Get(v, Name("in")).Some? {
      OnlyIff(v, "in", names, Get(v, Name("in")).value);
    }
  }

  /** An answer names its parent's id and its signer both or neither. */
  ghost predicate Answers(v: Value, parent: Option<Parent>) {
    match parent
    case None => Get(v, Name("parent")).None?
    case Some(p) =>
      && HoldsOnly(v, "parent", [Name("article"), Name("id"), Name("by")])
      && var x := Get(v, Name("parent")).value;
         && Get(x, Name("article")) == Some(Uint(p.article))
         && Get(x, Name("id")) == (if p.signed.Some? then Some(Blob(p.signed.value.0)) else None)
         && Get(x, Name("by")) == (if p.signed.Some? then Some(Blob(p.signed.value.1)) else None)
  }

  lemma AnswersIff(v: Value, parent: Option<Parent>)
    ensures ParentFrom(v) == Ok(parent) <==> Answers(v, parent)
  {
    hide Get, Name, OptBytes32, OptBytes16, UintField, Exact;
    var names := [Name("article"), Name("id"), Name("by")];
    var p := Exact(v, "parent", names);
    if p.Ok? {
      OnlyIff(v, "parent", names, p.value);
      BytesIff(p.value, "id");
      BytesIff(p.value, "by");
      PlainIff(p.value, "article");
    }
    if Get(v, Name("parent")).Some? {
      OnlyIff(v, "parent", names, Get(v, Name("parent")).value);
    }
  }

  ghost predicate IsNews(v: Value, m: Message) {
    && m.Article? && HoldsCommon(v, m) && Get(v, Name("to")).None?
    && InCategory(v, m.server, m.category) && Answers(v, m.parent)
    && HoldsText(v, "subject", m.subject, 1, 255) && LF !in m.subject && HoldsText(v, "body", m.body, 0, 65_535)
    && Get(v, Name("mime")) == Some(Text(m.mime))
    && (m.mime == Name("text/plain") || m.mime == Name("text/markdown"))
  }

  /** And articles. */
  lemma NewsIff(v: Value, detached: bool, m: Message)
    ensures FromValue(News, v, detached) == Ok(m) <==> IsNews(v, m)
  {
    hide IsNews, NewsFrom;
    if FromValue(News, v, detached) == Ok(m) {
      NewsHolds(v, m);
    }
    if IsNews(v, m) {
      NewsComes(v, m);
    }
  }

  lemma NewsHolds(v: Value, m: Message)
    requires NewsFrom(v) == Ok(m)
    ensures IsNews(v, m)
  {
    hide Get, Name, Common, HoldsText, InCategory, Answers, ParentFrom, BoundedText, TextField, Bytes32Field,
         Bytes16Field, Exact;
    CommonAs(v, m);
    CategoryIff(v, m.server, m.category);
    AnswersIff(v, m.parent);
    TextIff(v, "subject", 1, 255);
    TextIff(v, "body", 0, 65_535);
    PlainIff(v, "mime");
  }

  lemma NewsComes(v: Value, m: Message)
    requires IsNews(v, m)
    ensures NewsFrom(v) == Ok(m)
  {
    hide Get, Name, Common, HoldsText, InCategory, Answers, ParentFrom, BoundedText, TextField, Bytes32Field,
         Bytes16Field, Exact;
    CommonAs(v, m);
    CategoryIff(v, m.server, m.category);
    AnswersIff(v, m.parent);
    TextIff(v, "subject", 1, 255);
    TextIff(v, "body", 0, 65_535);
    PlainIff(v, "mime");
  }

  ghost predicate IsMessage(kind: Kind, v: Value, detached: bool, m: Message) {
    match kind
    case Private => IsPrivate(v, detached, m)
    case Chat => IsChat(v, m)
    case News => IsNews(v, m)
  }

  lemma MessageIff(kind: Kind, v: Value, detached: bool, m: Message)
    ensures FromValue(kind, v, detached) == Ok(m) <==> IsMessage(kind, v, detached, m)
  {
    hide FromValue, IsPrivate, IsChat, IsNews;
    match kind
    case Private => PrivateIff(v, detached, m);
    case Chat => ChatIff(v, detached, m);
    case News => NewsIff(v, detached, m);
  }

  // Certificates.

  /** Issued before it expires, and the time between the two, give or take `skew`. */
  predicate Covers(issued: U64, expires: U64, time: U64, skew: U64) {
    issued < expires && issued <= time + skew && time <= expires + skew
  }

  /** Saturating, the additions let through what they would in unbounded numbers. */
  lemma WindowIff(issued: U64, expires: U64, time: U64, skew: U64)
    ensures CheckWindow(issued, expires, time, skew) ==
            if Covers(issued, expires, time, skew) then None
            else if issued < expires && issued <= time + skew then Some(Expired)
            else Some(NotYetValid)
  {
  }

  ghost predicate CertGood(w: World, bytes: Buf, cert: DeviceCert, sent: U64, at: U64) {
    && |bytes| <= CERT_MAX_BYTES && w.readCert(bytes) == Ok(cert) && cert.mayMessage
    && Covers(cert.issued, cert.expires, sent, SKEW) && Covers(cert.issued, cert.expires, at, SKEW)
  }

  lemma CertIff(w: World, bytes: Buf, cert: DeviceCert, sent: U64, at: U64)
    ensures CheckCert(w, bytes, sent, at) == Ok(cert) <==> CertGood(w, bytes, cert, sent, at)
  {
    hide CheckWindow, Covers;
    WindowIff(cert.issued, cert.expires, sent, SKEW);
    WindowIff(cert.issued, cert.expires, at, SKEW);
  }

  // Signatures.

  /** `v` holds a signature, which the key made over the rest of `v`. */
  ghost predicate SignedBy(w: World, kind: Kind, v: Value, key: Bytes32) {
    exists sig: Buf ::
      && |sig| == SIG_BYTES && Get(v, Name("sig")) == Some(Blob(sig))
      && w.verifies(key, kind, Encode(Without(v, Name("sig"))), sig).None?
  }

  /** A message of this kind, its certificate good when it was sent and at `at`, and
      signed by the device the certificate names. */
  ghost predicate Accepted(w: World, kind: Kind, s: Checked, detached: bool, at: U64) {
    && s.whole.Map? && Get(s.whole, Name("v")) == Some(Uint(VERSION))
    && IsMessage(kind, s.whole, detached, s.message)
    && CertGood(w, s.message.cert, s.cert, s.message.sent, at)
    && SignedBy(w, kind, s.whole, s.cert.device)
  }

  /** A check answers a message exactly when it is one. */
  lemma VerifyIff(w: World, kind: Kind, value: Value, detached: bool, at: U64, s: Checked)
    ensures Verify(w, kind, value, detached, at) == Ok(s) <==>
            s.whole == value && Accepted(w, kind, s, detached, at)
  {
    hide Get, FromValue, CheckCert, IsMessage, CertGood, Encode, Name, Without;
    assert Name("sig") == SIG by {
      SigIs();
    }
    MessageIff(kind, value, detached, s.message);
    CertIff(w, s.message.cert, s.cert, s.message.sent, at);
  }

  lemma SigIs()
    ensures Name("sig") == SIG && Name("sent") == SENT && Name("cert") == CERT && Name("cert_sha256") == CERT_SHA256
  {
    hide Name;
  }

  /** A map that is a message in all but its signature is refused for that. */
  lemma ForgedRefused(w: World, kind: Kind, s: Checked, detached: bool, at: U64, sig: Buf, e: Error)
    requires s.whole.Map? && Get(s.whole, Name("v")) == Some(Uint(VERSION))
    requires IsMessage(kind, s.whole, detached, s.message)
    requires CertGood(w, s.message.cert, s.cert, s.message.sent, at)
    requires |sig| == SIG_BYTES && Get(s.whole, Name("sig")) == Some(Blob(sig))
    requires w.verifies(s.cert.device, kind, Encode(Without(s.whole, Name("sig"))), sig) == Some(e)
    ensures Verify(w, kind, s.whole, detached, at) == Err(e)
  {
    hide Get, FromValue, CheckCert, IsMessage, CertGood, Encode, Name, Without;
    SigIs();
    MessageIff(kind, s.whole, detached, s.message);
    CertIff(w, s.message.cert, s.cert, s.message.sent, at);
  }

  // The three forms.

  /** The most a whole message of each kind may be. */
  function WholeLimit(kind: Kind): nat {
    match kind
    case Private => 17_103
    case Chat => 5_125
    case News => 66_829
  }

  lemma WholeIff(w: World, kind: Kind, bytes: Buf, at: U64, s: Checked)
    ensures ParseWhole(w, kind, bytes, at) == Ok(s) <==>
            && |bytes| <= WholeLimit(kind) && DecodeCanonical(bytes) == Ok(s.whole)
            && Accepted(w, kind, s, false, at)
  {
    hide DecodeCanonical, Verify, Accepted;
    if DecodeCanonical(bytes).Ok? {
      VerifyIff(w, kind, DecodeCanonical(bytes).value, false, at, s);
    }
  }

  /** No text is there yet under its key. */
  ghost predicate TextsApart(v: Value, keys: seq<string>) {
    forall i | 0 <= i < |keys| :: Get(v, Name(keys[i])).None?
  }

  lemma {:induction false} AttachIff(v: Value, keys: seq<string>, texts: seq<Buf>, u: Value)
    requires v.Map? && |keys| == |texts|
    requires forall i, j | 0 <= i < j < |keys| :: Name(keys[i]) != Name(keys[j])
    ensures Attach(v, keys, texts) == Ok(u) <==> TextsApart(v, keys) && u == PushTexts(v, keys, texts)
    decreases |keys|
  {
    hide Find, CanonicalText, Name;
    if keys != [] {
      var rest := keys[1..];
      var e := Entry(Text(Name(keys[0])), Text(CanonicalText(texts[0])));
      var w := Push(v, Name(keys[0]), e.val);
      assert forall i | 0 <= i < |rest| :: rest[i] == keys[i + 1];
      forall i | 0 <= i < |rest| ensures Get(w, Name(rest[i])) == Get(v, Name(rest[i])) {
        Reassembly.FindAppend(v.entries, e, Name(rest[i]));
      }
      AttachIff(w, rest, texts[1..], u);
      assert TextsApart(v, keys) <==> Get(v, Name(keys[0])).None? && TextsApart(v, rest) by {
        TextsApartCons(v, keys);
      }
      assert TextsApart(w, rest) <==> TextsApart(v, rest);
    }
  }

  lemma TextsApartCons(v: Value, keys: seq<string>)
    requires keys != []
    ensures TextsApart(v, keys) <==> Get(v, Name(keys[0])).None? && TextsApart(v, keys[1..])
  {
    hide Get, Name;
    assert forall i | 0 < i < |keys| :: keys[i] == keys[1..][i - 1];
  }

  lemma KeysDiffer(kind: Kind)
    ensures var keys := TextKeys(kind); forall i, j | 0 <= i < j < |keys| :: Name(keys[i]) != Name(keys[j])
  {
  }

  /** A form's map with its texts put beside the rest is a message. */
  lemma ReassembledIff(w: World, kind: Kind, v: Value, texts: seq<Buf>, at: U64, s: Checked)
    requires |texts| == |TextKeys(kind)|
    ensures Reassemble(w, kind, v, texts, at) == Ok(s) <==>
            && v.Map? && TextsApart(v, TextKeys(kind)) && s.whole == PushTexts(v, TextKeys(kind), texts)
            && Accepted(w, kind, s, true, at)
  {
    hide Verify, Accepted, Attach, PushTexts, TextsApart, TextKeys, Name;
    if v.Map? {
      KeysDiffer(kind);
      AttachIff(v, TextKeys(kind), texts, PushTexts(v, TextKeys(kind), texts));
      var u := Attach(v, TextKeys(kind), texts);
      if u.Ok? {
        AttachIff(v, TextKeys(kind), texts, u.value);
        VerifyIff(w, kind, u.value, true, at, s);
      }
    }
  }

  lemma DetachedFormIff(w: World, kind: Kind, bytes: Buf, texts: seq<Buf>, at: U64, s: Checked)
    requires |texts| == |TextKeys(kind)|
    ensures ParseDetached(w, kind, bytes, texts, at) == Ok(s) <==>
            && |bytes| <= 1020 && DecodeCanonical(bytes).Ok?
            && var v := DecodeCanonical(bytes).value;
               && v.Map? && TextsApart(v, TextKeys(kind)) && s.whole == PushTexts(v, TextKeys(kind), texts)
               && Accepted(w, kind, s, true, at)
  {
    hide DecodeCanonical, Reassemble, Accepted, PushTexts, TextsApart, TextKeys;
    if DecodeCanonical(bytes).Ok? {
      ReassembledIff(w, kind, DecodeCanonical(bytes).value, texts, at, s);
    }
  }

  /** A link form names its certificate by hash, and has none of its own. */
  ghost predicate Names(w: World, v: Value, cert: Buf) {
    && v.Map? && Get(v, Name("cert")).None? && Get(v, Name("cert_sha256")) == Some(Blob(w.sha256(cert)))
  }

  lemma LinkFormIff(w: World, kind: Kind, bytes: Buf, texts: seq<Buf>, cert: Buf, at: U64, s: Checked)
    requires |texts| == |TextKeys(kind)|
    ensures ParseLink(w, kind, bytes, texts, cert, at) == Ok(s) <==>
            && |bytes| <= 256 && DecodeCanonical(bytes).Ok?
            && var v := DecodeCanonical(bytes).value;
               && Names(w, v, cert)
               && var u := Push(Without(v, Name("cert_sha256")), Name("cert"), Blob(cert));
                  && TextsApart(u, TextKeys(kind)) && s.whole == PushTexts(u, TextKeys(kind), texts)
                  && Accepted(w, kind, s, true, at)
  {
    hide DecodeCanonical, Reassemble, Accepted, PushTexts, TextsApart, TextKeys, Get, Name, Without;
    SigIs();
    if DecodeCanonical(bytes).Ok? && DecodeCanonical(bytes).value.Map? {
      var v := DecodeCanonical(bytes).value;
      BytesIff(v, "cert_sha256");
      WithoutMap(v);
      ReassembledIff(w, kind, Push(Without(v, CERT_SHA256), CERT, Blob(cert)), texts, at, s);
    }
  }

  lemma WithoutMap(v: Value)
    requires v.Map?
    ensures Without(v, CERT_SHA256).Map?
  {
    hide Drop;
  }

  // The forms as they are written.

  /** A message has a detached form exactly when it passes the limits of one and what
      is left without its texts is no longer than such a form may be. */
  lemma DetachedWrittenIff(kind: Kind, s: Checked, bytes: Buf)
    ensures Detached(kind, s) == Ok(bytes) <==>
            && (exists m :: IsMessage(kind, s.whole, true, m))
            && bytes == Encode(DetachedValue(s.whole, TextKeys(kind))) && |bytes| <= 1020
  {
    hide FromValue, IsMessage, Encode, DetachedValue, TextKeys;
    forall m ensures FromValue(kind, s.whole, true) == Ok(m) <==> IsMessage(kind, s.whole, true, m) {
      MessageIff(kind, s.whole, true, m);
    }
    if FromValue(kind, s.whole, true).Ok? {
      assert IsMessage(kind, s.whole, true, FromValue(kind, s.whole, true).value);
    }
  }

  /** And a link form exactly when it has that and, with its certificate's hash for its
      certificate, is no longer than a link form may be. */
  lemma LinkWrittenIff(w: World, kind: Kind, s: Checked, bytes: Buf)
    ensures Link(w, kind, s) == Ok(bytes) <==>
            && Detached(kind, s).Ok?
            && var rest := Without(DetachedValue(s.whole, TextKeys(kind)), Name("cert"));
               && rest.Map? && |bytes| <= 256
               && bytes == Encode(Push(rest, Name("cert_sha256"), Blob(w.sha256(s.message.cert))))
  {
    hide Detached, Encode, DetachedValue, TextKeys, Name;
    SigIs();
  }

  // What messages are compared by.

  /** An entry that signing again may change. */
  predicate IsResigned(e: Entry) {
    IsKey(e.key, Name("sent")) || IsKey(e.key, Name("cert")) || IsKey(e.key, Name("sig"))
  }

  /** Two messages have one content exactly when they differ in nothing but what
      signing again may change. */
  lemma ContentIff(s: Checked, t: Checked)
    requires OpenMap(s.whole) && OpenMap(t.whole)
    ensures Content(s) == Content(t) <==>
            forall e | !IsResigned(e) :: e in s.whole.entries <==> e in t.whole.entries
  {
    hide OpenMap, Encode, DeepSort, DecodeCanonical, Name, IsCanonical, Drop;
    SigIs();
    var a, b := Compared(s.whole), Compared(t.whole);
    ComparedEntries(s.whole);
    ComparedEntries(t.whole);
    if Encode(a) == Encode(b) {
      OpenCanonical(a);
      OpenCanonical(b);
    }
    if forall e :: e in a.entries <==> e in b.entries {
      SameEntriesEncode(a, b);
    }
  }

  lemma ComparedEntries(v: Value)
    requires OpenMap(v)
    ensures OpenMap(Compared(v)) && Compared(v).Map?
    ensures forall e :: e in Compared(v).entries <==> e in v.entries && !IsResigned(e)
  {
    hide CanonicalEntry, KeysApart, Name;
    SigIs();
    WithoutOpen(v, SENT);
    WithoutOpen(Without(v, SENT), CERT);
    WithoutOpen(Without(Without(v, SENT), CERT), SIG);
  }

  /** So one content is one id, one place and one text. */
  lemma ContentFixes(s: Checked, t: Checked, name: Buf)
    requires OpenMap(s.whole) && OpenMap(t.whole) && Content(s) == Content(t)
    requires name != Name("sent") && name != Name("cert") && name != Name("sig")
    ensures Get(s.whole, name) == Get(t.whole, name)
  {
    hide OpenMap, Content, Name;
    ContentIff(s, t);
    SameUnderName(s.whole, t.whole, name);
  }
}
