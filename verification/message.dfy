/** Signed messages: their fields, the three forms one travels in, and what
    checking any form answers. SHA-256, certificates and signatures come as the
    functions of a `World`. */
module Messages {
  import opened Bytes
  import opened Cbor
  import opened Canonical
  import opened Maps
  import opened Signed
  import opened LineEndings

  const SKEW: U64 := 600
  const CERT_MAX_BYTES: nat := 512
  const DETACHED_MAX_BYTES: nat := 1020
  const LINK_MAX_BYTES: nat := 256

  /** Which of the three messages a function below is about. */
  datatype Kind = Private | Chat | News

  datatype Message =
    | PrivateMessage(id: Bytes16, sent: U64, to: Bytes32, cert: Buf, text: Buf, quote: Option<Buf>, auto: bool)
    | ChatLine(id: Bytes16, sent: U64, server: Bytes32, room: U64, cert: Buf, text: Buf, act: bool)
    | Article(id: Bytes16, sent: U64, server: Bytes32, category: Bytes16, parent: Option<Parent>, cert: Buf,
              subject: Buf, body: Buf, mime: Buf)

  datatype Parent = Parent(article: U64, signed: Option<(Bytes16, Bytes32)>)

  datatype DeviceCert = DeviceCert(identity: Bytes32, device: Bytes32, deviceEnc: Bytes32, mayMessage: bool,
                                   issued: U64, expires: U64)

  /** What this model takes as given: a hash, a certificate's parse, and why a
      signature by a key under a domain does not verify over some bytes. */
  datatype World = World(sha256: Buf -> Bytes32,
                         readCert: Buf -> Result<DeviceCert, Error>,
                         verifies: (Bytes32, Kind, Buf, Buf) -> Option<Error>)

  const TEXT: string := "text"

  /** Where the texts of a whole map stand; they travel beside the other forms. */
  function TextKeys(kind: Kind): seq<string> {
    if kind.News? then ["subject", "body"] else [TEXT]
  }

  function HeadLen(n: nat): nat {
    if n < 24 then 1 else if n <= 0xff then 2 else if n <= 0xffff then 3 else 5
  }

  function TextEntry(keyLen: nat, max: nat): nat {
    HeadLen(keyLen) + keyLen + HeadLen(max) + max
  }

  function WholeMaxBytes(kind: Kind): nat {
    match kind
    case Private => 17_103
    case Chat => DETACHED_MAX_BYTES + TextEntry(4, 4096) + 1
    case News => DETACHED_MAX_BYTES + TextEntry(7, 255) + TextEntry(4, 65_535) + 1
  }

  // Reading fields.

  /** Fails if the key is there at all. */
  function Refuse(v: Value, key: string): Result<(), Error> {
    Check(Get(v, Name(key)).None?, BadField(key))
  }

  function OptBytes16(v: Value, key: string): Result<Option<Bytes16>, Error> {
    match OptBytesOf(v, key, 16)
    case Ok(Some(b)) => Ok(Some(b))
    case Ok(None) => Ok(None)
    case Err(e) => Err(e)
  }

  function OptBytes32(v: Value, key: string): Result<Option<Bytes32>, Error> {
    match OptBytesOf(v, key, 32)
    case Ok(Some(b)) => Ok(Some(b))
    case Ok(None) => Ok(None)
    case Err(e) => Err(e)
  }

  function Bytes16Field(v: Value, key: string): Result<Bytes16, Error> {
    Required(OptBytes16(v, key), key)
  }

  function Bytes32Field(v: Value, key: string): Result<Bytes32, Error> {
    Required(OptBytes32(v, key), key)
  }

  function Common(v: Value): Result<(Bytes16, U64, Buf), Error> {
    var _ :- Refuse(v, "cert_sha256");
    var id :- Bytes16Field(v, "id");
    var sent :- UintField(v, "sent");
    var cert :- BytesField(v, "cert");
    Ok((id, sent, cert))
  }

  /** The map under `key`, refused for any key of its own outside `allowed`. */
  function Exact(v: Value, key: string, allowed: seq<Buf>): Result<Value, Error> {
    match Get(v, Name(key))
    case None => Err(MissingField(key))
    case Some(inner) =>
      if inner.Map? && forall i :: 0 <= i < |inner.entries| ==>
           inner.entries[i].key.Text? && inner.entries[i].key.s in allowed
      then Ok(inner) else Err(BadField(key))
  }

  /** True if there, false if absent; an explicit false is an error. */
  function OnlyTrue(v: Value, key: string): Result<bool, Error> {
    var flag :- OptBool(v, key);
    if flag == Some(false) then Err(BadField(key)) else Ok(flag.Some?)
  }

  function CheckText(text: Buf, key: string, min: nat, max: nat): Result<(), Error> {
    Check(IsCanonicalText(text) && min <= |text| <= max, BadField(key))
  }

  function BoundedText(v: Value, key: string, min: nat, max: nat): Result<Buf, Error> {
    var text :- TextField(v, key);
    var _ :- CheckText(text, key, min, max);
    Ok(text)
  }

  function As<T>(r: Result<T, Error>, key: string): Result<T, Error> {
    if r.Ok? then r else Err(BadField(key))
  }

  /** A map's message, or the first check its fields fail; `detached` picks the
      tighter of a private message's limits. */
  function FromValue(kind: Kind, v: Value, detached: bool): (r: Result<Message, Error>) {
    match kind
    case Private => PrivateFrom(v, detached)
    case Chat => ChatFrom(v)
    case News => NewsFrom(v)
  }

  function PrivateFrom(v: Value, detached: bool): (r: Result<Message, Error>)
    ensures r.Ok? ==> r.value.PrivateMessage?
  {
    var _ :- Refuse(v, "in");
    var (id, sent, cert) :- Common(v);
    var quote :- OptText(v, "quote");
    var _ :- Check(quote.Some? ==> !detached, BadField("quote"));
    var _ :- if quote.Some? then CheckText(quote.value, "quote", 1, 8192) else Ok(());
    var text :- BoundedText(v, "text", 1, if detached then 4096 else 8192);
    var to :- Bytes32Field(v, "to");
    var auto :- OnlyTrue(v, "auto");
    Ok(PrivateMessage(id, sent, to, cert, text, quote, auto))
  }

  function ChatFrom(v: Value): (r: Result<Message, Error>) {
    var _ :- Refuse(v, "to");
    var (id, sent, cert) :- Common(v);
    var scope :- Exact(v, "in", [Name("server"), Name("room")]);
    var text :- BoundedText(v, "text", 1, 4096);
    var server :- As(Bytes32Field(scope, "server"), "in");
    var room :- As(UintField(scope, "room"), "in");
    var act :- OnlyTrue(v, "act");
    Ok(ChatLine(id, sent, server, room, cert, text, act))
  }

  function ParentFrom(v: Value): (r: Result<Option<Parent>, Error>) {
    if Get(v, Name("parent")).None? then Ok(None) else
      var p :- Exact(v, "parent", [Name("article"), Name("id"), Name("by")]);
      var id :- As(OptBytes16(p, "id"), "parent");
      var signer :- As(OptBytes32(p, "by"), "parent");
      var _ :- Check(id.Some? == signer.Some?, BadField("parent"));
      var article :- As(UintField(p, "article"), "parent");
      Ok(Some(Parent(article, if id.Some? then Some((id.value, signer.value)) else None)))
  }

  function NewsFrom(v: Value): (r: Result<Message, Error>) {
    hide Refuse, Common, Exact, ParentFrom, BoundedText, TextField, Bytes32Field, Bytes16Field, Name, Get;
    var _ :- Refuse(v, "to");
    var (id, sent, cert) :- Common(v);
    var scope :- Exact(v, "in", [Name("server"), Name("category")]);
    var parent :- ParentFrom(v);
    var subject :- BoundedText(v, "subject", 1, 255);
    var _ :- Check(LF !in subject, BadField("subject"));
    var body :- BoundedText(v, "body", 0, 65_535);
    var mime :- TextField(v, "mime");
    var _ :- Check(mime == Name("text/plain") || mime == Name("text/markdown"), BadField("mime"));
    var server :- As(Bytes32Field(scope, "server"), "in");
    var category :- As(Bytes16Field(scope, "category"), "in");
    Ok(Article(id, sent, server, category, parent, cert, subject, body, mime))
  }

  // Checking.

  /** What checking answers; `whole` need not be in canonical order. */
  datatype Checked = Checked(message: Message, cert: DeviceCert, whole: Value)

  /** The certificate's checks in their order, its window asked at both times. */
  function CheckCert(w: World, bytes: Buf, sent: U64, at: U64): Result<DeviceCert, Error> {
    var _ :- Check(|bytes| <= CERT_MAX_BYTES, BadField("cert"));
    var cert :- w.readCert(bytes);
    var _ :- Check(cert.mayMessage, CapabilityMissing);
    var _ :- Unless(CheckWindow(cert.issued, cert.expires, sent, SKEW));
    var _ :- Unless(CheckWindow(cert.issued, cert.expires, at, SKEW));
    Ok(cert)
  }

  function Verify(w: World, kind: Kind, value: Value, detached: bool, at: U64): (r: Result<Checked, Error>) {
    var env :- FromValueUpto(value, VERSION);
    var message :- FromValue(kind, env.value, detached);
    var cert :- CheckCert(w, message.cert, message.sent, at);
    var _ :- Unless(w.verifies(cert.device, kind, env.signedBytes, env.sig));
    Ok(Checked(message, cert, env.value))
  }

  function Decoded(bytes: Buf): Result<Value, Error> {
    match DecodeCanonical(bytes)
    case Ok(v) => Ok(v)
    case Err(e) => Err(CborFailed(e))
  }

  function ParseWhole(w: World, kind: Kind, bytes: Buf, at: U64): (r: Result<Checked, Error>) {
    var _ :- Check(|bytes| <= WholeMaxBytes(kind), TooLarge);
    var value :- Decoded(bytes);
    Verify(w, kind, value, false, at)
  }

  // The detached form: the map without its texts, which travel beside it.

  function DetachedValue(v: Value, keys: seq<string>): Value
    decreases |keys|
  {
    if keys == [] then v else DetachedValue(Without(v, Name(keys[0])), keys[1..])
  }

  /** The texts put back under their keys, in canonical form. */
  function Attach(v: Value, keys: seq<string>, texts: seq<Buf>): (r: Result<Value, Error>)
    requires v.Map? && |keys| == |texts|
    ensures r.Ok? ==> r.value.Map?
    decreases |keys|
  {
    if keys == [] then Ok(v) else
      var _ :- Check(Get(v, Name(keys[0])).None?, BadField(keys[0]));
      Attach(Push(v, Name(keys[0]), Text(CanonicalText(texts[0]))), keys[1..], texts[1..])
  }

  function Reassemble(w: World, kind: Kind, value: Value, texts: seq<Buf>, at: U64): (r: Result<Checked, Error>)
    requires |texts| == |TextKeys(kind)|
  {
    if !value.Map? then Err(NotAMap) else
      var v :- Attach(value, TextKeys(kind), texts);
      Verify(w, kind, v, true, at)
  }

  function Detached(kind: Kind, s: Checked): (r: Result<Buf, Error>) {
    var _ :- FromValue(kind, s.whole, true);
    var bytes := Encode(DetachedValue(s.whole, TextKeys(kind)));
    if |bytes| > DETACHED_MAX_BYTES then Err(TooLarge) else Ok(bytes)
  }

  function ParseDetached(w: World, kind: Kind, bytes: Buf, texts: seq<Buf>, at: U64): (r: Result<Checked, Error>)
    requires |texts| == |TextKeys(kind)|
  {
    var _ :- Check(|bytes| <= DETACHED_MAX_BYTES, TooLarge);
    var value :- Decoded(bytes);
    Reassemble(w, kind, value, texts, at)
  }

  // The link form: the detached one, its certificate named by its hash.

  const CERT: Buf := Name("cert")
  const CERT_SHA256: Buf := Name("cert_sha256")
  const SENT: Buf := Name("sent")

  function Link(w: World, kind: Kind, s: Checked): (r: Result<Buf, Error>) {
    var _ :- Detached(kind, s);
    var rest := Without(DetachedValue(s.whole, TextKeys(kind)), CERT);
    if !rest.Map? then Err(NotAMap) else
      var bytes := Encode(Push(rest, CERT_SHA256, Blob(w.sha256(s.message.cert))));
      if |bytes| > LINK_MAX_BYTES then Err(TooLarge) else Ok(bytes)
  }

  /** The start that every reader of a link form shares. */
  function LinkValue(bytes: Buf): (r: Result<(Value, Buf), Error>)
    ensures r.Ok? ==> r.value.0.Map?
  {
    var _ :- Check(|bytes| <= LINK_MAX_BYTES, TooLarge);
    var value :- Decoded(bytes);
    if !value.Map? then Err(NotAMap) else
      var _ :- Check(Get(value, CERT).None?, BadField("cert"));
      var hash :- Bytes32Field(value, "cert_sha256");
      Ok((value, hash))
  }

  function ParseLink(w: World, kind: Kind, bytes: Buf, texts: seq<Buf>, cert: Buf, at: U64): (r: Result<Checked, Error>)
    requires |texts| == |TextKeys(kind)|
  {
    var (value, hash) :- LinkValue(bytes);
    var _ :- Check(w.sha256(cert) == hash, CertMismatch);
    Reassemble(w, kind, Push(Without(value, CERT_SHA256), CERT, Blob(cert)), texts, at)
  }

  // What two messages are compared by: the map without `sent`, `cert` and `sig`.

  function Content(s: Checked): Buf {
    Encode(Without(Without(Without(s.whole, SENT), CERT), SIG))
  }

  function PushTexts(v: Value, keys: seq<string>, texts: seq<Buf>): (r: Value)
    requires v.Map? && |keys| == |texts|
    ensures r.Map?
    decreases |keys|
  {
    if keys == [] then v else
      PushTexts(Push(v, Name(keys[0]), Text(CanonicalText(texts[0]))), keys[1..], texts[1..])
  }

  function LinkContent(kind: Kind, bytes: Buf, texts: seq<Buf>): (r: Result<Buf, Error>)
    requires |texts| == |TextKeys(kind)|
  {
    var (value, _) :- LinkValue(bytes);
    Ok(Encode(PushTexts(Without(Without(Without(value, CERT_SHA256), SENT), SIG), TextKeys(kind), texts)))
  }
}
