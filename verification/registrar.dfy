/** A registrar's signed pages: packed within a size bound, read back as they
    were packed. */
module Registrar {
  import opened Bytes
  import opened Cbor
  import opened Canonical
  import opened Maps
  import opened Signed
  import opened Messages
  import opened Objects
  import opened Fields
  import opened AcceptedMessages

  const LIST_MAX_BYTES: nat := 1024 * 1024
  const ENTRY_OVERHEAD: nat := 1 + 9 + 9
  const PAGE_OVERHEAD: nat := 512
  const MAX_HOST_BYTES: nat := 253

  datatype ListKind = Records | Log

  datatype Listed = Listed(seqNo: U64, record: Buf)

  datatype SignedList = SignedList(registrar: Buf, issued: U64, expires: U64, fingerprint: Option<Bytes32>,
                                   since: Option<U64>, more: bool, entries: seq<Listed>)

  /** Who a page must come from, and why a signature by one of its keys does not
      verify over some bytes. */
  datatype Publisher = Publisher(host: Buf, keys: seq<Bytes32>,
                                 verifies: (Bytes32, ListKind, Buf, Buf) -> Option<Error>)

  // Building a page.

  function ListedValue(e: Listed): Value {
    Array([Uint(e.seqNo), Blob(e.record)])
  }

  function ListedValues(es: seq<Listed>): (r: seq<Value>)
    ensures |r| == |es| && forall i :: 0 <= i < |r| ==> r[i] == ListedValue(es[i])
  {
    if es == [] then [] else [ListedValue(es[0])] + ListedValues(es[1..])
  }

  function ListFields(l: SignedList): (r: seq<Field>)
    ensures |r| == 8
  {
    [Field("v", Some(Uint(VERSION))),
     Field("registrar", Some(Text(l.registrar))),
     Field("issued", Some(Uint(l.issued))),
     Field("expires", Some(Uint(l.expires))),
     Field("fingerprint", if l.fingerprint.Some? then Some(Blob(l.fingerprint.value)) else None),
     Field("since", if l.since.Some? then Some(Uint(l.since.value)) else None),
     Field("more", if l.more then Some(Bool(true)) else None),
     Field("entries", Some(Array(ListedValues(l.entries))))]
  }

  function UnsignedList(l: SignedList): Value {
    BuildMap(ListFields(l))
  }

  /** What a registrar counts as it packs a page. */
  function Packed(es: seq<Listed>): nat {
    if es == [] then 0 else |es[0].record| + ENTRY_OVERHEAD + Packed(es[1..])
  }

  lemma ListedLength(e: Listed)
    requires |e.record| < TWO64
    ensures |Encode(ListedValue(e))| <= |e.record| + ENTRY_OVERHEAD
  {
    hide Head;
    var items := [Uint(e.seqNo), Blob(e.record)];
    assert items[1..][1..] == [];
    assert EncodeAll(items[1..]) == Encode(items[1]) + EncodeAll(items[1..][1..]);
    assert EncodeAll(items) == Encode(items[0]) + EncodeAll(items[1..]);
    assert ListedValue(e) == Array(items);
    HeadLength(4, 2);
    HeadLength(0, e.seqNo);
    HeadLength(2, |e.record|);
  }

  lemma {:induction false} ListedLengths(es: seq<Listed>)
    requires forall i :: 0 <= i < |es| ==> |es[i].record| < TWO64
    ensures |EncodeAll(ListedValues(es))| <= Packed(es)
  {
    hide Encode;
    if es != [] {
      ListedLength(es[0]);
      ListedLengths(es[1..]);
      assert ListedValues(es)[1..] == ListedValues(es[1..]);
    }
  }

  /** A page packed by the two overheads signs to no more than a page may hold. */
  lemma PageFits(l: SignedList, sig: Buf)
    requires Packed(l.entries) + PAGE_OVERHEAD <= LIST_MAX_BYTES
    requires |l.registrar| <= MAX_HOST_BYTES && |sig| == SIG_BYTES
    ensures |Sealed(UnsignedList(l), sig)| <= LIST_MAX_BYTES
  {
    hide Encode, EncodeAll, FieldsLength, Sealed, BuildMap;
    PackedEach(l.entries);
    ListedLengths(l.entries);
    var f := ListFields(l);
    UintLength(VERSION);
    UintLength(l.issued);
    UintLength(l.expires);
    TextLength(l.registrar);
    if l.since.Some? { UintLength(l.since.value); }
    if l.fingerprint.Some? { BlobLength(l.fingerprint.value); }
    BoolLength(true);
    ArrayLength(ListedValues(l.entries));
    EightFields(f);
    ObjectLength(f, sig);
  }

  lemma {:induction false} PackedEach(es: seq<Listed>)
    ensures |es| <= Packed(es)
    ensures forall i :: 0 <= i < |es| ==> |es[i].record| <= Packed(es)
  {
    if es != [] {
      PackedEach(es[1..]);
      forall i | 0 <= i < |es| ensures |es[i].record| <= Packed(es) {
        if i > 0 { assert es[i] == es[1..][i - 1]; }
      }
    }
  }

  lemma ArrayLength(items: seq<Value>)
    requires |items| < TWO64
    ensures |Encode(Array(items))| <= 9 + |EncodeAll(items)|
  {
    hide Head;
    HeadLength(4, |items|);
  }

  // Reading a page.

  function ListedFrom(items: seq<Value>): (r: Result<seq<Listed>, Error>) {
    if items == [] then Ok([]) else
      var first :- OneListed(items[0]);
      var more :- ListedFrom(items[1..]);
      Ok([first] + more)
  }

  function OneListed(v: Value): Result<Listed, Error> {
    if v.Array? && |v.items| == 2 && v.items[0].Uint? && v.items[1].Blob?
    then Ok(Listed(v.items[0].n, v.items[1].b)) else Err(BadField("entries"))
  }

  function EntriesField(v: Value): Result<seq<Value>, Error> {
    match Get(v, Name("entries"))
    case Some(Array(items)) => Ok(items)
    case Some(_) => Err(BadField("entries"))
    case None => Err(MissingField("entries"))
  }

  function ListFrom(v: Value): (r: Result<SignedList, Error>) {
    var items :- EntriesField(v);
    var entries :- ListedFrom(items);
    var registrar :- TextField(v, "registrar");
    var issued :- UintField(v, "issued");
    var expires :- UintField(v, "expires");
    var fingerprint :- OptBytes32(v, "fingerprint");
    var since :- OptUint(v, "since");
    var more :- OptBool(v, "more");
    Ok(SignedList(registrar, issued, expires, fingerprint, since, more == Some(true), entries))
  }

  /** Each entry past `since`, if there is one, and past the one before it. */
  ghost predicate Climbs(since: Option<U64>, entries: seq<Listed>) {
    && (since.Some? ==> forall i :: 0 <= i < |entries| ==> entries[i].seqNo > since.value)
    && forall i, j :: 0 <= i < j < |entries| ==> entries[i].seqNo < entries[j].seqNo
  }

  function VerifyAny(p: Publisher, keys: seq<Bytes32>, kind: ListKind, env: Envelope, last: Error): Option<Error> {
    if keys == [] then Some(last) else
      match p.verifies(keys[0], kind, env.signedBytes, env.sig)
      case None => None
      case Some(e) => VerifyAny(p, keys[1..], kind, env, e)
  }

  function PublisherFailure(p: Publisher, kind: ListKind, env: Envelope): Option<Error> {
    if p.keys == [] then Some(KeyMismatch) else VerifyAny(p, p.keys, kind, env, BadSignature)
  }

  ghost function ParsedList(bytes: Buf, kind: ListKind, p: Publisher): (r: Result<SignedList, Error>) {
    var _ :- Check(|bytes| <= LIST_MAX_BYTES, TooLarge);
    var env :- OpenUpto(bytes, VERSION);
    var l :- ListFrom(env.value);
    var _ :- Check(l.registrar == p.host, BadField("registrar"));
    var _ :- Check(l.expires >= l.issued, BadField("expires"));
    var _ :- Check(kind.Log? ==> l.fingerprint.None?, BadField("fingerprint"));
    var _ :- Check(Climbs(l.since, l.entries), BadField("entries"));
    var _ :- Unless(PublisherFailure(p, kind, env));
    Ok(l)
  }

  method ReadListed(items: seq<Value>) returns (r: Result<seq<Listed>, Error>)
    ensures r == ListedFrom(items)
  {
    var entries := [];
    assert items[0..] == items;
    assert ListedFrom(items).Ok? ==> entries + ListedFrom(items).value == ListedFrom(items).value;
    for i := 0 to |items|
      invariant var more := ListedFrom(items[i..]);
                ListedFrom(items) == if more.Err? then more else Ok(entries + more.value)
    {
      assert items[i..][1..] == items[i + 1..];
      var one := OneListed(items[i]);
      if one.Err? {
        return Err(one.error);
      }
      ghost var more := ListedFrom(items[i + 1..]);
      assert more.Ok? ==> entries + ([one.value] + more.value) == (entries + [one.value]) + more.value;
      entries := entries + [one.value];
    }
    assert entries + [] == entries;
    r := Ok(entries);
  }

  method CheckClimbs(since: Option<U64>, entries: seq<Listed>) returns (r: bool)
    ensures r == Climbs(since, entries)
  {
    var floor := if since.Some? then since.value else 0;
    var prev: Option<U64> := None;
    for i := 0 to |entries|
      invariant Climbs(since, entries[..i])
      invariant prev == if i == 0 then None else Some(entries[i - 1].seqNo)
    {
      var n := entries[i].seqNo;
      if (since.Some? && n <= floor) || (prev.Some? && n <= prev.value) {
        return false;
      }
      prev := Some(n);
    }
    assert entries[..|entries|] == entries;
    r := true;
  }

  method CheckPublisher(p: Publisher, kind: ListKind, env: Envelope) returns (r: Option<Error>)
    ensures r == PublisherFailure(p, kind, env)
  {
    if |p.keys| == 0 {
      return Some(KeyMismatch);
    }
    var last := BadSignature;
    assert p.keys[0..] == p.keys;
    for i := 0 to |p.keys|
      invariant VerifyAny(p, p.keys, kind, env, BadSignature) == VerifyAny(p, p.keys[i..], kind, env, last)
    {
      assert p.keys[i..][1..] == p.keys[i + 1..];
      match p.verifies(p.keys[i], kind, env.signedBytes, env.sig) {
        case None => return None;
        case Some(e) => last := e;
      }
    }
    r := Some(last);
  }

  method ParseList(bytes: Buf, kind: ListKind, p: Publisher) returns (r: Result<SignedList, Error>)
    ensures r == ParsedList(bytes, kind, p)
  {
    hide OpenUpto, ListedFrom, TextField, UintField, OptBytes32, OptUint, OptBool, EntriesField, PublisherFailure,
         Climbs;
    if |bytes| > LIST_MAX_BYTES {
      return Err(TooLarge);
    }
    var env :- OpenUpto(bytes, VERSION);
    var v := env.value;
    var items :- EntriesField(v);
    var entries :- ReadListed(items);
    var registrar :- TextField(v, "registrar");
    var issued :- UintField(v, "issued");
    var expires :- UintField(v, "expires");
    var fingerprint :- OptBytes32(v, "fingerprint");
    var since :- OptUint(v, "since");
    var more :- OptBool(v, "more");
    var l := SignedList(registrar, issued, expires, fingerprint, since, more == Some(true), entries);
    if l.registrar != p.host {
      return Err(BadField("registrar"));
    }
    if l.expires < l.issued {
      return Err(BadField("expires"));
    }
    if kind.Log? && l.fingerprint.Some? {
      return Err(BadField("fingerprint"));
    }
    var climbs := CheckClimbs(since, entries);
    if !climbs {
      return Err(BadField("entries"));
    }
    var failure := CheckPublisher(p, kind, env);
    r := if failure.Some? then Err(failure.value) else Ok(l);
  }

  // What is packed is what is read.

  const LIST_NAMES: seq<string> := ["v", "registrar", "issued", "expires", "fingerprint", "since", "more", "entries"]

  lemma ListNamesApart()
    ensures StringsApart(LIST_NAMES + ["sig"])
  {
  }

  ghost predicate ListGet(v: Value, l: SignedList) {
    && Get(v, Name("v")) == Some(Uint(VERSION))
    && Get(v, Name("registrar")) == Some(Text(l.registrar))
    && Get(v, Name("issued")) == Some(Uint(l.issued)) && Get(v, Name("expires")) == Some(Uint(l.expires))
    && Get(v, Name("fingerprint")) == (if l.fingerprint.Some? then Some(Blob(l.fingerprint.value)) else None)
    && Get(v, Name("since")) == (if l.since.Some? then Some(Uint(l.since.value)) else None)
    && Get(v, Name("more")) == (if l.more then Some(Bool(true)) else None)
    && Get(v, Name("entries")) == Some(Array(ListedValues(l.entries)))
  }

  lemma ListGets(l: SignedList)
    ensures ListGet(UnsignedList(l), l) && NamesApart(ListFields(l)) && Get(UnsignedList(l), SIG).None?
  {
    hide Get, Name, BuildMap, StringsApart, ListedValues;
    ListNamesApart();
    var f := ListFields(l);
    var others := ["sig"];
    BuiltGets(f, LIST_NAMES, others);
    assert forall i :: 0 <= i < 8 ==> Get(BuildMap(f), Name(LIST_NAMES[i])) == f[i].val;
    assert others[0] == "sig";
    assert LIST_NAMES[0] == "v" && LIST_NAMES[1] == "registrar" && LIST_NAMES[2] == "issued";
    assert LIST_NAMES[3] == "expires" && LIST_NAMES[4] == "fingerprint" && LIST_NAMES[5] == "since";
    assert LIST_NAMES[6] == "more" && LIST_NAMES[7] == "entries";
  }

  lemma ListedRest(es: seq<Listed>)
    requires es != []
    ensures ListedValues(es)[1..] == ListedValues(es[1..]) && [es[0]] + es[1..] == es
  {
    hide ListedValue;
  }

  lemma OneReads(e: Listed)
    ensures OneListed(ListedValue(e)) == Ok(e)
  {
  }

  lemma {:induction false} ListedReads(es: seq<Listed>)
    ensures ListedFrom(ListedValues(es)) == Ok(es)
  {
    hide OneListed, ListedValue, ListedValues;
    if es != [] {
      ListedReads(es[1..]);
      ListedRest(es);
      OneReads(es[0]);
    }
  }

  lemma ListReads(v: Value, l: SignedList)
    requires ListGet(v, l)
    ensures ListFrom(v) == Ok(l)
  {
    hide Get, Name, ListedValues, ListedFrom;
    ListedReads(l.entries);
  }

  /** A page a program can hold. */
  ghost predicate ListHeld(l: SignedList) {
    && ValidUtf8(l.registrar) && |l.registrar| <= MAX_HOST_BYTES
    && Packed(l.entries) + PAGE_OVERHEAD <= LIST_MAX_BYTES
  }

  lemma ListedLeaf(es: seq<Listed>)
    requires |es| < TWO64 && forall i :: 0 <= i < |es| ==> |es[i].record| < TWO64
    ensures Leaf(Array(ListedValues(es)))
  {
    var items := ListedValues(es);
    forall i | i in items ensures Fits(i) && Ascending(i) && Within(i, MAX_DEPTH - 2) {
      var j :| 0 <= j < |items| && items[j] == i;
      PairLeaf(es[j]);
    }
  }

  lemma PairLeaf(e: Listed)
    requires |e.record| < TWO64
    ensures var i := ListedValue(e); Fits(i) && Ascending(i) && Within(i, MAX_DEPTH - 2)
  {
    var items := [Uint(e.seqNo), Blob(e.record)];
    assert forall x | x in items :: x == items[0] || x == items[1];
  }

  lemma HostLeaf(host: Buf)
    requires ValidUtf8(host) && |host| < TWO64
    ensures Leaf(Text(host))
  {
    hide ValidUtf8;
  }

  lemma ListOpen(l: SignedList)
    requires ListHeld(l)
    ensures OpenMap(UnsignedList(l)) && |UnsignedList(l).entries| <= 8
  {
    hide OpenMap, Leaf, BuildMap, NamesApart, ListGet, ValidUtf8, ListedValues;
    ListGets(l);
    PackedEach(l.entries);
    ListedLeaf(l.entries);
    HostLeaf(l.registrar);
    NumberLeaf(VERSION);
    NumberLeaf(l.issued);
    NumberLeaf(l.expires);
    if l.since.Some? { NumberLeaf(l.since.value); }
    if l.fingerprint.Some? { SmallLeaf(l.fingerprint.value); }
    BuiltOpen(ListFields(l));
    BuiltFew(ListFields(l));
  }

  lemma SealedListReads(l: SignedList, sig: Buf)
    requires ListHeld(l) && |sig| == SIG_BYTES
    ensures var c := DeepSort(Push(UnsignedList(l), SIG, Blob(sig)));
            && ListGet(c, l)
            && OpenUpto(Sealed(UnsignedList(l), sig), VERSION) == Ok(Envelope(c, VERSION, Encode(UnsignedList(l)), sig))
  {
    hide CanonicalEntry, KeysApart, Encode, DeepSort, DecodeCanonical, Find, BuildMap, ListHeld, FromValueUpto,
         IsCanonical, Name, ListedValues, OpenUpto;
    ListOpen(l);
    ListGets(l);
    SigNames();
    SmallLeaf(sig);
    PushOpen(UnsignedList(l), SIG, Blob(sig));
    var whole := Push(UnsignedList(l), SIG, Blob(sig));
    OpenCanonical(whole);
    var c := DeepSort(whole);
    CanonicalIsOpen(c);
    OpenSeals(UnsignedList(l), sig, VERSION);
    forall name | name != SIG ensures Get(c, name) == Get(UnsignedList(l), name) {
      SameEntriesGet(c, whole, name);
    }
    NotSigList();
  }

  lemma NotSigList()
    ensures Name("v") != SIG && Name("registrar") != SIG && Name("issued") != SIG && Name("expires") != SIG
    ensures Name("fingerprint") != SIG && Name("since") != SIG && Name("more") != SIG && Name("entries") != SIG
  {
    hide Name;
    assert SIG[0] == 's' as int && |SIG| == 3;
  }

  /** A page signed for its own host reads back as it was packed: its size is
      never what refuses it. */
  lemma PageReads(l: SignedList, sig: Buf, kind: ListKind, p: Publisher)
    requires ListHeld(l) && |sig| == SIG_BYTES && l.registrar == p.host
    requires l.issued <= l.expires && (kind.Log? ==> l.fingerprint.None?) && Climbs(l.since, l.entries)
    ensures var c := DeepSort(Push(UnsignedList(l), SIG, Blob(sig)));
            var failure := PublisherFailure(p, kind, Envelope(c, VERSION, Encode(UnsignedList(l)), sig));
            ParsedList(Sealed(UnsignedList(l), sig), kind, p) == if failure.Some? then Err(failure.value) else Ok(l)
  {
    hide Encode, DeepSort, OpenUpto, ListFrom, Entries, Sealed, PublisherFailure, ListGet, Climbs, Packed, ValidUtf8;
    PageFits(l, sig);
    SealedListReads(l, sig);
    ListReads(DeepSort(Push(UnsignedList(l), SIG, Blob(sig))), l);
  }

  // Exactly what is a page.

  lemma {:induction false} ListedIff(items: seq<Value>, es: seq<Listed>)
    ensures ListedFrom(items) == Ok(es) <==> items == ListedValues(es)
  {
    hide OneListed, ListedValue;
    if items == ListedValues(es) {
      ListedReads(es);
    }
    if items != [] && ListedFrom(items) == Ok(es) {
      ListedIff(items[1..], es[1..]);
      OneIff(items[0], es[0]);
      assert items == [items[0]] + items[1..];
    }
  }

  lemma OneIff(v: Value, e: Listed)
    ensures OneListed(v) == Ok(e) <==> v == ListedValue(e)
  {
    if OneListed(v) == Ok(e) {
      assert v.items == [Uint(e.seqNo), Blob(e.record)];
    }
  }

  /** A map's fields are those of the page. */
  ghost predicate IsPage(v: Value, l: SignedList) {
    && Get(v, Name("registrar")) == Some(Text(l.registrar))
    && Get(v, Name("issued")) == Some(Uint(l.issued)) && Get(v, Name("expires")) == Some(Uint(l.expires))
    && Get(v, Name("fingerprint")) == (if l.fingerprint.Some? then Some(Blob(l.fingerprint.value)) else None)
    && Get(v, Name("since")) == (if l.since.Some? then Some(Uint(l.since.value)) else None)
    && (Get(v, Name("more")) == Some(Bool(l.more)) || (Get(v, Name("more")).None? && !l.more))
    && Get(v, Name("entries")) == Some(Array(ListedValues(l.entries)))
  }

  lemma PageIff(v: Value, l: SignedList)
    ensures ListFrom(v) == Ok(l) <==> IsPage(v, l)
  {
    hide Get, Name, ListedFrom, ListedValues, TextField, UintField, OptBytes32, OptUint, OptBool, EntriesField;
    PlainIff(v, "registrar");
    PlainIff(v, "issued");
    PlainIff(v, "expires");
    OptIff(v, l.fingerprint, l.since, l.more);
    EntriesIff(v, l.entries);
  }

  lemma OptIff(v: Value, fingerprint: Option<Bytes32>, since: Option<U64>, more: bool)
    ensures OptBytes32(v, "fingerprint") == Ok(fingerprint) <==>
            Get(v, Name("fingerprint")) == if fingerprint.Some? then Some(Blob(fingerprint.value)) else None
    ensures OptUint(v, "since") == Ok(since) <==>
            Get(v, Name("since")) == if since.Some? then Some(Uint(since.value)) else None
    ensures OptBool(v, "more").Ok? && (OptBool(v, "more").value == Some(true)) == more <==>
            Get(v, Name("more")) == Some(Bool(more)) || (Get(v, Name("more")).None? && !more)
  {
    hide Get, Name;
  }

  lemma EntriesIff(v: Value, es: seq<Listed>)
    ensures EntriesField(v).Ok? && ListedFrom(EntriesField(v).value) == Ok(es) <==>
            Get(v, Name("entries")) == Some(Array(ListedValues(es)))
  {
    hide Get, Name, ListedFrom, ListedValues;
    if EntriesField(v).Ok? {
      ListedIff(EntriesField(v).value, es);
    }
    ListedIff(ListedValues(es), es);
  }

  /** One of the publisher's keys made the signature in `v` over the rest of it. */
  ghost predicate Published(p: Publisher, kind: ListKind, v: Value) {
    exists key, sig: Buf ::
      && key in p.keys && |sig| == 64 && Get(v, Name("sig")) == Some(Blob(sig))
      && p.verifies(key, kind, Encode(Without(v, Name("sig"))), sig).None?
  }

  /** Any of the keys will do; with none it is a mismatch, and if all of them fail it
      is as the last of them does. */
  lemma PublisherIs(p: Publisher, kind: ListKind, env: Envelope)
    ensures PublisherFailure(p, kind, env) ==
            if p.keys == [] then Some(KeyMismatch)
            else if exists key :: key in p.keys && p.verifies(key, kind, env.signedBytes, env.sig).None? then None
            else p.verifies(p.keys[|p.keys| - 1], kind, env.signedBytes, env.sig)
  {
    AnyIs(p, p.keys, kind, env, BadSignature);
  }

  lemma {:induction false} AnyIs(p: Publisher, keys: seq<Bytes32>, kind: ListKind, env: Envelope, last: Error)
    ensures VerifyAny(p, keys, kind, env, last) ==
            if exists key :: key in keys && p.verifies(key, kind, env.signedBytes, env.sig).None? then None
            else if keys == [] then Some(last)
            else p.verifies(keys[|keys| - 1], kind, env.signedBytes, env.sig)
  {
    if keys != [] {
      HeadAndTail(keys);
      var r := p.verifies(keys[0], kind, env.signedBytes, env.sig);
      if r.Some? {
        AnyIs(p, keys[1..], kind, env, r.value);
      }
    }
  }

  /** Bytes are a page of this publisher exactly when they are a map of its fields,
      for its host, in order, and one of its keys signed it. */
  lemma ParsedIff(bytes: Buf, kind: ListKind, p: Publisher, l: SignedList)
    ensures ParsedList(bytes, kind, p) == Ok(l) <==>
            && |bytes| <= 1_048_576 && DecodeCanonical(bytes).Ok?
            && var v := DecodeCanonical(bytes).value;
               && v.Map? && Get(v, Name("v")) == Some(Uint(VERSION)) && IsPage(v, l) && Published(p, kind, v)
               && l.registrar == p.host && l.issued <= l.expires && (kind.Log? ==> l.fingerprint.None?)
               && StepsUp(l.since, l.entries)
  {
    hide DecodeCanonical, Get, Name, Encode, Without, ListFrom, IsPage, PublisherFailure, Climbs, StepsUp;
    SigIs();
    ClimbsIff(l.since, l.entries);
    if OpenUpto(bytes, VERSION).Ok? {
      var env := OpenUpto(bytes, VERSION).value;
      PageIff(env.value, l);
      PublisherIs(p, kind, env);
    }
  }

  ghost predicate StepsUp(since: Option<U64>, es: seq<Listed>) {
    forall i | 0 <= i < |es| ::
      (since.Some? ==> since.value < es[i].seqNo) && (i > 0 ==> es[i - 1].seqNo < es[i].seqNo)
  }

  lemma ClimbsIff(since: Option<U64>, es: seq<Listed>)
    ensures Climbs(since, es) <==> StepsUp(since, es)
  {
    if forall i | 0 < i < |es| :: es[i - 1].seqNo < es[i].seqNo {
      forall i, j | 0 <= i < j < |es| ensures es[i].seqNo < es[j].seqNo {
        Steps(es, i, j);
      }
    }
  }

  lemma {:induction false} Steps(es: seq<Listed>, i: nat, j: nat)
    requires i < j < |es| && forall k | 0 < k < |es| :: es[k - 1].seqNo < es[k].seqNo
    ensures es[i].seqNo < es[j].seqNo
    decreases j
  {
    if i + 1 < j {
      Steps(es, i, j - 1);
    }
  }
}
