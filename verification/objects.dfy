/** Objects as they are built for signing, how long they encode, and that their
    fields read back as they were given. */
module Objects {
  import opened Bytes
  import opened Sorting
  import opened Cbor
  import opened Canonical
  import opened Maps
  import opened Signed
  import opened LineEndings
  import opened Messages

  datatype Field = Field(name: string, val: Option<Value>)

  /** `cbor::map`: the fields there are, in the order given. */
  function Entries(fields: seq<Field>): (r: seq<Entry>)
    ensures |r| <= |fields|
  {
    if fields == [] then []
    else if fields[0].val.None? then Entries(fields[1..])
    else [Entry(Text(Name(fields[0].name)), fields[0].val.value)] + Entries(fields[1..])
  }

  function BuildMap(fields: seq<Field>): Value {
    Map(Entries(fields))
  }

  ghost predicate NamesApart(fields: seq<Field>) {
    forall i, j :: 0 <= i < j < |fields| ==> Name(fields[i].name) != Name(fields[j].name)
  }

  lemma {:induction false} BuiltField(fields: seq<Field>, i: nat)
    requires i < |fields| && NamesApart(fields)
    ensures Get(BuildMap(fields), Name(fields[i].name)) == fields[i].val
  {
    hide Name;
    if i == 0 {
      if fields[0].val.None? {
        BuiltNone(fields[1..], Name(fields[0].name));
      }
    } else {
      assert fields[1..][i - 1] == fields[i];
      assert NamesApart(fields[1..]);
      BuiltField(fields[1..], i - 1);
      assert Name(fields[0].name) != Name(fields[i].name);
    }
  }

  lemma {:induction false} BuiltNone(fields: seq<Field>, name: Buf)
    requires forall i :: 0 <= i < |fields| ==> Name(fields[i].name) != name
    ensures Get(BuildMap(fields), name).None?
  {
    hide Name;
    if fields != [] {
      assert forall i :: 0 <= i < |fields| - 1 ==> fields[1..][i] == fields[i + 1];
      BuiltNone(fields[1..], name);
    }
  }

  /** The entry a field makes. */
  ghost predicate HasEntry(f: Field, e: Entry) {
    f.val.Some? && e == Entry(Text(Name(f.name)), f.val.value)
  }

  lemma {:induction false} BuiltMembers(fields: seq<Field>)
    ensures forall e | e in Entries(fields) :: exists i :: 0 <= i < |fields| && HasEntry(fields[i], e)
  {
    hide Name;
    if fields != [] {
      BuiltMembers(fields[1..]);
      forall e | e in Entries(fields)
        ensures exists i :: 0 <= i < |fields| && HasEntry(fields[i], e)
      {
        if e in Entries(fields[1..]) {
          var i :| 0 <= i < |fields| - 1 && HasEntry(fields[1..][i], e);
          assert fields[i + 1] == fields[1..][i];
        } else {
          assert HasEntry(fields[0], e);
        }
      }
    }
  }

  lemma {:induction false} BuiltApart(fields: seq<Field>)
    requires NamesApart(fields)
    ensures KeysApart(Entries(fields))
  {
    hide Name;
    if fields != [] {
      assert NamesApart(fields[1..]);
      BuiltApart(fields[1..]);
      BuiltMembers(fields[1..]);
      var r := Entries(fields[1..]);
      forall e | e in r ensures e.key != Text(Name(fields[0].name)) {
        var i :| 0 <= i < |fields| - 1 && HasEntry(fields[1..][i], e);
        assert fields[i + 1] == fields[1..][i];
      }
      if fields[0].val.Some? {
        var all := Entries(fields);
        forall i, j | 0 <= i < j < |all| ensures all[i].key != all[j].key {
          assert all[j] == r[j - 1] && r[j - 1] in r;
          if i > 0 { assert all[i] == r[i - 1]; }
        }
      }
    }
  }

  lemma BuiltOpen(fields: seq<Field>)
    requires NamesApart(fields) && |fields| < 100
    requires forall i :: 0 <= i < |fields| ==> Ascii(fields[i].name) && |fields[i].name| < 100
    requires forall i :: 0 <= i < |fields| && fields[i].val.Some? ==> Leaf(fields[i].val.value)
    ensures OpenMap(BuildMap(fields))
  {
    hide Name, Leaf, CanonicalEntry, Ascii;
    BuiltApart(fields);
    BuiltMembers(fields);
    forall e | e in Entries(fields) ensures CanonicalEntry(e) {
      var i :| 0 <= i < |fields| && HasEntry(fields[i], e);
      NameText(fields[i].name);
      LeafEntry(e);
    }
  }

  // Lengths.

  function EntryLength(e: Entry): nat {
    |Encode(e.key)| + |Encode(e.val)|
  }

  function EntriesLength(es: seq<Entry>): nat {
    if es == [] then 0 else EntryLength(es[0]) + EntriesLength(es[1..])
  }

  lemma {:induction false} JoinInsert(x: Keyed<Buf>, s: seq<Keyed<Buf>>)
    ensures |Join(Insert(x, s))| == |x.key| + |x.val| + |Join(s)|
  {
    if s != [] && !LexLe(x.key, s[0].key) {
      JoinInsert(x, s[1..]);
    } else {
      assert ([x] + s)[1..] == s;
    }
  }

  lemma {:induction false} JoinSort(s: seq<Keyed<Buf>>)
    ensures |Join(Sort(s))| == |Join(s)|
  {
    if s != [] {
      JoinSort(s[1..]);
      JoinInsert(s[0], Sort(s[1..]));
    }
  }

  lemma {:induction false} JoinEntries(es: seq<Entry>)
    ensures |Join(EncodeEntries(es))| == EntriesLength(es)
  {
    hide Encode;
    if es != [] {
      assert EncodeEntries(es)[1..] == EncodeEntries(es[1..]);
      JoinEntries(es[1..]);
    }
  }

  /** A map's encoding is as long as its head and its entries, sorted or not. */
  lemma MapLength(es: seq<Entry>)
    ensures |Encode(Map(es))| == |Head(5, |es|)| + EntriesLength(es)
  {
    hide Head, Join, Sort, EncodeEntries, EntriesLength;
    JoinSort(EncodeEntries(es));
    JoinEntries(es);
  }

  lemma HeadLength(major: nat, n: nat)
    requires major < 8 && n < TWO64
    ensures n < 24 ==> |Head(major, n)| == 1
    ensures n <= 0xff ==> |Head(major, n)| <= 2
    ensures n <= 0xffff ==> |Head(major, n)| <= 3
    ensures |Head(major, n)| <= 9
  {
    hide ToBe;
  }

  lemma {:induction false} EntriesLengthAppend(es: seq<Entry>, e: Entry)
    ensures EntriesLength(es + [e]) == EntriesLength(es) + EntryLength(e)
  {
    hide EntryLength;
    if es != [] {
      assert (es + [e])[1..] == es[1..] + [e];
      EntriesLengthAppend(es[1..], e);
    }
  }

  /** What a field adds, at most: its name's head and bytes and its value. */
  function FieldLength(f: Field): nat {
    if f.val.None? then 0 else 1 + |f.name| + |Encode(f.val.value)|
  }

  function FieldsLength(fields: seq<Field>): nat {
    if fields == [] then 0 else FieldLength(fields[0]) + FieldsLength(fields[1..])
  }

  lemma NameLength(s: string)
    requires |s| < 24
    ensures |Encode(Text(Name(s)))| == 1 + |s|
  {
    hide Name, Head;
    HeadLength(3, |s|);
  }

  lemma {:induction false} BuiltLength(fields: seq<Field>)
    requires forall i :: 0 <= i < |fields| ==> |fields[i].name| < 24
    ensures EntriesLength(Entries(fields)) == FieldsLength(fields)
  {
    hide Name, Encode;
    if fields != [] {
      BuiltLength(fields[1..]);
      NameLength(fields[0].name);
    }
  }

  /** The length of a small object, signed or not. */
  lemma ObjectLength(fields: seq<Field>, sig: Buf)
    requires |fields| < 23 && |sig| == SIG_BYTES
    requires forall i :: 0 <= i < |fields| ==> |fields[i].name| < 24
    ensures |Encode(BuildMap(fields))| == 1 + FieldsLength(fields)
    ensures |Sealed(BuildMap(fields), sig)| == 1 + FieldsLength(fields) + 70
  {
    hide Encode, EntriesLength, FieldsLength, Head, Name;
    var es := Entries(fields);
    MapLength(es);
    HeadLength(5, |es|);
    BuiltLength(fields);
    var e := Entry(Text(SIG), Blob(sig));
    EntriesLengthAppend(es, e);
    MapLength(es + [e]);
    HeadLength(5, |es + [e]|);
    NameLength("sig");
    BlobLength(sig);
  }

  lemma BlobLength(b: Buf)
    requires |b| < TWO64
    ensures |b| < 24 ==> |Encode(Blob(b))| == 1 + |b|
    ensures |b| == SIG_BYTES ==> |Encode(Blob(b))| == 66
    ensures |b| <= 0xff ==> |Encode(Blob(b))| <= 2 + |b|
    ensures |b| <= 0xffff ==> |Encode(Blob(b))| <= 3 + |b|
    ensures |Encode(Blob(b))| <= 9 + |b|
  {
    HeadLength(2, |b|);
  }

  lemma TextLength(s: Buf)
    requires |s| < TWO64
    ensures |s| <= 0xff ==> |Encode(Text(s))| <= 2 + |s|
    ensures |s| <= 0xffff ==> |Encode(Text(s))| <= 3 + |s|
  {
    hide Head;
    HeadLength(3, |s|);
  }

  lemma UintLength(n: U64)
    ensures n < 24 ==> |Encode(Uint(n))| == 1
    ensures |Encode(Uint(n))| <= 9
  {
    hide Head;
    HeadLength(0, n);
  }

  lemma BoolLength(b: bool)
    ensures |Encode(Bool(b))| == 1
  {
  }

  lemma LengthFrom(f: seq<Field>, i: nat)
    requires i <= |f|
    ensures FieldsLength(f[i..]) == if i == |f| then 0 else FieldLength(f[i]) + FieldsLength(f[i + 1..])
  {
    hide FieldLength;
    if i < |f| {
      assert f[i..][1..] == f[i + 1..];
    }
  }

  lemma EightFields(f: seq<Field>)
    requires |f| == 8
    ensures FieldsLength(f) ==
            FieldLength(f[0]) + FieldLength(f[1]) + FieldLength(f[2]) + FieldLength(f[3])
            + FieldLength(f[4]) + FieldLength(f[5]) + FieldLength(f[6]) + FieldLength(f[7])
  {
    hide FieldLength, FieldsLength;
    assert f[0..] == f;
    LengthFrom(f, 0);
    LengthFrom(f, 1);
    LengthFrom(f, 2);
    LengthFrom(f, 3);
    LengthFrom(f, 4);
    LengthFrom(f, 5);
    LengthFrom(f, 6);
    LengthFrom(f, 7);
    LengthFrom(f, 8);
  }

  lemma BuiltFew(f: seq<Field>)
    ensures |BuildMap(f).entries| <= |f|
  {
  }

  // The three objects.

  function KindOf(m: Message): Kind {
    match m
    case PrivateMessage(_, _, _, _, _, _, _) => Private
    case ChatLine(_, _, _, _, _, _, _) => Chat
    case Article(_, _, _, _, _, _, _, _, _) => News
  }

  function CanonicalValue(text: Buf): Value {
    Text(CanonicalText(text))
  }

  function PrivateFields(m: Message): (r: seq<Field>)
    requires m.PrivateMessage?
    ensures |r| == 8
  {
    [Field("v", Some(Uint(VERSION))),
     Field("id", Some(Blob(m.id))),
     Field("sent", Some(Uint(m.sent))),
     Field("to", Some(Blob(m.to))),
     Field("cert", Some(Blob(m.cert))),
     Field("text", Some(CanonicalValue(m.text))),
     Field("quote", if m.quote.Some? then Some(CanonicalValue(m.quote.value)) else None),
     Field("auto", if m.auto then Some(Bool(true)) else None)]
  }

  function ChatScopeFields(m: Message): (r: seq<Field>)
    requires m.ChatLine?
    ensures |r| == 2
  {
    [Field("server", Some(Blob(m.server))), Field("room", Some(Uint(m.room)))]
  }

  function ChatFields(m: Message): (r: seq<Field>)
    requires m.ChatLine?
    ensures |r| == 7
  {
    [Field("v", Some(Uint(VERSION))),
     Field("id", Some(Blob(m.id))),
     Field("sent", Some(Uint(m.sent))),
     Field("in", Some(BuildMap(ChatScopeFields(m)))),
     Field("cert", Some(Blob(m.cert))),
     Field("text", Some(CanonicalValue(m.text))),
     Field("act", if m.act then Some(Bool(true)) else None)]
  }

  function NewsScopeFields(m: Message): (r: seq<Field>)
    requires m.Article?
    ensures |r| == 2
  {
    [Field("server", Some(Blob(m.server))), Field("category", Some(Blob(m.category)))]
  }

  function ParentFields(p: Parent): (r: seq<Field>)
    ensures |r| == 3
  {
    [Field("article", Some(Uint(p.article))),
     Field("id", if p.signed.Some? then Some(Blob(p.signed.value.0)) else None),
     Field("by", if p.signed.Some? then Some(Blob(p.signed.value.1)) else None)]
  }

  function NewsFields(m: Message): (r: seq<Field>)
    requires m.Article?
    ensures |r| == 9
  {
    [Field("v", Some(Uint(VERSION))),
     Field("id", Some(Blob(m.id))),
     Field("sent", Some(Uint(m.sent))),
     Field("in", Some(BuildMap(NewsScopeFields(m)))),
     Field("parent", if m.parent.Some? then Some(BuildMap(ParentFields(m.parent.value))) else None),
     Field("cert", Some(Blob(m.cert))),
     Field("subject", Some(CanonicalValue(m.subject))),
     Field("body", Some(CanonicalValue(m.body))),
     Field("mime", Some(Text(m.mime)))]
  }

  function FieldsOf(m: Message): seq<Field> {
    match KindOf(m)
    case Private => PrivateFields(m)
    case Chat => ChatFields(m)
    case News => NewsFields(m)
  }

  /** What a signer signs. */
  function Unsigned(m: Message): Value {
    BuildMap(FieldsOf(m))
  }

  /** The message with its texts as they are signed. */
  function Normal(m: Message): Message {
    match m
    case PrivateMessage(id, sent, to, cert, text, quote, auto) =>
      PrivateMessage(id, sent, to, cert, CanonicalText(text),
                     if quote.Some? then Some(CanonicalText(quote.value)) else None, auto)
    case ChatLine(id, sent, server, room, cert, text, act) =>
      ChatLine(id, sent, server, room, cert, CanonicalText(text), act)
    case Article(id, sent, server, category, parent, cert, subject, body, mime) =>
      Article(id, sent, server, category, parent, cert, CanonicalText(subject), CanonicalText(body), mime)
  }
}
