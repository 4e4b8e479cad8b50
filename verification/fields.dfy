/** Signing a message and reading it back: the fields come back as they were
    given, the texts in canonical form. */
module Fields {
  import opened Bytes
  import opened Cbor
  import opened Canonical
  import opened Maps
  import opened Signed
  import opened LineEndings
  import opened Messages
  import opened Forms
  import opened Objects

  ghost predicate StringsApart(names: seq<string>) {
    && (forall i :: 0 <= i < |names| ==> Ascii(names[i]))
    && forall i, j :: 0 <= i < j < |names| ==> names[i] != names[j]
  }

  ghost predicate NamedBy(fields: seq<Field>, names: seq<string>) {
    |fields| == |names| && forall i :: 0 <= i < |names| ==> fields[i].name == names[i]
  }

  /** What a map built from named fields answers, for those names and for others. */
  lemma BuiltGets(fields: seq<Field>, names: seq<string>, others: seq<string>)
    requires NamedBy(fields, names) && StringsApart(names + others)
    ensures NamesApart(fields)
    ensures forall i :: 0 <= i < |names| ==> Get(BuildMap(fields), Name(names[i])) == fields[i].val
    ensures forall i :: 0 <= i < |others| ==> Get(BuildMap(fields), Name(others[i])).None?
  {
    hide Name, Get, BuildMap, Ascii;
    var all := names + others;
    forall i, j | 0 <= i < j < |all| ensures Name(all[i]) != Name(all[j]) {
      NameInjective(all[i], all[j]);
    }
    assert forall i :: 0 <= i < |names| ==> all[i] == names[i];
    forall i | 0 <= i < |names| ensures Get(BuildMap(fields), Name(names[i])) == fields[i].val {
      BuiltField(fields, i);
    }
    forall i | 0 <= i < |others| ensures Get(BuildMap(fields), Name(others[i])).None? {
      assert all[|names| + i] == others[i];
      BuiltNone(fields, Name(others[i]));
    }
  }

  const PRIVATE_NAMES: seq<string> := ["v", "id", "sent", "to", "cert", "text", "quote", "auto"]
  const CHAT_NAMES: seq<string> := ["v", "id", "sent", "in", "cert", "text", "act"]
  const NEWS_NAMES: seq<string> := ["v", "id", "sent", "in", "parent", "cert", "subject", "body", "mime"]

  lemma PrivateNamesApart()
    ensures StringsApart(PRIVATE_NAMES + ["in", "cert_sha256", "sig"])
  {
  }

  lemma ChatNamesApart()
    ensures StringsApart(CHAT_NAMES + ["to", "cert_sha256", "sig"])
    ensures StringsApart(["server", "room"] + [])
  {
  }

  lemma NewsNamesApart()
    ensures StringsApart(NEWS_NAMES + ["to", "cert_sha256", "sig"])
    ensures StringsApart(["server", "category"] + [])
    ensures StringsApart(["article", "id", "by"] + [])
  {
  }

  /** A map of these fields, in whatever order. */
  ghost predicate HasFields(x: Value, fields: seq<Field>) {
    OpenMap(x) && OpenMap(BuildMap(fields)) && forall e :: e in x.entries <==> e in Entries(fields)
  }

  /** It holds no other keys. */
  lemma FieldsExact(v: Value, key: string, x: Value, fields: seq<Field>, allowed: seq<Buf>)
    requires Get(v, Name(key)) == Some(x) && HasFields(x, fields)
    requires |allowed| == |fields| && forall i :: 0 <= i < |fields| ==> allowed[i] == Name(fields[i].name)
    ensures Exact(v, key, allowed) == Ok(x)
  {
    hide Name, Get, CanonicalEntry, KeysApart, Entries;
    BuiltMembers(fields);
    var es := x.entries;
    forall i | 0 <= i < |es| ensures es[i].key.Text? && es[i].key.s in allowed {
      assert es[i] in Entries(fields);
      var j :| 0 <= j < |fields| && HasEntry(fields[j], es[i]);
      assert allowed[j] in allowed;
    }
  }

  /** And answers as the map built in the fields' own order. */
  lemma FieldsGet(x: Value, fields: seq<Field>, name: Buf)
    requires HasFields(x, fields)
    ensures Get(x, name) == Get(BuildMap(fields), name)
  {
    hide OpenMap, Get, Entries;
    assert BuildMap(fields).entries == Entries(fields);
    SameEntriesGet(x, BuildMap(fields), name);
  }

  // Private messages.

  ghost predicate PrivateGet(v: Value, m: Message)
    requires m.PrivateMessage?
  {
    && Get(v, Name("v")) == Some(Uint(VERSION))
    && Get(v, Name("id")) == Some(Blob(m.id)) && Get(v, Name("sent")) == Some(Uint(m.sent))
    && Get(v, Name("to")) == Some(Blob(m.to)) && Get(v, Name("cert")) == Some(Blob(m.cert))
    && Get(v, Name("text")) == Some(CanonicalValue(m.text))
    && Get(v, Name("quote")) == (if m.quote.Some? then Some(CanonicalValue(m.quote.value)) else None)
    && Get(v, Name("auto")) == (if m.auto then Some(Bool(true)) else None)
    && Get(v, Name("in")).None? && Get(v, Name("cert_sha256")).None?
  }

  lemma PrivateGets(m: Message)
    requires m.PrivateMessage?
    ensures PrivateGet(Unsigned(m), m) && NamesApart(PrivateFields(m)) && Get(Unsigned(m), Name("sig")).None?
  {
    hide Get, Name, BuildMap, StringsApart, CanonicalValue;
    PrivateNamesApart();
    var f := PrivateFields(m);
    var others := ["in", "cert_sha256", "sig"];
    BuiltGets(f, PRIVATE_NAMES, others);
    assert forall i :: 0 <= i < 8 ==> Get(BuildMap(f), Name(PRIVATE_NAMES[i])) == f[i].val;
    assert others[0] == "in" && others[1] == "cert_sha256" && others[2] == "sig";
    assert PRIVATE_NAMES[0] == "v" && PRIVATE_NAMES[1] == "id" && PRIVATE_NAMES[2] == "sent"
           && PRIVATE_NAMES[3] == "to";
    assert PRIVATE_NAMES[4] == "cert" && PRIVATE_NAMES[5] == "text" && PRIVATE_NAMES[6] == "quote"
           && PRIVATE_NAMES[7] == "auto";
  }

  lemma CommonReads(v: Value, id: Bytes16, sent: U64, cert: Buf)
    requires Get(v, Name("id")) == Some(Blob(id)) && Get(v, Name("sent")) == Some(Uint(sent))
    requires Get(v, Name("cert")) == Some(Blob(cert)) && Get(v, Name("cert_sha256")).None?
    ensures Common(v) == Ok((id, sent, cert))
  {
    hide Get, Name;
  }

  /** What a reader makes of a private message's map, read whole: the message,
      unless a text of it is out of bounds. */
  function PrivateOutcome(m: Message): Result<Message, Error>
    requires m.PrivateMessage?
  {
    var _ :- if m.quote.Some? then CheckText(CanonicalText(m.quote.value), "quote", 1, 8192) else Ok(());
    var _ :- CheckText(CanonicalText(m.text), "text", 1, 8192);
    Ok(Normal(m))
  }

  lemma PrivateReads(v: Value, m: Message)
    requires m.PrivateMessage? && PrivateGet(v, m)
    ensures FromValue(Private, v, false) == PrivateOutcome(m)
    ensures PrivateOutcome(m).Ok? ==>
              && 1 <= |CanonicalText(m.text)| <= 8192
              && (m.quote.Some? ==> 1 <= |CanonicalText(m.quote.value)| <= 8192)
  {
    hide Get, Name, CanonicalText, IsCanonicalText, Common;
    CommonReads(v, m.id, m.sent, m.cert);
  }

  // Public chat.

  ghost predicate ChatGet(v: Value, m: Message)
    requires m.ChatLine?
  {
    && Get(v, Name("v")) == Some(Uint(VERSION))
    && Get(v, Name("id")) == Some(Blob(m.id)) && Get(v, Name("sent")) == Some(Uint(m.sent))
    && Get(v, Name("in")).Some? && HasFields(Get(v, Name("in")).value, ChatScopeFields(m))
    && Get(v, Name("cert")) == Some(Blob(m.cert))
    && Get(v, Name("text")) == Some(CanonicalValue(m.text))
    && Get(v, Name("act")) == (if m.act then Some(Bool(true)) else None)
    && Get(v, Name("to")).None? && Get(v, Name("cert_sha256")).None?
  }

  /** What a map of a line's fields answers, whatever their values. */
  lemma ChatGetsOf(f: seq<Field>)
    requires NamedBy(f, CHAT_NAMES)
    ensures NamesApart(f)
    ensures var v := BuildMap(f);
            && Get(v, Name("v")) == f[0].val && Get(v, Name("id")) == f[1].val && Get(v, Name("sent")) == f[2].val
            && Get(v, Name("in")) == f[3].val && Get(v, Name("cert")) == f[4].val && Get(v, Name("text")) == f[5].val
            && Get(v, Name("act")) == f[6].val
            && Get(v, Name("to")).None? && Get(v, Name("cert_sha256")).None? && Get(v, Name("sig")).None?
  {
    hide Get, Name, BuildMap, StringsApart, NamesApart;
    ChatNamesApart();
    var others := ["to", "cert_sha256", "sig"];
    BuiltGets(f, CHAT_NAMES, others);
    ByPlace(f, others, 7);
  }

  lemma ByPlace(f: seq<Field>, others: seq<string>, n: nat)
    requires |f| == n >= 7 && |others| == 3
    requires forall i :: 0 <= i < n ==> Get(BuildMap(f), Name(f[i].name)) == f[i].val
    requires forall i :: 0 <= i < 3 ==> Get(BuildMap(f), Name(others[i])).None?
    ensures Get(BuildMap(f), Name(f[0].name)) == f[0].val && Get(BuildMap(f), Name(f[1].name)) == f[1].val
    ensures Get(BuildMap(f), Name(f[2].name)) == f[2].val && Get(BuildMap(f), Name(f[3].name)) == f[3].val
    ensures Get(BuildMap(f), Name(f[4].name)) == f[4].val && Get(BuildMap(f), Name(f[5].name)) == f[5].val
    ensures Get(BuildMap(f), Name(f[6].name)) == f[6].val
    ensures n > 8 ==> Get(BuildMap(f), Name(f[7].name)) == f[7].val && Get(BuildMap(f), Name(f[8].name)) == f[8].val
    ensures Get(BuildMap(f), Name(others[0])).None? && Get(BuildMap(f), Name(others[1])).None?
    ensures Get(BuildMap(f), Name(others[2])).None?
  {
    hide Get, Name, BuildMap;
  }

  lemma ChatGets(m: Message)
    requires m.ChatLine?
    ensures ChatGet(Unsigned(m), m) && NamesApart(ChatFields(m)) && Get(Unsigned(m), Name("sig")).None?
    ensures Get(Unsigned(m), Name("in")) == Some(BuildMap(ChatScopeFields(m)))
  {
    hide Get, Name, BuildMap, NamesApart, CanonicalValue, HasFields;
    ChatScopeGets(m);
    ChatGetsOf(ChatFields(m));
  }

  lemma ChatScopeGets(m: Message)
    requires m.ChatLine?
    ensures var v := BuildMap(ChatScopeFields(m));
            && Get(v, Name("server")) == Some(Blob(m.server)) && Get(v, Name("room")) == Some(Uint(m.room))
            && HasFields(v, ChatScopeFields(m))
  {
    hide Get, Name, StringsApart, OpenMap, Leaf, Entries, NamesApart;
    ChatNamesApart();
    var f := ChatScopeFields(m);
    var names := ["server", "room"];
    BuiltGets(f, names, []);
    assert Get(BuildMap(f), Name(names[0])) == f[0].val && Get(BuildMap(f), Name(names[1])) == f[1].val;
    SmallLeaf(m.server);
    NumberLeaf(m.room);
    ScopeNames();
    BuiltOpen(f);
  }

  lemma ScopeNames()
    ensures Ascii("server") && Ascii("room") && Ascii("category") && Ascii("article") && Ascii("id") && Ascii("by")
  {
  }

  /** A line reads back as it was given, unless its text is out of bounds. */
  lemma ChatReads(v: Value, m: Message)
    requires m.ChatLine? && ChatGet(v, m)
    ensures FromValue(Chat, v, false) ==
            var c := CheckText(CanonicalText(m.text), "text", 1, 4096);
            if c.Err? then Err(c.error) else Ok(Normal(m))
  {
    hide Get, Name, CanonicalText, IsCanonicalText, Common, BuildMap, Exact, HasFields, Entries;
    CommonReads(v, m.id, m.sent, m.cert);
    ChatScopeGets(m);
    var scope := Get(v, Name("in")).value;
    FieldsGet(scope, ChatScopeFields(m), Name("server"));
    FieldsGet(scope, ChatScopeFields(m), Name("room"));
    FieldsExact(v, "in", scope, ChatScopeFields(m), [Name("server"), Name("room")]);
  }

  // News.

  ghost predicate ParentIs(held: Option<Value>, parent: Option<Parent>) {
    if parent.Some? then held.Some? && HasFields(held.value, ParentFields(parent.value)) else held.None?
  }

  ghost predicate NewsGet(v: Value, m: Message)
    requires m.Article?
  {
    && Get(v, Name("v")) == Some(Uint(VERSION))
    && Get(v, Name("id")) == Some(Blob(m.id)) && Get(v, Name("sent")) == Some(Uint(m.sent))
    && Get(v, Name("in")).Some? && HasFields(Get(v, Name("in")).value, NewsScopeFields(m))
    && Get(v, Name("cert")) == Some(Blob(m.cert))
    && ParentIs(Get(v, Name("parent")), m.parent)
    && Get(v, Name("subject")) == Some(CanonicalValue(m.subject))
    && Get(v, Name("body")) == Some(CanonicalValue(m.body)) && Get(v, Name("mime")) == Some(Text(m.mime))
    && Get(v, Name("to")).None? && Get(v, Name("cert_sha256")).None?
  }

  lemma NewsGetsOf(f: seq<Field>)
    requires NamedBy(f, NEWS_NAMES)
    ensures NamesApart(f)
    ensures var v := BuildMap(f);
            && Get(v, Name("v")) == f[0].val && Get(v, Name("id")) == f[1].val && Get(v, Name("sent")) == f[2].val
            && Get(v, Name("in")) == f[3].val && Get(v, Name("parent")) == f[4].val
            && Get(v, Name("cert")) == f[5].val && Get(v, Name("subject")) == f[6].val
            && Get(v, Name("body")) == f[7].val && Get(v, Name("mime")) == f[8].val
            && Get(v, Name("to")).None? && Get(v, Name("cert_sha256")).None? && Get(v, Name("sig")).None?
  {
    hide Get, Name, BuildMap, StringsApart, NamesApart;
    NewsNamesApart();
    var others := ["to", "cert_sha256", "sig"];
    BuiltGets(f, NEWS_NAMES, others);
    ByPlace(f, others, 9);
  }

  lemma NewsGets(m: Message)
    requires m.Article?
    ensures NewsGet(Unsigned(m), m) && NamesApart(NewsFields(m)) && Get(Unsigned(m), Name("sig")).None?
    ensures Get(Unsigned(m), Name("in")) == Some(BuildMap(NewsScopeFields(m)))
    ensures Get(Unsigned(m), Name("parent")) ==
            if m.parent.Some? then Some(BuildMap(ParentFields(m.parent.value))) else None
  {
    hide Get, Name, BuildMap, NamesApart, CanonicalValue, HasFields;
    NewsScopeGets(m);
    if m.parent.Some? {
      ParentGets(m.parent.value);
    }
    NewsGetsOf(NewsFields(m));
  }

  lemma NewsScopeGets(m: Message)
    requires m.Article?
    ensures var v := BuildMap(NewsScopeFields(m));
            && Get(v, Name("server")) == Some(Blob(m.server)) && Get(v, Name("category")) == Some(Blob(m.category))
            && HasFields(v, NewsScopeFields(m))
  {
    hide Get, Name, StringsApart, OpenMap, Leaf, Entries, NamesApart;
    NewsNamesApart();
    var f := NewsScopeFields(m);
    var names := ["server", "category"];
    BuiltGets(f, names, []);
    assert Get(BuildMap(f), Name(names[0])) == f[0].val && Get(BuildMap(f), Name(names[1])) == f[1].val;
    SmallLeaf(m.server);
    SmallLeaf(m.category);
    ScopeNames();
    BuiltOpen(f);
  }

  lemma ParentGets(p: Parent)
    ensures var v := BuildMap(ParentFields(p));
            && Get(v, Name("article")) == Some(Uint(p.article))
            && Get(v, Name("id")) == (if p.signed.Some? then Some(Blob(p.signed.value.0)) else None)
            && Get(v, Name("by")) == (if p.signed.Some? then Some(Blob(p.signed.value.1)) else None)
            && HasFields(v, ParentFields(p))
  {
    hide Get, Name, StringsApart, OpenMap, Leaf, Entries, NamesApart;
    NewsNamesApart();
    var f := ParentFields(p);
    var names := ["article", "id", "by"];
    BuiltGets(f, names, []);
    assert Get(BuildMap(f), Name(names[0])) == f[0].val && Get(BuildMap(f), Name(names[1])) == f[1].val;
    assert Get(BuildMap(f), Name(names[2])) == f[2].val;
    NumberLeaf(p.article);
    if p.signed.Some? {
      SmallLeaf(p.signed.value.0);
      SmallLeaf(p.signed.value.1);
    }
    ScopeNames();
    BuiltOpen(f);
  }

  lemma ParentReads(v: Value, parent: Option<Parent>)
    requires ParentIs(Get(v, Name("parent")), parent)
    ensures ParentFrom(v) == Ok(parent)
  {
    hide Get, Name, BuildMap, Exact, HasFields, Entries;
    if parent.Some? {
      var f := ParentFields(parent.value);
      var x := Get(v, Name("parent")).value;
      ParentGets(parent.value);
      FieldsGet(x, f, Name("article"));
      FieldsGet(x, f, Name("id"));
      FieldsGet(x, f, Name("by"));
      FieldsExact(v, "parent", x, f, [Name("article"), Name("id"), Name("by")]);
    }
  }

  /** What a reader makes of an article's map: the article, unless a text of it is
      out of bounds or its type is not one of the two. */
  function NewsOutcome(m: Message): Result<Message, Error>
    requires m.Article?
  {
    var _ :- CheckText(CanonicalText(m.subject), "subject", 1, 255);
    var _ :- Check(LF !in CanonicalText(m.subject), BadField("subject"));
    var _ :- CheckText(CanonicalText(m.body), "body", 0, 65_535);
    var _ :- Check(m.mime == Name("text/plain") || m.mime == Name("text/markdown"), BadField("mime"));
    Ok(Normal(m))
  }

  lemma NewsReads(v: Value, m: Message)
    requires m.Article? && NewsGet(v, m)
    ensures FromValue(News, v, false) == NewsOutcome(m)
  {
    hide Get, Name, CanonicalText, IsCanonicalText, Common, BuildMap, ParentFrom, Exact, HasFields, Entries, ParentIs;
    CommonReads(v, m.id, m.sent, m.cert);
    NewsScopeGets(m);
    var scope := Get(v, Name("in")).value;
    FieldsGet(scope, NewsScopeFields(m), Name("server"));
    FieldsGet(scope, NewsScopeFields(m), Name("category"));
    FieldsExact(v, "in", scope, NewsScopeFields(m), [Name("server"), Name("category")]);
    ParentReads(v, m.parent);
  }
}
