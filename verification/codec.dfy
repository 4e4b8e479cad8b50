/** The codec as it runs: an encoder that pushes onto a buffer and a reader that
    moves a position, each proved to compute what `Cbor` specifies. */
module Codec {
  import opened Bytes
  import opened Sorting
  import opened Cbor

  lemma OneByte(n: Byte)
    ensures ToBe(n, 1) == [n]
  {
    assert ToBe(n / 256, 0) == [];
  }

  lemma NextItem(items: seq<Value>, i: nat, before: Buf)
    requires i < |items|
    ensures before + EncodeAll(items[i..]) == before + Encode(items[i]) + EncodeAll(items[i + 1..])
  {
    hide Encode;
    assert items[i..][1..] == items[i + 1..];
  }

  lemma NoItems(items: seq<Value>)
    ensures EncodeAll(items[|items|..]) == []
  {
    hide Encode;
  }

  /** A `Vec<u8>` being written. */
  class Out {
    var bytes: Buf

    constructor ()
      ensures bytes == []
    {
      bytes := [];
    }

    method Push(b: Byte)
      modifies this
      ensures bytes == old(bytes) + [b]
    {
      bytes := bytes + [b];
    }

    method Extend(s: Buf)
      modifies this
      ensures bytes == old(bytes) + s
    {
      bytes := bytes + s;
    }

    method PutHead(major: nat, n: U64)
      requires major < 8
      modifies this
      ensures bytes == old(bytes) + Head(major, n)
    {
      hide ToBe;
      var mt := major * 32;
      if n < 24 {
        Push(mt + n);
      } else if n <= 0xff {
        Push(mt + 24);
        OneByte(n);
        Push(n);
      } else if n <= 0xffff {
        Push(mt + 25);
        Extend(ToBe(n, 2));
      } else if n <= 0xffff_ffff {
        Push(mt + 26);
        Extend(ToBe(n, 4));
      } else {
        Push(mt + 27);
        Extend(ToBe(n, 8));
      }
    }

    method EncodeInto(v: Value)
      modifies this
      ensures bytes == old(bytes) + Encode(v)
      decreases v, 0
    {
      hide Head, EncodeAll, EncodeEntries, Join, Sort;
      match v
      case Uint(n) =>
        PutHead(0, n);
      case Blob(b) =>
        PutLength(2, |b|);
        Extend(b);
      case Text(s) =>
        PutLength(3, |s|);
        Extend(s);
      case Array(items) =>
        PutLength(4, |items|);
        EncodeItems(items);
      case Map(entries) =>
        EncodeMap(entries);
      case Bool(on) =>
        Push(if on then 0xf5 else 0xf4);
    }

    method EncodeMap(entries: seq<Entry>)
      modifies this
      ensures bytes == old(bytes) + (Head(5, |entries|) + Join(Sort(EncodeEntries(entries))))
      decreases entries, 3
    {
      hide Encode, EncodeEntries, Join, Head, Sort, SourcePairs, EncodedPairs, Sourced;
      var encoded := EncodeKeys(entries);
      SortedPairs(entries);
      SortedSourced(entries);
      encoded := Sort(encoded);
      PutLength(5, |encoded|);
      EncodePairs(encoded, entries);
    }

    /** `n as u64` at a head. */
    method PutLength(major: nat, n: nat)
      requires major < 8
      modifies this
      ensures bytes == old(bytes) + Head(major, n)
    {
      PutHead(major, n % TWO64);
    }

    method EncodeItems(items: seq<Value>)
      modifies this
      ensures bytes == old(bytes) + EncodeAll(items)
      decreases items, 1
    {
      hide Encode, EncodeAll;
      assert items[0..] == items;
      for i := 0 to |items|
        invariant bytes + EncodeAll(items[i..]) == old(bytes) + EncodeAll(items)
      {
        NextItem(items, i, bytes);
        EncodeInto(items[i]);
      }
      NoItems(items);
      assert bytes + [] == bytes;
    }

    /** Each value beside its key's encoding, the key encoded once. */
    method EncodeKeys(entries: seq<Entry>) returns (encoded: seq<Keyed<Value>>)
      ensures encoded == SourcePairs(entries)
      decreases entries, 2
    {
      encoded := [];
      for i := 0 to |entries|
        invariant |encoded| == i
        invariant forall j :: 0 <= j < i ==> encoded[j] == SourcePair(entries[j])
      {
        var kb := EncodeKey(entries[i]);
        encoded := encoded + [Keyed(kb, entries[i].val)];
      }
    }

    method EncodeKey(e: Entry) returns (kb: Buf)
      ensures kb == Encode(e.key)
      decreases e, 1
    {
      var key := new Out();
      key.EncodeInto(e.key);
      kb := key.bytes;
    }

    method EncodePairs(encoded: seq<Keyed<Value>>, ghost entries: seq<Entry>)
      requires Sourced(encoded, entries)
      modifies this
      ensures bytes == old(bytes) + Join(EncodedPairs(encoded))
      decreases entries, 2
    {
      hide Encode, Join, EncodedPairs;
      assert encoded[0..] == encoded;
      for i := 0 to |encoded|
        invariant bytes + JoinFrom(encoded, i) == old(bytes) + Join(EncodedPairs(encoded))
      {
        ghost var before := bytes;
        Extend(encoded[i].key);
        assert encoded[i] in encoded;
        ghost var e :| e in entries && encoded[i] == SourcePair(e);
        EncodeValue(encoded[i].val, e);
        JoinStep(encoded, i);
        assert bytes + JoinFrom(encoded, i + 1) == before + JoinFrom(encoded, i);
      }
      JoinEnd(encoded);
      assert bytes + [] == bytes;
    }

    method EncodeValue(v: Value, ghost e: Entry)
      requires v == e.val
      modifies this
      ensures bytes == old(bytes) + Encode(v)
      decreases e, 1
    {
      EncodeInto(v);
    }
  }

  ghost predicate EncodedAs(key: Buf, v: Value, b: Buf) {
    b == Encode(v)
  }

  ghost function SourcePair(e: Entry): Keyed<Value> {
    Keyed(Encode(e.key), e.val)
  }

  ghost function SourcePairs(entries: seq<Entry>): (r: seq<Keyed<Value>>)
    ensures |r| == |entries| && forall i :: 0 <= i < |r| ==> r[i] == SourcePair(entries[i])
  {
    if entries == [] then [] else [SourcePair(entries[0])] + SourcePairs(entries[1..])
  }

  ghost predicate Sourced(pairs: seq<Keyed<Value>>, entries: seq<Entry>) {
    forall p | p in pairs :: exists e :: e in entries && p == SourcePair(e)
  }

  lemma SortedSourced(entries: seq<Entry>)
    ensures Sourced(Sort(SourcePairs(entries)), entries)
  {
    hide Encode, SourcePair, SourcePairs;
    var pairs := SourcePairs(entries);
    forall p | p in Sort(pairs) ensures exists e :: e in entries && p == SourcePair(e) {
      assert p in multiset(Sort(pairs));
      assert p in multiset(pairs);
      var i :| 0 <= i < |pairs| && p == pairs[i];
      assert entries[i] in entries;
    }
  }

  lemma PairsRelated(entries: seq<Entry>)
    ensures Related(SourcePairs(entries), EncodeEntries(entries), EncodedAs)
  {
    hide Encode, SourcePairs, EncodeEntries;
  }

  lemma RelatedEncoded(pairs: seq<Keyed<Value>>, encoded: seq<Keyed<Buf>>)
    requires Related(pairs, encoded, EncodedAs)
    ensures EncodedPairs(pairs) == encoded
  {
    hide Encode, EncodedPairs;
  }

  lemma SortedPairs(entries: seq<Entry>)
    ensures var sorted := Sort(SourcePairs(entries));
            && |sorted| == |entries| && EncodedPairs(sorted) == Sort(EncodeEntries(entries))
  {
    hide Encode, Sort, SourcePairs, EncodeEntries, EncodedPairs, EncodedAs, Related;
    var pairs := SourcePairs(entries);
    PairsRelated(entries);
    SortRelated(pairs, EncodeEntries(entries), EncodedAs);
    RelatedEncoded(Sort(pairs), Sort(EncodeEntries(entries)));
  }

  ghost function EncodedPairs(pairs: seq<Keyed<Value>>): (r: seq<Keyed<Buf>>)
    ensures |r| == |pairs| && forall i :: 0 <= i < |r| ==> r[i] == Keyed(pairs[i].key, Encode(pairs[i].val))
  {
    if pairs == [] then [] else [Keyed(pairs[0].key, Encode(pairs[0].val))] + EncodedPairs(pairs[1..])
  }

  ghost function JoinFrom(pairs: seq<Keyed<Value>>, i: nat): Buf
    requires i <= |pairs|
  {
    Join(EncodedPairs(pairs[i..]))
  }

  lemma JoinStep(pairs: seq<Keyed<Value>>, i: nat)
    requires i < |pairs|
    ensures JoinFrom(pairs, i) == pairs[i].key + Encode(pairs[i].val) + JoinFrom(pairs, i + 1)
  {
    hide Encode;
    assert pairs[i..][1..] == pairs[i + 1..];
  }

  lemma JoinEnd(pairs: seq<Keyed<Value>>)
    ensures JoinFrom(pairs, |pairs|) == []
  {
  }

  method EncodeBytes(v: Value) returns (r: Buf)
    ensures r == Encode(v)
  {
    var out := new Out();
    out.EncodeInto(v);
    r := out.bytes;
  }

  /** A read of `old(Rest())` that specification `p` describes. */
  ghost predicate Reads<T>(p: Parse<T>, r: Result<T, CborError>, rest: Buf) {
    if p.Bad? then r == Err(p.error) else r == Ok(p.value) && rest == p.rest
  }

  class Reader {
    const buf: Buf
    var pos: nat

    ghost predicate Valid()
      reads this
    {
      pos <= |buf|
    }

    ghost function Rest(): Buf
      requires Valid()
      reads this
    {
      buf[pos..]
    }

    constructor (buf: Buf)
      ensures Valid() && this.buf == buf && pos == 0 && Rest() == buf
    {
      this.buf := buf;
      pos := 0;
    }

    method ReadByte() returns (r: Result<Byte, CborError>)
      requires Valid()
      modifies this
      ensures Valid()
      ensures r == (if old(Rest()) == [] then Err(Truncated) else Ok(old(Rest())[0]))
      ensures Rest() == (if r.Ok? then old(Rest())[1..] else old(Rest()))
    {
      if pos >= |buf| {
        return Err(Truncated);
      }
      r := Ok(buf[pos]);
      pos := pos + 1;
    }

    method Take(n: nat) returns (r: Result<Buf, CborError>)
      requires Valid()
      modifies this
      ensures Valid()
      ensures r == (if n > |old(Rest())| then Err(Truncated) else Ok(old(Rest())[..n]))
      ensures Rest() == (if r.Ok? then old(Rest())[n..] else old(Rest()))
    {
      var end := pos + n;
      if end > |buf| {
        return Err(Truncated);
      }
      assert buf[pos..end] == buf[pos..][..n] && buf[end..] == buf[pos..][n..];
      r := Ok(buf[pos..end]);
      pos := end;
    }

    method TakeNumber(n: nat) returns (r: Result<nat, CborError>)
      requires Valid()
      modifies this
      ensures Valid() && Reads(ReadNumber(old(Rest()), n), r, Rest())
    {
      var s := Take(n);
      match s
      case Err(e) => r := Err(e);
      case Ok(b) => r := Ok(FromBe(b));
    }

    method ReadHead() returns (r: Result<(nat, nat), CborError>)
      requires Valid()
      modifies this
      ensures Valid() && Reads(Cbor.ReadHead(old(Rest())), r, Rest())
    {
      hide ReadNumber;
      ghost var s := Rest();
      var first := ReadByte();
      if first.Err? {
        return Err(first.error);
      }
      var b := first.value;
      var major, ai := b / 32, b % 32;
      if ai <= 23 {
        assert Cbor.ReadHead(s) == Done((major, ai), s[1..]);
        return Ok((major, ai));
      } else if ai >= 28 {
        assert Cbor.ReadHead(s) == Bad(Unsupported(b));
        return Err(Unsupported(b));
      }
      assert s[0] == b && Rest() == s[1..];
      ghost var spec := ReadNumber(s[1..], if ai == 24 then 1 else if ai == 25 then 2 else if ai == 26 then 4 else 8);
      assert spec.Done? ==> Cbor.ReadHead(s) == Done((major, spec.value), spec.rest);
      assert spec.Bad? ==> Cbor.ReadHead(s) == Bad(spec.error);
      var n := TakeNumber(if ai == 24 then 1 else if ai == 25 then 2 else if ai == 26 then 4 else 8);
      r := if n.Err? then Err(n.error) else Ok((major, n.value));
      assert Reads(Cbor.ReadHead(s), r, Rest());
    }

    method ReadItem(depth: nat) returns (r: Result<Value, CborError>)
      requires Valid()
      modifies this
      ensures Valid() && Reads(Cbor.ReadItem(old(Rest()), depth), r, Rest())
      decreases MAX_DEPTH + 1 - depth, 1
    {
      hide Cbor.ReadBody;
      if depth > MAX_DEPTH {
        return Err(TooDeep);
      }
      var start := pos;
      if pos < |buf| && (buf[pos] == 0xf4 || buf[pos] == 0xf5) {
        pos := pos + 1;
        return Ok(Bool(buf[start] == 0xf5));
      }
      var h := ReadHead();
      if h.Err? {
        return Err(h.error);
      }
      r := ReadBody(buf[start], h.value.0, h.value.1, depth);
    }

    method ReadBody(head: Byte, major: nat, n: nat, depth: nat) returns (r: Result<Value, CborError>)
      requires Valid() && n < TWO64 && depth <= MAX_DEPTH
      modifies this
      ensures Valid() && Reads(Cbor.ReadBody(head, major, n, old(Rest()), depth), r, Rest())
      decreases MAX_DEPTH + 1 - depth, 0
    {
      hide Cbor.ReadItems, Cbor.ReadEntries;
      if major == 0 {
        r := Ok(Uint(n));
      } else if major == 2 {
        var b := Take(n);
        r := if b.Err? then Err(b.error) else Ok(Blob(b.value));
      } else if major == 3 {
        var s := Take(n);
        r := if s.Err? then Err(s.error) else if ValidUtf8(s.value) then Ok(Text(s.value)) else Err(BadUtf8);
      } else if major == 4 {
        if n > |buf| - pos {
          return Err(Truncated);
        }
        var items := ReadItems(depth + 1, n);
        r := if items.Err? then Err(items.error) else Ok(Array(items.value));
      } else if major == 5 {
        if n > (|buf| - pos) / 2 {
          return Err(Truncated);
        }
        var entries := ReadEntries(depth + 1, n);
        r := if entries.Err? then Err(entries.error) else Ok(Map(entries.value));
      } else {
        r := Err(Unsupported(head));
      }
    }

    method ReadItems(depth: nat, count: nat) returns (r: Result<seq<Value>, CborError>)
      requires Valid() && depth <= MAX_DEPTH + 1
      modifies this
      ensures Valid() && Reads(Cbor.ReadItems(old(Rest()), depth, count), r, Rest())
      decreases MAX_DEPTH + 1 - depth, 2
    {
      hide Cbor.ReadItem;
      var items := [];
      ghost var all := Cbor.ReadItems(Rest(), depth, count);
      assert all.Done? ==> items + all.value == all.value;
      for i := 0 to count
        invariant Valid()
        invariant |items| == i
        invariant var more := Cbor.ReadItems(Rest(), depth, count - i);
                  all == if more.Bad? then more else Done(items + more.value, more.rest)
      {
        var item := ReadItem(depth);
        if item.Err? {
          return Err(item.error);
        }
        ghost var more := Cbor.ReadItems(Rest(), depth, count - i - 1);
        assert more.Done? ==> items + ([item.value] + more.value) == (items + [item.value]) + more.value;
        items := items + [item.value];
      }
      assert items + [] == items;
      r := Ok(items);
    }

    method ReadEntries(depth: nat, count: nat) returns (r: Result<seq<Entry>, CborError>)
      requires Valid() && depth <= MAX_DEPTH + 1
      modifies this
      ensures Valid() && Reads(Cbor.ReadEntries(old(Rest()), depth, count), r, Rest())
      decreases MAX_DEPTH + 1 - depth, 2
    {
      hide Cbor.ReadItem;
      var entries := [];
      ghost var all := Cbor.ReadEntries(Rest(), depth, count);
      assert all.Done? ==> entries + all.value == all.value;
      for i := 0 to count
        invariant Valid()
        invariant |entries| == i
        invariant var more := Cbor.ReadEntries(Rest(), depth, count - i);
                  all == if more.Bad? then more else Done(entries + more.value, more.rest)
      {
        var k := ReadItem(depth);
        if k.Err? {
          return Err(k.error);
        }
        var v := ReadItem(depth);
        if v.Err? {
          return Err(v.error);
        }
        var e := Entry(k.value, v.value);
        ghost var more := Cbor.ReadEntries(Rest(), depth, count - i - 1);
        assert more.Done? ==> entries + ([e] + more.value) == (entries + [e]) + more.value;
        entries := entries + [e];
      }
      assert entries + [] == entries;
      r := Ok(entries);
    }
  }

  method Decode(bytes: Buf) returns (r: Result<Value, CborError>)
    ensures r == DecodeCanonical(bytes)
  {
    var reader := new Reader(bytes);
    var v := reader.ReadItem(0);
    if v.Err? {
      return Err(v.error);
    }
    if reader.pos != |bytes| {
      return Err(Trailing);
    }
    var again := EncodeBytes(v.value);
    if again != bytes || HasDuplicateKeys(v.value) {
      return Err(NotCanonical);
    }
    r := Ok(v.value);
  }
}
