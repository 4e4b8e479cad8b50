/** Why decode, re-encode and a scan for duplicates is enough: the decoder
    accepts exactly one byte string for each canonical value. */
module Canonical {
  import opened Bytes
  import opened Sorting
  import opened Cbor

  // What canonical means, apart from any reader or writer.

  /** A value a program can hold: its texts are UTF-8 and every length fits the
      64-bit argument of a head. */
  ghost predicate Fits(v: Value)
    decreases v, 0
  {
    match v
    case Uint(_) => true
    case Blob(b) => |b| < TWO64
    case Text(s) => |s| < TWO64 && ValidUtf8(s)
    case Array(items) => |items| < TWO64 && forall i | i in items :: Fits(i)
    case Map(entries) => |entries| < TWO64 && forall e | e in entries :: FitsEntry(e)
    case Bool(_) => true
  }

  ghost predicate FitsEntry(e: Entry)
    decreases e, 1
  {
    Fits(e.key) && Fits(e.val)
  }

  /** Nests at most `d` levels below itself. */
  ghost predicate Within(v: Value, d: int)
    decreases v, 0
  {
    d >= 0 &&
    match v
    case Array(items) => forall i | i in items :: Within(i, d - 1)
    case Map(entries) => forall e | e in entries :: WithinEntry(e, d - 1)
    case _ => true
  }

  ghost predicate WithinEntry(e: Entry, d: int)
    decreases e, 1
  {
    Within(e.key, d) && Within(e.val, d)
  }

  /** Every map's keys are in order of their encodings. */
  ghost predicate Ordered(v: Value)
    decreases v, 0
  {
    match v
    case Array(items) => forall i | i in items :: Ordered(i)
    case Map(entries) => Sorted(EncodeEntries(entries)) && forall e | e in entries :: OrderedEntry(e)
    case _ => true
  }

  ghost predicate OrderedEntry(e: Entry)
    decreases e, 1
  {
    Ordered(e.key) && Ordered(e.val)
  }

  /** Every map's keys strictly ascend by their encodings. */
  ghost predicate Ascending(v: Value)
    decreases v, 0
  {
    match v
    case Array(items) => forall i | i in items :: Ascending(i)
    case Map(entries) => Strict(EncodeEntries(entries)) && forall e | e in entries :: AscendingEntry(e)
    case _ => true
  }

  ghost predicate AscendingEntry(e: Entry)
    decreases e, 1
  {
    Ascending(e.key) && Ascending(e.val)
  }

  ghost predicate IsCanonical(v: Value) {
    Fits(v) && Ascending(v) && Within(v, MAX_DEPTH)
  }

  // The value an encoding reads back as.

  function Vals<T>(s: seq<Keyed<T>>): (r: seq<T>)
    ensures |r| == |s| && forall i :: 0 <= i < |r| ==> r[i] == s[i].val
  {
    if s == [] then [] else [s[0].val] + Vals(s[1..])
  }

  function DeepSort(v: Value): (r: Value)
    decreases v, 0
  {
    match v
    case Array(items) => Array(DeepSortAll(items))
    case Map(entries) => Map(Vals(Sort(DeepSortEntries(entries))))
    case _ => v
  }

  function DeepSortAll(items: seq<Value>): (r: seq<Value>)
    ensures |r| == |items| && forall i :: 0 <= i < |r| ==> r[i] == DeepSort(items[i])
    decreases items, 1
  {
    if items == [] then [] else [DeepSort(items[0])] + DeepSortAll(items[1..])
  }

  function DeepSortEntry(e: Entry): Keyed<Entry>
    decreases e, 1
  {
    Keyed(Encode(e.key), Entry(DeepSort(e.key), DeepSort(e.val)))
  }

  function DeepSortEntries(entries: seq<Entry>): (r: seq<Keyed<Entry>>)
    ensures |r| == |entries| && forall i :: 0 <= i < |r| ==> r[i] == DeepSortEntry(entries[i])
    decreases entries, 2
  {
    if entries == [] then [] else [DeepSortEntry(entries[0])] + DeepSortEntries(entries[1..])
  }

  /** The entries of a deep-sorted map are the map's own, each deep-sorted. */
  lemma DeepSortMembers(entries: seq<Entry>)
    ensures var r := DeepSort(Map(entries)).entries;
            && |r| == |entries|
            && (forall x | x in r :: exists e :: e in entries && x == DeepSortEntry(e).val)
            && (forall e | e in entries :: DeepSortEntry(e).val in r)
  {
    var d := DeepSortEntries(entries);
    var s := Sort(d);
    SortMembers(d);
    var r := Vals(s);
    forall x | x in r ensures exists e :: e in entries && x == DeepSortEntry(e).val {
      var i :| 0 <= i < |r| && r[i] == x;
      assert s[i] in s && s[i] in d;
      var j :| 0 <= j < |d| && d[j] == s[i];
      assert entries[j] in entries && x == DeepSortEntry(entries[j]).val;
    }
    forall e | e in entries ensures DeepSortEntry(e).val in r {
      var j :| 0 <= j < |entries| && entries[j] == e;
      assert d[j] in d && d[j] in s;
      var i :| 0 <= i < |s| && s[i] == d[j];
      assert r[i] == d[j].val;
    }
  }

  lemma SortedItems(items: seq<Value>)
    ensures forall i | i in items :: DeepSort(i) in DeepSortAll(items)
    ensures forall x | x in DeepSortAll(items) :: exists i :: i in items && x == DeepSort(i)
  {
    hide DeepSort, DeepSortAll;
    var r := DeepSortAll(items);
    assert forall j :: 0 <= j < |r| ==> r[j] == DeepSort(items[j]) && items[j] in items;
  }

  lemma {:induction false} EncodeAllEqual(a: seq<Value>, b: seq<Value>)
    requires |a| == |b| && forall i :: 0 <= i < |a| ==> Encode(a[i]) == Encode(b[i])
    ensures EncodeAll(a) == EncodeAll(b)
  {
    if a != [] {
      EncodeAllEqual(a[1..], b[1..]);
    }
  }

  /** Sorting a map, or the maps inside it, changes no byte of its encoding. */
  lemma {:induction false} EncodeDeepSort(v: Value)
    ensures Encode(DeepSort(v)) == Encode(v)
    ensures Ordered(DeepSort(v))
    decreases v, 0
  {
    match v
    case Array(items) =>
      forall i | i in items ensures Encode(DeepSort(i)) == Encode(i) && Ordered(DeepSort(i)) {
        EncodeDeepSort(i);
      }
      EncodeAllEqual(DeepSortAll(items), items);
    case Map(entries) => DeepSortedEntries(entries);
    case _ =>
  }

  /** `EncodeDeepSort` of an entry's key and value. */
  ghost predicate EntryKept(e: Entry) {
    && Encode(DeepSort(e.key)) == Encode(e.key) && Encode(DeepSort(e.val)) == Encode(e.val)
    && OrderedEntry(DeepSortEntry(e).val)
  }

  lemma {:induction false} EncodeDeepSortEntry(e: Entry)
    ensures EntryKept(e)
    decreases e, 1
  {
    EncodeDeepSort(e.key);
    EncodeDeepSort(e.val);
  }

  lemma {:induction false} DeepSortedEntries(entries: seq<Entry>)
    ensures Encode(DeepSort(Map(entries))) == Encode(Map(entries))
    ensures Ordered(DeepSort(Map(entries)))
    ensures EncodeEntries(DeepSort(Map(entries)).entries) == Sort(EncodeEntries(entries))
    decreases entries, 2
  {
    hide EncodeEntries, DeepSortEntries, Sort, Sorted, Join, Head;
    var pairs := EncodeEntries(entries);
    var d := DeepSortEntries(entries);
    var same := (k: Buf, b: Buf, e: Entry) => Keyed(k, b) == EncodeEntry(e) && OrderedEntry(e);
    forall i | 0 <= i < |d| ensures EntryKept(entries[i]) {
      EncodeDeepSortEntry(entries[i]);
    }
    SortRelated(pairs, d, same);
    var r := Vals(Sort(d));
    assert EncodeEntries(r) == Sort(pairs);
    SortSorted(pairs);
    SortOfSorted(Sort(pairs));
  }

  lemma {:induction false} DeepSortFits(v: Value)
    ensures Fits(DeepSort(v)) <==> Fits(v)
    decreases v, 0
  {
    hide DeepSortEntry, DeepSortAll, DeepSortEntries, Sort, FitsEntry;
    match v
    case Array(items) =>
      forall i | i in items ensures Fits(DeepSort(i)) <==> Fits(i) {
        DeepSortFits(i);
      }
      SortedItems(items);
    case Map(entries) =>
      forall e | e in entries ensures FitsEntry(DeepSortEntry(e).val) <==> FitsEntry(e) {
        DeepSortFitsEntry(e);
      }
      DeepSortMembers(entries);
    case _ =>
  }

  lemma {:induction false} DeepSortFitsEntry(e: Entry)
    ensures FitsEntry(DeepSortEntry(e).val) <==> FitsEntry(e)
    decreases e, 1
  {
    DeepSortFits(e.key);
    DeepSortFits(e.val);
  }

  lemma {:induction false} DeepSortWithin(v: Value, d: int)
    ensures Within(DeepSort(v), d) <==> Within(v, d)
    decreases v, 0
  {
    hide DeepSortEntry, DeepSortAll, DeepSortEntries, Sort, WithinEntry;
    match v
    case Array(items) =>
      forall i | i in items ensures Within(DeepSort(i), d - 1) <==> Within(i, d - 1) {
        DeepSortWithin(i, d - 1);
      }
      SortedItems(items);
    case Map(entries) =>
      forall e | e in entries ensures WithinEntry(DeepSortEntry(e).val, d - 1) <==> WithinEntry(e, d - 1) {
        DeepSortWithinEntry(e, d - 1);
      }
      DeepSortMembers(entries);
    case _ =>
  }

  lemma {:induction false} DeepSortWithinEntry(e: Entry, d: int)
    ensures WithinEntry(DeepSortEntry(e).val, d) <==> WithinEntry(e, d)
    decreases e, 1
  {
    DeepSortWithin(e.key, d);
    DeepSortWithin(e.val, d);
  }

  // Reading back what was written.

  lemma ReadHeadOf(major: nat, n: nat, rest: Buf)
    requires major < 8 && n < TWO64
    ensures ReadHead(Head(major, n) + rest) == Done((major, n), rest)
    ensures Head(major, n)[0] / 32 == major
  {
    hide ToBe, FromBe, Pow256;
    Pow256Values();
    if n >= 24 {
      var k := if n <= 0xff then 1 else if n <= 0xffff then 2 else if n <= 0xffff_ffff then 4 else 8;
      FromToBe(n, k);
      var s := Head(major, n) + rest;
      assert s[1..] == ToBe(n, k) + rest;
      assert s[1..][..k] == ToBe(n, k);
      assert s[1..][k..] == rest;
    } else {
      assert (Head(major, n) + rest)[1..] == rest;
    }
  }

  lemma ReadHeaded(major: nat, n: nat, rest: Buf, depth: int)
    requires major < 7 && n < TWO64 && depth <= MAX_DEPTH
    ensures ReadItem(Head(major, n) + rest, depth) == ReadBody(Head(major, n)[0], major, n, rest, depth)
  {
    hide Head, ReadHead, ReadBody;
    ReadHeadOf(major, n, rest);
  }

  lemma ReadTooDeep(s: Buf, depth: int)
    requires depth > MAX_DEPTH
    ensures ReadItem(s, depth) == Bad(TooDeep)
  {
  }

  lemma ReadBool(on: bool, rest: Buf, depth: int)
    requires depth <= MAX_DEPTH
    ensures ReadItem(Encode(Bool(on)) + rest, depth) == Done(Bool(on), rest)
  {
    assert (Encode(Bool(on)) + rest)[1..] == rest;
  }

  lemma {:induction false} ReadOrdered(v: Value, rest: Buf, depth: int)
    requires Fits(v) && Ordered(v)
    ensures ReadItem(Encode(v) + rest, depth) ==
            if Within(v, MAX_DEPTH - depth) then Done(v, rest) else Bad(TooDeep)
    decreases v, 0
  {
    hide ReadItem, ReadItems, ReadEntries, Head, EncodeAll, EncodeEntries, Join, Sorting.Sort;
    if depth > MAX_DEPTH {
      ReadTooDeep(Encode(v) + rest, depth);
    } else {
      match v
      case Uint(n) => ReadHeaded(0, n, rest, depth);
      case Blob(b) => ReadOrderedBlob(b, rest, depth);
      case Text(s) => ReadOrderedText(s, rest, depth);
      case Array(items) =>
        ReadOrderedAll(items, rest, depth + 1);
        ReadOrderedArray(items, rest, depth);
      case Map(entries) =>
        ReadOrderedEntries(entries, rest, depth + 1);
        ReadOrderedMap(entries, rest, depth);
      case Bool(on) => ReadBool(on, rest, depth);
    }
  }

  lemma ReadOrderedBlob(b: Buf, rest: Buf, depth: int)
    requires |b| < TWO64 && depth <= MAX_DEPTH
    ensures ReadItem(Encode(Blob(b)) + rest, depth) == Done(Blob(b), rest)
  {
    hide ReadItem, Head;
    ReadHeaded(2, |b|, b + rest, depth);
    assert Encode(Blob(b)) + rest == Head(2, |b|) + (b + rest);
  }

  lemma ReadOrderedText(s: Buf, rest: Buf, depth: int)
    requires Fits(Text(s)) && depth <= MAX_DEPTH
    ensures ReadItem(Encode(Text(s)) + rest, depth) == Done(Text(s), rest)
  {
    hide ReadItem, Head;
    ReadHeaded(3, |s|, s + rest, depth);
    assert Encode(Text(s)) + rest == Head(3, |s|) + (s + rest);
    assert (s + rest)[..|s|] == s;
  }

  lemma ReadOrderedArray(items: seq<Value>, rest: Buf, depth: int)
    requires |items| < TWO64 && depth <= MAX_DEPTH
    requires ReadItems(EncodeAll(items) + rest, depth + 1, |items|) ==
             if forall i | i in items :: Within(i, MAX_DEPTH - (depth + 1)) then Done(items, rest) else Bad(TooDeep)
    ensures ReadItem(Encode(Array(items)) + rest, depth) ==
            if Within(Array(items), MAX_DEPTH - depth) then Done(Array(items), rest) else Bad(TooDeep)
  {
    hide ReadItem, ReadItems, Head;
    var body := EncodeAll(items) + rest;
    ReadHeaded(4, |items|, body, depth);
    assert Encode(Array(items)) + rest == Head(4, |items|) + body;
  }

  lemma ReadOrderedMap(entries: seq<Entry>, rest: Buf, depth: int)
    requires |entries| < TWO64 && depth <= MAX_DEPTH && Sorted(EncodeEntries(entries))
    requires ReadEntries(Join(EncodeEntries(entries)) + rest, depth + 1, |entries|) ==
             if forall e | e in entries :: WithinEntry(e, MAX_DEPTH - (depth + 1))
             then Done(entries, rest) else Bad(TooDeep)
    ensures ReadItem(Encode(Map(entries)) + rest, depth) ==
            if Within(Map(entries), MAX_DEPTH - depth) then Done(Map(entries), rest) else Bad(TooDeep)
  {
    hide ReadItem, ReadEntries, Head, Sort, Join, EncodeEntries, WithinEntry;
    SortOfSorted(EncodeEntries(entries));
    var body := Join(EncodeEntries(entries)) + rest;
    ReadHeaded(5, |entries|, body, depth);
    assert Encode(Map(entries)) + rest == Head(5, |entries|) + body;
    JoinLength(entries);
  }

  lemma HeadAndTail<T>(s: seq<T>)
    requires s != []
    ensures s == [s[0]] + s[1..]
    ensures forall x :: x in s <==> x == s[0] || x in s[1..]
  {
  }

  lemma ReadItemsNone(s: Buf, depth: int)
    ensures ReadItems(s, depth, 0) == Done([], s)
  {
  }

  lemma ReadItemsStep(v: Value, count: nat, s: Buf, t: Buf, depth: int)
    requires count > 0
    requires ReadItem(s, depth) == if Within(v, MAX_DEPTH - depth) then Done(v, t) else Bad(TooDeep)
    ensures ReadItems(s, depth, count) ==
            if !Within(v, MAX_DEPTH - depth) then Bad(TooDeep) else
            var more := ReadItems(t, depth, count - 1);
            if more.Bad? then more else Done([v] + more.value, more.rest)
  {
    hide ReadItem, Within;
  }

  lemma {:induction false} ReadOrderedAll(items: seq<Value>, rest: Buf, depth: int)
    requires forall i | i in items :: Fits(i) && Ordered(i)
    ensures ReadItems(EncodeAll(items) + rest, depth, |items|) ==
            if forall i | i in items :: Within(i, MAX_DEPTH - depth)
            then Done(items, rest) else Bad(TooDeep)
    decreases items, 1
  {
    hide ReadItem, ReadItems, Encode, Within, Fits, Ordered;
    if items == [] {
      assert EncodeAll(items) + rest == rest;
      ReadItemsNone(rest, depth);
    } else {
      HeadAndTail(items);
      var more := EncodeAll(items[1..]) + rest;
      assert EncodeAll(items) + rest == Encode(items[0]) + more;
      ReadOrdered(items[0], more, depth);
      ReadOrderedAll(items[1..], rest, depth);
      var room := MAX_DEPTH - depth;
      assert (forall i | i in items :: Within(i, room)) <==>
        Within(items[0], room) && forall i | i in items[1..] :: Within(i, room);
      ReadItemsStep(items[0], |items|, Encode(items[0]) + more, more, depth);
    }
  }

  lemma {:induction false} ReadOrderedEntry(e: Entry, rest: Buf, depth: int)
    requires FitsEntry(e) && OrderedEntry(e)
    ensures ReadItem(Encode(e.key) + (Encode(e.val) + rest), depth) ==
            if Within(e.key, MAX_DEPTH - depth) then Done(e.key, Encode(e.val) + rest) else Bad(TooDeep)
    ensures ReadItem(Encode(e.val) + rest, depth) ==
            if Within(e.val, MAX_DEPTH - depth) then Done(e.val, rest) else Bad(TooDeep)
    decreases e, 1
  {
    ReadOrdered(e.key, Encode(e.val) + rest, depth);
    ReadOrdered(e.val, rest, depth);
  }

  lemma ReadEntriesNone(s: Buf, depth: int)
    ensures ReadEntries(s, depth, 0) == Done([], s)
  {
  }

  lemma ReadEntriesStep(e: Entry, count: nat, s: Buf, t: Buf, u: Buf, depth: int)
    requires count > 0
    requires ReadItem(s, depth) == if Within(e.key, MAX_DEPTH - depth) then Done(e.key, t) else Bad(TooDeep)
    requires ReadItem(t, depth) == if Within(e.val, MAX_DEPTH - depth) then Done(e.val, u) else Bad(TooDeep)
    ensures ReadEntries(s, depth, count) ==
            if !WithinEntry(e, MAX_DEPTH - depth) then Bad(TooDeep) else
            var more := ReadEntries(u, depth, count - 1);
            if more.Bad? then more else Done([e] + more.value, more.rest)
  {
    hide ReadItem, Within;
  }

  lemma {:induction false} ReadOrderedEntries(entries: seq<Entry>, rest: Buf, depth: int)
    requires forall e | e in entries :: FitsEntry(e) && OrderedEntry(e)
    ensures ReadEntries(Join(EncodeEntries(entries)) + rest, depth, |entries|) ==
            if forall e | e in entries :: WithinEntry(e, MAX_DEPTH - depth)
            then Done(entries, rest) else Bad(TooDeep)
    decreases entries, 2
  {
    hide ReadItem, ReadEntries, Encode, EncodeEntries, Join, WithinEntry, FitsEntry, OrderedEntry;
    JoinRest(entries, rest);
    if entries == [] {
      ReadEntriesNone(rest, depth);
    } else {
      var e := entries[0];
      var more := Join(EncodeEntries(entries[1..])) + rest;
      assert e in entries;
      ReadOrderedEntry(e, more, depth);
      ReadOrderedEntries(entries[1..], rest, depth);
      ReadEntriesMore(entries, Encode(e.key) + (Encode(e.val) + more), Encode(e.val) + more, more, rest, depth);
    }
  }

  lemma ReadEntriesMore(entries: seq<Entry>, s: Buf, t: Buf, u: Buf, rest: Buf, depth: int)
    requires entries != []
    requires var key := entries[0].key;
             ReadItem(s, depth) == if Within(key, MAX_DEPTH - depth) then Done(key, t) else Bad(TooDeep)
    requires var val := entries[0].val;
             ReadItem(t, depth) == if Within(val, MAX_DEPTH - depth) then Done(val, u) else Bad(TooDeep)
    requires ReadEntries(u, depth, |entries| - 1) ==
             if forall e | e in entries[1..] :: WithinEntry(e, MAX_DEPTH - depth)
             then Done(entries[1..], rest) else Bad(TooDeep)
    ensures ReadEntries(s, depth, |entries|) ==
            if forall e | e in entries :: WithinEntry(e, MAX_DEPTH - depth)
            then Done(entries, rest) else Bad(TooDeep)
  {
    hide ReadItem, ReadEntries, Within, WithinEntry;
    HeadAndTail(entries);
    AllWithin(entries, MAX_DEPTH - depth);
    ReadEntriesStep(entries[0], |entries|, s, t, u, depth);
  }

  lemma JoinFirst(entries: seq<Entry>)
    ensures Join(EncodeEntries(entries)) ==
            if entries == [] then []
            else Encode(entries[0].key) + Encode(entries[0].val) + Join(EncodeEntries(entries[1..]))
  {
    hide Encode;
    if entries != [] {
      assert EncodeEntries(entries)[1..] == EncodeEntries(entries[1..]);
    }
  }

  lemma JoinRest(entries: seq<Entry>, rest: Buf)
    ensures Join(EncodeEntries(entries)) + rest ==
            if entries == [] then rest
            else Encode(entries[0].key) + (Encode(entries[0].val) + (Join(EncodeEntries(entries[1..])) + rest))
  {
    hide Encode, EncodeEntries, Join;
    JoinFirst(entries);
  }

  lemma AllWithin(entries: seq<Entry>, room: int)
    requires entries != []
    ensures (forall x | x in entries :: WithinEntry(x, room)) <==>
            WithinEntry(entries[0], room) && forall x | x in entries[1..] :: WithinEntry(x, room)
  {
    hide WithinEntry;
    HeadAndTail(entries);
  }

  lemma {:induction false} JoinLength(entries: seq<Entry>)
    ensures |Join(EncodeEntries(entries))| >= 2 * |entries|
  {
    if entries != [] {
      assert EncodeEntries(entries)[1..] == EncodeEntries(entries[1..]);
      JoinLength(entries[1..]);
    }
  }

  /** The reader takes exactly an encoding, whatever follows it, and answers the
      value with its maps sorted; or refuses it for its depth alone. */
  lemma ReadEncode(v: Value, rest: Buf, depth: int)
    requires Fits(v)
    ensures ReadItem(Encode(v) + rest, depth) ==
            if Within(v, MAX_DEPTH - depth) then Done(DeepSort(v), rest) else Bad(TooDeep)
  {
    hide *;
    EncodeDeepSort(v);
    DeepSortFits(v);
    DeepSortWithin(v, MAX_DEPTH - depth);
    ReadOrdered(DeepSort(v), rest, depth);
  }

  /** Every value nests only so deep. */
  lemma {:induction false} Nests(v: Value) returns (d: nat)
    ensures Within(v, d)
    decreases v, 0
  {
    match v
    case Array(items) =>
      var below := NestsAll(items);
      d := below + 1;
    case Map(entries) =>
      var below := NestsEntries(entries);
      d := below + 1;
    case _ => d := 0;
  }

  lemma {:induction false} NestsAll(items: seq<Value>) returns (d: nat)
    ensures forall i | i in items :: Within(i, d)
    decreases items, 1
  {
    hide Within;
    if items == [] {
      d := 0;
    } else {
      HeadAndTail(items);
      var one := Nests(items[0]);
      var rest := NestsAll(items[1..]);
      d := one + rest;
      forall i | i in items ensures Within(i, d) {
        WithinMore(i, if i == items[0] then one else rest, d);
      }
    }
  }

  lemma {:induction false} NestsEntries(entries: seq<Entry>) returns (d: nat)
    ensures forall e | e in entries :: WithinEntry(e, d)
    decreases entries, 1
  {
    hide Within, WithinEntry;
    if entries == [] {
      d := 0;
    } else {
      HeadAndTail(entries);
      var one := NestsEntry(entries[0]);
      var rest := NestsEntries(entries[1..]);
      d := one + rest;
      forall e | e in entries ensures WithinEntry(e, d) {
        WithinMoreEntry(e, if e == entries[0] then one else rest, d);
      }
    }
  }

  lemma {:induction false} NestsEntry(e: Entry) returns (d: nat)
    ensures WithinEntry(e, d)
    decreases e, 1
  {
    var key := Nests(e.key);
    var val := Nests(e.val);
    d := key + val;
    WithinMore(e.key, key, d);
    WithinMore(e.val, val, d);
  }

  /** No encoding is a proper prefix of another, and distinct values differ, however
      deep they nest: read with as much room as they need. */
  lemma PrefixFree(v: Value, w: Value, r: Buf, s: Buf)
    requires Fits(v) && Fits(w) && Encode(v) + r == Encode(w) + s
    ensures DeepSort(v) == DeepSort(w) && r == s
  {
    hide *;
    var d := Nests(v);
    var e := Nests(w);
    WithinMore(v, d, d + e);
    WithinMore(w, e, d + e);
    ReadEncode(v, r, MAX_DEPTH - (d + e));
    ReadEncode(w, s, MAX_DEPTH - (d + e));
  }

  lemma {:induction false} DeepSortOrdered(v: Value)
    requires Ordered(v)
    ensures DeepSort(v) == v
    decreases v, 0
  {
    match v
    case Array(items) =>
      forall i | i in items ensures DeepSort(i) == i {
        DeepSortOrdered(i);
      }
      assert DeepSortAll(items) == items;
    case Map(entries) =>
      forall e | e in entries ensures DeepSortEntry(e).val == e {
        DeepSortOrderedEntry(e);
      }
      DeepSortOrderedMap(entries);
    case _ =>
  }

  lemma DeepSortOrderedMap(entries: seq<Entry>)
    requires Sorted(EncodeEntries(entries))
    requires forall e | e in entries :: DeepSortEntry(e).val == e
    ensures DeepSort(Map(entries)) == Map(entries)
  {
    hide Encode, EncodeEntries, DeepSortEntries, Sort;
    var d := DeepSortEntries(entries);
    assert forall i :: 0 <= i < |d| ==> d[i].key == EncodeEntries(entries)[i].key;
    SortOfSorted(d);
    assert Vals(d) == entries;
  }

  lemma {:induction false} DeepSortOrderedEntry(e: Entry)
    requires OrderedEntry(e)
    ensures DeepSortEntry(e).val == e
    decreases e, 1
  {
    DeepSortOrdered(e.key);
    DeepSortOrdered(e.val);
  }

  /** Among values in order, only equal ones encode alike. */
  lemma EncodeInjective(v: Value, w: Value)
    requires Fits(v) && Ordered(v) && Fits(w) && Ordered(w)
    ensures Encode(v) == Encode(w) <==> v == w
  {
    if Encode(v) == Encode(w) {
      PrefixFree(v, w, [], []);
    }
    DeepSortOrdered(v);
    DeepSortOrdered(w);
  }

  // The duplicate scan.

  lemma {:induction false} WithinMore(v: Value, c: int, d: int)
    requires Within(v, c) && c <= d
    ensures Within(v, d)
    decreases v, 0
  {
    match v
    case Array(items) =>
      forall i | i in items ensures Within(i, d - 1) {
        WithinMore(i, c - 1, d - 1);
      }
    case Map(entries) =>
      forall e | e in entries ensures WithinEntry(e, d - 1) {
        WithinMoreEntry(e, c - 1, d - 1);
      }
    case _ =>
  }

  lemma {:induction false} WithinMoreEntry(e: Entry, c: int, d: int)
    requires WithinEntry(e, c) && c <= d
    ensures WithinEntry(e, d)
    decreases e, 1
  {
    WithinMore(e.key, c, d);
    WithinMore(e.val, c, d);
  }

  /** Sorted with no two neighbours alike is strictly ascending, so a scan of
      neighbours finds every duplicate. */
  lemma {:induction false} ScanIsEnough(v: Value)
    requires Fits(v)
    ensures Ascending(v) <==> Ordered(v) && !HasDuplicateKeys(v)
    decreases v, 0
  {
    match v
    case Array(items) =>
      forall i | i in items ensures Ascending(i) <==> Ordered(i) && !HasDuplicateKeys(i) {
        ScanIsEnough(i);
      }
      assert forall i :: 0 <= i < |items| ==> items[i] in items;
    case Map(entries) =>
      forall e | e in entries ensures AscendingEntry(e) <==> OrderedEntry(e) && !DuplicatesInside(e) {
        ScanIsEnoughEntry(e);
      }
      ScanInside(entries);
      if forall e | e in entries :: OrderedEntry(e) {
        ScanKeys(entries);
      }
    case _ =>
  }

  lemma ScanInside(entries: seq<Entry>)
    ensures HasDuplicateKeys(Map(entries)) <==>
            || (exists i :: 0 <= i < |entries| - 1 && entries[i].key == entries[i + 1].key)
            || (exists e | e in entries :: DuplicatesInside(e))
  {
    assert forall i :: 0 <= i < |entries| ==> entries[i] in entries;
  }

  predicate DuplicatesInside(e: Entry) {
    HasDuplicateKeys(e.key) || HasDuplicateKeys(e.val)
  }

  lemma {:induction false} ScanIsEnoughEntry(e: Entry)
    requires FitsEntry(e)
    ensures AscendingEntry(e) <==> OrderedEntry(e) && !DuplicatesInside(e)
    decreases e, 1
  {
    ScanIsEnough(e.key);
    ScanIsEnough(e.val);
  }

  lemma ScanKeys(entries: seq<Entry>)
    requires forall e | e in entries :: Fits(e.key) && Ordered(e.key)
    ensures Strict(EncodeEntries(entries)) <==>
            Sorted(EncodeEntries(entries)) && forall i :: 0 <= i < |entries| - 1 ==>
              entries[i].key != entries[i + 1].key
  {
    hide Encode, Fits, Ordered, Strict, Sorted, EncodeEntries;
    var p := EncodeEntries(entries);
    forall i | 0 <= i < |entries| - 1 ensures p[i].key == p[i + 1].key <==> entries[i].key == entries[i + 1].key {
      assert entries[i] in entries && entries[i + 1] in entries;
      EncodeInjective(entries[i].key, entries[i + 1].key);
    }
    StrictByNeighbours(p);
  }

  // The decoder.

  lemma {:induction false} ReadFits(s: Buf, depth: int)
    ensures ReadItem(s, depth).Done? ==> Fits(ReadItem(s, depth).value)
    decreases MAX_DEPTH + 1 - depth, 0
  {
    hide ReadItems, ReadEntries, ReadHead, FitsEntry;
    if depth <= MAX_DEPTH && ReadHead(s).Done? {
      var h := ReadHead(s);
      ReadFitsAll(h.rest, depth + 1, h.value.1);
    }
  }

  lemma {:induction false} ReadFitsAll(s: Buf, depth: int, count: nat)
    ensures var r := ReadItems(s, depth, count); r.Done? ==> forall i | i in r.value :: Fits(i)
    ensures var r := ReadEntries(s, depth, count);
            r.Done? ==> forall e | e in r.value :: FitsEntry(e)
    decreases MAX_DEPTH + 1 - depth, 1 + count
  {
    if count > 0 {
      var first := ReadItem(s, depth);
      ReadFits(s, depth);
      if first.Done? {
        ReadFitsAll(first.rest, depth, count - 1);
        var val := ReadItem(first.rest, depth);
        ReadFits(first.rest, depth);
        if val.Done? {
          ReadFitsAll(val.rest, depth, count - 1);
        }
      }
    }
  }

  /** What decoding an encoding answers, for every value there is. */
  lemma DecodeEncode(v: Value)
    requires Fits(v)
    ensures DecodeCanonical(Encode(v)) ==
            if !Within(v, MAX_DEPTH) then Err(TooDeep)
            else if HasDuplicateKeys(DeepSort(v)) then Err(NotCanonical)
            else Ok(DeepSort(v))
  {
    hide ReadItem, Encode, DeepSort, Within, HasDuplicateKeys, Fits, Ordered;
    ReadEncode(v, [], 0);
    assert Encode(v) + [] == Encode(v);
    EncodeDeepSort(v);
  }

  /** The decoder and the encoder are inverse: the decoder accepts exactly the
      encodings of the canonical values, and answers the value each encodes. */
  lemma DecodeIff(bytes: Buf, v: Value)
    ensures DecodeCanonical(bytes) == Ok(v) <==> IsCanonical(v) && Encode(v) == bytes
  {
    if DecodeCanonical(bytes) == Ok(v) {
      ReadFits(bytes, 0);
      DecodeEncode(v);
      EncodeDeepSort(v);
      ScanIsEnough(v);
    }
    if IsCanonical(v) && Encode(v) == bytes {
      ScanIsEnough(v);
      DeepSortOrdered(v);
      DecodeEncode(v);
    }
  }
}
