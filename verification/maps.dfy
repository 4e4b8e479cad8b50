/** A canonical map is determined by the set of its entries: what building,
    signing and taking apart an object rests on. */
module Maps {
  import opened Bytes
  import opened Sorting
  import opened Cbor
  import opened Canonical

  /** The bytes of a name; every name of a field is ASCII. */
  function Name(s: string): (r: Buf)
    ensures |r| == |s| && forall i :: 0 <= i < |r| ==> r[i] == s[i] as int % 256
  {
    if s == "" then [] else [s[0] as int % 256] + Name(s[1..])
  }

  predicate Ascii(s: string) {
    forall i :: 0 <= i < |s| ==> s[i] as int < 128
  }

  lemma NameText(s: string)
    requires Ascii(s) && |s| < TWO64
    ensures Leaf(Text(Name(s)))
  {
    hide Name, Leaf, ValidUtf8;
    AsciiUtf8(Name(s));
    TextLeaf(Name(s));
  }

  lemma TextLeaf(s: Buf)
    requires ValidUtf8(s) && |s| < TWO64
    ensures Leaf(Text(s))
  {
  }

  lemma NameInjective(s: string, t: string)
    requires Ascii(s) && Ascii(t)
    ensures Name(s) == Name(t) <==> s == t
  {
    if Name(s) == Name(t) {
      assert forall i :: 0 <= i < |s| ==> Name(s)[i] == Name(t)[i] && s[i] == t[i];
    }
  }

  /** An entry that may stand in a top-level map of a canonical object. */
  ghost predicate CanonicalEntry(e: Entry) {
    FitsEntry(e) && AscendingEntry(e) && WithinEntry(e, MAX_DEPTH - 1)
  }

  /** A map whose entries are canonical, each key once, in any order. */
  ghost predicate OpenMap(v: Value) {
    && v.Map? && |v.entries| < TWO64
    && (forall e | e in v.entries :: CanonicalEntry(e))
    && KeysApart(v.entries)
  }

  ghost predicate KeysApart(es: seq<Entry>) {
    forall i, j :: 0 <= i < j < |es| ==> es[i].key != es[j].key
  }

  lemma OrderedIfAscending(e: Entry)
    requires CanonicalEntry(e)
    ensures OrderedEntry(e) && DeepSortEntry(e).val == e
    ensures Within(e.key, MAX_DEPTH) && Within(e.val, MAX_DEPTH)
  {
    ScanIsEnoughEntry(e);
    WithinMoreEntry(e, MAX_DEPTH - 1, MAX_DEPTH);
    DeepSortOrderedEntry(e);
  }

  lemma KeysEncodeApart(a: Entry, b: Entry)
    requires CanonicalEntry(a) && CanonicalEntry(b)
    ensures Encode(a.key) == Encode(b.key) <==> a.key == b.key
  {
    OrderedIfAscending(a);
    OrderedIfAscending(b);
    EncodeInjective(a.key, b.key);
  }

  lemma OpenDistinct(v: Value)
    requires OpenMap(v)
    ensures DistinctKeys(EncodeEntries(v.entries))
    ensures DistinctKeys(DeepSortEntries(v.entries))
    ensures forall e | e in v.entries :: DeepSortEntry(e).val == e
  {
    hide CanonicalEntry, Encode, EncodeEntries, DeepSortEntries;
    var es := v.entries;
    forall e | e in es ensures DeepSortEntry(e).val == e {
      OrderedIfAscending(e);
    }
    forall i, j | 0 <= i < j < |es| ensures Encode(es[i].key) != Encode(es[j].key) {
      KeysEncodeApart(es[i], es[j]);
    }
  }

  /** Read back, an open map is its entries in canonical order. */
  lemma OpenCanonical(v: Value)
    requires OpenMap(v)
    ensures var c := DeepSort(v);
            && IsCanonical(c) && c.Map? && Encode(c) == Encode(v)
            && |c.entries| == |v.entries|
            && (forall e :: e in c.entries <==> e in v.entries)
            && DecodeCanonical(Encode(v)) == Ok(c)
  {
    hide CanonicalEntry, Encode, EncodeEntries, DeepSortEntries, Sort, HasDuplicateKeys, DecodeCanonical;
    var es := v.entries;
    var c := DeepSort(v);
    OpenDistinct(v);
    DeepSortMembers(es);
    forall e ensures e in c.entries <==> e in es {
      if e in es { assert DeepSortEntry(e).val in c.entries; }
    }
    EncodeDeepSort(v);
    SortDistinct(DeepSortEntries(es));
    OpenSorted(es);
    OpenEntriesFit(c);
    DecodeIff(Encode(c), c);
  }

  lemma OpenSorted(es: seq<Entry>)
    requires forall e | e in es :: DeepSortEntry(e).val == e
    requires Strict(Sort(DeepSortEntries(es)))
    ensures Strict(EncodeEntries(DeepSort(Map(es)).entries))
  {
    hide Encode, EncodeEntries, DeepSortEntries, Sort;
    var d := DeepSortEntries(es);
    var s := Sort(d);
    SortMembers(d);
    var r := DeepSort(Map(es)).entries;
    forall i | 0 <= i < |r| ensures EncodeEntries(r)[i].key == s[i].key {
      assert s[i] in s && s[i] in d;
      var j :| 0 <= j < |d| && d[j] == s[i];
      assert es[j] in es;
    }
  }

  lemma OpenEntriesFit(c: Value)
    requires c.Map? && |c.entries| < TWO64 && Strict(EncodeEntries(c.entries))
    requires forall e | e in c.entries :: CanonicalEntry(e)
    ensures IsCanonical(c)
  {
    hide Encode, EncodeEntries;
  }

  lemma CanonicalIsOpen(v: Value)
    requires IsCanonical(v) && v.Map?
    ensures OpenMap(v)
    ensures DeepSort(v) == v
  {
    hide Encode, EncodeEntries, DeepSort;
    var es := v.entries;
    var p := EncodeEntries(es);
    forall i, j | 0 <= i < j < |es| ensures es[i].key != es[j].key {
      assert LexLt(p[i].key, p[j].key);
    }
    ScanIsEnough(v);
    DeepSortOrdered(v);
  }

  // Maps not yet in order inside.

  /** A map's entries may be put in order before more are pushed onto it. */
  lemma DeepSortTwice(es: seq<Entry>, fs: seq<Entry>)
    requires OpenMap(Map(DeepSort(Map(es)).entries + fs))
    ensures DeepSort(Map(DeepSort(Map(es)).entries + fs)) == DeepSort(Map(es + fs))
    ensures Encode(Map(DeepSort(Map(es)).entries + fs)) == Encode(Map(es + fs))
  {
    hide Encode, DeepSortEntries, Sort, OpenMap, DistinctKeys;
    var us := DeepSort(Map(es)).entries;
    OpenDistinct(Map(us + fs));
    DeepSortedAgain(es);
    DeepSortAppend(us, fs);
    DeepSortAppend(es, fs);
    SortTwice(DeepSortEntries(es), DeepSortEntries(fs));
    EncodeDeepSort(Map(us + fs));
    EncodeDeepSort(Map(es + fs));
  }

  lemma DeepSortAppend(es: seq<Entry>, fs: seq<Entry>)
    ensures DeepSortEntries(es + fs) == DeepSortEntries(es) + DeepSortEntries(fs)
  {
    hide DeepSortEntry, DeepSortEntries;
  }

  lemma DeepSortedAgain(es: seq<Entry>)
    ensures DeepSortEntries(DeepSort(Map(es)).entries) == Sort(DeepSortEntries(es))
  {
    hide Encode, DeepSortEntry, Sort, DeepSortEntries;
    var d := DeepSortEntries(es);
    var s := Sort(d);
    var us := DeepSort(Map(es)).entries;
    forall i | 0 <= i < |us| ensures DeepSortEntries(us)[i] == s[i] {
      assert s[i] in multiset(s) && s[i] in multiset(d);
      var j :| 0 <= j < |d| && d[j] == s[i];
      EntrySortedAgain(es[j]);
    }
  }

  lemma EntrySortedAgain(e: Entry)
    ensures DeepSortEntry(DeepSortEntry(e).val) == DeepSortEntry(e)
  {
    hide Encode, DeepSort, Ordered;
    EncodeDeepSort(e.key);
    EncodeDeepSort(e.val);
    DeepSortOrdered(DeepSort(e.key));
    DeepSortOrdered(DeepSort(e.val));
  }

  /** What is found once a map is sorted through and through. */
  lemma DeepSortGet(v: Value, name: Buf)
    requires v.Map? && OpenMap(DeepSort(v))
    ensures var x := Get(v, name);
            Get(DeepSort(v), name) == if x.None? then None else Some(DeepSort(x.value))
  {
    hide OpenMap, Encode, Sort, DeepSortEntries, Find;
    var u := DeepSort(v);
    DeepSortMembers(v.entries);
    GetMember(u, name);
    FindFirst(v.entries, name);
    if Get(v, name).Some? {
      var e := Entry(Text(name), Get(v, name).value);
      assert DeepSortEntry(e).val == Entry(Text(name), DeepSort(e.val));
      assert Entry(Text(name), DeepSort(e.val)) in u.entries;
    } else if Get(u, name).Some? {
      var e :| e in v.entries && Entry(Text(name), Get(u, name).value) == DeepSortEntry(e).val;
      TextAsWas(e);
    }
  }

  lemma TextAsWas(e: Entry)
    ensures DeepSortEntry(e).val.key.Text? ==> DeepSortEntry(e).val.key == e.key
  {
  }

  lemma {:induction false} FindFirst(es: seq<Entry>, name: Buf)
    ensures Find(es, name).Some? ==> Entry(Text(name), Find(es, name).value) in es
    ensures Find(es, name).None? ==> forall e | e in es :: e.key != Text(name)
  {
    if es != [] {
      FindFirst(es[1..], name);
      HeadAndTail(es);
    }
  }

  /** A map in canonical order once more is pushed onto it was so before, and had
      none of the keys pushed. */
  lemma PushedApart(es: seq<Entry>, fs: seq<Entry>)
    requires IsCanonical(DeepSort(Map(es + fs)))
    ensures IsCanonical(DeepSort(Map(es)))
    ensures forall e, f | e in es && f in fs :: e.key != f.key
  {
    hide CanonicalEntry, Encode, EncodeEntries, DeepSortEntries, DeepSortEntry, Sort, Strict, DistinctKeys, Fits;
    var u, w := DeepSort(Map(es)), DeepSort(Map(es + fs));
    DeepSortedEntries(es);
    DeepSortedEntries(es + fs);
    StrictApart(Sort(EncodeEntries(es + fs)));
    SortedApart(EncodeEntries(es + fs));
    EncodedApart(es, fs);
    SortDistinct(EncodeEntries(es));
    CanonicalIsOpen(w);
    DeepSortMembers(es);
    DeepSortMembers(es + fs);
    OpenEntriesFit(u);
  }

  lemma EncodedApart(es: seq<Entry>, fs: seq<Entry>)
    requires DistinctKeys(EncodeEntries(es + fs))
    ensures DistinctKeys(EncodeEntries(es))
    ensures forall e, f | e in es && f in fs :: e.key != f.key
  {
    hide Encode, EncodeEntries;
    var p, all := EncodeEntries(es), EncodeEntries(es + fs);
    assert forall i :: 0 <= i < |es| ==> p[i] == all[i];
    forall e, f | e in es && f in fs ensures e.key != f.key {
      var i :| 0 <= i < |es| && es[i] == e;
      var j :| 0 <= j < |fs| && fs[j] == f;
      assert all[i] == EncodeEntry(e) && all[|es| + j] == EncodeEntry(f);
    }
  }

  /** A key of `es` is there twice, once both are sorted, or is a key of `fs`. */
  ghost predicate Clash(es: seq<Entry>, fs: seq<Entry>) {
    HasDuplicateKeys(DeepSort(Map(es))) || exists e, f :: e in es && f in fs && e.key == f.key
  }

  /** Entries that may be pushed onto a map, under names. */
  ghost predicate Pushable(fs: seq<Entry>) {
    KeysApart(fs) && forall f | f in fs :: f.key.Text? && CanonicalEntry(f)
  }

  /** What a map reads back as once more is pushed onto it, whatever it holds. */
  lemma PushedDecodes(es: seq<Entry>, fs: seq<Entry>)
    requires Fits(Map(es)) && |es| + |fs| < TWO64 && Pushable(fs)
    ensures DecodeCanonical(Encode(Map(es + fs))) ==
            if !Within(Map(es), MAX_DEPTH) then Err(TooDeep)
            else if Clash(es, fs) then Err(NotCanonical)
            else Ok(DeepSort(Map(es + fs)))
    ensures Within(Map(es), MAX_DEPTH) && !Clash(es, fs) ==>
              OpenMap(DeepSort(Map(es))) && OpenMap(Map(DeepSort(Map(es)).entries + fs))
  {
    hide Encode, DeepSort, DecodeCanonical, Fits, Within, HasDuplicateKeys, OpenMap, IsCanonical, Clash, Pushable;
    var u, w := DeepSort(Map(es)), DeepSort(Map(es + fs));
    PushedWithin(es, fs);
    DecodeEncode(Map(es + fs));
    SortedMap(es);
    if Within(Map(es), MAX_DEPTH) {
      SortedCanonical(Map(es));
      SortedCanonical(Map(es + fs));
      if IsCanonical(w) {
        PushedApart(es, fs);
        NoClash(es, fs);
      }
      if !Clash(es, fs) {
        ClashFree(es, fs);
        PushedOpen(es, fs);
        DeepSortTwice(es, fs);
        OpenCanonical(Map(u.entries + fs));
      }
    }
  }

  lemma SortedMap(es: seq<Entry>)
    ensures DeepSort(Map(es)).Map? && |DeepSort(Map(es)).entries| == |es|
  {
  }

  lemma PushedWithin(es: seq<Entry>, fs: seq<Entry>)
    requires Fits(Map(es)) && |es| + |fs| < TWO64 && Pushable(fs)
    ensures Fits(Map(es + fs))
    ensures Within(Map(es + fs), MAX_DEPTH) <==> Within(Map(es), MAX_DEPTH)
  {
    hide FitsEntry, AscendingEntry, WithinEntry;
    assert forall e :: e in es + fs <==> e in es || e in fs;
  }

  /** A value is canonical once sorted unless it nests too deep or names a key twice. */
  lemma SortedCanonical(v: Value)
    requires Fits(v)
    ensures IsCanonical(DeepSort(v)) <==> Within(v, MAX_DEPTH) && !HasDuplicateKeys(DeepSort(v))
  {
    hide Fits, Within, HasDuplicateKeys, DeepSort, Ascending, Ordered, Encode;
    DeepSortFits(v);
    DeepSortWithin(v, MAX_DEPTH);
    EncodeDeepSort(v);
    ScanIsEnough(DeepSort(v));
  }

  lemma OnePushable(e: Entry)
    requires e.key.Text? && CanonicalEntry(e)
    ensures Pushable([e])
  {
    hide CanonicalEntry;
  }

  lemma TwoPushable(e: Entry, f: Entry)
    requires e.key.Text? && CanonicalEntry(e) && f.key.Text? && CanonicalEntry(f) && e.key != f.key
    ensures Pushable([e, f])
  {
    hide CanonicalEntry;
  }

  lemma ClashFound(es: seq<Entry>, fs: seq<Entry>)
    requires Pushable(fs)
    ensures Clash(es, fs) <==> HasDuplicateKeys(DeepSort(Map(es))) || exists f :: f in fs && Find(es, f.key.s).Some?
  {
    hide HasDuplicateKeys, DeepSort, CanonicalEntry, KeysApart, Find;
    forall f | f in fs ensures Find(es, f.key.s).Some? <==> exists e :: e in es && e.key == f.key {
      FindFirst(es, f.key.s);
    }
  }

  lemma NoClash(es: seq<Entry>, fs: seq<Entry>)
    requires !HasDuplicateKeys(DeepSort(Map(es))) && forall e, f | e in es && f in fs :: e.key != f.key
    ensures !Clash(es, fs)
  {
    hide HasDuplicateKeys, DeepSort;
  }

  lemma ClashFree(es: seq<Entry>, fs: seq<Entry>)
    requires !Clash(es, fs)
    ensures !HasDuplicateKeys(DeepSort(Map(es))) && forall e, f | e in es && f in fs :: e.key != f.key
  {
    hide HasDuplicateKeys, DeepSort;
  }

  lemma PushedOpen(es: seq<Entry>, fs: seq<Entry>)
    requires IsCanonical(DeepSort(Map(es))) && |es| + |fs| < TWO64 && Pushable(fs)
    requires forall e, f | e in es && f in fs :: e.key != f.key
    ensures OpenMap(DeepSort(Map(es))) && OpenMap(Map(DeepSort(Map(es)).entries + fs))
  {
    hide CanonicalEntry, IsCanonical, Encode, Sort, DeepSortEntries;
    var us := DeepSort(Map(es)).entries;
    CanonicalIsOpen(DeepSort(Map(es)));
    DeepSortMembers(es);
    forall x, f | x in us && f in fs ensures x.key != f.key {
      var e :| e in es && x == DeepSortEntry(e).val;
      TextAsWas(e);
    }
    BothApart(us, fs);
  }

  lemma BothApart(es: seq<Entry>, fs: seq<Entry>)
    requires KeysApart(es) && KeysApart(fs) && forall e, f | e in es && f in fs :: e.key != f.key
    ensures KeysApart(es + fs)
  {
    var all := es + fs;
    forall i, j | 0 <= i < j < |all| ensures all[i].key != all[j].key {
      if i < |es| <= j {
        assert all[i] in es && all[j] in fs;
      }
    }
  }

  /** Two maps holding the same entries encode to the same bytes. */
  lemma SameEntriesEncode(v: Value, w: Value)
    requires OpenMap(v) && OpenMap(w)
    requires forall e :: e in v.entries <==> e in w.entries
    ensures Encode(v) == Encode(w) && DeepSort(v) == DeepSort(w)
  {
    hide CanonicalEntry, Encode, EncodeEntries, DeepSortEntries, DecodeCanonical, Sort;
    OpenCanonical(v);
    OpenCanonical(w);
    var a, b := DeepSort(v), DeepSort(w);
    var p, q := EncodeEntries(a.entries), EncodeEntries(b.entries);
    var d, f := DeepSortEntries(v.entries), DeepSortEntries(w.entries);
    OpenDistinct(v);
    OpenDistinct(w);
    DeepSortSame(v.entries, w.entries);
    SortUnique(d, f);
  }

  lemma DeepSortSame(es: seq<Entry>, fs: seq<Entry>)
    requires forall e :: e in es <==> e in fs
    ensures forall x :: x in DeepSortEntries(es) <==> x in DeepSortEntries(fs)
  {
    hide Encode, DeepSortEntries;
    var d, f := DeepSortEntries(es), DeepSortEntries(fs);
    forall x ensures x in d <==> x in f {
      if x in d {
        var i :| 0 <= i < |d| && d[i] == x;
        assert es[i] in fs;
        var j :| 0 <= j < |fs| && fs[j] == es[i];
        assert f[j] == x;
      }
      if x in f {
        var i :| 0 <= i < |f| && f[i] == x;
        assert fs[i] in es;
        var j :| 0 <= j < |es| && es[j] == fs[i];
        assert d[j] == x;
      }
    }
  }

  /** A lookup in an open map finds the entry under the name if there is one. */
  lemma GetMember(v: Value, name: Buf)
    requires OpenMap(v)
    ensures Get(v, name).Some? ==> Entry(Text(name), Get(v, name).value) in v.entries
    ensures forall x :: Entry(Text(name), x) in v.entries ==> Get(v, name) == Some(x)
  {
    hide CanonicalEntry;
    FindMember(v.entries, name);
  }

  lemma {:induction false} FindMember(es: seq<Entry>, name: Buf)
    requires KeysApart(es)
    ensures Find(es, name).Some? ==> Entry(Text(name), Find(es, name).value) in es
    ensures forall x :: Entry(Text(name), x) in es ==> Find(es, name) == Some(x)
  {
    if es != [] {
      FindMember(es[1..], name);
      HeadAndTail(es);
    }
  }

  lemma SameUnderName(v: Value, w: Value, name: Buf)
    requires OpenMap(v) && OpenMap(w)
    requires forall x :: Entry(Text(name), x) in v.entries <==> Entry(Text(name), x) in w.entries
    ensures Get(v, name) == Get(w, name)
  {
    hide OpenMap;
    GetMember(v, name);
    GetMember(w, name);
    assert Get(v, name).Some? ==> Entry(Text(name), Get(v, name).value) in w.entries;
  }

  /** So two maps holding the same entries answer every lookup alike. */
  lemma SameEntriesGet(v: Value, w: Value, name: Buf)
    requires OpenMap(v) && OpenMap(w)
    requires forall e :: e in v.entries <==> e in w.entries
    ensures Get(v, name) == Get(w, name)
  {
    SameUnderName(v, w, name);
  }

  lemma {:induction false} DropDistinct(es: seq<Entry>, name: Buf)
    requires KeysApart(es)
    ensures KeysApart(Drop(es, name))
  {
    if es != [] {
      DropDistinct(es[1..], name);
      var r := Drop(es[1..], name);
      forall e | e in r ensures es[0].key != e.key {
        var k :| 1 <= k < |es| && es[k] == e;
      }
      var all := Drop(es, name);
      if !IsKey(es[0].key, name) {
        assert all == [es[0]] + r;
        forall i, j | 0 <= i < j < |all| ensures all[i].key != all[j].key {
          assert all[j] == r[j - 1] && r[j - 1] in r;
          if i > 0 {
            assert all[i] == r[i - 1];
          }
        }
      }
    }
  }

  lemma WithoutOpen(v: Value, name: Buf)
    requires OpenMap(v)
    ensures OpenMap(Without(v, name)) && Get(Without(v, name), name).None?
    ensures |Without(v, name).entries| <= |v.entries|
    ensures forall other: Buf | other != name :: Get(Without(v, name), other) == Get(v, other)
  {
    hide CanonicalEntry;
    DropDistinct(v.entries, name);
    var w := Without(v, name);
    GetMember(w, name);
    forall other: Buf | other != name ensures Get(w, other) == Get(v, other) {
      SameUnderName(v, w, other);
    }
  }

  /** `v` with one more entry pushed onto it. */
  function Push(v: Value, name: Buf, x: Value): Value
    requires v.Map?
  {
    Map(v.entries + [Entry(Text(name), x)])
  }

  /** A value a map may hold under a name of ordinary size. */
  ghost predicate Leaf(x: Value) {
    Fits(x) && Ascending(x) && Within(x, MAX_DEPTH - 1)
  }

  lemma SmallLeaf(b: Buf)
    requires |b| < TWO64
    ensures Leaf(Blob(b))
  {
  }

  lemma NumberLeaf(n: U64)
    ensures Leaf(Uint(n)) && Leaf(Bool(true))
  {
  }

  lemma LeafEntry(e: Entry)
    ensures CanonicalEntry(e) <==> Leaf(e.key) && Leaf(e.val)
  {
    hide Fits, Ascending, Within;
  }

  lemma PushOpen(v: Value, name: Buf, x: Value)
    requires OpenMap(v) && Get(v, name).None? && Leaf(Text(name)) && Leaf(x)
    requires |v.entries| + 1 < TWO64
    ensures OpenMap(Push(v, name, x))
    ensures Get(Push(v, name, x), name) == Some(x)
    ensures forall other: Buf | other != name :: Get(Push(v, name, x), other) == Get(v, other)
  {
    var es := v.entries;
    var e := Entry(Text(name), x);
    LeafEntry(e);
    hide CanonicalEntry, Leaf;
    GetMember(v, name);
    forall i | 0 <= i < |es| ensures es[i].key != e.key {
      assert es[i] in es && es[i] == Entry(es[i].key, es[i].val);
    }
    var w := Push(v, name, x);
    GetMember(w, name);
    forall other: Buf | other != name ensures Get(w, other) == Get(v, other) {
      SameUnderName(v, w, other);
    }
  }

  /** The value a lookup answers could be pushed onto another map. */
  lemma GetLeaf(v: Value, name: Buf)
    requires OpenMap(v) && Get(v, name).Some?
    ensures Leaf(Get(v, name).value) && Leaf(Text(name))
  {
    hide CanonicalEntry;
    GetMember(v, name);
    LeafEntry(Entry(Text(name), Get(v, name).value));
  }

  /** Taking out an entry and pushing what it held gives back the same entries. */
  lemma PushBack(v: Value, name: Buf)
    requires OpenMap(v) && Get(v, name).Some?
    ensures var w := Push(Without(v, name), name, Get(v, name).value);
            && OpenMap(w) && |Without(v, name).entries| + 1 == |v.entries|
            && forall e :: e in w.entries <==> e in v.entries
  {
    hide CanonicalEntry;
    var x := Get(v, name).value;
    var u := Without(v, name);
    WithoutOpen(v, name);
    GetMember(v, name);
    GetLeaf(v, name);
    DropOne(v.entries, name);
    PushOpen(u, name, x);
    var w := Push(u, name, x);
    forall e ensures e in w.entries <==> e in v.entries {
      if e in v.entries && IsKey(e.key, name) {
        assert e == Entry(Text(name), e.val);
      }
    }
  }

  lemma {:induction false} DropOne(es: seq<Entry>, name: Buf)
    requires KeysApart(es)
    ensures |Drop(es, name)| == if Find(es, name).Some? then |es| - 1 else |es|
    ensures Find(es, name).None? ==> Drop(es, name) == es
  {
    if es != [] {
      assert KeysApart(es[1..]);
      DropOne(es[1..], name);
      FindMember(es[1..], name);
      forall e | e in es[1..] ensures e.key != es[0].key {
        var j :| 1 <= j < |es| && es[j] == e;
      }
    }
  }

  /** Dropping a name that was pushed last leaves what was there. */
  lemma DropPushed(v: Value, name: Buf, x: Value)
    requires v.Map? && OpenMap(v) && Get(v, name).None?
    ensures Without(Push(v, name, x), name) == v
  {
    hide CanonicalEntry;
    DropOne(v.entries, name);
    DropAppend(v.entries, Entry(Text(name), x), name);
  }

  lemma {:induction false} DropAppend(es: seq<Entry>, e: Entry, name: Buf)
    ensures Drop(es + [e], name) == Drop(es, name) + (if IsKey(e.key, name) then [] else [e])
  {
    if es != [] {
      assert (es + [e])[1..] == es[1..] + [e];
      DropAppend(es[1..], e, name);
    }
  }
}
