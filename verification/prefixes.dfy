/** What the decoder makes of bytes cut short or run on: a canonical encoding cut
    anywhere is refused as truncated, and one with more after it as trailing. */
module Prefixes {
  import opened Bytes
  import opened Sorting
  import opened Cbor
  import opened Canonical

  /** `s` cut short. */
  ghost predicate IsCut(p: Buf, s: Buf) {
    |p| < |s| && p == s[..|p|]
  }

  lemma CutOf(p: Buf, a: Buf, b: Buf)
    requires IsCut(p, a + b)
    ensures IsCut(p, a) || (|a| <= |p| && p == a + p[|a|..] && IsCut(p[|a|..], b))
  {
    if |p| < |a| {
      assert p == a[..|p|];
    } else {
      assert p[..|a|] == a && p[|a|..] == b[..|p| - |a|];
    }
  }

  lemma CutHead(p: Buf, major: nat, n: nat, depth: int)
    requires major < 7 && n < TWO64 && depth <= MAX_DEPTH && IsCut(p, Head(major, n))
    ensures ReadItem(p, depth) == Bad(Truncated)
  {
    hide ToBe, FromBe, Pow256, ReadBody;
    if p != [] {
      assert p[0] == Head(major, n)[0];
    }
  }

  /** A cut item is cut in its head or after it. */
  lemma CutAfterHead(p: Buf, major: nat, n: nat, body: Buf, depth: int)
    requires major < 7 && n < TWO64 && depth <= MAX_DEPTH && IsCut(p, Head(major, n) + body)
    ensures var k := |Head(major, n)|;
            if |p| < k then ReadItem(p, depth) == Bad(Truncated)
            else IsCut(p[k..], body) && ReadItem(p, depth) == ReadBody(Head(major, n)[0], major, n, p[k..], depth)
  {
    hide Head, ReadItem, ReadBody;
    CutOf(p, Head(major, n), body);
    if |p| < |Head(major, n)| {
      CutHead(p, major, n, depth);
    } else {
      ReadHeaded(major, n, p[|Head(major, n)|..], depth);
    }
  }

  lemma {:induction false} CutItem(v: Value, p: Buf, depth: int)
    requires Fits(v) && Ordered(v) && Within(v, MAX_DEPTH - depth) && IsCut(p, Encode(v))
    ensures ReadItem(p, depth) == Bad(Truncated)
    decreases v, 0
  {
    hide ReadItem, ReadItems, ReadEntries, Head, EncodeAll, EncodeEntries, Join, Sort, IsCut;
    match v
    case Uint(n) => CutUint(n, p, depth);
    case Blob(b) => CutAfterHead(p, 2, |b|, b, depth); CutShorter(p, 2, b);
    case Text(s) => CutAfterHead(p, 3, |s|, s, depth); CutShorter(p, 3, s);
    case Array(items) =>
      CutAfterHead(p, 4, |items|, EncodeAll(items), depth);
      if |p| >= |Head(4, |items|)| {
        CutAll(items, p[|Head(4, |items|)|..], depth + 1);
      }
    case Map(entries) =>
      SortOfSorted(EncodeEntries(entries));
      CutAfterHead(p, 5, |entries|, Join(EncodeEntries(entries)), depth);
      if |p| >= |Head(5, |entries|)| {
        CutEntries(entries, p[|Head(5, |entries|)|..], depth + 1);
      }
    case Bool(on) => CutBool(on, p, depth);
  }

  lemma CutUint(n: U64, p: Buf, depth: int)
    requires depth <= MAX_DEPTH && IsCut(p, Encode(Uint(n)))
    ensures ReadItem(p, depth) == Bad(Truncated)
  {
    hide Head, ReadItem;
    CutHead(p, 0, n, depth);
  }

  lemma CutBool(on: bool, p: Buf, depth: int)
    requires depth <= MAX_DEPTH && IsCut(p, Encode(Bool(on)))
    ensures ReadItem(p, depth) == Bad(Truncated)
  {
    assert p == [];
  }

  lemma CutShorter(p: Buf, major: nat, body: Buf)
    requires major < 8
    ensures var k := |Head(major, |body|)|; |p| >= k && IsCut(p[k..], body) ==> |p[k..]| < |body|
  {
    hide Head;
  }

  lemma {:induction false} CutAll(items: seq<Value>, p: Buf, depth: int)
    requires forall i | i in items :: Fits(i) && Ordered(i) && Within(i, MAX_DEPTH - depth)
    requires IsCut(p, EncodeAll(items))
    ensures ReadItems(p, depth, |items|) == Bad(Truncated)
    decreases items, 1
  {
    hide ReadItem, Encode, Fits, Ordered, Within;
    var first := items[0];
    CutOf(p, Encode(first), EncodeAll(items[1..]));
    if |p| < |Encode(first)| {
      CutItem(first, p, depth);
    } else {
      ReadOrdered(first, p[|Encode(first)|..], depth);
      CutAll(items[1..], p[|Encode(first)|..], depth);
    }
  }

  lemma {:induction false} CutEntries(entries: seq<Entry>, p: Buf, depth: int)
    requires forall e | e in entries :: FitsEntry(e) && OrderedEntry(e) && WithinEntry(e, MAX_DEPTH - depth)
    requires IsCut(p, Join(EncodeEntries(entries)))
    ensures ReadEntries(p, depth, |entries|) == Bad(Truncated)
    decreases entries, 2
  {
    hide ReadItem, Encode, EncodeEntries, FitsEntry, OrderedEntry, WithinEntry, IsCut;
    JoinFirst(entries);
    NoneIsCut(p);
    var e := entries[0];
    var more := Join(EncodeEntries(entries[1..]));
    assert e in entries;
    assert Encode(e.key) + Encode(e.val) + more == Encode(e.key) + (Encode(e.val) + more);
    CutEntry(e, p, more, depth);
    var k := |Encode(e.key)| + |Encode(e.val)|;
    if k <= |p| && IsCut(p[k..], more) {
      CutEntries(entries[1..], p[k..], depth);
    }
  }

  lemma NoneIsCut(p: Buf)
    ensures !IsCut(p, [])
  {
  }

  /** An entry cut in its key, in its value, or after both. */
  lemma {:induction false} CutEntry(e: Entry, p: Buf, more: Buf, depth: int)
    requires FitsEntry(e) && OrderedEntry(e) && WithinEntry(e, MAX_DEPTH - depth)
    requires IsCut(p, Encode(e.key) + (Encode(e.val) + more))
    ensures ReadItem(p, depth) == Bad(Truncated) ||
            (|Encode(e.key)| <= |p| &&
             var q := p[|Encode(e.key)|..];
             ReadItem(p, depth) == Done(e.key, q) &&
             (ReadItem(q, depth) == Bad(Truncated) ||
              (|Encode(e.val)| <= |q| && IsCut(p[|Encode(e.key)| + |Encode(e.val)|..], more) &&
               ReadItem(q, depth) == Done(e.val, p[|Encode(e.key)| + |Encode(e.val)|..]))))
    decreases e, 1
  {
    hide ReadItem, Encode, Fits, Ordered, Within, IsCut;
    CutOf(p, Encode(e.key), Encode(e.val) + more);
    if IsCut(p, Encode(e.key)) {
      CutItem(e.key, p, depth);
    } else {
      var q := p[|Encode(e.key)|..];
      ReadOrdered(e.key, q, depth);
      CutOf(q, Encode(e.val), more);
      if IsCut(q, Encode(e.val)) {
        CutItem(e.val, q, depth);
      } else {
        ReadOrdered(e.val, q[|Encode(e.val)|..], depth);
        assert q[|Encode(e.val)|..] == p[|Encode(e.key)| + |Encode(e.val)|..];
      }
    }
  }

  /** A canonical encoding cut anywhere. */
  lemma CutShort(v: Value, k: nat)
    requires IsCanonical(v) && k < |Encode(v)|
    ensures DecodeCanonical(Encode(v)[..k]) == Err(Truncated)
  {
    hide ReadItem, Encode, Fits, Within, Ascending;
    ScanIsEnough(v);
    CutItem(v, Encode(v)[..k], 0);
  }

  /** And one that more follows. */
  lemma RunOn(v: Value, more: Buf)
    requires IsCanonical(v) && more != []
    ensures DecodeCanonical(Encode(v) + more) == Err(Trailing)
  {
    hide ReadItem, Encode, Fits, Within, Ascending;
    ScanIsEnough(v);
    DeepSortOrdered(v);
    ReadEncode(v, more, 0);
  }
}
