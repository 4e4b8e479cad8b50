/** What section 4.2.1 of RFC 8949 asks of an encoding, said apart from the code
    that writes and reads one: the shortest heads, and keys in the order of their
    bytes. */
module Deterministic {
  import opened Bytes
  import opened Sorting
  import opened Cbor
  import opened Canonical
  import Keys

  // The order of byte strings.

  ghost predicate SmallerAt(a: Buf, b: Buf, i: nat) {
    i < |a| && i < |b| && a[..i] == b[..i] && a[i] < b[i]
  }

  /** `b` goes on where `a` ends, or has the greater byte where the two first differ. */
  ghost predicate Before(a: Buf, b: Buf) {
    (|a| < |b| && b[..|a|] == a) || exists i: nat :: SmallerAt(a, b, i)
  }

  lemma {:induction false} BeforeIff(a: Buf, b: Buf)
    ensures LexLt(a, b) <==> Before(a, b)
  {
    if a != [] && b != [] {
      BeforeIff(a[1..], b[1..]);
      BeforeRest(a, b);
    } else if a == [] && b != [] {
      assert b[..0] == a;
    }
  }

  lemma BeforeRest(a: Buf, b: Buf)
    requires a != [] && b != []
    ensures Before(a, b) <==> a[0] < b[0] || (a[0] == b[0] && Before(a[1..], b[1..]))
  {
    var c, d := a[1..], b[1..];
    if a[0] < b[0] {
      assert SmallerAt(a, b, 0);
    }
    if a[0] == b[0] && |c| < |d| && d[..|c|] == c {
      assert b[..|a|] == [b[0]] + d[..|c|];
    }
    if |a| < |b| && b[..|a|] == a {
      assert b[..|a|][0] == b[0] && b[..|a|][1..] == d[..|c|];
    }
    forall i: nat | a[0] == b[0] && SmallerAt(c, d, i) ensures SmallerAt(a, b, i + 1) {
      assert a[..i + 1] == [a[0]] + c[..i] && b[..i + 1] == [b[0]] + d[..i];
    }
    forall i: nat | SmallerAt(a, b, i) && i > 0 ensures a[0] == b[0] && SmallerAt(c, d, i - 1) {
      assert a[..i][0] == a[0] && b[..i][0] == b[0];
      assert a[..i][1..] == c[..i - 1] && b[..i][1..] == d[..i - 1];
    }
  }

  // The order of keys.

  /** Every map in `v` has its keys in the order of their encodings, each once. */
  ghost predicate KeysAscend(v: Value)
    decreases v, 0
  {
    match v
    case Array(items) => forall i | i in items :: KeysAscend(i)
    case Map(entries) =>
      && (forall i, j | 0 <= i < j < |entries| :: Before(Encode(entries[i].key), Encode(entries[j].key)))
      && forall e | e in entries :: InsideAscends(e)
    case _ => true
  }

  ghost predicate InsideAscends(e: Entry)
    decreases e, 1
  {
    KeysAscend(e.key) && KeysAscend(e.val)
  }

  lemma {:induction false} AscendIff(v: Value)
    ensures Ascending(v) <==> KeysAscend(v)
    decreases v, 0
  {
    hide Before, LexLt, Encode, EncodeEntry;
    match v
    case Array(items) =>
      forall i | i in items ensures Ascending(i) <==> KeysAscend(i) {
        AscendIff(i);
      }
    case Map(entries) =>
      forall e | e in entries ensures AscendingEntry(e) <==> InsideAscends(e) {
        InsideIff(e);
      }
      StrictIff(entries);
    case _ =>
  }

  lemma {:induction false} InsideIff(e: Entry)
    ensures AscendingEntry(e) <==> InsideAscends(e)
    decreases e, 1
  {
    AscendIff(e.key);
    AscendIff(e.val);
  }

  lemma StrictIff(entries: seq<Entry>)
    ensures Strict(EncodeEntries(entries)) <==>
            forall i, j | 0 <= i < j < |entries| :: Before(Encode(entries[i].key), Encode(entries[j].key))
  {
    hide Before, LexLt, Encode, EncodeEntries;
    var p := EncodeEntries(entries);
    forall i, j | 0 <= i < j < |entries|
      ensures LexLt(p[i].key, p[j].key) <==> Before(Encode(entries[i].key), Encode(entries[j].key))
    {
      BeforeIff(p[i].key, p[j].key);
    }
  }

  /** The decoder takes exactly the encodings of values that can be held, nest no
      deeper than the limit, and have every map's keys ascending. */
  lemma AcceptedIff(bytes: Buf, v: Value)
    ensures DecodeCanonical(bytes) == Ok(v) <==>
            Fits(v) && Within(v, MAX_DEPTH) && KeysAscend(v) && Encode(v) == bytes
  {
    hide *;
    DecodeIff(bytes, v);
    AscendIff(v);
    CanonicalParts(v);
  }

  lemma CanonicalParts(v: Value)
    ensures IsCanonical(v) <==> Fits(v) && Ascending(v) && Within(v, MAX_DEPTH)
  {
  }

  /** A map is written as its head and then its entries' encodings, keys in order;
      entries with one key stay beside each other. */
  lemma WrittenInOrder(entries: seq<Entry>)
    ensures var p := Sort(EncodeEntries(entries));
            && Encode(Map(entries)) == Head(5, |entries|) + Join(p)
            && multiset(p) == multiset(EncodeEntries(entries))
            && forall i, j | 0 <= i < j < |p| :: p[i].key == p[j].key || Before(p[i].key, p[j].key)
  {
    hide Before, LexLe, EncodeEntries;
    var p := Sort(EncodeEntries(entries));
    SortSorted(EncodeEntries(entries));
    forall i, j | 0 <= i < j < |p| ensures p[i].key == p[j].key || Before(p[i].key, p[j].key) {
      BeforeIff(p[i].key, p[j].key);
    }
  }

  // Heads.

  /** How many bytes of argument the low bits of an initial byte announce. */
  function Announced(low: nat): nat {
    if low == 24 then 1 else if low == 25 then 2 else if low == 26 then 4 else if low == 27 then 8 else 0
  }

  /** `h` is a head of this major type and argument, the shortest or not. */
  ghost predicate IsHead(h: Buf, major: nat, n: nat) {
    && h != [] && h[0] / 32 == major && h[0] % 32 <= 27 && |h| == 1 + Announced(h[0] % 32)
    && n == if |h| == 1 then h[0] % 32 else FromBe(h[1..])
  }

  /** The first byte of a number weighs the most. */
  lemma {:induction false} FromBeWeighs(s: Buf)
    requires s != []
    ensures FromBe(s) == s[0] * Pow256(|s| - 1) + FromBe(s[1..])
  {
    hide FromBe, Pow256;
    FromBeLast(s);
    if |s| > 1 {
      var init, rest := s[..|s| - 1], s[1..];
      FromBeWeighs(init);
      FromBeLast(rest);
      assert init[1..] == rest[..|rest| - 1];
      Weighs(s[0], |s| - 2);
    } else {
      Weighs(s[0], 0);
    }
  }

  lemma FromBeLast(s: Buf)
    requires s != []
    ensures FromBe(s) == FromBe(s[..|s| - 1]) * 256 + s[|s| - 1] && FromBe([]) == 0
  {
  }

  lemma Weighs(b: Byte, k: nat)
    ensures b * Pow256(k + 1) == b * Pow256(k) * 256 && Pow256(0) == 1
  {
  }

  /** Of all the heads of a number, the one written is the one shortest. */
  lemma HeadShortest(major: nat, n: U64)
    requires major < 8
    ensures IsHead(Head(major, n), major, n)
    ensures forall h | IsHead(h, major, n) :: h == Head(major, n) || |Head(major, n)| < |h|
  {
    HeadIsHead(major, n);
    forall h | IsHead(h, major, n) ensures h == Head(major, n) || |Head(major, n)| < |h| {
      HeadsCompare(h, major, n);
    }
  }

  lemma HeadIsHead(major: nat, n: U64)
    requires major < 8
    ensures IsHead(Head(major, n), major, n)
  {
    hide ToBe, FromBe, Pow256;
    Pow256Values();
    if n >= 24 {
      var k := if n <= 0xff then 1 else if n <= 0xffff then 2 else if n <= 0xffff_ffff then 4 else 8;
      FromToBe(n, k);
      assert Head(major, n)[1..] == ToBe(n, k);
    }
  }

  lemma HeadsCompare(h: Buf, major: nat, n: U64)
    requires major < 8 && IsHead(h, major, n)
    ensures h == Head(major, n) || |Head(major, n)| < |h|
  {
    hide ToBe, FromBe, Pow256;
    Pow256Values();
    if |h| > 1 {
      var k := |h| - 1;
      assert n < Pow256(k);
      Keys.ToFromBe(h[1..]);
      assert h == [h[0]] + h[1..];
    } else {
      assert h == [h[0]];
    }
  }

  /** A head is read wherever one stands, the shortest or not. */
  lemma HeadReadIff(s: Buf, major: nat, n: nat, rest: Buf)
    ensures ReadHead(s) == Done((major, n), rest) <==>
            exists k: nat :: 0 < k <= |s| && IsHead(s[..k], major, n) && rest == s[k..]
  {
    hide IsHead, ReadHead;
    forall k: nat | 0 < k <= |s| ensures IsHead(s[..k], major, n) && rest == s[k..] <==>
        k == 1 + Announced(s[0] % 32) && ReadHead(s) == Done((major, n), rest)
    {
      HeadOf(s, k, major, n, rest);
    }
    ReadsSome(s);
    if ReadHead(s) == Done((major, n), rest) {
      assert IsHead(s[..1 + Announced(s[0] % 32)], major, n);
    }
  }

  lemma ReadsSome(s: Buf)
    ensures ReadHead(s).Done? ==> s != [] && 1 + Announced(s[0] % 32) <= |s|
  {
    hide FromBe, Pow256;
  }

  lemma HeadOf(s: Buf, k: nat, major: nat, n: nat, rest: Buf)
    requires 0 < k <= |s|
    ensures IsHead(s[..k], major, n) && rest == s[k..] <==>
            k == 1 + Announced(s[0] % 32) && ReadHead(s) == Done((major, n), rest)
  {
    hide FromBe, Pow256, ReadHead;
    ReadHeadIs(s);
    assert s[..k][0] == s[0] && s[..k][1..] == s[1..][..k - 1] && s[k..] == s[1..][k - 1..];
    var low := s[0] % 32;
    if k == 1 + Announced(low) && low <= 27 {
      assert ReadHead(s) == Done((s[0] / 32, if k == 1 then low else FromBe(s[1..][..k - 1])), s[1..][k - 1..]);
      assert IsHead(s[..k], major, n) <==> s[0] / 32 == major && n == if k == 1 then low else FromBe(s[1..][..k - 1]);
    }
  }

  lemma ReadHeadIs(s: Buf)
    requires s != []
    ensures var low, k := s[0] % 32, Announced(s[0] % 32);
            ReadHead(s) == if low > 27 then Bad(Unsupported(s[0]))
                           else if k > |s| - 1 then Bad(Truncated)
                           else Done((s[0] / 32, if k == 0 then low else FromBe(s[1..][..k])), s[1..][k..])
  {
    hide FromBe, Pow256;
  }

  /** One of each kind, and keys of two lengths. */
  lemma Examples()
    ensures Encode(Uint(23)) == [0x17] && Encode(Uint(24)) == [0x18, 0x18] && Encode(Uint(256)) == [0x19, 1, 0]
    ensures Encode(Uint(0x1_0000)) == [0x1a, 0, 1, 0, 0]
    ensures Encode(Uint(0x1_0000_0000)) == [0x1b, 0, 0, 0, 1, 0, 0, 0, 0]
    ensures Encode(Blob([1, 2])) == [0x42, 1, 2] && Encode(Text([0x68, 0x69])) == [0x62, 0x68, 0x69]
    ensures Encode(Bool(false)) == [0xf4] && Encode(Bool(true)) == [0xf5]
    ensures Encode(Array([Uint(7), Uint(8)])) == [0x82, 7, 8]
    ensures Encode(Map([Entry(Text([0x61, 0x61]), Uint(1)), Entry(Text([0x7a]), Uint(2))])) ==
            [0xa2, 0x61, 0x7a, 2, 0x62, 0x61, 0x61, 1]
  {
    hide EncodeAll, EncodeEntries, Sort, Join, ToBe;
    NumberExamples();
    ArrayExample();
    MapExample();
  }

  lemma NumberExamples()
    ensures ToBe(24, 1) == [24] && ToBe(256, 2) == [1, 0]
    ensures ToBe(0x1_0000, 4) == [0, 1, 0, 0] && ToBe(0x1_0000_0000, 8) == [0, 0, 0, 1, 0, 0, 0, 0]
  {
    hide ToBe;
    NoBytes(0);
    LastByte(0, 0, 24);
    LastByte(0, 0, 1);
    LastByte(1, 1, 0);
    LastByte(0, 0, 0);
    LastByte(0, 1, 1);
    LastByte(1, 2, 0);
    LastByte(0x100, 3, 0);
    LastByte(0, 1, 0);
    LastByte(0, 2, 0);
    LastByte(0, 3, 1);
    LastByte(1, 4, 0);
    LastByte(0x100, 5, 0);
    LastByte(0x1_0000, 6, 0);
    LastByte(0x100_0000, 7, 0);
  }

  lemma NoBytes(n: nat)
    ensures ToBe(n, 0) == []
  {
  }

  lemma LastByte(n: nat, k: nat, b: Byte)
    ensures ToBe(256 * n + b, k + 1) == ToBe(n, k) + [b]
  {
    Keys.LowByte(n, b);
    assert n * 256 + b == 256 * n + b;
  }

  lemma ArrayExample()
    ensures Encode(Array([Uint(7), Uint(8)])) == [0x82, 7, 8]
  {
    var items := [Uint(7), Uint(8)];
    assert items[1..] == [Uint(8)] && items[1..][1..] == [];
    assert EncodeAll(items[1..][1..]) == [];
    assert EncodeAll(items[1..]) == Encode(Uint(8)) + EncodeAll(items[1..][1..]);
    assert EncodeAll(items) == Encode(Uint(7)) + EncodeAll(items[1..]);
  }

  lemma MapExample()
    ensures Encode(Map([Entry(Text([0x61, 0x61]), Uint(1)), Entry(Text([0x7a]), Uint(2))])) ==
            [0xa2, 0x61, 0x7a, 2, 0x62, 0x61, 0x61, 1]
  {
    var es := [Entry(Text([0x61, 0x61]), Uint(1)), Entry(Text([0x7a]), Uint(2))];
    hide Encode, EncodeEntries, Insert, Sort, Join, Before;
    PairsExample();
    SortExample();
    JoinExample();
    WrittenInOrder(es);
  }

  const LONGER: Keyed<Buf> := Keyed([0x62, 0x61, 0x61], [1])
  const SHORTER: Keyed<Buf> := Keyed([0x61, 0x7a], [2])

  lemma PairsExample()
    ensures EncodeEntries([Entry(Text([0x61, 0x61]), Uint(1)), Entry(Text([0x7a]), Uint(2))]) == [LONGER, SHORTER]
  {
    hide ToBe;
    var e, f := Entry(Text([0x61, 0x61]), Uint(1)), Entry(Text([0x7a]), Uint(2));
    assert Encode(e.key) == LONGER.key && Encode(e.val) == LONGER.val && EncodeEntry(e) == LONGER;
    assert Encode(f.key) == SHORTER.key && Encode(f.val) == SHORTER.val && EncodeEntry(f) == SHORTER;
    assert EncodeEntries([e, f]) == [EncodeEntry(e), EncodeEntry(f)];
  }

  lemma SortExample()
    ensures Sort([LONGER, SHORTER]) == [SHORTER, LONGER]
  {
    var p := [LONGER, SHORTER];
    assert p[1..] == [SHORTER];
    assert Sort(p[1..]) == Insert(SHORTER, Sort([])) == [SHORTER];
    assert [SHORTER][1..] == [];
    assert Insert(LONGER, [SHORTER]) == [SHORTER] + Insert(LONGER, []);
  }

  lemma JoinExample()
    ensures Join([SHORTER, LONGER]) == [0x61, 0x7a, 2, 0x62, 0x61, 0x61, 1]
  {
    var p := [SHORTER, LONGER];
    assert p[1..] == [LONGER];
    assert Join([LONGER]) == LONGER.key + LONGER.val + Join([LONGER][1..]);
  }
}
