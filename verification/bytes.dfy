/** Bytes, big-endian numbers, the order `Vec<u8>` compares in, and UTF-8. */
module Bytes {

  const TWO64: nat := 0x1_0000_0000_0000_0000

  type Byte = b: int | 0 <= b < 256
  type U64 = n: int | 0 <= n < TWO64
  type Buf = seq<Byte>

  type Bytes16 = b: Buf | |b| == 16 witness [0, 0, 0, 0, 0, 0, 0, 0, 0, 0, 0, 0, 0, 0, 0, 0]
  type Bytes32 = b: Buf | |b| == 32
    witness [0, 0, 0, 0, 0, 0, 0, 0, 0, 0, 0, 0, 0, 0, 0, 0, 0, 0, 0, 0, 0, 0, 0, 0, 0, 0, 0, 0, 0, 0, 0, 0]

  // Big-endian numbers.

  function Pow256(k: nat): (p: nat)
    ensures p > 0
  {
    if k == 0 then 1 else 256 * Pow256(k - 1)
  }

  /** The low `k` bytes of `n`, most significant first. */
  function ToBe(n: nat, k: nat): (s: Buf)
    ensures |s| == k
  {
    if k == 0 then [] else ToBe(n / 256, k - 1) + [n % 256]
  }

  function FromBe(s: Buf): (n: nat)
    ensures n < Pow256(|s|)
  {
    if s == [] then 0 else FromBe(s[..|s| - 1]) * 256 + s[|s| - 1]
  }

  lemma {:induction false} FromToBe(n: nat, k: nat)
    requires n < Pow256(k)
    ensures FromBe(ToBe(n, k)) == n
  {
    if k > 0 {
      FromToBe(n / 256, k - 1);
      assert ToBe(n, k)[..k - 1] == ToBe(n / 256, k - 1);
    }
  }

  lemma Pow256Values()
    ensures Pow256(1) == 0x100 && Pow256(2) == 0x1_0000
    ensures Pow256(4) == 0x1_0000_0000 && Pow256(8) == TWO64
  {
    assert Pow256(4) == 256 * Pow256(3) && Pow256(3) == 256 * Pow256(2) && Pow256(2) == 256 * Pow256(1);
    assert Pow256(8) == 256 * Pow256(7) && Pow256(7) == 256 * Pow256(6);
    assert Pow256(6) == 256 * Pow256(5) && Pow256(5) == 256 * Pow256(4);
  }

  // Lexicographic order, a proper prefix first.

  predicate LexLe(a: Buf, b: Buf) {
    a == [] || (b != [] && (a[0] < b[0] || (a[0] == b[0] && LexLe(a[1..], b[1..]))))
  }

  predicate LexLt(a: Buf, b: Buf) {
    LexLe(a, b) && a != b
  }

  lemma {:induction false} LexTotal(a: Buf, b: Buf)
    ensures LexLe(a, b) || LexLe(b, a)
    ensures LexLe(a, b) && LexLe(b, a) ==> a == b
    ensures LexLe(a, a)
  {
    if a != [] {
      LexTotal(a[1..], a[1..]);
      if b != [] {
        LexTotal(a[1..], b[1..]);
        assert a == [a[0]] + a[1..] && b == [b[0]] + b[1..];
      }
    }
  }

  lemma {:induction false} LexTrans(a: Buf, b: Buf, c: Buf)
    requires LexLe(a, b) && LexLe(b, c)
    ensures LexLe(a, c)
  {
    if a != [] && a[0] == b[0] == c[0] {
      LexTrans(a[1..], b[1..], c[1..]);
    }
  }

  // UTF-8 as `str::from_utf8` accepts it: the well-formed sequences of the
  // Unicode standard's table 3-7.

  predicate Tail(s: Buf, i: nat) {
    i < |s| && 0x80 <= s[i] <= 0xbf
  }

  /** The length of the character `s` starts with, 0 if it starts with none. */
  function CharLen(s: Buf): (n: nat)
    ensures n <= 4 && n <= |s|
  {
    if s == [] then 0
    else if s[0] <= 0x7f then 1
    else if 0xc2 <= s[0] <= 0xdf && Tail(s, 1) then 2
    else if 0xe0 <= s[0] <= 0xef && Tail(s, 1) && Tail(s, 2)
            && (s[0] == 0xe0 ==> s[1] >= 0xa0) && (s[0] == 0xed ==> s[1] <= 0x9f) then 3
    else if 0xf0 <= s[0] <= 0xf4 && Tail(s, 1) && Tail(s, 2) && Tail(s, 3)
            && (s[0] == 0xf0 ==> s[1] >= 0x90) && (s[0] == 0xf4 ==> s[1] <= 0x8f) then 4
    else 0
  }

  predicate ValidUtf8(s: Buf)
    decreases |s|
  {
    s == [] || (CharLen(s) > 0 && ValidUtf8(s[CharLen(s)..]))
  }

  lemma {:induction false} AsciiUtf8(s: Buf)
    requires forall i :: 0 <= i < |s| ==> s[i] <= 0x7f
    ensures ValidUtf8(s)
  {
    if s != [] {
      AsciiUtf8(s[1..]);
    }
  }
}

/** `sort_by` on a key: stable, by the lexicographic order of the key bytes. */
module Sorting {
  import opened Bytes

  datatype Keyed<+T> = Keyed(key: Buf, val: T)

  function Insert<T>(x: Keyed<T>, s: seq<Keyed<T>>): (r: seq<Keyed<T>>)
    ensures |r| == |s| + 1
    ensures multiset(r) == multiset(s) + multiset{x}
  {
    if s == [] || LexLe(x.key, s[0].key) then
      assert [x] + s == [x] + s; [x] + s
    else
      assert s == [s[0]] + s[1..];
      [s[0]] + Insert(x, s[1..])
  }

  /** The stable sort: what it holds, in order of key, equal keys as they came. */
  function Sort<T>(s: seq<Keyed<T>>): (r: seq<Keyed<T>>)
    ensures |r| == |s|
    ensures multiset(r) == multiset(s)
  {
    if s == [] then [] else
      assert s == [s[0]] + s[1..];
      Insert(s[0], Sort(s[1..]))
  }

  ghost predicate Sorted<T>(s: seq<Keyed<T>>) {
    forall i, j :: 0 <= i < j < |s| ==> LexLe(s[i].key, s[j].key)
  }

  ghost predicate Strict<T>(s: seq<Keyed<T>>) {
    forall i, j :: 0 <= i < j < |s| ==> LexLt(s[i].key, s[j].key)
  }

  ghost predicate DistinctKeys<T>(s: seq<Keyed<T>>) {
    forall i, j :: 0 <= i < j < |s| ==> s[i].key != s[j].key
  }

  /** In a sorted sequence, keys that differ from the next differ from all. */
  lemma StrictByNeighbours<T>(s: seq<Keyed<T>>)
    ensures Strict(s) <==> Sorted(s) && forall i :: 0 <= i < |s| - 1 ==> s[i].key != s[i + 1].key
  {
    if Sorted(s) && forall i :: 0 <= i < |s| - 1 ==> s[i].key != s[i + 1].key {
      forall i, j | 0 <= i < j < |s| ensures LexLt(s[i].key, s[j].key) {
        LexTotal(s[i].key, s[i + 1].key);
      }
    }
  }

  lemma {:induction false} InsertSorted<T>(x: Keyed<T>, s: seq<Keyed<T>>)
    requires Sorted(s)
    ensures Sorted(Insert(x, s))
  {
    hide LexLe;
    if s == [] {
    } else if LexLe(x.key, s[0].key) {
      forall y | y in s ensures LexLe(x.key, y.key) {
        if y != s[0] {
          LexTrans(x.key, s[0].key, y.key);
        }
      }
      SortedCons(x, s);
    } else {
      InsertSorted(x, s[1..]);
      LexTotal(x.key, s[0].key);
      var t := Insert(x, s[1..]);
      forall y | y in t ensures LexLe(s[0].key, y.key) {
        assert y in multiset(t);
        assert y == x || y in s[1..];
      }
      SortedCons(s[0], t);
    }
  }

  lemma SortedCons<T>(x: Keyed<T>, s: seq<Keyed<T>>)
    requires Sorted(s) && forall y | y in s :: LexLe(x.key, y.key)
    ensures Sorted([x] + s)
  {
    hide LexLe;
    var r := [x] + s;
    forall i, j | 0 <= i < j < |r| ensures LexLe(r[i].key, r[j].key) {
      assert r[j] == s[j - 1];
      if i > 0 {
        assert r[i] == s[i - 1];
      }
    }
  }

  lemma StrictRest<T>(s: seq<Keyed<T>>)
    requires s != [] && Strict(s)
    ensures Strict(s[1..]) && forall y | y in s[1..] :: LexLt(s[0].key, y.key)
  {
    hide LexLt;
  }

  lemma StrictCons<T>(x: Keyed<T>, s: seq<Keyed<T>>)
    requires Strict(s) && forall y | y in s :: LexLt(x.key, y.key)
    ensures Strict([x] + s)
  {
    hide LexLt;
    var r := [x] + s;
    forall i, j | 0 <= i < j < |r| ensures LexLt(r[i].key, r[j].key) {
      assert r[j] == s[j - 1];
      if i > 0 {
        assert r[i] == s[i - 1];
      }
    }
  }

  lemma {:induction false} SortSorted<T>(s: seq<Keyed<T>>)
    ensures Sorted(Sort(s))
  {
    if s != [] {
      SortSorted(s[1..]);
      InsertSorted(s[0], Sort(s[1..]));
    }
  }

  lemma {:induction false} SortOfSorted<T>(s: seq<Keyed<T>>)
    requires Sorted(s)
    ensures Sort(s) == s
  {
    if s != [] {
      SortOfSorted(s[1..]);
    }
  }

  lemma SortMembers<T>(s: seq<Keyed<T>>)
    ensures forall x :: x in Sort(s) <==> x in s
  {
    forall x ensures x in Sort(s) <==> x in s {
      assert x in multiset(Sort(s)) <==> x in multiset(s);
    }
  }

  /** The same keys, and values `r` relates, place by place. */
  ghost predicate Related<X, Y>(s: seq<Keyed<X>>, t: seq<Keyed<Y>>, r: (Buf, X, Y) -> bool) {
    |s| == |t| && forall i :: 0 <= i < |s| ==> s[i].key == t[i].key && r(s[i].key, s[i].val, t[i].val)
  }

  lemma {:induction false} InsertRelated<X, Y>(x: Keyed<X>, y: Keyed<Y>, s: seq<Keyed<X>>, t: seq<Keyed<Y>>,
                                               r: (Buf, X, Y) -> bool)
    requires x.key == y.key && r(x.key, x.val, y.val)
    requires Related(s, t, r)
    ensures Related(Insert(x, s), Insert(y, t), r)
  {
    hide LexLe, Related;
    RelatedRest(s, t, r);
    if s == [] || LexLe(x.key, s[0].key) {
      RelatedCons(x, y, s, t, r);
    } else {
      InsertRelated(x, y, s[1..], t[1..], r);
      RelatedCons(s[0], t[0], Insert(x, s[1..]), Insert(y, t[1..]), r);
    }
  }

  lemma RelatedCons<X, Y>(x: Keyed<X>, y: Keyed<Y>, s: seq<Keyed<X>>, t: seq<Keyed<Y>>, r: (Buf, X, Y) -> bool)
    requires x.key == y.key && r(x.key, x.val, y.val) && Related(s, t, r)
    ensures Related([x] + s, [y] + t, r)
  {
  }

  lemma RelatedRest<X, Y>(s: seq<Keyed<X>>, t: seq<Keyed<Y>>, r: (Buf, X, Y) -> bool)
    requires Related(s, t, r)
    ensures |s| == |t|
    ensures s != [] ==> s[0].key == t[0].key && r(s[0].key, s[0].val, t[0].val) && Related(s[1..], t[1..], r)
  {
  }

  /** Sorting looks at keys alone: two sequences with the same keys and related
      values at each place are still so related once both are sorted. */
  lemma {:induction false} SortRelated<X, Y>(s: seq<Keyed<X>>, t: seq<Keyed<Y>>, r: (Buf, X, Y) -> bool)
    requires Related(s, t, r)
    ensures Related(Sort(s), Sort(t), r)
  {
    if s != [] {
      SortRelated(s[1..], t[1..], r);
      InsertRelated(s[0], t[0], Sort(s[1..]), Sort(t[1..]), r);
    }
  }

  lemma {:induction false} InsertApart<T>(x: Keyed<T>, s: seq<Keyed<T>>)
    requires DistinctKeys(Insert(x, s))
    ensures DistinctKeys(s) && forall y | y in s :: y.key != x.key
  {
    hide LexLe;
    var r := Insert(x, s);
    assert s != [] ==> s == [s[0]] + s[1..];
    if s == [] {
    } else if LexLe(x.key, s[0].key) {
      DistinctParts(x, s);
    } else {
      DistinctParts(s[0], Insert(x, s[1..]));
      InsertApart(x, s[1..]);
      forall y | y in s[1..] + [x] ensures y.key != s[0].key {
        assert y in multiset(Insert(x, s[1..]));
      }
      assert x in s[1..] + [x];
      DistinctCons(s[0], s[1..]);
    }
  }

  lemma DistinctParts<T>(x: Keyed<T>, s: seq<Keyed<T>>)
    requires DistinctKeys([x] + s)
    ensures DistinctKeys(s) && forall y | y in s :: y.key != x.key
  {
    var r := [x] + s;
    assert r[0] == x && forall i :: 0 <= i < |s| ==> s[i] == r[i + 1];
  }

  lemma DistinctCons<T>(x: Keyed<T>, s: seq<Keyed<T>>)
    requires DistinctKeys(s) && forall y | y in s :: y.key != x.key
    ensures DistinctKeys([x] + s)
  {
  }

  lemma StrictApart<T>(s: seq<Keyed<T>>)
    requires Strict(s)
    ensures DistinctKeys(s)
  {
  }

  /** Keys that differ after a sort differed before it. */
  lemma {:induction false} SortedApart<T>(s: seq<Keyed<T>>)
    requires DistinctKeys(Sort(s))
    ensures DistinctKeys(s)
  {
    hide Insert, DistinctKeys;
    if s == [] {
      NoKeys(s);
    } else {
      var r := Sort(s[1..]);
      InsertApart(s[0], r);
      SortedApart(s[1..]);
      forall y | y in s[1..] ensures y.key != s[0].key {
        assert y in multiset(s[1..]) && y in multiset(r);
      }
      DistinctCons(s[0], s[1..]);
      assert s == [s[0]] + s[1..];
    }
  }

  lemma NoKeys<T>(s: seq<Keyed<T>>)
    requires s == []
    ensures DistinctKeys(s)
  {
  }

  /** Keys that differ before a sort differ after it, and then strictly ascend. */
  lemma SortDistinct<T>(s: seq<Keyed<T>>)
    requires DistinctKeys(s)
    ensures Strict(Sort(s))
  {
    var r := Sort(s);
    SortSorted(s);
    forall i, j | 0 <= i < j < |r| ensures r[i].key != r[j].key {
      if r[i].key == r[j].key {
        assert r[i] in multiset(r) && r[j] in multiset(r);
        var a :| 0 <= a < |s| && s[a] == r[i];
        var b :| 0 <= b < |s| && s[b] == r[j];
        assert a == b;
        TwiceCounted(r, i, j);
        OnceCounted(s, a);
      }
    }
  }

  lemma TwiceCounted<T>(r: seq<T>, i: nat, j: nat)
    requires i < j < |r| && r[i] == r[j]
    ensures multiset(r)[r[i]] >= 2
  {
    assert r == r[..i] + [r[i]] + r[i + 1..j] + [r[j]] + r[j + 1..];
  }

  lemma OnceCounted<T>(s: seq<T>, a: nat)
    requires a < |s| && forall i :: 0 <= i < |s| && i != a ==> s[i] != s[a]
    ensures multiset(s)[s[a]] == 1
  {
    assert s == s[..a] + [s[a]] + s[a + 1..];
    assert s[a] !in s[..a] && s[a] !in s[a + 1..];
  }

  /** Strictly ascending sequences are determined by what they hold. */
  lemma {:induction false} StrictUnique<T>(s: seq<Keyed<T>>, t: seq<Keyed<T>>)
    requires Strict(s) && Strict(t)
    requires forall x :: x in s <==> x in t
    ensures s == t
  {
    assert s != [] ==> s[0] in t;
    assert t != [] ==> t[0] in s;
    if s != [] && t != [] {
      var i :| 0 <= i < |t| && t[i] == s[0];
      var j :| 0 <= j < |s| && s[j] == t[0];
      if i > 0 && j > 0 {
        LexTotal(s[0].key, t[0].key);
      }
      assert s[0] == t[0];
      forall x ensures x in s[1..] <==> x in t[1..] {
        if x in s[1..] {
          var k :| 1 <= k < |s| && s[k] == x;
          assert s[0].key != s[k].key && x in t;
        }
        if x in t[1..] {
          var k :| 1 <= k < |t| && t[k] == x;
          assert t[0].key != t[k].key && x in s;
        }
      }
      StrictUnique(s[1..], t[1..]);
    }
  }

  /** So sequences that hold the same, each key once, sort alike. */
  lemma SortUnique<T>(s: seq<Keyed<T>>, t: seq<Keyed<T>>)
    requires DistinctKeys(s) && DistinctKeys(t)
    requires forall x :: x in s <==> x in t
    ensures Sort(s) == Sort(t)
  {
    SortDistinct(s);
    SortDistinct(t);
    SortMembers(s);
    SortMembers(t);
    StrictUnique(Sort(s), Sort(t));
  }

  /** A first part may be sorted beforehand. */
  lemma SortTwice<T>(s: seq<Keyed<T>>, t: seq<Keyed<T>>)
    requires DistinctKeys(Sort(s) + t)
    ensures Sort(Sort(s) + t) == Sort(s + t)
  {
    hide Sort, DistinctKeys;
    ApartParts(Sort(s), t);
    SortedApart(s);
    SortMembers(s);
    ApartJoined(s, t);
    SortUnique(Sort(s) + t, s + t);
  }

  lemma ApartParts<T>(s: seq<Keyed<T>>, t: seq<Keyed<T>>)
    requires DistinctKeys(s + t)
    ensures DistinctKeys(s) && DistinctKeys(t) && forall x, y | x in s && y in t :: x.key != y.key
  {
    var all := s + t;
    assert forall i :: 0 <= i < |s| ==> s[i] == all[i];
    assert forall j :: 0 <= j < |t| ==> t[j] == all[|s| + j];
  }

  lemma ApartJoined<T>(s: seq<Keyed<T>>, t: seq<Keyed<T>>)
    requires DistinctKeys(s) && DistinctKeys(t) && forall x, y | x in s && y in t :: x.key != y.key
    ensures DistinctKeys(s + t)
  {
    var all := s + t;
    forall i, j | 0 <= i < j < |all| ensures all[i].key != all[j].key {
      if i < |s| <= j {
        assert all[i] in s && all[j] in t;
      }
    }
  }
}
