/** Fingerprints as they are shown: 52 digits of Crockford's base 32, printed and
    parsed by loops over a 64-bit accumulator that drops its high bits. */
module Keys {
  import opened Bytes
  import opened Cbor

  /** The digits, "0123456789abcdefghjkmnpqrstvwxyz". */
  const CROCKFORD: seq<Byte> := [
    48, 49, 50, 51, 52, 53, 54, 55, 56, 57, 97, 98, 99, 100, 101, 102,
    103, 104, 106, 107, 109, 110, 112, 113, 114, 115, 116, 118, 119, 120, 121, 122]

  function Lower(c: Byte): Byte {
    if 65 <= c <= 90 then c + 32 else c
  }

  /** Lower case, `o` as `0`, `i` and `l` as `1`. */
  function Fold(c: Byte): Byte {
    var c := Lower(c);
    if c == 111 then 48 else if c == 105 || c == 108 then 49 else c
  }

  function FoldAll(s: Buf): (r: Buf)
    ensures |r| == |s| && forall i :: 0 <= i < |r| ==> r[i] == Fold(s[i])
  {
    if s == [] then [] else [Fold(s[0])] + FoldAll(s[1..])
  }

  /** `position` in the digits. */
  function Position(c: Byte, from: nat): (r: Option<nat>)
    requires from <= |CROCKFORD|
    ensures r.Some? ==> r.value < |CROCKFORD| && CROCKFORD[r.value] == c
    ensures r.None? ==> forall j :: from <= j < |CROCKFORD| ==> CROCKFORD[j] != c
    decreases |CROCKFORD| - from
  {
    if from == |CROCKFORD| then None
    else if CROCKFORD[from] == c then Some(from)
    else Position(c, from + 1)
  }

  // Numbers in base 32, most significant digit first.

  type Digit = d: nat | d < 32

  function Pow32(k: nat): (p: nat)
    ensures p > 0
  {
    if k == 0 then 1 else 32 * Pow32(k - 1)
  }

  function ToBase32(n: nat, k: nat): (s: seq<Digit>)
    ensures |s| == k
  {
    if k == 0 then [] else ToBase32(n / 32, k - 1) + [n % 32]
  }

  function FromBase32(s: seq<Digit>): (n: nat)
    ensures n < Pow32(|s|)
  {
    if s == [] then 0 else FromBase32(s[..|s| - 1]) * 32 + s[|s| - 1]
  }

  lemma {:induction false} ToFrom32(s: seq<Digit>)
    ensures ToBase32(FromBase32(s), |s|) == s
  {
    if s != [] {
      ToFrom32(s[..|s| - 1]);
      assert s == s[..|s| - 1] + [s[|s| - 1]];
    }
  }

  lemma {:induction false} FromTo32(n: nat, k: nat)
    requires n < Pow32(k)
    ensures FromBase32(ToBase32(n, k)) == n
  {
    if k > 0 {
      FromTo32(n / 32, k - 1);
      assert ToBase32(n, k)[..k - 1] == ToBase32(n / 32, k - 1);
    }
  }

  lemma {:induction false} ToFromBe(s: Buf)
    ensures ToBe(FromBe(s), |s|) == s
  {
    hide Pow256;
    if s != [] {
      var init, last := s[..|s| - 1], s[|s| - 1];
      var n := FromBe(init);
      ToFromBe(init);
      LowByte(n, last);
      assert ToBe(FromBe(s), |s|) == ToBe(n, |init|) + [last];
    }
  }

  lemma LowByte(n: nat, b: Byte)
    ensures (n * 256 + b) / 256 == n && (n * 256 + b) % 256 == b
  {
  }

  lemma PowerSteps(a: nat, b: nat)
    ensures Pow32(a + 1) == 32 * Pow32(a) && Pow256(b + 1) == 256 * Pow256(b)
  {
  }

  lemma EightAndFive(a: nat, b: nat)
    ensures Pow32(a + 8) == 0x100_0000_0000 * Pow32(a) && Pow256(b + 5) == 0x100_0000_0000 * Pow256(b)
  {
    hide Pow32, Pow256;
    PowerSteps(a, b);
    PowerSteps(a + 1, b + 1);
    PowerSteps(a + 2, b + 2);
    PowerSteps(a + 3, b + 3);
    PowerSteps(a + 4, b + 4);
    PowerSteps(a + 5, b);
    PowerSteps(a + 6, b);
    PowerSteps(a + 7, b);
  }

  lemma PowersOfZero()
    ensures Pow32(0) == 1 && Pow256(0) == 1
  {
  }

  /** Eight digits carry the bits of five bytes. */
  lemma {:induction false} PowersMeet(j: nat)
    ensures Pow32(8 * j) == Pow256(5 * j)
  {
    hide Pow32, Pow256;
    PowersOfZero();
    if j > 0 {
      PowersMeet(j - 1);
      EightAndFive(8 * (j - 1), 5 * (j - 1));
    }
  }

  /** 52 digits carry a fingerprint's 256 bits and four more. */
  lemma FourBitsMore()
    ensures Pow32(52) == 16 * Pow256(32)
  {
    hide Pow32, Pow256;
    PowersMeet(6);
    PowerSteps(48, 30);
    PowerSteps(49, 31);
    PowerSteps(50, 0);
    PowerSteps(51, 0);
  }

  // What the two loops compute.

  /** The digits of a fingerprint, its bits padded with four zeros on the right. */
  function Shown(fp: Bytes32): (r: Buf)
    ensures |r| == 52
  {
    Letters(ToBase32(FromBe(fp) * 16, 52))
  }

  function Letters(ds: seq<Digit>): (r: Buf)
    ensures |r| == |ds| && forall i :: 0 <= i < |r| ==> r[i] == CROCKFORD[ds[i]]
  {
    if ds == [] then [] else [CROCKFORD[ds[0]]] + Letters(ds[1..])
  }

  lemma {:induction false} DigitAt(n: nat, k: nat, i: nat)
    requires i < k
    ensures ToBase32(n, k)[i] == n / Pow32(k - 1 - i) % 32
  {
    if i < k - 1 {
      DigitAt(n / 32, k - 1, i);
      DivTwice(n, 32, Pow32(k - 2 - i));
    }
  }

  lemma DivTwice(n: nat, a: nat, b: nat)
    requires a > 0 && b > 0
    ensures n / a / b == n / (a * b)
  {
    var q, r := n / a, n % a;
    Parts(n, a, b, q, r, q / b, q % b);
  }

  lemma Parts(n: nat, a: nat, b: nat, q: nat, r: nat, u: nat, t: nat)
    requires n == a * q + r && r < a && q == b * u + t && t < b
    ensures n / (a * b) == u
  {
    Spread(a, b * u, t);
    Grouped(a, b, u);
    Bound(a, b, t, r);
    Quotient(n, a * b, u, a * t + r);
  }

  lemma Grouped(a: nat, b: nat, u: nat)
    ensures a * (b * u) == a * b * u
  {
  }

  lemma Bound(a: nat, b: nat, t: nat, r: nat)
    requires t < b && r < a
    ensures a * t + r < a * b
  {
    Multiples(a, t, b);
  }

  lemma Quotient(n: nat, d: nat, q: nat, r: nat)
    requires r < d && n == d * q + r
    ensures n / d == q
  {
    var p, e := n / d, n % d;
    assert n == d * p + e;
    if p < q {
      Multiples(d, p, q);
    } else if q < p {
      Multiples(d, q, p);
    }
  }

  lemma Multiples(d: nat, p: nat, q: nat)
    requires p < q
    ensures d * p + d <= d * q
  {
    var j := q - p - 1;
    Spread(d, p, j + 1);
    Spread(d, j, 1);
  }

  lemma Spread(d: nat, p: nat, k: nat)
    ensures d * (p + k) == d * p + d * k
  {
  }

  /** Each letter shows five bits, the highest first, with four zeros after the last. */
  lemma ShownAt(fp: Bytes32, i: nat)
    requires i < 52
    ensures Shown(fp)[i] == CROCKFORD[FromBe(fp) * 16 / Pow32(51 - i) % 32]
  {
    hide FromBe, Pow32, ToBase32;
    DigitAt(FromBe(fp) * 16, 52, i);
  }

  /** The digits a text folds to, if each of its bytes is one. */
  function DigitsOf(s: Buf): (r: Option<seq<Digit>>)
    ensures r.Some? ==> |r.value| == |s|
  {
    if s == [] then Some([]) else
      match Position(Fold(s[0]), 0)
      case None => None
      case Some(d) =>
        match DigitsOf(s[1..])
        case None => None
        case Some(ds) => Some([d] + ds)
  }

  /** The fingerprint a text names: its number without the four bits on the
      right, which must be zero. */
  function Parsed(s: Buf): (r: Option<Bytes32>) {
    if |s| != 52 then None else
      match DigitsOf(s)
      case None => None
      case Some(ds) => if FromBase32(ds) % 16 != 0 then None else Some(ToBe(FromBase32(ds) / 16, 32))
  }

  lemma {:induction false} AlphabetAscends(i: nat, j: nat)
    requires i < j < |CROCKFORD|
    ensures CROCKFORD[i] < CROCKFORD[j]
    decreases j - i
  {
    NeighboursAscend(i);
    if i + 1 < j {
      AlphabetAscends(i + 1, j);
    }
  }

  lemma NeighboursAscend(i: nat)
    requires i + 1 < |CROCKFORD|
    ensures CROCKFORD[i] < CROCKFORD[i + 1]
  {
  }

  /** The digits are those the folded text spells, and only those. */
  lemma {:induction false} DigitsIff(s: Buf, ds: seq<Digit>)
    ensures DigitsOf(s) == Some(ds) <==> FoldAll(s) == Letters(ds)
  {
    if s == [] || ds == [] {
      assert FoldAll(s) == Letters(ds) ==> |s| == |ds|;
    } else {
      DigitsIff(s[1..], ds[1..]);
      assert FoldAll(s)[1..] == FoldAll(s[1..]) && Letters(ds)[1..] == Letters(ds[1..]);
      assert ds == [ds[0]] + ds[1..];
      var p := Position(Fold(s[0]), 0);
      if p.Some? && p.value != ds[0] {
        if p.value < ds[0] { AlphabetAscends(p.value, ds[0]); } else { AlphabetAscends(ds[0], p.value); }
      }
    }
  }

  lemma FoldShown(c: Byte)
    requires c in CROCKFORD
    ensures Fold(c) == c
  {
  }

  /** A text names a fingerprint exactly when, its case and look-alikes folded,
      it is what the fingerprint prints as. */
  lemma ParsedIff(s: Buf, fp: Bytes32)
    ensures Parsed(s) == Some(fp) <==> FoldAll(s) == Shown(fp)
  {
    hide ToBe, FromBe, ToBase32, FromBase32, Pow32, Pow256, FoldAll, Letters, DigitsOf;
    var n := FromBe(fp) * 16;
    FourBitsMore();
    FromTo32(n, 52);
    DigitsIff(s, ToBase32(n, 52));
    if Parsed(s) == Some(fp) {
      var ds := DigitsOf(s).value;
      var m := FromBase32(ds);
      FromToBe(m / 16, 32);
      ToFrom32(ds);
      assert m == n;
    }
    ToFromBe(fp);
  }

  /** A letter is written for another: itself in either case, an `o` for a zero, an
      `i` or an `l` for a one. */
  predicate StandsFor(c: Byte, shown: Byte) {
    || c == shown
    || (97 <= shown <= 122 && c == shown - 32)
    || (shown == '0' as int && (c == 'o' as int || c == 'O' as int))
    || (shown == '1' as int && (c == 'i' as int || c == 'I' as int || c == 'l' as int || c == 'L' as int))
  }

  lemma FoldIff(c: Byte, shown: Byte)
    requires shown in CROCKFORD
    ensures Fold(c) == shown <==> StandsFor(c, shown)
  {
  }

  /** So a text names a fingerprint exactly when it is as long as what that prints as,
      and each letter of it stands for the one printed. */
  lemma ParsedSpells(s: Buf, fp: Bytes32)
    ensures Parsed(s) == Some(fp) <==> |s| == 52 && forall i | 0 <= i < 52 :: StandsFor(s[i], Shown(fp)[i])
  {
    hide Parsed, Fold, StandsFor, ToBase32, FromBe;
    ParsedIff(s, fp);
    if |s| == 52 {
      forall i | 0 <= i < 52 ensures FoldAll(s)[i] == Shown(fp)[i] <==> StandsFor(s[i], Shown(fp)[i]) {
        FoldIff(s[i], Shown(fp)[i]);
      }
    }
  }

  lemma AlphabetIs(i: nat)
    requires i < 32
    ensures |CROCKFORD| == 32 && CROCKFORD[i] == "0123456789abcdefghjkmnpqrstvwxyz"[i] as int
  {
  }

  /** What is printed parses back. */
  lemma ParseShown(fp: Bytes32)
    ensures Parsed(Shown(fp)) == Some(fp)
  {
    var s := Shown(fp);
    forall i | 0 <= i < |s| ensures Fold(s[i]) == s[i] {
      FoldShown(s[i]);
    }
    assert FoldAll(s) == s;
    ParsedIff(s, fp);
  }

  // The loops.

  function Pow2(k: nat): (p: nat)
    ensures p > 0
  {
    if k == 0 then 1 else 2 * Pow2(k - 1)
  }

  /** `n >> k`. */
  function Shr(n: nat, k: nat): (r: nat)
    ensures r <= n
  {
    if k == 0 then n else Shr(n / 2, k - 1)
  }

  /** `acc << k` in 64 bits. */
  function Shl(acc: U64, k: nat): U64 {
    acc * Pow2(k) % TWO64
  }

  lemma {:induction false} ShrSum(n: nat, a: nat, b: nat)
    ensures Shr(Shr(n, a), b) == Shr(n, a + b)
  {
    if a > 0 {
      ShrSum(n / 2, a - 1, b);
    }
  }

  lemma {:induction false} ShrStep(n: nat, k: nat)
    ensures Shr(n, 0) == n && Shr(n, k + 1) == Shr(n, k) / 2
  {
    if k > 0 {
      ShrStep(n / 2, k - 1);
    } else {
      assert Shr(n, 1) == Shr(n / 2, 0);
    }
  }

  lemma ShrFour(n: nat)
    ensures Shr(n, 1) == n / 2 && Shr(n, 4) == n / 16
  {
    hide Shr;
    ShrStep(n, 0);
    ShrStep(n, 1);
    ShrStep(n, 2);
    ShrStep(n, 3);
  }

  lemma ShrSmall(n: nat)
    ensures Shr(n, 1) == n / 2 && Shr(n, 4) == n / 16 && Shr(n, 5) == n / 32 && Shr(n, 8) == n / 256
  {
    hide Shr;
    ShrFour(n);
    ShrFour(Shr(n, 4));
    ShrSum(n, 4, 1);
    ShrSum(n, 4, 4);
  }

  lemma Pow2Small()
    ensures Pow2(4) == 16 && Pow2(5) == 32 && Pow2(8) == 256
  {
    assert Pow2(4) == 2 * Pow2(3) && Pow2(3) == 2 * Pow2(2) && Pow2(2) == 2 * Pow2(1);
    assert Pow2(8) == 2 * Pow2(7) && Pow2(7) == 2 * Pow2(6) && Pow2(6) == 2 * Pow2(5);
  }

  lemma {:induction false} Pow2Sum(a: nat, b: nat)
    ensures Pow2(a + b) == Pow2(a) * Pow2(b)
  {
    if b > 0 {
      Pow2Sum(a, b - 1);
      assert Pow2(a + b) == 2 * Pow2(a + (b - 1));
    }
  }

  lemma Pow2Word()
    ensures Pow2(64) == TWO64
  {
    Pow2Small();
    Pow2Sum(8, 8);
    Pow2Sum(16, 16);
    Pow2Sum(32, 32);
  }

  /** What lies above the bits shifted out comes through whole. */
  lemma {:induction false} ShrAbove(x: nat, a: nat, k: nat)
    ensures Shr(x * Pow2(k) + a, k) == x + Shr(a, k)
    decreases k
  {
    hide Pow2, Shr;
    PowStep(k);
    ShrFirst(x * Pow2(k) + a, k);
    ShrFirst(a, k);
    if k > 0 {
      ShrAbove(x, a / 2, k - 1);
      HalfOf(x, Pow2(k - 1), a);
    }
  }

  lemma PowStep(k: nat)
    ensures Pow2(k) == if k == 0 then 1 else 2 * Pow2(k - 1)
  {
  }

  lemma ShrFirst(n: nat, k: nat)
    ensures Shr(n, k) == if k == 0 then n else Shr(n / 2, k - 1)
  {
  }

  lemma HalfOf(x: nat, m: nat, a: nat)
    ensures (x * (2 * m) + a) / 2 == x * m + a / 2
  {
    Regroup(x, 2, m);
    Regroup(2, x, m);
  }

  lemma WordOf(k: nat)
    requires k <= 56
    ensures TWO64 == 256 * Pow2(56 - k) * Pow2(k)
  {
    hide Pow2;
    Pow2Word();
    Pow2Small();
    Pow2Sum(56 - k, k);
    Pow2Sum(8, 56);
    Regroup(256, Pow2(56 - k), Pow2(k));
  }

  /** The bits read off the accumulator are the whole number's: what it dropped
      lies above them. */
  lemma LowBits(p: nat, k: nat)
    requires k <= 56
    ensures Shr(p % TWO64, k) % 32 == Shr(p, k) % 32
    ensures Shr(p % TWO64, k) % 256 == Shr(p, k) % 256
  {
    hide Pow2, Shr;
    var q, m := p / TWO64, Pow2(56 - k);
    WordOf(k);
    Regroup(q, 256 * m, Pow2(k));
    Regroup(q, 256, m);
    Regroup(256, q, m);
    ShrAbove(q * (256 * m), p % TWO64, k);
    LowOf(q * m, Shr(p % TWO64, k));
  }

  lemma Regroup(a: nat, b: nat, c: nat)
    ensures a * (b * c) == (a * b) * c == (b * a) * c
  {
  }

  lemma {:induction false} LowOf(x: nat, y: nat)
    ensures (256 * x + y) % 32 == y % 32 && (256 * x + y) % 256 == y % 256
  {
    if x > 0 {
      LowOf(x - 1, y + 256);
    }
  }

  lemma {:induction false} PlusWords(n: nat, k: nat)
    ensures (n + TWO64 * k) % TWO64 == n % TWO64
    decreases k
  {
    if k > 0 {
      PlusWords(n + TWO64, k - 1);
    }
  }

  lemma {:induction false} PlusSixteens(n: nat, k: nat)
    ensures (n + 16 * k) % 16 == n % 16
    decreases k
  {
    if k > 0 {
      PlusSixteens(n + 16, k - 1);
    }
  }

  lemma {:induction false} PlusThirtyTwos(n: nat, k: nat)
    ensures (n + 32 * k) % 32 == n % 32
    decreases k
  {
    if k > 0 {
      PlusThirtyTwos(n + 32, k - 1);
    }
  }

  /** The low bits of a number are those of its last word. */
  lemma LowKept(n: nat)
    ensures n % TWO64 % 16 == n % 16 && n % TWO64 % 32 == n % 32
  {
    var k, a := n / TWO64, n % TWO64;
    assert n == a + 16 * (0x1000_0000_0000_0000 * k) && n == a + 32 * (0x800_0000_0000_0000 * k);
    PlusSixteens(a, 0x1000_0000_0000_0000 * k);
    PlusThirtyTwos(a, 0x800_0000_0000_0000 * k);
  }

  /** A word multiplied is the last word of the number multiplied. */
  lemma WordTimes(p: nat, b: nat, d: nat)
    requires b == 16 || b == 32 || b == 256
    ensures (p % TWO64 * b % TWO64 + d) % TWO64 == (p * b + d) % TWO64
  {
    var q, a := p / TWO64, p % TWO64;
    var u, r := a * b / TWO64, a * b % TWO64;
    if b == 16 {
      assert p * 16 + d == (a * 16 + d) + TWO64 * (16 * q);
      PlusWords(a * 16 + d, 16 * q);
    } else if b == 32 {
      assert p * 32 + d == (a * 32 + d) + TWO64 * (32 * q);
      PlusWords(a * 32 + d, 32 * q);
    } else {
      assert p * 256 + d == (a * 256 + d) + TWO64 * (256 * q);
      PlusWords(a * 256 + d, 256 * q);
    }
    assert a * b + d == (r + d) + TWO64 * u;
    PlusWords(r + d, u);
  }

  /** What is left to print after `k` bits more than the digits `ds` carry. */
  ghost predicate ShownSoFar(p: nat, acc: nat, nbits: nat, ds: seq<Digit>) {
    acc == p % TWO64 && ds == ToBase32(Shr(p, nbits), |ds|)
  }

  lemma ShowByte(p: nat, acc: U64, nbits: nat, ds: seq<Digit>, b: Byte)
    requires ShownSoFar(p, acc, nbits, ds) && nbits < 5
    ensures ShownSoFar(p * 256 + b, (Shl(acc, 8) + b) % TWO64, nbits + 8, ds)
  {
    hide ToBase32, Pow2, Shr;
    ShrSmall(p * 256 + b);
    ShrSum(p * 256 + b, 8, nbits);
    Pow2Small();
    WordTimes(p, 256, b);
  }

  lemma ShowDigit(p: nat, acc: U64, nbits: nat, ds: seq<Digit>)
    requires ShownSoFar(p, acc, nbits, ds) && 5 <= nbits <= 12
    ensures ShownSoFar(p, acc, nbits - 5, ds + [Shr(acc, nbits - 5) % 32])
  {
    hide ToBase32, Pow2, Shr;
    LowBits(p, nbits - 5);
    ShrSum(p, nbits - 5, 5);
    ShrSmall(Shr(p, nbits - 5));
    NextDigit(Shr(p, nbits - 5), |ds|);
  }

  lemma ShowLast(p: nat, acc: U64, ds: seq<Digit>)
    requires ShownSoFar(p, acc, 1, ds) && |ds| == 51
    ensures ds + [Shl(acc, 4) % 32] == ToBase32(p * 16, 52)
  {
    hide ToBase32, Shl, Shr;
    ShrSmall(p);
    NextDigit(p * 16, 51);
    assert p * 16 / 32 == p / 2;
    ShlLow(p);
  }

  lemma ShlLow(p: nat)
    ensures Shl(p % TWO64, 4) % 32 == p * 16 % 32
  {
    hide Pow2;
    Pow2Small();
    WordTimes(p, 16, 0);
    LowKept(p * 16);
  }

  method Show(fp: Bytes32) returns (r: Buf)
    ensures r == Shown(fp)
  {
    hide ToBase32, FromBe, Pow2, Letters, Shl, Shr, ShownSoFar;
    var acc: U64 := 0;
    var nbits: nat := 0;
    r := [];
    ghost var ds: seq<Digit> := [];
    StartOfShow(fp);
    for i := 0 to 32
      invariant nbits < 5 && 5 * |ds| + nbits == 8 * i
      invariant ShownSoFar(FromBe(fp[..i]), acc, nbits, ds)
      invariant r == Letters(ds)
    {
      ghost var p := FromBe(fp[..i + 1]);
      NextByte(fp, i);
      ShowByte(FromBe(fp[..i]), acc, nbits, ds, fp[i]);
      acc := (Shl(acc, 8) + fp[i]) % TWO64;
      nbits := nbits + 8;
      while nbits >= 5
        invariant nbits <= 12 && 5 * |ds| + nbits == 8 * (i + 1)
        invariant ShownSoFar(p, acc, nbits, ds)
        invariant r == Letters(ds)
      {
        ShowDigit(p, acc, nbits, ds);
        nbits := nbits - 5;
        var d := Shr(acc, nbits) % 32;
        LettersAppend(ds, d);
        ds := ds + [d];
        r := r + [CROCKFORD[d]];
      }
    }
    assert fp[..32] == fp && nbits == 1 && |ds| == 51;
    if nbits > 0 {
      ShowLast(FromBe(fp), acc, ds);
      var d := Shl(acc, 5 - nbits) % 32;
      LettersAppend(ds, d);
      r := r + [CROCKFORD[d]];
    }
  }

  lemma StartOfShow(fp: Bytes32)
    ensures ShownSoFar(FromBe(fp[..0]), 0, 0, []) && Letters([]) == []
  {
  }

  lemma NextByte(s: Buf, i: nat)
    requires i < |s|
    ensures FromBe(s[..i + 1]) == FromBe(s[..i]) * 256 + s[i]
  {
    assert s[..i + 1][..i] == s[..i];
  }

  lemma NextDigit(n: nat, k: nat)
    ensures ToBase32(n, k + 1) == ToBase32(n / 32, k) + [n % 32]
  {
  }

  lemma LettersAppend(ds: seq<Digit>, d: Digit)
    ensures Letters(ds + [d]) == Letters(ds) + [CROCKFORD[d]]
  {
  }

  /** What is left to write after the bytes of `out`. */
  ghost predicate ParsedSoFar(p: nat, acc: nat, nbits: nat, out: Buf) {
    acc == p % TWO64 && out == ToBe(Shr(p, nbits), |out|)
  }

  lemma ParseDigit(p: nat, acc: U64, nbits: nat, out: Buf, d: Digit)
    requires ParsedSoFar(p, acc, nbits, out) && nbits < 8
    ensures ParsedSoFar(p * 32 + d, (Shl(acc, 5) + d) % TWO64, nbits + 5, out)
  {
    hide ToBe, Pow2, Shr;
    ShrSmall(p * 32 + d);
    ShrSum(p * 32 + d, 5, nbits);
    Pow2Small();
    WordTimes(p, 32, d);
  }

  lemma ParseByte(p: nat, acc: U64, nbits: nat, out: Buf)
    requires ParsedSoFar(p, acc, nbits, out) && 8 <= nbits <= 12
    ensures ParsedSoFar(p, acc, nbits - 8, out + [Shr(acc, nbits - 8) % 256])
  {
    hide ToBe, Pow2, Shr;
    LowBits(p, nbits - 8);
    ShrSum(p, nbits - 8, 8);
    ShrSmall(Shr(p, nbits - 8));
    ByteLast(Shr(p, nbits - 8), |out|);
  }

  lemma ParseLast(p: nat, acc: U64, out: Buf)
    requires ParsedSoFar(p, acc, 4, out) && |out| == 32
    ensures out == ToBe(p / 16, 32) && (acc % Pow2(4) == 0 <==> p % 16 == 0)
  {
    hide ToBe, Pow2, Shr;
    Pow2Small();
    ShrFour(p);
    LowKept(p);
  }

  method Parse(s: Buf) returns (r: Option<Bytes32>)
    ensures r == Parsed(s)
  {
    hide FromBase32, ToBe, Pow2, DigitsOf, Fold, Shl, Shr, ParsedSoFar;
    if |s| != 52 {
      return None;
    }
    var out := new Byte[32](_ => 0);
    var acc: U64 := 0;
    var nbits: nat := 0;
    var i: nat := 0;
    ghost var ds: seq<Digit> := [];
    StartOfParse(s);
    for k := 0 to 52
      invariant i <= 32 && nbits < 8 && 8 * i + nbits == 5 * k
      invariant |ds| == k && DigitsOf(s) == Spelt(ds, DigitsOf(s[k..]))
      invariant ParsedSoFar(FromBase32(ds), acc, nbits, out[..i])
    {
      var position := Position(Fold(s[k]), 0);
      SpeltNext(ds, s, k);
      if position.None? {
        return None;
      }
      var d := position.value;
      DigitLast(ds, d);
      ParseDigit(FromBase32(ds), acc, nbits, out[..i], d);
      acc := (Shl(acc, 5) + d) % TWO64;
      nbits := nbits + 5;
      ds := ds + [d];
      if nbits >= 8 {
        ParseByte(FromBase32(ds), acc, nbits, out[..i]);
        nbits := nbits - 8;
        if i < 32 {
          out[i] := Shr(acc, nbits) % 256;
          assert out[..i + 1] == out[..i] + [out[i]];
          i := i + 1;
        }
      }
    }
    assert s[52..] == [];
    EndOfParse(ds);
    assert i == 32 && nbits == 4 && out[..i] == out[..];
    ParseLast(FromBase32(ds), acc, out[..]);
    if i != 32 || acc % Pow2(nbits) != 0 {
      return None;
    }
    r := Some(out[..]);
  }

  /** The digits already read, and what the rest of the text spells. */
  ghost function Spelt(ds: seq<Digit>, more: Option<seq<Digit>>): Option<seq<Digit>> {
    match more
    case None => None
    case Some(es) => Some(ds + es)
  }

  lemma StartOfParse(s: Buf)
    ensures s[0..] == s && FromBase32([]) == 0 && ParsedSoFar(0, 0, 0, [])
    ensures Spelt([], DigitsOf(s)) == DigitsOf(s)
  {
    hide DigitsOf;
    if DigitsOf(s).Some? {
      assert [] + DigitsOf(s).value == DigitsOf(s).value;
    }
  }

  lemma SpeltNext(ds: seq<Digit>, s: Buf, k: nat)
    requires k < |s|
    ensures var p := Position(Fold(s[k]), 0);
            Spelt(ds, DigitsOf(s[k..])) ==
            if p.None? then None else Spelt(ds + [p.value], DigitsOf(s[k + 1..]))
  {
    hide Position, Fold;
    assert s[k..][0] == s[k] && s[k..][1..] == s[k + 1..];
    var p, more := Position(Fold(s[k]), 0), DigitsOf(s[k + 1..]);
    if p.Some? && more.Some? {
      assert ds + ([p.value] + more.value) == ds + [p.value] + more.value;
    }
  }

  lemma EndOfParse(ds: seq<Digit>)
    ensures Spelt(ds, DigitsOf([])) == Some(ds)
  {
    assert ds + [] == ds;
  }

  lemma DigitLast(ds: seq<Digit>, d: Digit)
    ensures FromBase32(ds + [d]) == FromBase32(ds) * 32 + d
  {
    assert (ds + [d])[..|ds|] == ds;
  }

  lemma ByteLast(n: nat, k: nat)
    ensures ToBe(n, k + 1) == ToBe(n / 256, k) + [n % 256]
  {
  }
}
