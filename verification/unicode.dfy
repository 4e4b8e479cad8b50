/** UTF-8 as RFC 3629 has it: the texts a value may hold are exactly the encodings of
    Unicode's scalar values. */
module Unicode {
  import opened Bytes

  type Scalar = c: nat | c < 0xd800 || 0xe000 <= c < 0x11_0000

  /** One to four bytes: six bits in each after the first, the rest in the first. */
  function EncodeChar(c: Scalar): (r: Buf)
    ensures 1 <= |r| <= 4
  {
    var p, q, r := c / 64, c / 64 / 64, c / 64 / 64 / 64;
    if c < 0x80 then [c]
    else if c < 0x800 then [0xc0 + p, 0x80 + c % 64]
    else if c < 0x1_0000 then [0xe0 + q, 0x80 + p % 64, 0x80 + c % 64]
    else [0xf0 + r, 0x80 + q % 64, 0x80 + p % 64, 0x80 + c % 64]
  }

  function EncodeText(cs: seq<Scalar>): Buf {
    if cs == [] then [] else EncodeChar(cs[0]) + EncodeText(cs[1..])
  }

  lemma CharReads(c: Scalar, rest: Buf)
    ensures CharLen(EncodeChar(c) + rest) == |EncodeChar(c)|
  {
    var s := EncodeChar(c) + rest;
    var p := c / 64;
    var q := p / 64;
    var e, d := c % 64, p % 64;
    assert c == 64 * p + e && p == 64 * q + d;
    if c >= 0x1_0000 {
      var r, b := q / 64, q % 64;
      assert q == 64 * r + b && s[0] == 0xf0 + r && s[1] == 0x80 + b;
      assert r <= 4 && (r == 0 ==> b >= 16) && (r == 4 ==> b <= 15);
    } else if c >= 0x800 {
      assert s[0] == 0xe0 + q && s[1] == 0x80 + d && q <= 15;
      assert (q == 0 ==> d >= 32) && (q == 13 ==> d <= 31);
    }
  }

  lemma SixBits(p: nat, e: nat)
    requires e < 64
    ensures (p * 64 + e) / 64 == p && (p * 64 + e) % 64 == e
  {
  }

  lemma CharHeld(s: Buf) returns (c: Scalar)
    requires CharLen(s) > 0
    ensures s[..CharLen(s)] == EncodeChar(c)
  {
    hide EncodeChar;
    var n := CharLen(s);
    if n == 1 {
      c := OneHeld(s[0]);
    } else if n == 2 {
      c := TwoHeld(s[0] - 0xc0, s[1] - 0x80);
    } else if n == 3 {
      c := ThreeHeld(s[0] - 0xe0, s[1] - 0x80, s[2] - 0x80);
    } else {
      c := FourHeld(s[0] - 0xf0, s[1] - 0x80, s[2] - 0x80, s[3] - 0x80);
    }
  }

  lemma OneHeld(e: nat) returns (c: Scalar)
    requires e < 0x80
    ensures EncodeChar(c) == [e]
  {
    c := e;
  }

  lemma TwoHeld(d: int, e: int) returns (c: Scalar)
    requires 2 <= d < 32 && 0 <= e < 64
    ensures EncodeChar(c) == [0xc0 + d, 0x80 + e]
  {
    SixBits(d, e);
    c := d * 64 + e;
  }

  lemma ThreeHeld(q: int, d: int, e: int) returns (c: Scalar)
    requires 0 <= q < 16 && 0 <= d < 64 && 0 <= e < 64 && (q == 0 ==> d >= 32) && (q == 13 ==> d < 32)
    ensures EncodeChar(c) == [0xe0 + q, 0x80 + d, 0x80 + e]
  {
    SixBits(q, d);
    SixBits(q * 64 + d, e);
    var k := (q * 64 + d) * 64 + e;
    assert q >= 14 ==> k >= 0xe000;
    assert q <= 12 ==> k < 0xd000;
    c := k;
  }

  lemma FourHeld(r: int, b: int, d: int, e: int) returns (c: Scalar)
    requires 0 <= r <= 4 && 0 <= b < 64 && 0 <= d < 64 && 0 <= e < 64
    requires (r == 0 ==> b >= 16) && (r == 4 ==> b < 16)
    ensures EncodeChar(c) == [0xf0 + r, 0x80 + b, 0x80 + d, 0x80 + e]
  {
    SixBits(r, b);
    SixBits(r * 64 + b, d);
    SixBits((r * 64 + b) * 64 + d, e);
    c := ((r * 64 + b) * 64 + d) * 64 + e;
  }

  lemma {:induction false} TextValid(cs: seq<Scalar>)
    ensures ValidUtf8(EncodeText(cs))
  {
    hide CharLen, EncodeChar;
    if cs != [] {
      var rest := EncodeText(cs[1..]);
      CharReads(cs[0], rest);
      TextValid(cs[1..]);
      assert (EncodeChar(cs[0]) + rest)[|EncodeChar(cs[0])|..] == rest;
    }
  }

  lemma {:induction false} TextHeld(s: Buf) returns (cs: seq<Scalar>)
    requires ValidUtf8(s)
    ensures EncodeText(cs) == s
    decreases |s|
  {
    hide CharLen, EncodeChar;
    if s == [] {
      cs := [];
    } else {
      var n := CharLen(s);
      var c := CharHeld(s);
      var more := TextHeld(s[n..]);
      cs := [c] + more;
      assert cs[1..] == more && s == s[..n] + s[n..];
    }
  }

  /** Valid is what some scalar values are written as. */
  lemma ValidIff(s: Buf)
    ensures ValidUtf8(s) <==> exists cs :: EncodeText(cs) == s
  {
    if ValidUtf8(s) {
      var cs := TextHeld(s);
    }
    forall cs | EncodeText(cs) == s ensures ValidUtf8(s) {
      TextValid(cs);
    }
  }
}
