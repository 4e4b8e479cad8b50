/** Line endings in signed texts: what a reader makes of a text that crossed a
    wire which writes them its own way. */
module LineEndings {
  import opened Bytes

  const LF: Byte := 10
  const CR: Byte := 13
  const TAB: Byte := 9

  function ReplaceCrLf(s: Buf): (r: Buf)
    decreases |s|
  {
    if s == [] then []
    else if |s| >= 2 && s[0] == CR && s[1] == LF then [LF] + ReplaceCrLf(s[2..])
    else [s[0]] + ReplaceCrLf(s[1..])
  }

  function ReplaceCr(s: Buf): (r: Buf)
    ensures |r| == |s|
    ensures forall i :: 0 <= i < |r| ==> r[i] == if s[i] == CR then LF else s[i]
  {
    if s == [] then [] else [if s[0] == CR then LF else s[0]] + ReplaceCr(s[1..])
  }

  /** The two replacements a signer and a verifier make, one after the other. */
  function CanonicalText(s: Buf): (r: Buf) {
    ReplaceCr(ReplaceCrLf(s))
  }

  /** What was UTF-8 stays so. */
  lemma CanonicalUtf8(s: Buf)
    requires ValidUtf8(s)
    ensures ValidUtf8(CanonicalText(s))
  {
    CrLfUtf8(s);
    CrUtf8(ReplaceCrLf(s));
  }

  /** The check a text passes once it has been made canonical. */
  predicate IsCanonicalText(s: Buf) {
    forall i :: 0 <= i < |s| ==> s[i] >= 0x20 || s[i] == LF || s[i] == TAB
  }

  lemma {:induction false} CrLfUtf8(s: Buf)
    requires ValidUtf8(s)
    ensures ValidUtf8(ReplaceCrLf(s))
    decreases |s|
  {
    if s == [] {
    } else if |s| >= 2 && s[0] == CR && s[1] == LF {
      assert ValidUtf8(s[1..]) && s[1..][1..] == s[2..];
      CrLfUtf8(s[2..]);
    } else {
      var n := CharLen(s);
      CrLfUtf8(s[n..]);
      CrLfKeeps(s, n);
      var r := ReplaceCrLf(s);
      assert CharLen(r) == n;
      assert r[n..] == ReplaceCrLf(s[n..]);
    }
  }

  /** The bytes of one character go through unchanged. */
  lemma {:induction false} CrLfKeeps(s: Buf, n: nat)
    requires n <= |s|
    requires n > 0 && s[0] == CR ==> |s| < 2 || s[1] != LF
    requires forall i | 0 < i < n :: s[i] != CR
    ensures ReplaceCrLf(s) == s[..n] + ReplaceCrLf(s[n..])
  {
    hide ReplaceCrLf;
    if n == 0 {
      assert s[0..] == s;
    } else {
      var t := s[1..];
      CrLfStep(s);
      CrLfKeeps(t, n - 1);
      assert t[n - 1..] == s[n..];
      assert s[..n] == [s[0]] + t[..n - 1];
    }
  }

  lemma CrLfStep(s: Buf)
    requires s != [] && (s[0] == CR ==> |s| < 2 || s[1] != LF)
    ensures ReplaceCrLf(s) == [s[0]] + ReplaceCrLf(s[1..])
  {
  }

  lemma {:induction false} CrUtf8(s: Buf)
    requires ValidUtf8(s)
    ensures ValidUtf8(ReplaceCr(s))
    decreases |s|
  {
    if s != [] {
      var n := CharLen(s);
      CrUtf8(s[n..]);
      var r := ReplaceCr(s);
      assert CharLen(r) == n;
      assert r[n..] == ReplaceCr(s[n..]);
    }
  }

  // One pass, to reason about the two together.

  function OnePass(s: Buf): (r: Buf)
    decreases |s|
  {
    if s == [] then []
    else if s[0] == CR then [LF] + OnePass(if |s| >= 2 && s[1] == LF then s[2..] else s[1..])
    else [s[0]] + OnePass(s[1..])
  }

  lemma {:induction false} CanonicalOnePass(s: Buf)
    ensures ReplaceCr(ReplaceCrLf(s)) == OnePass(s)
    decreases |s|
  {
    if s == [] {
    } else if |s| >= 2 && s[0] == CR && s[1] == LF {
      CanonicalOnePass(s[2..]);
      assert ReplaceCrLf(s)[1..] == ReplaceCrLf(s[2..]);
    } else {
      CanonicalOnePass(s[1..]);
      assert ReplaceCrLf(s)[1..] == ReplaceCrLf(s[1..]);
    }
  }

  lemma CanonicalFixed(s: Buf)
    ensures CanonicalText(s) == s <==> CR !in s
    ensures CR !in CanonicalText(s)
  {
    if CR !in s {
      NoCrFixed(s);
    }
    var r := CanonicalText(s);
    assert forall i :: 0 <= i < |r| ==> r[i] != CR;
  }

  lemma {:induction false} NoCrFixed(s: Buf)
    requires CR !in s
    ensures ReplaceCr(ReplaceCrLf(s)) == s
  {
    if s != [] {
      NoCrFixed(s[1..]);
      assert ReplaceCrLf(s)[1..] == ReplaceCrLf(s[1..]);
    }
  }

  /** How a wire writes one line feed. */
  datatype Ending = AsLf | AsCr | AsCrLf

  function EndingBytes(e: Ending): Buf {
    match e
    case AsLf => [LF]
    case AsCr => [CR]
    case AsCrLf => [CR, LF]
  }

  /** `t` with the line feed at each place `i` written as `how[i]` says. */
  function Rewritten(t: Buf, how: seq<Ending>): Buf
    requires |t| == |how|
  {
    if t == [] then []
    else (if t[0] == LF then EndingBytes(how[0]) else [t[0]]) + Rewritten(t[1..], how[1..])
  }

  /** Somewhere a line feed written CR is followed at once by one left LF: the
      two read as a single CR LF. */
  ghost predicate Joins(t: Buf, how: seq<Ending>)
    requires |t| == |how|
  {
    exists i :: 0 <= i < |t| - 1 && JoinsAt(t, how, i)
  }

  predicate JoinsAt(t: Buf, how: seq<Ending>, i: nat)
    requires |t| == |how| && i + 1 < |t|
  {
    t[i] == LF && how[i] == AsCr && t[i + 1] == LF && how[i + 1] == AsLf
  }

  lemma {:induction false} RewrittenLength(t: Buf, how: seq<Ending>)
    requires |t| == |how| && CR !in t
    ensures var r := OnePass(Rewritten(t, how));
            if Joins(t, how) then |r| < |t| else r == t
    decreases |t|
  {
    if t != [] {
      var more := Rewritten(t[1..], how[1..]);
      RewrittenLength(t[1..], how[1..]);
      assert forall i :: 0 <= i < |t| - 2 ==> JoinsAt(t[1..], how[1..], i) == JoinsAt(t, how, i + 1);
      assert forall i :: 1 <= i < |t| - 1 ==> JoinsAt(t, how, i) == JoinsAt(t[1..], how[1..], i - 1);
      assert Joins(t, how) <==> (|t| > 1 && JoinsAt(t, how, 0)) || Joins(t[1..], how[1..]);
      if t[0] == LF && how[0] == AsCr {
        assert ([CR] + more)[1..] == more;
        if |t| > 1 {
          var rest := Rewritten(t[1..][1..], how[1..][1..]);
          if JoinsAt(t, how, 0) {
            RewrittenLength(t[2..], how[2..]);
            assert more == [LF] + rest && t[1..][1..] == t[2..] && how[1..][1..] == how[2..];
            assert ([CR] + more)[2..] == rest;
          } else {
            assert more[0] != LF;
          }
        }
      } else if t[0] == LF && how[0] == AsCrLf {
        assert ([CR, LF] + more)[2..] == more;
      } else {
        assert ([t[0]] + more)[1..] == more;
      }
    }
  }

  /** A text without CR survives its line endings being rewritten exactly when
      no CR written for one is followed at once by an LF left for the next. */
  lemma RewrittenIff(t: Buf, how: seq<Ending>)
    requires |t| == |how| && CR !in t
    ensures CanonicalText(Rewritten(t, how)) == t <==> !Joins(t, how)
  {
    RewrittenLength(t, how);
    CanonicalOnePass(Rewritten(t, how));
  }

  /** Two blank lines, the first written CR and the second LF, read as one. */
  lemma MixedEndingsJoin()
    ensures Joins([LF, LF], [AsCr, AsLf])
    ensures CanonicalText(Rewritten([LF, LF], [AsCr, AsLf])) == [LF]
  {
    assert JoinsAt([LF, LF], [AsCr, AsLf], 0);
    CanonicalOnePass([CR, LF]);
    var t, how := [LF, LF], [AsCr, AsLf];
    assert t[1..] == [LF] && how[1..] == [AsLf] && t[1..][1..] == [];
    assert Rewritten(t[1..], how[1..]) == [LF] + Rewritten(t[1..][1..], how[1..][1..]);
    assert Rewritten(t, how) == [CR] + Rewritten(t[1..], how[1..]) == [CR, LF];
    assert [CR, LF][2..] == [];
  }
}
