/** Identities linked to accounts: each operation under one lock, with the indexed
    lookup, and what any run of them keeps. */
module Links {
  import opened Bytes
  import opened Cbor
  import opened Keys
  import opened FingerprintIndex

  type Accounts = map<string, Content>

  function Contents(files: Files): Accounts {
    map l | l in files :: files[l].content
  }

  /** The identity an account resolves to: its text parsed, its digits folded. */
  function LinkedTo(c: Content): Option<Bytes32> {
    match TextOf(c)
    case None => None
    case Some(text) => Parsed(text)
  }

  /** The index compares texts, only their case folded. */
  predicate CarriesKey(c: Content, key: Bytes32) {
    Matches(TextOf(c), Shown(key))
  }

  function Linking(c: Content, key: Bytes32): Content {
    c.(fp := Some(Shown(key)))
  }

  // What each operation does, with an ideal lookup.

  datatype Act =
    | Link(login: string, key: Bytes32)
    | Unlink(key: Bytes32)
    | Rotate(key: Bytes32, to: Bytes32)
    | FindOrCreate(candidates: seq<string>, key: Bytes32)
    | AdminWrite(login: string, content: Content)
    | AdminDelete(login: string)

  ghost predicate NoneCarry(a: Accounts, key: Bytes32) {
    forall l | l in a :: !CarriesKey(a[l], key)
  }

  /** A link is made only for a readable account with a password and no link, that
      lets its user link it, and only for an identity no account carries. */
  predicate MayLink(c: Content, key: Bytes32) {
    c.readable && c.password && LinkedTo(c).None? && c.selfLink
  }

  ghost predicate Does(a: Accounts, act: Act, b: Accounts) {
    match act
    case Link(login, key) =>
      if login in a && MayLink(a[login], key) && NoneCarry(a, key) then b == a[login := Linking(a[login], key)]
      else b == a
    case Unlink(key) =>
      if NoneCarry(a, key) then b == a
      else exists l :: l in a && CarriesKey(a[l], key) &&
                         b == if a[l].password then a[l := a[l].(fp := None)] else a
    case Rotate(key, to) =>
      if NoneCarry(a, key) || !NoneCarry(a, to) then b == a
      else exists l :: l in a && CarriesKey(a[l], key) && b == a[l := Linking(a[l], to)]
    case FindOrCreate(candidates, key) =>
      if !NoneCarry(a, key) || FirstFree(candidates, a).None? then b == a
      else b == a[FirstFree(candidates, a).value := Content(true, false, Some(Shown(key)), true)]
    case AdminWrite(login, content) =>
      if login in a && !a[login].readable then b == a
      else b == a[login := content.(readable := true, fp := if login in a then a[login].fp else None)]
    case AdminDelete(login) => b == a - {login}
  }

  function FirstFree(candidates: seq<string>, a: Accounts): (r: Option<string>)
    ensures r.Some? ==> r.value in candidates && r.value !in a
    ensures r.None? ==> forall c | c in candidates :: c in a
  {
    if candidates == [] then None
    else if candidates[0] !in a then Some(candidates[0])
    else FirstFree(candidates[1..], a)
  }

  // What they keep.

  /** Each identity is linked by at most one account. */
  ghost predicate OneAccountEach(a: Accounts) {
    forall l, m | l in a && m in a && LinkedTo(a[l]).Some? && LinkedTo(a[l]) == LinkedTo(a[m]) :: l == m
  }

  /** A text that names an identity is written as that identity is shown, but for case. */
  ghost predicate AsShown(a: Accounts) {
    forall l | l in a && LinkedTo(a[l]).Some? :: CarriesKey(a[l], LinkedTo(a[l]).value)
  }

  lemma LowerShown(key: Bytes32)
    ensures LowerAll(Shown(key)) == Shown(key)
  {
    hide ToBase32, FromBe;
    var s := Shown(key);
    forall i | 0 <= i < |s| ensures Lower(s[i]) == s[i] {
      LowerDigit(s[i]);
    }
  }

  lemma LowerDigit(c: Byte)
    requires c in CROCKFORD
    ensures Lower(c) == c
  {
    FoldShown(c);
  }

  lemma FoldLower(c: Byte)
    ensures Lower(c) in CROCKFORD ==> Fold(c) == Lower(c)
  {
    if Lower(c) in CROCKFORD {
      FoldShown(Lower(c));
    }
  }

  /** Whoever carries an identity is linked to it. */
  lemma CarriesLinked(c: Content, key: Bytes32)
    requires CarriesKey(c, key)
    ensures LinkedTo(c) == Some(key)
  {
    hide ToBase32, FromBe, Lower, Fold;
    var text, s := TextOf(c).value, Shown(key);
    LowerShown(key);
    forall i | 0 <= i < |text| ensures Fold(text[i]) == s[i] {
      assert LowerAll(text)[i] == s[i];
      FoldLower(text[i]);
    }
    assert FoldAll(text) == s;
    ParsedIff(text, key);
  }

  lemma LinkingCarries(c: Content, key: Bytes32)
    ensures c.readable ==> CarriesKey(Linking(c, key), key) && LinkedTo(Linking(c, key)) == Some(key)
    ensures !c.readable ==> LinkedTo(Linking(c, key)).None?
  {
    hide Shown, Parsed;
    if c.readable {
      CarriesLinked(Linking(c, key), key);
    }
  }

  /** While texts are as shown, nobody but a carrier is linked. */
  lemma NoneLinked(a: Accounts, key: Bytes32)
    requires AsShown(a) && NoneCarry(a, key)
    ensures forall l | l in a :: LinkedTo(a[l]) != Some(key)
  {
    hide Matches, TextOf, LinkedTo;
  }

  lemma GiveKeeps(a: Accounts, l: string, c: Content, key: Bytes32)
    requires OneAccountEach(a) && AsShown(a) && c.readable
    requires forall m | m in a && m != l :: LinkedTo(a[m]) != Some(key)
    ensures var b := a[l := Linking(c, key)]; OneAccountEach(b) && AsShown(b)
  {
    hide LinkedTo, CarriesKey, Linking;
    LinkingCarries(c, key);
  }

  lemma SameLinkKeeps(a: Accounts, l: string, c: Content)
    requires OneAccountEach(a) && AsShown(a)
    requires LinkedTo(c).None? || (l in a && TextOf(c) == TextOf(a[l]))
    ensures OneAccountEach(a[l := c]) && AsShown(a[l := c])
  {
    hide Matches, Shown, Parsed;
  }

  /** Each operation keeps it. */
  lemma ActKeeps(a: Accounts, act: Act, b: Accounts)
    requires OneAccountEach(a) && AsShown(a) && Does(a, act, b)
    ensures OneAccountEach(b) && AsShown(b)
  {
    hide OneAccountEach, AsShown, CarriesKey, Linking, FirstFree, NoneCarry;
    match act
    case Link(login, key) =>
      if b != a {
        NoneLinked(a, key);
        GiveKeeps(a, login, a[login], key);
      }
    case Unlink(key) =>
      if b != a {
        var l :| l in a && CarriesKey(a[l], key) && b == a[l := a[l].(fp := None)];
        SameLinkKeeps(a, l, a[l].(fp := None));
      }
    case Rotate(key, to) =>
      if b != a {
        RotateKeeps(a, key, to, b);
      }
    case FindOrCreate(candidates, key) =>
      if b != a {
        CreateKeeps(a, candidates, key, b);
      }
    case AdminWrite(login, content) =>
      if b != a {
        SameLinkKeeps(a, login, b[login]);
      }
    case AdminDelete(login) => LessKeeps(a, login);
  }

  lemma RotateKeeps(a: Accounts, key: Bytes32, to: Bytes32, b: Accounts)
    requires OneAccountEach(a) && AsShown(a) && Does(a, Rotate(key, to), b) && b != a
    ensures OneAccountEach(b) && AsShown(b)
  {
    hide OneAccountEach, AsShown, CarriesKey, Linking, NoneCarry;
    var l :| l in a && CarriesKey(a[l], key) && b == a[l := Linking(a[l], to)];
    NoneLinked(a, to);
    CarriesReadable(a[l], key);
    GiveKeeps(a, l, a[l], to);
  }

  lemma CreateKeeps(a: Accounts, candidates: seq<string>, key: Bytes32, b: Accounts)
    requires OneAccountEach(a) && AsShown(a) && Does(a, FindOrCreate(candidates, key), b) && b != a
    ensures OneAccountEach(b) && AsShown(b)
  {
    hide OneAccountEach, AsShown, CarriesKey, Linking, FirstFree, NoneCarry;
    NoneLinked(a, key);
    Made(key);
    GiveKeeps(a, FirstFree(candidates, a).value, Content(true, false, None, true), key);
  }

  lemma Made(key: Bytes32)
    ensures Linking(Content(true, false, None, true), key) == Content(true, false, Some(Shown(key)), true)
  {
  }

  lemma CarriesReadable(c: Content, key: Bytes32)
    requires CarriesKey(c, key)
    ensures c.readable
  {
  }

  lemma LessKeeps(a: Accounts, login: string)
    requires OneAccountEach(a) && AsShown(a)
    ensures OneAccountEach(a - {login}) && AsShown(a - {login})
  {
    hide LinkedTo, CarriesKey;
  }

  /** The states of a run, each operation having done its work. */
  ghost predicate Runs(states: seq<Accounts>, acts: seq<Act>) {
    && |states| == |acts| + 1
    && forall i | 0 <= i < |acts| :: Does(states[i], acts[i], states[i + 1])
  }

  /** Over any run, each identity is linked by one account at most. */
  lemma {:induction false} RunKeeps(states: seq<Accounts>, acts: seq<Act>, i: nat)
    requires Runs(states, acts) && OneAccountEach(states[0]) && AsShown(states[0]) && i < |states|
    ensures OneAccountEach(states[i]) && AsShown(states[i])
    decreases i
  {
    hide OneAccountEach, AsShown, Does;
    if i > 0 {
      RunKeeps(states, acts, i - 1);
      assert Does(states[i - 1], acts[i - 1], states[i - 1 + 1]);
      ActKeeps(states[i - 1], acts[i - 1], states[i]);
    }
  }

  /** While a text spells an identity otherwise than it is shown, nobody carries it,
      and a second account is made for it under any name that is free. */
  lemma OtherSpellingLinksTwice(a: Accounts, l: string, key: Bytes32, name: string)
    requires OneAccountEach(a) && l in a && LinkedTo(a[l]) == Some(key) && !CarriesKey(a[l], key)
    requires name !in a
    ensures var b := a[name := Content(true, false, Some(Shown(key)), true)];
            Does(a, FindOrCreate([name], key), b) && !OneAccountEach(b)
  {
    hide CarriesKey, Linking, LinkedTo, Shown, NoneCarry;
    NobodyCarries(a, l, key);
    var b := a[name := Content(true, false, Some(Shown(key)), true)];
    assert FirstFree([name], a) == Some(name);
    Made(key);
    LinkingCarries(Content(true, false, None, true), key);
    assert LinkedTo(b[l]) == LinkedTo(b[name]) && l in b && name in b;
  }

  lemma NobodyCarries(a: Accounts, l: string, key: Bytes32)
    requires OneAccountEach(a) && l in a && LinkedTo(a[l]) == Some(key) && !CarriesKey(a[l], key)
    ensures NoneCarry(a, key)
  {
    hide CarriesKey, LinkedTo;
    forall m | m in a ensures !CarriesKey(a[m], key) {
      if CarriesKey(a[m], key) {
        CarriesLinked(a[m], key);
      }
    }
  }

  lemma FreeName(a: Accounts) returns (name: string)
    ensures name !in a
  {
    name := LongerThan(a.Keys);
  }

  lemma {:induction false} LongerThan(names: set<string>) returns (name: string)
    ensures forall n | n in names :: |n| < |name|
    decreases names
  {
    if names == {} {
      name := "a";
    } else {
      var n :| n in names;
      name := LongerThan(names - {n});
      if |name| <= |n| {
        name := n + "a";
      }
    }
  }

  /** Texts as shown are exactly what it takes: with them no operation links an
      identity twice, and without them some operation does. */
  lemma ActKeepsIff(a: Accounts)
    requires OneAccountEach(a)
    ensures AsShown(a) <==> forall act, b | Does(a, act, b) :: OneAccountEach(b)
  {
    hide OneAccountEach, Does, CarriesKey, LinkedTo;
    if AsShown(a) {
      forall act, b | Does(a, act, b) ensures OneAccountEach(b) {
        ActKeeps(a, act, b);
      }
    } else {
      var l :| l in a && LinkedTo(a[l]).Some? && !CarriesKey(a[l], LinkedTo(a[l]).value);
      var name := FreeName(a);
      OtherSpellingLinksTwice(a, l, LinkedTo(a[l]).value, name);
    }
  }

  /** And over runs: every run from these accounts keeps identities apart exactly
      when their texts are as shown. */
  lemma RunKeepsIff(a: Accounts)
    requires OneAccountEach(a)
    ensures AsShown(a) <==>
            forall states, acts | Runs(states, acts) && states[0] == a :: OneAccountEach(states[|states| - 1])
  {
    hide OneAccountEach, AsShown, Does;
    ActKeepsIff(a);
    if AsShown(a) {
      forall states, acts | Runs(states, acts) && states[0] == a ensures OneAccountEach(states[|states| - 1]) {
        RunKeeps(states, acts, |states| - 1);
      }
    } else {
      var act, b :| Does(a, act, b) && !OneAccountEach(b);
      var states, acts := [a, b], [act];
      assert Runs(states, acts) && states[0] == a && states[|states| - 1] == b;
    }
  }

  /** An identity may be spelled otherwise exactly when a zero or a one is shown of
      it, for which look-alikes may be typed. */
  lemma AnotherSpellingIff(key: Bytes32)
    ensures 48 in Shown(key) || 49 in Shown(key) <==>
            exists text :: Parsed(text) == Some(key) && LowerAll(text) != Shown(key)
  {
    hide Shown, Parsed, FoldAll, LowerAll;
    var s := Shown(key);
    if 48 in s || 49 in s {
      var i :| 0 <= i < |s| && (s[i] == 48 || s[i] == 49);
      LookAlike(key, i);
    }
    forall text | Parsed(text) == Some(key) && LowerAll(text) != s ensures 48 in s || 49 in s {
      ParsedIff(text, key);
      var i :| 0 <= i < |text| && LowerAll(text)[i] != s[i];
      assert FoldAll(text)[i] == s[i];
    }
  }

  lemma LookAlike(key: Bytes32, i: nat)
    requires i < 52 && (Shown(key)[i] == 48 || Shown(key)[i] == 49)
    ensures var text := Shown(key)[i := if Shown(key)[i] == 48 then 111 else 105];
            Parsed(text) == Some(key) && LowerAll(text) != Shown(key)
  {
    hide Shown, Parsed, LowerAll;
    var s := Shown(key);
    var text := s[i := if s[i] == 48 then 111 else 105];
    forall j | 0 <= j < 52 ensures Fold(text[j]) == s[j] {
      if j != i {
        ShownDigit(key, j);
        FoldShown(s[j]);
      }
    }
    assert FoldAll(text) == s;
    ParsedIff(text, key);
    assert LowerAll(text)[i] == Lower(text[i]) != s[i];
  }

  lemma ShownDigit(key: Bytes32, j: nat)
    requires j < 52
    ensures Shown(key)[j] in CROCKFORD
  {
    hide ToBase32, FromBe;
  }

  /** So half of all identities may be, if not more: those whose last bit is clear. */
  lemma LastDigit(key: Bytes32)
    requires key[31] % 2 == 0
    ensures Shown(key)[51] == 48
  {
    hide Pow256;
    var n := FromBe(key);
    assert n == FromBe(key[..31]) * 256 + key[31];
    assert n * 16 % 32 == 0;
    assert ToBase32(n * 16, 52)[51] == n * 16 % 32;
  }

  /** No operation links an account that has neither a password nor a link: it
      would be anyone's to take. */
  lemma NeverCaptured(a: Accounts, act: Act, b: Accounts, l: string)
    requires Does(a, act, b) && l in a && l in b && !a[l].password && LinkedTo(a[l]).None?
    ensures LinkedTo(b[l]).None?
  {
    hide Matches, Parsed, Shown, FirstFree;
    if act.Rotate? && b != a {
      var m :| m in a && CarriesKey(a[m], act.key) && b == a[m := Linking(a[m], act.to)];
      CarriesLinked(a[m], act.key);
    }
    if act.Unlink? && b != a {
      var m :| m in a && CarriesKey(a[m], act.key) && b == a[m := a[m].(fp := None)];
    }
  }

  /** And none leaves an account it unlinks with no way in. */
  lemma NeverOrphaned(a: Accounts, act: Act, b: Accounts, l: string)
    requires Does(a, act, b) && l in a && l in b && LinkedTo(a[l]).Some? && LinkedTo(b[l]).None?
    ensures b[l].password
  {
    hide Matches, Parsed, Shown, FirstFree;
    if act.Rotate? && b != a {
      var m :| m in a && CarriesKey(a[m], act.key) && b == a[m := Linking(a[m], act.to)];
      CarriesReadable(a[m], act.key);
      LinkingCarries(a[m], act.to);
    }
    if act.Unlink? && b != a {
      var m :| m in a && CarriesKey(a[m], act.key) && b == a[m := a[m].(fp := None)];
    }
  }

  // The operations, under their lock.

  datatype LinkOutcome = Linked | Already | Taken | Refused | NoAccount

  datatype UnlinkOutcome = Unlinked | NotLinked | WouldOrphan | Gone

  class FileAuth {
    const index: Index

    ghost predicate Valid()
      reads this, index, index.disk
    {
      index.Valid()
    }

    ghost function Now(): Accounts
      reads this, index, index.disk
    {
      Contents(index.disk.files)
    }

    constructor (index: Index)
      requires index.Valid()
      ensures this.index == index && Valid()
    {
      this.index := index;
    }

    /** A file written whole and put in place, with a length and a time between. */
    method Write(login: string, content: Content, len: nat, lag: nat)
      requires Valid()
      modifies index.disk
      ensures Valid() && Now() == old(Now())[login := content]
      ensures index.disk.Undisturbed() == old(index.disk.Undisturbed())
    {
      var disk := index.disk;
      var written := if lag <= disk.delay && lag <= disk.now then disk.now - lag else disk.now;
      ghost var files := disk.files;
      disk.Place(login, len, written, content);
      StaysCoherent(index.cache, files, disk.now, disk.files, disk.now);
    }

    /** The link set or cleared in the file as it reads now, and the index told. */
    method WriteLink(login: string, key: Option<Bytes32>, len: nat, lag: nat) returns (ok: bool)
      requires Valid()
      modifies index`byFp, index.disk
      ensures Valid()
      ensures old(index.disk.Undisturbed()) ==>
                && index.disk.Undisturbed()
                && (ok <==> login in old(Now()) && old(Now())[login].readable)
                && Now() == if ok then old(Now())[login := Relinked(old(Now())[login], key)] else old(Now())
    {
      hide Shown;
      index.Elapse();
      if login !in index.disk.files || !index.disk.files[login].content.readable {
        return false;
      }
      var content := Relinked(index.disk.files[login].content, key);
      index.Elapse();
      Write(login, content, len, lag);
      index.byFp := map k | k in index.byFp && index.byFp[k] != login :: index.byFp[k];
      if key.Some? {
        index.byFp := index.byFp[LowerAll(Shown(key.value)) := login];
      }
      ok := true;
    }

    method LinkIdentity(login: string, key: Bytes32, len: nat, lag: nat) returns (r: LinkOutcome)
      requires Valid()
      modifies index, index.disk
      ensures Valid()
      ensures old(index.disk.Undisturbed()) ==>
                && index.disk.Undisturbed() && Does(old(Now()), Link(login, key), Now())
                && (r == Linked ==> login in Now() && LinkedTo(Now()[login]) == Some(key))
                && (r == Already ==> login in Now() && LinkedTo(Now()[login]) == Some(key))
                && Now() == (if r == Linked then old(Now())[login := Linking(old(Now())[login], key)] else old(Now()))
                && (r == NoAccount <==> login !in old(Now()) || !old(Now())[login].readable)
                && (r != NoAccount ==>
                      var c := old(Now())[login];
                      var may := c.password && c.selfLink && LinkedTo(c).None?;
                      && (r == Already <==> LinkedTo(c) == Some(key))
                      && (r == Refused <==> LinkedTo(c) != Some(key) && !may)
                      && (r == Linked <==> may && NoneCarry(old(Now()), key)))
    {
      hide Shown, Parsed, Matches, LowerAll;
      index.Elapse();
      if login !in index.disk.files || !index.disk.files[login].content.readable {
        return NoAccount;
      }
      var account := index.disk.files[login].content;
      if LinkedTo(account) == Some(key) {
        return Already;
      }
      if !account.password || LinkedTo(account).Some? || !account.selfLink {
        return Refused;
      }
      var other := index.LoginFor(Want(key));
      LookupSays(index.disk.files, key, other);
      if other.Some? {
        return Taken;
      }
      var ok := WriteLink(login, Some(key), len, lag);
      LinkingCarries(account, key);
      r := if ok then Linked else NoAccount;
    }

    method RotateLink(key: Bytes32, to: Bytes32, len: nat, lag: nat) returns (ok: bool)
      requires Valid()
      modifies index, index.disk
      ensures Valid()
      ensures old(index.disk.Undisturbed()) ==>
                && index.disk.Undisturbed() && Does(old(Now()), Rotate(key, to), Now())
                && (ok <==> !NoneCarry(old(Now()), key) && NoneCarry(old(Now()), to))
                && (ok ==> exists l :: l in old(Now()) && CarriesKey(old(Now())[l], key)
                                       && Now() == old(Now())[l := Linking(old(Now())[l], to)])
                && (!ok ==> Now() == old(Now()))
    {
      hide Shown, Parsed, Matches, LowerAll;
      var login := index.LoginFor(Want(key));
      LookupSays(index.disk.files, key, login);
      if login.None? {
        return false;
      }
      var other := index.LoginFor(Want(to));
      LookupSays(index.disk.files, to, other);
      if other.Some? {
        return false;
      }
      ghost var was := Now();
      ok := WriteLink(login.value, Some(to), len, lag);
    }

    method UnlinkIdentity(key: Bytes32, len: nat, lag: nat) returns (r: UnlinkOutcome)
      requires Valid()
      modifies index, index.disk
      ensures Valid()
      ensures old(index.disk.Undisturbed()) ==>
                && index.disk.Undisturbed() && Does(old(Now()), Unlink(key), Now())
                && (r == NotLinked <==> NoneCarry(old(Now()), key)) && r != Gone
                && (r != NotLinked ==> exists l ::
                      && l in old(Now()) && CarriesKey(old(Now())[l], key)
                      && (r == Unlinked <==> old(Now())[l].password)
                      && Now() == if r == Unlinked then old(Now())[l := old(Now())[l].(fp := None)] else old(Now()))
    {
      hide Shown, Parsed, Matches, LowerAll;
      var login := index.LoginFor(Want(key));
      LookupSays(index.disk.files, key, login);
      if login.None? {
        return NotLinked;
      }
      index.Elapse();
      if login.value !in index.disk.files || !index.disk.files[login.value].content.readable {
        return NotLinked;
      }
      if !index.disk.files[login.value].content.password {
        return WouldOrphan;
      }
      var ok := WriteLink(login.value, None, len, lag);
      r := if ok then Unlinked else Gone;
    }

    /** The account that carries the identity, or a new one under the first name free. */
    method FindOrCreateLinked(candidates: seq<string>, key: Bytes32, len: nat, lag: nat) returns (r: Option<string>)
      requires Valid()
      modifies index, index.disk
      ensures Valid()
      ensures old(index.disk.Undisturbed()) ==>
                && index.disk.Undisturbed() && Does(old(Now()), FindOrCreate(candidates, key), Now())
                && (r.Some? ==> r.value in Now() && LinkedTo(Now()[r.value]) == Some(key))
                && (!NoneCarry(old(Now()), key) ==> r.Some? && r.value in old(Now()) && Now() == old(Now()))
                && (NoneCarry(old(Now()), key) ==>
                      && r == FirstFree(candidates, old(Now()))
                      && Now() == if r.Some? then old(Now())[r.value := Content(true, false, Some(Shown(key)), true)]
                                  else old(Now()))
    {
      hide Shown, Parsed, Matches, LowerAll, FirstFree;
      ghost var was := Now();
      ghost var quiet := index.disk.Undisturbed();
      var existing := index.LoginFor(Want(key));
      LookupSays(index.disk.files, key, existing);
      if existing.Some? {
        return existing;
      }
      assert candidates[0..] == candidates;
      for i := 0 to |candidates|
        invariant Valid() && (quiet ==> index.disk.Undisturbed() && Now() == was)
        invariant quiet ==> FirstFree(candidates, was) == FirstFree(candidates[i..], was)
      {
        FreeNext(candidates, i, was);
        index.Elapse();
        if candidates[i] !in index.disk.files {
          Write(candidates[i], Content(true, false, Some(Shown(key)), true), len, lag);
          Made(key);
          LinkingCarries(Content(true, false, None, true), key);
          return Some(candidates[i]);
        }
      }
      assert candidates[|candidates|..] == [];
      FreeNone(was);
      r := None;
    }
  }

  function Relinked(c: Content, key: Option<Bytes32>): Content {
    if key.Some? then Linking(c, key.value) else c.(fp := None)
  }

  function Want(key: Bytes32): Buf {
    LowerAll(Shown(key))
  }

  /** The indexed lookup is the ideal one. */
  lemma LookupSays(files: Files, key: Bytes32, found: Option<string>)
    ensures found.Some? && Carries(files, found.value, Want(key)) ==>
              && found.value in Contents(files) && CarriesKey(Contents(files)[found.value], key)
              && Contents(files)[found.value].readable && LinkedTo(Contents(files)[found.value]) == Some(key)
              && !NoneCarry(Contents(files), key)
    ensures found.None? && (forall login :: !Carries(files, login, Want(key))) ==> NoneCarry(Contents(files), key)
  {
    hide Shown, Parsed;
    LowerShown(key);
    var a := Contents(files);
    if found.Some? && Carries(files, found.value, Want(key)) {
      CarriesLinked(a[found.value], key);
    }
    if found.None? && (forall login :: !Carries(files, login, Want(key))) {
      forall l | l in a ensures !CarriesKey(a[l], key) {
        assert !Carries(files, l, Want(key));
      }
    }
  }

  lemma FreeNext(candidates: seq<string>, i: nat, a: Accounts)
    requires i < |candidates|
    ensures FirstFree(candidates[i..], a) ==
            if candidates[i] !in a then Some(candidates[i]) else FirstFree(candidates[i + 1..], a)
  {
    assert candidates[i..][0] == candidates[i] && candidates[i..][1..] == candidates[i + 1..];
  }

  lemma FreeNone(a: Accounts)
    ensures FirstFree([], a).None?
  {
  }
}
