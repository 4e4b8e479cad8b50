/** An account file's access table and roles, and the configuration they make. */
module AccountFiles {
  import opened Cbor
  import opened Accounts

  /** A key of an access table: a bit's name, the old name of the history bit, or
      anything else. */
  datatype Name = Named(bit: nat) | OldHistory | Unknown(text: string)

  /** An access table's content: keys with a yes or no, and two lists of numbers. */
  datatype Table = Table(named: map<Name, bool>, rawBits: seq<int>, rawDeny: seq<int>)

  /** What a role grants. */
  datatype Role = Role(access: Bits, extra: Extras<bool>)

  type Roles = map<string, Role>

  const EVERYONE: string := "everyone"

  /** What of an account's file its configuration is made of. */
  datatype File = File(table: Table, extra: Extras<Option<bool>>, roles: seq<string>)

  /** The bits that have names. */
  predicate HasName(b: nat) {
    b <= 11 || 14 <= b <= 17 || 20 <= b <= 40 || 55 <= b <= 60
  }

  lemma NamelessBits(b: nat)
    ensures HasName(b) <==> b < 61 && b !in {12, 13, 18, 19} && !(41 <= b < 55)
  {
  }

  /** A table as a file's reader takes it: a named key is one of the names, and a
      number fits a byte. */
  predicate Readable(t: Table) {
    && (forall k | k in t.named && k.Named? :: HasName(k.bit))
    && AllBytes(t.rawBits) && AllBytes(t.rawDeny)
  }

  predicate AllBytes(list: seq<int>) {
    forall i | 0 <= i < |list| :: 0 <= list[i] < 256
  }

  function BitOf(k: Name): Option<nat> {
    match k
    case Named(b) => Some(b)
    case OldHistory => Some(CHAT_HISTORY)
    case Unknown(_) => None
  }

  /** The value of a bit's key; the old name of the history bit where its own is
      not there. */
  function KeyOf(t: Table, b: nat): Option<bool> {
    if Named(b) in t.named then Some(t.named[Named(b)])
    else if b == CHAT_HISTORY && OldHistory in t.named then Some(t.named[OldHistory])
    else None
  }

  /** What the file says of a bit, whatever its roles do: withheld by number, or
      set by number, or as its key has it. */
  function Says(t: Table, b: nat): Option<bool> {
    if b in t.rawDeny then Some(false)
    else if b in t.rawBits then Some(true)
    else KeyOf(t, b)
  }

  predicate NamesHistory(t: Table) {
    KeyOf(t, CHAT_HISTORY).Some? || CHAT_HISTORY in t.rawDeny
  }

  /** The bits the file's own keys set. */
  function Grants(t: Table): Bits {
    set b: nat | b < 64 && Says(t, b) == Some(true)
  }

  /** The bits they withhold. */
  function Denies(t: Table): Bits {
    set b: nat | b < 64 && Says(t, b) == Some(false)
  }

  /** Every bit granted: by the file, or by a role where the file says nothing. */
  function Allows(t: Table, granted: Bits): Bits {
    set b: nat | b < 64 && (Says(t, b) == Some(true) || (Says(t, b).None? && b in granted))
  }

  // Roles.

  /** The roles whose grants count for a file, in the order they are folded. */
  function Held(roles: Roles, listed: seq<string>): (r: seq<string>)
    ensures forall n :: n in r <==> n in roles && (n in listed || n == EVERYONE)
  {
    Existing(roles, [EVERYONE] + listed)
  }

  function Existing(roles: Roles, names: seq<string>): (r: seq<string>)
    ensures forall n :: n in r <==> n in roles && n in names
  {
    if names == [] then []
    else
      assert names == [names[0]] + names[1..];
      (if names[0] in roles then [names[0]] else []) + Existing(roles, names[1..])
  }

  /** What some roles grant together. */
  function Granted(roles: Roles, held: seq<string>): (r: Role)
    requires forall n | n in held :: n in roles
    ensures forall b :: b in r.access <==> exists n :: n in held && b in roles[n].access
  {
    if held == [] then Role({}, All(false))
    else
      var k := |held| - 1;
      assert held == held[..k] + [held[k]];
      var p := Granted(roles, held[..k]);
      Role(p.access + roles[held[k]].access, Either(p.extra, roles[held[k]].extra))
  }

  function RoleGrants(roles: Roles, listed: seq<string>): Role {
    Granted(roles, Held(roles, listed))
  }

  function Own(own: Option<bool>, granted: bool): Option<bool> {
    if own.Some? then own else if granted then Some(true) else None
  }

  function WithoutEveryone(names: seq<string>): (r: seq<string>)
    ensures forall n :: n in r <==> n in names && n != EVERYONE
  {
    if names == [] then []
    else
      assert names == [names[0]] + names[1..];
      (if names[0] != EVERYONE then [names[0]] else []) + WithoutEveryone(names[1..])
  }

  /** A file's configuration as a function of what its roles grant: bit by bit the
      file decides where it says anything, and key by key likewise. */
  function Configured(f: File, granted: Role, held: seq<string>): Config {
    var t := f.table;
    Config(Allows(t, granted.access), CHAT_HISTORY in granted.access || NamesHistory(t),
           ZipWith(f.extra, granted.extra, Own), Grants(t), Denies(t), WithoutEveryone(held))
  }

  function Configure(f: File, roles: Roles): Config {
    Configured(f, RoleGrants(roles, f.roles), Held(roles, f.roles))
  }

  /** The key that speaks of a bit has this value; the history bit's old name speaks
      of it where its own is not there. */
  predicate KeyReads(t: Table, b: nat, on: bool) {
    || (Named(b) in t.named && t.named[Named(b)] == on)
    || (b == CHAT_HISTORY && Named(b) !in t.named && OldHistory in t.named && t.named[OldHistory] == on)
  }

  /** `everyone`, or a role the file lists, if there is one of that name. */
  predicate Counts(f: File, roles: Roles, n: string) {
    n in roles && (n == EVERYONE || n in f.roles)
  }

  /** A number that withholds a bit is what counts, then one that sets it, then its
      key, and where there is none of them the roles that count. */
  lemma ConfiguredBit(f: File, roles: Roles, b: nat)
    requires b < 64
    ensures var c, t := Configure(f, roles), f.table;
            var granted := exists n :: Counts(f, roles, n) && b in roles[n].access;
            var sets, withheld := b in t.rawBits || KeyReads(t, b, true), b !in t.rawBits && KeyReads(t, b, false);
            && (b in c.access <==> b !in t.rawDeny && (sets || (granted && !withheld)))
            && (b in c.grant <==> b !in t.rawDeny && sets)
            && (b in c.deny <==> b in t.rawDeny || withheld)
  {
  }

  /** History is named by a role that grants it, by either key, or withheld by number. */
  lemma ConfiguredHistory(f: File, roles: Roles)
    ensures var c, t := Configure(f, roles), f.table;
            && (c.historyNamed <==>
                || (exists n :: Counts(f, roles, n) && CHAT_HISTORY in roles[n].access)
                || Named(CHAT_HISTORY) in t.named || OldHistory in t.named || CHAT_HISTORY in t.rawDeny)
            && forall n :: n in c.roles <==> n in roles && n in f.roles && n != EVERYONE
  {
  }

  datatype Policy = CanDetach | SetSubject | Inbox | FileList | FileGetinfo | AttachNews | SetAvatar | Moderate
                  | CanSpam | ManageRoles | ManageRooms

  function Of<T>(x: Extras<T>, p: Policy): T {
    match p
    case CanDetach => x.canDetach
    case SetSubject => x.setSubject
    case Inbox => x.inbox
    case FileList => x.fileList
    case FileGetinfo => x.fileGetinfo
    case AttachNews => x.attachNews
    case SetAvatar => x.setAvatar
    case Moderate => x.moderate
    case CanSpam => x.canSpam
    case ManageRoles => x.manageRoles
    case ManageRooms => x.manageRooms
  }

  /** A policy is as the file names it, or named by any role that counts and grants it. */
  lemma ConfiguredPolicy(f: File, roles: Roles, p: Policy)
    ensures var own := Of(f.extra, p);
            Of(Configure(f, roles).extra, p) ==
            if own.Some? then own
            else if exists n :: Counts(f, roles, n) && Of(roles[n].extra, p) then Some(true) else None
  {
    hide Held, Granted, Of;
    var held := Held(roles, f.roles);
    GrantedPolicy(roles, held, p);
    OwnPolicy(f.extra, Granted(roles, held).extra, p);
  }

  lemma OwnPolicy(own: Extras<Option<bool>>, granted: Extras<bool>, p: Policy)
    ensures Of(ZipWith(own, granted, Own), p) ==
            if Of(own, p).Some? then Of(own, p) else if Of(granted, p) then Some(true) else None
  {
  }

  lemma {:induction false} GrantedPolicy(roles: Roles, held: seq<string>, p: Policy)
    requires forall n | n in held :: n in roles
    ensures Of(Granted(roles, held).extra, p) <==> exists n :: n in held && Of(roles[n].extra, p)
  {
    if held != [] {
      var k := |held| - 1;
      assert held == held[..k] + [held[k]];
      GrantedPolicy(roles, held[..k], p);
    }
  }

  // The loops that make it.

  /** The order an ordered map gives the keys in: "chat_history" comes before
      "read_chat_history". */
  ghost predicate InOrder(keys: seq<Name>, named: map<Name, bool>) {
    && (forall k :: k in keys <==> k in named)
    && (forall i, j | 0 <= i < j < |keys| :: keys[i] != keys[j])
    && (forall i, j | 0 <= i < |keys| && 0 <= j < |keys| && keys[i] == OldHistory && keys[j] == Named(CHAT_HISTORY) ::
          i < j)
  }

  /** What the keys read so far say of a bit. */
  function SaidBy(keys: seq<Name>, named: map<Name, bool>, b: nat): Option<bool>
    requires forall k | k in keys :: k in named
  {
    if keys == [] then None
    else
      var k := keys[|keys| - 1];
      assert forall x | x in keys[..|keys| - 1] :: x in keys;
      if BitOf(k) == Some(b) then Some(named[k]) else SaidBy(keys[..|keys| - 1], named, b)
  }

  lemma SaidByAll(keys: seq<Name>, t: Table, b: nat)
    requires InOrder(keys, t.named)
    ensures SaidBy(keys, t.named, b) == KeyOf(t, b)
  {
    if Named(b) in t.named {
      var i :| 0 <= i < |keys| && keys[i] == Named(b);
      SaidByAt(keys, t.named, b, i);
    } else if b == CHAT_HISTORY && OldHistory in t.named {
      var i :| 0 <= i < |keys| && keys[i] == OldHistory;
      SaidByAt(keys, t.named, b, i);
    } else {
      SaidByNone(keys, t.named, b);
    }
  }

  /** The last key for a bit decides. */
  lemma {:induction false} SaidByAt(keys: seq<Name>, named: map<Name, bool>, b: nat, i: nat)
    requires (forall k | k in keys :: k in named) && i < |keys| && BitOf(keys[i]) == Some(b)
    requires forall j | i < j < |keys| :: BitOf(keys[j]) != Some(b)
    ensures SaidBy(keys, named, b) == Some(named[keys[i]])
  {
    if i < |keys| - 1 {
      SaidByAt(keys[..|keys| - 1], named, b, i);
    }
  }

  lemma {:induction false} SaidByNone(keys: seq<Name>, named: map<Name, bool>, b: nat)
    requires (forall k | k in keys :: k in named) && forall k | k in keys :: BitOf(k) != Some(b)
    ensures SaidBy(keys, named, b) == None
  {
    if keys != [] {
      SaidByNone(keys[..|keys| - 1], named, b);
    }
  }

  /** The bits as the loops have them. */
  datatype Sets = Sets(access: Bits, grant: Bits, deny: Bits, historyNamed: bool)

  function Turn(s: Sets, b: nat, on: bool): Sets {
    if on then s.(access := With(s.access, b), grant := With(s.grant, b), deny := Less(s.deny, b))
    else s.(access := Less(s.access, b), grant := Less(s.grant, b), deny := With(s.deny, b))
  }

  function TurnKey(s: Sets, k: Name, on: bool): Sets {
    match BitOf(k)
    case None => s
    case Some(b) => Turn(s, b, on).(historyNamed := s.historyNamed || b == CHAT_HISTORY)
  }

  /** A number set by list names no bit; one withheld by list does. */
  function TurnNumber(s: Sets, b: nat, on: bool): Sets {
    Turn(s, b, on).(historyNamed := s.historyNamed || (!on && b == CHAT_HISTORY))
  }

  function AfterKeys(s: Sets, keys: seq<Name>, named: map<Name, bool>): Sets
    requires forall k | k in keys :: k in named
  {
    if keys == [] then s else
      var k := |keys| - 1;
      assert forall x | x in keys[..k] :: x in keys;
      TurnKey(AfterKeys(s, keys[..k], named), keys[k], named[keys[k]])
  }

  function AfterList(s: Sets, list: seq<int>, on: bool): Sets
    requires AllBytes(list)
  {
    if list == [] then s else
      var k := |list| - 1;
      TurnNumber(AfterList(s, list[..k], on), list[k], on)
  }

  /** A bit as it is once something has been said of it, or nothing. */
  ghost predicate BitIs(s: Sets, before: Sets, b: nat, said: Option<bool>) {
    && (b in s.access <==> if said.Some? then b < 64 && said.value else b in before.access)
    && (b in s.grant <==> if said.Some? then b < 64 && said.value else b in before.grant)
    && (b in s.deny <==> if said.Some? then b < 64 && !said.value else b in before.deny)
  }

  lemma TurnBit(s: Sets, b: nat, on: bool, x: nat)
    ensures BitIs(Turn(s, b, on), s, x, if x == b then Some(on) else None)
  {
  }

  lemma {:induction false} AfterKeysBit(s: Sets, keys: seq<Name>, named: map<Name, bool>, b: nat)
    requires forall k | k in keys :: k in named
    ensures BitIs(AfterKeys(s, keys, named), s, b, SaidBy(keys, named, b))
    ensures AfterKeys(s, keys, named).historyNamed <==> s.historyNamed || SaidBy(keys, named, CHAT_HISTORY).Some?
  {
    hide Turn;
    if keys != [] {
      var n := |keys| - 1;
      assert forall x | x in keys[..n] :: x in keys;
      AfterKeysBit(s, keys[..n], named, b);
      var p, k := AfterKeys(s, keys[..n], named), keys[n];
      if BitOf(k).Some? {
        TurnBit(p, BitOf(k).value, named[k], b);
      }
    }
  }

  lemma {:induction false} AfterListBit(s: Sets, list: seq<int>, on: bool, b: nat)
    requires AllBytes(list)
    ensures BitIs(AfterList(s, list, on), s, b, if b in list then Some(on) else None)
    ensures AfterList(s, list, on).historyNamed <==> s.historyNamed || (!on && CHAT_HISTORY in list)
  {
    hide Turn;
    if list != [] {
      var n := |list| - 1;
      assert list == list[..n] + [list[n]];
      AfterListBit(s, list[..n], on, b);
      TurnBit(AfterList(s, list[..n], on), list[n], on, b);
    }
  }

  /** The three loops one after the other come to what the file says. */
  lemma LoopsSay(t: Table, keys: seq<Name>, granted: Bits)
    requires Readable(t) && InOrder(keys, t.named)
    ensures var s0 := Sets(granted, {}, {}, CHAT_HISTORY in granted);
            var s := AfterList(AfterList(AfterKeys(s0, keys, t.named), t.rawBits, true), t.rawDeny, false);
            && s.access == Allows(t, granted) && s.grant == Grants(t) && s.deny == Denies(t)
            && (s.historyNamed <==> CHAT_HISTORY in granted || NamesHistory(t))
  {
    hide AfterKeys, AfterList, SaidBy, KeyOf, InOrder;
    var s0 := Sets(granted, {}, {}, CHAT_HISTORY in granted);
    KeysNamed(keys, t.named);
    var s1 := AfterKeys(s0, keys, t.named);
    var s2 := AfterList(s1, t.rawBits, true);
    var s := AfterList(s2, t.rawDeny, false);
    forall b: nat
      ensures b in s.access <==> b < 64 && (Says(t, b) == Some(true) || (Says(t, b).None? && b in granted))
      ensures b in s.grant <==> b < 64 && Says(t, b) == Some(true)
      ensures b in s.deny <==> b < 64 && Says(t, b) == Some(false)
    {
      AfterKeysBit(s0, keys, t.named, b);
      SaidByAll(keys, t, b);
      AfterListBit(s1, t.rawBits, true, b);
      AfterListBit(s2, t.rawDeny, false, b);
    }
    AfterKeysBit(s0, keys, t.named, 0);
    SaidByAll(keys, t, CHAT_HISTORY);
    AfterListBit(s1, t.rawBits, true, 0);
    AfterListBit(s2, t.rawDeny, false, 0);
  }

  lemma KeysNamed(keys: seq<Name>, named: map<Name, bool>)
    requires InOrder(keys, named)
    ensures forall k | k in keys :: k in named
  {
  }

  method ReadRoles(held: seq<string>, roles: Roles) returns (granted: Role)
    requires forall n | n in held :: n in roles
    ensures granted == Granted(roles, held)
  {
    hide ZipWith;
    granted := Role({}, All(false));
    for i := 0 to |held|
      invariant granted == Granted(roles, held[..i])
    {
      assert held[..i + 1][..i] == held[..i];
      granted := Role(granted.access + roles[held[i]].access, Either(granted.extra, roles[held[i]].extra));
    }
    assert held[..|held|] == held;
  }

  method ReadKeys(from: Sets, keys: seq<Name>, named: map<Name, bool>) returns (s: Sets)
    requires forall k | k in keys :: k in named
    ensures s == AfterKeys(from, keys, named)
  {
    hide With, Less;
    s := from;
    for i := 0 to |keys|
      invariant s == AfterKeys(from, keys[..i], named)
    {
      assert keys[..i + 1][..i] == keys[..i];
      if BitOf(keys[i]).Some? {
        var b := BitOf(keys[i]).value;
        s := Turn(s, b, named[keys[i]]);
        s := s.(historyNamed := s.historyNamed || b == CHAT_HISTORY);
      }
    }
    assert keys[..|keys|] == keys;
  }

  method ReadList(from: Sets, list: seq<int>, on: bool) returns (s: Sets)
    requires AllBytes(list)
    ensures s == AfterList(from, list, on)
  {
    hide With, Less;
    s := from;
    for i := 0 to |list|
      invariant s == AfterList(from, list[..i], on)
    {
      assert list[..i + 1][..i] == list[..i];
      s := Turn(s, list[i], on);
      if !on {
        s := s.(historyNamed := s.historyNamed || list[i] == CHAT_HISTORY);
      }
    }
    assert list[..|list|] == list;
  }

  method Read(f: File, roles: Roles, keys: seq<Name>) returns (c: Config)
    requires Readable(f.table) && InOrder(keys, f.table.named)
    ensures c == Configure(f, roles)
  {
    hide Held, With, Less, Allows, Grants, Denies, ZipWith, Turn, Says, KeyOf, NamesHistory, InOrder, HasName,
         AfterKeys, AfterList, Granted;
    var t := f.table;
    var held := Held(roles, f.roles);
    var granted := ReadRoles(held, roles);
    KeysNamed(keys, t.named);
    LoopsSay(t, keys, granted.access);
    var s := ReadKeys(Sets(granted.access, {}, {}, CHAT_HISTORY in granted.access), keys, t.named);
    s := ReadList(s, t.rawBits, true);
    s := ReadList(s, t.rawDeny, false);
    c := Config(s.access, s.historyNamed, ZipWith(f.extra, granted.extra, Own), s.grant, s.deny, WithoutEveryone(held));
  }

  // Roles only add.

  predicate MoreGranted(r: Role, s: Role) {
    r.access <= s.access && Implied(r.extra, s.extra)
  }

  /** A file resolves to no less under roles that grant more: each bit, each key
      and each default that derives, history in the wake of chat too. */
  lemma MoreGrantedMoreResolved(f: File, r: Role, s: Role, h: seq<string>, i: seq<string>, person: bool)
    requires MoreGranted(r, s)
    ensures var a, b := Resolve(Configured(f, r, h), person, NO_MASK), Resolve(Configured(f, s, i), person, NO_MASK);
            a.access <= b.access && Implied(a.extra, b.extra)
  {
    hide DerivedAccess, DerivedExtras, ZipWith, OnlyGrew, Says, WithoutEveryone, NamesHistory, Allows, Grants, Denies;
    var c, d := Configured(f, r, h), Configured(f, s, i);
    forall b | b in DerivedAccess(c, {}) ensures b in DerivedAccess(d, {}) {
      MoreGrantedBit(f.table, r.access, s.access, b);
      DerivedBit(c, {}, b);
      DerivedBit(d, {}, b);
    }
    OwnGrew(f.extra, r.extra, s.extra);
    MoreKeys(c, d, person);
  }

  /** Named as before, or left to derive before and granted now. */
  predicate Grew(x: Option<bool>, y: Option<bool>) {
    x == y || (x.None? && y == Some(true))
  }

  predicate OnlyGrew(x: Extras<Option<bool>>, y: Extras<Option<bool>>) {
    && Grew(x.canDetach, y.canDetach) && Grew(x.setSubject, y.setSubject) && Grew(x.inbox, y.inbox)
    && Grew(x.fileList, y.fileList) && Grew(x.fileGetinfo, y.fileGetinfo) && Grew(x.attachNews, y.attachNews)
    && Grew(x.setAvatar, y.setAvatar) && Grew(x.moderate, y.moderate) && Grew(x.canSpam, y.canSpam)
    && Grew(x.manageRoles, y.manageRoles) && Grew(x.manageRooms, y.manageRooms)
  }

  lemma OwnGrew(own: Extras<Option<bool>>, r: Extras<bool>, s: Extras<bool>)
    requires Implied(r, s)
    ensures OnlyGrew(ZipWith(own, r, Own), ZipWith(own, s, Own))
  {
  }

  lemma MoreKeys(c: Config, d: Config, person: bool)
    requires OnlyGrew(c.extra, d.extra) && DerivedAccess(c, {}) <= DerivedAccess(d, {})
    ensures Implied(DerivedExtras(c, person, NO_MASK), DerivedExtras(d, person, NO_MASK))
  {
    hide DerivedAccess;
  }

  lemma MoreGrantedBit(t: Table, r: Bits, s: Bits, b: nat)
    requires r <= s
    ensures b in Allows(t, r) ==> b in Allows(t, s)
    ensures READ_CHAT in Allows(t, r) ==> READ_CHAT in Allows(t, s)
    ensures CHAT_HISTORY in s && !NamesHistory(t) ==> CHAT_HISTORY in Allows(t, s)
  {
  }
}
