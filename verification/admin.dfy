/** Who may change whose account and which role, and what that keeps true over any
    run: nobody comes to hold what nobody held. */
module Admin {
  import opened Cbor
  import opened Accounts
  import opened AccountFiles

  /** An account's file, and whether one person is behind it. */
  datatype Entry = Entry(file: File, person: bool)

  datatype Store = Store(files: map<string, Entry>, roles: Roles)

  datatype AdminError = NotAllowed | Exists | NoSuchAccount | NoSuchRole | Outranked | RoleInUse | BadRole | Backend

  datatype WriteMode = Create | Modify | CreateOrModify

  function ReadEntry(e: Entry, roles: Roles): Resolved {
    Resolve(Configure(e.file, roles), e.person, NO_MASK)
  }

  function ReadAccount(s: Store, login: string): Result<Resolved, AdminError> {
    if login in s.files then Ok(ReadEntry(s.files[login], s.roles)) else Err(NoSuchAccount)
  }

  // The rule.

  predicate LetIn(actor: Resolved, target: Resolved, gated: set<string>) {
    exists r | r in target.config.roles :: r in gated && r !in actor.config.roles
  }

  /** `target` has a bit, one of eight policies, or a gated role that `actor` lacks.
      The three policies that follow from being one person do not count. */
  predicate Beyond(actor: Resolved, target: Resolved, gated: set<string>) {
    var a, t := actor.extra, target.extra;
    || (!a.manageRoles && LetIn(actor, target, gated))
    || target.access - actor.access != {}
    || (t.setSubject && !a.setSubject) || (t.fileList && !a.fileList) || (t.fileGetinfo && !a.fileGetinfo)
    || (t.attachNews && !a.attachNews) || (t.moderate && !a.moderate) || (t.canSpam && !a.canSpam)
    || (t.manageRoles && !a.manageRoles) || (t.manageRooms && !a.manageRooms)
  }

  predicate GrantsBeyond(actor: Resolved, role: Role) {
    var a, t := actor.extra, role.extra;
    || role.access - actor.access != {}
    || (t.setSubject && !a.setSubject) || (t.fileList && !a.fileList) || (t.fileGetinfo && !a.fileGetinfo)
    || (t.attachNews && !a.attachNews) || (t.moderate && !a.moderate) || (t.canSpam && !a.canSpam)
    || (t.manageRoles && !a.manageRoles) || (t.manageRooms && !a.manageRooms)
  }

  /** The acting account as its file reads now, holding the bit the act needs. */
  function Actor(s: Store, login: string, need: nat): Result<Resolved, AdminError> {
    match ReadAccount(s, login)
    case Err(_) => Err(NotAllowed)
    case Ok(a) => if need in a.access then Ok(a) else Err(NotAllowed)
  }

  function WriteRefused(s: Store, actor: string, login: string, after: Entry, mode: WriteMode, gated: set<string>)
    : Option<AdminError>
  {
    match Actor(s, actor, if mode.Create? then CREATE_USERS else MODIFY_USERS)
    case Err(e) => Some(e)
    case Ok(a) =>
      var existing := ReadAccount(s, login);
      if mode.Create? && existing.Ok? then Some(Exists)
      else if mode.Modify? && existing.Err? then Some(NoSuchAccount)
      else if existing.Err? && CREATE_USERS !in a.access then Some(NotAllowed)
      else if (existing.Ok? && Beyond(a, existing.value, gated)) || Beyond(a, ReadEntry(after, s.roles), gated)
      then Some(Outranked)
      else None
  }

  function DeleteRefused(s: Store, actor: string, login: string, gated: set<string>): Option<AdminError> {
    match ReadAccount(s, login)
    case Err(e) => Some(e)
    case Ok(target) =>
      match Actor(s, actor, DELETE_USERS)
      case Err(e) => Some(e)
      case Ok(a) => if Beyond(a, target, gated) then Some(Outranked) else None
  }

  predicate Holds(e: Entry, name: string) {
    name == EVERYONE || name in e.file.roles
  }

  /** Why a change of role is refused, if it is: the actor manages no roles, lacks
      something the role grants on either side of the change, or is outranked by a
      holder as it reads on either side. */
  function RoleMay(s: Store, actor: string, before: Option<Role>, after: Option<Role>, now: set<Resolved>,
                   afterwards: set<Resolved>): Option<AdminError>
  {
    match ReadAccount(s, actor)
    case Err(_) => Some(NotAllowed)
    case Ok(a) =>
      if !a.extra.manageRoles then Some(NotAllowed)
      else if || (before.Some? && GrantsBeyond(a, before.value)) || (after.Some? && GrantsBeyond(a, after.value))
              || (exists h | h in now :: Beyond(a, h, {})) || (exists h | h in afterwards :: Beyond(a, h, {}))
      then Some(Outranked)
      else None
  }

  function HolderLogins(s: Store, name: string): set<string> {
    set login | login in s.files && Holds(s.files[login], name)
  }

  function Holders(s: Store, name: string, roles: Roles): set<Resolved> {
    set login | login in s.files && Holds(s.files[login], name) :: ReadEntry(s.files[login], roles)
  }

  function RoleOf(roles: Roles, name: string): Option<Role> {
    if name in roles then Some(roles[name]) else None
  }

  function RoleWriteRefused(s: Store, actor: string, name: string, role: Role, create: bool): Option<AdminError> {
    var before := RoleOf(s.roles, name);
    if before.Some? && create then Some(Exists)
    else if before.None? && !create then Some(NoSuchRole)
    else
      RoleMay(s, actor, before, Some(role), Holders(s, name, s.roles), Holders(s, name, s.roles[name := role]))
  }

  function RoleDeleteRefused(s: Store, actor: string, name: string, gated: set<string>): Option<AdminError> {
    if name in gated then Some(RoleInUse)
    else if name == EVERYONE then Some(BadRole)
    else if name !in s.roles then Some(NoSuchRole)
    else RoleMay(s, actor, RoleOf(s.roles, name), None, Holders(s, name, s.roles), {})
  }

  function Dropped(listed: seq<string>, name: string): (r: seq<string>)
    ensures forall n :: n in r <==> n in listed && n != name
  {
    if listed == [] then [] else
      assert listed == [listed[0]] + listed[1..];
      (if listed[0] != name then [listed[0]] else []) + Dropped(listed[1..], name)
  }

  function WithoutRole(e: Entry, name: string): Entry {
    e.(file := e.file.(roles := Dropped(e.file.roles, name)))
  }

  /** The accounts in `done` no longer list the role. */
  function TakenFrom(s: Store, name: string, done: set<string>): Store {
    s.(files := map login | login in s.files ::
                  if login in done then WithoutRole(s.files[login], name) else s.files[login])
  }

  function Among(names: seq<string>): set<string> {
    set n | n in names
  }

  lemma NoneTaken(s: Store, name: string)
    ensures TakenFrom(s, name, {}) == s && Among([]) == {}
  {
  }

  lemma OneTaken(s: Store, name: string, holders: seq<string>, i: nat)
    requires i < |holders| && holders[i] in s.files
    ensures TakenFrom(s, name, Among(holders[..i + 1])) ==
            var t := TakenFrom(s, name, Among(holders[..i]));
            t.(files := t.files[holders[i] := WithoutRole(s.files[holders[i]], name)])
  {
    hide WithoutRole;
    assert holders[..i + 1] == holders[..i] + [holders[i]];
  }

  /** Every bit, and each of the eight policies. */
  predicate NoMore(access: Bits, x: Extras<bool>, a: Resolved) {
    && (forall b | b in access :: b in a.access)
    && (x.setSubject ==> a.extra.setSubject) && (x.moderate ==> a.extra.moderate) && (x.canSpam ==> a.extra.canSpam)
    && (x.fileList ==> a.extra.fileList) && (x.fileGetinfo ==> a.extra.fileGetinfo)
    && (x.attachNews ==> a.extra.attachNews)
    && (x.manageRoles ==> a.extra.manageRoles) && (x.manageRooms ==> a.extra.manageRooms)
  }

  /** Not beyond an account is having no more than it, and no way in it does not have
      unless it manages roles. */
  lemma BeyondIff(actor: Resolved, target: Resolved, role: Role, gated: set<string>)
    ensures !Beyond(actor, target, gated) <==>
            && NoMore(target.access, target.extra, actor)
            && (actor.extra.manageRoles || forall r | r in target.config.roles && r in gated :: r in actor.config.roles)
    ensures !GrantsBeyond(actor, role) <==> NoMore(role.access, role.extra, actor)
  {
    assert target.access - actor.access == {} <==> forall b | b in target.access :: b in actor.access by {
      forall b | b in target.access && target.access - actor.access == {} ensures b in actor.access {
        assert b !in target.access - actor.access;
      }
    }
    assert role.access - actor.access == {} <==> forall b | b in role.access :: b in actor.access by {
      forall b | b in role.access && role.access - actor.access == {} ensures b in actor.access {
        assert b !in role.access - actor.access;
      }
    }
  }

  // What the rule keeps.

  lemma NotBeyondItself(a: Resolved, gated: set<string>)
    ensures !Beyond(a, a, gated)
  {
  }

  lemma BeyondTransitive(a: Resolved, b: Resolved, c: Resolved, gated: set<string>)
    requires !Beyond(a, b, gated) && !Beyond(b, c, gated)
    ensures !Beyond(a, c, gated)
  {
    forall x ensures x !in c.access - a.access {
      assert x !in c.access - b.access && x !in b.access - a.access;
    }
    if !a.extra.manageRoles {
      forall r | r in c.config.roles && r in gated ensures r in a.config.roles {
        assert r in b.config.roles;
      }
    }
  }

  /** No gate is beyond whoever manages roles. */
  lemma ManagerUngated(a: Resolved, b: Resolved, gated: set<string>)
    requires a.extra.manageRoles
    ensures Beyond(a, b, gated) <==> Beyond(a, b, {})
  {
  }

  lemma {:induction false} ExistingSame(r: Roles, s: Roles, names: seq<string>)
    requires forall n | n in names :: (n in r <==> n in s) && (n in r ==> r[n] == s[n])
    ensures Existing(r, names) == Existing(s, names)
  {
    if names != [] {
      assert names == [names[0]] + names[1..];
      ExistingSame(r, s, names[1..]);
    }
  }

  lemma {:induction false} GrantedSame(r: Roles, s: Roles, held: seq<string>)
    requires forall n | n in held :: n in r && n in s && r[n] == s[n]
    ensures Granted(r, held) == Granted(s, held)
  {
    if held != [] {
      var k := |held| - 1;
      assert held == held[..k] + [held[k]];
      GrantedSame(r, s, held[..k]);
    }
  }

  /** An account that does not hold a role reads the same whatever becomes of it. */
  lemma NotHolding(e: Entry, name: string, r: Roles, s: Roles)
    requires !Holds(e, name) && forall n | n != name :: (n in r <==> n in s) && (n in r ==> r[n] == s[n])
    ensures ReadEntry(e, r) == ReadEntry(e, s)
  {
    hide Existing, Granted;
    ExistingSame(r, s, [EVERYONE] + e.file.roles);
    GrantedSame(r, s, Held(r, e.file.roles));
  }

  lemma {:induction false} OneGranted(roles: Roles, held: seq<string>, n: string)
    requires (forall x | x in held :: x in roles) && n in held
    ensures MoreGranted(roles[n], Granted(roles, held))
  {
    var k := |held| - 1;
    assert held == held[..k] + [held[k]];
    if n != held[k] {
      OneGranted(roles, held[..k], n);
    }
  }

  /** Fewer roles grant no more. */
  lemma {:induction false} FewerGrantLess(r: Roles, few: seq<string>, s: Roles, many: seq<string>)
    requires forall n | n in few :: n in r && n in s && r[n] == s[n] && n in many
    requires forall n | n in many :: n in s
    ensures MoreGranted(Granted(r, few), Granted(s, many))
  {
    if few != [] {
      var k := |few| - 1;
      assert few == few[..k] + [few[k]];
      FewerGrantLess(r, few[..k], s, many);
      OneGranted(s, many, few[k]);
    }
  }

  /** Taking a role from an account, whether or not the role itself goes too, brings
      nothing with it. */
  lemma TakingAddsNothing(e: Entry, name: string, roles: Roles, later: Roles, gated: set<string>)
    requires name != EVERYONE && (later == roles || later == roles - {name})
    ensures !Beyond(ReadEntry(e, roles), ReadEntry(WithoutRole(e, name), later), gated)
  {
    hide Granted, Existing, Dropped, Allows, Grants, Denies, NamesHistory, DerivedAccess, DerivedExtras, MoreGranted,
         ZipWith;
    var f, g := e.file, WithoutRole(e, name).file;
    var many, few := Held(roles, f.roles), Held(later, g.roles);
    FewerGrantLess(later, few, roles, many);
    MoreGrantedMoreResolved(f, Granted(later, few), Granted(roles, many), few, many, e.person);
    SameButRoles(f, g, Granted(later, few), few);
    assert forall n | n in WithoutEveryone(few) :: n in WithoutEveryone(many);
  }

  lemma SameButRoles(f: File, g: File, granted: Role, held: seq<string>)
    requires g == f.(roles := g.roles)
    ensures Configured(g, granted, held) == Configured(f, granted, held)
  {
  }

  /** Every account may do no more than some account of `first`. */
  ghost predicate Within(s: Store, first: Store, gated: set<string>) {
    forall login | login in s.files :: Bounded(ReadEntry(s.files[login], s.roles), first, gated)
  }

  ghost predicate Bounded(a: Resolved, first: Store, gated: set<string>) {
    exists i :: i in first.files && !Beyond(ReadEntry(first.files[i], first.roles), a, gated)
  }

  lemma BoundedDown(a: Resolved, b: Resolved, first: Store, gated: set<string>)
    requires Bounded(a, first, gated) && !Beyond(a, b, gated)
    ensures Bounded(b, first, gated)
  {
    hide Beyond, ReadEntry;
    var i :| i in first.files && !Beyond(ReadEntry(first.files[i], first.roles), a, gated);
    BeyondTransitive(ReadEntry(first.files[i], first.roles), a, b, gated);
  }

  lemma WriteWithin(s: Store, first: Store, actor: string, login: string, after: Entry,
                                       mode: WriteMode, gated: set<string>)
    requires Within(s, first, gated) && WriteRefused(s, actor, login, after, mode, gated).None?
    ensures Within(s.(files := s.files[login := after]), first, gated)
  {
    hide Beyond, ReadEntry, Bounded;
    BoundedDown(ReadEntry(s.files[actor], s.roles), ReadEntry(after, s.roles), first, gated);
  }

  lemma RoleWriteWithin(s: Store, first: Store, actor: string, name: string, role: Role,
                                           create: bool, gated: set<string>)
    requires Within(s, first, gated) && RoleWriteRefused(s, actor, name, role, create).None?
    ensures Within(s.(roles := s.roles[name := role]), first, gated)
  {
    hide Beyond, ReadEntry, Bounded, GrantsBeyond;
    var later := s.roles[name := role];
    var a := ReadEntry(s.files[actor], s.roles);
    forall login | login in s.files ensures Bounded(ReadEntry(s.files[login], later), first, gated) {
      var e := s.files[login];
      if Holds(e, name) {
        assert ReadEntry(e, later) in Holders(s, name, later);
        ManagerUngated(a, ReadEntry(e, later), gated);
        BoundedDown(a, ReadEntry(e, later), first, gated);
      } else {
        NotHolding(e, name, s.roles, later);
      }
    }
  }

  /** A role deleted, or its deletion cut short after any of its holders. */
  lemma RoleDeleteWithin(s: Store, first: Store, name: string, done: set<string>, whole: bool,
                                            gated: set<string>)
    requires Within(s, first, gated) && name != EVERYONE
    requires whole ==> forall login | login in s.files && Holds(s.files[login], name) :: login in done
    ensures var t := TakenFrom(s, name, done);
            Within(if whole then t.(roles := s.roles - {name}) else t, first, gated)
  {
    hide Beyond, ReadEntry, Bounded, WithoutRole;
    var later := if whole then s.roles - {name} else s.roles;
    forall login | login in s.files
      ensures Bounded(ReadEntry(if login in done then WithoutRole(s.files[login], name) else s.files[login], later),
                      first, gated)
    {
      var e := s.files[login];
      if login in done {
        TakingAddsNothing(e, name, s.roles, later, gated);
        BoundedDown(ReadEntry(e, s.roles), ReadEntry(WithoutRole(e, name), later), first, gated);
      } else if whole {
        NotHolding(e, name, s.roles, later);
      }
    }
  }

  // Runs.

  datatype Event =
    | AccountWrite(actor: string, login: string, after: Entry, mode: WriteMode)
    | AccountDelete(actor: string, login: string)
    | RoleWrite(actor: string, name: string, role: Role, create: bool)
    | RoleDelete(actor: string, name: string)
    | RoleDeleteCut(actor: string, name: string, done: set<string>)

  function Apply(s: Store, e: Event, gated: set<string>): Store {
    match e
    case AccountWrite(actor, login, after, mode) =>
      if WriteRefused(s, actor, login, after, mode, gated).Some? then s else s.(files := s.files[login := after])
    case AccountDelete(actor, login) =>
      if DeleteRefused(s, actor, login, gated).Some? then s else s.(files := s.files - {login})
    case RoleWrite(actor, name, role, create) =>
      if RoleWriteRefused(s, actor, name, role, create).Some? then s else s.(roles := s.roles[name := role])
    case RoleDelete(actor, name) =>
      if RoleDeleteRefused(s, actor, name, gated).Some? then s
      else TakenFrom(s, name, HolderLogins(s, name)).(roles := s.roles - {name})
    case RoleDeleteCut(actor, name, done) =>
      if RoleDeleteRefused(s, actor, name, gated).Some? then s else TakenFrom(s, name, done)
  }

  function Run(s: Store, events: seq<Event>, gated: set<string>): Store
    decreases events
  {
    if events == [] then s else Run(Apply(s, events[0], gated), events[1..], gated)
  }

  lemma StepWithin(s: Store, first: Store, e: Event, gated: set<string>)
    requires Within(s, first, gated)
    ensures Within(Apply(s, e, gated), first, gated)
  {
    hide Within, WriteRefused, DeleteRefused, RoleWriteRefused, RoleMay, TakenFrom;
    match e
    case AccountWrite(actor, login, after, mode) =>
      if WriteRefused(s, actor, login, after, mode, gated).None? {
        WriteWithin(s, first, actor, login, after, mode, gated);
      }
    case AccountDelete(_, login) => DeleteWithin(s, first, login, gated);
    case RoleWrite(actor, name, role, create) =>
      if RoleWriteRefused(s, actor, name, role, create).None? {
        RoleWriteWithin(s, first, actor, name, role, create, gated);
      }
    case RoleDelete(_, name) =>
      if name != EVERYONE {
        RoleDeleteWithin(s, first, name, HolderLogins(s, name), true, gated);
      }
    case RoleDeleteCut(_, name, done) =>
      if name != EVERYONE {
        RoleDeleteWithin(s, first, name, done, false, gated);
      }
  }

  lemma DeleteWithin(s: Store, first: Store, login: string, gated: set<string>)
    requires Within(s, first, gated)
    ensures Within(s.(files := s.files - {login}), first, gated)
  {
    hide Bounded, ReadEntry;
  }

  lemma StartWithin(s: Store, gated: set<string>)
    ensures Within(s, s, gated)
  {
    hide Beyond, ReadEntry;
    forall login | login in s.files ensures Bounded(ReadEntry(s.files[login], s.roles), s, gated) {
      NotBeyondItself(ReadEntry(s.files[login], s.roles), gated);
    }
  }

  /** Whatever administrators do to accounts and roles, and in whatever order, no
      account comes to hold a bit, a policy or a way in that no account held at the
      start: each stays within some one of them. */
  lemma Envelope(s: Store, events: seq<Event>, gated: set<string>)
    ensures Within(Run(s, events, gated), s, gated)
  {
    StartWithin(s, gated);
    RunWithin(s, s, events, gated);
  }

  lemma {:induction false} RunWithin(s: Store, first: Store, events: seq<Event>, gated: set<string>)
    requires Within(s, first, gated)
    ensures Within(Run(s, events, gated), first, gated)
    decreases events
  {
    hide Within, Apply;
    if events != [] {
      StepWithin(s, first, events[0], gated);
      RunWithin(Apply(s, events[0], gated), first, events[1..], gated);
    }
  }

  /** So over any run each account has no more than one there was at the start. */
  lemma EnvelopeHolds(s: Store, events: seq<Event>, gated: set<string>, login: string)
    requires login in Run(s, events, gated).files
    ensures var t := Run(s, events, gated);
            var r := ReadEntry(t.files[login], t.roles);
            exists first ::
              && first in s.files && NoMore(r.access, r.extra, ReadEntry(s.files[first], s.roles))
              && (ReadEntry(s.files[first], s.roles).extra.manageRoles ||
                  forall name | name in r.config.roles && name in gated ::
                    name in ReadEntry(s.files[first], s.roles).config.roles)
  {
    hide Run, ReadEntry, NoMore, Beyond;
    Envelope(s, events, gated);
    var t := Run(s, events, gated);
    var r := ReadEntry(t.files[login], t.roles);
    assert Bounded(r, s, gated);
    var first :| first in s.files && !Beyond(ReadEntry(s.files[first], s.roles), r, gated);
    BeyondIff(ReadEntry(s.files[first], s.roles), r, Role({}, All(false)), gated);
  }

  /** Why a role's holders are read as an edit would leave them: a role that grants
      nothing its editor lacks can still make one that is beyond them, through what
      derives from it. */
  lemma GrantsAreNotEnough()
    ensures exists actor: Resolved, role: Role, f: File ::
              && actor.extra.manageRoles && !GrantsBeyond(actor, role)
              && Beyond(actor, Resolve(Configured(f, role, []), true, NO_MASK), {})
  {
    var role := Role({READ_CHAT}, All(false));
    var none: Extras<Option<bool>> := All(None);
    var f := File(Table(map[], [], []), none, []);
    var c := Config({READ_CHAT}, true, none.(manageRoles := Some(true)), {}, {}, []);
    var actor := Resolve(c, true, NO_MASK);
    var d := Configured(f, role, []);
    DerivedBit(c, {}, CHAT_HISTORY);
    DerivedBit(c, {}, READ_CHAT);
    DerivedBit(d, {}, CHAT_HISTORY);
    assert READ_CHAT in actor.access && CHAT_HISTORY !in actor.access;
    assert READ_CHAT in d.access && !d.historyNamed;
    assert CHAT_HISTORY in Resolve(d, true, NO_MASK).access;
    assert CHAT_HISTORY in Resolve(d, true, NO_MASK).access - actor.access;
    assert role.access - actor.access == {};
  }

  // The store as the program changes it.

  /** Nobody comes to be beyond what everyone was within. */
  ghost predicate Keeps(before: Store, after: Store, gated: set<string>) {
    forall first: Store | Within(before, first, gated) :: Within(after, first, gated)
  }

  lemma ApplyKeeps(s: Store, e: Event, gated: set<string>)
    ensures Keeps(s, Apply(s, e, gated), gated)
  {
    hide Within, Apply;
    forall first: Store | Within(s, first, gated) ensures Within(Apply(s, e, gated), first, gated) {
      StepWithin(s, first, e, gated);
    }
  }

  /** A role's write asks nothing of the gates. */
  lemma RoleWriteKeeps(s: Store, actor: string, name: string, role: Role, create: bool)
    ensures var t := if RoleWriteRefused(s, actor, name, role, create).Some? then s
                     else s.(roles := s.roles[name := role]);
            forall gated :: Keeps(s, t, gated)
  {
    hide RoleWriteRefused, Keeps;
    var t := if RoleWriteRefused(s, actor, name, role, create).Some? then s else s.(roles := s.roles[name := role]);
    forall gated ensures Keeps(s, t, gated) {
      ApplyKeeps(s, RoleWrite(actor, name, role, create), gated);
    }
  }

  lemma HoldersWithin(s: Store, name: string, roles: Roles, a: Resolved)
    ensures (forall h | h in Holders(s, name, roles) :: !Beyond(a, h, {})) <==>
            forall login | login in s.files && Holds(s.files[login], name) ::
              !Beyond(a, ReadEntry(s.files[login], roles), {})
  {
    hide Beyond, ReadEntry, Holds;
    forall login | login in s.files && Holds(s.files[login], name)
      ensures ReadEntry(s.files[login], roles) in Holders(s, name, roles)
    {
    }
  }

  /** When a role may be made or changed: its maker manages roles, and neither what it
      granted, nor what it will grant, nor any holder before or after is beyond them. */
  lemma RoleWrittenIff(s: Store, actor: string, name: string, role: Role, create: bool)
    ensures RoleWriteRefused(s, actor, name, role, create).None? <==>
            && actor in s.files && (create <==> name !in s.roles)
            && var a, after := ReadEntry(s.files[actor], s.roles), s.roles[name := role];
               && a.extra.manageRoles && !GrantsBeyond(a, role)
               && (name in s.roles ==> !GrantsBeyond(a, s.roles[name]))
               && (forall login | login in s.files && Holds(s.files[login], name) ::
                     !Beyond(a, ReadEntry(s.files[login], s.roles), {}))
               && forall login | login in s.files && Holds(s.files[login], name) ::
                    !Beyond(a, ReadEntry(s.files[login], after), {})
  {
    hide Beyond, ReadEntry, Holds, GrantsBeyond, Holders;
    if actor in s.files {
      var a := ReadEntry(s.files[actor], s.roles);
      HoldersWithin(s, name, s.roles, a);
      HoldersWithin(s, name, s.roles[name := role], a);
    }
  }

  lemma RoleDeletedIff(s: Store, actor: string, name: string, gated: set<string>)
    ensures RoleDeleteRefused(s, actor, name, gated).None? <==>
            && name !in gated && name != EVERYONE && name in s.roles && actor in s.files
            && var a := ReadEntry(s.files[actor], s.roles);
               && a.extra.manageRoles && !GrantsBeyond(a, s.roles[name])
               && forall login | login in s.files && name in s.files[login].file.roles ::
                    !Beyond(a, ReadEntry(s.files[login], s.roles), {})
  {
    hide Beyond, ReadEntry, GrantsBeyond, Holders;
    if actor in s.files {
      HoldersWithin(s, name, s.roles, ReadEntry(s.files[actor], s.roles));
    }
  }

  lemma TakenAt(s: Store, name: string, done: set<string>)
    ensures TakenFrom(s, name, done).files.Keys == s.files.Keys && TakenFrom(s, name, done).roles == s.roles
    ensures forall login | login in s.files ::
              TakenFrom(s, name, done).files[login] ==
              if login in done then WithoutRole(s.files[login], name) else s.files[login]
  {
    hide WithoutRole;
  }

  class Backing {
    var files: map<string, Entry>
    var roles: Roles

    function View(): Store
      reads this
    {
      Store(files, roles)
    }

    /** The checks an administrator's write makes inside the store's, then the file
        in place. */
    method WriteAccount(actor: string, login: string, after: Entry, mode: WriteMode, gated: set<string>)
      returns (e: Option<AdminError>)
      modifies this`files
      ensures View() == Apply(old(View()), AccountWrite(actor, login, after, mode), gated)
      ensures Keeps(old(View()), View(), gated)
      ensures e == WriteRefused(old(View()), actor, login, after, mode, gated)
      ensures e.None? <==>
              && actor in old(files)
              && (mode.Create? ==> login !in old(files)) && (mode.Modify? ==> login in old(files))
              && var a := ReadEntry(old(files)[actor], roles);
                 && (if mode.Create? then CREATE_USERS else MODIFY_USERS) in a.access
                 && (login !in old(files) ==> CREATE_USERS in a.access)
                 && (login in old(files) ==> !Beyond(a, ReadEntry(old(files)[login], roles), gated))
                 && !Beyond(a, ReadEntry(after, roles), gated)
      ensures files == if e.None? then old(files)[login := after] else old(files)
    {
      hide Beyond, ReadEntry, Within;
      ApplyKeeps(View(), AccountWrite(actor, login, after, mode), gated);
      var need := if mode.Create? then CREATE_USERS else MODIFY_USERS;
      if actor !in files {
        return Some(NotAllowed);
      }
      var a := ReadEntry(files[actor], roles);
      if need !in a.access {
        return Some(NotAllowed);
      }
      match mode {
        case Create =>
          if login in files {
            return Some(Exists);
          }
        case Modify =>
          if login !in files {
            return Some(NoSuchAccount);
          }
        case CreateOrModify =>
      }
      if login !in files && CREATE_USERS !in a.access {
        return Some(NotAllowed);
      }
      if login in files && Beyond(a, ReadEntry(files[login], roles), gated) {
        return Some(Outranked);
      }
      if Beyond(a, ReadEntry(after, roles), gated) {
        return Some(Outranked);
      }
      files := files[login := after];
      e := None;
    }

    method DeleteAccount(actor: string, login: string, gated: set<string>) returns (e: Option<AdminError>)
      modifies this`files
      ensures View() == Apply(old(View()), AccountDelete(actor, login), gated)
      ensures Keeps(old(View()), View(), gated)
      ensures e == DeleteRefused(old(View()), actor, login, gated)
      ensures e.None? <==>
              && actor in old(files) && login in old(files)
              && var a := ReadEntry(old(files)[actor], roles);
                 DELETE_USERS in a.access && !Beyond(a, ReadEntry(old(files)[login], roles), gated)
      ensures files == if e.None? then old(files) - {login} else old(files)
    {
      hide Beyond, ReadEntry, Within;
      ApplyKeeps(View(), AccountDelete(actor, login), gated);
      if login !in files {
        return Some(NoSuchAccount);
      }
      var target := ReadEntry(files[login], roles);
      if actor !in files {
        return Some(NotAllowed);
      }
      var a := ReadEntry(files[actor], roles);
      if DELETE_USERS !in a.access {
        return Some(NotAllowed);
      }
      if Beyond(a, target, gated) {
        return Some(Outranked);
      }
      files := files - {login};
      e := None;
    }

    /** Every account that holds the role, read as `roles` resolve it, asked whether
        it is beyond the actor. */
    method AnyBeyond(a: Resolved, name: string, roles: Roles) returns (yes: bool)
      ensures yes <==> exists h | h in Holders(View(), name, roles) :: Beyond(a, h, {})
    {
      hide Beyond, ReadEntry;
      var rest := files.Keys;
      yes := false;
      while rest != {}
        invariant rest <= files.Keys
        invariant !yes
        invariant forall l | l in files && l !in rest && Holds(files[l], name) ::
                  !Beyond(a, ReadEntry(files[l], roles), {})
        decreases rest
      {
        var login :| login in rest;
        if Holds(files[login], name) && Beyond(a, ReadEntry(files[login], roles), {}) {
          assert ReadEntry(files[login], roles) in Holders(View(), name, roles);
          return true;
        }
        rest := rest - {login};
      }
    }

    method WriteRole(actor: string, name: string, role: Role, create: bool) returns (e: Option<AdminError>)
      modifies this`roles
      ensures forall gated :: View() == Apply(old(View()), RoleWrite(actor, name, role, create), gated)
      ensures forall gated :: Keeps(old(View()), View(), gated)
      ensures e == RoleWriteRefused(old(View()), actor, name, role, create)
      ensures e.None? <==>
              && actor in files && (create <==> name !in old(roles))
              && var a, after := ReadEntry(files[actor], old(roles)), old(roles)[name := role];
                 && a.extra.manageRoles && !GrantsBeyond(a, role)
                 && (name in old(roles) ==> !GrantsBeyond(a, old(roles)[name]))
                 && (forall login | login in files && Holds(files[login], name) ::
                       !Beyond(a, ReadEntry(files[login], old(roles)), {}))
                 && forall login | login in files && Holds(files[login], name) ::
                      !Beyond(a, ReadEntry(files[login], after), {})
      ensures roles == if e.None? then old(roles)[name := role] else old(roles)
    {
      hide Beyond, ReadEntry, Within, GrantsBeyond, Holders, Keeps;
      RoleWriteKeeps(View(), actor, name, role, create);
      RoleWrittenIff(View(), actor, name, role, create);
      if name in roles && create {
        return Some(Exists);
      }
      if name !in roles && !create {
        return Some(NoSuchRole);
      }
      var after := roles[name := role];
      if actor !in files {
        return Some(NotAllowed);
      }
      var a := ReadEntry(files[actor], roles);
      if !a.extra.manageRoles {
        return Some(NotAllowed);
      }
      if name in roles && GrantsBeyond(a, roles[name]) {
        return Some(Outranked);
      }
      if GrantsBeyond(a, role) {
        return Some(Outranked);
      }
      var now := AnyBeyond(a, name, roles);
      if now {
        return Some(Outranked);
      }
      var afterwards := AnyBeyond(a, name, after);
      if afterwards {
        return Some(Outranked);
      }
      roles := after;
      e := None;
    }

    /** The accounts first, in the order listed; a write that fails, the one after
        `written`, leaves the rest and the role as they are. */
    method DeleteRole(actor: string, name: string, gated: set<string>, holders: seq<string>, written: nat)
      returns (e: Option<AdminError>)
      requires Among(holders) == HolderLogins(View(), name)
      requires forall i, j | 0 <= i < j < |holders| :: holders[i] != holders[j]
      modifies this
      ensures View() == Apply(old(View()),
                              if written < |holders| then RoleDeleteCut(actor, name, Among(holders[..written]))
                              else RoleDelete(actor, name), gated)
      ensures Keeps(old(View()), View(), gated)
      ensures e == if RoleDeleteRefused(old(View()), actor, name, gated).Some?
                   then RoleDeleteRefused(old(View()), actor, name, gated)
                   else if written < |holders| then Some(Backend) else None
      ensures e.None? || e == Some(Backend) <==>
              && name !in gated && name != EVERYONE && name in old(roles) && actor in old(files)
              && var a := ReadEntry(old(files)[actor], old(roles));
                 && a.extra.manageRoles && !GrantsBeyond(a, old(roles)[name])
                 && forall login | login in old(files) && name in old(files)[login].file.roles ::
                      !Beyond(a, ReadEntry(old(files)[login], old(roles)), {})
      ensures roles == if e.None? then old(roles) - {name} else old(roles)
      ensures files.Keys == old(files).Keys
      ensures forall login | login in files ::
                var gone := (e.None? && name in old(files)[login].file.roles)
                            || (e == Some(Backend) && login in holders[..written]);
                files[login] == if gone then WithoutRole(old(files)[login], name) else old(files)[login]
    {
      hide Beyond, ReadEntry, Within, GrantsBeyond, Holders, WithoutRole, TakenFrom;
      ghost var s := View();
      RoleDeletedIff(s, actor, name, gated);
      TakenAt(s, name, if written < |holders| then Among(holders[..written]) else HolderLogins(s, name));
      ApplyKeeps(s, if written < |holders| then RoleDeleteCut(actor, name, Among(holders[..written]))
                    else RoleDelete(actor, name), gated);
      if name in gated {
        return Some(RoleInUse);
      }
      if name == EVERYONE {
        return Some(BadRole);
      }
      if name !in roles {
        return Some(NoSuchRole);
      }
      if actor !in files {
        return Some(NotAllowed);
      }
      var a := ReadEntry(files[actor], roles);
      if !a.extra.manageRoles {
        return Some(NotAllowed);
      }
      if GrantsBeyond(a, roles[name]) {
        return Some(Outranked);
      }
      var now := AnyBeyond(a, name, roles);
      if now {
        return Some(Outranked);
      }
      var cut := TakeFromHolders(name, holders, written);
      if cut {
        return Some(Backend);
      }
      roles := roles - {name};
      e := None;
    }

    /** The role out of the lists of its holders, one file at a time, as far as the
        writes go. */
    method TakeFromHolders(name: string, holders: seq<string>, written: nat) returns (cut: bool)
      requires Among(holders) <= files.Keys
      requires forall i, j | 0 <= i < j < |holders| :: holders[i] != holders[j]
      modifies this`files
      ensures cut <==> written < |holders|
      ensures View() == TakenFrom(old(View()), name, if cut then Among(holders[..written]) else Among(holders))
    {
      hide WithoutRole;
      ghost var s := View();
      NoneTaken(s, name);
      for i := 0 to |holders|
        invariant i <= written && roles == s.roles
        invariant View() == TakenFrom(s, name, Among(holders[..i]))
      {
        if i == written {
          return true;
        }
        var login := holders[i];
        assert login in Among(holders);
        OneTaken(s, name, holders, i);
        assert login !in Among(holders[..i]);
        files := files[login := WithoutRole(files[login], name)];
      }
      assert holders[..|holders|] == holders;
      cut := false;
    }
  }
}
