/** Access bits, the policy keys beside them, and what an account's configuration
    resolves to under a mask. */
module Accounts {
  import opened Cbor

  /** The numbers of the access bits that are set. */
  type Bits = s: set<nat> | forall b :: b in s ==> b < 64

  const READ_CHAT: nat := 9
  const CREATE_USERS: nat := 14
  const DELETE_USERS: nat := 15
  const MODIFY_USERS: nat := 17
  const DISCONNECT_USERS: nat := 22
  const CHAT_HISTORY: nat := 56
  const SEND_MEDIA: nat := 57

  function With(s: Bits, b: nat): Bits {
    if b < 64 then s + {b} else s
  }

  function Less(s: Bits, b: nat): Bits {
    s - {b}
  }

  /** One value per `[extra]` key. */
  datatype Extras<T> = Extras(canDetach: T, setSubject: T, inbox: T, fileList: T, fileGetinfo: T, attachNews: T,
                              setAvatar: T, moderate: T, canSpam: T, manageRoles: T, manageRooms: T)

  function ZipWith<T, U, V>(x: Extras<T>, y: Extras<U>, f: (T, U) -> V): Extras<V> {
    Extras(f(x.canDetach, y.canDetach), f(x.setSubject, y.setSubject), f(x.inbox, y.inbox),
           f(x.fileList, y.fileList), f(x.fileGetinfo, y.fileGetinfo), f(x.attachNews, y.attachNews),
           f(x.setAvatar, y.setAvatar), f(x.moderate, y.moderate), f(x.canSpam, y.canSpam),
           f(x.manageRoles, y.manageRoles), f(x.manageRooms, y.manageRooms))
  }

  function All<T>(v: T): Extras<T> {
    Extras(v, v, v, v, v, v, v, v, v, v, v)
  }

  function Both(x: Extras<bool>, y: Extras<bool>): Extras<bool> {
    ZipWith(x, y, (a, b) => a && b)
  }

  function Either(x: Extras<bool>, y: Extras<bool>): Extras<bool> {
    ZipWith(x, y, (a, b) => a || b)
  }

  /** The input of every derivation below: bits and keys as named, nothing inferred. */
  datatype Config = Config(access: Bits, historyNamed: bool, extra: Extras<Option<bool>>, grant: Bits, deny: Bits,
                           roles: seq<string>)

  /** Bits and keys taken from whatever a configuration derives to. */
  datatype Mask = Mask(access: Bits, extra: Extras<bool>)

  const NO_MASK: Mask := Mask({}, All(false))

  function Union(m: Mask, n: Mask): Mask {
    Mask(m.access + n.access, Either(m.extra, n.extra))
  }

  /** One key: named, or derived, unless it is masked. */
  function Key(named: Option<bool>, otherwise: bool, masked: bool): bool {
    !masked && if named.Some? then named.value else otherwise
  }

  function DerivedAccess(c: Config, denied: Bits): Bits {
    var a: Bits := c.access - denied;
    var b := if !c.historyNamed && READ_CHAT in a then With(a, CHAT_HISTORY) else a;
    if READ_CHAT in denied || CHAT_HISTORY in denied then Less(b, CHAT_HISTORY) else b
  }

  function DerivedExtras(c: Config, person: bool, mask: Mask): Extras<bool> {
    var access := DerivedAccess(c, mask.access);
    var kick, unkick := DISCONNECT_USERS in access, DISCONNECT_USERS in mask.access;
    var media, unmedia := SEND_MEDIA in access, SEND_MEDIA in mask.access;
    var x, m := c.extra, mask.extra;
    Extras(Key(x.canDetach, person, m.canDetach),
           Key(x.setSubject, kick, m.setSubject || unkick),
           Key(x.inbox, person, m.inbox),
           Key(x.fileList, true, m.fileList),
           Key(x.fileGetinfo, true, m.fileGetinfo),
           Key(x.attachNews, media, m.attachNews || unmedia),
           Key(x.setAvatar, person, m.setAvatar),
           Key(x.moderate, kick, m.moderate || unkick),
           Key(x.canSpam, kick, m.canSpam || unkick),
           Key(x.manageRoles, false, m.manageRoles),
           Key(x.manageRooms, false, m.manageRooms))
  }

  /** Deriving under two masks at once is having what is left under each. */
  lemma MasksCompose(c: Config, person: bool, m: Mask, n: Mask)
    ensures DerivedAccess(c, Union(m, n).access) == DerivedAccess(c, m.access) * DerivedAccess(c, n.access)
    ensures DerivedExtras(c, person, Union(m, n)) == Both(DerivedExtras(c, person, m), DerivedExtras(c, person, n))
  {
    AccessComposes(c, m.access, n.access);
    KickLeft(c, m.access);
    KickLeft(c, n.access);
    KickLeft(c, Union(m, n).access);
  }

  lemma AccessComposes(c: Config, m: Bits, n: Bits)
    ensures DerivedAccess(c, m + n) == DerivedAccess(c, m) * DerivedAccess(c, n)
  {
    forall b ensures b in DerivedAccess(c, m + n) <==> b in DerivedAccess(c, m) && b in DerivedAccess(c, n) {
      DerivedBit(c, m + n, b);
      DerivedBit(c, m, b);
      DerivedBit(c, n, b);
    }
  }

  /** A derived bit: configured and not masked, or history in the wake of chat,
      which neither's mask leaves. */
  lemma DerivedBit(c: Config, denied: Bits, b: nat)
    ensures b in DerivedAccess(c, denied) <==>
            && b !in denied
            && (b in c.access || (b == CHAT_HISTORY && !c.historyNamed && READ_CHAT in c.access))
            && (b == CHAT_HISTORY ==> READ_CHAT !in denied)
  {
  }

  lemma KickLeft(c: Config, denied: Bits)
    ensures DISCONNECT_USERS in DerivedAccess(c, denied) <==>
            DISCONNECT_USERS in c.access && DISCONNECT_USERS !in denied
    ensures SEND_MEDIA in DerivedAccess(c, denied) <==> SEND_MEDIA in c.access && SEND_MEDIA !in denied
  {
    DerivedBit(c, denied, DISCONNECT_USERS);
    DerivedBit(c, denied, SEND_MEDIA);
  }

  /** Every key of the one is a key of the other. */
  predicate Implied(x: Extras<bool>, y: Extras<bool>) {
    && (x.canDetach ==> y.canDetach) && (x.setSubject ==> y.setSubject) && (x.inbox ==> y.inbox)
    && (x.fileList ==> y.fileList) && (x.fileGetinfo ==> y.fileGetinfo) && (x.attachNews ==> y.attachNews)
    && (x.setAvatar ==> y.setAvatar) && (x.moderate ==> y.moderate) && (x.canSpam ==> y.canSpam)
    && (x.manageRoles ==> y.manageRoles) && (x.manageRooms ==> y.manageRooms)
  }

  /** A mask only takes away. */
  lemma MasksTakeAway(c: Config, person: bool, m: Mask)
    ensures DerivedAccess(c, m.access) <= DerivedAccess(c, {})
    ensures Implied(DerivedExtras(c, person, m), DerivedExtras(c, person, NO_MASK))
  {
    MasksCompose(c, person, m, NO_MASK);
    assert m.access + {} == m.access;
    assert Union(m, NO_MASK) == m;
  }

  /** What each key derives to when nothing names it or masks it. */
  function Derives(c: Config, person: bool): Extras<bool> {
    var kick, media := DISCONNECT_USERS in c.access, SEND_MEDIA in c.access;
    All(false).(canDetach := person, inbox := person, setAvatar := person, fileList := true, fileGetinfo := true,
                attachNews := media, setSubject := kick, moderate := kick, canSpam := kick)
  }

  /** The keys a mask takes: those it names, and those that derive from a bit it takes. */
  function Taken(m: Mask): Extras<bool> {
    var kick, media := DISCONNECT_USERS in m.access, SEND_MEDIA in m.access;
    Either(m.extra, All(false).(setSubject := kick, moderate := kick, canSpam := kick, attachNews := media))
  }

  /** A key reads as named, or as it derives, unless the mask takes it. */
  lemma DerivedKeys(c: Config, person: bool, m: Mask)
    ensures var left := ZipWith(c.extra, Derives(c, person),
                                (named: Option<bool>, otherwise) => if named.Some? then named.value else otherwise);
            DerivedExtras(c, person, m) == ZipWith(left, Taken(m), (v, gone) => v && !gone)
  {
    hide DerivedAccess;
    KickLeft(c, m.access);
  }

  // Accounts.

  /** What is read of an account: the access bits, the policy keys, and the
      configuration they derive from. */
  datatype Resolved = Resolved(access: Bits, extra: Extras<bool>, config: Config)

  function Resolve(c: Config, person: bool, mask: Mask): Resolved {
    Resolved(DerivedAccess(c, mask.access), DerivedExtras(c, person, mask), c)
  }

  /** An account as a session holds it. */
  class Account {
    const login: string
    const hasPassword: bool
    const fingerprint: Option<seq<nat>>
    const config: Config
    var access: Bits
    var extra: Extras<bool>

    predicate IsPerson() {
      hasPassword || fingerprint.Some?
    }

    function View(): Resolved
      reads this
    {
      Resolved(access, extra, config)
    }

    constructor (login: string, hasPassword: bool, fingerprint: Option<seq<nat>>, config: Config)
      ensures this.login == login && this.hasPassword == hasPassword && this.fingerprint == fingerprint
      ensures this.config == config && View() == Resolve(config, hasPassword || fingerprint.Some?, NO_MASK)
    {
      this.login, this.hasPassword, this.fingerprint, this.config := login, hasPassword, fingerprint, config;
      access, extra := {}, All(false);
      new;
      Derive(NO_MASK);
    }

    method Derive(mask: Mask)
      modifies this
      ensures View() == Resolve(config, hasPassword || fingerprint.Some?, mask)
    {
      access := DerivedAccess(config, mask.access);
      extra := DerivedExtras(config, IsPerson(), mask);
    }

    /** A copy, derived again from the configuration rather than masked as it
        reads; with nothing masked, as it reads. */
    method Masked(mask: Mask) returns (a: Account)
      ensures fresh(a) && a.login == login && a.config == config && a.hasPassword == hasPassword
      ensures a.fingerprint == fingerprint
      ensures a.View() == if mask == NO_MASK then View()
                          else Resolve(config, hasPassword || fingerprint.Some?, mask)
    {
      a := new Account(login, hasPassword, fingerprint, config);
      a.access, a.extra := access, extra;
      if mask != NO_MASK {
        a.Derive(mask);
      }
    }
  }
}
