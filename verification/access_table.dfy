/** The editor of an account file's access table, and why it is a lens: what was
    asked for is what reads back, what was not asked about stays, and what the roles
    give goes on following them. */
module AccessTables {
  import opened Cbor
  import opened Accounts
  import opened AccountFiles

  // Numbers in order.

  predicate Ascending(s: seq<int>) {
    forall i, j | 0 <= i < j < |s| :: s[i] < s[j]
  }

  function Insert(s: seq<int>, n: int): (r: seq<int>)
    requires Ascending(s)
    ensures Ascending(r) && forall x :: x in r <==> x in s || x == n
  {
    if s == [] || n < s[0] then
      assert forall x :: x in [n] + s <==> x in s || x == n;
      [n] + s
    else if n == s[0] then s
    else
      assert s == [s[0]] + s[1..];
      InsertTail(s);
      var t := Insert(s[1..], n);
      assert forall i | 0 <= i < |t| :: t[i] in s[1..] || t[i] == n;
      [s[0]] + t
  }

  lemma InsertTail(s: seq<int>)
    requires s != [] && Ascending(s)
    ensures Ascending(s[1..]) && forall x | x in s[1..] :: s[0] < x
  {
    forall i, j | 0 <= i < j < |s[1..]| ensures s[1..][i] < s[1..][j] {
      assert s[1..][i] == s[i + 1] && s[1..][j] == s[j + 1];
    }
  }

  /** Sorted, each number once. */
  function InNumbers(s: seq<int>): (r: seq<int>)
    ensures Ascending(r) && forall x :: x in r <==> x in s
  {
    if s == [] then [] else
      assert s == s[..|s| - 1] + [s[|s| - 1]];
      Insert(InNumbers(s[..|s| - 1]), s[|s| - 1])
  }

  lemma FirstIn(s: seq<int>)
    ensures s != [] ==> s[0] in s
  {
  }

  /** One list says the same numbers in order. */
  lemma {:induction false} AscendingUnique(s: seq<int>, t: seq<int>)
    requires Ascending(s) && Ascending(t) && forall x :: x in s <==> x in t
    ensures s == t
    decreases |s|
  {
    FirstIn(s);
    FirstIn(t);
    if s != [] && t != [] {
      InsertTail(s);
      InsertTail(t);
      assert s == [s[0]] + s[1..] && t == [t[0]] + t[1..];
      assert s[0] == t[0];
      forall x ensures x in s[1..] <==> x in t[1..] {
        assert x in s[1..] <==> x in s && x != s[0];
        assert x in t[1..] <==> x in t && x != t[0];
      }
      AscendingUnique(s[1..], t[1..]);
    }
  }

  /** Those of the bits below `upto` that only a list of numbers can say. */
  function Unnamed(bits: Bits, upto: nat): (r: seq<int>)
    ensures forall x :: x in r <==> 0 <= x < upto && x in bits && !HasName(x)
  {
    if upto == 0 then [] else
      var p := Unnamed(bits, upto - 1);
      if upto - 1 in bits && !HasName(upto - 1) then p + [upto - 1] else p
  }

  function Kept(list: seq<int>, keep: int -> bool): (r: seq<int>)
    ensures forall x :: x in r <==> x in list && keep(x)
  {
    if list == [] then [] else
      assert list == [list[0]] + list[1..];
      (if keep(list[0]) then [list[0]] else []) + Kept(list[1..], keep)
  }

  // What a write leaves.

  /** The bits a write up to `tier` says anything of. */
  predicate Said(tier: Option<nat>, b: int) {
    0 <= b < 64 && (tier.None? || b <= tier.value)
  }

  /** A number of a bit that it leaves alone. */
  predicate Unsaid(tier: Option<nat>, b: int) {
    0 <= b < 64 && !Said(tier, b)
  }

  function UpTo(tier: Option<nat>, s: Bits): Bits {
    set b | b in s && Said(tier, b)
  }

  /** A key after the old name of the history bit has given way to its own. */
  function Moved(t: Table, tier: Option<nat>): map<Name, bool> {
    if !Said(tier, CHAT_HISTORY) || OldHistory !in t.named then t.named
    else if Named(CHAT_HISTORY) in t.named then t.named - {OldHistory}
    else (t.named - {OldHistory})[Named(CHAT_HISTORY) := t.named[OldHistory]]
  }

  /** The key of a named bit that is written: none while a role gives what is set,
      the one there while it reads right, and none for history that follows chat. */
  function KeyAfter(before: Option<bool>, b: nat, access: Bits, baseline: Bits): Option<bool> {
    var on := b in access;
    if b in baseline then (if on then None else Some(false))
    else if before.Some? then Some(on)
    else if b == CHAT_HISTORY then (if on != (READ_CHAT in access) then Some(on) else None)
    else if on then Some(true) else None
  }

  function Lookup(named: map<Name, bool>, k: Name): Option<bool> {
    if k in named then Some(named[k]) else None
  }

  /** Each key: a named bit's as written if it is said anything of and below `i`. */
  function KeyWritten(moved: map<Name, bool>, k: Name, access: Bits, baseline: Bits, tier: Option<nat>, i: nat)
    : Option<bool>
  {
    if k.Named? && HasName(k.bit) && Said(tier, k.bit) && k.bit < i
    then KeyAfter(Lookup(moved, k), k.bit, access, baseline)
    else Lookup(moved, k)
  }

  function RawBits(t: Table, access: Bits, baseline: Bits, tier: Option<nat>): seq<int> {
    InNumbers(Unnamed(access - baseline, 64) + Kept(t.rawBits, b => Unsaid(tier, b)))
  }

  function RawDeny(t: Table, access: Bits, baseline: Bits): seq<int> {
    InNumbers(Kept(t.rawDeny, b => 0 <= b < 256 && b !in access) + Unnamed(baseline - access, 64))
  }

  /** What `after` is, once `access` has been written over `baseline`. */
  ghost predicate Written(t: Table, access: Bits, baseline: Bits, tier: Option<nat>, after: Table) {
    var a, r := UpTo(tier, access), UpTo(tier, baseline);
    && (forall k :: Lookup(after.named, k) == KeyWritten(Moved(t, tier), k, a, r, tier, 64))
    && after.rawBits == RawBits(t, a, r, tier)
    && after.rawDeny == RawDeny(t, a, r)
  }

  /** What `after` is, once exactly `grant` is set and `deny` withheld. */
  ghost predicate Overridden(t: Table, grant: Bits, deny: Bits, after: Table) {
    && (forall k :: Lookup(after.named, k) ==
          if k.Named? && HasName(k.bit) then OverrideKey(k.bit, grant, deny) else Lookup(Moved(t, None), k))
    && after.rawBits == InNumbers(Unnamed(grant, 64)) && after.rawDeny == InNumbers(Unnamed(deny, 64))
  }

  function OverrideKey(b: nat, grant: Bits, deny: Bits): Option<bool> {
    if b in grant || b in deny then Some(b in grant) else None
  }

  class AccessTable {
    var named: map<Name, bool>
    var rawBits: seq<int>
    var rawDeny: seq<int>

    function View(): Table
      reads this
    {
      Table(named, rawBits, rawDeny)
    }

    /** The old name gives way, or goes where the new one is. */
    method MoveHistory()
      modifies this`named
      ensures named == Moved(old(View()), None)
    {
      if OldHistory in named {
        var was := named[OldHistory];
        named := named - {OldHistory};
        if Named(CHAT_HISTORY) !in named {
          named := named[Named(CHAT_HISTORY) := was];
        }
      }
    }

    method WriteAccess(bits: Bits, given: Bits, tier: Option<nat>)
      modifies this
      ensures Written(old(View()), bits, given, tier, View())
      ensures Readable(old(View())) ==> Readable(View())
    {
      hide KeyAfter, Moved, UpTo, RawBits, RawDeny, Readable;
      ghost var t := View();
      var access, baseline := UpTo(tier, bits), UpTo(tier, given);
      MovedUnsaid(t, tier);
      if Said(tier, CHAT_HISTORY) {
        MoveHistory();
      }
      assert named == Moved(t, tier);
      for b := 0 to 64
        invariant rawBits == t.rawBits && rawDeny == t.rawDeny
        invariant forall k :: Lookup(named, k) == KeyWritten(Moved(t, tier), k, access, baseline, tier, b)
      {
        if HasName(b) && Said(tier, b) {
          ghost var before := named;
          WriteKey(b, access, baseline);
          NextKey(t, tier, access, baseline, b, before, named);
        }
      }
      RawOf(t, access, baseline, tier);
      rawBits := InNumbers(Unnamed(access - baseline, 64) + Kept(rawBits, b => Unsaid(tier, b)));
      rawDeny := InNumbers(Kept(rawDeny, b => 0 <= b < 256 && b !in access) + Unnamed(baseline - access, 64));
      if Readable(t) {
        WrittenReadable(t, bits, given, tier, View());
      }
    }

    /** One named bit's key, in place. */
    method WriteKey(b: nat, access: Bits, baseline: Bits)
      modifies this`named
      ensures forall k :: Lookup(named, k) ==
                if k == Named(b) then KeyAfter(Lookup(old(named), k), b, access, baseline) else Lookup(old(named), k)
    {
      var history, on := b == CHAT_HISTORY, b in access;
      if b in baseline {
        if on {
          named := named - {Named(b)};
        } else {
          named := named[Named(b) := false];
        }
      } else if Named(b) in named {
        if named[Named(b)] != on {
          named := named[Named(b) := on];
        }
      } else if (on && !history) || (history && on != (READ_CHAT in access)) {
        named := named[Named(b) := on];
      }
    }

    method WriteOverrides(grant: Bits, deny: Bits)
      modifies this
      ensures Overridden(old(View()), grant, deny, View())
    {
      hide Moved, OverrideKey;
      ghost var t := View();
      MoveHistory();
      for b := 0 to 64
        invariant forall k :: Lookup(named, k) ==
                    if k.Named? && HasName(k.bit) && k.bit < b then OverrideKey(k.bit, grant, deny)
                    else Lookup(Moved(t, None), k)
      {
        if HasName(b) {
          WriteOverride(b, grant, deny);
        }
      }
      rawBits := InNumbers(Unnamed(grant, 64));
      rawDeny := InNumbers(Unnamed(deny, 64));
    }

    method WriteOverride(b: nat, grant: Bits, deny: Bits)
      modifies this`named
      ensures forall k :: Lookup(named, k) ==
                if k == Named(b) then OverrideKey(b, grant, deny) else Lookup(old(named), k)
    {
      if b in grant || b in deny {
        named := named[Named(b) := b in grant];
      } else {
        named := named - {Named(b)};
      }
    }
  }

  lemma MovedUnsaid(t: Table, tier: Option<nat>)
    ensures Moved(t, tier) == if Said(tier, CHAT_HISTORY) then Moved(t, None) else t.named
  {
  }

  lemma RawOf(t: Table, access: Bits, baseline: Bits, tier: Option<nat>)
    ensures RawBits(t, access, baseline, tier) ==
            InNumbers(Unnamed(access - baseline, 64) + Kept(t.rawBits, b => Unsaid(tier, b)))
    ensures RawDeny(t, access, baseline) ==
            InNumbers(Kept(t.rawDeny, b => 0 <= b < 256 && b !in access) + Unnamed(baseline - access, 64))
  {
  }

  lemma NextKey(t: Table, tier: Option<nat>, access: Bits, baseline: Bits, b: nat,
                                   before: map<Name, bool>, after: map<Name, bool>)
    requires HasName(b) && Said(tier, b)
    requires forall k :: Lookup(before, k) == KeyWritten(Moved(t, tier), k, access, baseline, tier, b)
    requires forall k :: Lookup(after, k) ==
               if k == Named(b) then KeyAfter(Lookup(before, k), b, access, baseline) else Lookup(before, k)
    ensures forall k :: Lookup(after, k) == KeyWritten(Moved(t, tier), k, access, baseline, tier, b + 1)
  {
    hide Moved, KeyAfter, Lookup;
  }

  // What it is for.

  /** A written table reads as what was asked for on every bit said anything of,
      whatever stood there before: history in the wake of chat too. */
  lemma PutGet(f: File, after: Table, granted: Role, held: seq<string>, access: Bits, tier: Option<nat>,
                                  person: bool, b: nat)
    requires Readable(f.table) && Written(f.table, access, granted.access, tier, after) && Said(tier, b)
    ensures b in Resolve(Configured(f.(table := after), granted, held), person, NO_MASK).access <==> b in access
  {
    hide Configured, Written, DerivedAccess, Says, NamesHistory;
    var c := Configured(f.(table := after), granted, held);
    ConfiguredSets(f.(table := after), granted, held);
    DerivedBit(c, {}, b);
    SaidOf(f.table, access, granted.access, tier, after, b);
    YesOrNo(Says(after, b));
    AllowsBit(after, granted.access, b);
    if b == CHAT_HISTORY {
      SaidOf(f.table, access, granted.access, tier, after, READ_CHAT);
      AllowsBit(after, granted.access, READ_CHAT);
      HistorySays(after);
      YesOrNo(Says(after, READ_CHAT));
    }
  }

  lemma YesOrNo(o: Option<bool>)
    ensures o == None || o == Some(true) || o == Some(false)
  {
    if o.Some? {
      var on := o.value;
      if on {
        assert o == Some(true);
      } else {
        assert o == Some(false);
      }
    }
  }

  lemma AllowsBit(t: Table, granted: Bits, b: nat)
    ensures b in Allows(t, granted) <==>
            b < 64 && (Says(t, b) == Some(true) || (Says(t, b).None? && b in granted))
  {
  }

  lemma HistorySays(t: Table)
    ensures Says(t, CHAT_HISTORY).None? ==> !NamesHistory(t)
    ensures Says(t, CHAT_HISTORY) == Some(false) ==> NamesHistory(t)
  {
  }

  lemma ConfiguredSets(f: File, granted: Role, held: seq<string>)
    ensures var c := Configured(f, granted, held);
            && c.access == Allows(f.table, granted.access) && c.grant == Grants(f.table) && c.deny == Denies(f.table)
            && (c.historyNamed <==> CHAT_HISTORY in granted.access || NamesHistory(f.table))
  {
  }

  lemma WrittenLists(t: Table, access: Bits, baseline: Bits, tier: Option<nat>, after: Table, b: nat)
    requires Written(t, access, baseline, tier, after) && b < 64
    ensures b in after.rawBits <==>
            if Said(tier, b) then b in access && b !in baseline && !HasName(b) else b in t.rawBits
    ensures b in after.rawDeny <==>
            if Said(tier, b) then b !in access && (b in t.rawDeny || (b in baseline && !HasName(b))) else b in t.rawDeny
  {
    hide InNumbers, Unnamed, Kept, HasName;
  }

  lemma WrittenKey(t: Table, access: Bits, baseline: Bits, tier: Option<nat>, after: Table, b: nat)
    requires Written(t, access, baseline, tier, after) && b < 64
    ensures KeyOf(after, b) ==
            if Said(tier, b) && HasName(b)
            then KeyAfter(Lookup(Moved(t, tier), Named(b)), b, UpTo(tier, access), UpTo(tier, baseline))
            else KeyOf(t, b)
  {
    hide InNumbers, Unnamed, Kept, KeyAfter, RawBits, RawDeny;
    var a, r := UpTo(tier, access), UpTo(tier, baseline);
    assert Lookup(after.named, Named(b)) == KeyWritten(Moved(t, tier), Named(b), a, r, tier, 64);
    assert Lookup(after.named, OldHistory) == KeyWritten(Moved(t, tier), OldHistory, a, r, tier, 64);
    assert KeyOf(after, b) ==
      if Lookup(after.named, Named(b)).Some? then Lookup(after.named, Named(b))
      else if b == CHAT_HISTORY then Lookup(after.named, OldHistory) else None;
  }

  lemma SaidOf(t: Table, access: Bits, baseline: Bits, tier: Option<nat>, after: Table, b: nat)
    requires Written(t, access, baseline, tier, after) && Said(tier, b)
    requires !HasName(b) ==> Named(b) !in t.named
    ensures Says(after, b) == Some(true) ==> b in access
    ensures Says(after, b) == Some(false) ==> b !in access
    ensures Says(after, b).None? && (b != CHAT_HISTORY || b in baseline) ==> (b in access <==> b in baseline)
    ensures Says(after, b).None? && b == CHAT_HISTORY && b !in baseline ==> (b in access <==> READ_CHAT in access)
    ensures b in access && b in baseline ==> Says(after, b).None?
  {
    hide Written, Moved, InNumbers, HasName;
    HistoryHasName();
    WrittenLists(t, access, baseline, tier, after, b);
    WrittenKey(t, access, baseline, tier, after, b);
  }

  /** Above the tier nothing moves: the bit is configured, set and withheld as it
      was, and history named as it was. */
  lemma AboveTier(f: File, after: Table, granted: Role, held: seq<string>, access: Bits,
                                     tier: Option<nat>, b: nat)
    requires Written(f.table, access, granted.access, tier, after) && Unsaid(tier, b)
    ensures var was, c := Configured(f, granted, held), Configured(f.(table := after), granted, held);
            && (b in c.access <==> b in was.access) && (b in c.grant <==> b in was.grant)
            && (b in c.deny <==> b in was.deny)
            && (b == CHAT_HISTORY ==> c.historyNamed == was.historyNamed)
            && c.extra == was.extra && c.roles == was.roles
  {
    hide Written, Moved, InNumbers, HasName, ZipWith;
    WrittenLists(f.table, access, granted.access, tier, after, b);
    WrittenKey(f.table, access, granted.access, tier, after, b);
  }

  /** A bit that the roles give and that is set has no key left and no number: it
      goes on following whatever the roles come to give. */
  lemma FollowsRoles(f: File, after: Table, access: Bits, baseline: Bits, tier: Option<nat>, b: nat,
                                        later: Role, held: seq<string>)
    requires Readable(f.table) && Written(f.table, access, baseline, tier, after)
    requires Said(tier, b) && b in access && b in baseline
    ensures b in Configured(f.(table := after), later, held).access <==> b in later.access
  {
    hide Written, Configured;
    ConfiguredSets(f.(table := after), later, held);
    SaidOf(f.table, access, baseline, tier, after, b);
  }

  lemma SameTable(t: Table, u: Table)
    requires (forall k :: Lookup(t.named, k) == Lookup(u.named, k)) && t.rawBits == u.rawBits && t.rawDeny == u.rawDeny
    ensures t == u
  {
    assert forall k :: k in t.named <==> Lookup(t.named, k).Some?;
    assert forall k :: k in u.named <==> Lookup(u.named, k).Some?;
    assert forall k | k in t.named :: Lookup(t.named, k) == Some(t.named[k]);
    assert forall k | k in u.named :: Lookup(u.named, k) == Some(u.named[k]);
    assert t.named == u.named;
  }

  /** Writing the same again changes nothing. */
  lemma WriteTwice(t: Table, access: Bits, baseline: Bits, tier: Option<nat>, once: Table, twice: Table)
    requires Written(t, access, baseline, tier, once) && Written(once, access, baseline, tier, twice)
    ensures twice == once
  {
    hide Moved, KeyAfter, InNumbers, Unnamed, Kept, HasName;
    forall k ensures Lookup(twice.named, k) == Lookup(once.named, k) {
      KeyTwice(t, access, baseline, tier, once, k);
    }
    ListsTwice(t, access, baseline, tier, once);
    SameTable(twice, once);
  }

  lemma ListsTwice(t: Table, access: Bits, baseline: Bits, tier: Option<nat>, once: Table)
    requires Written(t, access, baseline, tier, once)
    ensures var a, r := UpTo(tier, access), UpTo(tier, baseline);
            RawBits(once, a, r, tier) == once.rawBits && RawDeny(once, a, r) == once.rawDeny
  {
    hide InNumbers, Unnamed, Kept, HasName;
    var a, r := UpTo(tier, access), UpTo(tier, baseline);
    AscendingUnique(RawBits(once, a, r, tier), once.rawBits);
    AscendingUnique(RawDeny(once, a, r), once.rawDeny);
  }

  lemma KeyTwice(t: Table, access: Bits, baseline: Bits, tier: Option<nat>, once: Table, k: Name)
    requires Written(t, access, baseline, tier, once)
    ensures var a, r := UpTo(tier, access), UpTo(tier, baseline);
            KeyWritten(Moved(once, tier), k, a, r, tier, 64) == Lookup(once.named, k)
  {
    hide RawBits, RawDeny, InNumbers;
    var a, r := UpTo(tier, access), UpTo(tier, baseline);
    assert Lookup(once.named, k) == KeyWritten(Moved(t, tier), k, a, r, tier, 64);
    assert Lookup(once.named, OldHistory) == KeyWritten(Moved(t, tier), OldHistory, a, r, tier, 64);
    assert Moved(once, tier) == once.named;
  }

  /** Overrides set exactly what they name, over whatever the roles give; a bit in
      neither follows them. */
  lemma OverridesHold(f: File, after: Table, grant: Bits, deny: Bits, granted: Role, held: seq<string>,
                                         b: nat)
    requires Readable(f.table) && Overridden(f.table, grant, deny, after) && b < 64
    requires b !in grant || b !in deny
    ensures var c := Configured(f.(table := after), granted, held);
            && (b in c.grant <==> b in grant) && (b in c.deny <==> b in deny)
            && (b in c.access <==> b in grant || (b in granted.access && b !in deny))
  {
    hide Configured, InNumbers, Unnamed, HasName;
    ConfiguredSets(f.(table := after), granted, held);
    assert Lookup(after.named, OldHistory) == Lookup(Moved(f.table, None), OldHistory);
    assert Lookup(after.named, Named(b)) ==
      if HasName(b) then OverrideKey(b, grant, deny) else Lookup(Moved(f.table, None), Named(b));
    HistoryHasName();
  }

  lemma HistoryHasName()
    ensures HasName(CHAT_HISTORY)
  {
  }

  /** A table written reads back: its numbers fit. */
  lemma WrittenReadable(t: Table, access: Bits, baseline: Bits, tier: Option<nat>, after: Table)
    requires Readable(t) && Written(t, access, baseline, tier, after)
    ensures Readable(after)
  {
    hide InNumbers, Unnamed, Kept, HasName, KeyAfter;
    HistoryHasName();
    forall k | k in after.named && k.Named? ensures HasName(k.bit) {
      assert Lookup(after.named, k) ==
        KeyWritten(Moved(t, tier), k, UpTo(tier, access), UpTo(tier, baseline), tier, 64);
    }
    forall i | 0 <= i < |after.rawBits| ensures 0 <= after.rawBits[i] < 256 {
      assert after.rawBits[i] in after.rawBits;
    }
    forall i | 0 <= i < |after.rawDeny| ensures 0 <= after.rawDeny[i] < 256 {
      assert after.rawDeny[i] in after.rawDeny;
    }
  }

  /** Writing back what an account resolves to changes nothing of what it resolves
      to, at any tier: no bit, and no policy that derives from one. */
  lemma GetPut(f: File, after: Table, granted: Role, held: seq<string>, tier: Option<nat>, person: bool)
    requires Readable(f.table)
    requires var access := Resolve(Configured(f, granted, held), person, NO_MASK).access;
             Written(f.table, access, granted.access, tier, after)
    ensures var was, now := Configured(f, granted, held), Configured(f.(table := after), granted, held);
            && Resolve(now, person, NO_MASK).access == Resolve(was, person, NO_MASK).access
            && Resolve(now, person, NO_MASK).extra == Resolve(was, person, NO_MASK).extra
  {
    hide Written, Configured, DerivedAccess;
    var was, now := Configured(f, granted, held), Configured(f.(table := after), granted, held);
    var access := DerivedAccess(was, {});
    forall b: nat ensures b in DerivedAccess(now, {}) <==> b in access {
      if Said(tier, b) {
        PutGet(f, after, granted, held, access, tier, person, b);
      } else if b < 64 {
        AboveTier(f, after, granted, held, access, tier, b);
        DerivedBit(was, {}, b);
        DerivedBit(now, {}, b);
        ChatKept(f, after, granted, held, access, tier, person);
      }
    }
    ExtraKept(f, after, granted, held);
  }

  /** Read-chat is configured as it was, whether or not it was written. */
  lemma ChatKept(f: File, after: Table, granted: Role, held: seq<string>, access: Bits,
                                    tier: Option<nat>, person: bool)
    requires Readable(f.table) && Written(f.table, access, granted.access, tier, after)
    requires access == DerivedAccess(Configured(f, granted, held), {})
    ensures READ_CHAT in Configured(f.(table := after), granted, held).access <==>
            READ_CHAT in Configured(f, granted, held).access
  {
    hide Written, Configured, DerivedAccess;
    var was, now := Configured(f, granted, held), Configured(f.(table := after), granted, held);
    DerivedBit(was, {}, READ_CHAT);
    DerivedBit(now, {}, READ_CHAT);
    if Said(tier, READ_CHAT) {
      PutGet(f, after, granted, held, access, tier, person, READ_CHAT);
    } else {
      AboveTier(f, after, granted, held, access, tier, READ_CHAT);
    }
  }

  lemma ExtraKept(f: File, after: Table, granted: Role, held: seq<string>)
    ensures Configured(f.(table := after), granted, held).extra == Configured(f, granted, held).extra
  {
  }

  /** What an editor that was shown one set of bits and sent another asks for, of an
      account that may have moved meanwhile. */
  function Merged(now: Bits, shown: Bits, sent: Bits): Bits {
    (now - ((sent - shown) + (shown - sent))) + (sent - shown)
  }

  /** Written so, a bit the editor changed reads as sent, and any other as the
      account had it. */
  lemma EditorWrite(f: File, after: Table, granted: Role, held: seq<string>, shown: Bits, sent: Bits,
                                       tier: Option<nat>, person: bool, b: nat)
    requires Readable(f.table) && Said(tier, b)
    requires var now := Resolve(Configured(f, granted, held), person, NO_MASK).access;
             Written(f.table, Merged(now, shown, sent), granted.access, tier, after)
    ensures var was, now := Configured(f, granted, held), Configured(f.(table := after), granted, held);
            b in Resolve(now, person, NO_MASK).access <==>
            if (b in sent) != (b in shown) then b in sent else b in Resolve(was, person, NO_MASK).access
  {
    hide Written, Configured, DerivedAccess;
    var now := Resolve(Configured(f, granted, held), person, NO_MASK).access;
    PutGet(f, after, granted, held, Merged(now, shown, sent), tier, person, b);
  }
}
