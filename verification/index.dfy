/** The fingerprint index over a directory of account files: what it remembers of a
    file it knows again only by its length and its time of change, while anyone
    may write there at any moment. */
module FingerprintIndex {
  import opened Bytes
  import opened Cbor
  import Keys

  /** In the clock's units. */
  const SECOND: nat := 1_000_000_000

  /** What an account file says of its link: whether it parses, has a password,
      names a fingerprint, and lets its user link it. */
  datatype Content = Content(readable: bool, password: bool, fp: Option<Buf>, selfLink: bool)

  datatype Stamp = Stamp(len: nat, modified: nat)

  datatype OnDisk = OnDisk(stamp: Stamp, content: Content)

  type Files = map<string, OnDisk>

  /** What may happen beside a lookup: a file placed, whose content was written at
      `written`; one removed; time passing. */
  datatype Change = Placed(login: string, len: nat, written: nat, content: Content) | Removed(login: string)
                  | Passed(time: nat)

  function LowerAll(s: Buf): (r: Buf)
    ensures |r| == |s| && forall i :: 0 <= i < |r| ==> r[i] == Keys.Lower(s[i])
  {
    if s == [] then [] else [Keys.Lower(s[0])] + LowerAll(s[1..])
  }

  function TextOf(c: Content): Option<Buf> {
    if c.readable then c.fp else None
  }

  predicate Matches(text: Option<Buf>, want: Buf) {
    text.Some? && LowerAll(text.value) == LowerAll(want)
  }

  predicate Carries(files: Files, login: string, want: Buf) {
    login in files && Matches(TextOf(files[login].content), want)
  }

  predicate Settled(stamp: Stamp, now: nat) {
    stamp.modified + SECOND <= now
  }

  /** A file placed after `n0` cannot have a stamp that had settled by then: a
      settled stamp is that of the file that was there. */
  ghost predicate Later(f0: Files, n0: nat, f1: Files, n1: nat) {
    && n0 <= n1
    && forall l | l in f1 && Settled(f1[l].stamp, n0) :: l in f0 && f0[l] == f1[l]
  }

  /** One state of the files after another, the last the present one. */
  ghost predicate Grown(past: seq<Files>, now: seq<Files>) {
    |past| <= |now| && now[..|past|] == past
  }

  class Disk {
    const tick: nat     // the grain of times of change
    const delay: nat    // from a content's writing to its placing
    var files: Files
    var now: nat
    var script: seq<seq<Change>>
    ghost var past: seq<Files>

    ghost predicate Valid()
      reads this
    {
      0 < tick && tick + delay <= SECOND && past != [] && past[|past| - 1] == files
    }

    /** Nobody writes beside this program. */
    predicate Undisturbed()
      reads this`script
    {
      forall i, j | 0 <= i < |script| && 0 <= j < |script[i]| :: script[i][j].Passed?
    }

    constructor (files: Files, now: nat, tick: nat, delay: nat, script: seq<seq<Change>>)
      requires 0 < tick && tick + delay <= SECOND
      ensures Valid() && this.files == files && this.now == now && this.script == script && past == [files]
    {
      this.files, this.now, this.tick, this.delay, this.script := files, now, tick, delay, script;
      past := [files];
    }

    /** Whatever the script has happen between one instruction and the next. */
    method Elapse()
      requires Valid()
      modifies this
      ensures Valid() && Grown(old(past), past)
      ensures Later(old(files), old(now), files, now)
      ensures old(Undisturbed()) ==> Undisturbed() && past == old(past)
    {
      if script == [] {
        return;
      }
      var batch := script[0];
      script := script[1..];
      for i := 0 to |batch|
        invariant Valid() && Grown(old(past), past) && script == old(script[1..])
        invariant Later(old(files), old(now), files, now)
        invariant old(Undisturbed()) ==> past == old(past)
      {
        assert old(Undisturbed()) ==> old(script)[0][i].Passed?;
        Happen(batch[i]);
      }
      assert forall i | 0 <= i < |script| :: script[i] == old(script)[i + 1];
    }

    method Happen(c: Change)
      requires Valid()
      modifies this`files, this`now, this`past
      ensures Valid() && Grown(old(past), past) && (c.Passed? ==> past == old(past))
      ensures forall f, n | Later(f, n, old(files), old(now)) :: Later(f, n, files, now)
    {
      match c
      case Placed(login, len, written, content) =>
        if written <= now <= written + delay {
          Place(login, len, written, content);
        }
      case Removed(login) =>
        files := files - {login};
        past := past + [files];
      case Passed(time) =>
        now := now + time;
    }

    /** A file renamed into place, its time of change the grain its content was
        written in. */
    method Place(login: string, len: nat, written: nat, content: Content)
      requires Valid() && written <= now <= written + delay
      modifies this`files, this`past
      ensures Valid() && past == old(past) + [files]
      ensures exists m :: files == old(files)[login := OnDisk(Stamp(len, m), content)]
      ensures forall f, n | Later(f, n, old(files), now) :: Later(f, n, files, now)
    {
      var m := written - written % tick;
      files := files[login := OnDisk(Stamp(len, m), content)];
      past := past + [files];
      assert m + SECOND > now;
    }
  }

  /** A second is enough, and no less would be: a file can be settled the moment it
      is placed exactly when the grain and the delay together exceed one. */
  lemma SettledOnArrivalIff(tick: nat, delay: nat, len: nat)
    requires tick > 0
    ensures tick + delay > SECOND <==>
            exists written: nat, now: nat :: SettledAsPlaced(tick, delay, len, written, now)
  {
    if tick + delay > SECOND {
      var written, now := tick - 1, tick - 1 + delay;
      assert written % tick == written;
      assert SettledAsPlaced(tick, delay, len, written, now);
    }
  }

  predicate SettledAsPlaced(tick: nat, delay: nat, len: nat, written: nat, now: nat)
    requires tick > 0
  {
    written <= now <= written + delay && Settled(Stamp(len, written - written % tick), now)
  }

  // What the index remembers.

  type Cache = map<string, (Stamp, Option<Buf>)>

  /** What is remembered under a settled stamp is what the file says, if it still
      has that stamp. */
  ghost predicate Coherent(cache: Cache, files: Files, now: nat) {
    forall l | l in cache ::
      && Settled(cache[l].0, now)
      && (l in files && files[l].stamp == cache[l].0 ==> TextOf(files[l].content) == cache[l].1)
  }

  /** Whatever happens to the files, the index stays right. */
  lemma StaysCoherent(cache: Cache, f0: Files, n0: nat, f1: Files, n1: nat)
    requires Coherent(cache, f0, n0) && Later(f0, n0, f1, n1)
    ensures Coherent(cache, f1, n1)
  {
  }

  /** The file carried it at some moment of the call. */
  ghost predicate Carried(past: seq<Files>, from: nat, login: string, want: Buf) {
    exists i :: from <= i < |past| && Carries(past[i], login, want)
  }

  lemma CarriedMore(past: seq<Files>, more: seq<Files>, from: nat, login: string, want: Buf)
    requires Carried(past, from, login, want) && Grown(past, more)
    ensures Carried(more, from, login, want)
  {
    var i :| from <= i < |past| && Carries(past[i], login, want);
    assert more[i] == more[..|past|][i];
  }

  class Index {
    const disk: Disk
    var cache: Cache
    var byFp: map<Buf, string>

    ghost predicate Valid()
      reads this, disk
    {
      disk.Valid() && Coherent(cache, disk.files, disk.now)
    }

    constructor (disk: Disk)
      requires disk.Valid()
      ensures Valid() && this.disk == disk && cache == map[] && byFp == map[]
    {
      this.disk := disk;
      cache, byFp := map[], map[];
    }

    /** Time passes for the files. */
    method Elapse()
      requires Valid()
      modifies disk
      ensures Valid() && Grown(old(disk.past), disk.past) && old(disk.now) <= disk.now
      ensures old(disk.Undisturbed()) ==> disk.Undisturbed() && disk.past == old(disk.past)
    {
      disk.Elapse();
      StaysCoherent(cache, old(disk.files), old(disk.now), disk.files, disk.now);
    }

    /** Does the file still carry the fingerprint? */
    method CarriesNow(login: string, want: Buf) returns (r: bool)
      requires Valid()
      modifies this`cache, disk
      ensures Valid() && Grown(old(disk.past), disk.past)
      ensures old(disk.Undisturbed()) ==> disk.Undisturbed() && disk.past == old(disk.past)
      ensures r ==> Carried(disk.past, |old(disk.past)| - 1, login, want)
      ensures disk.past == old(disk.past) ==> (r <==> Carries(disk.files, login, want))
    {
      ghost var from := |disk.past| - 1;
      Elapse();
      if login !in disk.files {
        return false;
      }
      var stamp := disk.files[login].stamp;
      ghost var there, past := disk.files, disk.past;
      assert past[|past| - 1] == there;
      Elapse();
      var settled := Settled(stamp, disk.now);
      if login in cache && settled && cache[login].0 == stamp {
        r := Matches(cache[login].1, want);
        assert r ==> Carries(there, login, want);
        if r {
          CarriedMore(past, disk.past, from, login, want);
        }
      } else {
        r := Reads(login, want, stamp, settled);
      }
    }

    /** A file read, and remembered under the stamp it was last seen with once that
        had settled. */
    method Reads(login: string, want: Buf, stamp: Stamp, settled: bool) returns (r: bool)
      requires Valid() && (settled ==> Settled(stamp, disk.now))
      modifies this`cache, disk
      ensures Valid() && Grown(old(disk.past), disk.past)
      ensures old(disk.Undisturbed()) ==> disk.Undisturbed() && disk.past == old(disk.past)
      ensures r <==> Carries(disk.files, login, want)
    {
      Elapse();
      if login !in disk.files || !disk.files[login].content.readable {
        return false;
      }
      var fp := disk.files[login].content.fp;
      if settled {
        cache := cache[login := (stamp, fp)];
      }
      r := Matches(fp, want);
    }

    /** Which account, if any, carries the fingerprint: the one remembered for it if
        it still does, and a scan of the directory otherwise. */
    method LoginFor(want: Buf) returns (found: Option<string>)
      requires Valid()
      modifies this`cache, this`byFp, disk
      ensures Valid() && Grown(old(disk.past), disk.past)
      ensures old(disk.Undisturbed()) ==> disk.Undisturbed() && disk.past == old(disk.past)
      ensures found.Some? ==> Carried(disk.past, |old(disk.past)| - 1, found.value, want)
      ensures disk.past == old(disk.past) ==>
                match found
                case Some(login) => Carries(disk.files, login, want)
                case None => forall login :: !Carries(disk.files, login, want)
    {
      ghost var from := |disk.past| - 1;
      ghost var first := disk.past;
      if want in byFp {
        var login := byFp[want];
        var carries := CarriesNow(login, want);
        if carries {
          return Some(login);
        }
        byFp := byFp - {want};
      }
      ghost var before := disk.past;
      found := Scan(want);
      if found.Some? {
        byFp := byFp[want := found.value];
        CarriedFrom(disk.past, |before| - 1, from, found.value, want);
      }
    }

    /** Every file seen with its stamp, those gone forgotten, and each asked. */
    method Scan(want: Buf) returns (found: Option<string>)
      requires Valid()
      modifies this`cache, disk
      ensures Valid() && Grown(old(disk.past), disk.past)
      ensures old(disk.Undisturbed()) ==> disk.Undisturbed() && disk.past == old(disk.past)
      ensures found.Some? ==> Carried(disk.past, |old(disk.past)| - 1, found.value, want)
      ensures disk.past == old(disk.past) ==>
                match found
                case Some(login) => Carries(disk.files, login, want)
                case None => forall login :: !Carries(disk.files, login, want)
    {
      hide Carries, Carried, Settled, Matches, Agrees, Coherent, Answers, Witnessed;
      ghost var first := disk.past;
      ghost var quiet := disk.Undisturbed();
      var entries, said := Entries();
      Forget(entries.Keys, said);
      ghost var before := disk.past;
      Elapse();
      GrownAgain(first, before, disk.past);
      WitnessedMore(said, before, disk.past, |first| - 1);
      var now := disk.now;
      found := None;
      var rest := entries.Keys;
      AnswersNone(said, want);
      while rest != {}
        invariant rest <= entries.Keys && Scanning(first, said, now, rest, want, found)
        invariant quiet ==> disk.Undisturbed() && disk.past == first
        decreases rest
      {
        var login :| login in rest;
        found := Next(login, entries[login], now, want, rest, found, first, said);
        rest := rest - {login};
      }
      AnswersAll(said, want, found);
    }

    /** Every account file's stamp, one file after another: the names first, and those
        that are gone by their turn left out. `said` is what each held when its stamp
        was taken. */
    method Entries() returns (entries: map<string, Stamp>, ghost said: Files)
      requires Valid()
      modifies disk
      ensures Valid() && Grown(old(disk.past), disk.past)
      ensures old(disk.Undisturbed()) ==> disk.Undisturbed() && disk.past == old(disk.past)
      ensures entries.Keys == said.Keys && forall l | l in said :: entries[l] == said[l].stamp
      ensures Witnessed(said, disk.past, |old(disk.past)| - 1) && Agrees(cache, said, said.Keys)
      ensures disk.past == old(disk.past) ==> disk.files == said
    {
      hide Settled, Coherent, Witnessed, Agrees;
      ghost var first := disk.past;
      ghost var quiet := disk.Undisturbed();
      Elapse();
      var names := disk.files.Keys;
      entries, said := map[], map[];
      NothingSaid(cache, said, disk.past, |first| - 1);
      var rest := names;
      while rest != {}
        invariant Valid() && Grown(first, disk.past) && rest <= names
        invariant quiet ==> disk.Undisturbed() && disk.past == first
        invariant entries.Keys == said.Keys && forall l | l in said :: entries[l] == said[l].stamp
        invariant Witnessed(said, disk.past, |first| - 1) && Agrees(cache, said, said.Keys)
        invariant disk.past == first ==>
                    && names == disk.files.Keys && said.Keys == names - rest
                    && forall l | l in said :: said[l] == disk.files[l]
        decreases rest
      {
        var login :| login in rest;
        ghost var before := disk.past;
        Elapse();
        GrownAgain(first, before, disk.past);
        WitnessedMore(said, before, disk.past, |first| - 1);
        if login in disk.files {
          entries := entries[login := disk.files[login].stamp];
          SaidNext(cache, said, disk.files, disk.now, disk.past, |first| - 1, login);
          said := said[login := disk.files[login]];
        }
        rest := rest - {login};
      }
    }

    /** What is remembered of files that are gone is forgotten. */
    method Forget(names: set<string>, ghost said: Files)
      requires Valid() && Agrees(cache, said, said.Keys)
      modifies this`cache
      ensures Valid() && Agrees(cache, said, said.Keys)
    {
      cache := map l | l in cache && l in names :: cache[l];
    }

    /** How a scan stands, with the files of `rest` still to ask. */
    ghost predicate Scanning(first: seq<Files>, said: Files, now: nat, rest: set<string>, want: Buf,
                             found: Option<string>)
      reads this, disk
    {
      && Valid() && Grown(first, disk.past) && first != [] && now <= disk.now
      && Witnessed(said, disk.past, |first| - 1) && Agrees(cache, said, rest)
      && (found.Some? ==> Carried(disk.past, |first| - 1, found.value, want))
      && (disk.past == first ==> disk.files == said && Answers(said, rest, want, found))
    }

    method Next(login: string, stamp: Stamp, now: nat, want: Buf, ghost rest: set<string>, was: Option<string>,
                ghost first: seq<Files>, ghost said: Files) returns (found: Option<string>)
      requires login in rest && login in said && said[login].stamp == stamp
      requires Scanning(first, said, now, rest, want, was)
      modifies this`cache, disk
      ensures Scanning(first, said, now, rest - {login}, want, found)
      ensures old(disk.Undisturbed()) ==> disk.Undisturbed() && disk.past == old(disk.past)
    {
      hide Carries, Carried, Settled, Matches, Agrees, Coherent, Answers, Witnessed;
      ghost var before, known := disk.past, cache;
      AgreesOne(cache, said, rest, login);
      var answer := Ask(login, stamp, now, want, said, |first| - 1);
      AgreesElsewhere(known, cache, said, rest, login);
      GrownAgain(first, before, disk.past);
      WitnessedMore(said, before, disk.past, |first| - 1);
      AnswersNext(said, rest, want, was, login, answer);
      if was.Some? {
        CarriedMore(before, disk.past, |first| - 1, was.value, want);
      }
      found := if was.None? && answer then Some(login) else was;
    }

    /** One file of a scan: what is remembered under its settled stamp, or read. */
    method Ask(login: string, stamp: Stamp, now: nat, want: Buf, ghost said: Files, ghost from: nat) returns (r: bool)
      requires Valid() && now <= disk.now && login in said && said[login].stamp == stamp
      requires Agrees(cache, said, {login}) && Witnessed(said, disk.past, from) && from < |disk.past|
      modifies this`cache, disk
      ensures Valid() && Grown(old(disk.past), disk.past) && old(disk.now) <= disk.now
      ensures old(disk.Undisturbed()) ==> disk.Undisturbed() && disk.past == old(disk.past)
      ensures forall l | l != login && l in cache :: l in old(cache) && cache[l] == old(cache)[l]
      ensures r ==> Carried(disk.past, from, login, want)
      ensures disk.past == old(disk.past) && old(disk.files) == said ==> (r <==> Carries(said, login, want))
    {
      var settled := Settled(stamp, now);
      if settled && login in cache && cache[login].0 == stamp {
        r := Matches(cache[login].1, want);
        assert Held(said[login], login, disk.past, from);
        return;
      }
      Elapse();
      if login !in disk.files {
        return false;
      }
      var fp := TextOf(disk.files[login].content);
      if settled {
        cache := cache[login := (stamp, fp)];
      }
      r := Matches(fp, want);
      assert disk.past[|disk.past| - 1] == disk.files;
    }
  }

  /** The file was there, and so, at some moment. */
  ghost predicate Held(file: OnDisk, login: string, past: seq<Files>, from: nat) {
    exists i :: from <= i < |past| && login in past[i] && past[i][login] == file
  }

  ghost predicate Witnessed(said: Files, past: seq<Files>, from: nat) {
    forall l | l in said :: Held(said[l], l, past, from)
  }

  lemma WitnessedMore(said: Files, past: seq<Files>, more: seq<Files>, from: nat)
    requires Witnessed(said, past, from) && Grown(past, more)
    ensures Witnessed(said, more, from)
  {
    forall l | l in said ensures Held(said[l], l, more, from) {
      assert Held(said[l], l, past, from);
      var i :| from <= i < |past| && l in past[i] && past[i][l] == said[l];
      assert more[i] == more[..|past|][i];
    }
  }

  lemma NothingSaid(cache: Cache, said: Files, past: seq<Files>, from: nat)
    requires said == map[]
    ensures Witnessed(said, past, from) && Agrees(cache, said, said.Keys)
  {
  }

  /** One more file seen: what is remembered of it under its stamp is what it says. */
  lemma SaidNext(cache: Cache, said: Files, files: Files, now: nat, past: seq<Files>, from: nat,
                                    login: string)
    requires Coherent(cache, files, now) && Agrees(cache, said, said.Keys) && Witnessed(said, past, from)
    requires login in files && past != [] && past[|past| - 1] == files && from < |past|
    ensures var more := said[login := files[login]];
            Witnessed(more, past, from) && Agrees(cache, more, more.Keys)
  {
    hide Settled, TextOf;
    var more := said[login := files[login]];
    forall l | l in more ensures Held(more[l], l, past, from) {
      if l != login {
        assert Held(said[l], l, past, from);
      }
    }
  }

  /** What is remembered of these files under the stamps they were seen with is what they said. */
  ghost predicate Agrees(cache: Cache, entries: Files, logins: set<string>) {
    forall l | l in logins && l in cache && l in entries && cache[l].0 == entries[l].stamp ::
      TextOf(entries[l].content) == cache[l].1
  }

  lemma AgreesOne(cache: Cache, entries: Files, logins: set<string>, login: string)
    requires Agrees(cache, entries, logins) && login in logins
    ensures Agrees(cache, entries, {login})
  {
  }

  lemma AgreesElsewhere(was: Cache, cache: Cache, entries: Files, logins: set<string>, login: string)
    requires Agrees(was, entries, logins)
    requires forall l | l != login && l in cache :: l in was && cache[l] == was[l]
    ensures Agrees(cache, entries, logins - {login})
  {
  }

  /** The answer so far, of the files but those of `rest`. */
  ghost predicate Answers(entries: Files, rest: set<string>, want: Buf, found: Option<string>) {
    match found
    case Some(login) => Carries(entries, login, want)
    case None => forall l | l in entries && l !in rest :: !Carries(entries, l, want)
  }

  lemma AnswersNone(entries: Files, want: Buf)
    ensures Answers(entries, entries.Keys, want, None)
  {
  }

  lemma AnswersNext(entries: Files, rest: set<string>, want: Buf, found: Option<string>, login: string,
                                       answer: bool)
    ensures Answers(entries, rest, want, found) && (answer <==> Carries(entries, login, want)) ==>
              Answers(entries, rest - {login}, want, if found.None? && answer then Some(login) else found)
  {
    hide Carries;
  }

  lemma AnswersAll(entries: Files, want: Buf, found: Option<string>)
    ensures Answers(entries, {}, want, found) ==>
              match found
              case Some(login) => Carries(entries, login, want)
              case None => forall login :: !Carries(entries, login, want)
  {
  }

  lemma GrownAgain(a: seq<Files>, b: seq<Files>, c: seq<Files>)
    requires Grown(a, b) && Grown(b, c)
    ensures Grown(a, c) && (c == a ==> b == a)
  {
    assert c[..|a|] == c[..|b|][..|a|];
  }

  lemma CarriedFrom(past: seq<Files>, from: nat, earlier: nat, login: string, want: Buf)
    requires Carried(past, from, login, want) && earlier <= from
    ensures Carried(past, earlier, login, want)
  {
  }
}
