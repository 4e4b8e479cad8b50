/** The CBOR subset of crates/hl-identity/src/cbor.rs: its encoder, its reader
    and its one decoder, with the deterministic encoding of section 4.2.1 of
    RFC 8949. Shifts and masks of a head byte are written as division and
    remainder by 32. */
module Cbor {
  import opened Bytes
  import opened Sorting

  /** A text is its bytes: UTF-8 in every value a program holds. */
  datatype Value =
    | Uint(n: U64)
    | Blob(b: Buf)
    | Text(s: Buf)
    | Array(items: seq<Value>)
    | Map(entries: seq<Entry>)
    | Bool(on: bool)

  datatype Entry = Entry(key: Value, val: Value)

  datatype CborError = Truncated | Trailing | Unsupported(head: Byte) | BadUtf8 | TooDeep | NotCanonical

  datatype Result<+T, +E> = Ok(value: T) | Err(error: E) {
    predicate IsFailure() {
      Err?
    }

    function PropagateFailure<U>(): Result<U, E>
      requires Err?
    {
      Err(error)
    }

    function Extract(): T
      requires Ok?
    {
      value
    }
  }

  datatype Option<+T> = None | Some(value: T)

  /** What a read leaves: the value and the bytes after it. */
  datatype Parse<+T> = Done(value: T, rest: Buf) | Bad(error: CborError)

  const MAX_DEPTH: nat := 8

  // Encoding.

  /** The initial byte and argument. `n as u64` truncates. */
  function Head(major: nat, n: nat): (r: Buf)
    requires major < 8
    ensures 1 <= |r| <= 9
  {
    var n := n % TWO64;
    if n < 24 then [major * 32 + n]
    else if n <= 0xff then [major * 32 + 24] + ToBe(n, 1)
    else if n <= 0xffff then [major * 32 + 25] + ToBe(n, 2)
    else if n <= 0xffff_ffff then [major * 32 + 26] + ToBe(n, 4)
    else [major * 32 + 27] + ToBe(n, 8)
  }

  function Encode(v: Value): (r: Buf)
    ensures |r| >= 1
    decreases v, 0
  {
    match v
    case Uint(n) => Head(0, n)
    case Blob(b) => Head(2, |b|) + b
    case Text(s) => Head(3, |s|) + s
    case Array(items) => Head(4, |items|) + EncodeAll(items)
    case Map(entries) => Head(5, |entries|) + Join(Sort(EncodeEntries(entries)))
    case Bool(on) => [if on then 0xf5 else 0xf4]
  }

  function EncodeAll(items: seq<Value>): (r: Buf)
    ensures |r| >= |items|
    decreases items, 1
  {
    if items == [] then [] else Encode(items[0]) + EncodeAll(items[1..])
  }

  function EncodeEntry(e: Entry): Keyed<Buf>
    decreases e, 1
  {
    Keyed(Encode(e.key), Encode(e.val))
  }

  function EncodeEntries(entries: seq<Entry>): (r: seq<Keyed<Buf>>)
    ensures |r| == |entries|
    ensures forall i :: 0 <= i < |r| ==> r[i] == EncodeEntry(entries[i])
    decreases entries, 2
  {
    if entries == [] then [] else [EncodeEntry(entries[0])] + EncodeEntries(entries[1..])
  }

  function Join(pairs: seq<Keyed<Buf>>): Buf {
    if pairs == [] then [] else pairs[0].key + pairs[0].val + Join(pairs[1..])
  }

  // Reading.

  function ReadNumber(s: Buf, k: nat): (r: Parse<nat>)
  {
    if k > |s| then Bad(Truncated) else Done(FromBe(s[..k]), s[k..])
  }

  /** A head: its major type and its argument. */
  function ReadHead(s: Buf): (r: Parse<(nat, nat)>)
    ensures r.Done? ==> r.value.0 < 8 && r.value.1 < TWO64 && |r.rest| < |s|
  {
    if s == [] then Bad(Truncated) else
      var major, ai := s[0] / 32, s[0] % 32;
      if ai >= 28 then Bad(Unsupported(s[0]))
      else if ai < 24 then Done((major, ai), s[1..])
      else
        Pow256Values();
        var n := ReadNumber(s[1..], if ai == 24 then 1 else if ai == 25 then 2 else if ai == 26 then 4 else 8);
        if n.Bad? then Bad(n.error) else Done((major, n.value), n.rest)
  }

  function ReadItem(s: Buf, depth: int): (r: Parse<Value>)
    decreases MAX_DEPTH + 1 - depth, 1, s
  {
    if depth > MAX_DEPTH then Bad(TooDeep)
    else if s != [] && s[0] == 0xf4 then Done(Bool(false), s[1..])
    else if s != [] && s[0] == 0xf5 then Done(Bool(true), s[1..])
    else
      var h := ReadHead(s);
      if h.Bad? then Bad(h.error) else ReadBody(s[0], h.value.0, h.value.1, h.rest, depth)
  }

  /** What follows a head. A count the rest could not hold is refused before
      anything is read. */
  function ReadBody(head: Byte, major: nat, n: nat, rest: Buf, depth: int): (r: Parse<Value>)
    requires n < TWO64 && depth <= MAX_DEPTH
    decreases MAX_DEPTH + 1 - depth, 0, rest
  {
    match major
    case 0 => Done(Uint(n), rest)
    case 2 => if n > |rest| then Bad(Truncated) else Done(Blob(rest[..n]), rest[n..])
    case 3 =>
      if n > |rest| then Bad(Truncated)
      else if !ValidUtf8(rest[..n]) then Bad(BadUtf8)
      else Done(Text(rest[..n]), rest[n..])
    case 4 =>
      if n > |rest| then Bad(Truncated) else
        var items := ReadItems(rest, depth + 1, n);
        if items.Bad? then Bad(items.error) else Done(Array(items.value), items.rest)
    case 5 =>
      if n > |rest| / 2 then Bad(Truncated) else
        var entries := ReadEntries(rest, depth + 1, n);
        if entries.Bad? then Bad(entries.error) else Done(Map(entries.value), entries.rest)
    case _ => Bad(Unsupported(head))
  }

  function ReadItems(s: Buf, depth: int, count: nat): (r: Parse<seq<Value>>)
    ensures r.Done? ==> |r.value| == count
    decreases MAX_DEPTH + 1 - depth, 2 + count, s
  {
    if count == 0 then Done([], s) else
      var first := ReadItem(s, depth);
      if first.Bad? then Bad(first.error) else
        var more := ReadItems(first.rest, depth, count - 1);
        if more.Bad? then more else Done([first.value] + more.value, more.rest)
  }

  function ReadEntries(s: Buf, depth: int, count: nat): (r: Parse<seq<Entry>>)
    ensures r.Done? ==> |r.value| == count
    decreases MAX_DEPTH + 1 - depth, 2 + count, s
  {
    if count == 0 then Done([], s) else
      var key := ReadItem(s, depth);
      if key.Bad? then Bad(key.error) else
        var val := ReadItem(key.rest, depth);
        if val.Bad? then Bad(val.error) else
          var more := ReadEntries(val.rest, depth, count - 1);
          if more.Bad? then more else Done([Entry(key.value, val.value)] + more.value, more.rest)
  }

  /** Two entries side by side with one key, anywhere. */
  predicate HasDuplicateKeys(v: Value) {
    match v
    case Map(entries) =>
      (exists i :: 0 <= i < |entries| - 1 && entries[i].key == entries[i + 1].key)
      || (exists i :: 0 <= i < |entries| && (HasDuplicateKeys(entries[i].key) || HasDuplicateKeys(entries[i].val)))
    case Array(items) => exists i :: 0 <= i < |items| && HasDuplicateKeys(items[i])
    case _ => false
  }

  function DecodeCanonical(bytes: Buf): (r: Result<Value, CborError>) {
    var p := ReadItem(bytes, 0);
    if p.Bad? then Err(p.error)
    else if p.rest != [] then Err(Trailing)
    else if Encode(p.value) != bytes then Err(NotCanonical)
    else if HasDuplicateKeys(p.value) then Err(NotCanonical)
    else Ok(p.value)
  }

  /** How far one read gets, for stripping what pads a map. */
  function ItemLen(bytes: Buf): (r: Result<nat, CborError>)
    ensures r.Ok? ==> r.value <= |bytes|
  {
    var p := ReadItem(bytes, 0);
    if p.Bad? then Err(p.error) else
      ReadShortens(bytes, 0);
      Ok(|bytes| - |p.rest|)
  }

  lemma {:induction false} ReadShortens(s: Buf, depth: int)
    ensures ReadItem(s, depth).Done? ==> |ReadItem(s, depth).rest| < |s|
    decreases MAX_DEPTH + 1 - depth, 0, s
  {
    if depth <= MAX_DEPTH {
      var h := ReadHead(s);
      if h.Done? {
        ItemsShorten(h.rest, depth + 1, h.value.1);
      }
    }
  }

  lemma {:induction false} ItemsShorten(s: Buf, depth: int, count: nat)
    ensures ReadItems(s, depth, count).Done? ==> |ReadItems(s, depth, count).rest| <= |s|
    ensures ReadEntries(s, depth, count).Done? ==> |ReadEntries(s, depth, count).rest| <= |s|
    decreases MAX_DEPTH + 1 - depth, 2 + count, s
  {
    if count > 0 {
      var first := ReadItem(s, depth);
      ReadShortens(s, depth);
      if first.Done? {
        ItemsShorten(first.rest, depth, count - 1);
        var val := ReadItem(first.rest, depth);
        ReadShortens(first.rest, depth);
        if val.Done? {
          ItemsShorten(val.rest, depth, count - 1);
        }
      }
    }
  }

  // Map access.

  predicate IsKey(k: Value, name: Buf) {
    k.Text? && k.s == name
  }

  function Find(entries: seq<Entry>, name: Buf): Option<Value> {
    if entries == [] then None
    else if IsKey(entries[0].key, name) then Some(entries[0].val)
    else Find(entries[1..], name)
  }

  /** `Value::get`: the first value under a text key, if any. */
  function Get(v: Value, name: Buf): Option<Value> {
    if v.Map? then Find(v.entries, name) else None
  }

  function Drop(entries: seq<Entry>, name: Buf): (r: seq<Entry>)
    ensures |r| <= |entries|
    ensures forall e :: e in r <==> e in entries && !IsKey(e.key, name)
  {
    if entries == [] then []
    else if IsKey(entries[0].key, name) then Drop(entries[1..], name)
    else [entries[0]] + Drop(entries[1..], name)
  }

  /** A map less every entry under a name; anything else as it is. */
  function Without(v: Value, name: Buf): Value {
    if v.Map? then Map(Drop(v.entries, name)) else v
  }
}
