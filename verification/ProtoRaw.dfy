/** Reading a protobuf message without its schema (protoRaw.ts). */
module ProtoRaw {
  import opened Wrappers

  type Byte = b: int | 0 <= b < 256

  // Base 128 varints, section "Base 128 Varints" of the Protocol Buffers encoding guide.

  function EncodeVarint(v: nat): (s: seq<Byte>)
    ensures |s| > 0
  {
    if v < 128 then [v] else [128 + v % 128] + EncodeVarint(v / 128)
  }

  function Power128(k: nat): nat { if k == 0 then 1 else 128 * Power128(k - 1) }

  /** Value and length of the varint a text of bytes begins with; taken is how many bytes of it were read before. */
  function ReadVarint(s: seq<Byte>, taken: nat): (r: Option<(nat, nat)>)
    ensures r.Some? ==> 0 < r.value.1 <= |s| && taken + r.value.1 <= 11
  {
    if s == [] || taken > 10 then None
    else if s[0] < 128 then Some((s[0], 1))
    else
      var rest := ReadVarint(s[1..], taken + 1);
      if rest.Some? then Some((s[0] - 128 + 128 * rest.value.0, 1 + rest.value.1)) else None
  }

  /** Reading undoes encoding, whatever follows, as long as the encoding has at most eleven bytes. */
  lemma {:induction false} VarintRoundTrip(v: nat, rest: seq<Byte>, taken: nat)
    ensures
      ReadVarint(EncodeVarint(v) + rest, taken) ==
      if taken + |EncodeVarint(v)| <= 11 then Some((v, |EncodeVarint(v)|)) else None
  {
    var s := EncodeVarint(v) + rest;
    if v >= 128 && taken <= 10 {
      VarintRoundTrip(v / 128, rest, taken + 1);
      assert s[1..] == EncodeVarint(v / 128) + rest;
    }
  }

  lemma {:induction false} VarintLength(v: nat, k: nat)
    ensures v < Power128(k) && k > 0 ==> |EncodeVarint(v)| <= k
    ensures v >= Power128(k) ==> |EncodeVarint(v)| > k
  {
    if k > 0 && v >= 128 {
      VarintLength(v / 128, k - 1);
      assert Power128(k) == 128 * Power128(k - 1);
    } else if k > 0 {
      PowerGrows(k);
    }
  }

  lemma {:induction false} PowerGrows(k: nat)
    ensures k > 0 ==> Power128(k) >= 128
  {
    if k > 1 {
      PowerGrows(k - 1);
    }
  }

  const BIT_64 := 0x1_0000_0000_0000_0000

  lemma Width()
    ensures Power128(9) < BIT_64 < Power128(10)
  {
  }

  /** Every 64-bit value takes at most ten bytes and is read back. */
  lemma Every64BitValue(v: nat, rest: seq<Byte>)
    requires v < BIT_64
    ensures |EncodeVarint(v)| <= 10 && ReadVarint(EncodeVarint(v) + rest, 0) == Some((v, |EncodeVarint(v)|))
  {
    Width();
    VarintLength(v, 10);
    VarintRoundTrip(v, rest, 0);
  }

  /**
   * The bound on the shift lets an eleventh byte through: a value the encoding guide has no room
   * for is read as well.
   */
  lemma ElevenBytesAreRead()
    ensures exists s: seq<Byte>, v | v >= BIT_64 :: |s| == 11 && ReadVarint(s, 0) == Some((v, 11))
  {
    hide ReadVarint, EncodeVarint, Power128;
    var v := Power128(10);
    Width();
    VarintLength(v, 10);
    PowersRise(10);
    VarintLength(v, 11);
    VarintRoundTrip(v, [], 0);
    assert EncodeVarint(v) + [] == EncodeVarint(v);
  }

  lemma PowersRise(k: nat)
    ensures Power128(k) < Power128(k + 1)
  {
    if k > 0 {
      PowersRise(k - 1);
    }
  }

  // Records, section "Message Structure" of the same guide.

  datatype Wire = Varint(v: nat) | Fixed64(b: seq<Byte>) | Len(b: seq<Byte>) | Fixed32(b: seq<Byte>)
  datatype Record = Record(field: nat, wire: Wire)

  function WireType(w: Wire): nat {
    match w
    case Varint(_) => 0
    case Fixed64(_) => 1
    case Len(_) => 2
    case Fixed32(_) => 5
  }

  function EncodeRecord(r: Record): seq<Byte> {
    EncodeVarint(8 * r.field + WireType(r.wire)) +
    match r.wire
    case Varint(v) => EncodeVarint(v)
    case Fixed64(b) => b
    case Len(b) => EncodeVarint(|b|) + b
    case Fixed32(b) => b
  }

  function EncodeAll(rs: seq<Record>): seq<Byte> {
    if rs == [] then [] else EncodeRecord(rs[0]) + EncodeAll(rs[1..])
  }

  /** What the reader can take: a field from 1 on, the widths of the wire types, and numbers that fit its varints. */
  predicate Encodable(r: Record) {
    && r.field >= 1 && Fits(8 * r.field + WireType(r.wire))
    && match r.wire
       case Varint(v) => Fits(v)
       case Fixed64(b) => |b| == 8
       case Len(b) => Fits(|b|)
       case Fixed32(b) => |b| == 4
  }

  predicate Fits(v: nat) { |EncodeVarint(v)| <= 11 }

  /** The record a text of bytes begins with, and its length. */
  function ReadRecord(s: seq<Byte>): (r: Option<(Record, nat)>)
    ensures r.Some? ==> 0 < r.value.1 <= |s|
    ensures r.Some? && r.value.0.wire.Len? ==> |r.value.0.wire.b| < r.value.1
  {
    var key := ReadVarint(s, 0);
    if key.None? || key.value.0 / 8 == 0 then None
    else
      var field, at := key.value.0 / 8, key.value.1;
      match key.value.0 % 8
      case 0 =>
        var v := ReadVarint(s[at..], 0);
        if v.Some? then Some((Record(field, Varint(v.value.0)), at + v.value.1)) else None
      case 1 => if at + 8 <= |s| then Some((Record(field, Fixed64(s[at..at + 8])), at + 8)) else None
      case 2 =>
        var n := ReadVarint(s[at..], 0);
        if n.Some? && at + n.value.1 + n.value.0 <= |s| then
          var start := at + n.value.1;
          Some((Record(field, Len(s[start..start + n.value.0])), start + n.value.0))
        else None
      case 5 => if at + 4 <= |s| then Some((Record(field, Fixed32(s[at..at + 4])), at + 4)) else None
      case _ => None
  }

  /** All the records of a text of bytes, if it is records to its end. Nested bytes are shorter than the text. */
  function Records(s: seq<Byte>): (r: Option<seq<Record>>)
    ensures r.Some? ==> forall i | 0 <= i < |r.value| && r.value[i].wire.Len? :: |r.value[i].wire.b| < |s|
    ensures r.Some? ==> (r.value == [] <==> s == [])
  {
    if s == [] then Some([])
    else
      var first := ReadRecord(s);
      if first.None? then None
      else
        var rest := Records(s[first.value.1..]);
        if rest.Some? then Some([first.value.0] + rest.value) else None
  }

  lemma RecordRoundTrip(r: Record, rest: seq<Byte>)
    requires Encodable(r)
    ensures ReadRecord(EncodeRecord(r) + rest) == Some((r, |EncodeRecord(r)|))
  {
    hide ReadVarint, EncodeVarint;
    var key := 8 * r.field + WireType(r.wire);
    var s, k := EncodeRecord(r) + rest, EncodeVarint(key);
    VarintRoundTrip(key, s[|k|..], 0);
    assert s == k + s[|k|..];
    assert key / 8 == r.field && key % 8 == WireType(r.wire);
    match r.wire
    case Varint(v) =>
      VarintRoundTrip(v, rest, 0);
      assert s[|k|..] == EncodeVarint(v) + rest;
    case Len(b) =>
      VarintRoundTrip(|b|, b + rest, 0);
      assert s[|k|..] == EncodeVarint(|b|) + (b + rest);
      var at := |k| + |EncodeVarint(|b|)|;
      assert s[at..at + |b|] == b;
    case Fixed64(b) =>
      assert s[|k|..|k| + 8] == b;
    case Fixed32(b) =>
      assert s[|k|..|k| + 4] == b;
  }

  /** A varint cut short is refused; what follows it does not matter. */
  lemma {:induction false} VarintEndsEarly(s: seq<Byte>, taken: nat, m: nat)
    requires m <= |s| && ReadVarint(s, taken).Some?
    ensures ReadVarint(s[..m], taken) == if m < ReadVarint(s, taken).value.1 then None else ReadVarint(s, taken)
  {
    if s[0] >= 128 && m > 0 {
      VarintEndsEarly(s[1..], taken + 1, m - 1);
      assert s[..m][1..] == s[1..][..m - 1];
    }
  }

  /** A record cut short is refused; what follows it does not matter. */
  lemma RecordEndsEarly(s: seq<Byte>, m: nat)
    requires m <= |s| && ReadRecord(s).Some?
    ensures ReadRecord(s[..m]) == if m < ReadRecord(s).value.1 then None else ReadRecord(s)
  {
    hide ReadVarint;
    var (key, at) := ReadVarint(s, 0).value;
    VarintEndsEarly(s, 0, m);
    if at <= m {
      var t := s[..m];
      assert t[at..] == s[at..][..m - at];
      assert at + 8 <= m ==> t[at..at + 8] == s[at..at + 8];
      assert at + 4 <= m ==> t[at..at + 4] == s[at..at + 4];
      if key % 8 == 0 || key % 8 == 2 {
        VarintEndsEarly(s[at..], 0, m - at);
      }
      if key % 8 == 2 {
        var (n, k) := ReadVarint(s[at..], 0).value;
        var start := at + k;
        assert start + n <= m ==> t[start..start + n] == s[start..start + n];
      }
    }
  }

  /** What follows the key of each wire type: a varint, eight bytes, a length and so many bytes, or four bytes. */
  ghost predicate Follows(wire: nat, s: seq<Byte>) {
    var v := ReadVarint(s, 0);
    match wire
    case 0 => v.Some?
    case 1 => |s| >= 8
    case 2 => v.Some? && |s| >= v.value.1 + v.value.0
    case 5 => |s| >= 4
    case _ => false
  }

  /**
   * A record is read exactly where there is a key, of a field from 1 on and one of these types, and
   * what has to follow it.
   */
  lemma RecordIsReadIff(s: seq<Byte>)
    ensures
      var key := ReadVarint(s, 0);
      ReadRecord(s).Some? <==> key.Some? && key.value.0 >= 8 && Follows(key.value.0 % 8, s[key.value.1..])
  {
    hide ReadVarint;
  }

  /** Field 0 and the wire types 3, 4, 6 and 7 are refused, and so are all bytes they stand at the beginning of. */
  lemma BadKeyIsRefused(s: seq<Byte>)
    requires s != [] && ReadVarint(s, 0).Some?
    requires ReadVarint(s, 0).value.0 < 8 || ReadVarint(s, 0).value.0 % 8 in {3, 4, 6, 7}
    ensures ReadRecord(s) == None && Records(s) == None
  {
    hide ReadVarint;
  }

  /** Where the bytes end inside a record, none of them are taken for a message. */
  lemma CutBytesAreRefused(s: seq<Byte>, m: nat)
    requires ReadRecord(s).Some? && 0 < m < ReadRecord(s).value.1
    ensures Records(s[..m]) == None
  {
    hide ReadRecord;
    RecordEndsEarly(s, m);
  }

  /** The reader visits exactly the records of any concatenation of encoded records. */
  lemma {:induction false} RecordsRoundTrip(rs: seq<Record>)
    requires forall i | 0 <= i < |rs| :: Encodable(rs[i])
    ensures Records(EncodeAll(rs)) == Some(rs)
  {
    hide ReadRecord, Records, EncodeRecord, Encodable;
    if rs == [] {
      NoRecords();
    } else {
      RecordsRoundTrip(rs[1..]);
      RecordRoundTrip(rs[0], EncodeAll(rs[1..]));
      FirstRecord(rs[0], EncodeRecord(rs[0]), EncodeAll(rs[1..]));
      assert [rs[0]] + rs[1..] == rs;
    }
  }

  lemma NoRecords()
    ensures Records([]) == Some([])
  {
  }

  lemma FirstRecord(r: Record, a: seq<Byte>, b: seq<Byte>)
    requires ReadRecord(a + b) == Some((r, |a|)) && Records(b).Some?
    ensures Records(a + b) == Some([r] + Records(b).value)
  {
  }

  // What is shown of a record. Whether eight or four bytes are a float or an
  // integer, and whether bytes are a text, is a guess; the guess at a text is
  // a parameter, the guess at a number is left to who displays it.

  datatype Raw =
    | Number(n: nat)
    | Wide(b: seq<Byte>)
    | Narrow(b: seq<Byte>)
    | Text(text: string)
    | Hex(count: nat, shown: seq<Byte>)
    | Message(fields: map<nat, Raw>)
    | List(items: seq<Raw>)

  type Guess = seq<Byte> -> Option<string>

  const MAX_DEPTH := 12

  function Left(depth: nat): nat { if depth < MAX_DEPTH then MAX_DEPTH - depth else 0 }

  function LengthDelimited(b: seq<Byte>, depth: nat, guess: Guess): Raw
    decreases Left(depth), 0
  {
    var text := guess(b);
    if text.Some? && text.value != "" then Text(text.value)
    else
      var nested := if b != [] && depth < MAX_DEPTH then TryParse(b, depth + 1, guess) else None;
      if nested.Some? then Message(nested.value)
      else if b != [] then Hex(|b|, if |b| > 32 then b[..32] else b)
      else Text("")
  }

  function Show(w: Wire, depth: nat, guess: Guess): Raw
    decreases Left(depth), 1
  {
    match w
    case Varint(v) => Number(v)
    case Fixed64(b) => Wide(b)
    case Len(b) => LengthDelimited(b, depth, guess)
    case Fixed32(b) => Narrow(b)
  }

  function ShowAll(rs: seq<Record>, depth: nat, guess: Guess): (vs: seq<(nat, Raw)>)
    ensures |vs| == |rs|
    decreases Left(depth), 2
  {
    seq(|rs|, i requires 0 <= i < |rs| => (rs[i].field, Show(rs[i].wire, depth, guess)))
  }

  /** The message: nothing unless the bytes are records to their end, and at least one. */
  function TryParse(b: seq<Byte>, depth: nat, guess: Guess): Option<map<nat, Raw>>
    decreases Left(depth), 3
  {
    var rs := Records(b);
    if rs.Some? && rs.value != [] then Some(Group(ShowAll(rs.value, depth, guess))) else None
  }

  /** Bytes that are no text and no message are shown as so many bytes, the first of them up to 32. */
  lemma HexIsTheRest(b: seq<Byte>, depth: nat, guess: Guess)
    ensures
      var r, text := LengthDelimited(b, depth, guess), guess(b);
      && (text.Some? && text.value != "" ==> r == Text(text.value))
      && (r.Hex? <==>
            b != [] && !(text.Some? && text.value != "") && (depth >= 12 || Records(b).None?))
      && (r.Hex? ==> r.count == |b| && r.shown <= b && |r.shown| == if |b| > 32 then 32 else |b|)
  {
    hide Records, Group, ShowAll;
  }

  /** One more value of a field: alone, or in a list with those before it. */
  function Add(m: map<nat, Raw>, field: nat, value: Raw): map<nat, Raw> {
    if field !in m then m[field := value]
    else if m[field].List? then m[field := List(m[field].items + [value])]
    else m[field := List([m[field], value])]
  }

  function Group(vs: seq<(nat, Raw)>): map<nat, Raw> {
    if vs == [] then map[] else Add(Group(vs[..|vs| - 1]), vs[|vs| - 1].0, vs[|vs| - 1].1)
  }

  /** The values of one field, in the order they stand in the bytes. */
  function ValuesOf(vs: seq<(nat, Raw)>, field: nat): seq<Raw> {
    if vs == [] then []
    else ValuesOf(vs[..|vs| - 1], field) + if vs[|vs| - 1].0 == field then [vs[|vs| - 1].1] else []
  }

  /** No value is lost, moved or put under another field: a field shows its one value, or the list of all of them. */
  lemma {:induction false} GroupKeepsEveryValue(vs: seq<(nat, Raw)>, field: nat)
    requires forall i | 0 <= i < |vs| :: !vs[i].1.List?
    ensures
      var mine, m := ValuesOf(vs, field), Group(vs);
      && (forall i | 0 <= i < |mine| :: !mine[i].List?)
      && (field in m <==> mine != [])
      && (field in m ==> m[field] == if |mine| == 1 then mine[0] else List(mine))
  {
    if vs != [] {
      GroupKeepsEveryValue(vs[..|vs| - 1], field);
    }
  }

  predicate DepthAtMost(r: Raw, k: nat)
    decreases r
  {
    match r
    case Message(m) => k > 0 && forall f | f in m :: DepthAtMost(m[f], k - 1)
    case List(items) => forall i | 0 <= i < |items| :: DepthAtMost(items[i], k)
    case _ => true
  }

  /** However deep the bytes pretend to nest, the tree is at most twelve messages deep below the outermost one. */
  lemma {:induction false} TreeIsShallow(b: seq<Byte>, depth: nat, guess: Guess)
    ensures var m := TryParse(b, depth, guess);
      m.Some? ==> forall f | f in m.value :: DepthAtMost(m.value[f], Left(depth))
    decreases Left(depth), 1
  {
    hide Records, Group, DepthAtMost, Show;
    var rs := Records(b);
    if rs.Some? && rs.value != [] {
      var vs := ShowAll(rs.value, depth, guess);
      forall i | 0 <= i < |vs| ensures DepthAtMost(vs[i].1, Left(depth)) {
        ValueIsShallow(rs.value[i].wire, depth, guess);
        assert vs[i] == (rs.value[i].field, Show(rs.value[i].wire, depth, guess));
      }
      GroupIsShallow(vs, Left(depth));
    }
  }

  lemma {:induction false} ValueIsShallow(w: Wire, depth: nat, guess: Guess)
    ensures DepthAtMost(Show(w, depth, guess), Left(depth))
    decreases Left(depth), 0
  {
    hide TryParse;
    if w.Len? {
      assert Show(w, depth, guess) == LengthDelimited(w.b, depth, guess);
      if depth < MAX_DEPTH {
        TreeIsShallow(w.b, depth + 1, guess);
        var nested := TryParse(w.b, depth + 1, guess);
        if nested.Some? {
          NestingIsShallow(nested.value, Left(depth));
        }
      }
    }
  }

  lemma NestingIsShallow(m: map<nat, Raw>, k: nat)
    requires k > 0 && forall f | f in m :: DepthAtMost(m[f], k - 1)
    ensures DepthAtMost(Message(m), k)
  {
  }

  lemma {:induction false} GroupIsShallow(vs: seq<(nat, Raw)>, k: nat)
    requires forall i | 0 <= i < |vs| :: DepthAtMost(vs[i].1, k)
    ensures forall f | f in Group(vs) :: DepthAtMost(Group(vs)[f], k)
  {
    if vs != [] {
      var front := vs[..|vs| - 1];
      assert forall i | 0 <= i < |front| :: front[i] == vs[i];
      GroupIsShallow(front, k);
    }
  }

  // Encoding a tree and reading it again.

  datatype Tree =
    | Int(n: nat)
    | Bits64(b: seq<Byte>)
    | Bits32(b: seq<Byte>)
    | Str(b: seq<Byte>)
    | Sub(fields: seq<Field>)
  datatype Field = Field(number: nat, tree: Tree)

  function WireOf(t: Tree): Wire
    decreases t
  {
    match t
    case Int(n) => Varint(n)
    case Bits64(b) => Fixed64(b)
    case Bits32(b) => Fixed32(b)
    case Str(b) => Len(b)
    case Sub(fields) => Len(Encoding(fields))
  }

  function RecordOf(f: Field): Record
    decreases f
  {
    Record(f.number, WireOf(f.tree))
  }

  function RecordsOf(fields: seq<Field>): (rs: seq<Record>)
    ensures |rs| == |fields|
    decreases fields, 0
  {
    seq(|fields|, i requires 0 <= i < |fields| => RecordOf(fields[i]))
  }

  function Encoding(fields: seq<Field>): seq<Byte>
    decreases fields, 1
  {
    EncodeAll(RecordsOf(fields))
  }

  /** The tree as the reader shows it. */
  function View(t: Tree, guess: Guess): Raw
    decreases t
  {
    match t
    case Int(n) => Number(n)
    case Bits64(b) => Wide(b)
    case Bits32(b) => Narrow(b)
    case Str(b) => Text(if guess(b).Some? then guess(b).value else "")
    case Sub(fields) => Message(Group(Views(fields, guess)))
  }

  function ViewOf(f: Field, guess: Guess): (nat, Raw)
    decreases f
  {
    (f.number, View(f.tree, guess))
  }

  function Views(fields: seq<Field>, guess: Guess): (vs: seq<(nat, Raw)>)
    ensures |vs| == |fields|
    decreases fields
  {
    seq(|fields|, i requires 0 <= i < |fields| => ViewOf(fields[i], guess))
  }

  /**
   * What the reader can be expected to find again: numbers that fit, strings
   * guessed as text, nested messages not guessed as text and at most k deep.
   */
  ghost predicate Readable(t: Tree, k: nat, guess: Guess)
    decreases t
  {
    match t
    case Int(n) => Fits(n)
    case Bits64(b) => |b| == 8
    case Bits32(b) => |b| == 4
    case Str(b) => Fits(|b|) && if b == [] then guess(b).None? else guess(b).Some? && guess(b).value != ""
    case Sub(fields) =>
      && k > 0 && fields != []
      && Fits(|Encoding(fields)|) && guess(Encoding(fields)).None?
      && ReadableFields(fields, k - 1, guess)
  }

  ghost predicate ReadableField(f: Field, k: nat, guess: Guess)
    decreases f
  {
    f.number >= 1 && Fits(8 * f.number + WireType(WireOf(f.tree))) && Readable(f.tree, k, guess)
  }

  ghost predicate ReadableFields(fields: seq<Field>, k: nat, guess: Guess)
    decreases fields
  {
    forall i | 0 <= i < |fields| :: ReadableField(fields[i], k, guess)
  }

  /** A whole tree of messages, encoded without a word on its schema, is read back as that tree. */
  lemma {:induction false} TreeRoundTrip(fields: seq<Field>, depth: nat, guess: Guess)
    requires fields != [] && ReadableFields(fields, Left(depth), guess)
    ensures TryParse(Encoding(fields), depth, guess) == Some(Group(Views(fields, guess)))
    decreases fields
  {
    hide Group, Records, EncodeAll, EncodeVarint;
    var rs := RecordsOf(fields);
    forall i | 0 <= i < |fields|
      ensures Encodable(rs[i]) && ShowAll(rs, depth, guess)[i] == Views(fields, guess)[i]
    {
      OneFieldRoundTrip(fields[i], depth, guess);
      assert ShowAll(rs, depth, guess)[i] == (rs[i].field, Show(rs[i].wire, depth, guess));
      assert Views(fields, guess)[i] == ViewOf(fields[i], guess);
    }
    RecordsRoundTrip(rs);
    assert ShowAll(rs, depth, guess) == Views(fields, guess);
  }

  lemma {:induction false} OneFieldRoundTrip(f: Field, depth: nat, guess: Guess)
    requires ReadableField(f, Left(depth), guess)
    ensures Encodable(RecordOf(f))
    ensures Show(WireOf(f.tree), depth, guess) == View(f.tree, guess)
    decreases f
  {
    hide Group, Records, EncodeAll, EncodeVarint;
    if f.tree.Sub? {
      TreeRoundTrip(f.tree.fields, depth + 1, guess);
      RecordsNotEmpty(f.tree.fields);
    }
  }

  lemma RecordsNotEmpty(fields: seq<Field>)
    requires fields != []
    ensures Encoding(fields) != []
  {
  }

  // The reader itself. A thrown error is None.

  class Reader {
    const buf: seq<Byte>
    var pos: nat

    constructor (buf: seq<Byte>)
      ensures this.buf == buf && pos == 0
    {
      this.buf := buf;
      pos := 0;
    }

    ghost predicate Valid() reads this { pos <= |buf| }

    /** What has not been read yet. */
    ghost function Rest(): seq<Byte>
      requires Valid()
      reads this
    {
      buf[pos..]
    }

    method NextVarint() returns (r: Option<nat>)
      requires Valid()
      modifies this`pos
      ensures Valid() && pos >= old(pos)
      ensures
        match ReadVarint(old(Rest()), 0)
        case Some(read) => r == Some(read.0) && pos == old(pos) + read.1
        case None => r == None
    {
      var result: nat, place: nat, shift: nat := 0, 1, 0;
      ghost var taken := 0;
      ghost var all := ReadVarint(Rest(), 0);
      while true
        invariant Valid() && pos == old(pos) + taken && shift == 7 * taken && taken <= 10
        invariant
          var more := ReadVarint(Rest(), taken);
          all == if more.Some? then Some((result + place * more.value.0, taken + more.value.1)) else None
        decreases |buf| - pos
      {
        if pos >= |buf| {
          return None;
        }
        var b := buf[pos];
        ghost var here, more := Rest(), ReadVarint(Rest(), taken);
        pos := pos + 1;
        assert Rest() == here[1..];
        if b < 128 {
          result := result + place * b;
          return Some(result);
        }
        PlaceOfNext(result, place, b, ReadVarint(Rest(), taken + 1));
        result := result + place * (b - 128);
        place := 128 * place;
        shift := shift + 7;
        taken := taken + 1;
        if shift > 70 {
          return None;
        }
      }
    }

    method NextBytes(n: nat) returns (r: Option<seq<Byte>>)
      requires Valid()
      modifies this`pos
      ensures Valid()
      ensures n <= |old(Rest())| ==> r == Some(old(Rest())[..n]) && pos == old(pos) + n
      ensures n > |old(Rest())| ==> r == None && pos == old(pos)
    {
      if pos + n > |buf| {
        return None;
      }
      r := Some(buf[pos..pos + n]);
      assert Rest()[..n] == buf[pos..pos + n];
      pos := pos + n;
    }
  }

  lemma PlaceOfNext(result: nat, place: nat, b: Byte, more: Option<(nat, nat)>)
    requires b >= 128
    ensures
      more.Some? ==>
      result + place * (b - 128 + 128 * more.value.0) == (result + place * (b - 128)) + (128 * place) * more.value.0
  {
  }

  /** What parsing has to do with the records of the bytes. */
  function Parsed(b: seq<Byte>, depth: nat, guess: Guess): Option<map<nat, Raw>> {
    var rs := Records(b);
    if rs.Some? then Some(Group(ShowAll(rs.value, depth, guess))) else None
  }

  /** Record by record to the last byte; anything else there is an error. */
  method Parse(bytes: seq<Byte>, depth: nat, guess: Guess) returns (r: Option<map<nat, Raw>>)
    ensures r == Parsed(bytes, depth, guess)
    decreases Left(depth), 2
  {
    hide ReadRecord, Group, ShowAll, Add, ReadSoFar, LengthDelimited;
    var reader := new Reader(bytes);
    var out: map<nat, Raw> := map[];
    ghost var done: seq<Record> := [];
    NothingRead(bytes, depth, guess);
    while reader.pos < |reader.buf|
      invariant reader.Valid() && reader.buf == bytes
      invariant out == Group(ShowAll(done, depth, guess))
      invariant ReadSoFar(bytes, done, reader.pos)
      decreases |bytes| - reader.pos
    {
      ReadOneMore(bytes, done, reader.pos);
      var record := ParseRecord(reader);
      if record.None? {
        return None;
      }
      var value;
      match record.value.wire {
        case Varint(v) => value := Number(v);
        case Fixed64(b) => value := Wide(b);
        case Len(b) => value := ReadDelimited(b, depth, guess);
        case Fixed32(b) => value := Narrow(b);
      }
      GroupOneMore(done, record.value, depth, guess);
      out := Add(out, record.value.field, value);
      done := done + [record.value];
    }
    AllRead(bytes, done);
    r := Some(out);
  }

  /** The records of the bytes are those already read and those of the rest, if the rest has any. */
  ghost predicate ReadSoFar(bytes: seq<Byte>, done: seq<Record>, pos: nat)
    requires pos <= |bytes|
  {
    var rest := Records(bytes[pos..]);
    Records(bytes) == if rest.Some? then Some(done + rest.value) else None
  }

  lemma NothingRead(bytes: seq<Byte>, depth: nat, guess: Guess)
    ensures Group(ShowAll([], depth, guess)) == map[] && ReadSoFar(bytes, [], 0)
  {
    assert bytes[0..] == bytes && forall rs: seq<Record> :: [] + rs == rs;
  }

  lemma AllRead(bytes: seq<Byte>, done: seq<Record>)
    ensures ReadSoFar(bytes, done, |bytes|) ==> Records(bytes) == Some(done)
  {
    assert bytes[|bytes|..] == [] && done + [] == done;
  }

  lemma ReadOneMore(bytes: seq<Byte>, done: seq<Record>, pos: nat)
    requires pos < |bytes| && ReadSoFar(bytes, done, pos)
    ensures
      match ReadRecord(bytes[pos..])
      case Some(first) => ReadSoFar(bytes, done + [first.0], pos + first.1)
      case None => Records(bytes) == None
  {
    hide ReadRecord;
    var rest := bytes[pos..];
    if ReadRecord(rest).Some? {
      var first := ReadRecord(rest).value;
      assert bytes[pos + first.1..] == rest[first.1..];
      assert forall more: seq<Record> :: done + ([first.0] + more) == done + [first.0] + more;
    }
  }

  lemma GroupOneMore(done: seq<Record>, r: Record, depth: nat, guess: Guess)
    ensures
      Group(ShowAll(done + [r], depth, guess)) ==
      Add(Group(ShowAll(done, depth, guess)), r.field, Show(r.wire, depth, guess))
  {
    var vs := ShowAll(done + [r], depth, guess);
    assert vs[..|done|] == ShowAll(done, depth, guess);
  }

  /** The next record, or an error: field 0, a deprecated wire type, or bytes that end too early. */
  method ParseRecord(reader: Reader) returns (r: Option<Record>)
    requires reader.Valid() && reader.pos < |reader.buf|
    modifies reader`pos
    ensures reader.Valid()
    ensures
      match ReadRecord(old(reader.Rest()))
      case Some(read) => r == Some(read.0) && reader.pos == old(reader.pos) + read.1
      case None => r == None
  {
    hide ReadVarint;
    ghost var s := reader.Rest();
    var key := reader.NextVarint();
    if key.None? || key.value / 8 == 0 {
      return None;
    }
    var field := key.value / 8;
    ghost var at := reader.pos - old(reader.pos);
    assert reader.Rest() == s[at..];
    match key.value % 8
    case 0 =>
      var v := reader.NextVarint();
      return if v.Some? then Some(Record(field, Varint(v.value))) else None;
    case 1 =>
      var b := reader.NextBytes(8);
      assert b.Some? ==> s[at..at + 8] == s[at..][..8];
      return if b.Some? then Some(Record(field, Fixed64(b.value))) else None;
    case 2 =>
      var n := reader.NextVarint();
      if n.None? {
        return None;
      }
      ghost var start := reader.pos - old(reader.pos);
      assert reader.Rest() == s[start..];
      var b := reader.NextBytes(n.value);
      assert b.Some? ==> s[start..start + n.value] == s[start..][..n.value];
      return if b.Some? then Some(Record(field, Len(b.value))) else None;
    case 5 =>
      var b := reader.NextBytes(4);
      assert b.Some? ==> s[at..at + 4] == s[at..][..4];
      return if b.Some? then Some(Record(field, Fixed32(b.value))) else None;
    case _ =>
      return None;
  }

  method ReadDelimited(b: seq<Byte>, depth: nat, guess: Guess) returns (r: Raw)
    ensures r == LengthDelimited(b, depth, guess)
    decreases Left(depth), 0
  {
    var text := guess(b);
    if text.Some? && text.value != "" {
      return Text(text.value);
    }
    if |b| > 0 && depth < MAX_DEPTH {
      var nested := ParseOrNothing(b, depth + 1, guess);
      if nested.Some? {
        return Message(nested.value);
      }
    }
    r := if |b| > 0 then Hex(|b|, if |b| > 32 then b[..32] else b) else Text("");
  }

  /** The message, or nothing when the bytes are none. */
  method ParseOrNothing(b: seq<Byte>, depth: nat, guess: Guess) returns (r: Option<map<nat, Raw>>)
    ensures r == TryParse(b, depth, guess)
    decreases Left(depth), 3
  {
    var m := Parse(b, depth, guess);
    if m.Some? {
      GroupedIsSomething(b, depth, guess);
    }
    r := if m.Some? && |m.value| > 0 then m else None;
  }

  lemma GroupedIsSomething(b: seq<Byte>, depth: nat, guess: Guess)
    requires Records(b).Some?
    ensures |Group(ShowAll(Records(b).value, depth, guess))| > 0 <==> Records(b).value != []
  {
  }
}
