/** The Protocol Buffers wire encoding as the tile decoder reads it: varints of at most 64 bits, field
    keys, and messages as lists of records. */
module TileWire {
  import opened Wrappers

  type byte = x: int | 0 <= x < 256

  const U64 := 0x1_0000_0000_0000_0000
  const MAX_FIELD := 0x1fff_ffff

  // ---- varints ----

  function Pow128(n: nat): (r: nat)
    ensures r >= 1
  {
    if n == 0 then 1 else 128 * Pow128(n - 1)
  }

  /** The value a run of seven-bit groups spells, least significant first. */
  function GroupsValue(s: seq<byte>): nat {
    if s == [] then 0 else s[0] % 128 + 128 * GroupsValue(s[1..])
  }

  /** One varint: every byte but the last says that another follows. */
  predicate IsVarint(s: seq<byte>) {
    && s != []
    && (forall i | 0 <= i < |s| - 1 :: s[i] >= 128)
    && s[|s| - 1] < 128
  }

  /** What the byte of place `index` adds: `(byte & 0x7f) << (index * 7)`. */
  function Shifted(b: byte, index: nat): nat {
    (b % 128) * Pow128(index)
  }

  /** The value of the varint at the head of `s` after `index` bytes spelled `value`, and its bytes. */
  function VarintFrom(s: seq<byte>, index: nat, value: nat): (r: Result<(nat, nat)>)
    requires index <= 10
    ensures r.Ok? ==> 1 <= r.value.1 <= |s|
    decreases s
  {
    if index == 10 || s == [] || (index == 9 && s[0] > 1) then
      Err
    else
      var v := value + Shifted(s[0], index);
      if s[0] < 128 then
        Ok((v, 1))
      else
        var (u, n) :- VarintFrom(s[1..], index + 1, v);
        Ok((u, n + 1))
  }

  function VarintAt(s: seq<byte>): (r: Result<(nat, nat)>)
    ensures r.Ok? ==> 1 <= r.value.1 <= |s|
  {
    VarintFrom(s, 0, 0)
  }

  function Varint(v: nat): seq<byte> {
    if v < 128 then [v] else [v % 128 + 128] + Varint(v / 128)
  }

  lemma {:induction false} VarintSpells(v: nat)
    ensures IsVarint(Varint(v)) && GroupsValue(Varint(v)) == v
  {
    if v >= 128 {
      VarintSpells(v / 128);
      var rest := Varint(v / 128);
      assert Varint(v)[1..] == rest;
    } else {
      assert GroupsValue([v][1..]) == 0;
    }
  }

  lemma {:induction false} VarintShort(v: nat, n: nat)
    requires v < Pow128(n) && n >= 1
    ensures |Varint(v)| <= n
  {
    if v >= 128 {
      assert Pow128(1) == 128 * Pow128(0);
      VarintShort(v / 128, n - 1);
    }
  }

  lemma {:induction false} Powers()
    ensures Pow128(9) == 0x8000_0000_0000_0000 && Pow128(10) >= U64
  {
    assert Pow128(1) == 128 && Pow128(2) == 0x4000 && Pow128(3) == 0x20_0000;
    assert Pow128(4) == 0x1000_0000 && Pow128(5) == 0x8_0000_0000 && Pow128(6) == 0x400_0000_0000;
    assert Pow128(7) == 0x2_0000_0000_0000 && Pow128(8) == 0x100_0000_0000_0000;
    assert Pow128(9) == 128 * Pow128(8) && Pow128(10) == 128 * Pow128(9);
  }

  lemma {:induction false} TopArithmetic(low: nat, v: nat, p: nat, top: nat)
    requires low < 128 && p * top <= v < p * (top + 1)
    ensures (128 * p) * top <= low + 128 * v < (128 * p) * (top + 1)
  {
    assert (128 * p) * top == 128 * (p * top) && (128 * p) * (top + 1) == 128 * (p * (top + 1));
  }

  lemma {:induction false} GroupsValueTop(s: seq<byte>)
    requires s != []
    ensures Pow128(|s| - 1) * (s[|s| - 1] % 128) <= GroupsValue(s) < Pow128(|s| - 1) * (s[|s| - 1] % 128 + 1)
  {
    if |s| > 1 {
      var t := s[1..];
      GroupsValueTop(t);
      TopArithmetic(s[0] % 128, GroupsValue(t), Pow128(|t| - 1), s[|s| - 1] % 128);
    } else {
      assert GroupsValue(s[1..]) == 0;
    }
  }

  lemma {:induction false} BelowNextPower(p: nat, top: nat)
    requires top < 128
    ensures p * (top + 1) <= 128 * p
  {
    assert p * (top + 1) + p * (127 - top) == 128 * p;
  }

  /** A ten-byte varint keeps within 64 bits exactly when its last byte is 0 or 1. */
  lemma {:induction false} TenthByte(s: seq<byte>)
    requires IsVarint(s) && |s| <= 10
    ensures GroupsValue(s) < U64 <==> (|s| == 10 ==> s[9] <= 1)
  {
    Powers();
    GroupsValueTop(s);
    if |s| < 10 {
      PowersGrow(|s|, 9);
      BelowNextPower(Pow128(|s| - 1), s[|s| - 1] % 128);
    }
  }

  lemma {:induction false} PowersGrow(m: nat, n: nat)
    requires m <= n
    ensures Pow128(m) <= Pow128(n)
    decreases n
  {
    if m < n {
      PowersGrow(m, n - 1);
    }
  }

  lemma {:induction false} ShiftedGroups(index: nat, low: nat, rest: nat)
    ensures low * Pow128(index) + Pow128(index + 1) * rest == Pow128(index) * (low + 128 * rest)
  {
    var p := Pow128(index);
    assert p * (low + 128 * rest) == p * low + 128 * p * rest;
  }

  lemma {:induction false} VarintFromReads(s: seq<byte>, k: nat, index: nat, value: nat)
    requires k <= |s| && IsVarint(s[..k]) && index + k <= 10
    requires index + k == 10 ==> s[k - 1] <= 1
    ensures VarintFrom(s, index, value) == Ok((value + Pow128(index) * GroupsValue(s[..k]), k))
    decreases k
  {
    var low, v := s[0] % 128, value + Shifted(s[0], index);
    TailOfHead(s, k);
    ShiftedGroups(index, low, GroupsValue(s[1..][..k - 1]));
    if k > 1 {
      assert s[..k][0] >= 128;
      VarintFromReads(s[1..], k - 1, index + 1, v);
    } else {
      assert GroupsValue([]) == 0;
    }
  }

  lemma {:induction false} TailOfHead(s: seq<byte>, k: nat)
    requires 1 <= k <= |s|
    ensures s[..k][1..] == s[1..][..k - 1] && (k == 1 ==> s[..k][1..] == [])
  {
  }

  lemma {:induction false} VarintFromFinds(s: seq<byte>, index: nat, value: nat)
    requires index <= 10 && VarintFrom(s, index, value).Ok?
    ensures var n := VarintFrom(s, index, value).value.1;
            IsVarint(s[..n]) && index + n <= 10 && (index + n == 10 ==> s[n - 1] <= 1)
    decreases 10 - index
  {
    if s[0] >= 128 {
      var v := value + Shifted(s[0], index);
      VarintFromFinds(s[1..], index + 1, v);
      var n := VarintFrom(s[1..], index + 1, v).value.1;
      assert s[..n + 1] == [s[0]] + s[1..][..n];
    }
  }

  /** `read_varint` accepts exactly the varints of at most ten bytes whose value fits 64 bits, and reads
      that value and those bytes. */
  lemma {:induction false} VarintAtExactly(s: seq<byte>, v: nat, n: nat)
    ensures VarintAt(s) == Ok((v, n)) <==>
            n <= |s| && n <= 10 && IsVarint(s[..n]) && v == GroupsValue(s[..n]) < U64
  {
    if VarintAt(s).Ok? {
      VarintFromFinds(s, 0, 0);
      var k := VarintAt(s).value.1;
      VarintFromReads(s, k, 0, 0);
      TenthByte(s[..k]);
    }
    if n <= |s| && n <= 10 && IsVarint(s[..n]) && v == GroupsValue(s[..n]) < U64 {
      TenthByte(s[..n]);
      VarintFromReads(s, n, 0, 0);
    }
  }

  lemma {:induction false} VarintRoundTrip(v: nat, rest: seq<byte>)
    requires v < U64
    ensures VarintAt(Varint(v) + rest) == Ok((v, |Varint(v)|))
  {
    VarintSpells(v);
    Powers();
    VarintShort(v, 10);
    var s := Varint(v) + rest;
    assert s[..|Varint(v)|] == Varint(v);
    VarintAtExactly(s, v, |Varint(v)|);
  }

  method EncodeVarint(v: nat) returns (encoded: seq<byte>)
    ensures encoded == Varint(v)
  {
    var value := v;
    encoded := [];
    while value >= 128
      invariant Varint(v) == encoded + Varint(value)
    {
      encoded := encoded + [value % 128 + 128];
      value := value / 128;
    }
    encoded := encoded + [value];
  }

  // ---- records ----

  datatype Record =
    | VarintField(field: nat, number: nat)
    | Fixed64(field: nat, raw: seq<byte>)
    | Bytes(field: nat, payload: seq<byte>)
    | Fixed32(field: nat, raw: seq<byte>)

  /** A record the encoding can carry. */
  predicate Encodable(r: Record) {
    && 1 <= r.field <= MAX_FIELD
    && (r.VarintField? ==> r.number < U64)
    && (r.Fixed64? ==> |r.raw| == 8)
    && (r.Fixed32? ==> |r.raw| == 4)
    && (r.Bytes? ==> |r.payload| < U64)
  }

  predicate AllEncodable(rs: seq<Record>) {
    forall r | r in rs :: Encodable(r)
  }

  function WireType(r: Record): nat {
    match r
    case VarintField(_, _) => 0
    case Fixed64(_, _) => 1
    case Bytes(_, _) => 2
    case Fixed32(_, _) => 5
  }

  function EncodePayload(r: Record): seq<byte> {
    match r
    case VarintField(_, v) => Varint(v)
    case Fixed64(_, raw) => raw
    case Bytes(_, payload) => Varint(|payload|) + payload
    case Fixed32(_, raw) => raw
  }

  function Key(field: nat, wire: nat): seq<byte> {
    Varint(field * 8 + wire)
  }

  function EncodeRecord(r: Record): seq<byte> {
    Key(r.field, WireType(r)) + EncodePayload(r)
  }

  function EncodeRecords(rs: seq<Record>): seq<byte> {
    if rs == [] then [] else EncodeRecord(rs[0]) + EncodeRecords(rs[1..])
  }

  function KeyAt(s: seq<byte>): (r: Result<(nat, nat, nat)>)
    ensures r.Ok? ==> 1 <= r.value.2 <= |s| && r.value.1 < 8
  {
    var (key, n) :- VarintAt(s);
    if key / 8 == 0 || key / 8 > MAX_FIELD then Err else Ok((key / 8, key % 8, n))
  }

  function BytesAt(s: seq<byte>): (r: Result<(seq<byte>, nat)>)
    ensures r.Ok? ==> 1 <= r.value.1 <= |s|
  {
    var (length, n) :- VarintAt(s);
    if length > |s| - n then Err else Ok((s[n..n + length], n + length))
  }

  function ExactAt(s: seq<byte>, length: nat): (r: Result<(seq<byte>, nat)>)
    ensures r.Ok? ==> r.value.1 == length <= |s|
  {
    if length > |s| then Err else Ok((s[..length], length))
  }

  /** The payload of a field by its wire type; groups (3, 4) and unknown types are refused. */
  function PayloadAt(field: nat, wire: nat, s: seq<byte>): (r: Result<(Record, nat)>)
    ensures r.Ok? ==> r.value.1 <= |s|
  {
    match wire
    case 0 => var (v, n) :- VarintAt(s); Ok((VarintField(field, v), n))
    case 1 => var (raw, n) :- ExactAt(s, 8); Ok((Fixed64(field, raw), n))
    case 2 => var (payload, n) :- BytesAt(s); Ok((Bytes(field, payload), n))
    case 5 => var (raw, n) :- ExactAt(s, 4); Ok((Fixed32(field, raw), n))
    case _ => Err
  }

  function RecordAt(s: seq<byte>): (r: Result<(Record, nat)>)
    ensures r.Ok? ==> 1 <= r.value.1 <= |s|
  {
    var (field, wire, n) :- KeyAt(s);
    var (record, m) :- PayloadAt(field, wire, s[n..]);
    Ok((record, n + m))
  }

  /** A whole message, record by record. */
  function Records(s: seq<byte>): Result<seq<Record>>
    decreases |s|
  {
    if s == [] then
      Ok([])
    else
      var (record, n) :- RecordAt(s);
      var rest :- Records(s[n..]);
      Ok([record] + rest)
  }

  lemma {:induction false} PayloadRoundTrip(r: Record, rest: seq<byte>)
    requires Encodable(r)
    ensures PayloadAt(r.field, WireType(r), EncodePayload(r) + rest) == Ok((r, |EncodePayload(r)|))
  {
    var t := EncodePayload(r) + rest;
    match r {
      case VarintField(_, v) => VarintRoundTrip(v, rest);
      case Fixed64(_, raw) => assert t[..8] == raw;
      case Fixed32(_, raw) => assert t[..4] == raw;
      case Bytes(_, payload) =>
        assert t == Varint(|payload|) + (payload + rest);
        VarintRoundTrip(|payload|, payload + rest);
        var n := |Varint(|payload|)|;
        assert t[n..n + |payload|] == payload;
    }
  }

  lemma {:induction false} KeyRoundTrip(field: nat, wire: nat, tail: seq<byte>)
    requires 1 <= field <= MAX_FIELD && wire < 8
    ensures KeyAt(Key(field, wire) + tail) == Ok((field, wire, |Key(field, wire)|))
  {
    VarintRoundTrip(field * 8 + wire, tail);
  }

  lemma {:induction false} RecordFromParts(s: seq<byte>, key: seq<byte>, tail: seq<byte>, wire: nat, r: Record, m: nat)
    requires s == key + tail
    requires KeyAt(s) == Ok((r.field, wire, |key|)) && PayloadAt(r.field, wire, tail) == Ok((r, m))
    ensures RecordAt(s) == Ok((r, |key| + m))
  {
    assert s[|key|..] == tail;
  }

  lemma {:induction false} RecordRoundTrip(r: Record, rest: seq<byte>)
    requires Encodable(r)
    ensures RecordAt(EncodeRecord(r) + rest) == Ok((r, |EncodeRecord(r)|))
    ensures |EncodeRecord(r)| >= 1
  {
    var key := Key(r.field, WireType(r));
    var tail := EncodePayload(r) + rest;
    assert EncodeRecord(r) + rest == key + tail;
    KeyRoundTrip(r.field, WireType(r), tail);
    PayloadRoundTrip(r, rest);
    RecordFromParts(EncodeRecord(r) + rest, key, tail, WireType(r), r, |EncodePayload(r)|);
  }

  /** Decoding the encoding of any list of records gives back the list. */
  lemma {:induction false} RecordsRoundTrip(rs: seq<Record>)
    requires AllEncodable(rs)
    ensures Records(EncodeRecords(rs)) == Ok(rs)
  {
    if rs != [] {
      var tail := EncodeRecords(rs[1..]);
      RecordRoundTrip(rs[0], tail);
      assert EncodeRecords(rs)[|EncodeRecord(rs[0])|..] == tail;
      RecordsRoundTrip(rs[1..]);
      assert rs == [rs[0]] + rs[1..];
    }
  }

  /** Records read so far before records still to read. */
  function Join(done: seq<Record>, rest: Result<seq<Record>>): Result<seq<Record>> {
    var rs :- rest;
    Ok(done + rs)
  }

  lemma {:induction false} JoinStart(s: seq<byte>)
    ensures Join([], Records(s)) == Records(s)
  {
    assert Records(s).Ok? ==> [] + Records(s).value == Records(s).value;
  }

  lemma {:induction false} RecordRead(done: seq<Record>, s: seq<byte>, field: nat, wire: nat, n: nat, r: Record, m: nat)
    requires s != [] && KeyAt(s) == Ok((field, wire, n)) && PayloadAt(field, wire, s[n..]) == Ok((r, m))
    ensures n + m <= |s| && Join(done, Records(s)) == Join(done + [r], Records(s[n + m..]))
  {
    assert RecordAt(s) == Ok((r, n + m));
    if Records(s[n + m..]).Ok? {
      var rest := Records(s[n + m..]).value;
      assert done + ([r] + rest) == done + [r] + rest;
    }
  }

  lemma {:induction false} RecordRefused(done: seq<Record>, s: seq<byte>)
    requires s != []
    requires KeyAt(s).Ok? ==> PayloadAt(KeyAt(s).value.0, KeyAt(s).value.1, s[KeyAt(s).value.2..]).Err?
    ensures Join(done, Records(s)).Err?
  {
  }

  /** These records were read from the message's bytes up to `position`, and the rest holds the others. */
  ghost predicate ReadUpTo(done: seq<Record>, bytes: seq<byte>, position: nat) {
    position <= |bytes| && Join(done, Records(bytes[position..])) == Records(bytes)
  }

  /** The key at `start` takes `n` bytes. */
  ghost predicate KeyRead(bytes: seq<byte>, start: nat, field: nat, wire: nat, n: nat) {
    start < |bytes| && start + n <= |bytes| && KeyAt(bytes[start..]) == Ok((field, wire, n))
  }

  /** What reading the payload at `start` came to: a record that ends at `end`, or a refusal. */
  ghost predicate PayloadRead(bytes: seq<byte>, start: nat, field: nat, wire: nat, r: Result<Record>, end: nat) {
    start <= |bytes| &&
    match PayloadAt(field, wire, bytes[start..])
    case Err => r.Err?
    case Ok(read) => r == Ok(read.0) && end == start + read.1
  }

  lemma {:induction false} KeyReadAt(bytes: seq<byte>, start: nat, field: nat, wire: nat, n: nat)
    requires start < |bytes| && KeyAt(bytes[start..]) == Ok((field, wire, n))
    ensures n > 0 && KeyRead(bytes, start, field, wire, n)
  {
  }

  /** A key and a payload read in place are the next record. */
  lemma {:induction false} RecordReadAt(done: seq<Record>, bytes: seq<byte>, start: nat, field: nat, wire: nat, n: nat,
                                        r: Record, end: nat)
    requires ReadUpTo(done, bytes, start) && KeyRead(bytes, start, field, wire, n)
    requires PayloadRead(bytes, start + n, field, wire, Ok(r), end)
    ensures end >= start + n && ReadUpTo(done + [r], bytes, end)
  {
    var s, m := bytes[start..], end - start - n;
    assert s[n..] == bytes[start + n..];
    RecordRead(done, s, field, wire, n, r, m);
    assert s[n + m..] == bytes[end..];
  }

  lemma {:induction false} KeyRefusedAt(done: seq<Record>, bytes: seq<byte>, start: nat)
    requires ReadUpTo(done, bytes, start) && start < |bytes| && KeyAt(bytes[start..]).Err?
    ensures Records(bytes).Err?
  {
    RecordRefused(done, bytes[start..]);
  }

  lemma {:induction false} RecordRefusedAt(done: seq<Record>, bytes: seq<byte>, start: nat, field: nat, wire: nat,
                                           n: nat)
    requires ReadUpTo(done, bytes, start) && KeyRead(bytes, start, field, wire, n)
    requires PayloadRead(bytes, start + n, field, wire, Err, start + n)
    ensures Records(bytes).Err?
  {
    assert bytes[start..][n..] == bytes[start + n..];
    RecordRefused(done, bytes[start..]);
  }

  /** A key and what came of its payload: the message so far, or its refusal. */
  lemma {:induction false} KeyedRead(done: seq<Record>, bytes: seq<byte>, start: nat, field: nat, wire: nat, n: nat,
                                     r: Result<Record>, end: nat)
    requires ReadUpTo(done, bytes, start) && KeyRead(bytes, start, field, wire, n)
    requires PayloadRead(bytes, start + n, field, wire, r, end)
    ensures r.Err? ==> Records(bytes).Err?
    ensures r.Ok? ==> end >= start + n && ReadUpTo(done + [r.value], bytes, end)
  {
    match r {
      case Err => RecordRefusedAt(done, bytes, start, field, wire, n);
      case Ok(record) => RecordReadAt(done, bytes, start, field, wire, n, record, end);
    }
  }

  // ---- the cursor ----

  class Cursor {
    const bytes: seq<byte>
    var position: nat
    /** The records read so far, when the cursor reads a message. */
    ghost var done: seq<Record>

    ghost predicate Valid()
      reads this
    {
      position <= |bytes|
    }

    /** The records read and those the rest holds are the message's. */
    ghost predicate Reading()
      reads this
    {
      ReadUpTo(done, bytes, position)
    }

    function Rest(): seq<byte>
      reads this
      requires Valid()
    {
      bytes[position..]
    }

    constructor (bytes: seq<byte>)
      ensures Reading() && this.bytes == bytes && Rest() == bytes && done == []
    {
      this.bytes := bytes;
      position := 0;
      done := [];
      JoinStart(bytes);
      assert bytes[0..] == bytes;
    }

    method IsEmpty() returns (r: bool)
      requires Valid()
      ensures r <==> Rest() == []
    {
      r := position == |bytes|;
    }

    /** A read begun at `start` did as `spec` says: on success the cursor stands behind what it read. */
    predicate Did<T(==)>(r: Result<T>, spec: Result<(T, nat)>, start: nat)
      reads this
    {
      match spec
      case Err => r.Err?
      case Ok(read) => r == Ok(read.0) && position == start + read.1
    }

    method ReadVarint() returns (r: Result<nat>)
      requires Valid()
      modifies this`position
      ensures Valid() && Did(r, VarintAt(old(Rest())), old(position))
    {
      var value: nat := 0;
      var index := 0;
      ghost var spec := VarintAt(Rest());
      while index < 10
        invariant Valid() && index <= 10 && position == old(position) + index
        invariant match VarintFrom(Rest(), index, value)
                  case Err => spec.Err?
                  case Ok(v) => spec == Ok((v.0, v.1 + index))
      {
        if position == |bytes| {
          return Err;
        }
        var head := bytes[position];
        assert Rest()[0] == head;
        ghost var rest := Rest();
        position := position + 1;
        assert rest[1..] == Rest();
        if index == 9 && head > 1 {
          return Err;
        }
        value := value + Shifted(head, index);
        if head < 128 {
          return Ok(value);
        }
        index := index + 1;
      }
      return Err;
    }

    method ReadKey() returns (r: Result<(nat, nat)>)
      requires Valid()
      modifies this`position
      ensures Valid()
      ensures match KeyAt(old(Rest()))
              case Err => r.Err?
              case Ok(k) => r == Ok((k.0, k.1)) && position == old(position) + k.2
    {
      var key :- ReadVarint();
      var field := key / 8;
      if field == 0 || field > MAX_FIELD {
        return Err;
      }
      r := Ok((field, key % 8));
    }

    method ReadBytes() returns (r: Result<seq<byte>>)
      requires Valid()
      modifies this`position
      ensures Valid() && Did(r, BytesAt(old(Rest())), old(position))
    {
      var length :- ReadVarint();
      if length > |bytes| - position {
        return Err;
      }
      var start := position;
      ghost var n := start - old(position);
      assert old(Rest())[n..n + length] == bytes[start..start + length];
      position := position + length;
      r := Ok(bytes[start..start + length]);
    }

    method SkipExact(length: nat) returns (r: Result<seq<byte>>)
      requires Valid()
      modifies this`position
      ensures Valid() && Did(r, ExactAt(old(Rest()), length), old(position))
    {
      if length > |bytes| - position {
        return Err;
      }
      assert Rest()[..length] == bytes[position..position + length];
      r := Ok(bytes[position..position + length]);
      position := position + length;
    }

    /** The payload of a field; a caller that does not know the field drops it. */
    method ReadPayload(field: nat, wire: nat) returns (r: Result<Record>)
      requires Valid()
      modifies this`position
      ensures Valid() && PayloadRead(bytes, old(position), field, wire, r, position)
    {
      match wire {
        case 0 =>
          var number :- ReadVarint();
          r := Ok(VarintField(field, number));
        case 1 =>
          var raw :- SkipExact(8);
          r := Ok(Fixed64(field, raw));
        case 2 =>
          var payload :- ReadBytes();
          r := Ok(Bytes(field, payload));
        case 5 =>
          var raw :- SkipExact(4);
          r := Ok(Fixed32(field, raw));
        case _ => r := Err;
      }
    }

    method ReadRecord() returns (r: Result<Record>)
      requires Reading() && Rest() != []
      modifies this
      ensures r.Err? ==> Records(bytes).Err?
      ensures r.Ok? ==> Reading() && done == old(done) + [r.value] && position > old(position)
    {
      ghost var start := position;
      var key := ReadKey();
      if key.Err? {
        KeyRefusedAt(done, bytes, start);
        return Err;
      }
      KeyReadAt(bytes, start, key.value.0, key.value.1, position - start);
      r := ReadKeyed(key.value.0, key.value.1, start);
    }

    /** The rest of a field whose key was read from `start` on. */
    method ReadKeyed(field: nat, wire: nat, ghost start: nat) returns (r: Result<Record>)
      requires start < position <= |bytes| && ReadUpTo(done, bytes, start)
      requires KeyRead(bytes, start, field, wire, position - start)
      modifies this
      ensures r.Err? ==> Records(bytes).Err?
      ensures r.Ok? ==> Reading() && done == old(done) + [r.value] && position > start
    {
      ghost var n := position - start;
      r := ReadPayload(field, wire);
      KeyedRead(done, bytes, start, field, wire, n, r, position);
      if r.Ok? {
        done := done + [r.value];
      }
    }
  }
}
