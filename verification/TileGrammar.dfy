/** The bytes of a message, said without a reader: numbers, fields and messages as the wire encoding spells them. */
module TileGrammar {
  import opened Sequences
  import opened Wrappers
  import opened TileWire

  // ---- numbers and fields ----

  /** At most ten bytes, all but the last above 127, whose low seven bits spell the number, smallest first. */
  ghost predicate NumberSpelt(s: seq<byte>, v: nat) {
    && 1 <= |s| <= 10 && (forall i :: 0 <= i < |s| - 1 ==> s[i] >= 128) && s[|s| - 1] < 128
    && v == GroupsValue(s) && v < 0x1_0000_0000_0000_0000
  }

  /** The number at the head of `s` takes `n` bytes. */
  ghost predicate NumberAt(s: seq<byte>, v: nat, n: nat) {
    n <= |s| && NumberSpelt(s[..n], v)
  }

  ghost predicate PayloadSpelt(s: seq<byte>, r: Record) {
    match r
    case VarintField(_, v) => NumberSpelt(s, v)
    case Fixed64(_, raw) => s == raw && |raw| == 8
    case Fixed32(_, raw) => s == raw && |raw| == 4
    case Bytes(_, payload) => exists k: nat :: NumberAt(s, |payload|, k) && s[k..] == payload
  }

  ghost function WireOf(r: Record): nat {
    match r
    case VarintField(_, _) => 0
    case Fixed64(_, _) => 1
    case Bytes(_, _) => 2
    case Fixed32(_, _) => 5
  }

  /** The field number and the kind, in one number, and the payload behind it. */
  ghost predicate RecordSpelt(s: seq<byte>, r: Record) {
    1 <= r.field <= 0x1fff_ffff && exists k: nat :: NumberAt(s, r.field * 8 + WireOf(r), k) && PayloadSpelt(s[k..], r)
  }

  /** The first `n` bytes are the first record, the others the other records. */
  ghost predicate MessageSpelt(s: seq<byte>, rs: seq<Record>)
    decreases |rs|
  {
    if rs == [] then s == []
    else exists n: nat :: n <= |s| && RecordSpelt(s[..n], rs[0]) && MessageSpelt(s[n..], rs[1..])
  }

  /** Numbers one after another, each below 2^32. */
  ghost predicate NumbersPacked(s: seq<byte>, numbers: seq<nat>)
    decreases |numbers|
  {
    if numbers == [] then s == []
    else
      numbers[0] < 0x1_0000_0000
      && exists k: nat :: NumberAt(s, numbers[0], k) && NumbersPacked(s[k..], numbers[1..])
  }

  // ---- the reader reads what is spelt ----

  lemma {:induction false} NumberExactly(s: seq<byte>, v: nat, n: nat)
    ensures VarintAt(s) == Ok((v, n)) <==> NumberAt(s, v, n)
  {
    VarintAtExactly(s, v, n);
  }

  lemma {:induction false} PrefixOf(s: seq<byte>, m: nat, k: nat)
    requires k <= m <= |s|
    ensures s[..m][..k] == s[..k] && s[..m][k..] == s[k..][..m - k]
  {
  }

  lemma {:induction false} NumberWithin(s: seq<byte>, v: nat, k: nat, m: nat)
    requires k <= m <= |s|
    ensures NumberAt(s[..m], v, k) <==> NumberAt(s, v, k)
  {
    PrefixOf(s, m, k);
  }

  /** A payload read is spelt by the bytes it takes. */
  lemma {:induction false} PayloadFound(field: nat, wire: nat, s: seq<byte>, r: Record, m: nat)
    requires PayloadAt(field, wire, s) == Ok((r, m))
    ensures m <= |s| && r.field == field && WireOf(r) == wire && PayloadSpelt(s[..m], r)
  {
    match wire {
      case 0 =>
        NumberExactly(s, r.number, m);
      case 1 =>
      case 2 =>
        var k := VarintAt(s).value.1;
        NumberExactly(s, |r.payload|, k);
        NumberWithin(s, |r.payload|, k, m);
        PrefixOf(s, m, k);
        Middle(s, k, |r.payload|);
      case 5 =>
      case _ =>
    }
  }

  lemma {:induction false} Middle(s: seq<byte>, k: nat, length: nat)
    requires k + length <= |s|
    ensures s[k..][..length] == s[k..k + length]
  {
  }

  /** Bytes that spell a payload are read as it. */
  lemma {:induction false} PayloadReads(s: seq<byte>, r: Record, m: nat)
    requires m <= |s| && PayloadSpelt(s[..m], r)
    ensures PayloadAt(r.field, WireOf(r), s) == Ok((r, m))
  {
    match r {
      case VarintField(_, v) =>
        NumberExactly(s, v, m);
      case Fixed64(_, raw) =>
      case Fixed32(_, raw) =>
      case Bytes(_, payload) =>
        var k: nat :| NumberAt(s[..m], |payload|, k) && s[..m][k..] == payload;
        NumberWithin(s, |payload|, k, m);
        NumberExactly(s, |payload|, k);
        PrefixOf(s, m, k);
        Middle(s, k, |payload|);
    }
  }

  lemma {:induction false} KeyFound(s: seq<byte>, field: nat, wire: nat, n: nat)
    ensures KeyAt(s) == Ok((field, wire, n)) <==>
            1 <= field <= 0x1fff_ffff && wire < 8 && NumberAt(s, field * 8 + wire, n)
  {
    if KeyAt(s).Ok? {
      NumberExactly(s, VarintAt(s).value.0, VarintAt(s).value.1);
    }
    NumberExactly(s, field * 8 + wire, n);
  }

  lemma {:induction false} RecordFound(s: seq<byte>, r: Record, n: nat)
    requires RecordAt(s) == Ok((r, n))
    ensures n <= |s| && RecordSpelt(s[..n], r)
  {
    var (field, wire, k) := KeyAt(s).value;
    KeyFound(s, field, wire, k);
    PayloadFound(field, wire, s[k..], r, n - k);
    NumberWithin(s, field * 8 + wire, k, n);
    PrefixOf(s, n, k);
  }

  lemma {:induction false} RecordReads(s: seq<byte>, r: Record, n: nat)
    requires n <= |s| && RecordSpelt(s[..n], r)
    ensures RecordAt(s) == Ok((r, n))
  {
    var k := KeyLength(s[..n], r);
    NumberWithin(s, r.field * 8 + WireOf(r), k, n);
    PrefixOf(s, n, k);
    RecordBehindKey(s, r, k, n);
  }

  lemma {:induction false} KeyLength(s: seq<byte>, r: Record) returns (k: nat)
    requires RecordSpelt(s, r)
    ensures 1 <= r.field <= 0x1fff_ffff && NumberAt(s, r.field * 8 + WireOf(r), k) && PayloadSpelt(s[k..], r)
  {
    k :| NumberAt(s, r.field * 8 + WireOf(r), k) && PayloadSpelt(s[k..], r);
  }

  lemma {:induction false} RecordBehindKey(s: seq<byte>, r: Record, k: nat, n: nat)
    requires 1 <= r.field <= 0x1fff_ffff && NumberAt(s, r.field * 8 + WireOf(r), k)
    requires k <= n <= |s| && PayloadSpelt(s[k..][..n - k], r)
    ensures RecordAt(s) == Ok((r, n))
  {
    KeyFound(s, r.field, WireOf(r), k);
    PayloadReads(s[k..], r, n - k);
  }

  lemma {:induction false} MessageFound(s: seq<byte>)
    requires Records(s).Ok?
    ensures MessageSpelt(s, Records(s).value)
    decreases |s|
  {
    if s != [] {
      var (r, n) := RecordAt(s).value;
      RecordFound(s, r, n);
      MessageFound(s[n..]);
      HeadApart(r, Records(s[n..]).value);
    }
  }

  lemma {:induction false} MessageReads(s: seq<byte>, rs: seq<Record>)
    requires MessageSpelt(s, rs)
    ensures Records(s) == Ok(rs)
    decreases |rs|
  {
    if rs != [] {
      var n: nat :| n <= |s| && RecordSpelt(s[..n], rs[0]) && MessageSpelt(s[n..], rs[1..]);
      RecordReads(s, rs[0], n);
      MessageReads(s[n..], rs[1..]);
      HeadJoined(rs);
    }
  }

  lemma {:induction false} EncodingSpelt(rs: seq<Record>)
    requires AllEncodable(rs)
    ensures MessageSpelt(EncodeRecords(rs), rs)
  {
    RecordsRoundTrip(rs);
    MessageFound(EncodeRecords(rs));
  }

  /** A message is read as records exactly when its bytes spell them: truncated, oversized and unknown forms are
      refused, and nothing else is. */
  lemma {:induction false} MessageExactly(s: seq<byte>, rs: seq<Record>)
    ensures Records(s) == Ok(rs) <==> MessageSpelt(s, rs)
  {
    if Records(s) == Ok(rs) {
      MessageFound(s);
    }
    if MessageSpelt(s, rs) {
      MessageReads(s, rs);
    }
  }
}
