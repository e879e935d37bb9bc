/**
 Batch: a growing buffer of records behind a 12-byte header, with the count of
 those that reach the memtable.
 */
module Batch {
  import opened Basics
  import opened BatchFormat
  import Varint

  const HEADER_LEN: nat := 12
  const INITIAL_SIZE: nat := 1024
  const MAX_VARINT_LEN_32: nat := 5
  const MAX_VARINT_LEN_64: nat := 10

  /** maxBatchSize, 4 GiB */
  const MAX_BATCH_SIZE: nat := 0x1_0000_0000

  // ------------------------------------------------------------------ writing into the buffer

  method PutByte(a: array<Byte>, pos: nat, x: Byte)
    requires pos < a.Length
    modifies a
    ensures a[..pos + 1] == old(a[..pos]) + [x]
  {
    a[pos] := x;
  }

  /** The manually inlined PutUvarint. */
  method PutVarint(a: array<Byte>, start: nat, number: nat) returns (pos: nat)
    requires start + |Varint.Encode(number)| <= a.Length
    modifies a
    ensures pos == start + |Varint.Encode(number)|
    ensures a[..pos] == old(a[..start]) + Varint.Encode(number)
  {
    var x := number;
    pos := start;
    ghost var was := a[..start];
    while x >= 0x80
      invariant start <= pos && pos + |Varint.Encode(x)| == start + |Varint.Encode(number)|
      invariant a[..pos] + Varint.Encode(x) == was + Varint.Encode(number)
      decreases x
    {
      ghost var done, code := a[..pos], Varint.Encode(x / 0x80);
      var group: Byte := x % 0x80 + 0x80;
      assert Varint.Encode(x) == [group] + code;
      PutByte(a, pos, group);
      assert done + ([group] + code) == (done + [group]) + code;
      x := x / 0x80;
      pos := pos + 1;
    }
    PutByte(a, pos, x);
    pos := pos + 1;
  }

  /** copy(a[pos:], s) */
  method CopyIn(a: array<Byte>, pos: nat, s: Bytes)
    requires pos + |s| <= a.Length
    modifies a
    ensures a[..pos + |s|] == old(a[..pos]) + s
  {
    for i := 0 to |s|
      invariant a[..pos + i] == old(a[..pos]) + s[..i]
    {
      a[pos + i] := s[i];
      assert a[..pos + i + 1] == a[..pos + i] + [s[i]] && s[..i + 1] == s[..i] + [s[i]];
    }
    assert s[..|s|] == s;
  }

  method DoubleUntil(start: nat, size: nat) returns (n: nat)
    requires start > 0
    ensures n >= start && n >= size
  {
    n := start;
    while n < size
      invariant n >= start
    {
      n := n * 2;
    }
  }

  lemma ShortVarint(x: nat)
    requires x <= MAX_UINT32
    ensures |Varint.Encode(x)| <= MAX_VARINT_LEN_32
  {
    assert Varint.Power128(5) > MAX_UINT32;
    Varint.EncodeLength(x, 5);
  }

  /** The counter agrees with the records as far as 32 bits go. */
  ghost predicate CountOk(records: seq<Record>, count: nat) {
    Agrees(count, CountOf(records))
  }

  lemma CountsOne(records: seq<Record>, count: nat, r: Record)
    requires CountOk(records, count)
    ensures CountOk(records + [r], if r.kind == LOG_DATA then count else count + 1)
  {
    assert (records + [r])[..|records|] == records;
  }

  lemma CountsNone(count: nat)
    requires CountOk([], count)
    ensures count == 0
  {
  }

  class Batch {
    var data: array<Byte>                        // its Length is the capacity
    var len: nat
    var count: nat                               // a 64-bit counter
    var committing: bool
    ghost var records: seq<Record>

    /** The bytes after the header. */
    ghost function Payload(): Bytes
      reads this, data
    {
      if HEADER_LEN <= len <= data.Length then data[HEADER_LEN..len] else []
    }

    /** The payload is the encoding of the records added. */
    ghost predicate Framed()
      reads this, data
    {
      && len <= data.Length && (len == 0 || len >= HEADER_LEN)
      && (len == 0 ==> records == []) && Payload() == EncodedAll(records) && AllOk(records)
    }

    ghost predicate Valid()
      reads this, data
    {
      Framed() && CountOk(records, count)
    }

    constructor ()
      ensures Valid() && records == [] && len == 0 && count == 0 && !committing && fresh(data)
    {
      data := new Byte[0];
      len, count, committing, records := 0, 0, false, [];
    }

    /** len(b.data), or what it becomes when the header is written. */
    ghost function Size(): nat
      reads this
    {
      if len == 0 then HEADER_LEN else len
    }

    /** init: a buffer of at least size bytes, doubling from the initial size. */
    method Init(size: nat)
      requires len == 0
      modifies this, data
      ensures len == HEADER_LEN && HEADER_LEN <= data.Length && size <= data.Length
              && (data == old(data) || fresh(data))
      ensures count == 0 && records == old(records) && committing == old(committing) && Payload() == []
      ensures forall i :: 0 <= i < 8 ==> data[i] == 0
    {
      var n := DoubleUntil(INITIAL_SIZE, size);
      if data.Length < n {
        data := new Byte[n](_ => 0);
      }
      count := 0;
      var zeros := seq(8, _ => 0);
      CopyIn(data, 0, zeros);                    // setSeqNum(0)
      assert forall i :: 0 <= i < 8 ==> data[..8][i] == zeros[i];
      len := HEADER_LEN;
    }

    /** grow by n bytes; false is the ErrBatchTooLarge panic. */
    method Grow(n: nat) returns (ok: bool)
      requires HEADER_LEN <= len <= data.Length
      modifies `data, `len
      ensures ok <==> old(len) + n < MAX_BATCH_SIZE
      ensures !ok ==> data == old(data) && len == old(len)
      ensures ok ==> len == old(len) + n <= data.Length && (data == old(data) || fresh(data))
      ensures data[..old(len)] == old(data[..len])
    {
      var newSize := len + n;
      if newSize >= MAX_BATCH_SIZE {
        return false;
      }
      if newSize > data.Length {
        var newCap := DoubleUntil(2 * data.Length, newSize);
        var bigger := new Byte[newCap](_ => 0);
        CopyIn(bigger, 0, data[..len]);
        data := bigger;
      }
      len := newSize;
      return true;
    }

    /** prepareDeferredKeyValueRecord, and the copies of key and value into it. */
    method PutKeyValue(kind: Byte, key: Bytes, value: Bytes) returns (ok: bool)
      requires Framed() && kind <= KIND_MAX && HasValue(kind)
      modifies this, data
      ensures committing == old(committing) && (data == old(data) || fresh(data))
      ensures ok <==> !committing && old(Size()) + 1 + 2 * MAX_VARINT_LEN_32 + |key| + |value| < MAX_BATCH_SIZE
      ensures ok ==> Framed() && records == old(records) + [Record(kind, key, value)]
      ensures ok ==> count == 1 + if old(len) == 0 then 0 else old(count)
      ensures !ok ==> Payload() == old(Payload()) && records == old(records)
    {
      hide Encoded, EncodedAll;
      if committing {
        return false;
      }
      if len == 0 {
        Init(|key| + |value| + 2 * MAX_VARINT_LEN_64 + HEADER_LEN);
      }
      count := count + 1;
      var pos := len;
      ok := Grow(1 + 2 * MAX_VARINT_LEN_32 + |key| + |value|);
      if !ok {
        return;
      }
      LayDown(pos, kind, key, value);
    }

    /** Writes the record where room was made for it. */
    method LayDown(start: nat, kind: Byte, key: Bytes, value: Bytes)
      requires kind <= KIND_MAX && HasValue(kind) && |key| <= MAX_UINT32 && |value| <= MAX_UINT32
      requires HEADER_LEN <= start && start + 1 + 2 * MAX_VARINT_LEN_32 + |key| + |value| <= data.Length
      requires data[HEADER_LEN..start] == EncodedAll(records) && AllOk(records)
      modifies data, `len, `records
      ensures Framed() && records == old(records) + [Record(kind, key, value)]
    {
      hide Encoded, EncodedAll;
      ghost var before := data[..start];
      assert before[HEADER_LEN..] == data[HEADER_LEN..start];
      len := WriteKeyValue(data, start, kind, key, value);
      records := records + [Record(kind, key, value)];
      assert records[..|records| - 1] == old(records);
      PayloadGrows(before, data[..len], records, Record(kind, key, value));
      assert data[HEADER_LEN..len] == data[..len][HEADER_LEN..];
    }

    method PutKey(kind: Byte, key: Bytes) returns (ok: bool)
      requires Framed() && kind <= KIND_MAX && !HasValue(kind)
      modifies this, data
      ensures committing == old(committing) && (data == old(data) || fresh(data))
      ensures ok <==> !committing && old(Size()) + 1 + MAX_VARINT_LEN_32 + |key| < MAX_BATCH_SIZE
      ensures ok ==> Framed() && records == old(records) + [Record(kind, key, [])]
      ensures ok ==> count == 1 + if old(len) == 0 then 0 else old(count)
      ensures !ok ==> Payload() == old(Payload()) && records == old(records)
    {
      hide Encoded, EncodedAll;
      if committing {
        return false;
      }
      if len == 0 {
        Init(|key| + MAX_VARINT_LEN_64 + HEADER_LEN);
      }
      count := count + 1;
      var pos := len;
      ok := Grow(1 + MAX_VARINT_LEN_32 + |key|);
      if !ok {
        return;
      }
      ghost var before := data[..pos];
      pos := WriteKey(data, pos, kind, key);
      len := pos;
      records := records + [Record(kind, key, [])];
      PayloadGrows(before, data[..len], records, Record(kind, key, []));
    }

    // ---------------------------------------------------------------- the operations

    /** An untouched batch has counted nothing. */
    lemma StartsAtZero()
      requires Valid()
      ensures len == 0 ==> count == 0
    {
      if len == 0 {
        CountsNone(count);
      }
    }

    /** A record that counts was added, or the call panicked. */
    twostate predicate Added(ok: bool, r: Record)
      reads this, data
    {
      && (ok ==> Valid() && records == old(records) + [r] && (r.kind != LOG_DATA ==> count == old(count) + 1)
                 && (r.kind == LOG_DATA ==> count == old(count)))
      && (!ok ==> Payload() == old(Payload()) && records == old(records))
    }

    method Set(key: Bytes, value: Bytes) returns (ok: bool)
      requires Valid()
      modifies this, data
      ensures Added(ok, Record(SET, key, value)) && (data == old(data) || fresh(data))
      ensures ok <==> !old(committing) && old(Size()) + 11 + |key| + |value| < MAX_BATCH_SIZE
    {
      hide CountOk, EncodedAll;
      StartsAtZero();
      CountsOne(records, count, Record(SET, key, value));
      ok := PutKeyValue(SET, key, value);
    }

    method Merge(key: Bytes, value: Bytes) returns (ok: bool)
      requires Valid()
      modifies this, data
      ensures Added(ok, Record(MERGE, key, value)) && (data == old(data) || fresh(data))
      ensures ok <==> !old(committing) && old(Size()) + 11 + |key| + |value| < MAX_BATCH_SIZE
    {
      hide CountOk, EncodedAll;
      StartsAtZero();
      CountsOne(records, count, Record(MERGE, key, value));
      ok := PutKeyValue(MERGE, key, value);
    }

    method Delete(key: Bytes) returns (ok: bool)
      requires Valid()
      modifies this, data
      ensures Added(ok, Record(DELETE, key, [])) && (data == old(data) || fresh(data))
      ensures ok <==> !old(committing) && old(Size()) + 6 + |key| < MAX_BATCH_SIZE
    {
      hide CountOk, EncodedAll;
      StartsAtZero();
      CountsOne(records, count, Record(DELETE, key, []));
      ok := PutKey(DELETE, key);
    }

    method SingleDelete(key: Bytes) returns (ok: bool)
      requires Valid()
      modifies this, data
      ensures Added(ok, Record(SINGLE_DELETE, key, [])) && (data == old(data) || fresh(data))
      ensures ok <==> !old(committing) && old(Size()) + 6 + |key| < MAX_BATCH_SIZE
    {
      hide CountOk, EncodedAll;
      StartsAtZero();
      CountsOne(records, count, Record(SINGLE_DELETE, key, []));
      ok := PutKey(SINGLE_DELETE, key);
    }

    method DeleteRange(start: Bytes, end: Bytes) returns (ok: bool)
      requires Valid()
      modifies this, data
      ensures Added(ok, Record(RANGE_DELETE, start, end)) && (data == old(data) || fresh(data))
      ensures ok <==> !old(committing) && old(Size()) + 11 + |start| + |end| < MAX_BATCH_SIZE
    {
      hide CountOk, EncodedAll;
      StartsAtZero();
      CountsOne(records, count, Record(RANGE_DELETE, start, end));
      ok := PutKeyValue(RANGE_DELETE, start, end);
    }

    /** The value is the varint of the deleted size plus the key's length. */
    method DeleteSized(key: Bytes, deletedValueSize: nat) returns (ok: bool)
      requires Valid() && deletedValueSize <= MAX_UINT32
      modifies this, data
      ensures Added(ok, Record(DELETE_SIZED, key, Varint.Encode(deletedValueSize + |key|)))
              && (data == old(data) || fresh(data))
      ensures ok <==>
              !old(committing) && old(Size()) + 11 + |key| + |Varint.Encode(deletedValueSize + |key|)| < MAX_BATCH_SIZE
    {
      hide CountOk, EncodedAll;
      StartsAtZero();
      CountsOne(records, count, Record(DELETE_SIZED, key, Varint.Encode(deletedValueSize + |key|)));
      var v := deletedValueSize + |key|;
      var buf := new Byte[|Varint.Encode(v)|](_ => 0);
      var n := PutVarint(buf, 0, v);
      assert buf[..n] == Varint.Encode(v);
      ok := PutKeyValue(DELETE_SIZED, key, buf[..n]);
    }

    /** Log data is written but not counted. */
    method LogData(bytes: Bytes) returns (ok: bool)
      requires Valid()
      modifies this, data
      ensures Added(ok, Record(LOG_DATA, bytes, [])) && (data == old(data) || fresh(data))
      ensures ok <==> !old(committing) && old(Size()) + 6 + |bytes| < MAX_BATCH_SIZE
    {
      hide CountOk, EncodedAll;
      StartsAtZero();
      CountsOne(records, count, Record(LOG_DATA, bytes, []));
      var origCount := count;
      ok := PutKey(LOG_DATA, bytes);
      if ok {
        count := origCount;
      }
    }

    /** append(b.data, tail...) */
    method Append(tail: Bytes)
      requires len <= data.Length
      modifies this, data
      ensures len == old(len) + |tail| <= data.Length && data[..len] == old(data[..len]) + tail
      ensures count == old(count) && committing == old(committing) && records == old(records)
              && (data == old(data) || fresh(data))
    {
      if len + |tail| > data.Length {
        var bigger := new Byte[len + |tail|](_ => 0);
        CopyIn(bigger, 0, data[..len]);
        assert bigger[..len] == data[..len];
        data := bigger;
      }
      CopyIn(data, len, tail);
      len := len + |tail|;
    }

    /** Apply: appends the records of another batch, given as its bytes and count.
        The counts are added in 32 bits. */
    method Apply(other: Bytes, otherCount: nat, ghost more: seq<Record>) returns (r: Applied)
      requires Valid() && AllOk(more) && CountOk(more, otherCount)
      requires if |other| < HEADER_LEN then more == [] else other[HEADER_LEN..] == EncodedAll(more)
      modifies this, data
      ensures data == old(data) || fresh(data)
      ensures r.InvalidBatch? <==> 0 < |other| < HEADER_LEN
      ensures r.Panic? <==> |other| >= HEADER_LEN && (old(count) > MAX_UINT32 || otherCount > MAX_UINT32)
      ensures r.Done? ==> Valid() && records == old(records) + more && Payload() == old(Payload()) + EncodedAll(more)
      ensures r.Done? && |other| >= HEADER_LEN ==> count == (old(count) + otherCount) % TWO_32
    {
      hide CountOk, EncodedAll;
      EncodedNone();
      StartsAtZero();
      if |other| == 0 {
        assert records + more == records;
        return Done;
      }
      if |other| < HEADER_LEN {
        return InvalidBatch;
      }
      CountsBoth(records, more, count, otherCount);
      EncodedSplit(records, more);
      AllOkSplit(records, more);
      if len == 0 {
        Init(0);
      }
      Append(other[HEADER_LEN..]);
      records := records + more;
      if count > MAX_UINT32 || otherCount > MAX_UINT32 {
        return Panic;
      }
      count := (count + otherCount) % TWO_32;
      return Done;
    }

    /** Reading a batch back gives the records added to it, in order, if and only
        if they are legible, which up to 4 GiB they are. */
    method ReadBack() returns (out: seq<Record>, ok: bool)
      requires Valid()
      ensures ok <==> Legible(records)
      ensures ok ==> out == records
      ensures len <= MAX_BATCH_SIZE ==> ok
    {
      hide CountOk, EncodedAll, Records, Legible;
      EncodedNone();
      RoundTrip(records);
      var payload := if len == 0 then [] else data[HEADER_LEN..len];
      if len <= MAX_BATCH_SIZE {
        SmallIsLegible(records);
      }
      out, ok := ReadAll(payload);
    }
  }

  /** Applying one batch to another can pass the limit that every other writer
      keeps: the result has all records and cannot be read. */
  method AppliedTooLarge(key: Bytes, value: Bytes) returns (r: Applied, ok: bool)
    requires |key| == 1 && |value| == 0x8000_0000
    ensures r.Done? && !ok
  {
    hide CountOk, EncodedAll, Records, Legible;
    var a := new Batch();
    var b := new Batch();
    var _ := a.Set(key, value);
    var _ := b.Set(key, value);
    var other := b.data[..b.len];
    assert other[HEADER_LEN..] == b.Payload();
    r := a.Apply(other, b.count, b.records);
    ghost var record := Record(SET, key, value);
    assert a.records == [record, record];
    LargeIsIllegible(record, record);
    var _, legible := a.ReadBack();
    ok := legible;
  }

  datatype Applied = Done | InvalidBatch | Panic

  lemma EncodedNone()
    ensures EncodedAll([]) == []
  {
  }

  lemma AllOkSplit(a: seq<Record>, b: seq<Record>)
    requires AllOk(a) && AllOk(b)
    ensures AllOk(a + b)
  {
  }

  lemma CountsBoth(a: seq<Record>, b: seq<Record>, m: nat, n: nat)
    requires CountOk(a, m) && CountOk(b, n)
    ensures CountOk(a + b, (m + n) % TWO_32)
  {
    hide CountOf;
    CountSplit(a, b);
    SumAgrees(m, n, CountOf(a), CountOf(b));
  }

  /** m counts x as far as 32 bits go. */
  ghost predicate Agrees(m: nat, x: nat) {
    m % TWO_32 == x % TWO_32 && (x <= MAX_UINT32 ==> m == x)
  }

  lemma SumAgrees(m: nat, n: nat, x: nat, y: nat)
    requires Agrees(m, x) && Agrees(n, y)
    ensures Agrees((m + n) % TWO_32, x + y)
  {
    var a, b, c, d := m / TWO_32, n / TWO_32, x / TWO_32, y / TWO_32;
    ModShift(m + n, x + y, (a - c) + (b - d));
  }

  lemma ModShift(p: nat, q: nat, k: int)
    requires p == q + TWO_32 * k
    ensures p % TWO_32 == q % TWO_32
  {
  }

  /** A length and the bytes it announces. */
  method WriteStr(a: array<Byte>, start: nat, s: Bytes) returns (pos: nat)
    requires |s| <= MAX_UINT32 && start + MAX_VARINT_LEN_32 + |s| <= a.Length
    modifies a
    ensures start + |s| <= pos <= start + MAX_VARINT_LEN_32 + |s| && a[..pos] == old(a[..start]) + Str(s)
  {
    hide Varint.Encode;
    ShortVarint(|s|);
    ghost var was := a[..start];
    pos := PutVarint(a, start, |s|);
    CopyIn(a, pos, s);
    pos := pos + |s|;
    assert (was + Varint.Encode(|s|)) + s == was + (Varint.Encode(|s|) + s);
  }

  method WriteKeyValue(a: array<Byte>, start: nat, kind: Byte, key: Bytes, value: Bytes) returns (pos: nat)
    requires HasValue(kind) && |key| <= MAX_UINT32 && |value| <= MAX_UINT32
    requires start + 1 + 2 * MAX_VARINT_LEN_32 + |key| + |value| <= a.Length
    modifies a
    ensures start <= pos <= a.Length && a[..pos] == old(a[..start]) + Encoded(Record(kind, key, value))
  {
    hide Str;
    ghost var was := a[..start];
    PutByte(a, start, kind);
    pos := WriteStr(a, start + 1, key);
    pos := WriteStr(a, pos, value);
    assert was + [kind] + Str(key) + Str(value) == was + ([kind] + Str(key) + Str(value));
  }

  method WriteKey(a: array<Byte>, start: nat, kind: Byte, key: Bytes) returns (pos: nat)
    requires !HasValue(kind) && |key| <= MAX_UINT32
    requires start + 1 + MAX_VARINT_LEN_32 + |key| <= a.Length
    modifies a
    ensures start <= pos <= a.Length && a[..pos] == old(a[..start]) + Encoded(Record(kind, key, []))
  {
    hide Str;
    ghost var was := a[..start];
    PutByte(a, start, kind);
    pos := WriteStr(a, start + 1, key);
    assert was + [kind] + Str(key) == was + ([kind] + Str(key) + []);
  }

  lemma PayloadGrows(before: Bytes, after: Bytes, records: seq<Record>, r: Record)
    requires |before| >= HEADER_LEN && after == before + Encoded(r) && records != [] && records[|records| - 1] == r
    requires before[HEADER_LEN..] == EncodedAll(records[..|records| - 1])
    ensures after[HEADER_LEN..] == EncodedAll(records)
  {
    hide Encoded;
    DropPrefix(before, Encoded(r));
  }

  lemma DropPrefix(before: Bytes, more: Bytes)
    requires |before| >= HEADER_LEN
    ensures (before + more)[HEADER_LEN..] == before[HEADER_LEN..] + more
  {
  }
}
