/**
 The record format of a batch: what the writers lay down and what the unrolled
 reader makes of it.
 */
module BatchFormat {
  import opened Basics
  import Varint

  type Bytes = seq<Byte>

  const MAX_UINT32: nat := 0xFFFF_FFFF
  const TWO_32: nat := 0x1_0000_0000

  /** InternalKeyKind values */
  const DELETE: Byte := 0
  const SET: Byte := 1
  const MERGE: Byte := 2
  const LOG_DATA: Byte := 3
  const SINGLE_DELETE: Byte := 7
  const RANGE_DELETE: Byte := 15
  const RANGE_KEY_DELETE: Byte := 19
  const RANGE_KEY_UNSET: Byte := 20
  const RANGE_KEY_SET: Byte := 21
  const DELETE_SIZED: Byte := 23
  const KIND_MAX: Byte := 23

  predicate HasValue(kind: Byte) {
    kind in {SET, MERGE, RANGE_DELETE, RANGE_KEY_SET, RANGE_KEY_UNSET, RANGE_KEY_DELETE, DELETE_SIZED}
  }

  datatype Record = Record(kind: Byte, key: Bytes, value: Bytes)

  ghost predicate RecordOk(r: Record) {
    r.kind <= KIND_MAX && |r.key| <= MAX_UINT32 && |r.value| <= MAX_UINT32 && (!HasValue(r.kind) ==> r.value == [])
  }

  function Str(s: Bytes): Bytes {
    Varint.Encode(|s|) + s
  }

  function Encoded(r: Record): Bytes {
    [r.kind] + Str(r.key) + (if HasValue(r.kind) then Str(r.value) else [])
  }

  function EncodedAll(rs: seq<Record>): Bytes {
    if rs == [] then [] else EncodedAll(rs[..|rs| - 1]) + Encoded(rs[|rs| - 1])
  }

  // ------------------------------------------------------------------ batchDecodeStr

  /** The decoder checks the length it decoded against the low 32 bits of the
      length of the data, and not at all that the varint lies within the data. */
  datatype DecodedStr = Ok(rest: Bytes, s: Bytes) | Bad | OutOfBounds

  function Cut(data: Bytes, n: nat, v: nat): DecodedStr
    requires n <= |data|
  {
    if v > (|data| - n) % TWO_32 then Bad else Ok(data[n + v..], data[n..n + v])
  }

  /** The byte at i as a number, and its low seven bits. */
  function At(data: Bytes, i: nat): int
    requires i < |data|
  {
    data[i]
  }

  function Low(data: Bytes, i: nat): int
    requires i < |data|
  {
    data[i] % 128
  }

  /** The five unrolled cases; the last keeps only the bits that fit in 32. */
  function DecodeStr(data: Bytes): DecodedStr {
    if |data| == 0 then OutOfBounds
    else if data[0] < 128 then Cut(data, 1, data[0])
    else if |data| < 2 then OutOfBounds
    else if data[1] < 128 then Cut(data, 2, At(data, 1) * 0x80 + Low(data, 0))
    else if |data| < 3 then OutOfBounds
    else if data[2] < 128 then Cut(data, 3, At(data, 2) * 0x4000 + Low(data, 1) * 0x80 + Low(data, 0))
    else if |data| < 4 then OutOfBounds
    else if data[3] < 128 then
      Cut(data, 4, At(data, 3) * 0x20_0000 + Low(data, 2) * 0x4000 + Low(data, 1) * 0x80 + Low(data, 0))
    else if |data| < 5 then OutOfBounds
    else
      Cut(data, 5, At(data, 4) * 0x1000_0000 % 0x1_0000_0000 + Low(data, 3) * 0x20_0000 + Low(data, 2) * 0x4000
                   + Low(data, 1) * 0x80 + Low(data, 0))
  }

  /** The number in the k bytes from i on, least significant group first. */
  function Groups(data: Bytes, i: nat, k: nat): int
    requires k > 0 && i + k <= |data|
    decreases k
  {
    if k == 1 then At(data, i) else Low(data, i) + 128 * Groups(data, i + 1, k - 1)
  }

  lemma {:induction false} DecodeGroups(data: Bytes, i: nat, k: nat)
    requires k > 0 && i + k <= |data| && data[i + k - 1] < 128 && forall j :: i <= j < i + k - 1 ==> data[j] >= 128
    ensures Groups(data, i, k) >= 0 && Varint.Decode(data[i..]) == Some(Varint.Decoded(Groups(data, i, k), k))
    decreases k
  {
    if k > 1 {
      DecodeGroups(data, i + 1, k - 1);
      assert data[i..][1..] == data[i + 1..];
    }
  }

  lemma GroupsExpanded(data: Bytes)
    ensures |data| >= 2 ==> Groups(data, 0, 2) == At(data, 1) * 0x80 + Low(data, 0)
    ensures |data| >= 3 ==> Groups(data, 0, 3) == At(data, 2) * 0x4000 + Low(data, 1) * 0x80 + Low(data, 0)
    ensures |data| >= 4 ==>
              Groups(data, 0, 4) == At(data, 3) * 0x20_0000 + Low(data, 2) * 0x4000 + Low(data, 1) * 0x80 + Low(data, 0)
    ensures |data| >= 5 ==>
              Groups(data, 0, 5) == At(data, 4) * 0x1000_0000 + Low(data, 3) * 0x20_0000 + Low(data, 2) * 0x4000
                                    + Low(data, 1) * 0x80 + Low(data, 0)
  {
    if |data| >= 2 { assert Groups(data, 1, 1) == At(data, 1); }
    if |data| >= 3 { assert Groups(data, 1, 2) == Low(data, 1) + 128 * At(data, 2); }
    if |data| >= 4 { assert Groups(data, 2, 2) == Low(data, 2) + 128 * At(data, 3); }
    if |data| >= 5 { assert Groups(data, 3, 2) == Low(data, 3) + 128 * At(data, 4); }
  }

  /** The unrolled decoder agrees with the varint decoder on 32-bit numbers of at
      most five bytes. */
  lemma DecodeStrIsDecode(data: Bytes, k: nat)
    requires 0 < k <= 5 && k <= |data| && data[k - 1] < 128 && forall j :: 0 <= j < k - 1 ==> data[j] >= 128
    requires Groups(data, 0, k) <= MAX_UINT32
    ensures Groups(data, 0, k) >= 0 && DecodeStr(data) == Cut(data, k, Groups(data, 0, k))
  {
    hide Varint.Decode, Groups, Cut;
    GroupsExpanded(data);
    DecodeGroups(data, 0, k);
    GroupsOne(data);
    assert forall j :: 0 <= j < k - 1 ==> data[j] >= 128;
  }

  lemma GroupsOne(data: Bytes)
    ensures |data| >= 1 ==> Groups(data, 0, 1) == At(data, 0)
  {
  }

  /** The bytes of a varint that decodes. */
  lemma {:induction false} DecodeShape(data: Bytes)
    requires Varint.Decode(data).Some?
    ensures var n := Varint.Decode(data).value.n; data[n - 1] < 128 && forall j :: 0 <= j < n - 1 ==> data[j] >= 128
  {
    if data[0] >= 128 {
      DecodeShape(data[1..]);
      var n := Varint.Decode(data).value.n;
      assert forall j :: 1 <= j < n ==> data[j] == data[1..][j - 1];
    }
  }

  /** A string of n bytes, with so many behind it, passes the truncated check. */
  predicate Fits(n: nat, behind: nat) {
    n <= (n + behind) % TWO_32
  }

  /** At every varint length the unrolled decoder reads what the loops write, or
      rejects it, as the string and what follows it fit together. */
  lemma DecodeStrReads(s: Bytes, rest: Bytes)
    requires |s| <= MAX_UINT32
    ensures DecodeStr(Str(s) + rest) == if Fits(|s|, |rest|) then Ok(rest, s) else Bad
  {
    hide Varint.Encode, Varint.Decode, DecodeStr;
    var code := Varint.Encode(|s|);
    var data := Str(s) + rest;
    assert data == code + (s + rest);
    Varint.DecodeEncode(|s|, s + rest);
    assert Varint.Power128(5) > MAX_UINT32;
    Varint.EncodeLength(|s|, 5);
    DecodeShape(data);
    DecodeGroups(data, 0, |code|);
    assert data[0..] == data;
    DecodeStrIsDecode(data, |code|);
    assert data[|code|..|code| + |s|] == s && data[|code| + |s|..] == rest;
  }

  // ------------------------------------------------------------------ BatchReader

  datatype ReadResult = End | Entry(record: Record, rest: Bytes) | Invalid | PastEnd

  /** BatchReader.Next */
  function ReadNext(r: Bytes): ReadResult {
    if r == [] then End
    else if r[0] > KIND_MAX then Invalid
    else
      match DecodeStr(r[1..])
      case OutOfBounds => PastEnd
      case Bad => Invalid
      case Ok(rest, key) =>
        if !HasValue(r[0]) then Entry(Record(r[0], key, []), rest)
        else
          match DecodeStr(rest)
          case OutOfBounds => PastEnd
          case Bad => Invalid
          case Ok(rest', value) => Entry(Record(r[0], key, value), rest')
  }

  lemma DecodeStrShrinks(data: Bytes)
    ensures DecodeStr(data).Ok? ==> |DecodeStr(data).rest| < |data|
  {
    hide Cut;
    forall n: nat, v: nat | 0 < n <= |data| && Cut(data, n, v).Ok? ensures |Cut(data, n, v).rest| < |data| {
      CutShrinks(data, n, v);
    }
  }

  lemma CutShrinks(data: Bytes, n: nat, v: nat)
    requires 0 < n <= |data| && Cut(data, n, v).Ok?
    ensures |Cut(data, n, v).rest| < |data|
  {
  }

  lemma ReadShrinks(r: Bytes)
    ensures ReadNext(r).Entry? ==> |ReadNext(r).rest| < |r|
  {
    hide DecodeStr;
    if r != [] {
      DecodeStrShrinks(r[1..]);
      if DecodeStr(r[1..]).Ok? {
        DecodeStrShrinks(DecodeStr(r[1..]).rest);
      }
    }
  }

  /** All records of a payload, or None if it is not legible to the end. */
  function Records(r: Bytes): Option<seq<Record>>
    decreases |r|
  {
    match ReadNext(r)
    case End => Some([])
    case Invalid => None
    case PastEnd => None
    case Entry(record, rest) =>
      ReadShrinks(r);
      match Records(rest)
      case None => None
      case Some(more) => Some([record] + more)
  }

  /** Both strings of a record pass the check, with so many bytes behind it. */
  predicate RecordFits(r: Record, behind: nat) {
    if HasValue(r.kind) then Fits(|r.key|, |Str(r.value)| + behind) && Fits(|r.value|, behind)
    else Fits(|r.key|, behind)
  }

  /** One record reads back if and only if its strings fit with what follows. */
  lemma ReadNextReads(r: Record, rest: Bytes)
    requires RecordOk(r)
    ensures ReadNext(Encoded(r) + rest) == if RecordFits(r, |rest|) then Entry(r, rest) else Invalid
  {
    hide DecodeStr, Str, Fits;
    var tail := (if HasValue(r.kind) then Str(r.value) else []) + rest;
    var data := Encoded(r) + rest;
    assert data[1..] == Str(r.key) + tail;
    DecodeStrReads(r.key, tail);
    if HasValue(r.kind) {
      DecodeStrReads(r.value, rest);
    } else {
      assert tail == rest;
    }
  }

  lemma {:induction false} EncodedSplit(a: seq<Record>, b: seq<Record>)
    ensures EncodedAll(a + b) == EncodedAll(a) + EncodedAll(b)
  {
    if b == [] {
      assert a + b == a;
    } else {
      var init, last := b[..|b| - 1], b[|b| - 1];
      EncodedSplit(a, init);
      assert (a + b)[..|a + b| - 1] == a + init && (a + b)[|a + b| - 1] == last;
      assert (EncodedAll(a) + EncodedAll(init)) + Encoded(last) == EncodedAll(a) + (EncodedAll(init) + Encoded(last));
    }
  }

  ghost predicate AllOk(rs: seq<Record>) {
    forall i {:trigger rs[i]} :: 0 <= i < |rs| ==> RecordOk(rs[i])
  }

  /** Every string fits with what follows it. */
  predicate Legible(rs: seq<Record>) {
    rs == [] || (RecordFits(rs[0], |EncodedAll(rs[1..])|) && Legible(rs[1..]))
  }

  /** Reading back gives exactly the records in order, or fails, as they are
      legible or not. */
  lemma {:induction false} RoundTrip(rs: seq<Record>)
    requires AllOk(rs)
    ensures Records(EncodedAll(rs)) == if Legible(rs) then Some(rs) else None
    decreases |rs|
  {
    hide Encoded, ReadNext, RecordFits;
    if rs == [] {
      ReadEmpty();
    } else {
      assert rs == [rs[0]] + rs[1..];
      EncodedSplit([rs[0]], rs[1..]);
      EncodedOne(rs[0]);
      ReadNextReads(rs[0], EncodedAll(rs[1..]));
      RoundTrip(rs[1..]);
    }
  }

  /** Whatever has less than 4 GiB is legible. */
  lemma {:induction false} SmallIsLegible(rs: seq<Record>)
    requires |EncodedAll(rs)| < TWO_32
    ensures Legible(rs)
  {
    hide Encoded, RecordFits;
    if rs != [] {
      assert rs == [rs[0]] + rs[1..];
      EncodedSplit([rs[0]], rs[1..]);
      EncodedOne(rs[0]);
      SmallFits(rs[0], |EncodedAll(rs[1..])|);
      SmallIsLegible(rs[1..]);
    }
  }

  lemma SmallFits(r: Record, behind: nat)
    requires |Encoded(r)| + behind < TWO_32
    ensures RecordFits(r, behind)
  {
  }

  /** Two records with values of 2 GiB are not: the first value has more than
      4 GiB behind it, of which the check sees eight bytes. */
  lemma LargeIsIllegible(a: Record, b: Record)
    requires a.kind == SET == b.kind && |a.key| == 1 == |b.key| && |a.value| == 0x8000_0000 == |b.value|
    ensures !Legible([a, b]) && Records(EncodedAll([a, b])).None?
  {
    hide ReadNext, Records, Fits;
    assert Varint.Encode(1) == [1];
    LongVarint();
    assert |Encoded(b)| == 1 + |Str(b.key)| + |Str(b.value)| == 0x8000_0008;
    assert [a, b][1..] == [b];
    EncodedOne(b);
    assert !Fits(0x8000_0000, 0x8000_0008) by {
      FitsOnlyBelow();
    }
    RoundTrip([a, b]);
  }

  lemma FitsOnlyBelow()
    ensures !Fits(0x8000_0000, 0x8000_0008)
  {
  }

  lemma LongVarint()
    ensures |Varint.Encode(0x8000_0000)| == 5
  {
    assert |Varint.Encode(0x8)| == 1;
    assert |Varint.Encode(0x400)| == 2;
    assert |Varint.Encode(0x2_0000)| == 3;
    assert |Varint.Encode(0x100_0000)| == 4;
  }

  lemma ReadEmpty()
    ensures ReadNext([]) == End
  {
  }

  lemma EncodedOne(r: Record)
    ensures EncodedAll([r]) == Encoded(r)
  {
    assert [r][..0] == [] && EncodedAll([]) == [];
  }

  /** The records that count: all but log data. */
  function CountOf(rs: seq<Record>): nat {
    if rs == [] then 0 else CountOf(rs[..|rs| - 1]) + if rs[|rs| - 1].kind == LOG_DATA then 0 else 1
  }

  lemma {:induction false} CountSplit(a: seq<Record>, b: seq<Record>)
    ensures CountOf(a + b) == CountOf(a) + CountOf(b)
  {
    if b == [] {
      assert a + b == a;
    } else {
      CountSplit(a, b[..|b| - 1]);
      assert (a + b)[..|a + b| - 1] == a + b[..|b| - 1];
    }
  }

  class BatchReader {
    var data: Bytes

    constructor (data: Bytes)
      ensures this.data == data
    {
      this.data := data;
    }

    method Next() returns (r: ReadResult)
      modifies this
      ensures r == ReadNext(old(data))
      ensures data == if r.Entry? then r.rest else if r.Invalid? && old(data)[0] <= KIND_MAX then [] else old(data)
    {
      if data == [] {
        return End;
      }
      var kind := data[0];
      if kind > KIND_MAX {
        return Invalid;
      }
      var key := DecodeStr(data[1..]);
      if key.OutOfBounds? {
        return PastEnd;
      }
      if key.Bad? {
        data := [];
        return Invalid;
      }
      if !HasValue(kind) {
        data := key.rest;
        return Entry(Record(kind, key.s, []), data);
      }
      var value := DecodeStr(key.rest);
      if value.OutOfBounds? {
        return PastEnd;
      }
      if value.Bad? {
        data := [];
        return Invalid;
      }
      data := value.rest;
      return Entry(Record(kind, key.s, value.s), data);
    }
  }

  /** Reads a payload to its end; false if it is not legible. */
  method ReadAll(payload: Bytes) returns (out: seq<Record>, ok: bool)
    ensures ok <==> Records(payload).Some?
    ensures ok ==> Some(out) == Records(payload)
  {
    hide ReadNext;
    var reader := new BatchReader(payload);
    out, ok := [], true;
    assert Records(payload).Some? ==> out + Records(payload).value == Records(payload).value;
    while true
      invariant match Records(reader.data)
                case None => Records(payload).None?
                case Some(more) => Records(payload) == Some(out + more)
      decreases |reader.data|
    {
      ReadShrinks(reader.data);
      var r := reader.Next();
      match r {
        case End =>
          assert out + [] == out;
          return;
        case Invalid => return out, false;
        case PastEnd => return out, false;
        case Entry(record, rest) =>
          assert Records(rest).Some? ==>
                   out + ([record] + Records(rest).value) == (out + [record]) + Records(rest).value;
          out := out + [record];
      }
    }
  }
}
