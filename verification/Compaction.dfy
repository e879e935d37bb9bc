/**
 What a compaction emits, stated as a recursion over its input. CompactionIter
 is proved to produce exactly this, and CompactionReads proves what it means.
 */
module Compaction {
  import opened Basics
  import opened Lsm
  import Varint

  /** The inputs of one compaction. `elideRange(k)` is the answer of
      elideRangeTombstone for the fragment holding `k`. */
  datatype Config = Config(
    input: seq<Entry>,
    snapshots: seq<nat>,
    merge: MergeOp,
    elide: Key -> bool,
    elideRange: Key -> bool,
    allowZeroSeqNum: bool,
    formatSetWithDelete: bool,
    keyLen: Key -> nat)

  // -------------------------------------------------------------- legal input

  ghost predicate WellFormed(e: Entry) {
    && e.seqNum < SEQ_MAX
    && (e.RangeDel? ==>
          && e.ukey < e.end
          && |e.seqs| > 0 && e.seqs[0] == e.seqNum
          && forall i :: 0 <= i < |e.seqs| ==> e.seqs[i] <= e.seqNum)
  }

  /** Internal key order: user keys ascend, sequence numbers of one user key
      descend, and a range tombstone precedes points at its own number. */
  ghost predicate Precedes(a: Entry, b: Entry) {
    a.ukey < b.ukey ||
    (a.ukey == b.ukey && if a.Point? then b.seqNum < a.seqNum else b.seqNum <= a.seqNum)
  }

  ghost predicate Sorted(es: seq<Entry>) {
    forall i, j {:trigger Precedes(es[i], es[j])} :: 0 <= i < j < |es| ==> Precedes(es[i], es[j])
  }

  ghost predicate Legal(c: Config) {
    && Ascending(c.snapshots)
    && Sorted(c.input)
    && (forall i {:trigger WellFormed(c.input[i])} :: 0 <= i < |c.input| ==> WellFormed(c.input[i]))
  }

  // ------------------------------------------------------------------ stripes

  function Stripe(c: Config, i: nat): nat
    requires i < |c.input|
  {
    SnapshotIndex(c.input[i].seqNum, c.snapshots)
  }

  /** Entry `i` continues the user key and stripe of the entry before it. */
  predicate Same(c: Config, i: nat) {
    0 < i < |c.input| && c.input[i - 1].ukey == c.input[i].ukey && Stripe(c, i - 1) == Stripe(c, i)
  }

  /** The first position at or after `i` that starts a new stripe. */
  function StripeEnd(c: Config, i: nat): (j: nat)
    requires i <= |c.input|
    ensures i <= j <= |c.input|
    ensures !Same(c, j)
    ensures forall x :: i <= x < j ==> Same(c, x)
    decreases |c.input| - i
  {
    if Same(c, i) then StripeEnd(c, i + 1) else i
  }

  // --------------------------------------------------------------- tombstones

  /** The sequence numbers of all range tombstones over `k`. */
  ghost function Tombs(c: Config, k: Key): set<nat> {
    set i, j | 0 <= i < |c.input| && c.input[i].RangeDel? && c.input[i].ukey <= k < c.input[i].end
               && 0 <= j < |c.input[i].seqs| :: c.input[i].seqs[j]
  }

  /** Fragmenter.Covers reports CoversVisibly for entry `i`. */
  ghost predicate Covered(c: Config, i: nat)
    requires i < |c.input|
  {
    CoveredAt(Tombs(c, c.input[i].ukey), c.input[i].seqNum, StripeBound(Stripe(c, i), c.snapshots))
  }

  // --------------------------------------------------------- collapsed entries

  /** The entries from `j` on, in this stripe, hold a tombstone of some sort. */
  predicate MeetsDelete(c: Config, j: nat)
    decreases |c.input| - j
  {
    Same(c, j) && (c.input[j].RangeDel? || c.input[j].kind.Tombstone() || MeetsDelete(c, j + 1))
  }

  function Zeroed(c: Config, i: nat, e: Entry): Entry
    requires i < |c.input| && e.Point?
  {
    if c.allowZeroSeqNum && Stripe(c, i) == 0 then Point(e.ukey, 0, e.kind, e.value) else e
  }

  /** What setNext emits for the SET or SETWITHDEL at `i`. */
  function SetEntry(c: Config, i: nat): Entry
    requires i < |c.input| && c.input[i].Point?
  {
    var e := c.input[i];
    Zeroed(c, i, if c.formatSetWithDelete && e.kind.Set? && MeetsDelete(c, i + 1) then e.(kind := SetWithDelete) else e)
  }

  datatype MergeScan = MergeScan(value: Value, kind: Kind, next: nat, interrupted: bool)

  /** mergeNext from position `j`, with the operands so far merged into `acc`. */
  ghost function ScanMerge(c: Config, j: nat, acc: Value): (r: MergeScan)
    requires j <= |c.input|
    ensures j <= r.next <= |c.input|
    decreases |c.input| - j
  {
    if !Same(c, j) then MergeScan(acc, Merge, j, false)
    else if c.input[j].RangeDel? then MergeScan(acc, Merge, j, true)
    else if c.input[j].kind.Tombstone() then MergeScan(acc, SetWithDelete, j + 1, false)
    else if Covered(c, j) then MergeScan(acc, Set, j + 1, false)
    else if c.input[j].kind.Merge? then ScanMerge(c, j + 1, c.merge(acc, c.input[j].value))
    else MergeScan(c.merge(acc, c.input[j].value), Set, j + 1, false)
  }

  ghost function MergeEntry(c: Config, i: nat, m: MergeScan): Entry
    requires i < |c.input| && c.input[i].Point?
  {
    var e := c.input[i].(kind := m.kind, value := m.value);
    if m.interrupted then e else Zeroed(c, i, e)
  }

  /** The first position from `j` on that is no SINGLEDEL of this stripe. */
  function SkipSingleDeletes(c: Config, j: nat): (r: nat)
    requires j <= |c.input|
    ensures j <= r <= |c.input|
    decreases |c.input| - j
  {
    if Same(c, j) && c.input[j].Point? && c.input[j].kind.SingleDelete? then SkipSingleDeletes(c, j + 1) else j
  }

  datatype SizedScan = Corrupt | Sized(kind: Kind, value: Value)

  /** The size a DELSIZED value announces: all of it must be one 64-bit varint. */
  function AnnouncedSize(v: Value): Option<nat> {
    match Varint.Decode(v)
    case Some(d) => if d.n == |v| <= 10 && d.x < 0x1_0000_0000_0000_0000 then Some(d.x) else None
    case None => None
  }

  datatype Sizing = Settled(scan: SizedScan) | Carry(value: Value)

  /** A DELSIZED carrying `v` meets the older point entry `e`. */
  function MeetSized(c: Config, e: Entry, v: Value): Sizing
    requires e.Point?
  {
    if e.kind.DeleteSized? then Carry(e.value)
    else if e.kind.Tombstone() then Settled(Sized(Delete, e.value))
    else if v == [] then Settled(Sized(Delete, v))
    else
      match AnnouncedSize(v)
      case None => Settled(Corrupt)
      case Some(size) =>
        if size != c.keyLen(e.ukey) + |e.value| then Settled(Sized(Delete, [])) else Carry([])
  }

  /** deleteSizedNext from position `j`, with `v` the value carried so far. */
  function ScanSized(c: Config, j: nat, v: Value): SizedScan
    requires j <= |c.input|
    decreases |c.input| - j
  {
    if !Same(c, j) || c.input[j].RangeDel? then Sized(DeleteSized, v)
    else
      match MeetSized(c, c.input[j], v)
      case Settled(scan) => scan
      case Carry(v') => ScanSized(c, j + 1, v')
  }

  // -------------------------------------------------------------------- output

  datatype Output = End | Failed | Emit(entry: Entry, rest: Output)

  function Entries(o: Output): seq<Entry> {
    match o
    case End | Failed => []
    case Emit(e, rest) => [e] + Entries(rest)
  }

  predicate Fails(o: Output) {
    match o
    case End => false
    case Failed => true
    case Emit(_, rest) => Fails(rest)
  }

  predicate Elided(c: Config, i: nat)
    requires i < |c.input|
  {
    c.elide(c.input[i].ukey) && Stripe(c, i) == 0
  }

  /** A covered entry, or a tombstone with nothing left to delete, is dropped. */
  ghost predicate Dropped(c: Config, i: nat)
    requires i < |c.input| && c.input[i].Point?
  {
    Covered(c, i) || (c.input[i].kind.Tombstone() && Elided(c, i))
  }

  /** How Next treats a point entry it does not skip: it fails, moves on
      silently, or emits an entry and moves on. */
  datatype Step =
    | Stop
    | Pass(next: nat, skip: bool)
    | Put(entry: Entry, next: nat, skip: bool)

  ghost function StepAt(c: Config, i: nat): (r: Step)
    requires i < |c.input| && c.input[i].Point?
    ensures !r.Stop? ==> i < r.next <= |c.input| && (r.skip ==> Same(c, r.next))
  {
    var e, same := c.input[i], Same(c, i + 1);
    if Dropped(c, i) then Pass(i + 1, same)
    else
      match e.kind
      case Delete => Put(e, i + 1, same)
      case DeleteSized => (
        match ScanSized(c, i + 1, e.value)
        case Corrupt => Stop
        case Sized(kind, v) => Put(e.(kind := kind, value := v), i + 1, same))
      case SingleDelete =>
        var j := SkipSingleDeletes(c, i + 1);
        if !Same(c, j) || c.input[j].RangeDel? then Put(e, j, false)
        else if c.input[j].kind.Set? then Pass(j + 1, false)
        else Put(e.(kind := Delete), j + 1, Same(c, j + 1))
      case Set | SetWithDelete => Put(SetEntry(c, i), i + 1, same)
      case Merge =>
        var m := ScanMerge(c, i + 1, e.value);
        Put(MergeEntry(c, i, m), m.next, !m.kind.Merge? && Same(c, m.next))
  }

  /** All that is emitted from position `i` on. `skip` says that the point
      entries of the stripe continued by `i` are already accounted for. */
  ghost function Out(c: Config, i: nat, skip: bool): Output
    requires i <= |c.input|
    decreases |c.input| - i
  {
    if i == |c.input| then End
    else if c.input[i].RangeDel? then Emit(c.input[i], Out(c, i + 1, skip && Same(c, i + 1)))
    else if skip then Out(c, i + 1, Same(c, i + 1))
    else
      match StepAt(c, i)
      case Stop => Failed
      case Pass(next, skip') => Out(c, next, skip')
      case Put(e, next, skip') => Emit(e, Out(c, next, skip'))
  }

  /** Everything the compaction emits. */
  ghost function Compact(c: Config): Output {
    Out(c, 0, false)
  }

  // ------------------------------------------------------------- shape of steps

  lemma {:induction false} SkipSingleDeletesRun(c: Config, j: nat)
    requires j <= |c.input|
    ensures var r := SkipSingleDeletes(c, j);
            && (forall x :: j <= x < r ==> Same(c, x) && c.input[x].Point? && c.input[x].kind.SingleDelete?)
            && !(Same(c, r) && c.input[r].Point? && c.input[r].kind.SingleDelete?)
    decreases |c.input| - j
  {
    if SkipSingleDeletes(c, j) != j {
      SkipSingleDeletesRun(c, j + 1);
    }
  }

  lemma {:induction false} ScanMergeRun(c: Config, j: nat, acc: Value)
    requires j <= |c.input|
    ensures var m := ScanMerge(c, j, acc);
            && (forall x :: j <= x < m.next ==> Same(c, x))
            && (m.kind.Merge? ==> !Same(c, m.next) || c.input[m.next].RangeDel?)
            && (m.interrupted == (m.kind.Merge? && Same(c, m.next)))
            && m.kind in {Set, SetWithDelete, Merge}
    decreases |c.input| - j
  {
    if Same(c, j) && c.input[j].Point? && c.input[j].kind.Merge? && !Covered(c, j) {
      ScanMergeRun(c, j + 1, c.merge(acc, c.input[j].value));
    }
  }

  /** An emitted entry `e` has the key of entry `i`, and its sequence number
      unless that was zeroed. */
  ghost predicate StandsFor(c: Config, i: nat, e: Entry)
    requires i < |c.input|
  {
    && c.input[i].Point? && e.Point? && e.ukey == c.input[i].ukey
    && (e.seqNum == c.input[i].seqNum || (e.seqNum == 0 && c.allowZeroSeqNum && Stripe(c, i) == 0))
  }

  lemma {:induction false} ScanSizedKind(c: Config, j: nat, v: Value)
    requires j <= |c.input|
    ensures var r := ScanSized(c, j, v); r.Sized? ==> r.kind.Delete? || r.kind.DeleteSized?
    decreases |c.input| - j
  {
    if Same(c, j) && c.input[j].Point? && MeetSized(c, c.input[j], v).Carry? {
      ScanSizedKind(c, j + 1, MeetSized(c, c.input[j], v).value);
    }
  }

  /** A step stays in its stripe, and only an unfinished merge or a SINGLEDEL
      leaves the rest of the stripe unskipped. */
  ghost predicate ShapeOk(c: Config, i: nat, r: Step)
    requires i < |c.input| && (r.Stop? || r.next <= |c.input|)
  {
    !r.Stop? ==>
      && (forall x :: i < x < r.next ==> Same(c, x))
      && (r.Put? ==> StandsFor(c, i, r.entry) && !Covered(c, i))
      && (r.Put? && r.entry.kind.Merge? ==> !r.skip)
      && (r.Put? && !r.skip && Same(c, r.next) ==> c.input[r.next].RangeDel? && r.entry.seqNum == c.input[i].seqNum)
  }

  lemma StepShapeMerge(c: Config, i: nat)
    requires i < |c.input| && c.input[i].Point? && c.input[i].kind.Merge? && !Dropped(c, i)
    ensures ShapeOk(c, i, StepAt(c, i))
  {
    ScanMergeRun(c, i + 1, c.input[i].value);
  }

  lemma StepShapeSingleDelete(c: Config, i: nat)
    requires i < |c.input| && c.input[i].Point? && c.input[i].kind.SingleDelete? && !Dropped(c, i)
    ensures ShapeOk(c, i, StepAt(c, i))
  {
    hide SkipSingleDeletes, Covered, ScanMerge, ScanSized, SnapshotIndex;
    SkipSingleDeletesRun(c, i + 1);
  }

  lemma StepShape(c: Config, i: nat)
    requires i < |c.input| && c.input[i].Point?
    ensures ShapeOk(c, i, StepAt(c, i))
  {
    if !Dropped(c, i) {
      match c.input[i].kind
      case SingleDelete => StepShapeSingleDelete(c, i);
      case Merge => StepShapeMerge(c, i);
      case DeleteSized => ScanSizedKind(c, i + 1, c.input[i].value);
      case _ =>
    }
  }
}
