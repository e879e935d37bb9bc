/**
 compactionIter: the cursor that collapses entries, proved to emit exactly
 Compaction.Out. The panics of the code are assertions here.
 */
module CompactionIter {
  import opened Basics
  import opened Lsm
  import opened Compaction

  datatype IterPos = CurForward | NextPos

  datatype StripeChange = NewStripeNewKey | NewStripeSameKey | SameStripeSkippable | SameStripeNonSkippable

  datatype Cover = NoCover | CoversInvisibly | CoversVisibly

  /** How entry `i` relates to the one before it. */
  function Classify(c: Config, i: nat): (r: StripeChange)
    requires 0 < i <= |c.input|
    ensures r.SameStripeSkippable? <==> Same(c, i) && c.input[i].Point?
    ensures r.SameStripeNonSkippable? <==> Same(c, i) && c.input[i].RangeDel?
  {
    if i == |c.input| || c.input[i].ukey != c.input[i - 1].ukey then NewStripeNewKey
    else if !Same(c, i) then NewStripeSameKey
    else if c.input[i].RangeDel? then SameStripeNonSkippable
    else SameStripeSkippable
  }

  /** The first position from `i` on that skipping does not pass. */
  function SkipStop(c: Config, i: nat): (j: nat)
    requires i <= |c.input|
    ensures i <= j <= |c.input|
    ensures Same(c, j) ==> c.input[j].RangeDel?
    decreases |c.input| - i
  {
    if Same(c, i) && c.input[i].Point? then SkipStop(c, i + 1) else i
  }

  lemma SkipStopNext(c: Config, i: nat)
    requires i <= |c.input|
    ensures Same(c, i) && c.input[i].Point? ==> i < SkipStop(c, i) && SkipStop(c, i + 1) == SkipStop(c, i)
  {
  }

  lemma {:induction false} SkipStopBottom(c: Config, i: nat)
    requires 0 < i <= |c.input| && Stripe(c, i - 1) == 0
    ensures Stripe(c, SkipStop(c, i) - 1) == 0
    decreases |c.input| - i
  {
    if Same(c, i) && c.input[i].Point? {
      SkipStopBottom(c, i + 1);
    }
  }

  /** Skipping in the bottom stripe ends at a new key or at a range tombstone of the
      stripe: nothing lies below it. */
  lemma BottomStops(c: Config, i: nat)
    requires Legal(c) && i < |c.input| && Stripe(c, i) == 0
    ensures !Classify(c, SkipStop(c, i + 1)).NewStripeSameKey?
  {
    var j := SkipStop(c, i + 1);
    SkipStopBottom(c, i + 1);
    if j < |c.input| {
      assert Precedes(c.input[j - 1], c.input[j]);
      if c.input[j].seqNum <= c.input[j - 1].seqNum {
        StripesDescend(c.input[j - 1].seqNum, c.input[j].seqNum, c.snapshots);
      }
    }
  }

  /** One round of mergeNext. */
  lemma ScanMergeAt(c: Config, j: nat, acc: Value)
    requires j <= |c.input|
    ensures ScanMerge(c, j, acc) ==
            if !Same(c, j) then MergeScan(acc, Merge, j, false)
            else if c.input[j].RangeDel? then MergeScan(acc, Merge, j, true)
            else if c.input[j].kind.Tombstone() then MergeScan(acc, SetWithDelete, j + 1, false)
            else if Covered(c, j) then MergeScan(acc, Set, j + 1, false)
            else if c.input[j].kind.Merge? then ScanMerge(c, j + 1, c.merge(acc, c.input[j].value))
            else MergeScan(c.merge(acc, c.input[j].value), Set, j + 1, false)
  {
  }

  /** Skipping point entries of an accounted stripe emits nothing. */
  lemma {:induction false} SkipEmitsNothing(c: Config, i: nat)
    requires i <= |c.input|
    ensures Out(c, i, Same(c, i)) == Out(c, SkipStop(c, i), Same(c, SkipStop(c, i)))
    decreases |c.input| - i
  {
    if SkipStop(c, i) != i {
      SkipEmitsNothing(c, i + 1);
    }
  }

  /** Skipping passes point entries of the stripe only. */
  lemma {:induction false} BeforeSkipStop(c: Config, i: nat, x: nat)
    requires i <= |c.input| && i <= x < SkipStop(c, i)
    ensures Same(c, x) && c.input[x].Point?
    decreases |c.input| - i
  {
    if i < x {
      BeforeSkipStop(c, i + 1, x);
    }
  }

  /** The stop is reached from any skipped position on the way. */
  lemma {:induction false} SkipStopFrom(c: Config, i: nat, j: nat)
    requires i <= |c.input| && i <= j <= SkipStop(c, i)
    ensures SkipStop(c, j) == SkipStop(c, i)
    decreases j - i
  {
    if i < j {
      SkipStopFrom(c, i + 1, j);
    }
  }

  /** A span over the key of `e` with a number between that of `e` and `bound`. */
  ghost predicate Above(span: Entry, e: Entry, bound: nat) {
    span.RangeDel? && e.ukey < span.end && exists j :: 0 <= j < |span.seqs| && e.seqNum < span.seqs[j] < bound
  }

  ghost predicate Newer(span: Entry, e: Entry) {
    span.RangeDel? && e.ukey < span.end && exists j :: 0 <= j < |span.seqs| && e.seqNum < span.seqs[j]
  }

  class CompactionIter {
    const c: Config
    var idx: nat                      // iterKey is input[idx], nil at the end
    var curSnapshotIdx: nat
    var curSnapshotSeqNum: nat
    var iterStripeChange: StripeChange
    var key: Entry                    // key and value
    var keySeqNum: nat                // from keyTrailer
    var valid: bool
    var skip: bool
    var pos: IterPos
    var pending: seq<Entry>           // rangeDelFrag.pending
    var err: bool
    ghost var saved: nat              // the position key was saved at

    // ------------------------------------------------------------- invariants

    ghost predicate AtEntry()
      reads this
    {
      && idx <= |c.input|
      && (idx < |c.input| ==>
            curSnapshotIdx == Stripe(c, idx) && curSnapshotSeqNum == StripeBound(curSnapshotIdx, c.snapshots))
    }

    /** The saved key is the current one or an earlier one of its user key. */
    ghost predicate KeySaved()
      reads this
    {
      && AtEntry() && saved <= idx < |c.input|
      && key.ukey == c.input[saved].ukey == c.input[idx].ukey
      && keySeqNum == c.input[saved].seqNum
      && key.Point? == c.input[saved].Point?
    }

    /** Every range tombstone before `n` has reached the fragmenter. */
    ghost predicate Fragmented(n: nat)
      reads `pending
      requires n <= |c.input|
    {
      && (forall x :: 0 <= x < n && c.input[x].RangeDel? ==> c.input[x] in pending)
      && (forall e :: e in pending ==> e.RangeDel? && exists x :: 0 <= x < n && c.input[x] == e)
    }

    /** Skipping is under way at a range tombstone inside a stripe. */
    ghost predicate SkipOk()
      reads this
    {
      skip ==> Same(c, idx) && c.input[idx].RangeDel? && iterStripeChange.SameStripeNonSkippable?
    }

    /** Between calls. */
    ghost predicate Valid()
      reads this
    {
      && AtEntry() && !err
      && (pos.NextPos? ==> SkipOk())
      && (pos.CurForward? ==> KeySaved())
    }

    ghost function Seen(): nat
      reads this
    {
      if pos.NextPos? then idx else idx + 1
    }

    /** What is still to be emitted. */
    ghost function Remaining(): Output
      reads this
      requires Valid()
    {
      if pos.NextPos? then Out(c, idx, skip) else Out(c, idx + 1, skip && Same(c, idx + 1))
    }

    // ---------------------------------------------------------------- stepping

    constructor (c: Config)
      requires Legal(c)
      ensures this.c == c && idx == 0 && pending == [] && !err && !skip && AtEntry() && pos.NextPos?
      ensures Valid() && FragmentedSeen() && Remaining() == Compact(c)
    {
      this.c := c;
      idx, pending, err, skip, valid, pos := 0, [], false, false, false, NextPos;
      iterStripeChange := NewStripeNewKey;
      key, keySeqNum, saved := Point(0, 0, Delete, []), 0, 0;
      if |c.input| > 0 {
        curSnapshotIdx := SnapshotIndex(c.input[0].seqNum, c.snapshots);
        curSnapshotSeqNum := StripeBound(SnapshotIndex(c.input[0].seqNum, c.snapshots), c.snapshots);
      } else {
        curSnapshotIdx, curSnapshotSeqNum := 0, 0;
      }
    }

    method SaveKey()
      requires AtEntry() && idx < |c.input|
      modifies `key, `keySeqNum, `saved
      ensures KeySaved() && saved == idx && key == c.input[idx]
    {
      key := c.input[idx];
      keySeqNum := c.input[idx].seqNum;
      saved := idx;
    }

    method MaybeZeroSeqnum(snapshotIdx: nat)
      requires key.Point?
      modifies `key
      ensures key == if c.allowZeroSeqNum && snapshotIdx == 0
                     then Point(old(key).ukey, 0, old(key).kind, old(key).value) else old(key)
    {
      if !c.allowZeroSeqNum {
        return;
      }
      if snapshotIdx > 0 {
        return;
      }
      key := Point(key.ukey, 0, key.kind, key.value);
    }

    /** nextInStripe; the order check of the code never fires. */
    method NextInStripe() returns (change: StripeChange)
      requires Legal(c) && KeySaved()
      modifies `idx, `curSnapshotIdx, `curSnapshotSeqNum, `iterStripeChange
      ensures AtEntry() && idx == old(idx) + 1
      ensures change == iterStripeChange == Classify(c, idx)
      ensures !change.NewStripeNewKey? ==> KeySaved()
    {
      idx := idx + 1;
      if idx == |c.input| {
        iterStripeChange := NewStripeNewKey;
        return iterStripeChange;
      }
      var next := c.input[idx];
      var origSnapshotIdx := curSnapshotIdx;
      curSnapshotIdx := SnapshotIndex(next.seqNum, c.snapshots);
      curSnapshotSeqNum := StripeBound(curSnapshotIdx, c.snapshots);
      if key.ukey != next.ukey {
        iterStripeChange := NewStripeNewKey;
        return iterStripeChange;
      }
      assert Precedes(c.input[saved], c.input[idx]);
      assert !((keySeqNum == 0 || keySeqNum <= next.seqNum) && !key.RangeDel? && !next.RangeDel?);
      if next.RangeDel? {
        iterStripeChange := if curSnapshotIdx == origSnapshotIdx then SameStripeNonSkippable else NewStripeSameKey;
      } else {
        iterStripeChange := if curSnapshotIdx == origSnapshotIdx then SameStripeSkippable else NewStripeSameKey;
      }
      return iterStripeChange;
    }

    /** skipInStripe */
    method SkipInStripe()
      requires Legal(c) && KeySaved()
      modifies `idx, `curSnapshotIdx, `curSnapshotSeqNum, `iterStripeChange, `skip
      ensures AtEntry() && idx == SkipStop(c, old(idx) + 1)
      ensures skip == Same(c, idx) && SkipOk()
      ensures iterStripeChange == Classify(c, idx)
    {
      skip := true;
      ghost var start := idx + 1;
      var change := NextInStripe();
      while change == SameStripeSkippable
        invariant AtEntry() && start <= idx
        invariant change == iterStripeChange == Classify(c, idx)
        invariant !change.NewStripeNewKey? ==> KeySaved()
        invariant idx <= SkipStop(c, start)
        decreases |c.input| - idx
        modifies `idx, `curSnapshotIdx, `curSnapshotSeqNum, `iterStripeChange
      {
        change := NextInStripe();
      }
      if idx < SkipStop(c, start) {
        BeforeSkipStop(c, start, idx);
      }
      if iterStripeChange.NewStripeNewKey? || iterStripeChange.NewStripeSameKey? {
        skip := false;
      }
    }

    /** Fragmenter.Covers over the pending spans, all of which start at or before
        the key. */
    method Covers(e: Entry, snapshot: nat) returns (r: Cover)
      requires forall x :: 0 <= x < |pending| ==> pending[x].RangeDel?
      ensures r.CoversVisibly? <==> exists x :: 0 <= x < |pending| && Above(pending[x], e, snapshot)
      ensures r.NoCover? <==> !exists x :: 0 <= x < |pending| && Newer(pending[x], e)
    {
      r := NoCover;
      for x := 0 to |pending|
        invariant !r.CoversVisibly?
        invariant forall y :: 0 <= y < x ==> !Above(pending[y], e, snapshot)
        invariant r.CoversInvisibly? <==> exists y :: 0 <= y < x && Newer(pending[y], e)
      {
        if e.ukey < pending[x].end {
          for i := 0 to |pending[x].seqs|
            invariant !r.CoversVisibly?
            invariant forall j :: 0 <= j < i ==> !(e.seqNum < pending[x].seqs[j] < snapshot)
            invariant r.CoversInvisibly? <==>
                      || (exists y :: 0 <= y < x && Newer(pending[y], e))
                      || exists j :: 0 <= j < i && e.seqNum < pending[x].seqs[j]
          {
            var kseq := pending[x].seqs[i];
            if kseq > e.seqNum {
              if kseq < snapshot {
                r := CoversVisibly;
                assert Above(pending[x], e, snapshot) && Newer(pending[x], e);
                return;
              }
              r := CoversInvisibly;
            }
          }
        }
      }
    }

    /** The pending spans answer for all range tombstones of the input: those not
        yet seen start later or are older. */
    lemma PendingDecides(i: nat)
      requires Legal(c) && i < |c.input| && c.input[i].Point? && Fragmented(i)
      ensures (exists x :: 0 <= x < |pending| && Above(pending[x], c.input[i], StripeBound(Stripe(c, i), c.snapshots)))
              <==> Covered(c, i)
    {
      var e, bound := c.input[i], StripeBound(Stripe(c, i), c.snapshots);
      if x :| 0 <= x < |pending| && Above(pending[x], e, bound) {
        var j :| 0 <= j < |pending[x].seqs| && e.seqNum < pending[x].seqs[j] < bound;
        assert pending[x] in pending;
        var y :| 0 <= y < i && c.input[y] == pending[x];
        assert Precedes(c.input[y], c.input[i]);
        assert c.input[y].seqs[j] in Tombs(c, e.ukey);
      }
      if Covered(c, i) {
        var t :| t in Tombs(c, e.ukey) && e.seqNum < t < bound;
        var y, j :| 0 <= y < |c.input| && c.input[y].RangeDel? && c.input[y].ukey <= e.ukey < c.input[y].end
                    && 0 <= j < |c.input[y].seqs| && c.input[y].seqs[j] == t;
        assert WellFormed(c.input[y]);
        assert i < y ==> Precedes(c.input[i], c.input[y]);
        assert c.input[y] in pending;
        var x :| 0 <= x < |pending| && pending[x] == c.input[y];
        assert Above(pending[x], e, bound);
      }
    }

    /** Over point entries nothing reaches the fragmenter. */
    lemma FragmentedOn(i: nat, j: nat)
      requires i < j <= |c.input| && c.input[i].Point? && Fragmented(i) && j <= SkipStop(c, i + 1)
      ensures Fragmented(j)
    {
      forall x | i < x < j ensures c.input[x].Point? {
        BeforeSkipStop(c, i + 1, x);
      }
    }

    method CoveredNow() returns (covered: bool)
      requires Legal(c) && AtEntry() && idx < |c.input| && c.input[idx].Point? && Fragmented(idx)
      ensures covered == Covered(c, idx)
    {
      var cover := Covers(c.input[idx], curSnapshotSeqNum);
      PendingDecides(idx);
      covered := cover.CoversVisibly?;
    }

    method CoveredFrom(ghost i: nat) returns (covered: bool)
      requires Legal(c) && AtEntry() && i < idx < |c.input| && c.input[idx].Point?
      requires c.input[i].Point? && Fragmented(i) && idx <= SkipStop(c, i + 1)
      ensures covered == Covered(c, idx)
    {
      FragmentedOn(i, idx);
      covered := CoveredNow();
    }

    // ------------------------------------------------------------ per-kind steps

    /** The run of point entries from `i` on has been left by skipping: the cursor
        is somewhere in it, or at the entry that ends it. */
    ghost predicate SkippingFrom(i: nat)
      reads this
    {
      && Valid() && i <= |c.input| && i <= Seen() <= SkipStop(c, i)
      && (if pos.NextPos? then skip == Same(c, idx) else skip)
    }

    lemma SkippingEmits(i: nat)
      requires SkippingFrom(i)
      ensures Remaining() == Out(c, i, Same(c, i))
    {
      SkipEmitsNothing(c, i);
      SkipEmitsNothing(c, Seen());
      SkipStopFrom(c, i, Seen());
    }

    /** A point entry is about to be processed. */
    ghost predicate AtPoint()
      reads this
    {
      AtEntry() && !err && !skip && pos.CurForward? && idx < |c.input| && c.input[idx].Point?
    }

    /** Leave the cursor on the entry that ends the run, for the next call. */
    lemma LandNext(i: nat)
      requires AtEntry() && !err && 0 < i <= idx && pos.NextPos? && iterStripeChange == Classify(c, idx)
      requires idx <= SkipStop(c, i)
      requires !iterStripeChange.SameStripeSkippable?
      requires skip == iterStripeChange.SameStripeNonSkippable?
      ensures SkippingFrom(i)
    {
    }

    /** The loop of setNext: move to the first tombstone or range tombstone of the
        stripe, or out of it. */
    method SeekDelete() returns (change: StripeChange)
      requires Legal(c) && KeySaved()
      modifies `idx, `curSnapshotIdx, `curSnapshotSeqNum, `iterStripeChange
      ensures AtEntry() && old(idx) < idx && change == iterStripeChange == Classify(c, idx)
      ensures !change.NewStripeNewKey? ==> KeySaved()
      ensures idx <= SkipStop(c, old(idx) + 1)
      ensures MeetsDelete(c, old(idx) + 1) == Same(c, idx)
    {
      ghost var i := idx;
      change := NextInStripe();
      while change.SameStripeSkippable? && !c.input[idx].kind.Tombstone()
        invariant AtEntry() && i < idx && change == iterStripeChange == Classify(c, idx)
        invariant !change.NewStripeNewKey? ==> KeySaved()
        invariant idx <= SkipStop(c, i + 1)
        invariant MeetsDelete(c, i + 1) == MeetsDelete(c, idx)
        decreases |c.input| - idx
      {
        change := NextInStripe();
      }
    }

    /** setNext: the emitted key is SetEntry, the rest of the stripe is skipped. */
    method SetNext()
      requires Legal(c) && AtPoint() && (c.input[idx].kind.Set? || c.input[idx].kind.SetWithDelete?)
      modifies this
      ensures SkippingFrom(old(idx) + 1) && pending == old(pending)
      ensures key == SetEntry(c, old(idx))
    {
      SaveKey();
      valid := true;
      MaybeZeroSeqnum(curSnapshotIdx);
      if !c.formatSetWithDelete || c.input[idx].kind.SetWithDelete? {
        skip := true;
      } else {
        SetScan();
      }
    }

    /** The rest of setNext, for a plain SET. */
    method SetScan()
      requires Legal(c) && AtPoint() && KeySaved() && c.input[idx].kind.Set? && c.formatSetWithDelete
      requires key == Zeroed(c, idx, c.input[idx])
      modifies `idx, `curSnapshotIdx, `curSnapshotSeqNum, `iterStripeChange, `key, `skip, `pos
      ensures SkippingFrom(old(idx) + 1)
      ensures key == SetEntry(c, old(idx))
    {
      ghost var i := idx;
      var change := SeekDelete();
      if change.NewStripeNewKey? || change.NewStripeSameKey? {
        pos := NextPos;
        LandNext(i + 1);
      } else if change.SameStripeNonSkippable? {
        pos := NextPos;
        key := key.(kind := SetWithDelete);
        skip := true;
        LandNext(i + 1);
      } else {
        key := key.(kind := SetWithDelete);
        skip := true;
      }
    }

    /** The cursor stands on an entry still to be processed. */
    ghost predicate ParkedAt(j: nat)
      reads this
    {
      Valid() && pos.NextPos? && idx == j && !skip
    }

    /** The loop of mergeNext: merge operands up to the entry that settles the
        value, or out of the stripe. */
    method FoldOperands(first: Value) returns (acc: Value, change: StripeChange, covered: bool)
      requires Legal(c) && KeySaved() && Fragmented(idx) && c.input[idx].Point?
      modifies `idx, `curSnapshotIdx, `curSnapshotSeqNum, `iterStripeChange
      ensures AtEntry() && old(idx) < idx && change == iterStripeChange == Classify(c, idx)
      ensures !change.NewStripeNewKey? ==> KeySaved()
      ensures idx <= SkipStop(c, old(idx) + 1)
      ensures ScanMerge(c, old(idx) + 1, first) == ScanMerge(c, idx, acc)
      ensures change.SameStripeSkippable? ==>
                c.input[idx].kind.Tombstone() || (covered == Covered(c, idx) && (covered || !c.input[idx].kind.Merge?))
    {
      hide Legal, Out, ScanMerge, SkipStop, Covered, Fragmented, Same, Stripe, StripeBound;
      ghost var i := idx;
      acc, covered := first, false;
      change := NextInStripe();
      while change.SameStripeSkippable?
        invariant AtEntry() && i < idx && change == iterStripeChange == Classify(c, idx)
        invariant !change.NewStripeNewKey? ==> KeySaved()
        invariant idx <= SkipStop(c, i + 1)
        invariant ScanMerge(c, i + 1, first) == ScanMerge(c, idx, acc)
        invariant Fragmented(i)
        decreases |c.input| - idx
      {
        if c.input[idx].kind.Tombstone() {
          return;
        }
        covered := CoveredFrom(i);
        if covered || !c.input[idx].kind.Merge? {
          return;
        }
        ScanMergeAt(c, idx, acc);
        acc := c.merge(acc, c.input[idx].value);
        change := NextInStripe();
      }
    }

    /** mergeNext: older operands of the stripe are merged into the key. */
    method MergeNext() returns (change: StripeChange)
      requires Legal(c) && AtPoint() && c.input[idx].kind.Merge? && Fragmented(idx)
      modifies this
      ensures pending == old(pending)
      ensures var m := ScanMerge(c, old(idx) + 1, c.input[old(idx)].value);
              && key == c.input[old(idx)].(kind := m.kind, value := m.value)
              && change.SameStripeNonSkippable? == m.interrupted
              && (if m.kind.Merge? then ParkedAt(m.next) else SkippingFrom(m.next))
    {
      hide Legal, Out, ScanMerge, SkipStop, Covered, Fragmented, Stripe, StripeBound;
      SaveKey();
      valid := true;
      var acc, covered;
      acc, change, covered := FoldOperands(key.value);
      ScanMergeAt(c, idx, acc);
      SkipStopNext(c, idx);
      key := key.(value := acc);
      if !change.SameStripeSkippable? {
        pos := NextPos;
        return;
      }
      var e := c.input[idx];
      if e.kind.Tombstone() {
        key := key.(kind := SetWithDelete);
      } else if covered {
        key := key.(kind := Set);
      } else {
        key := key.(kind := Set, value := c.merge(acc, e.value));
      }
      skip := true;
    }

    /** The loop of singleDeleteNext: pass further SINGLEDELs. */
    method PassSingleDeletes() returns (change: StripeChange)
      requires Legal(c) && KeySaved()
      modifies `idx, `curSnapshotIdx, `curSnapshotSeqNum, `iterStripeChange
      ensures AtEntry() && old(idx) < idx && change == iterStripeChange == Classify(c, idx)
      ensures !change.NewStripeNewKey? ==> KeySaved()
      ensures idx == SkipSingleDeletes(c, old(idx) + 1)
    {
      ghost var i := idx;
      change := NextInStripe();
      while change.SameStripeSkippable? && c.input[idx].kind.SingleDelete?
        invariant AtEntry() && i < idx && change == iterStripeChange == Classify(c, idx)
        invariant !change.NewStripeNewKey? ==> KeySaved()
        invariant SkipSingleDeletes(c, i + 1) == SkipSingleDeletes(c, idx)
        decreases |c.input| - idx
      {
        change := NextInStripe();
      }
    }

    /** singleDeleteNext: whether the key, now a SINGLEDEL or DEL, is emitted. */
    method SingleDeleteNext() returns (emit: bool)
      requires Legal(c) && AtPoint() && c.input[idx].kind.SingleDelete?
      modifies this
      ensures pending == old(pending)
      ensures var j := SkipSingleDeletes(c, old(idx) + 1);
              if !Same(c, j) || c.input[j].RangeDel? then emit && key == c.input[old(idx)] && ParkedAt(j)
              else if c.input[j].kind.Set? then !emit && AtEntry() && !err && !skip && pos.CurForward? && idx == j + 1
              else emit && key == c.input[old(idx)].(kind := Delete) && SkippingFrom(j + 1)
    {
      SaveKey();
      valid := true;
      var change := PassSingleDeletes();
      if !change.SameStripeSkippable? {
        pos := NextPos;
        emit := true;
      } else if c.input[idx].kind.Set? {
        change := NextInStripe();
        valid := false;
        emit := false;
      } else {
        key := key.(kind := Delete);
        skip := true;
        emit := true;
      }
    }

    /** The loop of deleteSizedNext: what the DELSIZED becomes. */
    method DropSized(first: Value) returns (r: SizedScan, change: StripeChange)
      requires Legal(c) && KeySaved()
      modifies `idx, `curSnapshotIdx, `curSnapshotSeqNum, `iterStripeChange
      ensures AtEntry() && old(idx) < idx && change == iterStripeChange == Classify(c, idx)
      ensures !change.NewStripeNewKey? ==> KeySaved()
      ensures idx <= SkipStop(c, old(idx) + 1)
      ensures r == ScanSized(c, old(idx) + 1, first)
    {
      hide Legal, Out, SkipStop, Stripe, StripeBound, Same;
      ghost var i := idx;
      var v := first;
      change := NextInStripe();
      while change.SameStripeSkippable?
        invariant AtEntry() && i < idx && change == iterStripeChange == Classify(c, idx)
        invariant !change.NewStripeNewKey? ==> KeySaved()
        invariant idx <= SkipStop(c, i + 1)
        invariant ScanSized(c, i + 1, first) == ScanSized(c, idx, v)
        decreases |c.input| - idx
      {
        var meet := MeetSized(c, c.input[idx], v);
        if meet.Settled? {
          r := meet.scan;
          return;
        }
        v := meet.value;
        change := NextInStripe();
      }
      r := Sized(DeleteSized, v);
    }

    /** deleteSizedNext; false if the value was corrupt. */
    method DeleteSizedNext() returns (ok: bool)
      requires Legal(c) && AtPoint() && c.input[idx].kind.DeleteSized?
      modifies this
      ensures pending == old(pending)
      ensures match ScanSized(c, old(idx) + 1, c.input[old(idx)].value)
              case Corrupt => !ok && err
              case Sized(kind, v) =>
                ok && SkippingFrom(old(idx) + 1) && key == c.input[old(idx)].(kind := kind, value := v)
    {
      hide Legal, Out, ScanSized, Stripe, StripeBound, Same;
      ghost var i := idx;
      SaveKey();
      valid := true;
      var r, change := DropSized(key.value);
      if r.Corrupt? {
        err, valid, ok := true, false, false;
        return;
      }
      key := key.(kind := r.kind, value := r.value);
      if change.SameStripeSkippable? {
        ghost var j := idx;
        SkipInStripe();
        SkipStopFrom(c, i + 1, j);
      } else {
        skip := change.SameStripeNonSkippable?;
      }
      pos, ok := NextPos, true;
      LandNext(i + 1);
    }

    // -------------------------------------------------------------- First, Next

    /** An entry has been returned; Out(c, next, sk) is still to be emitted. */
    ghost predicate Landed(next: nat, sk: bool)
      reads this
    {
      next <= |c.input| && ((ParkedAt(next) && !sk) || (SkippingFrom(next) && sk == Same(c, next)))
    }

    lemma LandedEmits(next: nat, sk: bool)
      requires Landed(next, sk)
      ensures Remaining() == Out(c, next, sk)
    {
      if !(ParkedAt(next) && !sk) {
        SkippingEmits(next);
      }
    }

    lemma LandedFragmented(i: nat, next: nat, sk: bool)
      requires i < next && Landed(next, sk)
      requires c.input[i].Point? && Fragmented(i) && next <= SkipStop(c, i + 1)
      ensures FragmentedSeen()
    {
      SkipStopFrom(c, i + 1, next);
      FragmentedOn(i, Seen());
    }

    /** Within Next, after a silent step to `next`. */
    ghost predicate Passed(next: nat, sk: bool)
      reads this
    {
      && AtEntry() && !err && pos.CurForward? && SkipOk() && next <= |c.input|
      && (if sk then idx == SkipStop(c, next) && skip == Same(c, idx) else idx == next && !skip)
    }

    /** All range tombstones before the cursor's next entry are fragmented. */
    ghost predicate FragmentedSeen()
      reads this
    {
      Seen() <= |c.input| && Fragmented(Seen())
    }

    /** A dropped entry: the rest of its stripe is skipped. */
    method Drop()
      requires Legal(c) && AtPoint()
      modifies this
      ensures Passed(old(idx) + 1, Same(c, old(idx) + 1)) && idx == SkipStop(c, old(idx) + 1)
      ensures skip == Same(c, idx) && iterStripeChange == Classify(c, idx)
      ensures pending == old(pending)
    {
      SaveKey();
      SkipInStripe();
    }

    /** A tombstone elided in the bottom stripe: skipping stops at a new key, or within the
        stripe and still skipping. */
    method DropAtBottom()
      requires Legal(c) && AtPoint() && Stripe(c, idx) == 0
      modifies this
      ensures Passed(old(idx) + 1, Same(c, old(idx) + 1))
      ensures pending == old(pending)
    {
      ghost var i := idx;
      Drop();
      BottomStops(c, i);
      assert !iterStripeChange.NewStripeSameKey?;
      assert skip || iterStripeChange.NewStripeNewKey?;
    }

    /** One point entry of the loop in Next. */
    method ProcessPoint() returns (r: Option<Entry>)
      requires Legal(c) && AtPoint() && Fragmented(idx)
      modifies this
      ensures pending == old(pending)
      ensures match StepAt(c, old(idx))
              case Stop => r.None? && err
              case Pass(next, sk) => r.None? && Passed(next, sk)
              case Put(e, next, sk) => r == Some(key) && e == key && Landed(next, sk)
    {
      var covered := CoveredNow();
      if covered {
        Drop();
        return None;
      }
      match c.input[idx].kind
      case Delete | DeleteSized | SingleDelete =>
        if c.elide(c.input[idx].ukey) && curSnapshotIdx == 0 {
          DropAtBottom();
          return None;
        }
        r := ProcessTombstone();
      case Set | SetWithDelete =>
        SetNext();
        return Some(key);
      case Merge =>
        r := ProcessMerge();
    }

    method ProcessTombstone() returns (r: Option<Entry>)
      requires Legal(c) && AtPoint() && !Dropped(c, idx) && c.input[idx].kind.Tombstone()
      modifies this
      ensures pending == old(pending)
      ensures match StepAt(c, old(idx))
              case Stop => r.None? && err
              case Pass(next, sk) => r.None? && Passed(next, sk)
              case Put(e, next, sk) => r == Some(key) && e == key && Landed(next, sk)
    {
      hide Legal, Out, ScanSized, SkipSingleDeletes, Covered, SkipStop, StripeBound;
      if c.input[idx].kind.Delete? {
        SaveKey();
        valid, skip := true, true;
        return Some(key);
      } else if c.input[idx].kind.DeleteSized? {
        var ok := DeleteSizedNext();
        return if ok then Some(key) else None;
      } else {
        var emit := SingleDeleteNext();
        return if emit then Some(key) else None;
      }
    }

    method ProcessMerge() returns (r: Option<Entry>)
      requires Legal(c) && AtPoint() && Fragmented(idx) && !Dropped(c, idx) && c.input[idx].kind.Merge?
      modifies this
      ensures pending == old(pending)
      ensures var step := StepAt(c, old(idx)); r == Some(key) && key == step.entry && Landed(step.next, step.skip)
    {
      hide Legal, Out, ScanMerge, SkipStop, Covered, Fragmented;
      var origSnapshotIdx := curSnapshotIdx;
      ScanMergeRun(c, idx + 1, c.input[idx].value);
      var change := MergeNext();
      if !change.SameStripeNonSkippable? {
        MaybeZeroSeqnum(origSnapshotIdx);
      }
      return Some(key);
    }

    /** Within Next: the cursor is on an entry and `o` is still to be emitted. */
    ghost predicate Within(o: Output)
      reads this
    {
      AtEntry() && !err && pos.CurForward? && SkipOk() && Fragmented(idx) && Out(c, idx, skip) == o
    }

    lemma PassedOn(i: nat, next: nat, sk: bool)
      requires i < next <= |c.input| && c.input[i].Point? && Fragmented(i) && next <= SkipStop(c, i + 1)
      requires Passed(next, sk) && (sk ==> Same(c, next))
      ensures Within(Out(c, next, sk))
    {
      SkipStopFrom(c, i + 1, next);
      FragmentedOn(i, idx);
      SkipEmitsNothing(c, next);
    }

    /** The first lines of Next; its panic is unreachable. */
    method Advance()
      requires Legal(c) && Valid() && FragmentedSeen()
      modifies this
      ensures Within(old(Remaining())) && pending == old(pending)
    {
      hide Legal, Out, SkipStop, Tombs, Covered, StepAt, Stripe;
      ghost var i := idx;
      if pos.CurForward? {
        if skip {
          SkipInStripe();
          SkipEmitsNothing(c, i + 1);
          FragmentedToStop(i + 1);
        } else {
          var _ := NextInStripe();
        }
      } else {
        assert !(skip && !iterStripeChange.SameStripeNonSkippable?);
      }
      pos, valid := CurForward, false;
    }

    lemma FragmentedToStop(i: nat)
      requires i <= |c.input| && Fragmented(i)
      ensures Fragmented(SkipStop(c, i))
    {
      forall x | i <= x < SkipStop(c, i) ensures c.input[x].Point? {
        BeforeSkipStop(c, i, x);
      }
    }

    /** The caller adds the range tombstone just returned to the fragmenter. */
    method AddSpan(ghost rest: Output)
      requires key.RangeDel? && Handed(key, rest)
      modifies `pending
      ensures pending == old(pending) + [key]
      ensures Valid() && Remaining() == rest && FragmentedSeen()
    {
      pending := pending + [key];
    }

    /** `e` has been returned and `rest` remains. A range tombstone has yet to be
        handed to the fragmenter by the caller. */
    ghost predicate Handed(e: Entry, rest: Output)
      reads this
    {
      && Valid() && Remaining() == rest
      && (if e.RangeDel? then pos.CurForward? && c.input[idx] == e && Fragmented(idx) else FragmentedSeen())
    }

    lemma HandedPoint(e: Entry, rest: Output)
      requires e.Point? && Handed(e, rest)
      ensures Valid() && Remaining() == rest && FragmentedSeen()
    {
    }

    lemma HandedPut(i: nat)
      requires i < |c.input| && c.input[i].Point? && Fragmented(i)
      requires var step := StepAt(c, i); step.Put? && Landed(step.next, step.skip)
      ensures var step := StepAt(c, i); Handed(step.entry, Out(c, step.next, step.skip))
    {
      var step := StepAt(c, i);
      StepStop(c, i);
      StepShape(c, i);
      LandedFragmented(i, step.next, step.skip);
      LandedEmits(step.next, step.skip);
    }

    lemma WithinPass(i: nat)
      requires i < |c.input| && c.input[i].Point? && Fragmented(i)
      requires var step := StepAt(c, i); step.Pass? && Passed(step.next, step.skip)
      ensures var step := StepAt(c, i); Within(Out(c, step.next, step.skip))
    {
      StepStop(c, i);
      PassedOn(i, StepAt(c, i).next, StepAt(c, i).skip);
    }

    /** One turn of the loop in Next. */
    method Turn(ghost o: Output) returns (r: Option<Entry>)
      requires Legal(c) && Within(o) && idx < |c.input|
      modifies this
      ensures pending == old(pending)
      ensures r.Some? ==> o.Emit? && r.value == key == o.entry && Handed(o.entry, o.rest)
      ensures r.None? ==> if err then o.Failed? else Within(o) && old(idx) < idx
    {
      if c.input[idx].RangeDel? {
        SaveKey();
        valid := true;
        return Some(key);
      }
      ghost var i := idx;
      r := ProcessPoint();
      if r.Some? {
        HandedPut(i);
      } else if !err {
        WithinPass(i);
      }
    }

    /** Next emits the head of what remains. */
    method Next() returns (r: Option<Entry>)
      requires Legal(c) && Valid() && FragmentedSeen()
      modifies this
      ensures pending == old(pending)
      ensures match old(Remaining())
              case End => r.None? && !err
              case Failed => r.None? && err
              case Emit(e, rest) => r == Some(e) && e == key && Handed(e, rest)
    {
      ghost var o := Remaining();
      Advance();
      while idx < |c.input|
        invariant Within(o) && pending == old(pending)
        decreases |c.input| - idx
      {
        r := Turn(o);
        if r.Some? || err {
          return;
        }
      }
      return None;
    }
  }

  lemma StepStop(c: Config, i: nat)
    requires i < |c.input| && c.input[i].Point? && !StepAt(c, i).Stop?
    ensures StepAt(c, i).next <= SkipStop(c, i + 1)
  {
    hide SkipStop, SkipSingleDeletes, ScanMerge;
    SkipSingleDeletesStop(c, i + 1);
    ScanMergeStop(c, i + 1, c.input[i].value);
  }

  /** The compaction loop: every range tombstone returned is added to the
      fragmenter before the next call. */
  method RunCompaction(c: Config) returns (out: seq<Entry>, err: bool)
    requires Legal(c)
    ensures out == Entries(Compact(c)) && err == Fails(Compact(c))
  {
    hide Legal, Out, StepAt, CompactionIter.Handed, CompactionIter.Valid, CompactionIter.Remaining,
         CompactionIter.FragmentedSeen, Entries, Fails;
    var iter := new CompactionIter(c);
    out := [];
    var e := iter.Next();
    ghost var rest := Compact(c);
    while e.Some?
      invariant iter.c == c
      invariant e.None? ==> iter.err == rest.Failed? && !rest.Emit?
      invariant e.Some? ==> rest.Emit? && rest.entry == e.value == iter.key && iter.Handed(rest.entry, rest.rest)
      invariant out + Entries(rest) == Entries(Compact(c))
      invariant Fails(rest) == Fails(Compact(c))
      decreases rest
    {
      OutputStep(rest);
      assert out + ([e.value] + Entries(rest.rest)) == (out + [e.value]) + Entries(rest.rest);
      out := out + [e.value];
      rest := rest.rest;
      if e.value.RangeDel? {
        iter.AddSpan(rest);
      } else {
        iter.HandedPoint(e.value, rest);
      }
      e := iter.Next();
    }
    OutputStep(rest);
    err := iter.err;
  }

  lemma OutputStep(o: Output)
    ensures Entries(o) == if o.Emit? then [o.entry] + Entries(o.rest) else []
    ensures Fails(o) == if o.Emit? then Fails(o.rest) else o.Failed?
  {
  }

  lemma {:induction false} SkipSingleDeletesStop(c: Config, i: nat)
    requires i <= |c.input|
    ensures var j := SkipSingleDeletes(c, i);
            j <= SkipStop(c, i) && (Same(c, j) && c.input[j].Point? ==> j + 1 <= SkipStop(c, i))
    decreases |c.input| - i
  {
    if SkipSingleDeletes(c, i) != i {
      SkipSingleDeletesStop(c, i + 1);
    }
  }

  lemma {:induction false} ScanMergeStop(c: Config, i: nat, acc: Value)
    requires i <= |c.input|
    ensures ScanMerge(c, i, acc).next <= SkipStop(c, i)
    decreases |c.input| - i
  {
    if Same(c, i) && c.input[i].Point? && c.input[i].kind.Merge? && !Covered(c, i) {
      ScanMergeStop(c, i + 1, c.merge(acc, c.input[i].value));
    }
  }
}
