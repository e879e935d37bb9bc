/**
 What a compaction makes of each kind of entry that heads its stripe, said of the
 input and the output alone.
 */
module CompactionExact {
  import opened Basics
  import opened Lsm
  import opened Compaction
  import opened CompactionReads
  import Varint

  // ------------------------------------------------------------------ reaching a stripe

  /** No step jumps over the head of a stripe. */
  lemma {:induction false} Reached(c: Config, i: nat, skip: bool, x: nat) returns (before: seq<Entry>)
    requires i <= x < |c.input| && !Same(c, x) && (skip ==> Same(c, i)) && !Fails(Out(c, i, skip))
    ensures Entries(Out(c, i, skip)) == before + Entries(Out(c, x, false)) && !Fails(Out(c, x, false))
    decreases |c.input| - i
  {
    if i == x {
      before := [];
    } else if c.input[i].RangeDel? {
      before := Reached(c, i + 1, skip && Same(c, i + 1), x);
      before := [c.input[i]] + before;
    } else if skip {
      before := Reached(c, i + 1, Same(c, i + 1), x);
    } else {
      var r := StepAt(c, i);
      StepShape(c, i);
      before := Reached(c, r.next, r.skip, x);
      if r.Put? {
        before := [r.entry] + before;
      }
    }
  }

  /** The entry at i heads its stripe and is not deleted by a range tombstone. */
  ghost predicate Heads(c: Config, i: nat) {
    i < |c.input| && c.input[i].Point? && !Same(c, i) && !Covered(c, i)
  }

  /** And if it is a tombstone there may be something left for it to delete. */
  ghost predicate Needed(c: Config, i: nat)
    requires i < |c.input|
  {
    !(c.elide(c.input[i].ukey) && SnapshotIndex(c.input[i].seqNum, c.snapshots) == 0)
  }

  lemma HeadPuts(c: Config, i: nat)
    requires Heads(c, i) && !Fails(Compact(c))
    ensures !StepAt(c, i).Stop?
    ensures StepAt(c, i).Put? ==> StepAt(c, i).entry in Entries(Compact(c))
  {
    var before := Reached(c, 0, false, i);
    if StepAt(c, i).Put? {
      var es := Entries(Out(c, i, false));
      assert es[0] == StepAt(c, i).entry && es[0] in before + es;
    }
  }

  /** Each emitted point is put by the step at the entry it stands for. */
  lemma {:induction false} PutBy(c: Config, i: nat, skip: bool, p: Entry) returns (j: nat)
    requires i <= |c.input| && (skip ==> Same(c, i)) && p in Entries(Out(c, i, skip)) && p.Point?
    ensures i <= j < |c.input| && c.input[j].Point? && StepAt(c, j).Put? && StepAt(c, j).entry == p
    decreases |c.input| - i
  {
    if c.input[i].RangeDel? {
      j := PutBy(c, i + 1, skip && Same(c, i + 1), p);
    } else if skip {
      j := PutBy(c, i + 1, Same(c, i + 1), p);
    } else {
      var r := StepAt(c, i);
      if r.Put? && p == r.entry {
        j := i;
      } else {
        j := PutBy(c, r.next, r.skip, p);
      }
    }
  }

  // ------------------------------------------------------------------ tombstones

  /** Only a tombstone becomes one, and keeps its number. */
  lemma PutTombstone(c: Config, j: nat)
    requires j < |c.input| && c.input[j].Point? && StepAt(c, j).Put? && StepAt(c, j).entry.Point?
    requires StepAt(c, j).entry.kind.Tombstone()
    ensures c.input[j].kind.Tombstone() && !Dropped(c, j)
    ensures StepAt(c, j).entry.ukey == c.input[j].ukey && StepAt(c, j).entry.seqNum == c.input[j].seqNum
  {
    if c.input[j].kind.Merge? && !Dropped(c, j) {
      ScanMergeRun(c, j + 1, c.input[j].value);
    }
  }

  /** No tombstone is left in the bottom stripe of a key for which tombstones can be
      elided, whatever snapshots are open. */
  lemma TombstonesElided(c: Config, p: Entry)
    requires p in Entries(Compact(c)) && p.Point? && p.kind.Tombstone() && c.elide(p.ukey)
    ensures SnapshotIndex(p.seqNum, c.snapshots) > 0
  {
    var j := PutBy(c, 0, false, p);
    PutTombstone(c, j);
  }

  /** And nothing that a range tombstone of its stripe deletes is emitted. */
  lemma NothingCovered(c: Config, p: Entry) returns (j: nat)
    requires p in Entries(Compact(c)) && p.Point?
    ensures j < |c.input| && StandsFor(c, j, p) && !Covered(c, j)
  {
    j := PutBy(c, 0, false, p);
    StepShape(c, j);
  }

  /** A DEL is emitted as it came, if it is needed. */
  lemma DeleteStays(c: Config, i: nat)
    requires Heads(c, i) && c.input[i].kind.Delete? && Needed(c, i) && !Fails(Compact(c))
    ensures c.input[i] in Entries(Compact(c))
  {
    HeadPuts(c, i);
  }

  // ------------------------------------------------------------------ sized deletes

  /** The run of points behind a head stops at m. */
  predicate Stops(c: Config, m: nat) {
    !Same(c, m) || c.input[m].RangeDel?
  }

  /** The entry at k is data of the size that the DELSIZED right before it announces. */
  ghost predicate Deletes(c: Config, k: nat)
    requires 0 < k < |c.input| && c.input[k].Point?
  {
    && !c.input[k].kind.Tombstone() && c.input[k - 1].Point? && c.input[k - 1].kind.DeleteSized?
    && AnnouncedSize(c.input[k - 1].value) == Some(c.keyLen(c.input[k].ukey) + |c.input[k].value|)
  }

  /** From i up to m the stripe holds only sized deletes and the data they announce. */
  ghost predicate Accounted(c: Config, i: nat, m: nat) {
    && i < m <= |c.input| && c.input[i].Point? && c.input[i].kind.DeleteSized?
    && (forall k {:trigger SizedOn(c, k)} :: i < k < m ==> SizedOn(c, k))
  }

  /** A sized delete goes on over the entry at k. */
  ghost predicate SizedOn(c: Config, k: nat) {
    && Same(c, k) && c.input[k].Point?
    && (c.input[k].kind.DeleteSized? || Deletes(c, k))
  }

  /** What the head carries beyond them: the last size not used up. */
  function Carried(c: Config, m: nat): Value
    requires 0 < m <= |c.input|
  {
    if c.input[m - 1].Point? && c.input[m - 1].kind.DeleteSized? then c.input[m - 1].value else []
  }

  lemma {:induction false} ScanCarries(c: Config, i: nat, m: nat)
    requires Accounted(c, i, m)
    ensures ScanSized(c, i + 1, c.input[i].value) == ScanSized(c, m, Carried(c, m))
    decreases m - i
  {
    hide ScanSized, SizedOn, Same;
    if m > i + 1 {
      ScanCarries(c, i, m - 1);
      assert SizedOn(c, m - 1);
      ScanSizedOn(c, m - 1);
    }
  }

  lemma ScanSizedOn(c: Config, k: nat)
    requires SizedOn(c, k)
    ensures ScanSized(c, k, Carried(c, k)) == ScanSized(c, k + 1, Carried(c, k + 1))
  {
    hide SnapshotIndex;
    NoSize();
  }

  lemma NoSize()
    ensures AnnouncedSize([]) == None
  {
  }

  /** Over data of the sizes announced a sized delete stays one, with the size that is
      not used up, or none. */
  lemma SizedStays(c: Config, i: nat, m: nat)
    requires Heads(c, i) && Needed(c, i) && !Fails(Compact(c)) && Accounted(c, i, m) && Stops(c, m)
    ensures Point(c.input[i].ukey, c.input[i].seqNum, DeleteSized, Carried(c, m)) in Entries(Compact(c))
  {
    HeadPuts(c, i);
    ScanCarries(c, i, m);
  }

  /** Over another tombstone, or data it does not announce, it becomes a DEL. */
  lemma SizedSettles(c: Config, i: nat, m: nat)
    requires Heads(c, i) && Needed(c, i) && !Fails(Compact(c)) && Accounted(c, i, m)
    requires !Stops(c, m) && !c.input[m].kind.DeleteSized? && !Deletes(c, m)
    ensures Point(c.input[i].ukey, c.input[i].seqNum, Delete,
                  if c.input[m].kind.Tombstone() then c.input[m].value else []) in Entries(Compact(c))
  {
    HeadPuts(c, i);
    ScanCarries(c, i, m);
    NoSize();
  }

  /** If what it announces cannot be read the compaction fails. */
  lemma SizedCorrupt(c: Config, i: nat, m: nat)
    requires Heads(c, i) && Needed(c, i) && Accounted(c, i, m)
    requires !Stops(c, m) && !c.input[m].kind.Tombstone() && Carried(c, m) != [] && AnnouncedSize(Carried(c, m)) == None
    ensures Fails(Compact(c))
  {
    ScanCarries(c, i, m);
    if !Fails(Compact(c)) {
      HeadPuts(c, i);
    }
  }

  /** A size written as a varint is read back. */
  lemma SizeReads(n: nat)
    requires n < 0x1_0000_0000_0000_0000
    ensures AnnouncedSize(Varint.Encode(n)) == Some(n)
  {
    var v := Varint.Encode(n);
    Varint.DecodeEncode(n, []);
    assert v + [] == v;
    assert Varint.Power128(2) == 128 * 128;
    assert Varint.Power128(4) == 128 * 128 * Varint.Power128(2);
    assert Varint.Power128(6) == 128 * 128 * Varint.Power128(4);
    assert Varint.Power128(8) == 128 * 128 * Varint.Power128(6);
    assert Varint.Power128(10) == 128 * 128 * Varint.Power128(8);
    Varint.EncodeLength(n, 10);
  }

  /** What becomes of DELSIZED(n) alone, over one data entry, and over a DEL. */
  lemma SizedOutcome(c: Config, i: nat, n: nat)
    requires Heads(c, i) && Needed(c, i) && !Fails(Compact(c)) && n < 0x1_0000_0000_0000_0000
    requires c.input[i].kind.DeleteSized? && c.input[i].value == Varint.Encode(n)
    ensures Stops(c, i + 1) ==> c.input[i] in Entries(Compact(c))
    ensures !Stops(c, i + 1) ==>
              var k, q, e := c.input[i].ukey, c.input[i].seqNum, c.input[i + 1];
              && (e.kind.Delete? || e.kind.SingleDelete? ==> Point(k, q, Delete, e.value) in Entries(Compact(c)))
              && (!e.kind.Tombstone() && c.keyLen(k) + |e.value| != n ==>
                    Point(k, q, Delete, []) in Entries(Compact(c)))
              && (!e.kind.Tombstone() && c.keyLen(k) + |e.value| == n && Stops(c, i + 2) ==>
                    Point(k, q, DeleteSized, []) in Entries(Compact(c)))
  {
    hide Fails, Compact, Heads, AnnouncedSize;
    SizeReads(n);
    assert i < |c.input| && c.input[i].Point? by {
      HeadIsPoint(c, i);
    }
    assert Accounted(c, i, i + 1);
    if Stops(c, i + 1) {
      SizedStays(c, i, i + 1);
    } else if c.input[i + 1].kind.DeleteSized? {
    } else if Deletes(c, i + 1) {
      if Stops(c, i + 2) {
        assert Accounted(c, i, i + 2);
        SizedStays(c, i, i + 2);
      }
    } else {
      SizedSettles(c, i, i + 1);
    }
  }

  lemma HeadIsPoint(c: Config, i: nat)
    requires Heads(c, i)
    ensures i < |c.input| && c.input[i].Point?
  {
  }

  // ------------------------------------------------------------------ SET

  /** A tombstone of some sort lies under the entry at i, in its stripe. */
  ghost predicate Buries(c: Config, i: nat) {
    exists x :: Buried(c, i, x)
  }

  ghost predicate Buried(c: Config, i: nat, x: nat) {
    && i < x < |c.input| && (forall y :: i < y <= x ==> Same(c, y))
    && (c.input[x].RangeDel? || c.input[x].kind.Tombstone())
  }

  lemma {:induction false} MeetsBuried(c: Config, i: nat)
    ensures MeetsDelete(c, i + 1) <==> Buries(c, i)
    decreases |c.input| - i
  {
    if Same(c, i + 1) {
      MeetsBuried(c, i + 1);
      if MeetsDelete(c, i + 2) {
        var x :| Buried(c, i + 1, x);
        assert Buried(c, i, x);
      } else if MeetsDelete(c, i + 1) {
        assert Buried(c, i, i + 1);
      }
      if x: nat :| Buried(c, i, x) {
        assert x > i + 1 ==> Buried(c, i + 1, x);
      }
    }
  }

  /** The number an entry is emitted with, in the bottom stripe zero if that is allowed. */
  function Number(c: Config, i: nat): nat
    requires i < |c.input|
  {
    if c.allowZeroSeqNum && SnapshotIndex(c.input[i].seqNum, c.snapshots) == 0 then 0 else c.input[i].seqNum
  }

  /** A SET keeps its value, and becomes a SETWITHDEL exactly if it covers a tombstone
      and the format knows that kind. */
  lemma SetOutcome(c: Config, i: nat)
    requires Heads(c, i) && (c.input[i].kind.Set? || c.input[i].kind.SetWithDelete?) && !Fails(Compact(c))
    ensures var e := c.input[i];
            var covers := e.kind.SetWithDelete? || (c.formatSetWithDelete && Buries(c, i));
            Point(e.ukey, Number(c, i), if covers then SetWithDelete else Set, e.value) in Entries(Compact(c))
  {
    HeadPuts(c, i);
    MeetsBuried(c, i);
  }

  // ------------------------------------------------------------------ SINGLEDEL

  /** Behind a SINGLEDEL at i there are only SINGLEDELs up to j. */
  ghost predicate OnlySingles(c: Config, i: nat, j: nat) {
    && i < j <= |c.input| && c.input[i].Point? && c.input[i].kind.SingleDelete?
    && (forall x {:trigger c.input[x]} :: i < x < j ==>
          Same(c, x) && c.input[x].Point? && c.input[x].kind.SingleDelete?)
    && !(Same(c, j) && c.input[j].Point? && c.input[j].kind.SingleDelete?)
  }

  lemma {:induction false} SinglesSkipped(c: Config, i: nat, j: nat, k: nat)
    requires OnlySingles(c, i, j) && i < k <= j
    ensures SkipSingleDeletes(c, k) == j
    decreases j - k
  {
    if k < j {
      assert Same(c, k) && c.input[k].Point? && c.input[k].kind.SingleDelete?;
      SinglesSkipped(c, i, j, k + 1);
    }
  }

  /** A SINGLEDEL with nothing under it is emitted as it came, cancels with a SET, and
      becomes a DEL over anything else. */
  lemma SingleDeleteOutcome(c: Config, i: nat, j: nat)
    requires Legal(c) && Heads(c, i) && Needed(c, i) && !Fails(Compact(c)) && OnlySingles(c, i, j)
    ensures Stops(c, j) ==> c.input[i] in Entries(Compact(c))
    ensures !Stops(c, j) && !c.input[j].kind.Set? ==> c.input[i].(kind := Delete) in Entries(Compact(c))
    ensures !Stops(c, j) && c.input[j].kind.Set? ==>
              forall p :: p in Entries(Compact(c)) && p.Point? && p.ukey == c.input[i].ukey ==>
                p.seqNum != c.input[i].seqNum
  {
    SinglesSkipped(c, i, j, i + 1);
    HeadPuts(c, i);
    if !Stops(c, j) && c.input[j].kind.Set? {
      forall p | p in Entries(Compact(c)) && p.Point? && p.ukey == c.input[i].ukey
        ensures p.seqNum != c.input[i].seqNum
      {
        assert Precedes(c.input[i], c.input[i + 1]);
        if p.seqNum == c.input[i].seqNum {
          var x := PutBy(c, 0, false, p);
          StepShape(c, x);
          OnlyOne(c, i, x);
        }
      }
    }
  }

  lemma OnlyOne(c: Config, i: nat, x: nat)
    requires Legal(c) && i < |c.input| && x < |c.input| && c.input[i].Point? && c.input[x].Point?
    requires c.input[i].ukey == c.input[x].ukey && c.input[i].seqNum == c.input[x].seqNum
    ensures i == x
  {
    assert i < x ==> Precedes(c.input[i], c.input[x]);
    assert x < i ==> Precedes(c.input[x], c.input[i]);
  }

  // ------------------------------------------------------------------ MERGE

  /** From i up to j there are only operands that count. */
  ghost predicate Operands(c: Config, i: nat, j: nat) {
    && i < j <= |c.input| && c.input[i].Point? && c.input[i].kind.Merge?
    && forall x {:trigger Operand(c, x)} :: i < x < j ==> Operand(c, x)
  }

  ghost predicate Operand(c: Config, x: nat) {
    Same(c, x) && c.input[x].Point? && c.input[x].kind.Merge? && !Covered(c, x)
  }

  /** All of them merged, newest first. */
  function MergedValue(c: Config, i: nat, j: nat): Value
    requires i < j <= |c.input|
    decreases j
  {
    var v := if c.input[j - 1].Point? then c.input[j - 1].value else [];
    if j == i + 1 then v else c.merge(MergedValue(c, i, j - 1), v)
  }

  lemma ScanOperand(c: Config, x: nat, acc: Value)
    requires Operand(c, x)
    ensures ScanMerge(c, x, acc) == ScanMerge(c, x + 1, c.merge(acc, c.input[x].value))
  {
  }

  lemma {:induction false} ScanMerges(c: Config, i: nat, j: nat)
    requires Operands(c, i, j)
    ensures ScanMerge(c, i + 1, c.input[i].value) == ScanMerge(c, j, MergedValue(c, i, j))
    decreases j - i
  {
    hide ScanMerge, Covered, Same;
    if j > i + 1 {
      ScanMerges(c, i, j - 1);
      assert Operand(c, j - 1);
      ScanOperand(c, j - 1, MergedValue(c, i, j - 1));
    }
  }

  /** MERGEs become one MERGE, or with what they meet first in the stripe: over a
      tombstone a SETWITHDEL, over a deleted entry a SET, over a SET a SET that takes
      its value in. */
  lemma MergeOutcome(c: Config, i: nat, j: nat)
    requires Heads(c, i) && !Fails(Compact(c)) && Operands(c, i, j)
    ensures var k, v, es := c.input[i].ukey, MergedValue(c, i, j), Entries(Compact(c));
            && (!Same(c, j) ==> Point(k, Number(c, i), Merge, v) in es)
            && (Same(c, j) && c.input[j].RangeDel? ==> Point(k, c.input[i].seqNum, Merge, v) in es)
            && (!Stops(c, j) && c.input[j].kind.Tombstone() ==> Point(k, Number(c, i), SetWithDelete, v) in es)
            && (!Stops(c, j) && !c.input[j].kind.Tombstone() && Covered(c, j) ==> Point(k, Number(c, i), Set, v) in es)
            && (!Stops(c, j) && (c.input[j].kind.Set? || c.input[j].kind.SetWithDelete?) && !Covered(c, j) ==>
                  Point(k, Number(c, i), Set, c.merge(v, c.input[j].value)) in es)
  {
    HeadPuts(c, i);
    ScanMerges(c, i, j);
  }

  // ------------------------------------------------------------------ range tombstones

  function RangeDels(es: seq<Entry>): seq<Entry> {
    if es == [] then [] else (if es[0].RangeDel? then [es[0]] else []) + RangeDels(es[1..])
  }

  lemma {:induction false} MergePassesPoints(c: Config, j: nat, acc: Value)
    requires j <= |c.input|
    ensures forall x :: j <= x < ScanMerge(c, j, acc).next ==> c.input[x].Point?
    decreases |c.input| - j
  {
    if Same(c, j) && c.input[j].Point? && c.input[j].kind.Merge? && !Covered(c, j) {
      MergePassesPoints(c, j + 1, c.merge(acc, c.input[j].value));
    }
  }

  /** A step passes points only, and emits a point. */
  lemma StepPassesPoints(c: Config, i: nat)
    requires i < |c.input| && c.input[i].Point? && !StepAt(c, i).Stop?
    ensures forall x :: i <= x < StepAt(c, i).next ==> c.input[x].Point?
    ensures StepAt(c, i).Put? ==> StepAt(c, i).entry.Point?
  {
    if !Dropped(c, i) {
      if c.input[i].kind.SingleDelete? {
        SkipSingleDeletesRun(c, i + 1);
      } else if c.input[i].kind.Merge? {
        MergePassesPoints(c, i + 1, c.input[i].value);
      }
    }
  }

  lemma {:induction false} PointsHoldNone(es: seq<Entry>, n: nat)
    requires n <= |es| && forall x :: 0 <= x < n ==> es[x].Point?
    ensures RangeDels(es) == RangeDels(es[n..])
  {
    if n > 0 {
      PointsHoldNone(es[1..], n - 1);
      assert es[1..][n - 1..] == es[n..];
    } else {
      assert es[n..] == es;
    }
  }

  lemma NoneBetween(c: Config, i: nat, j: nat)
    requires i <= j <= |c.input| && forall x :: i <= x < j ==> c.input[x].Point?
    ensures RangeDels(c.input[i..]) == RangeDels(c.input[j..])
  {
    PointsHoldNone(c.input[i..], j - i);
    assert c.input[i..][j - i..] == c.input[j..];
  }

  lemma {:induction false} RangeDelsOut(c: Config, i: nat, skip: bool)
    requires i <= |c.input| && (skip ==> Same(c, i)) && !Fails(Out(c, i, skip))
    ensures RangeDels(Entries(Out(c, i, skip))) == RangeDels(c.input[i..])
    decreases |c.input| - i
  {
    hide StepAt, Same;
    if i < |c.input| {
      var rest := c.input[i..];
      assert rest[1..] == c.input[i + 1..] && rest[0] == c.input[i];
      if c.input[i].RangeDel? {
        RangeDelsOut(c, i + 1, skip && Same(c, i + 1));
      } else if skip {
        RangeDelsOut(c, i + 1, Same(c, i + 1));
      } else {
        var r := StepAt(c, i);
        StepPassesPoints(c, i);
        RangeDelsOut(c, r.next, r.skip);
        NoneBetween(c, i, r.next);
      }
    }
  }

  /** All range tombstones of the input are handed on to be thinned, in order. */
  lemma RangeDelsHandedOn(c: Config)
    requires !Fails(Compact(c))
    ensures RangeDels(Entries(Compact(c))) == RangeDels(c.input)
  {
    RangeDelsOut(c, 0, false);
    assert c.input[0..] == c.input;
  }
}
