/**
 A compaction preserves every view: for each user key, each open snapshot and
 the latest state, reading what it emits gives what reading its input gave.
 */
module CompactionReads {
  import opened Basics
  import opened Lsm
  import opened Compaction
  import opened RangeDelThinning

  // ------------------------------------------------ range tombstones that stay

  /** The tombstones left over `k` by emitRangeDelChunk: the newest of each
      stripe, without the bottom stripe when that can be elided. */
  ghost function Kept(c: Config, k: Key): set<nat> {
    Thinned(Tombs(c, k), c.snapshots, c.elideRange(k))
  }

  /** What is assumed of the rest of the store: a tombstone is elided only if no
      older entry for its key exists, and sequence numbers are zeroed only if
      every range tombstone can be elided. */
  ghost predicate HonestElision(c: Config, k: Key, below: Option<Value>) {
    && (c.elide(k) || c.elideRange(k) ==> below == None)
    && (c.allowZeroSeqNum ==> c.elideRange(k))
  }

  /** Tombstone numbers are bounded like all others. */
  lemma TombBound(c: Config, k: Key, t: nat)
    requires Legal(c) && t in Tombs(c, k)
    ensures t < SEQ_MAX
  {
    var i, j :| 0 <= i < |c.input| && c.input[i].RangeDel? && 0 <= j < |c.input[i].seqs| && c.input[i].seqs[j] == t;
    assert WellFormed(c.input[i]);
  }

  /** A tombstone outside the bottom stripe has a kept one standing in for it. */
  lemma KeptStandsIn(c: Config, k: Key, s: nat, t: nat) returns (m: nat)
    requires Legal(c) && IsView(s, c.snapshots)
    requires t in Tombs(c, k) && t < s
    requires SnapshotIndex(t, c.snapshots) > 0 || !c.elideRange(k)
    ensures m in Kept(c, k) && t <= m < s
  {
    forall u | u in Tombs(c, k) ensures u < SEQ_MAX {
      TombBound(c, k, u);
    }
    m := StandIn(Tombs(c, k), c.snapshots, c.elideRange(k), s, t);
  }

  /** Thinning keeps what lies below hidden, or nothing lies below. */
  lemma MaskKept(c: Config, k: Key, s: nat, below: Option<Value>)
    requires Legal(c) && IsView(s, c.snapshots) && HonestElision(c, k, below)
    ensures Masked(Kept(c, k), s, below) == Masked(Tombs(c, k), s, below)
  {
    if t :| t in Tombs(c, k) && t < s {
      if SnapshotIndex(t, c.snapshots) > 0 || !c.elideRange(k) {
        var m := KeptStandsIn(c, k, s, t);
      }
    }
  }

  /** An entry that is emitted is hidden from a view by the kept tombstones just
      when its original is hidden by all of them, zeroed or not. */
  lemma CoverKept(c: Config, k: Key, s: nat, i: nat, q: nat)
    requires Legal(c) && IsView(s, c.snapshots)
    requires i < |c.input| && c.input[i].ukey == k && c.input[i].seqNum < s && !Covered(c, i)
    requires q == c.input[i].seqNum || (q == 0 && c.elideRange(k) && Stripe(c, i) == 0)
    ensures CoveredAt(Kept(c, k), q, s) == CoveredAt(Tombs(c, k), c.input[i].seqNum, s)
  {
    var p := c.input[i].seqNum;
    if CoveredAt(Tombs(c, k), p, s) {
      var t :| t in Tombs(c, k) && p < t < s;
      assert StripeBound(Stripe(c, i), c.snapshots) <= t;
      TombBound(c, k, t);
      assert WellFormed(c.input[i]);
      StripeBelowBound(p, c.snapshots, t);
      StripesDescend(t, p, c.snapshots);
      assert SnapshotIndex(t, c.snapshots) > Stripe(c, i);
      var m := KeptStandsIn(c, k, s, t);
      assert m in Kept(c, k) && q < m < s;
    }
    if CoveredAt(Kept(c, k), q, s) {
      var t :| t in Kept(c, k) && q < t < s;
      assert t in Tombs(c, k) && p < t;
    }
  }

  // ---------------------------------------------------------------- unfolding

  ghost function ReadIn(c: Config, k: Key, s: nat, below: Option<Value>, i: nat): Option<Value>
    requires i <= |c.input|
  {
    Read(c.input[i..], c.merge, k, s, Tombs(c, k), Masked(Tombs(c, k), s, below))
  }

  ghost function ReadOut(c: Config, k: Key, s: nat, below: Option<Value>, o: Output): Option<Value> {
    Read(Entries(o), c.merge, k, s, Kept(c, k), Masked(Kept(c, k), s, below))
  }

  lemma ReadInStep(c: Config, k: Key, s: nat, below: Option<Value>, i: nat)
    requires i < |c.input|
    ensures ReadIn(c, k, s, below, i) ==
            if !Sees(c.input[i], k, s) then ReadIn(c, k, s, below, i + 1)
            else if CoveredAt(Tombs(c, k), c.input[i].seqNum, s) then None
            else Apply(c.merge, c.input[i].kind, c.input[i].value, ReadIn(c, k, s, below, i + 1))
  {
    assert c.input[i..][1..] == c.input[i + 1..];
  }

  lemma ReadOutStep(c: Config, k: Key, s: nat, below: Option<Value>, e: Entry, o: Output)
    ensures ReadOut(c, k, s, below, Emit(e, o)) ==
            if !Sees(e, k, s) then ReadOut(c, k, s, below, o)
            else if CoveredAt(Kept(c, k), e.seqNum, s) then None
            else Apply(c.merge, e.kind, e.value, ReadOut(c, k, s, below, o))
  {
    assert ([e] + Entries(o))[1..] == Entries(o);
  }

  // --------------------------------------------------------- runs of a stripe

  lemma SeesStripe(c: Config, s: nat, i: nat)
    requires Legal(c) && IsView(s, c.snapshots) && i < |c.input|
    ensures c.input[i].seqNum < s <==> StripeBound(Stripe(c, i), c.snapshots) <= s
  {
    assert WellFormed(c.input[i]);
    ViewSeesWholeStripes(s, c.input[i].seqNum, c.snapshots);
  }

  /** Entries of one run share key and stripe. */
  lemma {:induction false} SameRun(c: Config, i: nat, j: nat)
    requires i <= j < |c.input| && forall x :: i < x <= j ==> Same(c, x)
    ensures c.input[j].ukey == c.input[i].ukey && Stripe(c, j) == Stripe(c, i)
    decreases j - i
  {
    if i < j {
      assert Same(c, j);
      SameRun(c, i, j - 1);
    }
  }

  /** Skipping part of a run that the view does not see changes nothing. */
  lemma {:induction false} SkipUnseen(c: Config, k: Key, s: nat, below: Option<Value>, i: nat, j: nat)
    requires Legal(c) && IsView(s, c.snapshots)
    requires i < j <= |c.input| && forall x :: i < x < j ==> Same(c, x)
    requires c.input[i].ukey != k || s <= c.input[i].seqNum
    ensures ReadIn(c, k, s, below, i) == ReadIn(c, k, s, below, j)
    decreases j - i
  {
    if i + 1 < j {
      SkipUnseen(c, k, s, below, i, j - 1);
      SameRun(c, i, j - 1);
      SeesStripe(c, s, i);
      SeesStripe(c, s, j - 1);
    }
    ReadInStep(c, k, s, below, j - 1);
  }

  /** With `skip`, only range tombstones are emitted up to the stripe's end. */
  lemma {:induction false} OutSkip(c: Config, k: Key, s: nat, below: Option<Value>, i: nat)
    requires i <= |c.input| && Same(c, i)
    ensures ReadOut(c, k, s, below, Out(c, i, true)) == ReadOut(c, k, s, below, Out(c, StripeEnd(c, i), false))
    ensures Fails(Out(c, i, true)) == Fails(Out(c, StripeEnd(c, i), false))
    decreases |c.input| - i
  {
    if c.input[i].RangeDel? {
      ReadOutStep(c, k, s, below, c.input[i], Out(c, i + 1, Same(c, i + 1)));
    }
    if Same(c, i + 1) {
      OutSkip(c, k, s, below, i + 1);
    }
  }

  /** Nothing older than a visible range tombstone shows. */
  lemma {:induction false} CoveredRest(c: Config, k: Key, s: nat, below: Option<Value>, i: nat, t: nat)
    requires i <= |c.input| && t in Tombs(c, k) && t < s
    requires forall x :: i <= x < |c.input| && c.input[x].ukey == k && c.input[x].Point? ==> c.input[x].seqNum < t
    ensures ReadIn(c, k, s, below, i) == None
    decreases |c.input| - i
  {
    if i < |c.input| {
      ReadInStep(c, k, s, below, i);
      if !Sees(c.input[i], k, s) {
        CoveredRest(c, k, s, below, i + 1, t);
      }
    }
  }

  /** Beyond a run in the bottom stripe the key has no more entries. */
  lemma {:induction false} BottomRest(c: Config, k: Key, s: nat, below: Option<Value>, i: nat, j: nat)
    requires Legal(c)
    requires i < j <= |c.input| && c.input[i].ukey == k && Stripe(c, i) == 0
    requires forall x :: j <= x < |c.input| ==> c.input[x].ukey != k
    ensures ReadIn(c, k, s, below, j) == Masked(Tombs(c, k), s, below)
    decreases |c.input| - j
  {
    if j < |c.input| {
      ReadInStep(c, k, s, below, j);
      BottomRest(c, k, s, below, i, j + 1);
    }
  }

  lemma {:induction false} BottomIsLast(c: Config, i: nat, j: nat, x: nat)
    requires Legal(c)
    requires i < j <= x < |c.input| && Stripe(c, i) == 0 && !Same(c, j) && forall y :: i < y < j ==> Same(c, y)
    ensures c.input[x].ukey != c.input[i].ukey
  {
    SameRun(c, i, j - 1);
    assert Precedes(c.input[j - 1], c.input[j]);
    assert j < x ==> Precedes(c.input[j], c.input[x]);
    BottomStripe(c, j - 1, j);
  }

  lemma BottomStripe(c: Config, i: nat, j: nat)
    requires Legal(c) && i < |c.input| && j < |c.input|
    ensures Stripe(c, i) == 0 && c.input[j].seqNum <= c.input[i].seqNum ==> Stripe(c, j) == 0
  {
    if |c.snapshots| > 0 {
      assert Stripe(c, i) == 0 ==> c.input[i].seqNum < c.snapshots[0];
    }
  }

  // ------------------------------------------------------------------- merges

  /** Within a stripe the view does not see through, the code's check is exact. */
  lemma CoverInStripe(c: Config, k: Key, s: nat, i: nat, j: nat)
    requires Legal(c) && IsView(s, c.snapshots)
    requires i < j < |c.input| && c.input[i].ukey == k == c.input[j].ukey && Stripe(c, i) == Stripe(c, j)
    requires c.input[i].seqNum < s && !CoveredAt(Tombs(c, k), c.input[i].seqNum, s)
    ensures CoveredAt(Tombs(c, k), c.input[j].seqNum, s) == Covered(c, j)
  {
    var bound := StripeBound(Stripe(c, j), c.snapshots);
    SeesStripe(c, s, i);
    if CoveredAt(Tombs(c, k), c.input[j].seqNum, s) {
      var t :| t in Tombs(c, k) && c.input[j].seqNum < t < s;
      assert WellFormed(c.input[i]);
      StripeBelowBound(c.input[i].seqNum, c.snapshots, t);
      assert t < bound;
    }
  }

  /** mergeNext folds to the left what the reader folds to the right. */
  lemma {:induction false} ScanMergeReads(c: Config, k: Key, s: nat, below: Option<Value>, i: nat, j: nat, acc: Value)
    requires Legal(c) && IsView(s, c.snapshots) && Associative(c.merge)
    requires i < j <= |c.input| && forall x :: i < x < j ==> Same(c, x)
    requires Sees(c.input[i], k, s) && !CoveredAt(Tombs(c, k), c.input[i].seqNum, s)
    ensures var m := ScanMerge(c, j, acc);
            Combine(c.merge, acc, ReadIn(c, k, s, below, j)) ==
            if m.kind.Merge? then Combine(c.merge, m.value, ReadIn(c, k, s, below, m.next)) else Some(m.value)
    decreases |c.input| - j
  {
    if Same(c, j) && c.input[j].Point? {
      SameRun(c, i, j);
      SeesStripe(c, s, i);
      SeesStripe(c, s, j);
      ReadInStep(c, k, s, below, j);
      CoverInStripe(c, k, s, i, j);
      var v := c.input[j].value;
      if c.input[j].kind.Merge? && !Covered(c, j) {
        var older := ReadIn(c, k, s, below, j + 1);
        assert older.Some? ==> AssociatesAt(c.merge, acc, v, older.value);
        assert Combine(c.merge, acc, Combine(c.merge, v, older)) == Combine(c.merge, c.merge(acc, v), older);
        ScanMergeReads(c, k, s, below, i, j + 1, c.merge(acc, v));
      }
    }
  }

  // ----------------------------------------------------------- single deletes

  /** The SET that the SINGLEDEL at `i` would cancel, if there is one. */
  ghost predicate Cancels(c: Config, i: nat, j: nat) {
    && i < j < |c.input| && c.input[i].Point? && c.input[i].kind.SingleDelete?
    && j == SkipSingleDeletes(c, i + 1)
    && Same(c, j) && c.input[j].Point? && c.input[j].kind.Set?
  }

  /** SINGLEDEL has been used as documented: wherever one meets the SET it
      deletes, there is nothing older left to uncover. */
  ghost predicate CancelsSafely(c: Config, k: Key, s: nat, below: Option<Value>) {
    forall i: nat, j: nat :: Cancels(c, i, j) && Sees(c.input[i], k, s) ==> ReadIn(c, k, s, below, j + 1) == None
  }

  // -------------------------------------------------------------- main theorem

  ghost predicate Context(c: Config, k: Key, s: nat, below: Option<Value>) {
    Legal(c) && IsView(s, c.snapshots) && Associative(c.merge) && HonestElision(c, k, below)
        && CancelsSafely(c, k, s, below)
  }

  /** The reads agree from position `i` on, when no stripe is being skipped. */
  ghost predicate Agree(c: Config, k: Key, s: nat, below: Option<Value>, i: nat)
    requires i <= |c.input|
  {
    ReadOut(c, k, s, below, Out(c, i, false)) == ReadIn(c, k, s, below, i)
  }

  lemma BottomSeen(c: Config, s: nat, i: nat)
    requires Legal(c) && IsView(s, c.snapshots) && i < |c.input|
    ensures Stripe(c, i) == 0 ==> c.input[i].seqNum < s
  {
    assert WellFormed(c.input[i]);
    SeesStripe(c, s, i);
    if s in c.snapshots {
      var x :| 0 <= x < |c.snapshots| && c.snapshots[x] == s;
      assert c.snapshots[0] <= c.snapshots[x];
    }
  }

  lemma SeenCovered(c: Config, k: Key, s: nat, below: Option<Value>, i: nat)
    requires Context(c, k, s, below)
    requires i < |c.input| && Sees(c.input[i], k, s) && Covered(c, i)
    ensures ReadIn(c, k, s, below, i) == None
    ensures ReadIn(c, k, s, below, StripeEnd(c, i + 1)) == None
  {
    var e := c.input[i];
    ReadInStep(c, k, s, below, i);
    SeesStripe(c, s, i);
    var t :| t in Tombs(c, k) && e.seqNum < t < StripeBound(Stripe(c, i), c.snapshots);
    forall x | StripeEnd(c, i + 1) <= x < |c.input| && c.input[x].ukey == k && c.input[x].Point?
      ensures c.input[x].seqNum < t
    {
      assert Precedes(c.input[i], c.input[x]);
    }
    CoveredRest(c, k, s, below, StripeEnd(c, i + 1), t);
  }

  lemma SeenElided(c: Config, k: Key, s: nat, below: Option<Value>, i: nat)
    requires Context(c, k, s, below)
    requires i < |c.input| && Sees(c.input[i], k, s) && c.input[i].kind.Tombstone() && Elided(c, i)
    ensures ReadIn(c, k, s, below, i) == None
    ensures ReadIn(c, k, s, below, StripeEnd(c, i + 1)) == None
  {
    ReadInStep(c, k, s, below, i);
    var end := StripeEnd(c, i + 1);
    forall x | end <= x < |c.input| ensures c.input[x].ukey != k {
      BottomIsLast(c, i, end, x);
    }
    BottomRest(c, k, s, below, i, end);
  }

  /** Where reading resumes after a step. */
  ghost function Resume(c: Config, r: Step): nat
    requires !r.Stop? && r.next <= |c.input|
  {
    if r.skip then StripeEnd(c, r.next) else r.next
  }

  /** An entry passed over silently reads as absent, and so does what follows. */
  lemma PassMeaning(c: Config, k: Key, s: nat, below: Option<Value>, i: nat)
    requires Context(c, k, s, below)
    requires i < |c.input| && Sees(c.input[i], k, s) && StepAt(c, i).Pass?
    ensures ReadIn(c, k, s, below, i) == None && ReadIn(c, k, s, below, Resume(c, StepAt(c, i))) == None
  {
    if Covered(c, i) {
      SeenCovered(c, k, s, below, i);
    } else if Dropped(c, i) {
      SeenElided(c, k, s, below, i);
    } else {
      ReadInStep(c, k, s, below, i);
      assert Cancels(c, i, SkipSingleDeletes(c, i + 1));
    }
  }

  /** An entry that is emitted reads like its original. */
  lemma PutMeaning(c: Config, k: Key, s: nat, below: Option<Value>, i: nat)
    requires Context(c, k, s, below)
    requires i < |c.input| && Sees(c.input[i], k, s) && StepAt(c, i).Put?
    requires !CoveredAt(Tombs(c, k), c.input[i].seqNum, s)
    ensures var r := StepAt(c, i);
            ReadIn(c, k, s, below, i) == Apply(c.merge, r.entry.kind, r.entry.value, ReadIn(c, k, s, below, r.next))
  {
    ReadInStep(c, k, s, below, i);
    var v := c.input[i].value;
    match c.input[i].kind
    case Merge =>
      ScanMergeRun(c, i + 1, v);
      ScanMergeReads(c, k, s, below, i, i + 1, v);
    case DeleteSized => ScanSizedKind(c, i + 1, v);
    case _ =>
  }

  lemma PointStep(c: Config, k: Key, s: nat, below: Option<Value>, i: nat)
    requires Context(c, k, s, below)
    requires i < |c.input| && c.input[i].Point? && !StepAt(c, i).Stop?
    requires var r := StepAt(c, i); var at := Resume(c, r);
             Agree(c, k, s, below, at)
                 && ReadOut(c, k, s, below, Out(c, r.next, r.skip)) == ReadOut(c, k, s, below, Out(c, at, false))
    ensures Agree(c, k, s, below, i)
  {
    var e, r := c.input[i], StepAt(c, i);
    StepShape(c, i);
    if r.Put? {
      ReadOutStep(c, k, s, below, r.entry, Out(c, r.next, r.skip));
    }
    BottomSeen(c, s, i);
    if Sees(e, k, s) {
      ReadInStep(c, k, s, below, i);
      if r.Pass? {
        PassMeaning(c, k, s, below, i);
      } else {
        CoverKept(c, k, s, i, r.entry.seqNum);
        if !CoveredAt(Tombs(c, k), e.seqNum, s) {
          PutMeaning(c, k, s, below, i);
        }
      }
    } else {
      SkipUnseen(c, k, s, below, i, Resume(c, r));
    }
  }

  lemma {:induction false} AgreeFrom(c: Config, k: Key, s: nat, below: Option<Value>, i: nat)
    requires Context(c, k, s, below)
    requires i <= |c.input| && !Fails(Out(c, i, false))
    ensures Agree(c, k, s, below, i)
    decreases |c.input| - i
  {
    if i == |c.input| {
      MaskKept(c, k, s, below);
    } else if c.input[i].RangeDel? {
      AgreeFrom(c, k, s, below, i + 1);
      ReadInStep(c, k, s, below, i);
      ReadOutStep(c, k, s, below, c.input[i], Out(c, i + 1, false));
    } else {
      var r := StepAt(c, i);
      if r.skip {
        OutSkip(c, k, s, below, r.next);
      }
      AgreeFrom(c, k, s, below, Resume(c, r));
      PointStep(c, k, s, below, i);
    }
  }

  /** Every view of every key survives, over any lower-level contents allowed by
      the elision rules. */
  lemma CompactionPreservesReads(c: Config, k: Key, s: nat, below: Option<Value>)
    requires Legal(c) && Associative(c.merge)
    requires IsView(s, c.snapshots)
    requires HonestElision(c, k, below)
    requires CancelsSafely(c, k, s, below)
    requires !Fails(Compact(c))
    ensures Read(Entries(Compact(c)), c.merge, k, s, Kept(c, k), Masked(Kept(c, k), s, below)) ==
            Read(c.input, c.merge, k, s, Tombs(c, k), Masked(Tombs(c, k), s, below))
  {
    AgreeFrom(c, k, s, below, 0);
    assert c.input[0..] == c.input;
  }

  /** For a key never single-deleted nothing is asked of the writer. */
  lemma CompactionPreservesPlainReads(c: Config, k: Key, s: nat, below: Option<Value>)
    requires Legal(c) && Associative(c.merge)
    requires IsView(s, c.snapshots)
    requires HonestElision(c, k, below)
    requires forall i :: 0 <= i < |c.input| && c.input[i].Point? && c.input[i].ukey == k ==>
               !c.input[i].kind.SingleDelete?
    requires !Fails(Compact(c))
    ensures Read(Entries(Compact(c)), c.merge, k, s, Kept(c, k), Masked(Kept(c, k), s, below)) ==
            Read(c.input, c.merge, k, s, Tombs(c, k), Masked(Tombs(c, k), s, below))
  {
    CompactionPreservesReads(c, k, s, below);
  }
}
