/**
 The output of a compaction is again legal input: per user key the emitted
 sequence numbers strictly decrease, so the order check in nextInStripeHelper
 cannot fire on a later pass.
 */
module CompactionOrder {
  import opened Basics
  import opened Lsm
  import opened Compaction
  import opened CompactionReads
  import opened RangeDelThinning

  /** Each emitted point stands for an input entry further on. */
  lemma {:induction false} SourceOf(c: Config, i: nat, skip: bool, p: Entry) returns (j: nat)
    requires i <= |c.input| && (skip ==> Same(c, i))
    requires p in Entries(Out(c, i, skip)) && p.Point?
    ensures i <= j < |c.input| && StandsFor(c, j, p)
    ensures skip ==> StripeEnd(c, i) <= j
    decreases |c.input| - i
  {
    if c.input[i].RangeDel? {
      j := SourceOf(c, i + 1, skip && Same(c, i + 1), p);
    } else if skip {
      j := SourceOf(c, i + 1, Same(c, i + 1), p);
    } else {
      var r := StepAt(c, i);
      StepShape(c, i);
      if r.Put? && p == r.entry {
        j := i;
      } else {
        j := SourceOf(c, r.next, r.skip, p);
      }
    }
  }

  /** Sources in one stripe have the same stripe number as what stands for them. */
  lemma StandInStripe(c: Config, i: nat, e: Entry)
    requires Legal(c) && i < |c.input| && StandsFor(c, i, e)
    ensures SnapshotIndex(e.seqNum, c.snapshots) == Stripe(c, i)
  {
    if |c.snapshots| > 0 {
      assert 0 < c.snapshots[0];
    }
  }

  /** Between two entries of one key and stripe there is no stripe change. */
  lemma {:induction false} StripesAreRuns(c: Config, i: nat, j: nat)
    requires Legal(c) && i <= j < |c.input|
    requires c.input[i].ukey == c.input[j].ukey && Stripe(c, i) == Stripe(c, j)
    ensures forall x :: i < x <= j ==> Same(c, x)
    decreases j - i
  {
    if i < j {
      assert Precedes(c.input[i], c.input[j]);
      assert Precedes(c.input[j - 1], c.input[j]);
      assert i < j - 1 ==> Precedes(c.input[i], c.input[j - 1]);
      StripeOrder(c, i, j - 1);
      StripeOrder(c, j - 1, j);
      StripesAreRuns(c, i, j - 1);
    }
  }

  lemma StripeOrder(c: Config, i: nat, j: nat)
    requires Legal(c) && i < |c.input| && j < |c.input|
    ensures c.input[j].seqNum <= c.input[i].seqNum ==> Stripe(c, j) <= Stripe(c, i)
  {
    if c.input[j].seqNum <= c.input[i].seqNum {
      StripesDescend(c.input[i].seqNum, c.input[j].seqNum, c.snapshots);
    }
  }

  /** A range tombstone of the key and stripe lies between the two. */
  ghost predicate Interleaved(c: Config, i: nat, j: nat)
    requires i < j < |c.input|
  {
    exists x {:trigger c.input[x]} :: i < x < j && c.input[x].RangeDel? && c.input[x].ukey == c.input[i].ukey
        && Stripe(c, x) == Stripe(c, i)
  }

  /** The two points stand for the entries at i and j, and share a user key and a
      stripe only if those are interleaved. */
  ghost predicate Sourced(c: Config, a: Entry, b: Entry, i: nat, j: nat) {
    && i < j < |c.input| && StandsFor(c, i, a) && StandsFor(c, j, b)
    && (a.ukey == b.ukey && SnapshotIndex(a.seqNum, c.snapshots) == SnapshotIndex(b.seqNum, c.snapshots) ==>
        Interleaved(c, i, j))
  }

  /** What two emitted points, the first of them earlier, satisfy. */
  ghost predicate Ordered(c: Config, a: Entry, b: Entry) {
    Precedes(a, b) && exists i: nat, j: nat :: Sourced(c, a, b, i, j)
  }

  lemma PutBeforeRest(c: Config, i: nat, p: Entry)
    requires Legal(c) && i < |c.input| && c.input[i].Point? && StepAt(c, i).Put?
    requires var r := StepAt(c, i); p in Entries(Out(c, r.next, r.skip)) && p.Point?
    ensures Ordered(c, StepAt(c, i).entry, p)
  {
    var r := StepAt(c, i);
    var e := r.entry;
    StepShape(c, i);
    var j := SourceOf(c, r.next, r.skip, p);
    assert Precedes(c.input[i], c.input[j]);
    StandInStripe(c, i, e);
    StandInStripe(c, j, p);
    if p.ukey == e.ukey {
      if Stripe(c, i) == Stripe(c, j) {
        StripesAreRuns(c, i, j);
        assert Same(c, r.next) && !r.skip;
        SameRun(c, i, r.next);
        assert c.input[r.next].RangeDel? && i < r.next < j;
      } else {
        assert e.seqNum == c.input[i].seqNum || Stripe(c, i) == 0;
        BottomStripe(c, i, j);
      }
    }
    assert Sourced(c, e, p, i, j);
  }

  ghost predicate PointsBefore(c: Config, e: Entry, rest: Output) {
    e.Point? ==> forall p :: p in Entries(rest) && p.Point? ==> Ordered(c, e, p)
  }

  lemma PutBeforeAll(c: Config, i: nat)
    requires Legal(c) && i < |c.input| && c.input[i].Point? && StepAt(c, i).Put?
    ensures var r := StepAt(c, i); PointsBefore(c, r.entry, Out(c, r.next, r.skip))
  {
    var r := StepAt(c, i);
    forall p | p in Entries(Out(c, r.next, r.skip)) && p.Point? ensures Ordered(c, r.entry, p) {
      PutBeforeRest(c, i, p);
    }
  }

  ghost predicate AllOrdered(c: Config, o: Output) {
    o.Emit? ==> PointsBefore(c, o.entry, o.rest) && AllOrdered(c, o.rest)
  }

  lemma {:induction false} OutOrdered(c: Config, i: nat, skip: bool)
    requires Legal(c) && i <= |c.input| && (skip ==> Same(c, i))
    ensures AllOrdered(c, Out(c, i, skip))
    decreases |c.input| - i
  {
    if i == |c.input| {
    } else if c.input[i].RangeDel? {
      OutOrdered(c, i + 1, skip && Same(c, i + 1));
    } else if skip {
      OutOrdered(c, i + 1, Same(c, i + 1));
    } else {
      var r := StepAt(c, i);
      if !r.Stop? {
        OutOrdered(c, r.next, r.skip);
        if r.Put? {
          PutBeforeAll(c, i);
        }
      }
    }
  }

  lemma {:induction false} OrderedAt(c: Config, o: Output, a: nat, b: nat)
    requires AllOrdered(c, o)
    requires a < b < |Entries(o)| && Entries(o)[a].Point? && Entries(o)[b].Point?
    ensures Ordered(c, Entries(o)[a], Entries(o)[b])
  {
    if a > 0 {
      OrderedAt(c, o.rest, a - 1, b - 1);
    } else {
      assert Entries(o)[b] == Entries(o.rest)[b - 1];
    }
  }

  /** Emitted points are in strict internal key order, and two of them share a
      user key and stripe only where a range tombstone of both lies between the
      entries they stand for. */
  lemma OutputOrdered(c: Config, a: nat, b: nat)
    requires Legal(c)
    requires var es := Entries(Compact(c)); a < b < |es| && es[a].Point? && es[b].Point?
    ensures var es := Entries(Compact(c)); Ordered(c, es[a], es[b])
  {
    OutOrdered(c, 0, false);
    OrderedAt(c, Compact(c), a, b);
  }

  /** At most one emitted entry of a user key has its number zeroed. */
  lemma ZeroedOnce(c: Config, a: nat, b: nat)
    requires Legal(c)
    requires var es := Entries(Compact(c)); a < |es| && b < |es| && es[a].Point? && es[b].Point?
    requires var es := Entries(Compact(c)); es[a].ukey == es[b].ukey && es[a].seqNum == 0 == es[b].seqNum
    ensures a == b
  {
    if a < b {
      OutputOrdered(c, a, b);
    } else if b < a {
      OutputOrdered(c, b, a);
    }
  }

  function Points(es: seq<Entry>): seq<Entry> {
    if es == [] then [] else (if es[0].Point? then [es[0]] else []) + Points(es[1..])
  }

  lemma {:induction false} PointsAre(es: seq<Entry>, e: Entry)
    ensures e in Points(es) <==> e in es && e.Point?
  {
    if es != [] {
      PointsAre(es[1..], e);
      assert e in es <==> e == es[0] || e in es[1..];
    }
  }

  lemma {:induction false} PointsSorted(c: Config, o: Output)
    requires AllOrdered(c, o)
    ensures Sorted(Points(Entries(o)))
  {
    hide Ordered;
    if o.Emit? {
      PointsSorted(c, o.rest);
      var es, rest := Entries(o), Points(Entries(o.rest));
      assert es[1..] == Entries(o.rest);
      forall p | p in rest && o.entry.Point? ensures Precedes(o.entry, p) {
        PointsAre(Entries(o.rest), p);
        OrderedPrecedes(c, o.entry, p);
      }
      if o.entry.Point? {
        SortedCons(o.entry, rest);
      }
      assert Points(es) == if o.entry.Point? then [o.entry] + rest else rest;
    }
  }

  lemma OrderedPrecedes(c: Config, a: Entry, b: Entry)
    requires Ordered(c, a, b)
    ensures Precedes(a, b)
  {
  }

  lemma SortedCons(e: Entry, es: seq<Entry>)
    requires Sorted(es) && forall p :: p in es ==> Precedes(e, p)
    ensures Sorted([e] + es)
  {
    var all := [e] + es;
    forall i, j {:trigger Precedes(all[i], all[j])} | 0 <= i < j < |all| ensures Precedes(all[i], all[j]) {
      assert all[j] == es[j - 1];
      assert i > 0 ==> Precedes(es[i - 1], es[j - 1]);
    }
  }

  // ------------------------------------------------------------------ the tombstones written

  /** A fragment of range tombstones as the compaction writes it: what thinning leaves
      of all tombstones over it. */
  ghost predicate Written(c: Config, e: Entry) {
    && e.RangeDel? && e.ukey < e.end && e.seqs != [] && e.seqNum == e.seqs[0]
    && exists ks :: Over(c, e, ks) && e.seqs == Filter(ks, -1, c.snapshots, c.elideRange(e.ukey))
  }

  /** The tombstones over the fragment, newest first. */
  ghost predicate Over(c: Config, e: Entry, ks: seq<nat>)
    requires e.RangeDel?
  {
    && Descending(ks)
    && forall k {:trigger Tombs(c, k)} :: e.ukey <= k < e.end ==>
         ToSet(ks) == Tombs(c, k) && c.elideRange(k) == c.elideRange(e.ukey)
  }

  /** The fragments written, in order and disjoint. */
  ghost predicate Fragments(c: Config, rs: seq<Entry>) {
    && (forall i {:trigger rs[i]} :: 0 <= i < |rs| ==> Written(c, rs[i]))
    && (forall i, j {:trigger rs[i], rs[j]} :: 0 <= i < j < |rs| ==> rs[i].end <= rs[j].ukey)
  }

  lemma {:induction false} FilterDescends(ks: seq<nat>, cur: int, snapshots: seq<nat>, elide: bool)
    requires Descending(ks)
    ensures var r := Filter(ks, cur, snapshots, elide);
            Descending(r) && forall i :: 0 <= i < |r| ==> r[i] in ks
  {
    if ks != [] {
      hide SnapshotIndex;
      var idx, rest := SnapshotIndex(ks[0], snapshots), ks[1..];
      FilterDescends(rest, if idx == cur then cur else idx, snapshots, elide);
      assert forall k :: k in rest ==> k in ks && k <= ks[0];
    }
  }

  /** Over its keys a fragment holds exactly the tombstones kept. */
  lemma WrittenIsKept(c: Config, e: Entry, k: Key)
    requires Legal(c) && Written(c, e) && e.ukey <= k < e.end
    ensures ToSet(e.seqs) == Kept(c, k)
  {
    var ks :| Over(c, e, ks) && e.seqs == Filter(ks, -1, c.snapshots, c.elideRange(e.ukey));
    FilterIsThinned(ks, c.snapshots, c.elideRange(e.ukey));
  }

  lemma WrittenWellFormed(c: Config, e: Entry)
    requires Legal(c) && Written(c, e)
    ensures WellFormed(e)
  {
    var ks :| Over(c, e, ks) && e.seqs == Filter(ks, -1, c.snapshots, c.elideRange(e.ukey));
    FilterDescends(ks, -1, c.snapshots, c.elideRange(e.ukey));
    assert e.seqNum in ToSet(ks);
    TombBound(c, e.ukey, e.seqNum);
  }

  // ------------------------------------------------------------------ the next compaction

  /** The range tombstone comes first. */
  predicate Leads(r: Entry, p: Entry) {
    r.ukey < p.ukey || (r.ukey == p.ukey && p.seqNum <= r.seqNum)
  }

  /** Points and range tombstones merged into internal key order. */
  function Merged(ps: seq<Entry>, rs: seq<Entry>): seq<Entry>
    decreases |ps| + |rs|
  {
    if ps == [] then rs
    else if rs == [] then ps
    else if Leads(rs[0], ps[0]) then [rs[0]] + Merged(ps, rs[1..])
    else [ps[0]] + Merged(ps[1..], rs)
  }

  lemma {:induction false} MergedMembers(ps: seq<Entry>, rs: seq<Entry>, e: Entry)
    ensures e in Merged(ps, rs) <==> e in ps || e in rs
    decreases |ps| + |rs|
  {
    if ps != [] && rs != [] {
      if Leads(rs[0], ps[0]) {
        MergedMembers(ps, rs[1..], e);
        assert rs == [rs[0]] + rs[1..];
      } else {
        MergedMembers(ps[1..], rs, e);
        assert ps == [ps[0]] + ps[1..];
      }
    }
  }

  ghost predicate OfPoints(ps: seq<Entry>) {
    forall e :: e in ps ==> e.Point?
  }

  ghost predicate OfTombs(rs: seq<Entry>) {
    forall e :: e in rs ==> e.RangeDel?
  }

  lemma {:induction false} MergedSorted(ps: seq<Entry>, rs: seq<Entry>)
    requires Sorted(ps) && Sorted(rs) && OfPoints(ps) && OfTombs(rs)
    ensures Sorted(Merged(ps, rs))
    decreases |ps| + |rs|
  {
    if ps != [] && rs != [] {
      assert ps[0] in ps && rs[0] in rs;
      if Leads(rs[0], ps[0]) {
        SortedTail(rs);
        MergedSorted(ps, rs[1..]);
        forall e | e in Merged(ps, rs[1..]) ensures Precedes(rs[0], e) {
          MergedMembers(ps, rs[1..], e);
          FirstPrecedes(ps, e);
          FirstPrecedes(rs, e);
        }
        SortedCons(rs[0], Merged(ps, rs[1..]));
      } else {
        SortedTail(ps);
        MergedSorted(ps[1..], rs);
        forall e | e in Merged(ps[1..], rs) ensures Precedes(ps[0], e) {
          MergedMembers(ps[1..], rs, e);
          FirstPrecedes(ps, e);
          FirstPrecedes(rs, e);
        }
        SortedCons(ps[0], Merged(ps[1..], rs));
      }
    }
  }

  lemma SortedTail(es: seq<Entry>)
    requires Sorted(es) && es != []
    ensures Sorted(es[1..])
  {
    forall i, j {:trigger Precedes(es[1..][i], es[1..][j])} | 0 <= i < j < |es| - 1
      ensures Precedes(es[1..][i], es[1..][j])
    {
      assert Precedes(es[i + 1], es[j + 1]);
    }
  }

  lemma FirstPrecedes(es: seq<Entry>, e: Entry)
    requires Sorted(es) && es != []
    ensures e in es[1..] ==> Precedes(es[0], e)
    ensures e in es ==> e == es[0] || Precedes(es[0], e)
  {
    if e in es {
      var i :| 0 <= i < |es| && es[i] == e;
      if i > 0 {
        assert Precedes(es[0], es[i]);
      }
    }
    if e in es[1..] {
      var i :| 0 <= i < |es| - 1 && es[1..][i] == e;
      assert Precedes(es[0], es[i + 1]);
    }
  }

  lemma FragmentsSorted(c: Config, rs: seq<Entry>)
    requires Fragments(c, rs)
    ensures Sorted(rs) && OfTombs(rs)
  {
    hide Over;
    forall i, j {:trigger Precedes(rs[i], rs[j])} | 0 <= i < j < |rs| ensures Precedes(rs[i], rs[j]) {
      assert Written(c, rs[i]) && rs[i].end <= rs[j].ukey;
    }
  }

  /** Whatever its snapshots and settings, a compaction of the points emitted and the
      range tombstones written is given legal input. */
  lemma OutputIsLegalInput(c: Config, c': Config, rs: seq<Entry>)
    requires Legal(c) && Ascending(c'.snapshots) && Fragments(c, rs)
    requires c'.input == Merged(Points(Entries(Compact(c))), rs)
    ensures Legal(c')
  {
    hide Written, AllOrdered, Precedes, Merged, Fragments;
    var ps := Points(Entries(Compact(c)));
    OutOrdered(c, 0, false);
    PointsSorted(c, Compact(c));
    forall e | e in ps ensures e.Point? {
      PointsAre(Entries(Compact(c)), e);
    }
    FragmentsSorted(c, rs);
    MergedSorted(ps, rs);
    forall i {:trigger WellFormed(c'.input[i])} | 0 <= i < |c'.input| ensures WellFormed(c'.input[i]) {
      MergedMembers(ps, rs, c'.input[i]);
      OutputWellFormed(c, rs, c'.input[i]);
    }
  }

  lemma OutputWellFormed(c: Config, rs: seq<Entry>, e: Entry)
    requires Legal(c) && Fragments(c, rs) && (e in Points(Entries(Compact(c))) || e in rs)
    ensures WellFormed(e)
  {
    if e in rs {
      var i :| 0 <= i < |rs| && rs[i] == e;
      WrittenWellFormed(c, e);
    } else {
      PointsAre(Entries(Compact(c)), e);
      var j := SourceOf(c, 0, false, e);
      assert WellFormed(c.input[j]);
    }
  }

  // ------------------------------------------------------------------ reading it again

  /** Where tombstones are kept a fragment was written. */
  ghost predicate AllWritten(c: Config, rs: seq<Entry>, k: Key) {
    Kept(c, k) != {} ==> exists r :: r in rs && r.RangeDel? && r.ukey <= k < r.end
  }

  /** The next compaction finds over each key the tombstones kept by this one. */
  lemma TombsAgain(c: Config, c': Config, rs: seq<Entry>, k: Key)
    requires Legal(c) && Fragments(c, rs) && AllWritten(c, rs, k)
    requires c'.input == Merged(Points(Entries(Compact(c))), rs)
    ensures Tombs(c', k) == Kept(c, k)
  {
    hide Kept, Over, Merged, Compact, Points;
    forall t | t in Tombs(c', k) ensures t in Kept(c, k) {
      var i, j :| 0 <= i < |c'.input| && c'.input[i].RangeDel? && c'.input[i].ukey <= k < c'.input[i].end
                  && 0 <= j < |c'.input[i].seqs| && c'.input[i].seqs[j] == t;
      var e := c'.input[i];
      MergedMembers(Points(Entries(Compact(c))), rs, e);
      PointsAre(Entries(Compact(c)), e);
      var x :| 0 <= x < |rs| && rs[x] == e;
      WrittenIsKept(c, e, k);
      assert t in ToSet(e.seqs);
    }
    forall t | t in Kept(c, k) ensures t in Tombs(c', k) {
      var r :| r in rs && r.RangeDel? && r.ukey <= k < r.end;
      var x :| 0 <= x < |rs| && rs[x] == r;
      WrittenIsKept(c, r, k);
      assert t in ToSet(r.seqs);
      var j :| 0 <= j < |r.seqs| && r.seqs[j] == t;
      MergedMembers(Points(Entries(Compact(c))), rs, r);
      var i :| 0 <= i < |c'.input| && c'.input[i] == r;
    }
  }

  lemma {:induction false} MergedReads(ps: seq<Entry>, rs: seq<Entry>, merge: MergeOp, k: Key, s: nat, ts: set<nat>,
                                       base: Option<Value>)
    requires OfTombs(rs)
    ensures Read(Merged(ps, rs), merge, k, s, ts, base) == Read(ps, merge, k, s, ts, base)
    decreases |ps| + |rs|
  {
    if ps == [] {
      if rs != [] {
        assert rs[0] in rs;
        MergedReads([], rs[1..], merge, k, s, ts, base);
      }
    } else if rs != [] {
      assert rs[0] in rs;
      if Leads(rs[0], ps[0]) {
        MergedReads(ps, rs[1..], merge, k, s, ts, base);
        assert Merged(ps, rs)[1..] == Merged(ps, rs[1..]);
      } else {
        MergedReads(ps[1..], rs, merge, k, s, ts, base);
        assert Merged(ps, rs)[1..] == Merged(ps[1..], rs);
      }
    }
  }

  lemma {:induction false} PointsRead(es: seq<Entry>, merge: MergeOp, k: Key, s: nat, ts: set<nat>, base: Option<Value>)
    ensures Read(Points(es), merge, k, s, ts, base) == Read(es, merge, k, s, ts, base)
  {
    if es != [] {
      PointsRead(es[1..], merge, k, s, ts, base);
      if es[0].Point? {
        assert Points(es)[1..] == Points(es[1..]);
      } else {
        assert Points(es) == Points(es[1..]);
      }
    }
  }

  /** What the next compaction reads in its input is what this one's output reads. */
  lemma OutputReadsAgain(c: Config, c': Config, rs: seq<Entry>, k: Key, s: nat, below: Option<Value>)
    requires Legal(c) && Fragments(c, rs) && AllWritten(c, rs, k)
    requires c'.input == Merged(Points(Entries(Compact(c))), rs) && c'.merge == c.merge
    ensures ReadIn(c', k, s, below, 0) == ReadOut(c, k, s, below, Compact(c))
  {
    hide Read, Merged, Points, Compact, Tombs, Kept, Fragments;
    TombsAgain(c, c', rs, k);
    FragmentsSorted(c, rs);
    var ps, base := Points(Entries(Compact(c))), Masked(Kept(c, k), s, below);
    assert c'.input[0..] == c'.input;
    MergedReads(ps, rs, c.merge, k, s, Kept(c, k), base);
    PointsRead(Entries(Compact(c)), c.merge, k, s, Kept(c, k), base);
  }

  /** So two compactions in a row leave every view both of them have as it was. */
  lemma CompactedTwice(c: Config, c': Config, rs: seq<Entry>, k: Key, s: nat, below: Option<Value>)
    requires Legal(c) && Fragments(c, rs) && AllWritten(c, rs, k) && Ascending(c'.snapshots)
    requires c'.input == Merged(Points(Entries(Compact(c))), rs) && c'.merge == c.merge && Associative(c.merge)
    requires IsView(s, c.snapshots) && IsView(s, c'.snapshots) && !Fails(Compact(c)) && !Fails(Compact(c'))
    requires HonestElision(c, k, below) && HonestElision(c', k, below)
    requires CancelsSafely(c, k, s, below) && CancelsSafely(c', k, s, below)
    ensures ReadOut(c', k, s, below, Compact(c')) == ReadIn(c, k, s, below, 0)
  {
    hide Legal, Fragments, AllWritten, Merged, Points, Compact, Read, Masked, HonestElision, CancelsSafely;
    assert c.input[0..] == c.input && c'.input[0..] == c'.input;
    OutputIsLegalInput(c, c', rs);
    OutputReadsAgain(c, c', rs, k, s, below);
    CompactionPreservesReads(c, k, s, below);
    CompactionPreservesReads(c', k, s, below);
  }
}
