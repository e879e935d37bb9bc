/**
 The vocabulary shared by compaction and point reads: internal keys, snapshots
 and the simple reader against which both are measured.
 */
module Lsm {
  import opened Basics

  type Value = seq<Byte>

  /** User keys matter only through their order. */
  type Key = int

  /** InternalKeySeqNumMax. */
  const SEQ_MAX: nat := 0xFF_FFFF_FFFF_FFFF

  datatype Kind = Set | SetWithDelete | Delete | SingleDelete | DeleteSized | Merge
  {
    predicate Tombstone() {
      Delete? || SingleDelete? || DeleteSized?
    }
  }

  /** A point entry, or a range tombstone span `[ukey, end)` interleaved at its
      start key and newest sequence number; `seqs` lists all of the span's
      sequence numbers, newest first. */
  datatype Entry =
    | Point(ukey: Key, seqNum: nat, kind: Kind, value: Value)
    | RangeDel(ukey: Key, seqNum: nat, end: Key, seqs: seq<nat>)

  type MergeOp = (Value, Value) -> Value

  ghost predicate AssociatesAt(merge: MergeOp, x: Value, y: Value, z: Value) {
    merge(merge(x, y), z) == merge(x, merge(y, z))
  }

  ghost predicate Associative(merge: MergeOp) {
    forall x, y, z :: AssociatesAt(merge, x, y, z)
  }

  // ---------------------------------------------------------------- snapshots

  ghost predicate Ascending(snapshots: seq<nat>) {
    && (forall i, j :: 0 <= i < j < |snapshots| ==> snapshots[i] < snapshots[j])
    && (forall i :: 0 <= i < |snapshots| ==> 0 < snapshots[i] < SEQ_MAX)
  }

  /** The stripe of a sequence number: how many snapshots do not see it. */
  function SnapshotIndex(q: nat, snapshots: seq<nat>): (idx: nat)
    ensures idx <= |snapshots|
  {
    if snapshots == [] then 0
    else if q < snapshots[0] then 0
    else 1 + SnapshotIndex(q, snapshots[1..])
  }

  /** The index splits the snapshots into those that do not see `q` and those
      that do. */
  lemma {:induction false} SnapshotIndexSplits(q: nat, snapshots: seq<nat>, i: nat)
    requires Ascending(snapshots) && i < |snapshots|
    ensures q < snapshots[i] <==> SnapshotIndex(q, snapshots) <= i
  {
    if snapshots[0] <= q {
      assert forall j :: 0 <= j < |snapshots| - 1 ==> snapshots[1..][j] == snapshots[j + 1];
      if i > 0 {
        SnapshotIndexSplits(q, snapshots[1..], i - 1);
      }
    }
  }

  /** Older entries lie in the same stripe or a lower one. */
  lemma {:induction false} StripesDescend(a: nat, b: nat, snapshots: seq<nat>)
    requires b <= a
    ensures SnapshotIndex(b, snapshots) <= SnapshotIndex(a, snapshots)
  {
    if snapshots != [] {
      StripesDescend(a, b, snapshots[1..]);
    }
  }

  /** A stripe lies below its bound, and a newer number in it reaches no higher. */
  lemma StripeBelowBound(q: nat, snapshots: seq<nat>, t: nat)
    requires Ascending(snapshots) && q < SEQ_MAX
    ensures q < StripeBound(SnapshotIndex(q, snapshots), snapshots)
    ensures q <= t < SEQ_MAX ==>
              (t < StripeBound(SnapshotIndex(q, snapshots), snapshots) <==>
               SnapshotIndex(t, snapshots) == SnapshotIndex(q, snapshots))
  {
    var idx := SnapshotIndex(q, snapshots);
    if q <= t {
      StripesDescend(t, q, snapshots);
    }
    if idx < |snapshots| {
      SnapshotIndexSplits(q, snapshots, idx);
      SnapshotIndexSplits(t, snapshots, idx);
    }
  }

  /** The sequence number bounding the stripe from above. */
  function StripeBound(idx: nat, snapshots: seq<nat>): nat {
    if idx < |snapshots| then snapshots[idx] else SEQ_MAX
  }

  /** The views a compaction has to keep: open snapshots and the latest state. */
  ghost predicate IsView(s: nat, snapshots: seq<nat>) {
    s == SEQ_MAX || s in snapshots
  }

  /** A view sees all of a stripe or none of it. */
  lemma ViewSeesWholeStripes(s: nat, q: nat, snapshots: seq<nat>)
    requires Ascending(snapshots) && IsView(s, snapshots) && q < SEQ_MAX
    ensures q < s <==> StripeBound(SnapshotIndex(q, snapshots), snapshots) <= s
  {
    var idx := SnapshotIndex(q, snapshots);
    if s in snapshots {
      var i :| 0 <= i < |snapshots| && snapshots[i] == s;
      SnapshotIndexSplits(q, snapshots, i);
      if idx < i {
        assert snapshots[idx] < snapshots[i];
      }
    }
  }

  // ------------------------------------------------------------------- reader

  /** A range tombstone newer than `q` hides it from the view `s`. */
  ghost predicate CoveredAt(tombs: set<nat>, q: nat, s: nat) {
    exists t :: t in tombs && q < t < s
  }

  /** What lies below the entries being read is hidden by any visible range
      tombstone among them. */
  ghost function Masked(tombs: set<nat>, s: nat, below: Option<Value>): Option<Value> {
    if exists t :: t in tombs && t < s then None else below
  }

  predicate Sees(e: Entry, k: Key, s: nat) {
    e.Point? && e.ukey == k && e.seqNum < s
  }

  function Combine(merge: MergeOp, newer: Value, older: Option<Value>): Option<Value> {
    match older
    case None => Some(newer)
    case Some(o) => Some(merge(newer, o))
  }

  function Apply(merge: MergeOp, kind: Kind, v: Value, older: Option<Value>): Option<Value> {
    match kind
    case Set | SetWithDelete => Some(v)
    case Delete | SingleDelete | DeleteSized => None
    case Merge => Combine(merge, v, older)
  }

  /** The value of `k` at view `s`, in entries ordered newest first. */
  ghost function Read(es: seq<Entry>, merge: MergeOp, k: Key, s: nat, tombs: set<nat>,
                      base: Option<Value>): Option<Value> {
    if es == [] then base
    else if !Sees(es[0], k, s) then Read(es[1..], merge, k, s, tombs, base)
    else if CoveredAt(tombs, es[0].seqNum, s) then None
    else Apply(merge, es[0].kind, es[0].value, Read(es[1..], merge, k, s, tombs, base))
  }
}
