/**
 emitRangeDelChunk: of the tombstones of one fragment, keep the newest of each
 snapshot stripe, and drop the bottom stripe when it can be elided.
 */
module RangeDelThinning {
  import opened Lsm

  ghost predicate Descending(ks: seq<nat>) {
    forall i, j :: 0 <= i < j < |ks| ==> ks[j] <= ks[i]
  }

  /** The tombstones worth keeping, whatever order they come in. */
  ghost predicate WorthKeeping(ts: set<nat>, snapshots: seq<nat>, elide: bool, t: nat) {
    && t in ts
    && (forall u :: u in ts && SnapshotIndex(u, snapshots) == SnapshotIndex(t, snapshots) ==> u <= t)
    && !(SnapshotIndex(t, snapshots) == 0 && elide)
  }

  ghost function Thinned(ts: set<nat>, snapshots: seq<nat>, elide: bool): set<nat> {
    set t | t in ts && WorthKeeping(ts, snapshots, elide, t)
  }

  /** The filter as a recursion; `cur` is the stripe of the last one kept. */
  function Filter(ks: seq<nat>, cur: int, snapshots: seq<nat>, elide: bool): seq<nat> {
    if ks == [] then []
    else
      var idx := SnapshotIndex(ks[0], snapshots);
      if idx == cur then Filter(ks[1..], cur, snapshots, elide)
      else if idx == 0 then (if elide then [] else [ks[0]])
      else [ks[0]] + Filter(ks[1..], idx, snapshots, elide)
  }

  /** The in-place filter over the fragment's keys; `n` is how many remain. */
  method EmitRangeDelChunk(keys: array<nat>, snapshots: seq<nat>, elide: bool) returns (n: nat)
    modifies keys
    ensures n <= keys.Length
    ensures keys[..n] == Filter(old(keys[..]), -1, snapshots, elide)
  {
    var currentIdx: int := -1;
    n := 0;
    ghost var ks := keys[..];
    for i := 0 to keys.Length
      invariant n <= i
      invariant keys[i..] == ks[i..]
      invariant keys[..n] + Filter(ks[i..], currentIdx, snapshots, elide) == Filter(ks, -1, snapshots, elide)
    {
      var k := keys[i];
      assert ks[i..][0] == k && ks[i..][1..] == ks[i + 1..];
      var idx := SnapshotIndex(k, snapshots);
      if currentIdx == idx {
        continue;
      }
      if idx == 0 && elide {
        return;
      }
      ghost var before := keys[..n];
      keys[n] := k;
      assert keys[..n] == before && keys[..n + 1] == before + [k];
      n := n + 1;
      if idx == 0 {
        return;
      }
      currentIdx := idx;
    }
  }

  ghost function ToSet(ks: seq<nat>): set<nat> {
    set i | 0 <= i < |ks| :: ks[i]
  }

  /** Adding a newest tombstone displaces just the others of its stripe. */
  lemma WorthKeepingNewer(ts: set<nat>, snapshots: seq<nat>, elide: bool, h: nat, t: nat)
    requires forall u :: u in ts ==> u <= h
    ensures WorthKeeping(ts + {h}, snapshots, elide, t) <==>
            if SnapshotIndex(t, snapshots) == SnapshotIndex(h, snapshots)
            then t == h && !(SnapshotIndex(h, snapshots) == 0 && elide)
            else WorthKeeping(ts, snapshots, elide, t)
  {
    if t in ts && SnapshotIndex(t, snapshots) == SnapshotIndex(h, snapshots) && t != h {
      assert h in ts + {h} && t < h;
    }
  }

  /** The recursion keeps exactly the newest of each stripe below `cur`. */
  lemma {:induction false} FilterKeeps(ks: seq<nat>, cur: int, snapshots: seq<nat>, elide: bool, t: nat)
    requires Ascending(snapshots) && Descending(ks)
    requires cur == -1 || forall i :: 0 <= i < |ks| ==> SnapshotIndex(ks[i], snapshots) <= cur
    ensures t in Filter(ks, cur, snapshots, elide) <==>
            WorthKeeping(ToSet(ks), snapshots, elide, t) && SnapshotIndex(t, snapshots) != cur
  {
    if ks != [] {
      var idx, rest := SnapshotIndex(ks[0], snapshots), ks[1..];
      forall i | 0 <= i < |rest| ensures SnapshotIndex(rest[i], snapshots) <= idx && rest[i] <= ks[0] {
        StripesDescend(ks[0], ks[i + 1], snapshots);
      }
      ToSetCons(ks);
      WorthKeepingNewer(ToSet(rest), snapshots, elide, ks[0], t);
      if idx == cur {
        FilterKeeps(rest, cur, snapshots, elide, t);
      } else if idx != 0 {
        FilterKeeps(rest, idx, snapshots, elide, t);
      } else if t in ToSet(rest) {
        var i :| 0 <= i < |rest| && rest[i] == t;
      }
    }
  }

  lemma ToSetCons(ks: seq<nat>)
    requires ks != []
    ensures ToSet(ks) == ToSet(ks[1..]) + {ks[0]}
  {
    forall i | 0 <= i < |ks| ensures ks[i] in ToSet(ks[1..]) + {ks[0]} {
      assert i > 0 ==> ks[i] == ks[1..][i - 1];
    }
  }

  /** On keys in descending order the filter computes the thinned set. */
  lemma FilterIsThinned(ks: seq<nat>, snapshots: seq<nat>, elide: bool)
    requires Ascending(snapshots) && Descending(ks)
    ensures ToSet(Filter(ks, -1, snapshots, elide)) == Thinned(ToSet(ks), snapshots, elide)
  {
    var r := Filter(ks, -1, snapshots, elide);
    forall t ensures t in ToSet(r) <==> t in Thinned(ToSet(ks), snapshots, elide) {
      FilterKeeps(ks, -1, snapshots, elide, t);
    }
  }

  /** Of what the filter keeps no two lie in one stripe, and with elision none in the
      bottom one. */
  lemma OnePerStripe(ks: seq<nat>, snapshots: seq<nat>, elide: bool, t: nat, u: nat)
    requires Ascending(snapshots) && Descending(ks)
    requires t in Filter(ks, -1, snapshots, elide) && u in Filter(ks, -1, snapshots, elide)
    ensures SnapshotIndex(t, snapshots) == SnapshotIndex(u, snapshots) ==> t == u
    ensures elide ==> SnapshotIndex(t, snapshots) > 0
    ensures t in ks && forall v :: v in ks && SnapshotIndex(v, snapshots) == SnapshotIndex(t, snapshots) ==> v <= t
  {
    FilterKeeps(ks, -1, snapshots, elide, t);
    FilterKeeps(ks, -1, snapshots, elide, u);
    assert forall v :: v in ks <==> v in ToSet(ks);
  }

  lemma {:induction false} NewestOfStripe(ts: set<nat>, snapshots: seq<nat>, t: nat) returns (m: nat)
    requires t in ts
    ensures m in ts && t <= m && SnapshotIndex(m, snapshots) == SnapshotIndex(t, snapshots)
    ensures forall u :: u in ts && SnapshotIndex(u, snapshots) == SnapshotIndex(t, snapshots) ==> u <= m
    decreases ts
  {
    var idx := SnapshotIndex(t, snapshots);
    if u :| u in ts && SnapshotIndex(u, snapshots) == idx && t < u {
      m := NewestOfStripe(ts - {t}, snapshots, u);
    } else {
      m := t;
    }
  }

  /** A tombstone that is not elided has a kept one standing in for it. */
  lemma StandIn(ts: set<nat>, snapshots: seq<nat>, elide: bool, s: nat, t: nat) returns (m: nat)
    requires Ascending(snapshots) && IsView(s, snapshots)
    requires forall u :: u in ts ==> u < SEQ_MAX
    requires t in ts && t < s && (SnapshotIndex(t, snapshots) > 0 || !elide)
    ensures m in Thinned(ts, snapshots, elide) && t <= m < s
  {
    m := NewestOfStripe(ts, snapshots, t);
    ViewSeesWholeStripes(s, t, snapshots);
    ViewSeesWholeStripes(s, m, snapshots);
  }

  /** At every view a point is covered after thinning just when it was covered
      before by a tombstone that is not elided. */
  lemma ThinningPreservesCoverage(ts: set<nat>, snapshots: seq<nat>, elide: bool, s: nat, q: nat)
    requires Ascending(snapshots) && IsView(s, snapshots)
    requires forall u :: u in ts ==> u < SEQ_MAX
    ensures CoveredAt(Thinned(ts, snapshots, elide), q, s) <==>
            exists t :: t in ts && q < t < s && (SnapshotIndex(t, snapshots) > 0 || !elide)
  {
    if t :| t in ts && q < t < s && (SnapshotIndex(t, snapshots) > 0 || !elide) {
      var m := StandIn(ts, snapshots, elide, s, t);
    }
  }
}
