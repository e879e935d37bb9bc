/**
 The value a lookup returns, over all sources and their range tombstones, is that of
 the simple reader, so a compaction of any of the sources leaves it as it is.
 */
module LookupCompaction {
  import opened Basics
  import opened Lsm
  import opened PointGet
  import opened Compaction
  import opened CompactionReads
  import CompactionOrder

  /** What the versions found by a lookup evaluate to, newest first. */
  function Evaluated(merge: MergeOp, items: seq<Item>): Option<Value> {
    if items == [] then None else Apply(merge, items[0].kind, items[0].value, Evaluated(merge, items[1..]))
  }

  /** The same over an older value. */
  function EvaluatedOver(merge: MergeOp, items: seq<Item>, base: Option<Value>): Option<Value> {
    if items == [] then base else Apply(merge, items[0].kind, items[0].value, EvaluatedOver(merge, items[1..], base))
  }

  lemma {:induction false} EvaluatedSplit(merge: MergeOp, a: seq<Item>, b: seq<Item>)
    ensures Evaluated(merge, a + b) == EvaluatedOver(merge, a, Evaluated(merge, b))
  {
    if a == [] {
      assert a + b == b;
    } else {
      EvaluatedSplit(merge, a[1..], b);
      assert (a + b)[1..] == a[1..] + b;
    }
  }

  predicate Of(e: Item, key: Key) {
    !e.boundary && e.ukey == key
  }

  /** The versions of key, as entries. */
  function Versions(items: seq<Item>, key: Key): seq<Entry> {
    if items == [] then []
    else (if Of(items[0], key) then [Point(key, items[0].seqNum, items[0].kind, items[0].value)]
          else []) + Versions(items[1..], key)
  }

  function Flat(all: seq<Source>): seq<Item> {
    if all == [] then [] else all[0].items + Flat(all[1..])
  }

  /** The range tombstones over key. */
  function Tombstones(src: Source, key: Key): set<nat> {
    set j, q | 0 <= j < |src.dels| && TombSpan(src, j, key).Some? && q in TombSpan(src, j, key).value.seqs :: q
  }

  function AllTombstones(all: seq<Source>, key: Key): set<nat> {
    if all == [] then {} else Tombstones(all[0], key) + AllTombstones(all[1..], key)
  }

  /** Nothing is read through an indexed batch. */
  ghost predicate NoBatch(all: seq<Source>, key: Key) {
    && (forall t :: t in AllTombstones(all, key) ==> t < BATCH)
    && (forall e :: e in Flat(all) && e.ukey == key ==> e.seqNum < BATCH)
  }

  // ------------------------------------------------------------------ a lookup reads

  lemma {:induction false} TombstonesAre(all: seq<Source>, key: Key, t: nat)
    ensures t in AllTombstones(all, key) <==> exists s :: s in all && HasTomb(s, key, t)
  {
    if all != [] {
      TombstonesAre(all[1..], key, t);
      if t in Tombstones(all[0], key) {
        assert HasTomb(all[0], key, t) && all[0] in all;
      }
      if s :| s in all && HasTomb(s, key, t) {
        var j: nat :| TombSpan(s, j, key).Some? && t in TombSpan(s, j, key).value.seqs;
        assert s == all[0] || s in all[1..];
      }
    }
  }

  lemma {:induction false} KeepSplit(all: seq<Source>, key: Key, snapshot: nat, a: seq<Item>, b: seq<Item>)
    ensures Keep(all, key, snapshot, a + b) == Keep(all, key, snapshot, a) + Keep(all, key, snapshot, b)
  {
    if a == [] {
      assert a + b == b;
    } else {
      hide Live;
      KeepSplit(all, key, snapshot, a[1..], b);
      assert (a + b)[1..] == a[1..] + b && (a + b)[0] == a[0];
      var head := if Live(all, key, snapshot, a[0]) then [a[0]] else [];
      assert head + (Keep(all, key, snapshot, a[1..]) + Keep(all, key, snapshot, b))
          == (head + Keep(all, key, snapshot, a[1..])) + Keep(all, key, snapshot, b);
    }
  }

  lemma {:induction false} AnswerIsFlat(all: seq<Source>, key: Key, snapshot: nat, k: nat)
    requires k <= |all|
    ensures AnswerFrom(all, key, snapshot, k) == Keep(all, key, snapshot, Flat(all[k..]))
    decreases |all| - k
  {
    if k < |all| {
      AnswerIsFlat(all, key, snapshot, k + 1);
      assert all[k..][1..] == all[k + 1..];
      KeepSplit(all, key, snapshot, all[k].items, Flat(all[k + 1..]));
    }
  }

  /** The versions of key come newest first. */
  ghost predicate Falling(items: seq<Item>, key: Key) {
    forall i, j {:trigger items[i], items[j]} ::
      0 <= i < j < |items| && items[i].ukey == key && items[j].ukey == key ==> items[i].seqNum > items[j].seqNum
  }

  lemma {:induction false} FlatMembers(all: seq<Source>, e: Item) returns (j: nat)
    requires e in Flat(all)
    ensures j < |all| && e in all[j].items
  {
    if e in all[0].items {
      j := 0;
    } else {
      j := FlatMembers(all[1..], e);
      j := j + 1;
    }
  }

  lemma StackTail(all: seq<Source>, key: Key)
    requires StackOk(all, key) && all != []
    ensures StackOk(all[1..], key)
  {
    var rest := all[1..];
    forall i {:trigger SourceOk(rest[i], key)} | 0 <= i < |rest| ensures SourceOk(rest[i], key) {
      assert SourceOk(all[i + 1], key);
    }
    forall i, j {:trigger Newer(rest[i], rest[j], key)} | 0 <= i < j < |rest| ensures Newer(rest[i], rest[j], key) {
      assert Newer(all[i + 1], all[j + 1], key);
    }
  }

  lemma {:induction false} FlatFalls(all: seq<Source>, key: Key)
    requires StackOk(all, key)
    ensures Falling(Flat(all), key)
  {
    if all != [] {
      var head, rest := all[0].items, Flat(all[1..]);
      StackTail(all, key);
      FlatFalls(all[1..], key);
      assert SourceOk(all[0], key);
      forall i, j {:trigger head[i], rest[j]} |
        0 <= i < |head| && 0 <= j < |rest| && head[i].ukey == key && rest[j].ukey == key
        ensures head[i].seqNum > rest[j].seqNum
      {
        var s := FlatMembers(all[1..], rest[j]);
        PointOf(all[0], key, head[i]);
        PointOf(all[s + 1], key, rest[j]);
        assert Newer(all[0], all[s + 1], key);
      }
      FallingJoin(head, rest, key);
    }
  }

  lemma FallingJoin(a: seq<Item>, b: seq<Item>, key: Key)
    requires forall i, j {:trigger Before(a[i], a[j])} :: 0 <= i < j < |a| ==> Before(a[i], a[j])
    requires Falling(b, key)
    requires forall i, j {:trigger a[i], b[j]} ::
               0 <= i < |a| && 0 <= j < |b| && a[i].ukey == key && b[j].ukey == key ==> a[i].seqNum > b[j].seqNum
    ensures Falling(a + b, key)
  {
    var s := a + b;
    forall i, j {:trigger s[i], s[j]} | 0 <= i < j < |s| && s[i].ukey == key && s[j].ukey == key
      ensures s[i].seqNum > s[j].seqNum
    {
      if j < |a| {
        assert Before(a[i], a[j]);
      } else if i < |a| {
        assert s[i] == a[i] && s[j] == b[j - |a|];
      } else {
        assert s[i] == b[i - |a|] && s[j] == b[j - |a|];
      }
    }
  }

  /** What the lookup is shown of these is what a view sees. */
  ghost predicate SeenAs(items: seq<Item>, tombs: set<nat>, key: Key, snapshot: nat, view: nat) {
    && (forall e :: e in items && e.ukey == key ==> (Shows(e.seqNum, snapshot) <==> e.seqNum < view))
    && (forall t :: t in tombs ==> (Shows(t, snapshot) <==> t < view))
  }

  /** Keeping what is live and evaluating it is reading. */
  lemma {:induction false} KeptReads(all: seq<Source>, key: Key, snapshot: nat, view: nat, merge: MergeOp,
                                     items: seq<Item>, base: Option<Value>)
    requires Falling(items, key) && SeenAs(items, AllTombstones(all, key), key, snapshot, view)
    requires base == Masked(AllTombstones(all, key), view, base)
    ensures EvaluatedOver(merge, Keep(all, key, snapshot, items), base) ==
            Read(Versions(items, key), merge, key, view, AllTombstones(all, key), base)
  {
    if items != [] {
      var e, rest := items[0], items[1..];
      KeptReads(all, key, snapshot, view, merge, rest, base);
      assert e in items;
      if Of(e, key) && Shows(e.seqNum, snapshot) {
        CoveredIsDeleted(all, key, snapshot, view, e.seqNum);
        var es := Versions(items, key);
        assert es[0] == Point(key, e.seqNum, e.kind, e.value) && es[1..] == Versions(rest, key);
        var kept := Keep(all, key, snapshot, items);
        if Deleted(all, key, snapshot, e.seqNum) {
          DeletedBelow(all, key, snapshot, items);
          KeepNone(all, key, snapshot, rest);
        } else {
          assert kept[0] == e && kept[1..] == Keep(all, key, snapshot, rest);
        }
      } else {
        assert Keep(all, key, snapshot, items) == Keep(all, key, snapshot, rest);
        UnseenFirst(items, key, view, merge, AllTombstones(all, key), base);
      }
    }
  }

  lemma UnseenFirst(items: seq<Item>, key: Key, snapshot: nat, merge: MergeOp, tombs: set<nat>, base: Option<Value>)
    requires items != [] && !(Of(items[0], key) && items[0].seqNum < snapshot)
    ensures Read(Versions(items, key), merge, key, snapshot, tombs, base) ==
            Read(Versions(items[1..], key), merge, key, snapshot, tombs, base)
  {
    var es := Versions(items, key);
    if Of(items[0], key) {
      assert es[1..] == Versions(items[1..], key);
    } else {
      assert es == Versions(items[1..], key);
    }
  }

  lemma CoveredIsDeleted(all: seq<Source>, key: Key, snapshot: nat, view: nat, q: nat)
    requires forall t :: t in AllTombstones(all, key) ==> (Shows(t, snapshot) <==> t < view)
    ensures CoveredAt(AllTombstones(all, key), q, view) <==> Deleted(all, key, snapshot, q)
  {
    if CoveredAt(AllTombstones(all, key), q, view) {
      var t :| t in AllTombstones(all, key) && q < t < view;
      TombstonesAre(all, key, t);
    }
    if s, t: nat :| s in all && HasTomb(s, key, t) && Shows(t, snapshot) && t > q {
      TombstonesAre(all, key, t);
    }
  }

  /** Older versions are deleted too. */
  lemma DeletedBelow(all: seq<Source>, key: Key, snapshot: nat, items: seq<Item>)
    requires Falling(items, key) && items != [] && items[0].ukey == key && Deleted(all, key, snapshot, items[0].seqNum)
    ensures forall i {:trigger items[1..][i]} :: 0 <= i < |items| - 1 ==> !Live(all, key, snapshot, items[1..][i])
  {
    forall i {:trigger items[1..][i]} | 0 <= i < |items| - 1 ensures !Live(all, key, snapshot, items[1..][i]) {
      assert items[1..][i] == items[i + 1];
    }
  }

  /** Where nothing is read through a batch, the versions a lookup finds evaluate to
      what the simple reader reads. */
  lemma StoredReads(all: seq<Source>, key: Key, snapshot: nat, merge: MergeOp)
    requires StackOk(all, key) && NoBatch(all, key)
    ensures Evaluated(merge, Answer(all, key, snapshot)) ==
            Read(Versions(Flat(all), key), merge, key, snapshot, AllTombstones(all, key), None)
  {
    AnswerIsFlat(all, key, snapshot, 0);
    assert all[0..] == all;
    FlatFalls(all, key);
    KeptReads(all, key, snapshot, snapshot, merge, Flat(all), None);
    var kept := Keep(all, key, snapshot, Flat(all));
    EvaluatedSplit(merge, kept, []);
    assert kept + [] == kept;
  }

  // ------------------------------------------------------------------ reading in layers

  /** Everything in x is newer than everything in y, tombstones included. */
  ghost predicate Above(x: seq<Entry>, tx: set<nat>, y: seq<Entry>, ty: set<nat>) {
    && (forall e, t :: e in x && t in ty ==> t < e.seqNum)
    && (forall e, t :: e in y && t in tx ==> e.seqNum < t)
  }

  lemma {:induction false} HiddenReads(y: seq<Entry>, merge: MergeOp, key: Key, s: nat, tombs: set<nat>,
                                       base: Option<Value>, t: nat)
    requires t in tombs && t < s && forall e :: e in y ==> e.seqNum < t
    ensures Read(y, merge, key, s, tombs, Masked(tombs, s, base)) == None
  {
    if y != [] {
      assert y[0] in y;
      HiddenReads(y[1..], merge, key, s, tombs, base, t);
    }
  }

  lemma {:induction false} SameCover(y: seq<Entry>, merge: MergeOp, key: Key, s: nat, ts: set<nat>, ts': set<nat>,
                                     base: Option<Value>)
    requires forall q: nat :: CoveredAt(ts, q, s) <==> CoveredAt(ts', q, s)
    ensures Read(y, merge, key, s, ts, base) == Read(y, merge, key, s, ts', base)
  {
    if y != [] {
      SameCover(y[1..], merge, key, s, ts, ts', base);
    }
  }

  /** Reading two layers is reading the upper one over what the lower one reads. */
  lemma {:induction false} ReadLayers(x: seq<Entry>, tx: set<nat>, y: seq<Entry>, ty: set<nat>, merge: MergeOp,
                                      key: Key, s: nat, base: Option<Value>)
    requires Above(x, tx, y, ty)
    ensures Read(x + y, merge, key, s, tx + ty, Masked(tx + ty, s, base)) ==
            Read(x, merge, key, s, tx, Masked(tx, s, Read(y, merge, key, s, ty, Masked(ty, s, base))))
  {
    if x == [] {
      assert x + y == y;
      LowerLayer(y, tx, ty, merge, key, s, base);
    } else {
      assert (x + y)[1..] == x[1..] + y;
      assert x[0] in x;
      ReadLayers(x[1..], tx, y, ty, merge, key, s, base);
      assert CoveredAt(tx + ty, x[0].seqNum, s) <==> CoveredAt(tx, x[0].seqNum, s);
    }
  }

  lemma LowerLayer(y: seq<Entry>, tx: set<nat>, ty: set<nat>, merge: MergeOp, key: Key, s: nat, base: Option<Value>)
    requires forall e, t :: e in y && t in tx ==> e.seqNum < t
    ensures Read(y, merge, key, s, tx + ty, Masked(tx + ty, s, base)) ==
            Masked(tx, s, Read(y, merge, key, s, ty, Masked(ty, s, base)))
  {
    if t :| t in tx && t < s {
      HiddenReads(y, merge, key, s, tx + ty, base, t);
    } else {
      forall q: nat ensures CoveredAt(tx + ty, q, s) <==> CoveredAt(ty, q, s) {
        if t :| t in tx + ty && q < t < s {
          assert t in ty;
        }
      }
      SameCover(y, merge, key, s, tx + ty, ty, Masked(ty, s, base));
      MaskedSame(tx, ty, s, base);
    }
  }

  lemma MaskedSame(tx: set<nat>, ty: set<nat>, s: nat, base: Option<Value>)
    requires forall t :: t in tx ==> t >= s
    ensures Masked(tx + ty, s, base) == Masked(ty, s, base)
  {
    if t :| t in tx + ty && t < s {
      assert t in ty;
    }
    if t :| t in ty && t < s {
      assert t in tx + ty;
    }
  }

  // ------------------------------------------------------------------ stacks in layers

  ghost function ReadStack(all: seq<Source>, key: Key, snapshot: nat, merge: MergeOp,
                           base: Option<Value>): Option<Value> {
    var tombs := AllTombstones(all, key);
    Read(Versions(Flat(all), key), merge, key, snapshot, tombs, Masked(tombs, snapshot, base))
  }

  lemma {:induction false} FlatSplit(a: seq<Source>, b: seq<Source>, key: Key)
    ensures Flat(a + b) == Flat(a) + Flat(b)
    ensures AllTombstones(a + b, key) == AllTombstones(a, key) + AllTombstones(b, key)
  {
    if a == [] {
      assert a + b == b;
    } else {
      assert (a + b)[1..] == a[1..] + b;
      FlatSplit(a[1..], b, key);
    }
  }

  lemma {:induction false} VersionsSplit(a: seq<Item>, b: seq<Item>, key: Key)
    ensures Versions(a + b, key) == Versions(a, key) + Versions(b, key)
  {
    hide Versions, Of;
    if a == [] {
      assert a + b == b;
      NoVersions(key);
    } else {
      assert (a + b)[1..] == a[1..] + b && (a + b)[0] == a[0];
      VersionsSplit(a[1..], b, key);
      VersionsNext(a, key);
      VersionsNext(a + b, key);
    }
  }

  lemma NoVersions(key: Key)
    ensures Versions([], key) == []
  {
  }

  lemma VersionsNext(items: seq<Item>, key: Key)
    requires items != []
    ensures Versions(items, key) ==
            (if Of(items[0], key) then [Point(key, items[0].seqNum, items[0].kind, items[0].value)] else [])
            + Versions(items[1..], key)
  {
  }

  lemma {:induction false} VersionIsItem(items: seq<Item>, key: Key, e: Entry) returns (i: Item)
    requires e in Versions(items, key)
    ensures i in items && i.ukey == key && i.seqNum == e.seqNum
  {
    if Of(items[0], key) && e == Point(key, items[0].seqNum, items[0].kind, items[0].value) {
      i := items[0];
    } else {
      i := VersionIsItem(items[1..], key, e);
    }
  }

  /** A version or tombstone of a group of sources is one of some source in it. */
  lemma VersionSource(all: seq<Source>, key: Key, e: Entry) returns (j: nat)
    requires e in Versions(Flat(all), key)
    ensures j < |all| && HasPoint(all[j], key, e.seqNum)
  {
    var i := VersionIsItem(Flat(all), key, e);
    j := FlatMembers(all, i);
    PointOf(all[j], key, i);
  }

  lemma TombSource(all: seq<Source>, key: Key, t: nat) returns (j: nat)
    requires t in AllTombstones(all, key)
    ensures j < |all| && HasTomb(all[j], key, t)
  {
    TombstonesAre(all, key, t);
    var s :| s in all && HasTomb(s, key, t);
    j :| 0 <= j < |all| && all[j] == s;
  }

  lemma GroupsApart(a: seq<Source>, b: seq<Source>, key: Key)
    requires StackOk(a + b, key)
    ensures Above(Versions(Flat(a), key), AllTombstones(a, key), Versions(Flat(b), key), AllTombstones(b, key))
  {
    forall e, t | e in Versions(Flat(a), key) && t in AllTombstones(b, key) ensures t < e.seqNum {
      var i := VersionSource(a, key, e);
      var j := TombSource(b, key, t);
      ApartAt(a, b, key, i, j);
    }
    forall e, t | e in Versions(Flat(b), key) && t in AllTombstones(a, key) ensures e.seqNum < t {
      var i := TombSource(a, key, t);
      var j := VersionSource(b, key, e);
      ApartAt(a, b, key, i, j);
    }
  }

  lemma ApartAt(a: seq<Source>, b: seq<Source>, key: Key, i: nat, j: nat)
    requires StackOk(a + b, key) && i < |a| && j < |b|
    ensures Newer(a[i], b[j], key)
  {
    assert Newer((a + b)[i], (a + b)[|a| + j], key);
  }

  lemma StackLayers(a: seq<Source>, b: seq<Source>, key: Key, snapshot: nat, merge: MergeOp, base: Option<Value>)
    requires StackOk(a + b, key)
    ensures ReadStack(a + b, key, snapshot, merge, base) ==
            ReadStack(a, key, snapshot, merge, ReadStack(b, key, snapshot, merge, base))
  {
    hide Read, Masked, StackOk, Above;
    FlatSplit(a, b, key);
    VersionsSplit(Flat(a), Flat(b), key);
    GroupsApart(a, b, key);
    ReadLayers(Versions(Flat(a), key), AllTombstones(a, key), Versions(Flat(b), key), AllTombstones(b, key), merge,
               key, snapshot, base);
  }

  lemma {:induction false} StackDrop(a: seq<Source>, b: seq<Source>, key: Key)
    requires StackOk(a + b, key)
    ensures StackOk(b, key)
  {
    if a == [] {
      assert a + b == b;
    } else {
      StackTail(a + b, key);
      assert (a + b)[1..] == a[1..] + b;
      StackDrop(a[1..], b, key);
    }
  }

  // ------------------------------------------------------------------ compaction

  /** The points of key among entries. */
  function PointsOf(es: seq<Entry>, key: Key): seq<Entry> {
    if es == [] then [] else (if es[0].Point? && es[0].ukey == key then [es[0]] else []) + PointsOf(es[1..], key)
  }

  lemma {:induction false} ReadPoints(es: seq<Entry>, merge: MergeOp, key: Key, s: nat, tombs: set<nat>,
                                      base: Option<Value>)
    ensures Read(es, merge, key, s, tombs, base) == Read(PointsOf(es, key), merge, key, s, tombs, base)
  {
    if es != [] {
      ReadPoints(es[1..], merge, key, s, tombs, base);
      if es[0].Point? && es[0].ukey == key {
        assert PointsOf(es, key)[1..] == PointsOf(es[1..], key);
      } else {
        assert PointsOf(es, key) == PointsOf(es[1..], key);
      }
    }
  }

  /** For key, the sources hold these entries and these range tombstones. */
  ghost predicate Holds(sources: seq<Source>, key: Key, es: seq<Entry>, tombs: set<nat>) {
    Versions(Flat(sources), key) == PointsOf(es, key) && AllTombstones(sources, key) == tombs
  }

  ghost predicate Layered(newer: seq<Source>, group: seq<Source>, below: seq<Source>, key: Key) {
    StackOk(newer + (group + below), key) && NoBatch(newer + (group + below), key)
  }

  // ------------------------------------------------------------------ reading through a batch

  /** The sources hold records of a batch only, all of them before the view. */
  ghost predicate OfBatch(batch: seq<Source>, key: Key, view: nat) {
    && (forall t :: t in AllTombstones(batch, key) ==> BATCH <= t < view)
    && (forall e :: e in Flat(batch) && e.ukey == key ==> BATCH <= e.seqNum < view)
  }

  lemma {:induction false} KeepSame(all: seq<Source>, all': seq<Source>, key: Key, snapshot: nat, items: seq<Item>)
    requires forall e :: e in items && e.ukey == key ==>
               (Deleted(all, key, snapshot, e.seqNum) <==> Deleted(all', key, snapshot, e.seqNum))
    ensures Keep(all, key, snapshot, items) == Keep(all', key, snapshot, items)
  {
    if items != [] {
      assert items[0] in items;
      KeepSame(all, all', key, snapshot, items[1..]);
    }
  }

  lemma DeletedAcross(a: seq<Source>, b: seq<Source>, key: Key, snapshot: nat, q: nat)
    ensures Deleted(a + b, key, snapshot, q) <==> Deleted(a, key, snapshot, q) || Deleted(b, key, snapshot, q)
  {
    assert forall s :: s in a + b <==> s in a || s in b;
  }

  /** No range tombstone of older sources deletes a record of the batch. */
  lemma BatchKeeps(batch: seq<Source>, rest: seq<Source>, key: Key, snapshot: nat)
    requires StackOk(batch + rest, key)
    ensures Keep(batch + rest, key, snapshot, Flat(batch)) == Keep(batch, key, snapshot, Flat(batch))
  {
    forall e | e in Flat(batch) && e.ukey == key
      ensures Deleted(batch + rest, key, snapshot, e.seqNum) <==> Deleted(batch, key, snapshot, e.seqNum)
    {
      DeletedAcross(batch, rest, key, snapshot, e.seqNum);
      var i := FlatMembers(batch, e);
      PointOf(batch[i], key, e);
      if s, q: nat :| s in rest && HasTomb(s, key, q) && Shows(q, snapshot) && q > e.seqNum {
        var j :| 0 <= j < |rest| && rest[j] == s;
        ApartAt(batch, rest, key, i, j);
      }
    }
    KeepSame(batch + rest, batch, key, snapshot, Flat(batch));
  }

  /** Any of the batch deletes all older versions. */
  lemma BatchHides(batch: seq<Source>, rest: seq<Source>, key: Key, snapshot: nat, view: nat, merge: MergeOp)
    requires StackOk(batch + rest, key) && OfBatch(batch, key, view)
    ensures Evaluated(merge, Keep(batch + rest, key, snapshot, Flat(rest))) ==
            Masked(AllTombstones(batch, key), view, Evaluated(merge, Keep(rest, key, snapshot, Flat(rest))))
  {
    if t :| t in AllTombstones(batch, key) {
      var i := TombSource(batch, key, t);
      forall k {:trigger Flat(rest)[k]} | 0 <= k < |Flat(rest)|
        ensures !Live(batch + rest, key, snapshot, Flat(rest)[k])
      {
        var e := Flat(rest)[k];
        if e.ukey == key {
          var j := FlatMembers(rest, e);
          PointOf(rest[j], key, e);
          ApartAt(batch, rest, key, i, j);
          assert batch[i] in batch + rest;
        }
      }
      KeepNone(batch + rest, key, snapshot, Flat(rest));
    } else {
      forall q: nat ensures Deleted(batch + rest, key, snapshot, q) <==> Deleted(rest, key, snapshot, q) {
        DeletedAcross(batch, rest, key, snapshot, q);
        if s, t: nat :| s in batch && HasTomb(s, key, t) && Shows(t, snapshot) && t > q {
          TombstonesAre(batch, key, t);
        }
      }
      KeepSame(batch + rest, rest, key, snapshot, Flat(rest));
    }
  }

  /** The versions a lookup finds evaluate to what the simple reader reads from the
      batch, if there is one, over what it reads at the snapshot from the store. */
  lemma LookupReads(batch: seq<Source>, rest: seq<Source>, key: Key, snapshot: nat, view: nat, merge: MergeOp)
    requires StackOk(batch + rest, key) && OfBatch(batch, key, view) && NoBatch(rest, key)
    ensures Evaluated(merge, Answer(batch + rest, key, snapshot)) ==
            ReadStack(batch, key, view, merge, ReadStack(rest, key, snapshot, merge, None))
  {
    hide StackOk, Read, Masked, OfBatch;
    var all := batch + rest;
    AnswerIsFlat(all, key, snapshot, 0);
    assert all[0..] == all;
    FlatSplit(batch, rest, key);
    KeepSplit(all, key, snapshot, Flat(batch), Flat(rest));
    EvaluatedSplit(merge, Keep(all, key, snapshot, Flat(batch)), Keep(all, key, snapshot, Flat(rest)));
    BatchKeeps(batch, rest, key, snapshot);
    BatchHides(batch, rest, key, snapshot, view, merge);
    StackDrop(batch, rest, key);
    RestReads(rest, key, snapshot, merge);
    BatchReads(batch, rest, key, snapshot, view, merge, ReadStack(rest, key, snapshot, merge, None));
  }

  lemma RestReads(rest: seq<Source>, key: Key, snapshot: nat, merge: MergeOp)
    requires StackOk(rest, key) && NoBatch(rest, key)
    ensures Evaluated(merge, Keep(rest, key, snapshot, Flat(rest))) == ReadStack(rest, key, snapshot, merge, None)
  {
    AnswerIsFlat(rest, key, snapshot, 0);
    assert rest[0..] == rest;
    StoredReads(rest, key, snapshot, merge);
  }

  lemma BatchReads(batch: seq<Source>, rest: seq<Source>, key: Key, snapshot: nat, view: nat, merge: MergeOp,
                   base: Option<Value>)
    requires StackOk(batch + rest, key) && OfBatch(batch, key, view)
    ensures EvaluatedOver(merge, Keep(batch, key, snapshot, Flat(batch)), Masked(AllTombstones(batch, key), view, base))
            == ReadStack(batch, key, view, merge, base)
  {
    StackTake(batch, rest, key);
    FlatFalls(batch, key);
    KeptReads(batch, key, snapshot, view, merge, Flat(batch), Masked(AllTombstones(batch, key), view, base));
  }

  lemma StackTake(a: seq<Source>, b: seq<Source>, key: Key)
    requires StackOk(a + b, key)
    ensures StackOk(a, key)
  {
    var all := a + b;
    forall i {:trigger SourceOk(a[i], key)} | 0 <= i < |a| ensures SourceOk(a[i], key) {
      assert SourceOk(all[i], key);
    }
    forall i, j {:trigger Newer(a[i], a[j], key)} | 0 <= i < j < |a| ensures Newer(a[i], a[j], key) {
      assert Newer(all[i], all[j], key);
    }
  }

  // ------------------------------------------------------------------ before and after

  lemma LayeredStack(newer: seq<Source>, group: seq<Source>, below: seq<Source>, key: Key, snapshot: nat,
                     merge: MergeOp)
    requires StackOk(newer + (group + below), key)
    ensures ReadStack(newer + (group + below), key, snapshot, merge, None) ==
            ReadStack(newer, key, snapshot, merge,
                      ReadStack(group, key, snapshot, merge, ReadStack(below, key, snapshot, merge, None)))
  {
    hide StackOk, Read;
    StackDrop(newer, group + below, key);
    StackLayers(newer, group + below, key, snapshot, merge, None);
    StackLayers(group, below, key, snapshot, merge, None);
  }

  // ------------------------------------------------------------------ the output in its place

  /** A number that a source has for key, as a version or as a range tombstone. */
  ghost predicate Has(src: Source, key: Key, q: nat) {
    HasPoint(src, key, q) || HasTomb(src, key, q)
  }

  /** A number in a group is one of its versions or range tombstones. */
  lemma GroupHas(all: seq<Source>, key: Key, j: nat, q: nat)
    requires j < |all| && SourceOk(all[j], key) && Has(all[j], key, q)
    ensures q in AllTombstones(all, key) || exists e :: e in Versions(Flat(all), key) && e.seqNum == q
  {
    if HasTomb(all[j], key, q) {
      TombstonesAre(all, key, q);
    } else {
      var i :| 0 <= i < |all[j].items| && all[j].items[i].ukey == key && all[j].items[i].seqNum == q;
      var e := all[j].items[i];
      FlatHas(all, j, e);
      VersionOf(Flat(all), key, e);
    }
  }

  lemma {:induction false} FlatHas(all: seq<Source>, j: nat, e: Item)
    requires j < |all| && e in all[j].items
    ensures e in Flat(all)
  {
    if j > 0 {
      FlatHas(all[1..], j - 1, e);
    }
  }

  lemma {:induction false} VersionOf(items: seq<Item>, key: Key, e: Item)
    requires e in items && Of(e, key)
    ensures Point(key, e.seqNum, e.kind, e.value) in Versions(items, key)
  {
    if e != items[0] {
      VersionOf(items[1..], key, e);
    }
  }

  lemma {:induction false} PointsOfAre(es: seq<Entry>, key: Key, e: Entry)
    ensures e in PointsOf(es, key) <==> e in es && e.Point? && e.ukey == key
  {
    if es != [] {
      PointsOfAre(es[1..], key, e);
      assert e in es <==> e == es[0] || e in es[1..];
    }
  }

  /** Whatever the output has for key, the input has as well, or a point of the input
      had its number zeroed. */
  lemma OutputFromInput(inputs: seq<Source>, outputs: seq<Source>, c: Config, key: Key, j: nat, q: nat)
    returns (i: nat, p: nat)
    requires Holds(inputs, key, c.input, Tombs(c, key)) && Holds(outputs, key, Entries(Compact(c)), Kept(c, key))
    requires j < |outputs| && SourceOk(outputs[j], key) && Has(outputs[j], key, q)
    ensures i < |inputs| && Has(inputs[i], key, p) && q <= p && (q == p || c.allowZeroSeqNum)
  {
    hide Compact, SourceOk, HasPoint, HasTomb;
    GroupHas(outputs, key, j, q);
    if q in AllTombstones(outputs, key) {
      assert q in Tombs(c, key);
      i := TombSource(inputs, key, q);
      p := q;
    } else {
      var e :| e in Versions(Flat(outputs), key) && e.seqNum == q;
      PointsOfAre(Entries(Compact(c)), key, e);
      var x := SourceAt(c, e);
      PointsOfAre(c.input, key, c.input[x]);
      i := VersionSource(inputs, key, c.input[x]);
      p := c.input[x].seqNum;
    }
  }

  lemma SourceAt(c: Config, e: Entry) returns (x: nat)
    requires e in Entries(Compact(c)) && e.Point?
    ensures x < |c.input| && StandsFor(c, x, e)
  {
    x := CompactionOrder.SourceOf(c, 0, false, e);
  }

  /** Nothing is there for key. */
  ghost predicate Bare(all: seq<Source>, key: Key) {
    forall j: nat, q: nat {:trigger Has(all[j], key, q)} :: j < |all| ==> !Has(all[j], key, q)
  }

  lemma NewerAt(newer: seq<Source>, group: seq<Source>, below: seq<Source>, key: Key, i: nat, j: nat)
    requires StackOk(newer + (group + below), key) && j < |group|
    ensures i < |newer| ==> Newer(newer[i], group[j], key)
    ensures i < |below| ==> Newer(group[j], below[i], key)
  {
    var all := newer + (group + below);
    if i < |newer| {
      assert Newer(all[i], all[|newer| + j], key);
    }
    if i < |below| {
      assert Newer(all[|newer| + j], all[|newer| + |group| + i], key);
    }
  }

  lemma NewerBy(a: Source, b: Source, key: Key)
    requires forall p: nat, q: nat :: Has(a, key, p) && Has(b, key, q) ==> p > q
    ensures Newer(a, b, key)
  {
    forall p: nat, q: nat | (HasPoint(a, key, p) || HasTomb(a, key, p)) && (HasPoint(b, key, q) || HasTomb(b, key, q))
      ensures p > q
    {
      assert Has(a, key, p) && Has(b, key, q);
    }
  }

  /** The output of a compaction is newer and older than the other sources as its
      input was, where numbers are zeroed only if nothing lies below. */
  lemma OutputBetween(newer: seq<Source>, inputs: seq<Source>, outputs: seq<Source>, below: seq<Source>,
                      c: Config, key: Key, i: nat, j: nat)
    requires StackOk(newer + (inputs + below), key) && StackOk(outputs, key)
    requires Holds(inputs, key, c.input, Tombs(c, key)) && Holds(outputs, key, Entries(Compact(c)), Kept(c, key))
    requires j < |outputs| && (c.allowZeroSeqNum ==> Bare(below, key))
    ensures i < |newer| ==> Newer(newer[i], outputs[j], key)
    ensures i < |below| ==> Newer(outputs[j], below[i], key)
  {
    hide Holds, HasPoint, HasTomb, SourceOk;
    assert SourceOk(outputs[j], key);
    if i < |newer| {
      forall p: nat, q: nat | Has(newer[i], key, p) && Has(outputs[j], key, q) ensures p > q {
        var x, r := OutputFromInput(inputs, outputs, c, key, j, q);
        NewerAt(newer, inputs, below, key, i, x);
      }
      NewerBy(newer[i], outputs[j], key);
    }
    if i < |below| {
      forall p: nat, q: nat | Has(outputs[j], key, p) && Has(below[i], key, q) ensures p > q {
        var x, r := OutputFromInput(inputs, outputs, c, key, j, p);
        NewerAt(newer, inputs, below, key, i, x);
      }
      NewerBy(outputs[j], below[i], key);
    }
  }

  /** So the sources with the output in place of the input are in order again. */
  lemma OutputLayered(newer: seq<Source>, inputs: seq<Source>, outputs: seq<Source>, below: seq<Source>,
                      c: Config, key: Key)
    requires Layered(newer, inputs, below, key) && StackOk(outputs, key) && (c.allowZeroSeqNum ==> Bare(below, key))
    requires Holds(inputs, key, c.input, Tombs(c, key)) && Holds(outputs, key, Entries(Compact(c)), Kept(c, key))
    ensures Layered(newer, outputs, below, key)
  {
    OutputStack(newer, inputs, outputs, below, c, key);
    OutputNoBatch(newer, inputs, outputs, below, c, key);
  }

  lemma OutputStack(newer: seq<Source>, inputs: seq<Source>, outputs: seq<Source>, below: seq<Source>,
                    c: Config, key: Key)
    requires StackOk(newer + (inputs + below), key) && StackOk(outputs, key) && (c.allowZeroSeqNum ==> Bare(below, key))
    requires Holds(inputs, key, c.input, Tombs(c, key)) && Holds(outputs, key, Entries(Compact(c)), Kept(c, key))
    ensures StackOk(newer + (outputs + below), key)
  {
    hide Holds, SourceOk, Newer, NoBatch;
    var was, all := newer + (inputs + below), newer + (outputs + below);
    var a, n, m := |newer|, |outputs|, |inputs|;
    forall i {:trigger SourceOk(all[i], key)} | 0 <= i < |all| ensures SourceOk(all[i], key) {
      assert all[i] == if i < a then was[i] else if i < a + n then outputs[i - a] else was[i - n + m];
    }
    forall i, j {:trigger Newer(all[i], all[j], key)} | 0 <= i < j < |all| ensures Newer(all[i], all[j], key) {
      if a <= i < a + n && a <= j < a + n {
        assert Newer(outputs[i - a], outputs[j - a], key);
      } else if a <= j < a + n {
        OutputBetween(newer, inputs, outputs, below, c, key, i, j - a);
      } else if a <= i < a + n {
        OutputBetween(newer, inputs, outputs, below, c, key, j - a - n, i - a);
      } else {
        var x, y := if i < a then i else i - n + m, if j < a then j else j - n + m;
        assert all[i] == was[x] && all[j] == was[y];
        assert Newer(was[x], was[y], key);
      }
    }
  }

  lemma NoBatchSplit(a: seq<Source>, b: seq<Source>, key: Key)
    ensures NoBatch(a + b, key) <==> NoBatch(a, key) && NoBatch(b, key)
  {
    FlatSplit(a, b, key);
    assert forall e :: e in Flat(a + b) <==> e in Flat(a) || e in Flat(b);
    assert forall t :: t in AllTombstones(a + b, key) <==> t in AllTombstones(a, key) || t in AllTombstones(b, key);
  }

  lemma OutputNoBatch(newer: seq<Source>, inputs: seq<Source>, outputs: seq<Source>, below: seq<Source>,
                      c: Config, key: Key)
    requires Layered(newer, inputs, below, key) && StackOk(outputs, key)
    requires Holds(inputs, key, c.input, Tombs(c, key)) && Holds(outputs, key, Entries(Compact(c)), Kept(c, key))
    ensures NoBatch(newer + (outputs + below), key)
  {
    hide NoBatch, StackOk, Holds;
    NoBatchSplit(newer, inputs + below, key);
    NoBatchSplit(inputs, below, key);
    NoBatchSplit(newer, outputs + below, key);
    NoBatchSplit(outputs, below, key);
    OutputsNoBatch(inputs, outputs, c, key);
  }

  lemma OutputsNoBatch(inputs: seq<Source>, outputs: seq<Source>, c: Config, key: Key)
    requires NoBatch(inputs, key) && StackOk(outputs, key)
    requires Holds(inputs, key, c.input, Tombs(c, key)) && Holds(outputs, key, Entries(Compact(c)), Kept(c, key))
    ensures NoBatch(outputs, key)
  {
    hide Holds, Compact;
    forall t | t in AllTombstones(outputs, key) ensures t < BATCH {
      var j := TombSource(outputs, key, t);
      SmallNumber(inputs, outputs, c, key, j, t);
    }
    forall e | e in Flat(outputs) && e.ukey == key ensures e.seqNum < BATCH {
      var j := FlatMembers(outputs, e);
      PointOf(outputs[j], key, e);
      SmallNumber(inputs, outputs, c, key, j, e.seqNum);
    }
  }

  lemma SmallNumber(inputs: seq<Source>, outputs: seq<Source>, c: Config, key: Key, j: nat, q: nat)
    requires NoBatch(inputs, key) && StackOk(outputs, key) && j < |outputs| && Has(outputs[j], key, q)
    requires Holds(inputs, key, c.input, Tombs(c, key)) && Holds(outputs, key, Entries(Compact(c)), Kept(c, key))
    ensures q < BATCH
  {
    hide Holds, Compact, SourceOk, HasTomb;
    assert SourceOk(outputs[j], key);
    var i, p := OutputFromInput(inputs, outputs, c, key, j, q);
    if HasTomb(inputs[i], key, p) {
      TombstonesAre(inputs, key, p);
    } else {
      var x :| 0 <= x < |inputs[i].items| && inputs[i].items[x].ukey == key && inputs[i].items[x].seqNum == p;
      FlatHas(inputs, i, inputs[i].items[x]);
    }
  }

  /** What the simple reader reads from the store stays the same. */
  lemma StoreSurvives(newer: seq<Source>, inputs: seq<Source>, outputs: seq<Source>, below: seq<Source>,
                      c: Config, key: Key, s: nat)
    requires Layered(newer, inputs, below, key) && StackOk(outputs, key)
    requires Holds(inputs, key, c.input, Tombs(c, key)) && Holds(outputs, key, Entries(Compact(c)), Kept(c, key))
    requires Legal(c) && Associative(c.merge) && IsView(s, c.snapshots) && !Fails(Compact(c))
    requires HonestElision(c, key, ReadStack(below, key, s, c.merge, None)) && (c.allowZeroSeqNum ==> Bare(below, key))
    requires CancelsSafely(c, key, s, ReadStack(below, key, s, c.merge, None))
    ensures Layered(newer, outputs, below, key)
    ensures ReadStack(newer + (outputs + below), key, s, c.merge, None) ==
            ReadStack(newer + (inputs + below), key, s, c.merge, None)
  {
    hide Legal, Associative, HonestElision, CancelsSafely, Compact, Read, Kept, Tombs, StackOk, Bare, NoBatch;
    var base := ReadStack(below, key, s, c.merge, None);
    OutputLayered(newer, inputs, outputs, below, c, key);
    LayeredStack(newer, inputs, below, key, s, c.merge);
    LayeredStack(newer, outputs, below, key, s, c.merge);
    CompactionPreservesReads(c, key, s, base);
    ReadPoints(c.input, c.merge, key, s, Tombs(c, key), Masked(Tombs(c, key), s, base));
    ReadPoints(Entries(Compact(c)), c.merge, key, s, Kept(c, key), Masked(Kept(c, key), s, base));
  }

  /** A lookup at any open snapshot, or at the latest state, and through a batch or
      not, returns the same value before and after a compaction of a group of its
      sources, however its output is split into tables. */
  lemma LookupSurvivesCompaction(batch: seq<Source>, newer: seq<Source>, inputs: seq<Source>, outputs: seq<Source>,
                                 below: seq<Source>, c: Config, key: Key, s: nat, view: nat)
    requires StackOk(batch + (newer + (inputs + below)), key) && StackOk(outputs, key)
    requires OfBatch(batch, key, view) && NoBatch(newer + (inputs + below), key)
    requires Holds(inputs, key, c.input, Tombs(c, key)) && Holds(outputs, key, Entries(Compact(c)), Kept(c, key))
    requires Legal(c) && Associative(c.merge) && IsView(s, c.snapshots) && !Fails(Compact(c))
    requires HonestElision(c, key, ReadStack(below, key, s, c.merge, None)) && (c.allowZeroSeqNum ==> Bare(below, key))
    requires CancelsSafely(c, key, s, ReadStack(below, key, s, c.merge, None))
    ensures Evaluated(c.merge, Answer(batch + (newer + (outputs + below)), key, s)) ==
            Evaluated(c.merge, Answer(batch + (newer + (inputs + below)), key, s))
  {
    hide Legal, Associative, HonestElision, CancelsSafely, Compact, Read, Answer, Evaluated, Kept, Tombs, Holds;
    hide StackOk, Bare, NoBatch, OfBatch, ReadStack;
    var was, now := newer + (inputs + below), newer + (outputs + below);
    StackDrop(batch, was, key);
    StoreSurvives(newer, inputs, outputs, below, c, key, s);
    assert batch + was == (batch + newer) + (inputs + below) && batch + now == (batch + newer) + (outputs + below);
    OutputStack(batch + newer, inputs, outputs, below, c, key);
    LookupReads(batch, was, key, s, view, c.merge);
    LookupReads(batch, now, key, s, view, c.merge);
  }
}
