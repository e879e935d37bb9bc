/**
 What a point lookup should find, over a stack of sources (batch, memtables, L0
 sublevels, lower levels) ordered from newest to oldest.
 */
module PointGet {
  import opened Basics
  import opened Lsm

  /** InternalKeySeqNumBatch. Sequence numbers have 56 bits, so the batch bit is
      set just in those at or above it. */
  const BATCH: nat := 0x80_0000_0000_0000

  /** base.Visible with an unlimited batch snapshot. */
  predicate Shows(q: nat, snapshot: nat) {
    q < snapshot || q >= BATCH
  }

  /** A fragment of range tombstones `[lo, hi)`. */
  datatype Span = Span(lo: Key, hi: Key, seqs: seq<nat>)

  /** A position an iterator can present: a point of some table, or the exclusive
      end of a table whose largest key is a range tombstone. */
  datatype Item = Item(ukey: Key, seqNum: nat, kind: Kind, value: Value, table: nat, boundary: bool)

  /** The positions of all tables, in order, and the tombstones of each table
      (None if it has no range tombstones at all). */
  datatype Source = Source(items: seq<Item>, dels: seq<Option<seq<Span>>>, level: bool)

  /** keyspan.Get */
  function Get(spans: seq<Span>, key: Key): Option<Span> {
    if spans == [] then None
    else if spans[0].lo <= key < spans[0].hi then Some(spans[0])
    else Get(spans[1..], key)
  }

  /** The tombstone over key in table j. */
  function TombSpan(src: Source, j: nat, key: Key): Option<Span> {
    if j < |src.dels| && src.dels[j].Some? then Get(src.dels[j].value, key) else None
  }

  // ------------------------------------------------------------------ Span methods

  ghost predicate Descending(seqs: seq<nat>) {
    forall i, j :: 0 <= i < j < |seqs| ==> seqs[i] > seqs[j]
  }

  /** Span.VisibleAt */
  function VisibleAt(seqs: seq<nat>, snapshot: nat): bool {
    |seqs| > 0 && (seqs[0] >= BATCH || seqs[|seqs| - 1] < snapshot)
  }

  lemma VisibleAtFinds(seqs: seq<nat>, snapshot: nat)
    requires Descending(seqs)
    ensures VisibleAt(seqs, snapshot) <==> exists q :: q in seqs && Shows(q, snapshot)
  {
    if VisibleAt(seqs, snapshot) {
      assert Shows(seqs[0], snapshot) || Shows(seqs[|seqs| - 1], snapshot);
    }
  }

  /** Span.CoversAt, whose loop stops at the first visible tombstone. */
  method CoversAt(seqs: seq<nat>, snapshot: nat, seqNum: nat) returns (r: bool)
    requires Descending(seqs)
    ensures r <==> exists q :: q in seqs && Shows(q, snapshot) && q > seqNum
  {
    for i := 0 to |seqs|
      invariant forall k :: 0 <= k < i ==> !Shows(seqs[k], snapshot)
    {
      var q := seqs[i];
      assert q in seqs;
      if q >= BATCH {
        return q > seqNum;
      } else if q < snapshot {
        return q > seqNum;
      }
    }
    return false;
  }

  // ------------------------------------------------------------------ well-formed sources

  ghost predicate Before(a: Item, b: Item) {
    a.table <= b.table && (a.ukey < b.ukey || (a.ukey == b.ukey && a.seqNum > b.seqNum))
  }

  /** Table j extends past key. */
  ghost predicate Reaches(src: Source, j: nat, key: Key) {
    exists i {:trigger src.items[i]} :: 0 <= i < |src.items| && src.items[i].table == j && src.items[i].ukey > key
  }

  ghost predicate TablesOk(src: Source, key: Key) {
    && (forall i, j {:trigger Before(src.items[i], src.items[j])} :: 0 <= i < j < |src.items| ==>
        Before(src.items[i], src.items[j]))
    && (forall i {:trigger src.items[i]} :: 0 <= i < |src.items| ==>
          src.items[i].table < |src.dels| && (src.items[i].boundary ==> src.items[i].ukey != key))
    && (!src.level ==> |src.dels| == 1)
  }

  /** A tombstone over key belongs to one table of a level only. That table
      extends past key, and where the versions of key are split over tables the
      tombstone is no newer than those in earlier tables. */
  ghost predicate TombOk(src: Source, j: nat, key: Key) {
    TombSpan(src, j, key).Some? ==>
      && Descending(TombSpan(src, j, key).value.seqs)
      && (src.level ==> Reaches(src, j, key))
      && (forall k: nat :: k < j ==> !Reaches(src, k, key))
      && (forall i, q {:trigger src.items[i], q in TombSpan(src, j, key).value.seqs} ::
            (0 <= i < |src.items| && src.items[i].ukey == key && src.items[i].table < j
             && q in TombSpan(src, j, key).value.seqs) ==> q <= src.items[i].seqNum)
  }

  ghost predicate SourceOk(src: Source, key: Key) {
    TablesOk(src, key) && forall j: nat {:trigger TombSpan(src, j, key)} :: TombOk(src, j, key)
  }

  ghost predicate HasPoint(src: Source, key: Key, q: nat) {
    exists i {:trigger src.items[i]} :: 0 <= i < |src.items| && src.items[i].ukey == key && src.items[i].seqNum == q
  }

  ghost predicate HasTomb(src: Source, key: Key, q: nat) {
    exists j: nat {:trigger TombSpan(src, j, key)} :: TombSpan(src, j, key).Some?
        && q in TombSpan(src, j, key).value.seqs
  }

  /** Everything a has for key is newer than everything b has. */
  ghost predicate Newer(a: Source, b: Source, key: Key) {
    forall p, q :: (HasPoint(a, key, p) || HasTomb(a, key, p)) && (HasPoint(b, key, q) || HasTomb(b, key, q)) ==> p > q
  }

  ghost predicate StackOk(all: seq<Source>, key: Key) {
    && (forall i {:trigger SourceOk(all[i], key)} :: 0 <= i < |all| ==> SourceOk(all[i], key))
    && (forall i, j {:trigger Newer(all[i], all[j], key)} :: 0 <= i < j < |all| ==> Newer(all[i], all[j], key))
  }

  // ------------------------------------------------------------------ the answer

  /** Some visible range tombstone of the whole stack deletes seqNum at key. */
  ghost predicate Deleted(all: seq<Source>, key: Key, snapshot: nat, seqNum: nat) {
    exists s, q: nat :: s in all && HasTomb(s, key, q) && Shows(q, snapshot) && q > seqNum
  }

  /** A version of key that the lookup should see. */
  ghost predicate Live(all: seq<Source>, key: Key, snapshot: nat, e: Item) {
    !e.boundary && e.ukey == key && Shows(e.seqNum, snapshot) && !Deleted(all, key, snapshot, e.seqNum)
  }

  ghost function Keep(all: seq<Source>, key: Key, snapshot: nat, items: seq<Item>): seq<Item> {
    if items == [] then []
    else (if Live(all, key, snapshot, items[0]) then [items[0]] else []) + Keep(all, key, snapshot, items[1..])
  }

  /** All live versions of key in the sources from the k-th on, newest first. */
  ghost function AnswerFrom(all: seq<Source>, key: Key, snapshot: nat, k: nat): seq<Item>
    decreases |all| - k
  {
    if k >= |all| then [] else Keep(all, key, snapshot, all[k].items) + AnswerFrom(all, key, snapshot, k + 1)
  }

  /** The answer is complete and in strictly decreasing sequence order. */
  ghost function Answer(all: seq<Source>, key: Key, snapshot: nat): seq<Item> {
    AnswerFrom(all, key, snapshot, 0)
  }

  lemma {:induction false} KeepNone(all: seq<Source>, key: Key, snapshot: nat, items: seq<Item>)
    requires forall i {:trigger items[i]} :: 0 <= i < |items| ==> !Live(all, key, snapshot, items[i])
    ensures Keep(all, key, snapshot, items) == []
  {
    if items != [] {
      KeepNone(all, key, snapshot, items[1..]);
    }
  }

  lemma {:induction false} AnswerNone(all: seq<Source>, key: Key, snapshot: nat, k: nat)
    requires forall j, i {:trigger all[j].items[i]} :: k <= j < |all| && 0 <= i < |all[j].items| ==>
               !Live(all, key, snapshot, all[j].items[i])
    ensures AnswerFrom(all, key, snapshot, k) == []
    decreases |all| - k
  {
    if k < |all| {
      KeepNone(all, key, snapshot, all[k].items);
      AnswerNone(all, key, snapshot, k + 1);
    }
  }

  // ------------------------------------------------------------------ the answer is complete and newest first

  lemma {:induction false} KeepMembers(all: seq<Source>, key: Key, snapshot: nat, items: seq<Item>, e: Item)
    ensures e in Keep(all, key, snapshot, items) <==> e in items && Live(all, key, snapshot, e)
  {
    if items != [] {
      KeepMembers(all, key, snapshot, items[1..], e);
      assert e in items <==> e == items[0] || e in items[1..];
    }
  }

  lemma {:induction false} AnswerMembers(all: seq<Source>, key: Key, snapshot: nat, k: nat, e: Item)
    ensures e in AnswerFrom(all, key, snapshot, k) <==>
            exists j {:trigger all[j]} :: k <= j < |all| && e in all[j].items && Live(all, key, snapshot, e)
    decreases |all| - k
  {
    if k < |all| {
      KeepMembers(all, key, snapshot, all[k].items, e);
      AnswerMembers(all, key, snapshot, k + 1, e);
    }
  }

  ghost predicate NewestFirst(s: seq<Item>) {
    forall i, j :: 0 <= i < j < |s| ==> s[i].seqNum > s[j].seqNum
  }

  lemma {:induction false} KeepNewestFirst(all: seq<Source>, key: Key, snapshot: nat, items: seq<Item>)
    requires forall i, j {:trigger Before(items[i], items[j])} :: 0 <= i < j < |items| ==> Before(items[i], items[j])
    ensures NewestFirst(Keep(all, key, snapshot, items))
  {
    if items != [] {
      var rest := items[1..];
      forall i, j {:trigger Before(rest[i], rest[j])} | 0 <= i < j < |rest|
        ensures Before(rest[i], rest[j])
      {
        assert Before(items[i + 1], items[j + 1]);
      }
      KeepNewestFirst(all, key, snapshot, rest);
      forall e | e in Keep(all, key, snapshot, rest) && items[0].ukey == key
        ensures items[0].seqNum > e.seqNum
      {
        KeepMembers(all, key, snapshot, rest, e);
        var i :| 0 <= i < |rest| && rest[i] == e;
        assert Before(items[0], items[i + 1]);
      }
    }
  }

  lemma {:induction false} AnswerNewestFirst(all: seq<Source>, key: Key, snapshot: nat, k: nat)
    requires StackOk(all, key)
    ensures NewestFirst(AnswerFrom(all, key, snapshot, k))
    decreases |all| - k
  {
    if k < |all| {
      var head, tail := Keep(all, key, snapshot, all[k].items), AnswerFrom(all, key, snapshot, k + 1);
      assert SourceOk(all[k], key);
      KeepNewestFirst(all, key, snapshot, all[k].items);
      AnswerNewestFirst(all, key, snapshot, k + 1);
      forall a, b | a in head && b in tail
        ensures a.seqNum > b.seqNum
      {
        KeepMembers(all, key, snapshot, all[k].items, a);
        AnswerMembers(all, key, snapshot, k + 1, b);
        var j :| k + 1 <= j < |all| && b in all[j].items && Live(all, key, snapshot, b);
        PointOf(all[k], key, a);
        PointOf(all[j], key, b);
        assert Newer(all[k], all[j], key);
      }
    }
  }

  lemma PointOf(src: Source, key: Key, e: Item)
    requires e in src.items && e.ukey == key
    ensures HasPoint(src, key, e.seqNum)
  {
    var i :| 0 <= i < |src.items| && src.items[i] == e;
  }

  /** The answer is exactly the versions of key that the snapshot sees and no
      visible range tombstone of the stack deletes, newest first. */
  lemma AnswerIsSimpleRead(all: seq<Source>, key: Key, snapshot: nat, e: Item)
    requires StackOk(all, key)
    ensures NewestFirst(Answer(all, key, snapshot))
    ensures e in Answer(all, key, snapshot) <==>
            (exists s :: s in all && e in s.items) && Live(all, key, snapshot, e)
  {
    AnswerNewestFirst(all, key, snapshot, 0);
    AnswerMembers(all, key, snapshot, 0, e);
    if s :| s in all && e in s.items {
      var j :| 0 <= j < |all| && all[j] == s;
    }
  }

  // ------------------------------------------------------------------ the answer in numbers

  /** Committed before the snapshot, or a record of a batch, whose numbers begin at
      2^55. */
  ghost predicate Seen(q: nat, snapshot: nat) {
    q < snapshot || q >= 36_028_797_018_963_968
  }

  /** What a lookup has to find. */
  ghost predicate Found(all: seq<Source>, key: Key, snapshot: nat, e: Item) {
    && (exists s :: s in all && e in s.items) && !e.boundary && e.ukey == key && Seen(e.seqNum, snapshot)
    && forall s, q: nat {:trigger s in all, HasTomb(s, key, q)} ::
         s in all && HasTomb(s, key, q) && Seen(q, snapshot) ==> q <= e.seqNum
  }

  lemma AnswerInNumbers(all: seq<Source>, key: Key, snapshot: nat, e: Item)
    requires StackOk(all, key)
    ensures e in Answer(all, key, snapshot) <==> Found(all, key, snapshot, e)
  {
    AnswerIsSimpleRead(all, key, snapshot, e);
    assert forall q: nat :: Shows(q, snapshot) <==> Seen(q, snapshot);
  }

  /** A record of the batch that no range tombstone of the batch deletes. */
  ghost predicate OwnRecord(batch: Source, key: Key, e: Item) {
    && e in batch.items && !e.boundary && e.ukey == key && e.seqNum >= 36_028_797_018_963_968
    && forall q: nat :: HasTomb(batch, key, q) ==> q <= e.seqNum
  }

  /** A batch's own records are found at every snapshot, unless a newer range tombstone
      of the batch deletes them; whatever else is found is older than the snapshot. */
  lemma BatchIsFound(batch: Source, rest: seq<Source>, key: Key, snapshot: nat, e: Item)
    requires StackOk([batch] + rest, key)
    ensures OwnRecord(batch, key, e) ==> e in Answer([batch] + rest, key, snapshot)
    ensures e in Answer([batch] + rest, key, snapshot) && e.seqNum < 36_028_797_018_963_968 ==> e.seqNum < snapshot
  {
    var all := [batch] + rest;
    AnswerInNumbers(all, key, snapshot, e);
    assert all[0] == batch && batch in all;
    if e in batch.items && e.ukey == key {
      PointOf(batch, key, e);
      forall s, q: nat {:trigger s in all, HasTomb(s, key, q)} | s in all && s != batch && HasTomb(s, key, q)
        ensures q < e.seqNum
      {
        var j :| 0 <= j < |all| && all[j] == s;
        assert Newer(all[0], all[j], key);
      }
    }
  }
}
