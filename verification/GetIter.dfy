/**
 getIter: a lookup that opens its sources one at a time, newest first, and keeps
 only the tombstone of the table it is in.
 */
module GetIter {
  import opened Basics
  import opened Lsm
  import opened PointGet

  const NUM_LEVELS: nat := 7

  // ------------------------------------------------------------------ what the cursor knows

  /** SeekGE: the first position at or after key. */
  function FirstGE(items: seq<Item>, key: Key): (i: nat)
    ensures i <= |items|
    ensures forall k :: 0 <= k < i ==> items[k].ukey < key
    ensures i < |items| ==> items[i].ukey >= key
  {
    if items == [] || items[0].ukey >= key then 0 else 1 + FirstGE(items[1..], key)
  }

  /** The tombstone left after rangeDelIter, if any, is consulted. */
  function Consulted(rd: Option<seq<Span>>, tomb: Option<Span>, key: Key): Option<Span> {
    if rd.Some? then Get(rd.value, key) else tomb
  }

  /** The range deletions an iterator loads when it arrives in a new table. */
  function Loads(src: Source, pos: nat): Option<seq<Span>> {
    if pos < |src.items| && src.items[pos].table < |src.dels| then src.dels[src.items[pos].table] else None
  }

  /** The range deletions present after a seek: a memtable or batch offers its
      own at once, a level those of the table it lands in. */
  function SeekLoads(src: Source, pos: nat): Option<seq<Span>> {
    if src.level then Loads(src, pos) else if |src.dels| > 0 then src.dels[0] else None
  }

  function Current(src: Source, pos: nat, key: Key): Option<Span> {
    if !src.level then TombSpan(src, 0, key)
    else if pos < |src.items| then TombSpan(src, src.items[pos].table, key) else None
  }

  ghost predicate SpanShows(tomb: Option<Span>, snapshot: nat) {
    tomb.Some? && VisibleAt(tomb.value.seqs, snapshot)
  }

  /** The tombstone comes from the first k sources. */
  ghost predicate FromFirst(all: seq<Source>, key: Key, k: nat, tomb: Option<Span>) {
    tomb.Some? ==>
      && Descending(tomb.value.seqs)
      && forall q :: q in tomb.value.seqs ==>
           exists i {:trigger all[i]} :: 0 <= i < k && i < |all| && HasTomb(all[i], key, q)
  }

  ghost predicate NoneShow(all: seq<Source>, key: Key, snapshot: nat, k: nat) {
    forall i, q {:trigger HasTomb(all[i], key, q)} ::
      0 <= i < k && i < |all| && HasTomb(all[i], key, q) ==> !Shows(q, snapshot)
  }

  /** Between sources: the tombstone accounts for all visible ones so far. */
  ghost predicate Closed(all: seq<Source>, key: Key, snapshot: nat, k: nat, tomb: Option<Span>) {
    && k <= |all| && FromFirst(all, key, k, tomb)
    && (SpanShows(tomb, snapshot) || NoneShow(all, key, snapshot, k))
  }

  /** At a position of source k-1: only versions of key lie behind, and the
      tombstone is the one of the current table. */
  ghost predicate Open(all: seq<Source>, key: Key, snapshot: nat, k: nat, pos: nat, tomb: Option<Span>) {
    && 1 <= k <= |all| && pos <= |all[k - 1].items| && FromFirst(all, key, k, tomb)
    && (forall i {:trigger all[k - 1].items[i]} :: 0 <= i < pos ==> all[k - 1].items[i].ukey <= key)
    && NoneShow(all, key, snapshot, k - 1)
    && var cur := Current(all[k - 1], pos, key);
       if cur.Some? then tomb == cur else !SpanShows(tomb, snapshot)
  }

  /** Live versions from a position of source k-1 on. */
  ghost function Left(all: seq<Source>, key: Key, snapshot: nat, k: nat, pos: nat): seq<Item> {
    (if 1 <= k <= |all| && pos <= |all[k - 1].items| then Keep(all, key, snapshot, all[k - 1].items[pos..]) else [])
    + AnswerFrom(all, key, snapshot, k)
  }

  // ------------------------------------------------------------------ moving within a source

  /** Leaving a table by stepping from a version of key: it had no tombstone. */
  lemma LeavesNoTomb(src: Source, key: Key, pos: nat, j: nat)
    requires SourceOk(src, key) && src.level && pos <= |src.items|
    requires forall i {:trigger src.items[i]} :: 0 <= i < pos ==> src.items[i].ukey <= key
    requires pos < |src.items| ==> j < src.items[pos].table
    ensures TombSpan(src, j, key) == None
  {
    forall i {:trigger src.items[i]} | 0 <= i < |src.items| && src.items[i].ukey > key
      ensures src.items[i].table != j
    {
      assert i > pos ==> Before(src.items[pos], src.items[i]);
    }
    assert TombOk(src, j, key);
  }

  lemma CurrentTomb(src: Source, key: Key, pos: nat)
    requires SourceOk(src, key)
    ensures Current(src, pos, key).Some? ==>
              && Descending(Current(src, pos, key).value.seqs)
              && forall q :: q in Current(src, pos, key).value.seqs ==> HasTomb(src, key, q)
  {
    var j := if !src.level || pos >= |src.items| then 0 else src.items[pos].table;
    assert TombOk(src, j, key);
  }

  lemma StepOpen(all: seq<Source>, key: Key, snapshot: nat, k: nat, pos: nat, tomb: Option<Span>)
    requires StackOk(all, key) && Open(all, key, snapshot, k, pos, tomb)
    requires pos < |all[k - 1].items| && all[k - 1].items[pos].ukey == key
    ensures var src := all[k - 1];
            var moved := src.level && pos + 1 < |src.items| && src.items[pos + 1].table != src.items[pos].table;
            Open(all, key, snapshot, k, pos + 1, Consulted(if moved then Loads(src, pos + 1) else None, tomb, key))
  {
    assert SourceOk(all[k - 1], key);
    var src := all[k - 1];
    CurrentTomb(src, key, pos + 1);
    if src.level && (pos + 1 == |src.items| || src.items[pos + 1].table != src.items[pos].table) {
      assert pos + 1 < |src.items| ==> Before(src.items[pos], src.items[pos + 1]);
      LeavesNoTomb(src, key, pos + 1, src.items[pos].table);
    }
  }

  lemma SeekOpen(all: seq<Source>, key: Key, snapshot: nat, k: nat, tomb: Option<Span>)
    requires StackOk(all, key) && Closed(all, key, snapshot, k, tomb) && k < |all| && !SpanShows(tomb, snapshot)
    ensures var src := all[k];
            var pos := FirstGE(src.items, key);
            Open(all, key, snapshot, k + 1, pos, Consulted(SeekLoads(src, pos), tomb, key))
  {
    assert SourceOk(all[k], key);
    CurrentTomb(all[k], key, FirstGE(all[k].items, key));
  }

  // ------------------------------------------------------------------ leaving a source

  /** Any tombstone of the source is the one in hand when the source is left. */
  lemma LeavesWithTomb(src: Source, key: Key, pos: nat, q: nat)
    requires SourceOk(src, key) && pos <= |src.items| && HasTomb(src, key, q)
    requires forall i {:trigger src.items[i]} :: 0 <= i < pos ==> src.items[i].ukey <= key
    requires pos < |src.items| ==> src.items[pos].ukey > key
    ensures Current(src, pos, key).Some? && q in Current(src, pos, key).value.seqs
  {
    var j: nat :| TombSpan(src, j, key).Some? && q in TombSpan(src, j, key).value.seqs;
    assert TombOk(src, j, key);
    if src.level {
      var i :| 0 <= i < |src.items| && src.items[i].table == j && src.items[i].ukey > key;
      assert i > pos ==> Before(src.items[pos], src.items[i]);
      assert Reaches(src, src.items[pos].table, key);
    }
  }

  lemma LeaveClosed(all: seq<Source>, key: Key, snapshot: nat, k: nat, pos: nat, tomb: Option<Span>)
    requires StackOk(all, key) && Open(all, key, snapshot, k, pos, tomb)
    requires pos < |all[k - 1].items| ==> all[k - 1].items[pos].ukey > key
    ensures Closed(all, key, snapshot, k, tomb)
    ensures Left(all, key, snapshot, k, pos) == AnswerFrom(all, key, snapshot, k)
  {
    assert SourceOk(all[k - 1], key);
    var src := all[k - 1];
    forall q | HasTomb(src, key, q) && Shows(q, snapshot)
      ensures SpanShows(tomb, snapshot)
    {
      LeavesWithTomb(src, key, pos, q);
      VisibleAtFinds(tomb.value.seqs, snapshot);
    }
    forall i {:trigger src.items[pos..][i]} | 0 <= i < |src.items[pos..]|
      ensures src.items[pos..][i].ukey > key
    {
      assert i > 0 ==> Before(src.items[pos], src.items[pos + i]);
    }
    KeepNone(all, key, snapshot, src.items[pos..]);
  }

  // ------------------------------------------------------------------ stopping early

  /** A visible tombstone deletes everything in the sources below it. */
  lemma TombCoversBelow(all: seq<Source>, key: Key, snapshot: nat, k: nat, tomb: Option<Span>)
    requires StackOk(all, key) && k <= |all| && FromFirst(all, key, k, tomb) && SpanShows(tomb, snapshot)
    ensures AnswerFrom(all, key, snapshot, k) == []
  {
    VisibleAtFinds(tomb.value.seqs, snapshot);
    var q: nat :| q in tomb.value.seqs && Shows(q, snapshot);
    var i :| 0 <= i < k && i < |all| && HasTomb(all[i], key, q);
    forall j, n {:trigger all[j].items[n]} | k <= j < |all| && 0 <= n < |all[j].items|
      ensures !Live(all, key, snapshot, all[j].items[n])
    {
      assert Newer(all[i], all[j], key);
      var e := all[j].items[n];
      if e.ukey == key {
        assert HasPoint(all[j], key, e.seqNum);
      }
    }
    AnswerNone(all, key, snapshot, k);
  }

  lemma TombStops(all: seq<Source>, key: Key, snapshot: nat, k: nat, tomb: Option<Span>)
    requires StackOk(all, key) && Closed(all, key, snapshot, k, tomb) && SpanShows(tomb, snapshot)
    ensures AnswerFrom(all, key, snapshot, k) == []
  {
    TombCoversBelow(all, key, snapshot, k, tomb);
  }

  /** Past a covered position nothing is live, here or below. */
  lemma CoveredStops(all: seq<Source>, key: Key, snapshot: nat, k: nat, pos: nat, tomb: Option<Span>, q: nat)
    requires StackOk(all, key) && Open(all, key, snapshot, k, pos, tomb) && pos < |all[k - 1].items|
    requires all[k - 1].items[pos].ukey >= key
    requires tomb.Some? && q in tomb.value.seqs && Shows(q, snapshot) && q > all[k - 1].items[pos].seqNum
    ensures Closed(all, key, snapshot, k, tomb) && SpanShows(tomb, snapshot)
    ensures Left(all, key, snapshot, k, pos) == [] && AnswerFrom(all, key, snapshot, k) == []
  {
    assert SourceOk(all[k - 1], key);
    var src := all[k - 1];
    VisibleAtFinds(tomb.value.seqs, snapshot);
    var i :| 0 <= i < k && i < |all| && HasTomb(all[i], key, q);
    forall n {:trigger src.items[pos..][n]} | 0 <= n < |src.items[pos..]|
      ensures !Live(all, key, snapshot, src.items[pos..][n])
    {
      assert n > 0 ==> Before(src.items[pos], src.items[pos + n]);
    }
    KeepNone(all, key, snapshot, src.items[pos..]);
    TombCoversBelow(all, key, snapshot, k, tomb);
  }

  // ------------------------------------------------------------------ returning a version

  /** A visible version of key that the tombstone in hand does not cover is live. */
  lemma UncoveredLive(all: seq<Source>, key: Key, snapshot: nat, k: nat, pos: nat, tomb: Option<Span>)
    requires StackOk(all, key) && Open(all, key, snapshot, k, pos, tomb) && pos < |all[k - 1].items|
    requires all[k - 1].items[pos].ukey == key && Shows(all[k - 1].items[pos].seqNum, snapshot)
    requires tomb.Some? ==> forall q :: q in tomb.value.seqs && Shows(q, snapshot) ==> q <= all[k - 1].items[pos].seqNum
    ensures Live(all, key, snapshot, all[k - 1].items[pos])
  {
    assert SourceOk(all[k - 1], key);
    var e := all[k - 1].items[pos];
    forall s, q: nat | s in all && HasTomb(s, key, q) && Shows(q, snapshot)
      ensures q <= e.seqNum
    {
      var i :| 0 <= i < |all| && all[i] == s;
      if i == k - 1 {
        OwnTomb(s, key, pos, q);
      } else if i > k - 1 {
        assert Newer(all[k - 1], all[i], key);
        assert HasPoint(all[k - 1], key, e.seqNum);
      }
    }
  }

  lemma OwnTomb(src: Source, key: Key, pos: nat, q: nat)
    requires SourceOk(src, key) && pos < |src.items| && src.items[pos].ukey == key && HasTomb(src, key, q)
    requires forall i {:trigger src.items[i]} :: 0 <= i < pos ==> src.items[i].ukey <= key
    ensures q <= src.items[pos].seqNum || (Current(src, pos, key).Some? && q in Current(src, pos, key).value.seqs)
  {
    var j: nat :| TombSpan(src, j, key).Some? && q in TombSpan(src, j, key).value.seqs;
    assert TombOk(src, j, key);
    if src.level && j < src.items[pos].table {
      LeavesNoTomb(src, key, pos, j);
    }
  }

  lemma LeftStep(all: seq<Source>, key: Key, snapshot: nat, k: nat, pos: nat)
    requires 1 <= k <= |all| && pos < |all[k - 1].items|
    ensures Left(all, key, snapshot, k, pos) ==
            (if Live(all, key, snapshot, all[k - 1].items[pos]) then [all[k - 1].items[pos]] else [])
            + Left(all, key, snapshot, k, pos + 1)
  {
    assert all[k - 1].items[pos..][1..] == all[k - 1].items[pos + 1..];
  }

  /** The version at hand is the next answer, or it is invisible and is none. */
  lemma LeftTake(all: seq<Source>, key: Key, snapshot: nat, k: nat, pos: nat, tomb: Option<Span>)
    requires StackOk(all, key) && Open(all, key, snapshot, k, pos, tomb) && pos < |all[k - 1].items|
    requires all[k - 1].items[pos].ukey == key
    requires tomb.Some? ==> forall q :: q in tomb.value.seqs && Shows(q, snapshot) ==> q <= all[k - 1].items[pos].seqNum
    ensures Left(all, key, snapshot, k, pos) ==
            (if Shows(all[k - 1].items[pos].seqNum, snapshot) then [all[k - 1].items[pos]] else [])
            + Left(all, key, snapshot, k, pos + 1)
  {
    LeftStep(all, key, snapshot, k, pos);
    if Shows(all[k - 1].items[pos].seqNum, snapshot) {
      UncoveredLive(all, key, snapshot, k, pos, tomb);
    }
  }

  // ------------------------------------------------------------------ the iterator

  function Reversed(s: seq<Source>): (r: seq<Source>) {
    if s == [] then [] else [s[|s| - 1]] + Reversed(s[..|s| - 1])
  }

  /** The levels still to be opened below L0. */
  function Below(version: seq<Source>, level: nat): seq<Source> {
    if level == 0 then (if |version| == 0 then [] else version[1..])
    else if level <= |version| then version[level..] else []
  }

  /** The sources still to be opened, newest first. */
  function Stack(batch: Option<Source>, mem: seq<Source>, l0: seq<Source>, version: seq<Source>,
                 level: nat): seq<Source> {
    var stored := Reversed(mem) + (Reversed(l0) + Below(version, level));
    if batch.Some? then [batch.value] + stored else stored
  }

  lemma PopFirst(first: Source, rest: seq<Source>, all: seq<Source>, done: nat)
    requires done <= |all| && [first] + rest == all[done..]
    ensures done < |all| && first == all[done] && rest == all[done + 1..]
  {
    assert all[done..][0] == first && all[done..][1..] == all[done + 1..];
  }

  lemma Regroup(first: Source, a: seq<Source>, b: seq<Source>)
    ensures ([first] + a) + b == [first] + (a + b)
  {
  }

  lemma PopMem(mem: seq<Source>, l0: seq<Source>, version: seq<Source>, level: nat, all: seq<Source>, done: nat)
    requires done <= |all| && mem != [] && Stack(None, mem, l0, version, level) == all[done..]
    ensures done < |all| && mem[|mem| - 1] == all[done]
            && Stack(None, mem[..|mem| - 1], l0, version, level) == all[done + 1..]
  {
    Regroup(mem[|mem| - 1], Reversed(mem[..|mem| - 1]), Reversed(l0) + Below(version, level));
    PopFirst(mem[|mem| - 1], Stack(None, mem[..|mem| - 1], l0, version, level), all, done);
  }

  lemma NoMem(l0: seq<Source>, version: seq<Source>, level: nat)
    ensures Stack(None, [], l0, version, level) == Reversed(l0) + Below(version, level)
  {
  }

  lemma PopL0(l0: seq<Source>, version: seq<Source>, level: nat, all: seq<Source>, done: nat)
    requires done <= |all| && l0 != [] && Stack(None, [], l0, version, level) == all[done..]
    ensures done < |all| && l0[|l0| - 1] == all[done]
            && Stack(None, [], l0[..|l0| - 1], version, level) == all[done + 1..]
  {
    NoMem(l0, version, level);
    NoMem(l0[..|l0| - 1], version, level);
    Regroup(l0[|l0| - 1], Reversed(l0[..|l0| - 1]), Below(version, level));
    PopFirst(l0[|l0| - 1], Reversed(l0[..|l0| - 1]) + Below(version, level), all, done);
  }

  lemma NoL0(version: seq<Source>, level: nat)
    ensures Stack(None, [], [], version, level) == Below(version, level)
  {
  }

  lemma PopLevel(version: seq<Source>, level: nat, all: seq<Source>, done: nat)
    requires done <= |all| && 0 < level <= |version| && Stack(None, [], [], version, level) == all[done..]
    ensures level < |version| ==>
              done < |all| && version[level] == all[done] && Stack(None, [], [], version, level + 1) == all[done + 1..]
    ensures level == |version| ==> done == |all|
  {
    NoL0(version, level);
    NoL0(version, level + 1);
    if level < |version| {
      assert Below(version, level) == [version[level]] + Below(version, level + 1);
      PopFirst(version[level], Below(version, level + 1), all, done);
    }
  }

  class GetIter {
    const key: Key
    const snapshot: nat
    const indexed: bool                          // the batch has an index
    const version: seq<Source>                   // version.Levels
    var iter: Option<Source>
    var pos: nat
    var iterKey: Option<Item>
    var rangeDelIter: Option<seq<Span>>
    var tombstone: Option<Span>
    var batch: Option<Source>
    var mem: seq<Source>                         // oldest first
    var l0: seq<Source>                          // oldest sublevel first
    var level: nat
    var err: bool
    ghost const all: seq<Source>
    ghost var done: nat

    ghost predicate Valid()
      reads this
    {
      && |version| == NUM_LEVELS
      && done <= |all| && level <= NUM_LEVELS && (level > 0 ==> l0 == [])
      && Stack(batch, mem, l0, version, level) == all[done..]
      && (batch.Some? ==> done == 0)
      && (iter.Some? ==> 0 < done && iter.value == all[done - 1])
      && !err
    }

    constructor (key: Key, snapshot: nat, batch: Option<Source>, indexed: bool, mem: seq<Source>, l0: seq<Source>,
                 version: seq<Source>)
      requires |version| == NUM_LEVELS
      requires StackOk(Stack(batch, mem, l0, version, 0), key)
      ensures Resting() && iter.None? && done == 0 && this.key == key && this.snapshot == snapshot
      ensures this.indexed == indexed && this.batch == batch
      ensures all == Stack(batch, mem, l0, version, 0)
      ensures Pending() == Answer(all, key, snapshot)
    {
      this.key, this.snapshot, this.indexed, this.version := key, snapshot, indexed, version;
      this.batch, this.mem, this.l0, this.level, this.err := batch, mem, l0, 0, false;
      iter, pos, iterKey, rangeDelIter, tombstone := None, 0, None, None, None;
      all := Stack(batch, mem, l0, version, 0);
      done := 0;
    }

    /** The live versions that calls to Next have still to return. */
    ghost function Pending(): seq<Item>
      reads this
    {
      if iter.Some? then Left(all, key, snapshot, done, pos + 1)
      else AnswerFrom(all, key, snapshot, done)
    }

    /** What holds between calls. */
    ghost predicate Resting()
      reads this
    {
      && Valid()
      && (if iter.None? then Closed(all, key, snapshot, done, tombstone)
          else
            && pos < |iter.value.items| && iter.value.items[pos].ukey == key && iterKey == Some(iter.value.items[pos])
            && rangeDelIter.None? && Open(all, key, snapshot, done, pos, tombstone))
    }

    /** What holds inside the loop of Next. */
    ghost predicate Looping()
      reads this
    {
      && Valid()
      && (if iter.None? then Closed(all, key, snapshot, done, tombstone)
          else
            && pos <= |iter.value.items|
            && Open(all, key, snapshot, done, pos, Consulted(rangeDelIter, tombstone, key))
            && (pos < |iter.value.items| ==> iter.value.items[pos].ukey >= key)
            && (iterKey.Some? ==> pos < |iter.value.items| && iterKey.value == iter.value.items[pos])
            && (iterKey.None? && pos < |iter.value.items| ==> iter.value.items[pos].ukey > key))
    }

    ghost function Todo(): seq<Item>
      reads this
    {
      if iter.Some? then Left(all, key, snapshot, done, pos) else AnswerFrom(all, key, snapshot, done)
    }

    /** iter.Next: entering a new table replaces rangeDelIter. */
    method StepIter()
      requires StackOk(all, key) && Looping() && iter.Some? && rangeDelIter.None? && pos < |iter.value.items|
               && iter.value.items[pos].ukey == key
      modifies `pos, `iterKey, `rangeDelIter
      ensures Looping() && pos == old(pos) + 1
      ensures Todo() == Left(all, key, snapshot, done, old(pos) + 1)
    {
      StepOpen(all, key, snapshot, done, pos, tombstone);
      assert SourceOk(all[done - 1], key);
      var items := iter.value.items;
      pos := pos + 1;
      if pos < |items| {
        assert Before(items[pos - 1], items[pos]);
        iterKey := Some(items[pos]);
        if iter.value.level && items[pos].table != items[pos - 1].table {
          rangeDelIter := Loads(iter.value, pos);
        }
      } else {
        iterKey := None;
      }
    }

    /** Seeks to key in a source just taken from the list. */
    method OpenSource(src: Source)
      requires StackOk(all, key) && Valid() && done > 0 && src == all[done - 1]
      requires Closed(all, key, snapshot, done - 1, tombstone) && !SpanShows(tombstone, snapshot)
      modifies `iter, `pos, `iterKey, `rangeDelIter
      ensures Looping() && iter == Some(src)
      ensures Todo() == AnswerFrom(all, key, snapshot, done - 1)
    {
      hide Open, Closed, Left, AnswerFrom, Keep, Stack, FirstGE, TombOk;
      SeekOpen(all, key, snapshot, done - 1, tombstone);
      assert SourceOk(src, key);
      iter, pos := Some(src), FirstGE(src.items, key);
      rangeDelIter := SeekLoads(src, pos);
      iterKey := if pos < |src.items| && !(src.level && src.items[pos].boundary) then Some(src.items[pos]) else None;
      SeekKeeps(all, key, snapshot, done, pos);
    }

    /** Replaces the tombstone if the iterator has entered a new table. */
    method Consult()
      requires Looping() && iter.Some?
      modifies `rangeDelIter, `tombstone
      ensures Looping() && rangeDelIter.None?
    {
      if rangeDelIter.Some? {
        tombstone := Get(rangeDelIter.value, key);
        rangeDelIter := None;
      }
    }

    /** Whether the tombstone covers the key the iterator is at. */
    method Covered() returns (covered: bool)
      requires Looping() && iter.Some? && rangeDelIter.None?
      ensures covered ==> iterKey.Some? && tombstone.Some? &&
                          exists q :: q in tombstone.value.seqs && Shows(q, snapshot) && q > iterKey.value.seqNum
      ensures !covered && iterKey.Some? && tombstone.Some? ==>
                forall q :: q in tombstone.value.seqs && Shows(q, snapshot) ==> q <= iterKey.value.seqNum
    {
      covered := false;
      if iterKey.Some? && tombstone.Some? {
        covered := CoversAt(tombstone.value.seqs, snapshot, iterKey.value.seqNum);
      }
    }

    /** At a covered position the lookup ends. */
    method StopCovered()
      requires StackOk(all, key) && Looping() && iter.Some? && rangeDelIter.None? && iterKey.Some? && tombstone.Some?
      requires exists q :: q in tombstone.value.seqs && Shows(q, snapshot) && q > iterKey.value.seqNum
      modifies `iter
      ensures Resting() && iter.None? && old(Todo()) == [] && Pending() == []
    {
      hide StackOk, Open, Closed, Left, AnswerFrom, Keep;
      ghost var q :| q in tombstone.value.seqs && Shows(q, snapshot) && q > iterKey.value.seqNum;
      CoveredStops(all, key, snapshot, done, pos, tombstone, q);
      iter := None;
    }

    /** At an uncovered version of key: return it if it is visible. */
    method TakeVersion() returns (stop: bool)
      requires StackOk(all, key) && Looping() && iter.Some? && rangeDelIter.None? && iterKey.Some?
               && iterKey.value.ukey == key
      requires tombstone.Some? ==> forall q :: q in tombstone.value.seqs && Shows(q, snapshot) ==>
                 q <= iterKey.value.seqNum
      modifies `pos, `iterKey, `rangeDelIter
      ensures stop ==> Resting() && iterKey.Some? && old(Todo()) == [iterKey.value] + Pending()
      ensures !stop ==> Looping() && Todo() == old(Todo()) && pos == old(pos) + 1 <= |iter.value.items|
    {
      hide StackOk, Open, Closed, Left, AnswerFrom, Keep;
      LeftTake(all, key, snapshot, done, pos, tombstone);
      stop := Shows(iterKey.value.seqNum, snapshot);
      if !stop {
        StepIter();
      }
    }

    method CloseIter()
      requires StackOk(all, key) && Looping() && iter.Some? && rangeDelIter.None?
      requires iterKey.Some? ==> iterKey.value.ukey != key
      modifies `iter
      ensures Looping() && iter.None? && Todo() == old(Todo())
    {
      hide StackOk, Open, Closed, Left, AnswerFrom, Keep;
      LeaveClosed(all, key, snapshot, done, pos, tombstone);
      iter := None;
    }

    /** One look at the open iterator: return its version, stop at a covered
        position, step over an invisible version, or close it. */
    method Examine() returns (stop: bool, r: Option<Item>)
      requires StackOk(all, key) && Looping() && iter.Some?
      modifies `iter, `pos, `iterKey, `rangeDelIter, `tombstone
      ensures stop && r.None? ==> Resting() && old(Todo()) == [] && Pending() == []
      ensures stop && r.Some? ==> Resting() && old(Todo()) == [r.value] + Pending()
      ensures !stop ==> Looping() && Todo() == old(Todo()) && r.None?
      ensures !stop && iter.Some? ==> pos == old(pos) + 1 <= |iter.value.items| && iter == old(iter)
    {
      hide StackOk, Open, Closed, Left, AnswerFrom, Keep;
      Consult();
      var covered := Covered();
      stop, r := true, None;
      if covered {
        StopCovered();
      } else if iterKey.Some? && key == iterKey.value.ukey {
        stop := TakeVersion();
        r := if stop then iterKey else None;
      } else {
        CloseIter();
        stop := false;
      }
    }

    method OpenBatch()
      requires StackOk(all, key) && Looping() && iter.None? && batch.Some?
      modifies `iter, `pos, `iterKey, `rangeDelIter, `batch, `done
      ensures Looping() && Todo() == old(Todo()) && batch.None? && done == old(done) + 1
    {
      hide StackOk, Open, Closed, Left, AnswerFrom, Keep, Reversed, Below;
      var src := batch.value;
      PopFirst(src, Stack(None, mem, l0, version, level), all, done);
      NothingBelow(all, key, snapshot, tombstone);
      batch, done := None, done + 1;
      OpenSource(src);
    }

    method OpenMemtable()
      requires StackOk(all, key) && Looping() && iter.None? && batch.None? && mem != []
               && !SpanShows(tombstone, snapshot)
      modifies `iter, `pos, `iterKey, `rangeDelIter, `mem, `done
      ensures Looping() && Todo() == old(Todo()) && done == old(done) + 1
    {
      hide StackOk, Open, Closed, Left, AnswerFrom, Keep, Stack, Reversed, Below;
      var src := mem[|mem| - 1];
      PopMem(mem, l0, version, level, all, done);
      mem, done := mem[..|mem| - 1], done + 1;
      OpenSource(src);
    }

    /** With no iterator open: opens the next source, or reports that the lookup
        ends here. */
    method OpenNext() returns (more: bool)
      requires StackOk(all, key) && Looping() && iter.None?
      modifies this
      ensures err <==> old(batch).Some? && !indexed
      ensures err ==> !more
      ensures !err ==> Looping() && Todo() == old(Todo()) && batch.None?
      ensures !err && more ==> done == old(done) + 1
      ensures !err && !more ==> iter.None? && Todo() == [] && done == old(done)
    {
      hide StackOk, Open, Closed, Left, AnswerFrom, Keep;
      if batch.Some? {
        if !indexed {
          err, iterKey, more := true, None, false;
        } else {
          OpenBatch();
          more := true;
        }
      } else {
        more := OpenStored();
      }
    }

    method OpenStored() returns (more: bool)
      requires StackOk(all, key) && Looping() && iter.None? && batch.None?
      modifies `iter, `pos, `iterKey, `rangeDelIter, `mem, `l0, `level, `done
      ensures Looping() && Todo() == old(Todo())
      ensures more ==> done == old(done) + 1
      ensures !more ==> iter.None? && Todo() == [] && done == old(done)
    {
      hide StackOk, Open, Closed, Left, AnswerFrom, Keep;
      if tombstone.Some? && VisibleAt(tombstone.value.seqs, snapshot) {
        TombStops(all, key, snapshot, done, tombstone);
        more := false;
      } else if |mem| > 0 {
        OpenMemtable();
        more := true;
      } else {
        more := OpenLevel();
      }
    }

    method OpenLevel() returns (more: bool)
      requires StackOk(all, key) && Looping() && iter.None? && batch.None? && mem == []
               && !SpanShows(tombstone, snapshot)
      modifies `iter, `pos, `iterKey, `rangeDelIter, `l0, `level, `done
      ensures Looping() && Todo() == old(Todo())
      ensures more ==> done == old(done) + 1
      ensures !more ==> iter.None? && Todo() == [] && done == old(done)
    {
      hide StackOk, Open, Closed, Left, AnswerFrom, Keep;
      if level == 0 {
        if |l0| > 0 {
          var src := l0[|l0| - 1];
          PopL0(l0, version, level, all, done);
          l0, done := l0[..|l0| - 1], done + 1;
          OpenSource(src);
          return true;
        }
        level := 1;
      }
      more := OpenLower();
    }

    method OpenLower() returns (more: bool)
      requires StackOk(all, key) && Looping() && iter.None? && batch.None? && mem == [] && level > 0
      requires !SpanShows(tombstone, snapshot)
      modifies `iter, `pos, `iterKey, `rangeDelIter, `level, `done
      ensures Looping() && Todo() == old(Todo())
      ensures more ==> done == old(done) + 1
      ensures !more ==> iter.None? && Todo() == [] && done == old(done)
    {
      hide StackOk, Open, Closed, Left, Keep, Stack, Below;
      PopLevel(version, level, all, done);
      if level >= NUM_LEVELS {
        return false;
      }
      var src := version[level];
      level, done := level + 1, done + 1;
      if |src.dels| == 0 {
        EmptySource(all, key, snapshot, done - 1, tombstone);
      } else {
        OpenSource(src);
      }
      return true;
    }

    /** One turn of the loop: either the call ends with r, or the loop goes on. */
    method Turn() returns (stop: bool, r: Option<Item>)
      requires StackOk(all, key) && Looping()
      modifies this
      ensures err <==> old(batch).Some? && !indexed && stop
      ensures err ==> r == None
      ensures !err && stop ==>
                Resting() && (if r.None? then old(Todo()) == [] == Pending() else old(Todo()) == [r.value] + Pending())
      ensures !stop ==> Looping() && Todo() == old(Todo()) && (batch.Some? ==> batch == old(batch))
      ensures !stop && old(batch).Some? && batch.None? ==> indexed
      ensures !stop ==>
              done == old(done) + 1
              || (done == old(done) && iter.Some? && iter == old(iter) && pos == old(pos) + 1 <= |iter.value.items|)
    {
      hide StackOk, Open, Closed, Left, AnswerFrom, Keep;
      stop, r := false, None;
      if iter.Some? {
        stop, r := Examine();
      }
      if !stop && iter.None? {
        var more := OpenNext();
        stop := !more;
      }
    }

    /** Each call returns the next live version of key, newest first, and None
        once there is none left. */
    method Next() returns (r: Option<Item>)
      requires StackOk(all, key) && Resting()
      modifies this
      ensures err <==> old(batch).Some? && !indexed
      ensures err ==> r == None
      ensures !err ==> Resting()
      ensures !err && old(Pending()) == [] ==> r == None && Pending() == []
      ensures !err && old(Pending()) != [] ==> r == Some(old(Pending())[0]) && Pending() == old(Pending())[1..]
    {
      hide StackOk, Open, Closed, Left, AnswerFrom, Keep;
      if iter.Some? {
        StepIter();
      }
      while true
        invariant Looping() && Todo() == old(Pending()) && (old(batch).Some? && batch.None? ==> indexed)
        invariant batch.Some? ==> batch == old(batch)
        decreases |all| - done, if iter.Some? then |iter.value.items| - pos else 0
      {
        var stop: bool;
        stop, r := Turn();
        if stop {
          return;
        }
      }
    }
  }

  lemma NothingBelow(all: seq<Source>, key: Key, snapshot: nat, tomb: Option<Span>)
    requires Closed(all, key, snapshot, 0, tomb)
    ensures !SpanShows(tomb, snapshot)
  {
    if tomb.Some? {
      VisibleAtFinds(tomb.value.seqs, snapshot);
    }
  }

  lemma {:induction false} KeepDrop(all: seq<Source>, key: Key, snapshot: nat, items: seq<Item>, pos: nat)
    requires pos <= |items| && forall i {:trigger items[i]} :: 0 <= i < pos ==> items[i].ukey != key
    ensures Keep(all, key, snapshot, items) == Keep(all, key, snapshot, items[pos..])
  {
    if pos == 0 {
      assert items[pos..] == items;
    } else {
      KeepDrop(all, key, snapshot, items[1..], pos - 1);
      assert items[1..][pos - 1..] == items[pos..];
    }
  }

  lemma EmptySource(all: seq<Source>, key: Key, snapshot: nat, k: nat, tomb: Option<Span>)
    requires StackOk(all, key) && Closed(all, key, snapshot, k, tomb) && k < |all| && |all[k].dels| == 0
    ensures Closed(all, key, snapshot, k + 1, tomb)
    ensures AnswerFrom(all, key, snapshot, k) == AnswerFrom(all, key, snapshot, k + 1)
  {
    assert SourceOk(all[k], key);
    assert |all[k].items| > 0 ==> all[k].items[0].table < 0;
  }

  /** Nothing before the position a seek lands on is live. */
  lemma SeekKeeps(all: seq<Source>, key: Key, snapshot: nat, k: nat, pos: nat)
    requires 1 <= k <= |all| && pos == FirstGE(all[k - 1].items, key)
    ensures Left(all, key, snapshot, k, pos) == AnswerFrom(all, key, snapshot, k - 1)
  {
    KeepDrop(all, key, snapshot, all[k - 1].items, pos);
  }

  /** Calling Next until it returns None finds all live versions, newest first. */
  method Lookup(key: Key, snapshot: nat, batch: Option<Source>, indexed: bool, mem: seq<Source>, l0: seq<Source>,
                version: seq<Source>) returns (out: seq<Item>, err: bool)
    requires |version| == NUM_LEVELS && StackOk(Stack(batch, mem, l0, version, 0), key)
    ensures err <==> batch.Some? && !indexed
    ensures !err ==> out == Answer(Stack(batch, mem, l0, version, 0), key, snapshot) && NewestFirst(out)
    ensures !err ==> forall e :: e in out <==> Found(Stack(batch, mem, l0, version, 0), key, snapshot, e)
  {
    hide StackOk, Stack, AnswerFrom, Open, Left, Found;
    forall e
      ensures e in Answer(Stack(batch, mem, l0, version, 0), key, snapshot)
              <==> Found(Stack(batch, mem, l0, version, 0), key, snapshot, e)
    {
      AnswerInNumbers(Stack(batch, mem, l0, version, 0), key, snapshot, e);
    }
    AnswerNewestFirst(Stack(batch, mem, l0, version, 0), key, snapshot, 0);
    var g := new GetIter(key, snapshot, batch, indexed, mem, l0, version);
    out, err := [], false;
    while true
      invariant g.Resting() && out + g.Pending() == Answer(g.all, key, snapshot)
      invariant batch.Some? && !indexed ==> g.batch == batch
      invariant g.batch.Some? ==> g.batch == batch
      decreases |g.Pending()|
    {
      var r := g.Next();
      if g.err {
        return [], true;
      }
      if r.None? {
        return;
      }
      out := out + [r.value];
    }
  }
}
