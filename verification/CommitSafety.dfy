/**
 What the commit pipeline promises over every run: the ring is a FIFO queue,
 visibility follows application, the WAL is in sequence order, and no applied
 batch is ever left for nobody to publish.
 */
module CommitSafety {
  import opened Basics
  import opened CommitQueue
  import opened CommitPipeline
  import opened CommitOrder

  // ------------------------------------------------------------------ the write-ahead log

  /** Got as far as a successful WAL write. */
  ghost predicate Logged(pc: Pc) {
    pc == Sequence(Unlock(true)) || pc.ApplyMem? || pc.SetApplied? || Published(pc)
  }

  ghost predicate WalMembers(p: Params, s: State) {
    && (forall i {:trigger s.wal[i]} :: 0 <= i < |s.wal| ==>
          s.wal[i] in s.pcs && Numbered(s.pcs[s.wal[i]]) && s.pcs[s.wal[i]] != Sequence(WriteWal)
              && s.wal[i] !in p.ingest)
    && (forall t :: t in s.pcs && t !in p.ingest && Logged(s.pcs[t]) ==> t in s.wal)
  }

  ghost predicate WalOrdered(p: Params, s: State) {
    forall i, j {:trigger s.wal[i], s.wal[j]} :: 0 <= i < j < |s.wal| ==>
      s.wal[i] != s.wal[j] && End(p, s, s.wal[i]) <= SeqOf(s, s.wal[j])
  }

  /** Only AllocateSeqNum spins and only Commit writes the log. */
  ghost predicate Kinds(p: Params, s: State) {
    forall t :: t in s.pcs && s.pcs[t].Sequence? ==>
      && (s.pcs[t].q.WriteWal? ==> t !in p.ingest)
      && (s.pcs[t].q.SpinVisible? || s.pcs[t].q.BumpZero? ==> t in p.ingest)
  }

  ghost predicate WalInv(p: Params, s: State) {
    WalMembers(p, s) && WalOrdered(p, s) && Kinds(p, s)
  }

  lemma PhaseLogged(p: Params, s: State, t: Tid, pc': Pc)
    requires Goes(p, s, t, pc') && !pc'.Panicked? && Kinds(p, s)
    ensures t !in p.ingest && Logged(pc') ==> Logged(s.pcs[t]) || s.pcs[t] == Sequence(WriteWal)
    ensures Numbered(s.pcs[t]) ==> Numbered(pc') && pc' != Sequence(WriteWal)
    ensures pc'.Sequence? && pc'.q.WriteWal? ==> t !in p.ingest
    ensures pc'.Sequence? && (pc'.q.SpinVisible? || pc'.q.BumpZero?) ==> t in p.ingest
  {
  }

  lemma WalMembersKept(p: Params, s: State, s': State, t: Tid)
    requires WalMembers(p, s) && Kinds(p, s) && Next(p, s, s', t) && !s'.pcs[t].Panicked?
    ensures WalMembers(p, s') && Kinds(p, s')
  {
    PhaseLogged(p, s, t, s'.pcs[t]);
    assert s.wal <= s'.wal;
  }

  /** What is numbered already comes before the batch now being logged. */
  lemma WalBelow(p: Params, s: State, t: Tid, b: Tid)
    requires Ordered(p, s) && Members(s) && Numbering(s) && LastIs(s, t) && t in s.seqs && b in s.seqs && b != t
    ensures End(p, s, b) <= SeqOf(s, t)
  {
    assert b in s.enq;
    var x :| 0 <= x < |s.enq| && s.enq[x] == b;
    assert End(p, s, s.enq[x]) <= SeqOf(s, s.enq[|s.enq| - 1]);
  }

  lemma WalMove(p: Params, s: State, s': State, t: Tid)
    requires Next(p, s, s', t)
    ensures t in s.pcs && (s'.wal == s.wal || (s'.wal == s.wal + [t] && s.pcs[t] == Sequence(WriteWal)))
  {
  }

  lemma WalOrderedKept(p: Params, s: State, s': State, t: Tid)
    requires Lasts(s) && Numbering(s) && Members(s) && Ordered(p, s)
    requires WalMembers(p, s) && WalOrdered(p, s) && Next(p, s, s', t) && (Gives(p, s, s', t) || Keeps(s, s', t))
    ensures WalOrdered(p, s')
  {
    hide Next, Gives, Keeps, End, SeqOf, Ordered;
    WalMove(p, s, s', t);
    forall i, j {:trigger s'.wal[i], s'.wal[j]} | 0 <= i < j < |s'.wal|
      ensures s'.wal[i] != s'.wal[j] && End(p, s', s'.wal[i]) <= SeqOf(s', s'.wal[j])
    {
      assert s'.wal[i] == s.wal[i] && s.wal[i] in s.seqs;
      SeqStays(p, s, s', t, s.wal[i]);
      SeqStays(p, s, s', t, s'.wal[j]);
      if j == |s.wal| {
        WalBelow(p, s, t, s.wal[i]);
      }
    }
  }

  lemma SeqStays(p: Params, s: State, s': State, t: Tid, b: Tid)
    requires (Gives(p, s, s', t) || Keeps(s, s', t)) && b in s.seqs
    ensures b in s'.seqs && End(p, s', b) == End(p, s, b) && SeqOf(s', b) == SeqOf(s, b)
  {
  }

  // ------------------------------------------------------------------ no stranded batch

  /** Thread t will examine the tail again before it blocks. */
  ghost predicate Bound(s: State, t: Tid) {
    t in s.pcs && (s.pcs[t].Publish? || (s.pcs[t].Dequeue? && (s.pcs[t].d == Look || s.pcs[t].d.t == s.deq)))
  }

  ghost predicate TailReady(s: State) {
    s.deq < |s.enq| && s.enq[s.deq] in s.applied
  }

  ghost predicate NotStranded(s: State) {
    TailReady(s) ==> exists t :: Bound(s, t)
  }

  /** A thread bound to the tail stays bound while the tail batch is ready. */
  lemma StaysBound(p: Params, s: State, s': State, t: Tid)
    requires Ring(s) && SelfOk(s, t) && Applied(s) && Next(p, s, s', t) && TailReady(s) && Bound(s, t)
    ensures Bound(s', t)
  {
    FullTest(|s.enq|, s.deq);
    if Consuming(s.pcs[t]) {
      UnpackWord(s.pcs[t].d.h, s.pcs[t].d.t);
      SlotOf(s.deq);
    }
  }

  /** A tail batch becomes ready only by its own committer, who then looks. */
  lemma BecomesReady(p: Params, s: State, s': State, t: Tid)
    requires Ring(s) && SelfOk(s, t) && Applied(s) && Members(s) && Next(p, s, s', t)
    requires !TailReady(s) && TailReady(s')
    ensures Bound(s', t)
  {
  }

  /** Whoever swaps publishes next and looks again. */
  lemma SwapBinds(p: Params, s: State, s': State, t: Tid)
    requires Next(p, s, s', t) && Swaps(s, t)
    ensures Bound(s', t)
  {
  }

  lemma OtherStaysBound(p: Params, s: State, s': State, t: Tid, u: Tid)
    requires Next(p, s, s', t) && !Swaps(s, t) && u != t && Bound(s, u)
    ensures Bound(s', u)
  {
  }

  lemma NotStrandedKept(p: Params, s: State, s': State, t: Tid)
    requires Ring(s) && SelfOk(s, t) && Applied(s) && Members(s) && NotStranded(s) && Next(p, s, s', t)
    ensures NotStranded(s')
  {
    hide Ring, SelfOk, Applied, Members, Next, Swaps, TailReady, Bound;
    if TailReady(s') {
      if !TailReady(s) {
        BecomesReady(p, s, s', t);
      } else if Swaps(s, t) {
        SwapBinds(p, s, s', t);
      } else {
        var u :| Bound(s, u);
        if u == t {
          StaysBound(p, s, s', t);
        } else {
          OtherStaysBound(p, s, s', t, u);
        }
        assert Bound(s', u);
      }
    }
  }

  // ------------------------------------------------------------------ slots are freed

  ghost predicate InRing(s: State, i: nat, x: nat) {
    s.deq <= x < |s.enq| && Slot(x) == i
  }

  ghost predicate Clears(s: State, i: nat, t: Tid) {
    t in s.pcs && s.pcs[t].Publish? && s.pcs[t].u.Clear? && Slot(s.pcs[t].x) == i
  }

  ghost predicate Adds(s: State, i: nat, t: Tid) {
    t in s.pcs && s.pcs[t] == Enqueue(Add) && Slot(|s.enq|) == i
  }

  /** A slot in use is in the ring, or a consumer or the producer is at it. */
  ghost predicate Used(s: State, i: nat) {
    (exists x :: InRing(s, i, x)) || (exists t :: Clears(s, i, t)) || (exists t :: Adds(s, i, t))
  }

  ghost predicate SlotsFreed(s: State) {
    && |s.slots| == SLOTS
    && forall i {:trigger s.slots[i]} :: 0 <= i < SLOTS && s.slots[i] != None ==> Used(s, i)
  }

  lemma SlotsFreedKept(p: Params, s: State, s': State, t: Tid)
    requires SlotsFreed(s) && Ring(s) && Locked(s) && SelfOk(s, t) && Next(p, s, s', t)
    ensures SlotsFreed(s')
  {
    CasConfirms(s, t);
    SlotOf(|s.enq|);
    if s.pcs[t].Publish? {
      SlotOf(s.pcs[t].x);
    }
    forall i {:trigger s'.slots[i]} | 0 <= i < SLOTS && s'.slots[i] != None
      ensures Used(s', i)
    {
      UsedKept(p, s, s', t, i);
    }
  }

  lemma UsedKept(p: Params, s: State, s': State, t: Tid, i: nat)
    requires |s.slots| == SLOTS && i < SLOTS && s.deq <= |s.enq| && Locked(s) && Next(p, s, s', t)
             && s'.slots[i] != None
    requires s.slots[i] != None ==> Used(s, i)
    requires Swaps(s, t) ==> s.pcs[t].d.t == s.deq
    requires s.pcs[t].Enqueue? && s.pcs[t].e.Store? ==> Slot(s.pcs[t].e.head) == Slot(|s.enq|)
    requires s.pcs[t].Publish? && s.pcs[t].u.Clear? ==> Slot(Tail(s.pcs[t].u.ptrs)) == Slot(s.pcs[t].x)
    ensures Used(s', i)
  {
    if s.slots[i] == None {
      assert Adds(s', i, t);
    } else if x: nat :| InRing(s, i, x) {
      assert InRing(s', i, x) || Clears(s', i, t);
    } else if u :| Clears(s, i, u) {
      assert Clears(s', i, u);
    } else {
      var u :| Adds(s, i, u);
      assert Adds(s', i, u) || InRing(s', i, |s.enq|);
    }
  }

  // ------------------------------------------------------------------ every run

  ghost predicate Safe(p: Params, s: State) {
    OrderInv(p, s) && WalInv(p, s) && NotStranded(s) && SlotsFreed(s)
  }

  lemma NextKeepsSafe(p: Params, s: State, s': State, t: Tid)
    requires Safe(p, s) && Next(p, s, s', t)
    ensures Safe(p, s')
  {
    NextKeepsOrder(p, s, s', t);
    NumberMove(p, s, s', t);
    ListedLasts(s);
    WalMembersKept(p, s, s', t);
    WalOrderedKept(p, s, s', t);
    NotStrandedKept(p, s, s', t);
    SlotsFreedKept(p, s, s', t);
  }

  /** States and the committers whose steps connect them. */
  ghost predicate Run(p: Params, ss: seq<State>, ts: seq<Tid>) {
    && |ss| == |ts| + 1 && Init(ss[0])
    && forall i {:trigger ts[i]} :: 0 <= i < |ts| ==> Next(p, ss[i], ss[i + 1], ts[i])
  }

  ghost function Last(ss: seq<State>): State
    requires |ss| > 0
  {
    ss[|ss| - 1]
  }

  lemma InitSafe(p: Params, s: State)
    requires Init(s)
    ensures Safe(p, s)
  {
    InitOrder(p, s);
  }

  lemma RunPrefix(p: Params, ss: seq<State>, ts: seq<Tid>)
    requires Run(p, ss, ts) && ts != []
    ensures Run(p, ss[..|ts|], ts[..|ts| - 1]) && Last(ss[..|ts|]) == ss[|ts| - 1]
    ensures Next(p, ss[|ts| - 1], Last(ss), ts[|ts| - 1])
  {
    assert ts[|ts| - 1] in ts;
  }

  lemma {:induction false} RunSafe(p: Params, ss: seq<State>, ts: seq<Tid>)
    requires Run(p, ss, ts)
    ensures Safe(p, Last(ss))
    decreases |ts|
  {
    if ts == [] {
      InitSafe(p, ss[0]);
    } else {
      RunPrefix(p, ss, ts);
      RunSafe(p, ss[..|ts|], ts[..|ts| - 1]);
      NextKeepsSafe(p, ss[|ts| - 1], Last(ss), ts[|ts| - 1]);
    }
  }

  /** Batches whose committer added them to the ring, in the order of the steps. */
  ghost function Enqueued(ss: seq<State>, ts: seq<Tid>): seq<Tid>
    requires |ss| == |ts| + 1
  {
    if ts == [] then [] else
    var n := |ts| - 1;
    Enqueued(ss[..n + 1], ts[..n]) +
    (if ts[n] in ss[n].pcs && ss[n].pcs[ts[n]] == Enqueue(Add) then [ts[n]] else [])
  }

  /** Batches returned by dequeueApplied, in the order of the steps. */
  ghost function Dequeued(ss: seq<State>, ts: seq<Tid>): seq<Tid>
    requires |ss| == |ts| + 1
  {
    if ts == [] then [] else
    var n := |ts| - 1;
    Dequeued(ss[..n + 1], ts[..n]) + (if Swaps(ss[n], ts[n]) then [ss[n].pcs[ts[n]].d.b] else [])
  }

  lemma {:induction false} RunHistory(p: Params, ss: seq<State>, ts: seq<Tid>)
    requires Run(p, ss, ts)
    ensures Last(ss).deq <= |Last(ss).enq|
    ensures Enqueued(ss, ts) == Last(ss).enq
    ensures Dequeued(ss, ts) == Last(ss).enq[..Last(ss).deq]
    decreases |ts|
  {
    if ts != [] {
      RunPrefix(p, ss, ts);
      RunHistory(p, ss[..|ts|], ts[..|ts| - 1]);
      RunSafe(p, ss[..|ts|], ts[..|ts| - 1]);
      NextHistory(p, ss[|ts| - 1], Last(ss), ts[|ts| - 1]);
    }
  }

  lemma NextHistory(p: Params, s: State, s': State, t: Tid)
    requires Ring(s) && SelfOk(s, t) && Next(p, s, s', t)
    ensures s'.enq == s.enq + (if s.pcs[t] == Enqueue(Add) then [t] else [])
    ensures s'.deq <= |s'.enq|
    ensures s'.enq[..s'.deq] == s.enq[..s.deq] + (if Swaps(s, t) then [s.pcs[t].d.b] else [])
  {
    CasConfirms(s, t);
  }

  /** The ring is a FIFO queue, across wrap-around of its indices: what comes out
      is what went in, in order, once each and already applied. Neither the
      "queue full" nor the "not reached" panic is ever raised. */
  lemma RingIsFifo(p: Params, ss: seq<State>, ts: seq<Tid>)
    requires Run(p, ss, ts)
    ensures Dequeued(ss, ts) <= Enqueued(ss, ts)
    ensures forall x, y :: 0 <= x < y < |Enqueued(ss, ts)| ==> Enqueued(ss, ts)[x] != Enqueued(ss, ts)[y]
    ensures forall b :: b in Dequeued(ss, ts) ==> b in Last(ss).applied
    ensures |Enqueued(ss, ts)| - |Dequeued(ss, ts)| <= |Last(ss).permits| <= SLOTS - 1
    ensures forall t :: t in Last(ss).pcs ==> Last(ss).pcs[t] != Panicked
  {
    RunSafe(p, ss, ts);
    RunHistory(p, ss, ts);
    QueueWithinPermits(Last(ss));
  }

  lemma QueueWithinPermits(s: State)
    requires Distinct(s) && Members(s) && Applied(s)
    ensures |s.enq| - s.deq <= |s.permits|
  {
    var waiting := s.enq[s.deq..];
    forall x | 0 <= x < |waiting|
      ensures waiting[x] in s.permits
    {
      assert waiting[x] == s.enq[s.deq + x];
      assert waiting[x] in s.enq && waiting[x] !in s.enq[..s.deq];
    }
    CountDistinct(waiting, s.permits);
  }

  /** At the moment a batch is dequeued it is the oldest one and it is applied. */
  lemma DequeuesOldestApplied(p: Params, ss: seq<State>, ts: seq<Tid>, t: Tid)
    requires Run(p, ss, ts) && Swaps(Last(ss), t)
    ensures |Dequeued(ss, ts)| < |Enqueued(ss, ts)|
    ensures Last(ss).pcs[t].d.b == Enqueued(ss, ts)[|Dequeued(ss, ts)|]
    ensures Last(ss).pcs[t].d.b in Last(ss).applied
  {
    RunSafe(p, ss, ts);
    RunHistory(p, ss, ts);
    CasConfirms(Last(ss), t);
  }

  // ------------------------------------------------------------------ visibility

  /** A batch owning a sequence number below the visible one has been applied. */
  lemma VisibleMeansApplied(p: Params, ss: seq<State>, ts: seq<Tid>, b: Tid, n: nat)
    requires Run(p, ss, ts) && b in Last(ss).seqs
    requires SeqOf(Last(ss), b) <= n < End(p, Last(ss), b) && n < Last(ss).visible
    ensures b in Last(ss).applied
  {
    RunSafe(p, ss, ts);
    NumberVisible(p, Last(ss), b);
  }

  lemma NumberVisible(p: Params, s: State, b: Tid)
    requires Members(s) && Numbering(s) && Visible(p, s) && Applied(s) && b in s.seqs && SeqOf(s, b) < s.visible
    ensures b in s.applied
  {
    assert b in s.enq;
    var x :| 0 <= x < |s.enq| && s.enq[x] == b;
  }

  /** The visible sequence number only grows and stays within the assigned ones,
      and assigned numbers never change. */
  lemma {:induction false} VisibleOnlyGrows(p: Params, ss: seq<State>, ts: seq<Tid>, i: nat)
    requires Run(p, ss, ts) && i < |ss|
    ensures ss[i].visible <= Last(ss).visible <= Last(ss).logSeqNum
    ensures forall b :: b in ss[i].seqs ==> b in Last(ss).seqs && Last(ss).seqs[b] == ss[i].seqs[b]
    decreases |ts|
  {
    hide Safe, Next, Init;
    RunSafe(p, ss, ts);
    if i < |ts| {
      RunPrefix(p, ss, ts);
      VisibleOnlyGrows(p, ss[..|ts|], ts[..|ts| - 1], i);
      RunSafe(p, ss[..|ts|], ts[..|ts| - 1]);
      SafeGrows(p, ss[|ts| - 1], Last(ss), ts[|ts| - 1]);
    }
    SafeVisible(p, Last(ss));
  }

  lemma SafeVisible(p: Params, s: State)
    requires Safe(p, s)
    ensures s.visible <= s.logSeqNum
  {
  }

  lemma SafeGrows(p: Params, s: State, s': State, t: Tid)
    requires Safe(p, s) && Next(p, s, s', t)
    ensures s.visible <= s'.visible
    ensures forall b :: b in s.seqs ==> b in s'.seqs && s'.seqs[b] == s.seqs[b]
  {
    hide WalInv, NotStranded, SlotsFreed;
    NextGrows(p, s, s', t);
  }

  lemma NextGrows(p: Params, s: State, s': State, t: Tid)
    requires Numbering(s) && Locked(s) && Ordered(p, s) && Visible(p, s) && BumpOk(p, s)
    requires Applied(s) && HolderAt(s, t) && Ratcheted(p, s) && Next(p, s, s', t)
    ensures s.visible <= s'.visible
    ensures forall b :: b in s.seqs ==> b in s'.seqs && s'.seqs[b] == s.seqs[b]
  {
    NumberMove(p, s, s', t);
    VisibleMove(p, s, s', t);
  }

  /** When a committer returns all its records are visible. */
  lemma ReturnedIsVisible(p: Params, ss: seq<State>, ts: seq<Tid>, t: Tid)
    requires Run(p, ss, ts) && t in Last(ss).pcs && Last(ss).pcs[t].Finished?
    ensures t in Last(ss).seqs && Last(ss).seqs[t] + p.counts(t) <= Last(ss).visible && t in Last(ss).applied
  {
    RunSafe(p, ss, ts);
  }

  /** Each batch starts where the one before it ends, but an ingestion leaves out
      number zero. */
  ghost predicate Contiguous(p: Params, s: State) {
    && (forall x {:trigger s.enq[x]} :: 0 < x < |s.enq| && s.enq[x - 1] in s.seqs && s.enq[x] in s.seqs ==>
          Follows(p, s, s.enq[x - 1], s.enq[x]))
    && (forall t :: t in s.seqs && t in p.ingest ==> s.seqs[t] > 0)
  }

  ghost predicate Follows(p: Params, s: State, a: Tid, b: Tid) {
    SeqOf(s, b) == End(p, s, a) || (b in p.ingest && End(p, s, a) == 0 && SeqOf(s, b) == 1)
  }

  lemma ContiguousKept(p: Params, s: State, s': State, t: Tid)
    requires Inv(s) && Numbering(s) && Ordered(p, s) && Visible(p, s) && BumpOk(p, s) && Tight(p, s) && Kinds(p, s)
    requires Next(p, s, s', t) && Contiguous(p, s)
    ensures Contiguous(p, s')
  {
    hide Ring, Producers, Consumers, Holders, Exclusive, Applied, Settled, Kinds, Next, Gives, Keeps, Contiguous;
    NumberMove(p, s, s', t);
    QueueMove(p, s, s', t);
    LastGiven(p, s, s', t);
    if t !in s.seqs && t in s'.seqs {
      NumberGiven(p, s, s', t);
    }
    ContiguousNext(p, s, s', t);
  }

  lemma ContiguousNext(p: Params, s: State, s': State, t: Tid)
    requires Distinct(s) && Contiguous(p, s) && (s'.enq == s.enq || (s'.enq == s.enq + [t] && t !in s'.seqs))
    requires forall b :: b in s.seqs ==> b in s'.seqs && s'.seqs[b] == s.seqs[b]
    requires forall b :: b in s'.seqs && b !in s.seqs ==> b == t && |s.enq| > 0 && s.enq[|s.enq| - 1] == t
    requires t !in s.seqs && t in s'.seqs ==> Given(p, s, s', t)
    ensures Contiguous(p, s')
  {
    hide SeqOf, End;
    forall x {:trigger s'.enq[x]} | 0 < x < |s'.enq| && s'.enq[x - 1] in s'.seqs && s'.enq[x] in s'.seqs
      ensures Follows(p, s', s'.enq[x - 1], s'.enq[x])
    {
      var a, b := s'.enq[x - 1], s'.enq[x];
      assert x < |s.enq| && a == s.enq[x - 1] && b == s.enq[x];
      if a in s.seqs {
        SameNumber(p, s, s', a);
        if b in s.seqs {
          SameNumber(p, s, s', b);
        } else {
          assert x == |s.enq| - 1;
          NewNumber(s', t);
        }
      } else {
        assert false;
      }
    }
  }

  lemma SameNumber(p: Params, s: State, s': State, b: Tid)
    requires b in s.seqs && b in s'.seqs && s'.seqs[b] == s.seqs[b]
    ensures SeqOf(s', b) == SeqOf(s, b) && End(p, s', b) == End(p, s, b)
  {
  }

  lemma NewNumber(s: State, t: Tid)
    requires t in s.seqs
    ensures SeqOf(s, t) == s.seqs[t]
  {
  }

  lemma QueueMove(p: Params, s: State, s': State, t: Tid)
    requires Next(p, s, s', t)
    ensures t in s.pcs && (s'.enq == s.enq || (s'.enq == s.enq + [t] && s.pcs[t] == Enqueue(Add) && s'.seqs == s.seqs))
  {
  }

  lemma LastGiven(p: Params, s: State, s': State, t: Tid)
    requires Gives(p, s, s', t) || Keeps(s, s', t)
    ensures forall b :: b in s.seqs ==> b in s'.seqs && s'.seqs[b] == s.seqs[b]
    ensures forall b :: b in s'.seqs && b !in s.seqs ==> b == t && |s.enq| > 0 && s.enq[|s.enq| - 1] == t
    ensures t !in s.seqs && t in s'.seqs ==> s'.enq == s.enq
  {
  }

  /** The number given is the end of the batch before, or one in place of zero. */
  lemma NumberGiven(p: Params, s: State, s': State, t: Tid)
    requires Locked(s) && Members(s) && Numbering(s) && Tight(p, s) && BumpOk(p, s) && Kinds(p, s)
    requires Next(p, s, s', t) && t !in s.seqs && t in s'.seqs
    ensures Given(p, s, s', t)
  {
  }

  ghost predicate Given(p: Params, s: State, s': State, t: Tid)
    requires t in s'.seqs
  {
    && (t in p.ingest ==> s'.seqs[t] > 0)
    && (|s.enq| > 1 && s.enq[|s.enq| - 2] in s.seqs ==>
          var end := End(p, s, s.enq[|s.enq| - 2]);
          s'.seqs[t] == end || (t in p.ingest && end == 0 && s'.seqs[t] == 1))
  }

  lemma {:induction false} NumbersContiguous(p: Params, ss: seq<State>, ts: seq<Tid>)
    requires Run(p, ss, ts)
    ensures Contiguous(p, Last(ss))
    decreases |ts|
  {
    hide Next, Init, WalMembers, WalOrdered, NotStranded, SlotsFreed;
    if ts != [] {
      RunPrefix(p, ss, ts);
      NumbersContiguous(p, ss[..|ts|], ts[..|ts| - 1]);
      RunSafe(p, ss[..|ts|], ts[..|ts| - 1]);
      assert Next(p, ss[|ts| - 1], ss[|ts|], ts[|ts| - 1]);
      ContiguousKept(p, ss[|ts| - 1], Last(ss), ts[|ts| - 1]);
    } else {
      NoNumbers(p, ss[0]);
    }
  }

  lemma NoNumbers(p: Params, s: State)
    requires Init(s)
    ensures Contiguous(p, s)
  {
  }

  /** The WAL holds each batch once, in sequence-number order, and it holds every
      committed batch that was applied. */
  lemma WalInSequenceOrder(p: Params, ss: seq<State>, ts: seq<Tid>)
    requires Run(p, ss, ts)
    ensures WalOrdered(p, Last(ss))
    ensures forall b :: b in Last(ss).applied && b !in p.ingest ==> b in Last(ss).wal
  {
    RunSafe(p, ss, ts);
  }

  /** When AllocateSeqNum runs its prepare callback, every earlier batch that has
      any record has been applied. */
  lemma PrepareSeesEarlier(p: Params, ss: seq<State>, ts: seq<Tid>, t: Tid, l: nat, x: nat)
    requires Run(p, ss, ts) && t in Last(ss).pcs
    requires Last(ss).pcs[t] == Sequence(SpinVisible(l)) && Goes(p, Last(ss), t, Sequence(Unlock(true)))
    requires x < |Last(ss).enq| && Last(ss).enq[x] != t && p.counts(Last(ss).enq[x]) > 0
    ensures Last(ss).enq[x] in Last(ss).applied
  {
    hide WalInv, NotStranded, SlotsFreed, Ring, Producers, Consumers, Holders, Exclusive, Settled, BumpOk, Tight,
         Ratcheted, Members, Locked, Distinct, Applied, Numbering, Ordered, Visible;
    RunSafe(p, ss, ts);
    SpinCovers(p, Last(ss), t, l, x);
    NumberVisible(p, Last(ss), Last(ss).enq[x]);
  }

  lemma SpinCovers(p: Params, s: State, t: Tid, l: nat, x: nat)
    requires Listed(s) && Ordered(p, s) && SpinOk(p, s) && t in s.pcs && s.pcs[t] == Sequence(SpinVisible(l))
    requires x < |s.enq| && s.enq[x] != t
    ensures s.enq[x] in s.seqs && End(p, s, s.enq[x]) <= l
  {
    hide Members, Applied;
    EarlierNumbered(s);
    assert SpinsAt(s.pcs[t], l) && SpinAt(p, s, l);
    assert s.enq[|s.enq| - 1] == t;
    var y := |s.enq| - 2;
    assert s.enq[x] in s.seqs && s.enq[y] in s.seqs;
    EndsBefore(p, s, x, y);
  }

  lemma EndsBefore(p: Params, s: State, x: nat, y: nat)
    requires Ordered(p, s) && x <= y < |s.enq| && s.enq[x] in s.seqs && s.enq[y] in s.seqs
    ensures End(p, s, s.enq[x]) <= End(p, s, s.enq[y])
  {
  }

  // ------------------------------------------------------------------ liveness

  /** If every publisher is blocked in commit.Wait, the queue is empty or its
      oldest batch has not been applied. */
  lemma NoStrandedBatch(p: Params, ss: seq<State>, ts: seq<Tid>)
    requires Run(p, ss, ts)
    requires forall t :: t in Last(ss).pcs ==> !Last(ss).pcs[t].Dequeue? && !Last(ss).pcs[t].Publish?
    ensures |Dequeued(ss, ts)| <= |Enqueued(ss, ts)|
    ensures |Dequeued(ss, ts)| < |Enqueued(ss, ts)| ==> Enqueued(ss, ts)[|Dequeued(ss, ts)|] !in Last(ss).applied
  {
    RunSafe(p, ss, ts);
    RunHistory(p, ss, ts);
  }

  /** Committer t can take a step, other than to fail; releasing the lock after a
      failure is such a step. */
  ghost predicate CanMove(p: Params, s: State, t: Tid) {
    exists pc' :: Goes(p, s, t, pc') && !pc'.FailedEarly? && (pc'.FailedLate? ==> s.pcs[t].Sequence?)
  }

  /** Steps that wait for nobody. */
  ghost predicate Free(pc: Pc) {
    || pc.ApplyMem? || pc.SetApplied? || pc.Dequeue? || pc.Publish? || pc.Release?
    || (pc.Enqueue? && (pc.e.Load? || pc.e.Store?))
    || (pc.Sequence? && !pc.q.SpinVisible?)
  }

  /** The oldest batch in the queue has failed. */
  ghost predicate TailFailed(s: State) {
    s.deq < |s.enq| && s.enq[s.deq] in s.pcs && s.pcs[s.enq[s.deq]].FailedLate?
  }

  /** Nobody is free to move and the oldest batch has not failed. */
  ghost predicate Blocked(s: State) {
    !TailFailed(s) && forall t :: t in s.pcs ==> !Free(s.pcs[t])
  }

  lemma FreeMoves(p: Params, s: State, t: Tid)
    requires t in s.pcs && |s.slots| == SLOTS && Free(s.pcs[t])
    ensures CanMove(p, s, t)
  {
    match s.pcs[t]
    case ApplyMem => assert Goes(p, s, t, SetApplied);
    case SetApplied => assert Goes(p, s, t, Dequeue(Look));
    case Release => assert Goes(p, s, t, Finished);
    case Enqueue(e) =>
      var full := (Tail(s.headTail) + SLOTS) % WRAP == Head(s.headTail);
      assert Goes(p, s, t, if e.Store? then Enqueue(Add)
                           else if full then Panicked
                           else Enqueue(Spin(Head(s.headTail))));
    case Sequence(q) => SequenceMoves(p, s, t, q);
    case Dequeue(d) => DequeueMoves(p, s, t, d);
    case Publish(u, x, b) => PublishMoves(p, s, t, u);
  }

  lemma SequenceMoves(p: Params, s: State, t: Tid, q: SeqPc)
    requires t in s.pcs && |s.slots| == SLOTS && s.pcs[t] == Sequence(q) && !q.SpinVisible?
    ensures CanMove(p, s, t)
  {
    var pc' := match q
      case Assign => Sequence(if t !in p.ingest then WriteWal
                              else if s.logSeqNum == 0 then BumpZero
                              else SpinVisible(s.logSeqNum))
      case BumpZero => Sequence(SpinVisible(0))
      case WriteWal => Sequence(Unlock(true))
      case Unlock(ok) => if ok then ApplyMem else FailedLate;
    assert Goes(p, s, t, pc');
  }

  lemma DequeueMoves(p: Params, s: State, t: Tid, d: DeqPc)
    requires t in s.pcs && |s.slots| == SLOTS && s.pcs[t] == Dequeue(d)
    ensures CanMove(p, s, t)
  {
    var pc' := match d
      case Look => if Tail(s.headTail) == Head(s.headTail) then Wait else Dequeue(Fetch(s.headTail, |s.enq|, s.deq))
      case Fetch(ptrs, h, x) =>
        (match s.slots[Slot(Tail(ptrs))] case None => Wait case Some(b) => Dequeue(Check(ptrs, h, x, b)))
      case Check(ptrs, h, x, b) => if b in s.applied then Dequeue(Swap(ptrs, h, x, b)) else Wait
      case Swap(ptrs, h, x, b) => if s.headTail == ptrs then Publish(Clear(ptrs), x, b) else Dequeue(Look);
    assert Goes(p, s, t, pc');
  }

  lemma PublishMoves(p: Params, s: State, t: Tid, u: PubPc)
    requires t in s.pcs && |s.slots| == SLOTS && s.pcs[t].Publish? && s.pcs[t].u == u
    ensures CanMove(p, s, t)
  {
    var x, b := s.pcs[t].x, s.pcs[t].b;
    var pc' := match u
      case Clear(_) => if b in s.applied then Publish(Ratchet, x, b) else Panicked
      case Ratchet => Publish(if End(p, s, b) <= s.visible then Done else Raise(s.visible), x, b)
      case Raise(cur) => Publish(if s.visible == cur then Done else Ratchet, x, b)
      case Done => Dequeue(Look);
    assert Goes(p, s, t, pc');
  }

  /** The spin in enqueue ends: the slot it waits for is free. */
  lemma EnqueueMoves(p: Params, s: State, t: Tid)
    requires Ring(s) && Locked(s) && SlotsFreed(s) && SelfOk(s, t) && Blocked(s) && s.pcs[t].Enqueue?
    ensures CanMove(p, s, t)
  {
    if s.pcs[t].e.Add? {
      assert Goes(p, s, t, Sequence(Assign));
    } else {
      SlotOf(|s.enq|);
      SlotsBefore(s.deq, |s.enq|);
      var i := Slot(|s.enq|);
      assert forall x: nat :: !InRing(s, i, x);
      assert forall u :: !Clears(s, i, u) && !Adds(s, i, u);
      assert s.slots[i] == None;
      assert Goes(p, s, t, Enqueue(Store(s.pcs[t].e.head)));
    }
  }

  /** Blocked committers cannot all be waiting behind an applied batch. */
  lemma BlockedTail(s: State)
    requires Members(s) && Applied(s) && NotStranded(s) && Blocked(s) && s.deq < |s.enq|
    ensures s.enq[s.deq] in s.pcs && s.pcs[s.enq[s.deq]].Sequence?
  {
    assert s.enq[s.deq] in s.enq;
  }

  /** Then everything before the batch being sequenced has been dequeued. */
  lemma SpinTail(s: State, t: Tid)
    requires Members(s) && Applied(s) && Distinct(s) && NotStranded(s) && Blocked(s) && Lasts(s)
    requires t in s.pcs && s.pcs[t].Sequence?
    ensures |s.enq| > 0 && s.deq == |s.enq| - 1
  {
    assert LastIs(s, t);
    BlockedTail(s);
    assert LastIs(s, s.enq[s.deq]);
  }

  /** And published, so the number it waits for is visible. */
  lemma SpinReached(p: Params, s: State, l: nat)
    requires |s.enq| > 0 && s.deq == |s.enq| - 1 && Settled(s) && Blocked(s) && Ratcheted(p, s) && SpinAt(p, s, l)
    ensures s.visible == l
  {
    if |s.enq| > 1 {
      var b := s.enq[|s.enq| - 2];
      assert b in s.done ==> End(p, s, b) <= s.visible;
    }
  }

  /** The spin in AllocateSeqNum ends: all earlier batches are published. */
  lemma SpinMoves(p: Params, s: State, t: Tid, l: nat)
    requires OrderInv(p, s) && NotStranded(s) && Blocked(s) && t in s.pcs && s.pcs[t] == Sequence(SpinVisible(l))
    ensures CanMove(p, s, t)
  {
    hide Members, Locked, Producers, Consumers, Holders, Exclusive, Distinct, BumpOk, Tight, Ordered, Applied, Settled,
         Numbering, Ratcheted, Visible, NotStranded, Blocked, SpinAt;
    ListedLasts(s);
    SpinTail(s, t);
    assert SpinsAt(s.pcs[t], l);
    SpinReached(p, s, l);
    assert Goes(p, s, t, Sequence(Unlock(true)));
  }

  /** Every permit was lost to a committer that failed before it was enqueued. */
  ghost predicate Leaked(s: State) {
    |s.permits| == SLOTS - 1 && forall u :: u in s.permits && u in s.pcs ==> s.pcs[u].FailedEarly?
  }

  /** No deadlock: while a committer is not through, and unless the oldest batch in
      the queue has failed, somebody can take a step that is not a failure if and
      only if the permits have not all leaked. */
  lemma NoDeadlock(p: Params, ss: seq<State>, ts: seq<Tid>, t: Tid)
    requires Run(p, ss, ts) && t in Last(ss).pcs && !TailFailed(Last(ss))
    requires !Last(ss).pcs[t].Finished? && !Last(ss).pcs[t].FailedEarly?
    ensures (exists u :: CanMove(p, Last(ss), u)) <==> !Leaked(Last(ss))
  {
    hide Next, Safe, Leaked, CanMove, TailFailed, Free, Blocked;
    var s := Last(ss);
    RunSafe(p, ss, ts);
    if Leaked(s) {
      SafeMembers(p, s);
      LeakedStuck(p, s);
    } else {
      var u := InPipeline(p, s, t);
      SomebodyMoves(p, s, u);
    }
  }

  lemma SafeMembers(p: Params, s: State)
    requires Safe(p, s)
    ensures Members(s)
  {
  }

  /** Nobody holds a permit who could still move, and nobody gets one. */
  lemma LeakedStuck(p: Params, s: State)
    requires Members(s) && Leaked(s)
    ensures forall u :: !CanMove(p, s, u)
  {
    hide Enqueues, Sequences, Dequeues, Publishes;
    forall u ensures !CanMove(p, s, u) {
      assert u in s.pcs ==> (u in s.permits <==> Holds(s.pcs[u]));
    }
  }

  /** Whoever is not through is in the pipeline, can enter it, or finds somebody else
      in it. */
  lemma InPipeline(p: Params, s: State, t: Tid) returns (u: Tid)
    requires Safe(p, s) && !Leaked(s) && t in s.pcs && !s.pcs[t].Finished? && !s.pcs[t].FailedEarly?
    ensures u in s.pcs && !s.pcs[u].Finished? && !s.pcs[u].FailedEarly? && (s.pcs[u].Begin? ==> CanMove(p, s, u))
  {
    hide WalInv, NotStranded, SlotsFreed, Producers, Consumers, Holders, Exclusive, Settled, Applied, Locked;
    u := t;
    if s.pcs[t].Begin? {
      if |s.permits| < SLOTS - 1 {
        assert Goes(p, s, t, WantLock);
      } else {
        u :| u in s.permits && u in s.pcs && !s.pcs[u].FailedEarly?;
      }
    }
  }

  lemma SomebodyMoves(p: Params, s: State, t: Tid)
    requires Safe(p, s) && !TailFailed(s) && t in s.pcs
    requires !s.pcs[t].Finished? && !s.pcs[t].FailedEarly? && (s.pcs[t].Begin? ==> CanMove(p, s, t))
    ensures exists u :: CanMove(p, s, u)
  {
    if !s.pcs[t].Begin? {
      if u :| u in s.pcs && Free(s.pcs[u]) {
        FreeMoves(p, s, u);
      } else {
        BlockedMoves(p, s, t);
      }
    }
  }

  lemma LockHolderMoves(p: Params, s: State, u: Tid)
    requires Safe(p, s) && Blocked(s) && u in s.pcs && InLock(s.pcs[u])
    ensures CanMove(p, s, u)
  {
    match s.pcs[u]
    case Enqueue(_) => EnqueueMoves(p, s, u);
    case Sequence(q) => SpinMoves(p, s, u, q.logSeq);
  }

  lemma BlockedMoves(p: Params, s: State, t: Tid)
    requires Safe(p, s) && Blocked(s) && t in s.pcs
    requires !s.pcs[t].Begin? && !s.pcs[t].Finished? && !s.pcs[t].FailedEarly?
    ensures exists u :: CanMove(p, s, u)
  {
    if s.mu.Some? {
      LockHolderMoves(p, s, s.mu.value);
    } else {
      UnlockedMoves(p, s, t);
    }
  }

  lemma UnlockedMoves(p: Params, s: State, t: Tid)
    requires Locked(s) && Members(s) && Applied(s) && Settled(s) && NotStranded(s) && |s.slots| == SLOTS
    requires Blocked(s) && t in s.pcs && s.mu == None
    requires !s.pcs[t].Begin? && !s.pcs[t].Finished? && !s.pcs[t].FailedEarly?
    ensures CanMove(p, s, t)
  {
    if s.pcs[t].WantLock? {
      assert Goes(p, s, t, Enqueue(Load));
    } else {
      QueuedWaits(s, t);
      WaiterDone(s, t);
      assert Goes(p, s, t, Release);
    }
  }

  /** With the lock free, a failed batch is at the tail or there is none. */
  lemma QueuedWaits(s: State, t: Tid)
    requires Locked(s) && Members(s) && Applied(s) && NotStranded(s)
    requires Blocked(s) && t in s.pcs && s.mu == None && Holds(s.pcs[t]) && !s.pcs[t].WantLock?
             && !s.pcs[t].FailedEarly?
    ensures s.pcs[t].Wait?
  {
    if s.pcs[t].FailedLate? {
      assert t in s.enq;
      var x :| 0 <= x < |s.enq| && s.enq[x] == t;
      BlockedTail(s);
    }
  }

  lemma WaiterDone(s: State, t: Tid)
    requires Locked(s) && Members(s) && Applied(s) && Settled(s) && NotStranded(s)
    requires Blocked(s) && t in s.pcs && s.pcs[t].Wait? && s.mu == None
    ensures t in s.done
  {
    assert t in s.enq;
    var x :| 0 <= x < |s.enq| && s.enq[x] == t;
    if s.deq < |s.enq| {
      BlockedTail(s);
    }
  }
}
