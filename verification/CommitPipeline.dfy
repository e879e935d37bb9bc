/**
 commitPipeline as a state machine: any number of committers run Commit or
 AllocateSeqNum, one atomic step at a time, in any interleaving. Each committer
 is named by the batch it commits.
 */
module CommitPipeline {
  import opened Basics
  import opened CommitQueue

  type Tid = nat

  /** Inside enqueue, with mu held. */
  datatype EnqPc = Load | Spin(head: nat) | Store(head: nat) | Add

  /** In the queue, with mu still held. */
  datatype SeqPc = Assign | BumpZero | WriteWal | SpinVisible(logSeq: nat) | Unlock(ok: bool)

  /** Inside dequeueApplied. `h` and `t` are the unbounded counters behind the
      two indices that `ptrs` packs. */
  datatype DeqPc =
    | Look
    | Fetch(ptrs: nat, h: nat, t: nat)
    | Check(ptrs: nat, h: nat, t: nat, b: Tid)
    | Swap(ptrs: nat, h: nat, t: nat, b: Tid)

  /** After a successful swap, until commit.Done(). */
  datatype PubPc = Clear(ptrs: nat) | Ratchet | Raise(cur: nat) | Done

  datatype Pc =
    | Begin
    | WantLock                                   // commitQueueSem acquired
    | Enqueue(e: EnqPc)
    | Sequence(q: SeqPc)
    | ApplyMem
    | SetApplied
    | Dequeue(d: DeqPc)
    | Publish(u: PubPc, x: nat, b: Tid)          // batch b, the x-th enqueued
    | Wait
    | Release
    | Finished
    | FailedEarly                                // ErrInvalidBatch
    | FailedLate                                 // WAL or memtable error
    | Panicked

  /** What each committer brings: its record count, and whether it is a call to
      AllocateSeqNum. */
  datatype Params = Params(counts: nat -> nat, ingest: set<Tid>)

  datatype State = State(
    pcs: map<Tid, Pc>,
    headTail: nat,
    slots: seq<Option<Tid>>,
    enq: seq<Tid>,                               // every batch enqueued, in order
    deq: nat,                                    // how many of them were dequeued
    mu: Option<Tid>,
    permits: set<Tid>,                           // holders of commitQueueSem
    logSeqNum: nat,
    visible: nat,
    seqs: map<Tid, nat>,                         // sequence numbers assigned
    wal: seq<Tid>,
    applied: set<Tid>,
    done: set<Tid>)                              // commit.Done() called

  ghost function Slot(x: nat): (r: nat)
    ensures r < SLOTS
  {
    x % SLOTS
  }

  ghost function SeqOf(s: State, b: Tid): nat {
    if b in s.seqs then s.seqs[b] else 0
  }

  /** One past the last sequence number of b. */
  ghost function End(p: Params, s: State, b: Tid): nat {
    SeqOf(s, b) + p.counts(b)
  }

  ghost predicate Init(s: State) {
    && (forall t :: t in s.pcs ==> s.pcs[t] == Begin)
    && s.headTail == 0 && |s.slots| == SLOTS && (forall i :: 0 <= i < SLOTS ==> s.slots[i] == None)
    && s.enq == [] && s.deq == 0 && s.mu == None && s.permits == {}
    && s.visible == s.logSeqNum && s.seqs == map[] && s.wal == [] && s.applied == {} && s.done == {}
  }

  // ------------------------------------------------------------------ steps

  ghost predicate Consuming(pc: Pc) {
    pc.Dequeue? && pc.d != Look
  }

  /** Fewer than 2^32 enqueues happen between a consumer's load and its CAS. */
  ghost predicate NoLapping(s: State) {
    forall t :: t in s.pcs && Consuming(s.pcs[t]) ==> |s.enq| + 1 < s.pcs[t].d.h + WRAP
  }

  ghost predicate Enqueues(s: State, e: EnqPc, pc': Pc)
    requires |s.slots| == SLOTS
  {
    match e
    case Load =>
      pc' == if (Tail(s.headTail) + SLOTS) % WRAP == Head(s.headTail) then Panicked else Enqueue(Spin(Head(s.headTail)))
    case Spin(head) => s.slots[Slot(head)] == None && pc' == Enqueue(Store(head))
    case Store(head) => pc' == Enqueue(Add)
    case Add => NoLapping(s) && pc' == Sequence(Assign)
  }

  ghost predicate Sequences(p: Params, s: State, t: Tid, q: SeqPc, pc': Pc) {
    match q
    case Assign =>
      pc' == Sequence(if t !in p.ingest then WriteWal
                      else if s.logSeqNum == 0 then BumpZero
                      else SpinVisible(s.logSeqNum))
    case BumpZero => pc' == Sequence(SpinVisible(0))
    case WriteWal => pc' == Sequence(Unlock(true)) || pc' == Sequence(Unlock(false))
    case SpinVisible(logSeq) => s.visible == logSeq && pc' == Sequence(Unlock(true))
    case Unlock(ok) => pc' == if ok then ApplyMem else FailedLate
  }

  ghost predicate Dequeues(s: State, d: DeqPc, pc': Pc)
    requires |s.slots| == SLOTS
  {
    match d
    case Look =>
      pc' == if Tail(s.headTail) == Head(s.headTail) then Wait else Dequeue(Fetch(s.headTail, |s.enq|, s.deq))
    case Fetch(ptrs, h, x) =>
      pc' == (match s.slots[Slot(Tail(ptrs))] case None => Wait case Some(b) => Dequeue(Check(ptrs, h, x, b)))
    case Check(ptrs, h, x, b) => pc' == if b in s.applied then Dequeue(Swap(ptrs, h, x, b)) else Wait
    case Swap(ptrs, h, x, b) => pc' == if s.headTail == ptrs then Publish(Clear(ptrs), x, b) else Dequeue(Look)
  }

  ghost predicate Publishes(p: Params, s: State, pc: Pc, pc': Pc)
    requires pc.Publish?
  {
    match pc.u
    case Clear(_) => pc' == if pc.b in s.applied then Publish(Ratchet, pc.x, pc.b) else Panicked
    case Ratchet => pc' == Publish(if End(p, s, pc.b) <= s.visible then Done else Raise(s.visible), pc.x, pc.b)
    case Raise(cur) => pc' == Publish(if s.visible == cur then Done else Ratchet, pc.x, pc.b)
    case Done => pc' == Dequeue(Look)
  }

  /** Control flow: committer t may go on to pc'. */
  ghost predicate Goes(p: Params, s: State, t: Tid, pc': Pc) {
    t in s.pcs && |s.slots| == SLOTS &&
    match s.pcs[t]
    case Begin => |s.permits| < SLOTS - 1 && pc' == WantLock
    case WantLock => (s.mu == None && pc' == Enqueue(Load)) || (t !in p.ingest && pc' == FailedEarly)
    case Enqueue(e) => Enqueues(s, e, pc')
    case Sequence(q) => Sequences(p, s, t, q, pc')
    case ApplyMem => pc' == SetApplied || (t !in p.ingest && pc' == FailedLate)
    case SetApplied => pc' == Dequeue(Look)
    case Dequeue(d) => Dequeues(s, d, pc')
    case Publish(_, _, _) => Publishes(p, s, s.pcs[t], pc')
    case Wait => t in s.done && pc' == Release
    case Release => pc' == Finished
    case _ => false
  }

  /** The step of t is a dequeue that takes effect. */
  ghost predicate Swaps(s: State, t: Tid) {
    t in s.pcs && s.pcs[t].Dequeue? && s.pcs[t].d.Swap? && s.headTail == s.pcs[t].d.ptrs
  }

  /** Effect: what the step of t to pc' writes to each shared variable. */
  ghost function After(p: Params, s: State, t: Tid, pc': Pc): State
    requires t in s.pcs && |s.slots| == SLOTS
  {
    var pc := s.pcs[t];
    State(
      s.pcs[t := pc'],
      if pc == Enqueue(Add) then (s.headTail + WRAP) % (WRAP * WRAP)
      else if Swaps(s, t) then Pack(Head(pc.d.ptrs), (Tail(pc.d.ptrs) + 1) % WRAP) else s.headTail,
      if pc.Enqueue? && pc.e.Store? then s.slots[Slot(pc.e.head) := Some(t)]
      else if pc.Publish? && pc.u.Clear? then s.slots[Slot(Tail(pc.u.ptrs)) := None] else s.slots,
      if pc == Enqueue(Add) then s.enq + [t] else s.enq,
      if Swaps(s, t) then s.deq + 1 else s.deq,
      if pc.WantLock? && pc'.Enqueue? then Some(t) else if pc.Sequence? && pc.q.Unlock? then None else s.mu,
      if pc.Begin? then s.permits + {t} else if pc.Release? then s.permits - {t} else s.permits,
      s.logSeqNum + (if pc == Sequence(Assign) then p.counts(t) else if pc == Sequence(BumpZero) then 1 else 0),
      if pc.Publish? && pc.u == Raise(s.visible) then End(p, s, pc.b) else s.visible,
      if pc == Sequence(Assign) && pc' != Sequence(BumpZero) then s.seqs[t := s.logSeqNum]
      else if pc == Sequence(BumpZero) then s.seqs[t := 1] else s.seqs,
      if pc == Sequence(WriteWal) && pc' == Sequence(Unlock(true)) then s.wal + [t] else s.wal,
      if pc.SetApplied? then s.applied + {t} else s.applied,
      if pc.Publish? && pc.u.Done? then s.done + {pc.b} else s.done)
  }

  /** Committer t takes one atomic step. */
  ghost predicate Next(p: Params, s: State, s': State, t: Tid) {
    t in s'.pcs && Goes(p, s, t, s'.pcs[t]) && s' == After(p, s, t, s'.pcs[t])
  }

  // ------------------------------------------------------------------ phases

  ghost predicate Holds(pc: Pc) {
    !pc.Begin? && !pc.Finished?
  }

  ghost predicate InLock(pc: Pc) {
    pc.Enqueue? || pc.Sequence?
  }

  ghost predicate Leaving(pc: Pc) {
    pc.Release? || pc.Finished?
  }

  ghost predicate Published(pc: Pc) {
    pc.Dequeue? || pc.Publish? || pc.Wait? || Leaving(pc)
  }

  ghost predicate Queued(pc: Pc) {
    pc.Sequence? || pc.ApplyMem? || pc.SetApplied? || pc.FailedLate? || Published(pc)
  }

  /** Has its sequence number. */
  ghost predicate Numbered(pc: Pc) {
    Queued(pc) && pc != Sequence(Assign) && pc != Sequence(BumpZero)
  }

  // ------------------------------------------------------------------ invariants

  /** The ring holds the batches between tail and head, each in its slot. */
  ghost predicate Ring(s: State) {
    && |s.slots| == SLOTS && s.deq <= |s.enq| < s.deq + SLOTS
    && s.headTail == Word(|s.enq|, s.deq)
    && (forall x {:trigger s.enq[x]} :: s.deq <= x < |s.enq| ==> s.slots[Slot(x)] == Some(s.enq[x]))
  }

  ghost predicate Distinct(s: State) {
    forall x, y {:trigger s.enq[x], s.enq[y]} :: 0 <= x < y < |s.enq| ==> s.enq[x] != s.enq[y]
  }

  ghost predicate Members(s: State) {
    && (forall t :: t in s.pcs ==> !s.pcs[t].Panicked?)
    && (forall t :: t in s.enq <==> t in s.pcs && Queued(s.pcs[t]))
    && (forall t :: t in s.permits <==> t in s.pcs && Holds(s.pcs[t]))
    && |s.permits| <= SLOTS - 1
  }

  ghost predicate Locked(s: State) {
    && (forall t :: t in s.pcs && InLock(s.pcs[t]) ==> s.mu == Some(t))
    && (forall t :: t in s.pcs && s.pcs[t].Sequence? ==> |s.enq| > 0 && s.enq[|s.enq| - 1] == t)
    && (s.mu.Some? ==> s.mu.value in s.pcs && InLock(s.pcs[s.mu.value]))
  }

  ghost predicate ProducerOk(s: State, t: Tid)
    requires t in s.pcs && |s.slots| == SLOTS
  {
    var pc := s.pcs[t];
    pc.Enqueue? ==>
      && (pc.e.Spin? || pc.e.Store? ==> pc.e.head == |s.enq| % WRAP)
      && (pc.e.Store? ==> s.slots[Slot(|s.enq|)] == None)
      && (pc.e.Add? ==> s.slots[Slot(|s.enq|)] == Some(t))
  }

  ghost predicate ConsumerOk(s: State, t: Tid)
    requires t in s.pcs
  {
    var pc := s.pcs[t];
    Consuming(pc) ==>
      && pc.d.ptrs == Word(pc.d.h, pc.d.t) && pc.d.t < pc.d.h <= pc.d.t + SLOTS
      && pc.d.h <= |s.enq| < pc.d.h + WRAP && pc.d.t <= s.deq
      && (!pc.d.Fetch? && pc.d.t == s.deq ==> s.deq < |s.enq| && pc.d.b == s.enq[s.deq])
      && (pc.d.Swap? && pc.d.t == s.deq ==> pc.d.b in s.applied)
  }

  ghost predicate HolderOk(s: State, t: Tid)
    requires t in s.pcs && |s.slots| == SLOTS
  {
    var pc := s.pcs[t];
    pc.Publish? ==>
      && pc.x < s.deq <= |s.enq| && pc.b == s.enq[pc.x] && pc.b !in s.done
      && (pc.u.Clear? ==>
            |s.enq| <= pc.x + SLOTS && s.slots[Slot(pc.x)] == Some(pc.b) && Tail(pc.u.ptrs) == pc.x % WRAP)
  }

  ghost predicate Producers(s: State) {
    && |s.slots| == SLOTS
    && forall t :: t in s.pcs ==> ProducerOk(s, t)
  }

  ghost predicate Consumers(s: State) {
    forall t :: t in s.pcs ==> ConsumerOk(s, t)
  }

  ghost predicate Holders(s: State) {
    && |s.slots| == SLOTS
    && forall t :: t in s.pcs ==> HolderOk(s, t)
  }

  /** Each dequeued batch is published by one thread at most. */
  ghost predicate Exclusive(s: State) {
    forall t, u {:trigger s.pcs[t], s.pcs[u]} ::
      t in s.pcs && u in s.pcs && t != u && s.pcs[t].Publish? && s.pcs[u].Publish? ==> s.pcs[t].x != s.pcs[u].x
  }

  ghost predicate Applied(s: State) {
    && s.deq <= |s.enq|
    && (forall x {:trigger s.enq[x]} :: 0 <= x < s.deq ==> s.enq[x] in s.applied)
    && (forall t :: t in s.applied <==> t in s.pcs && Published(s.pcs[t]))
    && (forall t :: t in s.pcs && Leaving(s.pcs[t]) ==> t in s.done)
    && (forall b :: b in s.done ==> b in s.enq[..s.deq])
  }

  /** Thread t has still to publish the x-th batch. */
  ghost predicate Owes(s: State, t: Tid, x: nat) {
    t in s.pcs && s.pcs[t].Publish? && s.pcs[t].x == x
  }

  /** Every dequeued batch is done or some thread still has to publish it. */
  ghost predicate Settled(s: State) {
    && s.deq <= |s.enq|
    && forall x {:trigger s.enq[x]} :: 0 <= x < s.deq && s.enq[x] !in s.done ==> exists t :: Owes(s, t, x)
  }

  ghost predicate Inv(s: State) {
    && Ring(s) && Distinct(s) && Members(s) && Locked(s) && Producers(s) && Consumers(s)
    && Holders(s) && Exclusive(s) && Applied(s) && Settled(s)
  }

  lemma InitInv(s: State)
    requires Init(s)
    ensures Inv(s)
  {
  }

  // ------------------------------------------------------------------ the ring

  lemma SlotsBefore(lo: nat, hi: nat)
    requires hi < lo + SLOTS
    ensures forall x {:trigger Slot(x)} :: lo <= x < hi ==> Slot(x) != Slot(hi)
  {
    forall x {:trigger Slot(x)} | lo <= x < hi
      ensures Slot(x) != Slot(hi)
    {
      DistinctSlots(x, hi);
    }
  }

  lemma SlotsAfter(lo: nat, hi: nat)
    requires hi <= lo + SLOTS
    ensures forall x {:trigger Slot(x)} :: lo < x < hi ==> Slot(x) != Slot(lo)
  {
    forall x {:trigger Slot(x)} | lo < x < hi
      ensures Slot(x) != Slot(lo)
    {
      DistinctSlots(lo, x);
    }
  }

  /** What the moving thread knows. */
  ghost predicate SelfOk(s: State, t: Tid) {
    |s.slots| == SLOTS && t in s.pcs && ProducerOk(s, t) && ConsumerOk(s, t) && HolderOk(s, t)
  }

  ghost predicate HasRoom(s: State, t: Tid) {
    t in s.pcs && s.pcs[t].Enqueue? ==> |s.enq| + 1 < s.deq + SLOTS
  }

  /** A successful CAS confirms that the tail is still where the thread saw it. */
  lemma CasConfirms(s: State, t: Tid)
    requires Ring(s) && SelfOk(s, t)
    ensures Swaps(s, t) ==> s.pcs[t].d.t == s.deq
  {
    if Swaps(s, t) {
      WordIdentifies(s.pcs[t].d.h, s.pcs[t].d.t, |s.enq|, s.deq);
    }
  }

  lemma RingKept(p: Params, s: State, s': State, t: Tid)
    requires Ring(s) && SelfOk(s, t) && HasRoom(s, t) && Next(p, s, s', t)
    ensures Ring(s')
  {
    CasConfirms(s, t);
    match s.pcs[t]
    case Enqueue(e) =>
      SlotOf(|s.enq|);
      SlotsBefore(s.deq, |s.enq|);
      AddHead(|s.enq|, s.deq);
    case Dequeue(_) =>
      AddTail(|s.enq|, s.deq);
    case Publish(_, x, _) =>
      SlotOf(x);
      SlotsAfter(x, x + SLOTS);
    case _ =>
  }

  lemma DistinctKept(p: Params, s: State, s': State, t: Tid)
    requires Distinct(s) && Members(s) && Next(p, s, s', t)
    ensures Distinct(s')
  {
  }

  // ------------------------------------------------------------------ members and permits

  lemma PhaseMembers(p: Params, s: State, t: Tid, pc': Pc)
    requires Goes(p, s, t, pc') && !pc'.Panicked?
    ensures Queued(pc') <==> Queued(s.pcs[t]) || s.pcs[t] == Enqueue(Add)
    ensures Holds(pc') <==> s.pcs[t].Begin? || (Holds(s.pcs[t]) && !s.pcs[t].Release?)
    ensures s.pcs[t].Begin? ==> |s.permits| < SLOTS - 1
  {
  }

  lemma MembersKept(p: Params, s: State, s': State, t: Tid)
    requires Members(s) && Next(p, s, s', t) && !s'.pcs[t].Panicked?
    ensures Members(s')
  {
    PhaseMembers(p, s, t, s'.pcs[t]);
  }

  /** Entries in the ring never outnumber the permits of other committers. */
  lemma Room(s: State, t: Tid)
    requires Ring(s) && Distinct(s) && Members(s) && Applied(s) && t in s.pcs
    ensures HasRoom(s, t)
  {
    if s.pcs[t].Enqueue? {
      var waiting := s.enq[s.deq..];
      forall x | 0 <= x < |waiting|
        ensures waiting[x] in s.permits - {t}
      {
        assert waiting[x] == s.enq[s.deq + x];
        assert waiting[x] in s.enq && waiting[x] !in s.enq[..s.deq];
      }
      CountDistinct(waiting, s.permits - {t});
    }
  }

  lemma {:induction false} CountDistinct(q: seq<Tid>, within: set<Tid>)
    requires forall x :: 0 <= x < |q| ==> q[x] in within
    requires forall x, y :: 0 <= x < y < |q| ==> q[x] != q[y]
    ensures |q| <= |within|
  {
    if q != [] {
      CountDistinct(q[1..], within - {q[0]});
    }
  }

  /** The "queue full" panic of enqueue and the "not reached" panic of publish. */
  lemma NoPanic(p: Params, s: State, s': State, t: Tid)
    requires Ring(s) && SelfOk(s, t) && HasRoom(s, t) && Applied(s) && Next(p, s, s', t)
    ensures !s'.pcs[t].Panicked?
  {
    FullTest(|s.enq|, s.deq);
  }

  // ------------------------------------------------------------------ the lock

  lemma LockedKept(p: Params, s: State, s': State, t: Tid)
    requires Locked(s) && Next(p, s, s', t) && !s'.pcs[t].Panicked?
    ensures Locked(s')
  {
  }

  // ------------------------------------------------------------------ locals

  lemma ProducersKept(p: Params, s: State, s': State, t: Tid)
    requires Producers(s) && Locked(s) && Members(s) && Ring(s) && SelfOk(s, t) && Next(p, s, s', t)
    ensures Producers(s')
  {
    ProducerSelf(p, s, s', t);
    forall u | u in s.pcs && u != t
      ensures ProducerOk(s', u)
    {
      ProducerOther(p, s, s', t, u);
    }
  }

  lemma ProducerSelf(p: Params, s: State, s': State, t: Tid)
    requires Ring(s) && SelfOk(s, t) && Next(p, s, s', t)
    ensures ProducerOk(s', t)
  {
    UnpackWord(|s.enq|, s.deq);
    SlotOf(|s.enq|);
  }

  lemma ProducerOther(p: Params, s: State, s': State, t: Tid, u: Tid)
    requires Locked(s) && Members(s) && SelfOk(s, t) && u in s.pcs && u != t && ProducerOk(s, u) && Next(p, s, s', t)
    ensures ProducerOk(s', u)
  {
    if s.pcs[t].Publish? {
      SlotOf(s.pcs[t].x);
      assert s.pcs[t].b in s.enq;
    }
  }

  lemma ConsumersKept(p: Params, s: State, s': State, t: Tid)
    requires Consumers(s) && Ring(s) && SelfOk(s, t) && Next(p, s, s', t)
    ensures Consumers(s')
  {
    ConsumerSelf(p, s, s', t);
    forall u | u in s.pcs && u != t
      ensures ConsumerOk(s', u)
    {
      ConsumerOther(p, s, s', t, u);
    }
  }

  lemma ConsumerSelf(p: Params, s: State, s': State, t: Tid)
    requires Ring(s) && SelfOk(s, t) && Next(p, s, s', t)
    ensures ConsumerOk(s', t)
  {
    FullTest(|s.enq|, s.deq);
    if Consuming(s.pcs[t]) {
      UnpackWord(s.pcs[t].d.h, s.pcs[t].d.t);
      SlotOf(s.pcs[t].d.t);
    }
  }

  lemma ConsumerOther(p: Params, s: State, s': State, t: Tid, u: Tid)
    requires Ring(s) && u in s.pcs && u != t && ConsumerOk(s, u) && Next(p, s, s', t)
    ensures ConsumerOk(s', u)
  {
  }

  lemma HoldersKept(p: Params, s: State, s': State, t: Tid)
    requires Holders(s) && Ring(s) && Distinct(s) && Members(s) && Exclusive(s) && Applied(s)
    requires SelfOk(s, t) && Next(p, s, s', t) && Ring(s')
    ensures Holders(s')
  {
    HolderSelf(p, s, s', t);
    forall u | u in s.pcs && u != t
      ensures HolderOk(s', u)
    {
      HolderOther(p, s, s', t, u);
    }
  }

  lemma HolderSelf(p: Params, s: State, s': State, t: Tid)
    requires Ring(s) && Distinct(s) && Applied(s) && SelfOk(s, t) && Next(p, s, s', t)
    ensures HolderOk(s', t)
  {
    CasConfirms(s, t);
    if Consuming(s.pcs[t]) {
      UnpackWord(s.pcs[t].d.h, s.pcs[t].d.t);
    }
  }

  lemma HolderOther(p: Params, s: State, s': State, t: Tid, u: Tid)
    requires s'.deq <= |s'.enq| && Distinct(s) && Members(s) && Exclusive(s) && SelfOk(s, t)
    requires u in s.pcs && u != t && HolderOk(s, u) && Next(p, s, s', t)
    ensures HolderOk(s', u)
  {
    if s.pcs[u].Publish? && s.pcs[t].Publish? {
      ApartSlots(s, t, u);
    } else if s.pcs[u].Publish? && s.pcs[t].Enqueue? {
      NotLapped(s, t, u);
    }
  }

  /** A producer about to store or publish its slot has not caught up with a
      consumer that has still to clear that slot. */
  lemma NotLapped(s: State, t: Tid, u: Tid)
    requires Members(s) && |s.slots| == SLOTS
    requires t in s.pcs && s.pcs[t].Enqueue? && ProducerOk(s, t)
    requires u in s.pcs && s.pcs[u].Publish? && HolderOk(s, u)
    ensures s.pcs[t].e.Store? && s.pcs[u].u.Clear? ==> Slot(s.pcs[t].e.head) != Slot(s.pcs[u].x)
    ensures s.pcs[t].e.Add? && s.pcs[u].u.Clear? ==> |s.enq| < s.pcs[u].x + SLOTS
  {
    SlotOf(|s.enq|);
    assert s.pcs[u].b in s.enq && t !in s.enq;
    assert |s.enq| == s.pcs[u].x + SLOTS ==> Slot(|s.enq|) == Slot(s.pcs[u].x);
  }

  /** Two threads that own dequeued batches own different batches, and different
      slots while both have still to clear theirs. */
  lemma ApartSlots(s: State, t: Tid, u: Tid)
    requires Distinct(s) && Exclusive(s) && |s.slots| == SLOTS && t != u
    requires t in s.pcs && s.pcs[t].Publish? && HolderOk(s, t)
    requires u in s.pcs && s.pcs[u].Publish? && HolderOk(s, u)
    ensures s.pcs[t].b != s.pcs[u].b
    ensures s.pcs[t].u.Clear? && s.pcs[u].u.Clear? ==> Slot(Tail(s.pcs[t].u.ptrs)) != Slot(s.pcs[u].x)
  {
    var x, y := s.pcs[t].x, s.pcs[u].x;
    assert s.enq[x] != s.enq[y];
    SlotOf(x);
    SlotsAfter(x, x + SLOTS);
    SlotsAfter(y, y + SLOTS);
  }

  lemma ExclusiveKept(p: Params, s: State, s': State, t: Tid)
    requires Exclusive(s) && Holders(s) && Ring(s) && SelfOk(s, t) && Next(p, s, s', t)
    ensures Exclusive(s')
  {
    CasConfirms(s, t);
  }

  // ------------------------------------------------------------------ publication

  lemma PhaseApplied(p: Params, s: State, t: Tid, pc': Pc)
    requires Goes(p, s, t, pc') && !pc'.Panicked?
    ensures Published(pc') <==> Published(s.pcs[t]) || s.pcs[t].SetApplied?
    ensures Leaving(pc') ==> Leaving(s.pcs[t]) || t in s.done
  {
  }

  lemma AppliedKept(p: Params, s: State, s': State, t: Tid)
    requires Applied(s) && Ring(s) && SelfOk(s, t) && Next(p, s, s', t) && !s'.pcs[t].Panicked?
    ensures Applied(s')
  {
    hide ProducerOk, Goes;
    PhaseApplied(p, s, t, s'.pcs[t]);
    CasConfirms(s, t);
    assert s.enq[..s.deq] <= s'.enq[..s'.deq];
    if s.pcs[t].Publish? {
      assert s.enq[..s.deq][s.pcs[t].x] == s.pcs[t].b;
    }
  }

  lemma SettledKept(p: Params, s: State, s': State, t: Tid)
    requires Settled(s) && Ring(s) && SelfOk(s, t) && Next(p, s, s', t) && !s'.pcs[t].Panicked?
    ensures Settled(s')
  {
    CasConfirms(s, t);
    forall x {:trigger s'.enq[x]} | 0 <= x < s'.deq && s'.enq[x] !in s'.done
      ensures exists u :: Owes(s', u, x)
    {
      if x < s.deq {
        assert s'.enq[x] == s.enq[x];
        var u :| Owes(s, u, x);
        assert Owes(s', u, x);
      } else {
        assert Owes(s', t, x);
      }
    }
  }
}
