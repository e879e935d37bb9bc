/**
 Sequence numbers, the WAL and visibility over every interleaving of the commit
 pipeline, and the absence of stranded batches and deadlock.
 */
module CommitOrder {
  import opened CommitQueue
  import opened CommitPipeline

  ghost predicate SpinsAt(pc: Pc, l: nat) {
    pc == Sequence(SpinVisible(l))
  }

  // ------------------------------------------------------------------ invariants

  ghost predicate Numbering(s: State) {
    forall t :: t in s.seqs <==> t in s.pcs && Numbered(s.pcs[t])
  }

  /** Sequence numbers follow the queue order and do not overlap. */
  ghost predicate Ordered(p: Params, s: State) {
    && (forall x, y {:trigger s.enq[x], s.enq[y]} ::
          0 <= x < y < |s.enq| && s.enq[x] in s.seqs && s.enq[y] in s.seqs ==>
              End(p, s, s.enq[x]) <= SeqOf(s, s.enq[y]))
    && (forall x {:trigger s.enq[x]} :: 0 <= x < |s.enq| && s.enq[x] in s.seqs ==> End(p, s, s.enq[x]) <= s.logSeqNum)
  }

  ghost predicate Visible(p: Params, s: State) {
    && s.visible <= s.logSeqNum && 0 <= s.deq <= |s.enq|
    && (forall y {:trigger s.enq[y]} :: s.deq <= y < |s.enq| && s.enq[y] in s.seqs ==> s.visible <= SeqOf(s, s.enq[y]))
  }

  /** While an ingestion takes the extra number, nothing else has one. */
  ghost predicate BumpOk(p: Params, s: State) {
    forall t :: t in s.pcs && s.pcs[t] == Sequence(BumpZero) ==>
      && s.visible == 0 && s.logSeqNum == p.counts(t)
      && (forall x {:trigger s.enq[x]} :: 0 <= x < |s.enq| && s.enq[x] in s.seqs ==> End(p, s, s.enq[x]) == 0)
  }

  /** The last batch waits for l, which is where the batch before it ends. */
  ghost predicate SpinAt(p: Params, s: State, l: nat) {
    && |s.enq| > 0 && s.visible <= l
    && (if |s.enq| == 1 then s.visible == l else End(p, s, s.enq[|s.enq| - 2]) == l)
  }

  ghost predicate SpinOk(p: Params, s: State) {
    forall t, l {:trigger SpinsAt(s.pcs[t], l)} :: t in s.pcs && SpinsAt(s.pcs[t], l) ==>
      SpinAt(p, s, l)
  }

  /** The next number to hand out is where the last numbered batch ends. */
  ghost predicate Tight(p: Params, s: State) {
    && (s.enq == [] ==> s.logSeqNum == s.visible)
    && (|s.enq| > 0 ==>
          var last := s.enq[|s.enq| - 1];
          if last in s.seqs then s.logSeqNum == End(p, s, last)
          else last in s.pcs && (s.pcs[last] == Sequence(Assign) ==>
            if |s.enq| == 1 then s.logSeqNum == s.visible else s.logSeqNum == End(p, s, s.enq[|s.enq| - 2])))
  }

  /** A publisher raises visibility, and a batch is done only once visible. */
  ghost predicate Ratcheted(p: Params, s: State) {
    && (forall t :: t in s.pcs && s.pcs[t].Publish? ==>
          && (s.pcs[t].u.Raise? ==> s.pcs[t].u.cur < End(p, s, s.pcs[t].b))
          && (s.pcs[t].u.Done? ==> End(p, s, s.pcs[t].b) <= s.visible))
    && (forall b :: b in s.done ==> End(p, s, b) <= s.visible)
  }

  ghost predicate OrderInv(p: Params, s: State) {
    && Inv(s) && Numbering(s) && Ordered(p, s) && Visible(p, s) && BumpOk(p, s) && SpinOk(p, s)
    && Tight(p, s) && Ratcheted(p, s)
  }

  lemma InitOrder(p: Params, s: State)
    requires Init(s)
    ensures OrderInv(p, s)
  {
    InitInv(s);
  }

  // ------------------------------------------------------------------ numbering

  lemma PhaseNumbered(p: Params, s: State, t: Tid, pc': Pc)
    requires Goes(p, s, t, pc') && !pc'.Panicked?
    ensures Numbered(pc') <==>
            Numbered(s.pcs[t]) || s.pcs[t] == Sequence(BumpZero)
                || (s.pcs[t] == Sequence(Assign) && pc' != Sequence(BumpZero))
  {
  }

  lemma NumberingKept(p: Params, s: State, s': State, t: Tid)
    requires Numbering(s) && Next(p, s, s', t) && !s'.pcs[t].Panicked?
    ensures Numbering(s')
  {
    PhaseNumbered(p, s, t, s'.pcs[t]);
  }

  /** The step hands t, the last batch in the queue, its numbers. */
  ghost predicate Gives(p: Params, s: State, s': State, t: Tid) {
    && t !in s.seqs && t in s'.seqs && s'.seqs == s.seqs[t := s'.seqs[t]]
    && s'.enq == s.enq && |s.enq| > 0 && s.enq[|s.enq| - 1] == t && s'.visible == s.visible && s'.deq == s.deq
    && s.logSeqNum <= s'.logSeqNum == s'.seqs[t] + p.counts(t) && s.visible <= s'.seqs[t]
    && (forall x {:trigger s.enq[x]} :: 0 <= x < |s.enq| && s.enq[x] in s.seqs ==> End(p, s, s.enq[x]) <= s'.seqs[t])
  }

  ghost predicate Keeps(s: State, s': State, t: Tid) {
    && s'.seqs == s.seqs && s.logSeqNum <= s'.logSeqNum
    && (s'.enq == s.enq || (s'.enq == s.enq + [t] && t !in s.seqs))
  }

  lemma NumberMove(p: Params, s: State, s': State, t: Tid)
    requires Numbering(s) && Locked(s) && Ordered(p, s) && Visible(p, s) && BumpOk(p, s) && Next(p, s, s', t)
    ensures Gives(p, s, s', t) || Keeps(s, s', t)
  {
    if s.pcs[t] == Sequence(Assign) || s.pcs[t] == Sequence(BumpZero) {
      assert t !in s.seqs;
    }
  }

  lemma OrderedKept(p: Params, s: State, s': State, t: Tid)
    requires Ordered(p, s) && Distinct(s') && (Gives(p, s, s', t) || Keeps(s, s', t))
    ensures Ordered(p, s')
  {
  }

  /** Only the last batch can still be without its numbers. */
  lemma EarlierNumbered(s: State)
    requires Numbering(s) && Members(s) && Locked(s) && Distinct(s)
    ensures forall x {:trigger s.enq[x]} :: 0 <= x < |s.enq| - 1 ==> s.enq[x] in s.seqs
    ensures |s.enq| > 0 && !s.pcs[s.enq[|s.enq| - 1]].Sequence? ==> s.enq[|s.enq| - 1] in s.seqs
  {
    forall x {:trigger s.enq[x]} | 0 <= x < |s.enq|
      ensures s.enq[x] in s.pcs && Queued(s.pcs[s.enq[x]])
      ensures x < |s.enq| - 1 ==> s.enq[x] in s.seqs
    {
      assert s.enq[x] in s.enq;
    }
  }

  // ------------------------------------------------------------------ visibility

  /** The step ratchets visibility up to the end of the x-th batch. */
  ghost predicate Raises(p: Params, s: State, s': State, x: nat) {
    && x < s.deq <= |s.enq| && s.enq[x] in s.seqs && s.enq[x] in s.applied
    && s.visible < s'.visible == End(p, s, s.enq[x])
  }

  lemma VisibleMove(p: Params, s: State, s': State, t: Tid)
    requires Numbering(s) && Applied(s) && HolderAt(s, t) && Ratcheted(p, s) && Next(p, s, s', t)
    ensures Ratchets(p, s, s') && s.visible <= s'.visible && s.deq <= s'.deq
  {
    if s'.visible != s.visible {
      assert Raises(p, s, s', s.pcs[t].x);
    }
  }

  ghost predicate HolderAt(s: State, t: Tid) {
    t in s.pcs && |s.slots| == SLOTS && HolderOk(s, t)
  }

  /** Visibility moves as one of the two kinds above says. */
  ghost predicate Ratchets(p: Params, s: State, s': State) {
    s'.visible == s.visible || exists x :: Raises(p, s, s', x)
  }

  lemma VisibleKept(p: Params, s: State, s': State, t: Tid)
    requires Ordered(p, s) && Visible(p, s) && Ratchets(p, s, s') && s.deq <= s'.deq <= |s'.enq|
    requires Gives(p, s, s', t) || Keeps(s, s', t)
    requires Distinct(s)
    ensures Visible(p, s')
  {
  }

  lemma BumpKept(p: Params, s: State, s': State, t: Tid)
    requires Ordered(p, s) && Visible(p, s) && BumpOk(p, s) && Locked(s) && Ratchets(p, s, s') && Next(p, s, s', t)
    ensures BumpOk(p, s')
  {
  }

  ghost predicate Listed(s: State) {
    Numbering(s) && Members(s) && Locked(s) && Distinct(s) && Applied(s)
  }

  /** Batch u is the last in the queue and is being sequenced. */
  ghost predicate LastIs(s: State, u: Tid) {
    && |s.enq| > 0 && s.enq[|s.enq| - 1] == u && u !in s.applied
    && (|s.enq| > 1 ==> s.enq[|s.enq| - 2] in s.seqs && s.enq[|s.enq| - 2] != u)
  }

  /** Only a batch being sequenced can be without its numbers, and it is the last. */
  ghost predicate Lasts(s: State) {
    && (forall u :: u in s.pcs && s.pcs[u].Sequence? ==> LastIs(s, u))
    && (|s.enq| > 0 ==> var last := s.enq[|s.enq| - 1]; last in s.seqs || (last in s.pcs && s.pcs[last].Sequence?))
  }

  lemma ListedLasts(s: State)
    requires Listed(s)
    ensures Lasts(s)
  {
    EarlierNumbered(s);
    if |s.enq| > 0 {
      assert s.enq[|s.enq| - 1] in s.enq;
    }
  }

  /** While the last batch is being sequenced, visibility stays below it. */
  lemma RaiseStays(p: Params, s: State, s': State, u: Tid)
    requires LastIs(s, u) && Ordered(p, s) && Ratchets(p, s, s')
    ensures |s.enq| == 1 ==> s'.visible == s.visible
    ensures |s.enq| > 1 ==> s'.visible == s.visible || s'.visible <= End(p, s, s.enq[|s.enq| - 2])
  {
    if s'.visible != s.visible {
      var x: nat :| Raises(p, s, s', x);
      assert s.enq[x] != u;
      assert x < |s.enq| - 2 ==> End(p, s, s.enq[x]) <= SeqOf(s, s.enq[|s.enq| - 2]);
    }
  }

  lemma SpinKept(p: Params, s: State, s': State, t: Tid)
    requires Lasts(s) && Numbering(s) && Locked(s)
    requires Ordered(p, s) && Visible(p, s) && BumpOk(p, s) && SpinOk(p, s) && Tight(p, s)
    requires Ratchets(p, s, s') && Next(p, s, s', t)
    ensures SpinOk(p, s')
  {
    forall u, l {:trigger SpinsAt(s'.pcs[u], l)} | u in s'.pcs && SpinsAt(s'.pcs[u], l)
      ensures SpinAt(p, s', l)
    {
      RaiseStays(p, s, s', u);
      if u == t {
        SpinSelf(p, s, s', t, l);
      } else {
        SpinOther(p, s, s', t, u, l);
      }
    }
  }

  lemma SpinSelf(p: Params, s: State, s': State, t: Tid, l: nat)
    requires Next(p, s, s', t) && SpinsAt(s'.pcs[t], l) && Visible(p, s) && BumpOk(p, s) && Tight(p, s)
    requires LastIs(s, t) && Numbering(s)
    ensures SpinAt(p, s', l)
  {
  }

  lemma SpinOther(p: Params, s: State, s': State, t: Tid, u: Tid, l: nat)
    requires Next(p, s, s', t) && u != t && u in s.pcs && SpinsAt(s.pcs[u], l) && Locked(s) && SpinOk(p, s)
    requires |s.enq| == 1 ==> s'.visible == s.visible
    requires |s.enq| > 1 ==> s'.visible == s.visible || s'.visible <= End(p, s, s.enq[|s.enq| - 2])
    ensures SpinAt(p, s', l)
  {
  }

  lemma TightKept(p: Params, s: State, s': State, t: Tid)
    requires Lasts(s) && Numbering(s) && Locked(s) && Ordered(p, s) && Tight(p, s)
    requires Ratchets(p, s, s') && Next(p, s, s', t) && (Gives(p, s, s', t) || Keeps(s, s', t))
    ensures Tight(p, s')
  {
    if |s.enq| > 0 && s.enq[|s.enq| - 1] !in s.seqs && !Gives(p, s, s', t) {
      RaiseStays(p, s, s', s.enq[|s.enq| - 1]);
    }
  }

  /** Batches being published or done have their numbers. */
  ghost predicate Owned(s: State) {
    && (forall t :: t in s.pcs && s.pcs[t].Publish? ==> s.pcs[t].b in s.seqs)
    && (forall b :: b in s.done ==> b in s.seqs)
  }

  lemma OwnedNumbered(s: State)
    requires Numbering(s) && Applied(s) && Holders(s)
    ensures Owned(s)
  {
    forall t | t in s.pcs && s.pcs[t].Publish?
      ensures s.pcs[t].b in s.seqs
    {
      assert HolderOk(s, t);
      assert s.enq[s.pcs[t].x] in s.applied;
    }
  }

  lemma RatchetedKept(p: Params, s: State, s': State, t: Tid)
    requires Owned(s) && Ratcheted(p, s) && s.visible <= s'.visible
    requires Next(p, s, s', t) && (Gives(p, s, s', t) || Keeps(s, s', t))
    ensures Ratcheted(p, s')
  {
    assert forall b :: b in s.seqs ==> End(p, s', b) == End(p, s, b);
  }

  // ------------------------------------------------------------------ one step keeps everything

  lemma NextKeepsInv(p: Params, s: State, s': State, t: Tid)
    requires Inv(s) && Next(p, s, s', t)
    ensures Inv(s')
  {
    Room(s, t);
    RingKept(p, s, s', t);
    NoPanic(p, s, s', t);
    DistinctKept(p, s, s', t);
    MembersKept(p, s, s', t);
    LockedKept(p, s, s', t);
    ProducersKept(p, s, s', t);
    ConsumersKept(p, s, s', t);
    HoldersKept(p, s, s', t);
    ExclusiveKept(p, s, s', t);
    AppliedKept(p, s, s', t);
    SettledKept(p, s, s', t);
  }

  lemma HolderHere(p: Params, s: State, s': State, t: Tid)
    requires Holders(s) && Ring(s') && Members(s') && Next(p, s, s', t)
    ensures HolderAt(s, t) && s'.deq <= |s'.enq| && t in s'.pcs && !s'.pcs[t].Panicked?
  {
  }

  lemma NextKeepsOrder(p: Params, s: State, s': State, t: Tid)
    requires OrderInv(p, s) && Next(p, s, s', t)
    ensures OrderInv(p, s')
  {
    hide Next, Ring, Distinct, Members, Locked, Producers, Consumers, Holders, Exclusive, Settled, Applied, Numbering,
         Ordered, Visible, BumpOk, SpinOk, Tight, Ratcheted;
    NextKeepsInv(p, s, s', t);
    NumberMove(p, s, s', t);
    HolderHere(p, s, s', t);
    VisibleMove(p, s, s', t);
    ListedLasts(s);
    OwnedNumbered(s);
    NumberingKept(p, s, s', t);
    OrderedKept(p, s, s', t);
    VisibleKept(p, s, s', t);
    BumpKept(p, s, s', t);
    SpinKept(p, s, s', t);
    TightKept(p, s, s', t);
    RatchetedKept(p, s, s', t);
  }
}
