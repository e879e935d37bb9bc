/**
 Every run of the pipeline is finite. A failed swap or a retried ratchet is paid for
 by the step of another committer, so the steps are bounded by the square of the
 number of committers.
 */
module CommitProgress {
  import opened Basics
  import opened CommitQueue
  import opened CommitPipeline
  import opened CommitOrder
  import opened CommitSafety

  /** The queue has moved since thread t looked at it. */
  ghost predicate Stale(s: State, d: DeqPc) {
    d != Look && (d.h != |s.enq| || d.t != s.deq)
  }

  /** Steps committer t may still take, if the queue and the visible number stay as
      they are for others; each publication provides for one raise. */
  ghost function Weight(s: State, n: nat, t: Tid): nat {
    if t !in s.pcs then 0 else
    match s.pcs[t]
    case Begin => 18
    case WantLock => 17
    case Enqueue(e) => (match e case Load => 16 case Spin(_) => 15 case Store(_) => 14 case Add => 13)
    case Sequence(q) =>
      (match q case Assign => 12 case BumpZero => 11 case WriteWal => 10 case SpinVisible(_) => 10 case Unlock(_) => 9)
    case ApplyMem => 8
    case SetApplied => 7
    case Dequeue(d) => DequeueWeight(d) + if Stale(s, d) then 4 else 0
    case Publish(u, _, _) => PublishWeight(s, n, u)
    case Wait => 2
    case Release => 1
    case Finished | FailedEarly | FailedLate | Panicked => 0
  }

  function DequeueWeight(d: DeqPc): nat {
    match d
    case Look => 6
    case Fetch(_, _, _) => 5
    case Check(_, _, _, _) => 4
    case Swap(_, _, _, _) => 3
  }

  ghost function PublishWeight(s: State, n: nat, u: PubPc): nat {
    match u
    case Clear(_) => 10 + 2 * n
    case Ratchet => 9 + 2 * n
    case Raise(cur) => 8 + 2 * n + if cur == s.visible then 0 else 2
    case Done => 7
  }

  // ---------------------------------------------------------------- sums

  ghost function Total(s: State, n: nat, ids: set<Tid>): nat {
    if ids == {} then 0 else
    var t :| t in ids;
    Weight(s, n, t) + Total(s, n, ids - {t})
  }

  lemma {:induction false} TotalSplit(s: State, n: nat, ids: set<Tid>, t: Tid)
    requires t in ids
    ensures Total(s, n, ids) == Weight(s, n, t) + Total(s, n, ids - {t})
    decreases |ids|
  {
    var u :| u in ids && Total(s, n, ids) == Weight(s, n, u) + Total(s, n, ids - {u});
    if u != t {
      TotalSplit(s, n, ids - {u}, t);
      TotalSplit(s, n, ids - {t}, u);
      assert ids - {u} - {t} == ids - {t} - {u};
    }
  }

  lemma {:induction false} TotalGrows(s: State, s': State, n: nat, ids: set<Tid>, k: nat)
    requires forall u :: u in ids ==> Weight(s', n, u) <= Weight(s, n, u) + k
    ensures Total(s', n, ids) <= Total(s, n, ids) + k * |ids|
    decreases |ids|
  {
    hide Weight;
    if ids != {} {
      var t :| t in ids;
      TotalSplit(s, n, ids, t);
      TotalSplit(s', n, ids, t);
      TotalGrows(s, s', n, ids - {t}, k);
      Distribute(k, |ids|);
    }
  }

  lemma Distribute(k: nat, m: nat)
    requires m > 0
    ensures k * m == k + k * (m - 1)
  {
  }

  lemma {:induction false} TotalBound(s: State, n: nat, ids: set<Tid>, k: nat)
    requires forall u :: u in ids ==> Weight(s, n, u) <= k
    ensures Total(s, n, ids) <= k * |ids|
    decreases |ids|
  {
    hide Weight;
    if ids != {} {
      var t :| t in ids;
      TotalSplit(s, n, ids, t);
      TotalBound(s, n, ids - {t}, k);
      Distribute(k, |ids|);
    }
  }

  // ---------------------------------------------------------------- every step pays

  /** Times the ends of the queue may still move. */
  ghost function Moves(s: State, n: nat): int {
    2 * n - |s.enq| - s.deq
  }

  /** What another committer's weight can gain by a step of t. */
  ghost function Gain(s: State, t: Tid): nat {
    if t !in s.pcs then 0
    else if s.pcs[t] == Enqueue(Add) || Swaps(s, t) then 4
    else if s.pcs[t].Publish? && s.pcs[t].u == Raise(s.visible) then 2
    else 0
  }

  lemma OthersGain(p: Params, s: State, s': State, n: nat, t: Tid, u: Tid)
    requires Next(p, s, s', t) && u != t
    ensures Weight(s', n, u) <= Weight(s, n, u) + Gain(s, t)
  {
  }

  /** The price of a move of the queue. */
  function Price(n: nat): nat {
    6 * n + 4
  }

  /** Committer t pays for its step, and for what it costs the n - 1 others. */
  ghost predicate Pays(s: State, s': State, n: nat, t: Tid)
    requires t in s.pcs
  {
    var moves := s.pcs[t] == Enqueue(Add) || Swaps(s, t);
    && Moves(s', n) == Moves(s, n) - (if moves then 1 else 0)
    && Weight(s', n, t) + Gain(s, t) * (n - 1) < Weight(s, n, t) + if moves then Price(n) else 0
  }

  lemma DequeuePays(p: Params, s: State, s': State, n: nat, t: Tid)
    requires Ring(s) && SelfOk(s, t) && Next(p, s, s', t) && n > 0 && s.pcs[t].Dequeue?
    ensures Pays(s, s', n, t)
  {
    hide ProducerOk, HolderOk, Enqueues, Sequences, Publishes;
    CasConfirms(s, t);
  }

  lemma PublishPays(p: Params, s: State, s': State, n: nat, t: Tid)
    requires Next(p, s, s', t) && n > 0 && s.pcs[t].Publish? && !s'.pcs[t].Panicked?
    ensures Pays(s, s', n, t)
  {
    hide Enqueues, Sequences, Dequeues;
  }

  lemma OthersPay(p: Params, s: State, s': State, n: nat, t: Tid)
    requires Next(p, s, s', t) && n > 0 && !s.pcs[t].Publish? && !s.pcs[t].Dequeue?
    ensures Pays(s, s', n, t)
  {
    hide Dequeues, Publishes;
  }

  /** What is left to do in all. */
  ghost function Potential(s: State, n: nat): int {
    Price(n) * Moves(s, n) + Total(s, n, s.pcs.Keys)
  }

  lemma PriceOnce(price: nat, moves: int)
    ensures price * (moves - 1) == price * moves - price
  {
  }

  lemma StepPays(p: Params, s: State, s': State, t: Tid)
    requires Ring(s) && SelfOk(s, t) && Next(p, s, s', t) && !s'.pcs[t].Panicked?
    ensures |s'.pcs| == |s.pcs| > 0 && Potential(s', |s.pcs|) < Potential(s, |s.pcs|)
  {
    hide Weight, Swaps, Gain, Moves, Ring, SelfOk;
    SameCommitters(p, s, s', t);
    var n, ids, k := |s.pcs|, s.pcs.Keys, Gain(s, t);
    if s.pcs[t].Dequeue? {
      DequeuePays(p, s, s', n, t);
    } else if s.pcs[t].Publish? {
      PublishPays(p, s, s', n, t);
    } else {
      OthersPay(p, s, s', n, t);
    }
    forall u | u in ids - {t} ensures Weight(s', n, u) <= Weight(s, n, u) + k {
      OthersGain(p, s, s', n, t, u);
    }
    TotalSplit(s, n, ids, t);
    TotalSplit(s', n, ids, t);
    TotalGrows(s, s', n, ids - {t}, k);
    PriceOnce(Price(n), Moves(s, n));
  }

  lemma SameCommitters(p: Params, s: State, s': State, t: Tid)
    requires Next(p, s, s', t)
    ensures t in s.pcs && s'.pcs.Keys == s.pcs.Keys && |s.pcs.Keys| == |s.pcs| == |s'.pcs|
    ensures |s.pcs.Keys - {t}| == |s.pcs| - 1
  {
  }

  /** No more can be enqueued than there are committers. */
  lemma MovesLeft(s: State)
    requires Distinct(s) && Members(s) && Ring(s)
    ensures Moves(s, |s.pcs|) >= 0 && Potential(s, |s.pcs|) >= 0
  {
    forall x | 0 <= x < |s.enq| ensures s.enq[x] in s.pcs.Keys {
      assert s.enq[x] in s.enq;
    }
    CountDistinct(s.enq, s.pcs.Keys);
  }

  lemma StartPotential(s: State)
    requires Init(s)
    ensures Potential(s, |s.pcs|) <= 12 * |s.pcs| * |s.pcs| + 26 * |s.pcs|
  {
    var n := |s.pcs|;
    TotalBound(s, n, s.pcs.Keys, 18);
    assert Price(n) * (2 * n) == 12 * n * n + 8 * n;
  }

  lemma {:induction false} RunPays(p: Params, ss: seq<State>, ts: seq<Tid>)
    requires Run(p, ss, ts)
    ensures |Last(ss).pcs| == |ss[0].pcs|
    ensures |ts| + Potential(Last(ss), |ss[0].pcs|) <= Potential(ss[0], |ss[0].pcs|)
    decreases |ts|
  {
    hide Potential, Next, Init;
    if ts != [] {
      RunPrefix(p, ss, ts);
      var s, s', t := ss[|ts| - 1], Last(ss), ts[|ts| - 1];
      RunPays(p, ss[..|ts|], ts[..|ts| - 1]);
      RunSafe(p, ss[..|ts|], ts[..|ts| - 1]);
      RunSafe(p, ss, ts);
      SafeStepPays(p, s, s', t);
    }
  }

  lemma SafeStepPays(p: Params, s: State, s': State, t: Tid)
    requires Safe(p, s) && Safe(p, s') && Next(p, s, s', t)
    ensures |s'.pcs| == |s.pcs| && Potential(s', |s.pcs|) < Potential(s, |s.pcs|)
  {
    hide Potential, WalInv, NotStranded, SlotsFreed;
    StepPays(p, s, s', t);
  }

  /** Whatever the interleaving, n committers take at most 12n^2 + 26n steps. A busy wait
      is one step, taken when it ends. */
  lemma RunBounded(p: Params, ss: seq<State>, ts: seq<Tid>)
    requires Run(p, ss, ts)
    ensures var n := |ss[0].pcs|; |ts| <= 12 * n * n + 26 * n
  {
    hide Potential, Next, WalInv, NotStranded, SlotsFreed;
    RunPays(p, ss, ts);
    RunSafe(p, ss, ts);
    MovesLeft(Last(ss));
    StartPotential(ss[0]);
  }

  /** So every run that is pursued ends, and without failures it ends with every
      committer finished. */
  lemma AllFinish(p: Params, ss: seq<State>, ts: seq<Tid>, t: Tid)
    requires Run(p, ss, ts) && (forall u :: !CanMove(p, Last(ss), u)) && t in Last(ss).pcs
    requires forall u :: u in Last(ss).pcs ==> !Last(ss).pcs[u].FailedEarly? && !Last(ss).pcs[u].FailedLate?
    ensures Last(ss).pcs[t].Finished?
  {
    hide Next;
    if !Last(ss).pcs[t].Finished? {
      RunSafe(p, ss, ts);
      NoDeadlock(p, ss, ts, t);
      LeakHasHolder(p, Last(ss));
    }
  }

  lemma LeakHasHolder(p: Params, s: State)
    requires Members(s) && Leaked(s)
    ensures exists u :: u in s.pcs && s.pcs[u].FailedEarly?
  {
    assert s.permits != {};
    var u :| u in s.permits;
  }
}
