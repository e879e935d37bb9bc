/**
 What a failed commit does to the pipeline. A batch that fails after it was
 enqueued stays in the queue, and once it is the oldest, nothing leaves the queue
 any more.
 */
module CommitFailure {
  import opened Basics
  import opened CommitQueue
  import opened CommitPipeline
  import opened CommitOrder
  import opened CommitSafety

  /** No step moves the tail past a failed batch. */
  lemma FailedStays(p: Params, s: State, s': State, t: Tid)
    requires Inv(s) && TailFailed(s) && Next(p, s, s', t)
    ensures TailFailed(s') && s'.deq == s.deq && s.enq <= s'.enq
  {
    CasConfirms(s, t);
    assert s.enq[s.deq] in s.enq;
  }

  lemma RunUpTo(p: Params, ss: seq<State>, ts: seq<Tid>, n: nat)
    requires Run(p, ss, ts) && n <= |ts|
    ensures Run(p, ss[..n + 1], ts[..n]) && Last(ss[..n + 1]) == ss[n]
  {
    forall i {:trigger ts[..n][i]} | 0 <= i < n ensures Next(p, ss[..n + 1][i], ss[..n + 1][i + 1], ts[..n][i]) {
      assert ts[..n][i] == ts[i];
    }
  }

  /** Once the oldest batch has failed, neither it nor any batch behind it is ever
      dequeued, done or returned from. */
  lemma {:induction false} FailedBatchBlocks(p: Params, ss: seq<State>, ts: seq<Tid>, i: nat, j: nat)
    requires Run(p, ss, ts) && i <= j < |ss| && TailFailed(ss[i])
    ensures TailFailed(ss[j]) && ss[j].deq == ss[i].deq && ss[i].enq <= ss[j].enq
    ensures forall x {:trigger ss[j].enq[x]} :: ss[i].deq <= x < |ss[j].enq| ==>
              var b := ss[j].enq[x];
              b !in ss[j].done && b in ss[j].pcs && !ss[j].pcs[b].Release? && !ss[j].pcs[b].Finished?
    decreases j - i
  {
    hide Run, Next, Safe, Inv, TailFailed;
    SafeAt(p, ss, ts, j);
    if i < j {
      FailedBatchBlocks(p, ss, ts, i, j - 1);
      SafeAt(p, ss, ts, j - 1);
      RunStep(p, ss, ts, j - 1);
      FailedStays(p, ss[j - 1], ss[j], ts[j - 1]);
    }
    BehindWaits(ss[j]);
  }

  lemma SafeAt(p: Params, ss: seq<State>, ts: seq<Tid>, n: nat)
    requires Run(p, ss, ts) && n < |ss|
    ensures Inv(ss[n])
  {
    RunUpTo(p, ss, ts, n);
    RunSafe(p, ss[..n + 1], ts[..n]);
  }

  lemma RunStep(p: Params, ss: seq<State>, ts: seq<Tid>, i: nat)
    requires Run(p, ss, ts) && i + 1 < |ss|
    ensures |ss| == |ts| + 1 && Next(p, ss[i], ss[i + 1], ts[i])
  {
  }

  lemma BehindWaits(s: State)
    requires Inv(s)
    ensures forall x {:trigger s.enq[x]} :: s.deq <= x < |s.enq| ==>
              var b := s.enq[x]; b !in s.done && b in s.pcs && !s.pcs[b].Release? && !s.pcs[b].Finished?
  {
    forall x {:trigger s.enq[x]} | s.deq <= x < |s.enq|
      ensures s.enq[x] !in s.done && s.enq[x] in s.pcs && !s.pcs[s.enq[x]].Release? && !s.pcs[s.enq[x]].Finished?
    {
      assert s.enq[x] in s.enq && s.enq[x] !in s.enq[..s.deq];
    }
  }

  // ---------------------------------------------------------------- it happens

  lemma Forward(p: Params, ss: seq<State>, ts: seq<Tid>, t: Tid, pc': Pc) returns (ss': seq<State>, ts': seq<Tid>)
    requires Run(p, ss, ts) && Goes(p, Last(ss), t, pc')
    ensures Run(p, ss', ts') && Last(ss') == After(p, Last(ss), t, pc')
  {
    var s' := After(p, Last(ss), t, pc');
    ss', ts' := ss + [s'], ts + [t];
    forall i {:trigger ts'[i]} | 0 <= i < |ts'| ensures Next(p, ss'[i], ss'[i + 1], ts'[i]) {
      if i < |ts| {
        assert ts'[i] == ts[i] && Next(p, ss[i], ss[i + 1], ts[i]);
      }
    }
  }

  /** The path of a committer into the queue. */
  function Path(k: nat): Pc {
    match k
    case 0 => Begin
    case 1 => WantLock
    case 2 => Enqueue(Load)
    case 3 => Enqueue(Spin(0))
    case 4 => Enqueue(Store(0))
    case 5 => Enqueue(Add)
    case 6 => Sequence(Assign)
    case 7 => Sequence(WriteWal)
    case 8 => Sequence(Unlock(false))
    case _ => FailedLate
  }

  /** Committer t is alone in the pipeline and has gone so far. */
  ghost predicate Alone(s: State, t: Tid, k: nat) {
    && s.pcs == map[t := Path(k)] && |s.slots| == SLOTS && s.deq == 0
    && (k == 0 ==> s.permits == {}) && (k <= 1 ==> s.mu == None)
    && (k <= 4 ==> s.slots[0] == None && s.headTail == 0)
    && s.enq == if k <= 5 then [] else [t]
  }

  lemma AloneGoes(p: Params, s: State, t: Tid, k: nat)
    requires t !in p.ingest && k < 9 && Alone(s, t, k)
    ensures Goes(p, s, t, Path(k + 1)) && Alone(After(p, s, t, Path(k + 1)), t, k + 1)
  {
    UnpackWord(0, 0);
    assert Slot(0) == 0;
  }

  lemma {:induction false} Advances(p: Params, t: Tid, k: nat) returns (ss: seq<State>, ts: seq<Tid>)
    requires t !in p.ingest && k <= 9
    ensures Run(p, ss, ts) && Alone(Last(ss), t, k)
  {
    if k == 0 {
      var s := State(map[t := Begin], 0, seq(SLOTS, _ => None), [], 0, None, {}, 0, 0, map[], [], {}, {});
      ss, ts := [s], [];
    } else {
      ss, ts := Advances(p, t, k - 1);
      AloneGoes(p, Last(ss), t, k - 1);
      ss, ts := Forward(p, ss, ts, t, Path(k));
    }
  }

  /** A committer whose write to the WAL fails leaves such a batch, and nobody can
      move. */
  lemma SomeRunFails(p: Params, t: Tid) returns (ss: seq<State>, ts: seq<Tid>)
    requires t !in p.ingest
    ensures Run(p, ss, ts) && TailFailed(Last(ss)) && forall u :: !CanMove(p, Last(ss), u)
  {
    ss, ts := Advances(p, t, 9);
  }

  // ---------------------------------------------------------------- leaked permits

  /** No step leads out of a state whose permits have all leaked. */
  lemma LeakedStays(p: Params, s: State, s': State, t: Tid)
    requires Inv(s) && Leaked(s)
    ensures !Next(p, s, s', t)
  {
    assert t in s.pcs ==> (t in s.permits <==> Holds(s.pcs[t]));
  }

  /** k names of committers from m on. */
  function Ids(m: nat, k: nat): (ids: set<Tid>)
    ensures |ids| == k && forall t :: t in ids <==> m <= t < m + k
  {
    if k == 0 then {} else Ids(m, k - 1) + {m + k - 1}
  }

  lemma {:induction false} SomeBound(ids: set<Tid>) returns (m: nat)
    ensures forall t :: t in ids ==> t < m
  {
    if ids == {} {
      m := 0;
    } else {
      var t :| t in ids;
      m := SomeBound(ids - {t});
      assert forall u :: u in ids ==> u == t || u in ids - {t};
      if m <= t {
        m := t + 1;
      }
    }
  }

  /** As many committers as there are slots, of which k were rejected. */
  ghost function Rejected(m: nat, k: nat): State {
    State(map t | t in Ids(m, SLOTS) :: if t < m + k then FailedEarly else Begin,
          0, seq(SLOTS, _ => None), [], 0, None, Ids(m, k), 0, 0, map[], [], {}, {})
  }

  /** A committer enters and its batch is rejected. */
  lemma RejectOne(p: Params, ss: seq<State>, ts: seq<Tid>, t: Tid) returns (ss': seq<State>, ts': seq<Tid>)
    requires Run(p, ss, ts) && |Last(ss).slots| == SLOTS && |Last(ss).permits| < SLOTS - 1
    requires t in Last(ss).pcs && Last(ss).pcs[t].Begin? && t !in p.ingest
    ensures Run(p, ss', ts')
    ensures var s := Last(ss); Last(ss') == s.(pcs := s.pcs[t := FailedEarly], permits := s.permits + {t})
  {
    hide Next;
    ss', ts' := Forward(p, ss, ts, t, WantLock);
    assert Last(ss').pcs == Last(ss).pcs[t := WantLock] && |Last(ss').slots| == SLOTS;
    ss', ts' := Forward(p, ss', ts', t, FailedEarly);
    assert Last(ss').pcs == Last(ss).pcs[t := FailedEarly];
  }

  lemma RejectedMore(m: nat, k: nat)
    requires k < SLOTS - 1
    ensures var s, t := Rejected(m, k), m + k;
            t in s.pcs && s.pcs[t].Begin?
                && s.(pcs := s.pcs[t := FailedEarly], permits := s.permits + {t}) == Rejected(m, k + 1)
  {
    var s, s' := Rejected(m, k), Rejected(m, k + 1);
    assert s.pcs[m + k := FailedEarly] == s'.pcs;
    assert s.permits + {m + k} == s'.permits;
  }

  lemma {:induction false} Rejects(p: Params, m: nat, k: nat) returns (ss: seq<State>, ts: seq<Tid>)
    requires k <= SLOTS - 1 && forall t :: t in p.ingest ==> t < m
    ensures Run(p, ss, ts) && Last(ss) == Rejected(m, k)
  {
    hide Next;
    if k == 0 {
      ss, ts := [Rejected(m, 0)], [];
      StartsRejected(p, m);
    } else {
      ss, ts := Rejects(p, m, k - 1);
      RejectedMore(m, k - 1);
      ss, ts := RejectOne(p, ss, ts, m + k - 1);
    }
  }

  lemma StartsRejected(p: Params, m: nat)
    ensures Run(p, [Rejected(m, 0)], [])
  {
    assert Ids(m, 0) == {};
  }

  /** Invalid batches alone can lose all permits: the queue is empty, no batch in it
      has failed, and a committer waits that can never enter. */
  lemma SomeRunLeaks(p: Params) returns (ss: seq<State>, ts: seq<Tid>, t: Tid)
    ensures Run(p, ss, ts) && t in Last(ss).pcs && Last(ss).pcs[t].Begin? && Last(ss).enq == []
    ensures !TailFailed(Last(ss)) && Leaked(Last(ss)) && forall u :: !CanMove(p, Last(ss), u)
  {
    hide Next, Goes, CanMove, Safe;
    var m := SomeBound(p.ingest);
    ss, ts := Rejects(p, m, SLOTS - 1);
    t := m + SLOTS - 1;
    RunSafe(p, ss, ts);
    SafeMembers(p, Last(ss));
    LeakedStuck(p, Last(ss));
  }
}
