/**
 Optimistic provide: how the completions of ADD_PROVIDER RPCs are counted by the
 caller and by background consumers that hold leases from a shared job pool. All
 interleavings of their atomic steps are considered.
 */
module OptimisticProvide {

  /** rpcs issued, the threshold (also the capacity of doneChan), the pool's size. */
  datatype Config = Config(rpcs: nat, threshold: nat, poolSize: nat)
  {
    /** The threshold cannot exceed the number of RPCs issued. */
    function Return(): nat {
      if threshold > rpcs then rpcs else threshold
    }

    /** Signals that fit in doneChan. Without a buffer, one can be handed over. */
    function Room(): nat {
      if threshold == 0 then 1 else threshold
    }
  }

  /** waitForRPCs: the first loop, then one turn per remaining RPC. */
  datatype MainPc =
    | First
    | FirstGot                                   // received, not yet counted
    | Lease(i: nat)
    | LeaseGot(i: nat)
    | LeaseClose(i: nat)

  /** Consumers are alike, so they are counted by where they are. */
  datatype State = State(
    unsent: nat,                                 // RPCs that have not signalled
    buffered: nat,                               // signals in doneChan
    counted: nat,                                // putProvDone
    main: MainPc,
    waiting: nat,                                // consumers before their receive
    holding: nat,                                // received, lease not yet released
    released: nat,                               // lease released, not yet counted
    closing: nat,                                // about to close doneChan
    mine: nat,                                   // leases taken from the pool
    others: nat,                                 // leases of other calls
    closes: nat,
    failed: bool)                                // panic, or a receive from a closed channel

  ghost predicate Init(c: Config, s: State) {
    exists others: nat :: others <= c.poolSize && s == State(c.rpcs, 0, 0, First, 0, 0, 0, 0, 0, others, 0, false)
  }

  /** An RPC goroutine signals completion. */
  ghost predicate Send(c: Config, s: State, s': State) {
    s.unsent > 0 && s.buffered < c.Room() &&
    s' == if s.closes > 0 then s.(failed := true) else s.(unsent := s.unsent - 1, buffered := s.buffered + 1)
  }

  ghost predicate CanReceive(s: State) {
    s.buffered > 0 || s.closes > 0
  }

  ghost function Receive(s: State): State {
    if s.buffered > 0 then s.(buffered := s.buffered - 1) else s.(failed := true)
  }

  ghost function Close(s: State): State {
    if s.closes > 0 then s.(failed := true) else s.(closes := 1)
  }

  ghost predicate Main(c: Config, s: State, s': State) {
    match s.main
    case First => CanReceive(s) && s' == Receive(s).(main := FirstGot)
    case FirstGot => s' == s.(counted := s.counted + 1, main := if s.counted + 1 == c.Return() then Lease(0) else First)
    case Lease(i) =>
      i < c.rpcs - c.Return() &&
      (|| (s.mine + s.others < c.poolSize
           && s' == s.(mine := s.mine + 1, waiting := s.waiting + 1, main := Lease(i + 1)))
       || (CanReceive(s) && s' == Receive(s).(main := LeaseGot(i))))
    case LeaseGot(i) =>
      s' == s.(counted := s.counted + 1, main := if s.counted + 1 == c.rpcs then LeaseClose(i) else Lease(i + 1))
    case LeaseClose(i) => s' == Close(s).(main := Lease(i + 1))
  }

  /** One of the consumers takes its next step. */
  ghost predicate Consumer(c: Config, s: State, s': State) {
    || (s.waiting > 0 && CanReceive(s) && s' == Receive(s).(waiting := s.waiting - 1, holding := s.holding + 1))
    || (s.holding > 0 && s.mine > 0
        && s' == s.(holding := s.holding - 1, mine := s.mine - 1, released := s.released + 1))
    || (s.released > 0 && s' == s.(released := s.released - 1, counted := s.counted + 1,
                                   closing := s.closing + if s.counted + 1 == c.rpcs then 1 else 0))
    || (s.closing > 0 && s' == Close(s).(closing := s.closing - 1))
  }

  /** Other calls take and release leases. */
  ghost predicate Environment(c: Config, s: State, s': State) {
    exists n: nat :: s.mine + n <= c.poolSize && s' == s.(others := n)
  }

  ghost predicate Next(c: Config, s: State, s': State) {
    Send(c, s, s') || Main(c, s, s') || Consumer(c, s, s') || Environment(c, s, s')
  }

  // ------------------------------------------------------------------ invariant

  /** Completions received but not yet counted. */
  ghost function InHand(s: State): nat {
    s.holding + s.released + if s.main.FirstGot? || s.main.LeaseGot? then 1 else 0
  }

  /** Receives the caller will still do itself or hand to a consumer. */
  ghost function Planned(c: Config, s: State): int {
    match s.main
    case First => c.rpcs - s.counted
    case FirstGot => c.rpcs - s.counted - 1
    case Lease(i) => c.rpcs - c.Return() - i
    case LeaseGot(i) => c.rpcs - c.Return() - i - 1
    case LeaseClose(i) => c.rpcs - c.Return() - i - 1
  }

  ghost predicate Early(s: State) {
    s.main.First? || s.main.FirstGot?
  }

  ghost predicate Inv(c: Config, s: State) {
    && !s.failed
    && s.unsent + s.buffered + InHand(s) + s.counted == c.rpcs
    && Planned(c, s) >= 0 && Planned(c, s) + s.waiting == s.unsent + s.buffered
    && s.mine == s.waiting + s.holding && s.mine + s.others <= c.poolSize
    && (Early(s) ==> s.counted < c.Return() && s.waiting == s.holding == s.released == 0)
    && (!Early(s) ==> s.counted >= c.Return())
    && s.closes + s.closing + (if s.main.LeaseClose? then 1 else 0)
       == if s.counted == c.rpcs > c.Return() then 1 else 0
  }

  ghost predicate ConfigOk(c: Config) {
    c.rpcs >= 1 && c.threshold >= 1
  }

  lemma InitInv(c: Config, s: State)
    requires ConfigOk(c) && Init(c, s)
    ensures Inv(c, s) && Work(c, s) == 7 * c.rpcs
  {
  }

  /** A step of this call, not of the other users of the pool. */
  ghost predicate Own(c: Config, s: State, s': State) {
    Send(c, s, s') || Main(c, s, s') || Consumer(c, s, s')
  }

  /** An upper bound on the steps this call can still take. */
  ghost function Work(c: Config, s: State): int {
    6 * s.unsent + 5 * s.buffered + 4 * s.holding + 3 * s.released + s.closing + Planned(c, s)
    + match s.main case First => 0 case FirstGot => 3 case Lease(_) => 0 case LeaseGot(_) => 3 case LeaseClose(_) => 1
  }

  lemma MainKept(c: Config, s: State, s': State)
    requires ConfigOk(c) && Inv(c, s) && Main(c, s, s')
    ensures Inv(c, s') && Work(c, s') < Work(c, s)
  {
    if Early(s) {
      FirstKept(c, s, s');
    }
  }

  lemma FirstKept(c: Config, s: State, s': State)
    requires ConfigOk(c) && Inv(c, s) && Early(s) && Main(c, s, s')
    ensures Inv(c, s') && Work(c, s') < Work(c, s)
  {
  }

  lemma ConsumerKept(c: Config, s: State, s': State)
    requires ConfigOk(c) && Inv(c, s) && Consumer(c, s, s')
    ensures Inv(c, s') && Work(c, s') < Work(c, s)
  {
  }

  lemma SendKept(c: Config, s: State, s': State)
    requires ConfigOk(c) && Inv(c, s) && Send(c, s, s')
    ensures Inv(c, s') && Work(c, s') < Work(c, s)
  {
  }

  lemma EnvironmentKept(c: Config, s: State, s': State)
    requires Inv(c, s) && Environment(c, s, s')
    ensures Inv(c, s') && Work(c, s') == Work(c, s)
  {
  }

  lemma WorkLeft(c: Config, s: State)
    requires Inv(c, s)
    ensures Work(c, s) >= 0
  {
  }

  lemma NextKeepsInv(c: Config, s: State, s': State)
    requires ConfigOk(c) && Inv(c, s) && Next(c, s, s')
    ensures Inv(c, s') && 0 <= Work(c, s') <= Work(c, s)
    ensures Own(c, s, s') ==> Work(c, s') < Work(c, s)
  {
    hide Inv, Send, Main, Consumer, Environment, Work;
    if Send(c, s, s') {
      SendKept(c, s, s');
    } else if Main(c, s, s') {
      MainKept(c, s, s');
    } else if Consumer(c, s, s') {
      ConsumerKept(c, s, s');
    } else {
      EnvironmentKept(c, s, s');
    }
    WorkLeft(c, s');
  }

  // ------------------------------------------------------------------ every run

  ghost predicate Run(c: Config, ss: seq<State>) {
    && |ss| > 0 && Init(c, ss[0])
    && forall i {:trigger ss[i + 1]} :: 0 <= i < |ss| - 1 ==> Next(c, ss[i], ss[i + 1])
  }

  ghost function Last(ss: seq<State>): State
    requires |ss| > 0
  {
    ss[|ss| - 1]
  }

  /** How many steps of a run are this call's own. */
  ghost function OwnSteps(c: Config, ss: seq<State>): nat {
    if |ss| <= 1 then 0 else
    OwnSteps(c, ss[..|ss| - 1]) + if Own(c, ss[|ss| - 2], ss[|ss| - 1]) then 1 else 0
  }

  lemma {:induction false} RunInv(c: Config, ss: seq<State>)
    requires ConfigOk(c) && Run(c, ss)
    ensures Inv(c, Last(ss)) && Work(c, Last(ss)) + OwnSteps(c, ss) <= 7 * c.rpcs
    decreases |ss|
  {
    if |ss| == 1 {
      InitInv(c, ss[0]);
    } else {
      var n := |ss| - 2;
      assert Next(c, ss[n], ss[n + 1]);
      RunInv(c, ss[..n + 1]);
      NextKeepsInv(c, ss[n], ss[n + 1]);
    }
  }

  /** Nothing is lost or counted twice, doneChan is closed at most once and only
      after every signal was sent, received and counted, so no send and no receive
      follows the close. */
  lemma CompletesSafely(c: Config, ss: seq<State>)
    requires ConfigOk(c) && Run(c, ss)
    ensures var s := Last(ss);
            && s.unsent + s.buffered + InHand(s) + s.counted == c.rpcs
            && !s.failed && s.closes <= 1
            && (s.closes == 1 ==> s.counted == c.rpcs && s.unsent == s.buffered == s.waiting == 0 && Planned(c, s) == 0)
  {
    RunInv(c, ss);
  }

  /** How many completions the caller waits for. */
  ghost function Awaited(c: Config): nat {
    if c.threshold < c.rpcs then c.threshold else c.rpcs
  }

  /** The caller is past its first loop if and only if that many were counted. */
  lemma WaitsExactly(c: Config, ss: seq<State>)
    requires ConfigOk(c) && Run(c, ss)
    ensures Early(Last(ss)) <==> Last(ss).counted < Awaited(c)
  {
    RunInv(c, ss);
  }

  /** It leaves the loop at the completion that makes up the number. */
  lemma LeavesAtLast(c: Config, ss: seq<State>)
    requires ConfigOk(c) && Run(c, ss) && |ss| > 1 && Early(ss[|ss| - 2]) && !Early(Last(ss))
    ensures Last(ss).counted == Awaited(c) == ss[|ss| - 2].counted + 1
  {
    var n := |ss| - 2;
    assert Next(c, ss[n], ss[n + 1]);
    RunInv(c, ss[..n + 1]);
  }

  /** Beyond it the caller waits for no completion while the pool has room. */
  lemma LeaseInstead(c: Config, ss: seq<State>)
    requires ConfigOk(c) && Run(c, ss) && Last(ss).main.Lease?
    requires Last(ss).mine + Last(ss).others < c.poolSize && Planned(c, Last(ss)) > 0
    ensures var s := Last(ss);
            exists s' :: Main(c, s, s') && s'.main == Lease(s.main.i + 1) && s'.counted == s.counted
                         && s'.buffered == s.buffered && s'.mine == s.mine + 1
  {
    var s := Last(ss);
    assert Main(c, s, s.(mine := s.mine + 1, waiting := s.waiting + 1, main := Lease(s.main.i + 1)));
  }

  /** The pool is never overdrawn, and an RPC that completes is held up only by a
      buffer of `threshold` signals that is full. */
  lemma {:induction false} SignalsFit(c: Config, ss: seq<State>)
    requires ConfigOk(c) && Run(c, ss)
    ensures Last(ss).mine + Last(ss).others <= c.poolSize && Last(ss).buffered <= c.threshold
    ensures Last(ss).unsent > 0 && Last(ss).buffered < c.threshold ==> exists s' :: Send(c, Last(ss), s')
    decreases |ss|
  {
    hide Next, Inv, Init, Work;
    RunInv(c, ss);
    PoolKept(c, Last(ss));
    if |ss| > 1 {
      var n := |ss| - 2;
      assert Next(c, ss[n], ss[n + 1]);
      SignalsFit(c, ss[..n + 1]);
      BufferKept(c, ss[n], ss[n + 1]);
    } else {
      BufferEmpty(c, ss[0]);
    }
    var s := Last(ss);
    if s.unsent > 0 && s.buffered < c.threshold {
      assert Send(c, s, if s.closes > 0 then s.(failed := true)
                        else s.(unsent := s.unsent - 1, buffered := s.buffered + 1));
    }
  }

  lemma PoolKept(c: Config, s: State)
    requires Inv(c, s)
    ensures s.mine + s.others <= c.poolSize
  {
  }

  lemma BufferEmpty(c: Config, s: State)
    requires Init(c, s)
    ensures s.buffered == 0
  {
  }

  lemma BufferKept(c: Config, s: State, s': State)
    requires Next(c, s, s') && ConfigOk(c)
    ensures s'.buffered <= s.buffered || s'.buffered <= c.threshold
  {
  }

  /** The call, its RPCs and its consumers are through. */
  ghost predicate Finished(c: Config, s: State) {
    && s.main == Lease(c.rpcs - c.Return()) && s.unsent == s.buffered == 0
    && s.waiting == s.holding == s.released == s.closing == 0
  }

  /** When all is through every lease is back in the pool, every RPC was counted,
      and the channel was closed if and only if some RPC was left to consumers. */
  lemma FinishedClean(c: Config, ss: seq<State>)
    requires ConfigOk(c) && Run(c, ss) && Finished(c, Last(ss))
    ensures Last(ss).mine == 0 && Last(ss).counted == c.rpcs
    ensures Last(ss).closes == 1 <==> c.rpcs > c.threshold
  {
    RunInv(c, ss);
  }

  /** Until then some own step is possible, whatever the pool's other users do. */
  lemma NeverStuck(c: Config, ss: seq<State>)
    requires ConfigOk(c) && Run(c, ss) && !Finished(c, Last(ss))
    ensures exists s' :: Own(c, Last(ss), s')
  {
    RunInv(c, ss);
    SomeStep(c, Last(ss));
  }

  lemma SomeStep(c: Config, s: State)
    requires ConfigOk(c) && Inv(c, s) && !Finished(c, s)
    ensures exists s' :: Own(c, s, s')
  {
    if s.holding > 0 {
      assert Own(c, s, s.(holding := s.holding - 1, mine := s.mine - 1, released := s.released + 1));
    } else if s.released > 0 {
      assert Own(c, s, s.(released := s.released - 1, counted := s.counted + 1,
                               closing := s.closing + if s.counted + 1 == c.rpcs then 1 else 0));
    } else if s.closing > 0 {
      assert Own(c, s, Close(s).(closing := s.closing - 1));
    } else {
      SomeReceive(c, s);
    }
  }

  lemma SomeReceive(c: Config, s: State)
    requires ConfigOk(c) && Inv(c, s) && !Finished(c, s) && s.holding == s.released == s.closing == 0
    ensures exists s' :: Own(c, s, s')
  {
    if s.main.FirstGot? {
      assert Own(c, s, s.(counted := s.counted + 1, main := if s.counted + 1 == c.Return() then Lease(0) else First));
    } else if s.main.LeaseGot? {
      assert Own(c, s, s.(counted := s.counted + 1,
                          main := if s.counted + 1 == c.rpcs then LeaseClose(s.main.i) else Lease(s.main.i + 1)));
    } else if s.main.LeaseClose? {
      assert Own(c, s, Close(s).(main := Lease(s.main.i + 1)));
    } else if s.buffered == 0 {
      assert Own(c, s, s.(unsent := s.unsent - 1, buffered := s.buffered + 1));
    } else if s.waiting > 0 {
      assert Own(c, s, Receive(s).(waiting := s.waiting - 1, holding := s.holding + 1));
    } else if s.main.First? {
      assert Own(c, s, Receive(s).(main := FirstGot));
    } else {
      assert Own(c, s, Receive(s).(main := LeaseGot(s.main.i)));
    }
  }

  /** In any run the call takes at most seven steps per RPC. */
  lemma BoundedWork(c: Config, ss: seq<State>)
    requires ConfigOk(c) && Run(c, ss)
    ensures OwnSteps(c, ss) <= 7 * c.rpcs
  {
    RunInv(c, ss);
    WorkLeft(c, Last(ss));
  }

  /** With no RPC issued, or no completion to wait for, the caller never gets out of
      its first loop. */
  lemma {:induction false} NeverReturns(c: Config, ss: seq<State>)
    requires !ConfigOk(c) && Run(c, ss)
    ensures Early(Last(ss))
    decreases |ss|
  {
    if |ss| > 1 {
      var n := |ss| - 2;
      assert Next(c, ss[n], ss[n + 1]);
      NeverReturns(c, ss[..n + 1]);
    }
  }

  ghost predicate Stuck(c: Config, s: State) {
    !Finished(c, s) && forall s' :: !Own(c, s, s')
  }

  /** After k completions it has counted them all and waits for more. */
  ghost function Counting(c: Config, k: nat): State
    requires k <= c.rpcs
  {
    State(c.rpcs - k, 0, k, First, 0, 0, 0, 0, 0, 0, 0, false)
  }

  lemma {:induction false} CountsOn(c: Config, k: nat) returns (ss: seq<State>)
    requires !ConfigOk(c) && k <= c.rpcs
    ensures Run(c, ss) && Last(ss) == Counting(c, k)
  {
    if k == 0 {
      ss := [Counting(c, 0)];
    } else {
      ss := CountsOn(c, k - 1);
      var s := Counting(c, k - 1);
      var sent := s.(unsent := s.unsent - 1, buffered := 1);
      var got := sent.(buffered := 0, main := FirstGot);
      ss := Extended(c, ss, sent);
      ss := Extended(c, ss, got);
      ss := Extended(c, ss, Counting(c, k));
    }
  }

  lemma Extended(c: Config, ss: seq<State>, s': State) returns (ss': seq<State>)
    requires Run(c, ss) && Next(c, Last(ss), s')
    ensures Run(c, ss') && Last(ss') == s'
  {
    ss' := ss + [s'];
    forall i {:trigger ss'[i + 1]} | 0 <= i < |ss'| - 1 ensures Next(c, ss'[i], ss'[i + 1]) {
      if i < |ss| - 1 {
        assert ss'[i + 1] == ss[i + 1];
      }
    }
  }

  /** No run gets stuck if and only if there is an RPC to wait for and a completion
      is waited for. */
  lemma ReturnsExactly(c: Config)
    ensures (forall ss :: Run(c, ss) ==> !Stuck(c, Last(ss))) <==> ConfigOk(c)
  {
    if ConfigOk(c) {
      forall ss | Run(c, ss) ensures !Stuck(c, Last(ss)) {
        if !Finished(c, Last(ss)) {
          NeverStuck(c, ss);
        }
      }
    } else {
      var ss := CountsOn(c, c.rpcs);
      assert Stuck(c, Last(ss));
    }
  }
}
