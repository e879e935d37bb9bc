/**
 A whole lookup as a state machine: the main loop receives updates from a
 channel of capacity alpha while the queries it spawned run concurrently, each
 reporting once.
 */
module KadLookup {
  import opened Basics
  import opened KadQuery

  datatype State = State(
    peers: Peers,
    ch: seq<Update>,
    running: set<Peer>,                          // queries that have not reported
    spawned: seq<Peer>,                          // every query ever started
    turns: nat,                                  // of the main loop
    received: seq<Update>,                       // every update taken from the channel
    ended: Option<Reason>,
    panicked: bool)

  ghost predicate Init(c: Config, seeds: seq<Peer>, s: State) {
    s == State(map[], [Update(c.self, seeds, [], [])], {}, [], 0, [], None, false)
  }

  /** spawnQuery for each peer of the list. */
  ghost function Spawn(s: State, next: seq<Peer>): State {
    s.(peers := Marked(s.peers, next), running := s.running + SetOf(next), spawned := s.spawned + next)
  }

  /** queryPeer's single report for p. */
  ghost predicate IsReport(up: Update, p: Peer) {
    up.cause == p && ((up.queried == [p] && up.unreachable == [])
                      || (up.heard == [] && up.queried == [] && up.unreachable == [p]))
  }

  /** One turn of the main loop on the first update in the channel. */
  ghost predicate Turn(c: Config, s: State, s': State, stop: bool) {
    && s.ended.None? && !s.panicked && s.ch != []
    && match OutcomeOf(c, s.peers, s.ch[0], stop)
       case Panics => s' == s.(panicked := true)
       case Ends(ps, reason) => s' == Received(s, ps).(ended := Some(reason))
       case Spawns(ps, next) => s' == Spawn(Received(s, ps), next)
  }

  /** The first update has been taken from the channel and applied. */
  ghost function Received(s: State, ps: Peers): State
    requires s.ch != []
  {
    s.(peers := ps, ch := s.ch[1..], turns := s.turns + 1, received := s.received + [s.ch[0]])
  }

  /** The context is cancelled. */
  ghost predicate Cancel(s: State, s': State) {
    s.ended.None? && !s.panicked && s' == s.(ended := Some(Cancelled))
  }

  /** The query of p reports; sending would block on a full channel. */
  ghost predicate Report(c: Config, s: State, s': State, p: Peer, up: Update) {
    p in s.running && IsReport(up, p) && |s.ch| < c.alpha && s' == s.(ch := s.ch + [up], running := s.running - {p})
  }

  ghost predicate Next(c: Config, s: State, s': State) {
    || (exists stop :: Turn(c, s, s', stop))
    || Cancel(s, s')
    || (exists p, up :: Report(c, s, s', p, up))
  }

  // ------------------------------------------------------------------ invariant

  ghost function Causes(ch: seq<Update>): set<Peer> {
    set up | up in ch :: up.cause
  }

  /** Updates in the channel are reports of different waiting peers. */
  ghost predicate Reports(ch: seq<Update>) {
    && (forall i {:trigger ch[i]} :: 0 <= i < |ch| ==> IsReport(ch[i], ch[i].cause))
    && (forall i, j {:trigger ch[i], ch[j]} :: 0 <= i < j < |ch| ==> ch[i].cause != ch[j].cause)
  }

  /** Waiting peers are those whose query is running or whose report is queued. */
  ghost predicate Tracked(c: Config, s: State) {
    && c.self !in s.peers && Reports(s.ch) && s.running !! Causes(s.ch)
    && InState(s.peers, {Waiting}) == s.running + Causes(s.ch)
    && |s.ch| + |s.running| == |InState(s.peers, {Waiting})| <= c.alpha
    && (s.ended.Some? || s.ch != [] || s.running != {})
    && s.turns + |s.ch| + |s.running| == |s.spawned| + 1
  }

  /** What the reason to end says about the peers. */
  ghost predicate Justified(c: Config, s: State) {
    && (s.ended == Some(Starvation) ==> Starved(s.peers))
    && (s.ended == Some(Completed) ==> Complete(c, s.peers) && !Starved(s.peers))
  }

  /** Whoever has left the heard state was queried, once. */
  ghost predicate Once(s: State) {
    && (forall i, j {:trigger s.spawned[i], s.spawned[j]} :: 0 <= i < j < |s.spawned| ==> s.spawned[i] != s.spawned[j])
    && (forall p :: p in s.spawned <==> p in s.peers && s.peers[p] != Heard)
  }

  /** p was queried and answered. */
  ghost predicate Answered(s: State, p: Peer) {
    exists up :: up in s.received && up.queried == [p]
  }

  /** p could not be dialled, or its query failed. */
  ghost predicate Unanswered(s: State, p: Peer) {
    exists up :: up in s.received && up.unreachable == [p]
  }

  /** p is a seed or was named in an answer. */
  ghost predicate Named(s: State, p: Peer) {
    exists up :: up in s.received && p in up.heard
  }

  /** The peer states are what the updates received so far say. */
  ghost predicate Recorded(c: Config, s: State) {
    && (forall p :: Answered(s, p) <==> p in s.peers && s.peers[p] == Queried)
    && (forall p :: Unanswered(s, p) <==> p in s.peers && s.peers[p] == Unreachable)
    && (forall p :: p in s.peers <==> p != c.self && Named(s, p))
  }

  /** A lookup that goes on has reason to, and all the queries running that it may. */
  ghost predicate Busy(c: Config, s: State) {
    s.ended.None? ==>
      && !Starved(s.peers) && !Complete(c, s.peers)
      && (|InState(s.peers, {Waiting})| == c.alpha || InState(s.peers, {Heard}) == {})
  }

  ghost predicate Fresh(c: Config, s: State) {
    && s.received == [] && s.peers == map[] && s.running == {} && s.spawned == [] && !s.panicked
    && |s.ch| == 1 && s.ch[0].queried == [] && s.ch[0].unreachable == []
    && s.turns == 0 && (s.ended.None? || s.ended == Some(Cancelled))
  }

  ghost predicate Inv(c: Config, s: State) {
    Fresh(c, s) || (Tracked(c, s) && Once(s) && Recorded(c, s) && Justified(c, s) && Busy(c, s) && !s.panicked)
  }

  // ------------------------------------------------------------------ updates

  /** A report for a waiting peer is applied without panic and moves that peer only,
      to queried if it answered and to unreachable if not. */
  lemma ReportApplies(c: Config, ps: Peers, up: Update)
    requires IsReport(up, up.cause) && up.cause in ps && ps[up.cause] == Waiting && c.self !in ps
    ensures Updated(c, ps, up).Some?
    ensures var r := Updated(c, ps, up).value;
            c.self !in r && Moves(c, ps, r, up)
  {
    hide Updated;
    UpdatedExactly(c, ps, up);
  }

  lemma SeedRecorded(c: Config, s: State)
    requires Fresh(c, s) && Updated(c, s.peers, s.ch[0]).Some?
    requires UpdatesTo(c, s.peers, s.ch[0], Updated(c, s.peers, s.ch[0]).value)
    ensures Recorded(c, Received(s, Updated(c, s.peers, s.ch[0]).value))
  {
    hide Updated;
    ReceivedOne(s, Received(s, Updated(c, s.peers, s.ch[0]).value));
  }

  /** One more update says what it says, and the others what they said. */
  lemma ReceivedOne(s: State, s': State)
    requires s.ch != [] && s'.received == s.received + [s.ch[0]]
    ensures forall p: Peer :: Answered(s', p) <==> Answered(s, p) || s.ch[0].queried == [p]
    ensures forall p: Peer :: Unanswered(s', p) <==> Unanswered(s, p) || s.ch[0].unreachable == [p]
    ensures forall p: Peer :: Named(s', p) <==> Named(s, p) || p in s.ch[0].heard
  {
    assert forall up :: up in s'.received <==> up in s.received || up == s.ch[0];
  }

  lemma RecordedAfter(c: Config, s: State, ps: Peers)
    requires Recorded(c, s) && s.ch != [] && c.self !in s.peers && c.self !in ps && Moves(c, s.peers, ps, s.ch[0])
    requires IsReport(s.ch[0], s.ch[0].cause)
    ensures Recorded(c, Received(s, ps))
  {
    hide Answered, Unanswered, Named;
    ReceivedOne(s, Received(s, ps));
  }

  // ------------------------------------------------------------------ one turn

  /** Between applying an update and spawning: at least one more query fits. */
  ghost predicate Between(c: Config, s: State) {
    && c.self !in s.peers && Reports(s.ch) && s.running !! Causes(s.ch)
    && InState(s.peers, {Waiting}) == s.running + Causes(s.ch)
    && |s.ch| + |s.running| == |InState(s.peers, {Waiting})| < c.alpha
    && s.turns + |s.ch| + |s.running| == |s.spawned| + 1
    && Once(s) && Recorded(c, s) && !s.panicked
  }

  lemma CausesTail(ch: seq<Update>)
    requires ch != [] && Reports(ch)
    ensures Reports(ch[1..]) && Causes(ch) == Causes(ch[1..]) + {ch[0].cause} && ch[0].cause !in Causes(ch[1..])
  {
    var rest := ch[1..];
    assert forall i {:trigger rest[i]} :: 0 <= i < |rest| ==> rest[i] == ch[i + 1];
    assert ch == [ch[0]] + rest;
  }

  lemma UpdateBetween(c: Config, s: State)
    requires ConfigOk(c) && Inv(c, s) && s.ch != []
    ensures Updated(c, s.peers, s.ch[0]).Some?
    ensures Between(c, Received(s, Updated(c, s.peers, s.ch[0]).value))
  {
    hide Updated, Once, Between, Tracked;
    if Fresh(c, s) {
      SeedBetween(c, s);
    } else {
      ReportBetween(c, s);
    }
  }

  lemma SeedBetween(c: Config, s: State)
    requires ConfigOk(c) && Fresh(c, s)
    ensures Updated(c, s.peers, s.ch[0]).Some?
    ensures Between(c, Received(s, Updated(c, s.peers, s.ch[0]).value))
  {
    hide Updated, Recorded;
    UpdatedExactly(c, s.peers, s.ch[0]);
    SeedRecorded(c, s);
    assert InState(Updated(c, s.peers, s.ch[0]).value, {Waiting}) == {};
  }

  lemma ReportBetween(c: Config, s: State)
    requires Tracked(c, s) && Once(s) && Recorded(c, s) && !s.panicked && s.ch != []
    ensures Updated(c, s.peers, s.ch[0]).Some?
    ensures Between(c, Received(s, Updated(c, s.peers, s.ch[0]).value))
  {
    hide Updated, IsReport, Reports, Causes, Once, InState, Moves, Recorded;
    HeadWaits(c, s);
    CausesTail(s.ch);
    ReportApplies(c, s.peers, s.ch[0]);
    var cause, ps := s.ch[0].cause, Updated(c, s.peers, s.ch[0]).value;
    WaitingAfter(c, s, ps);
    OnceAfter(c, s, Received(s, ps));
    RecordedAfter(c, s, ps);
    ReportSets(s.running, Causes(s.ch[1..]), cause, InState(s.peers, {Waiting}));
  }

  lemma ReportSets(running: set<Peer>, causes: set<Peer>, cause: Peer, waiting: set<Peer>)
    requires running !! (causes + {cause}) && cause !in causes && waiting == running + (causes + {cause})
    ensures running !! causes && waiting - {cause} == running + causes && |waiting - {cause}| == |waiting| - 1
  {
  }

  /** The peer states after a report: only the reporter has moved, and whom it named
      is known. */
  ghost predicate Moves(c: Config, ps: Peers, ps': Peers, up: Update) {
    var p := up.cause;
    && p in ps && ps[p] == Waiting && p in ps'
    && ps'[p] == (if up.queried == [p] then Queried else Unreachable)
    && (forall q :: q in ps && q != p ==> q in ps' && ps'[q] == ps[q])
    && (forall q :: q !in ps ==> (q in ps' <==> q in up.heard && q != c.self) && (q in ps' ==> ps'[q] == Heard))
  }

  lemma WaitingAfter(c: Config, s: State, ps: Peers)
    requires s.ch != [] && Moves(c, s.peers, ps, s.ch[0])
    ensures InState(ps, {Waiting}) == InState(s.peers, {Waiting}) - {s.ch[0].cause}
    ensures s.ch[0].cause in InState(s.peers, {Waiting})
  {
  }

  lemma OnceAfter(c: Config, s: State, s': State)
    requires s.ch != [] && Once(s) && Moves(c, s.peers, s'.peers, s.ch[0]) && s'.spawned == s.spawned
    ensures Once(s')
  {
  }

  lemma HeadWaits(c: Config, s: State)
    requires Tracked(c, s) && s.ch != []
    ensures IsReport(s.ch[0], s.ch[0].cause) && s.ch[0].cause in s.peers && s.peers[s.ch[0].cause] == Waiting
  {
    assert s.ch[0] in s.ch;
    assert s.ch[0].cause in InState(s.peers, {Waiting});
  }

  /** With a budget of at least one, the choice stays within it and is not empty
      unless nobody is left to query. */
  lemma ChoiceFits(heard: seq<Peer>, s: set<Peer>, budget: int)
    requires Lists(heard, s) && budget >= 1
    ensures var next := ToQuery(heard, budget);
            && Lists(next, SetOf(next)) && SetOf(next) <= s && |next| <= budget && (s != {} ==> next != [])
            && (|next| == budget || SetOf(next) == s)
  {
    ListSize(heard, s);
  }

  lemma SpawnKept(c: Config, s: State, next: seq<Peer>)
    requires Between(c, s) && Lists(next, SetOf(next)) && SetOf(next) <= InState(s.peers, {Heard})
    requires |next| <= c.alpha - |InState(s.peers, {Waiting})|
    requires (next != [] || InState(s.peers, {Waiting}) != {}) && s.ended.None?
    requires |next| == c.alpha - |InState(s.peers, {Waiting})| || SetOf(next) == InState(s.peers, {Heard})
    requires !Starved(s.peers) && !Complete(c, s.peers)
    ensures Inv(c, Spawn(s, next))
  {
    hide Reports, Causes, Once, Marked, InState, Lists, SetOf, Recorded, Starved, Complete;
    SpawnWaiting(s, next);
    SpawnOnce(s, next);
    SpawnRecorded(c, s, next);
    ListSize(next, SetOf(next));
    SpawnSets(s.running, Causes(s.ch), SetOf(next), InState(s.peers, {Waiting}));
  }

  lemma SpawnSets(running: set<Peer>, causes: set<Peer>, next: set<Peer>, waiting: set<Peer>)
    requires running !! causes && waiting == running + causes && waiting !! next
    ensures (running + next) !! causes && (running + next) + causes == waiting + next
    ensures |running + next| == |running| + |next| && |waiting + next| == |waiting| + |next|
    ensures next != {} || waiting != {} ==> running + next != {} || causes != {}
  {
  }

  lemma SpawnWaiting(s: State, next: seq<Peer>)
    requires SetOf(next) <= InState(s.peers, {Heard})
    ensures Spawn(s, next).peers.Keys == s.peers.Keys
    ensures InState(Spawn(s, next).peers, {Waiting}) == InState(s.peers, {Waiting}) + SetOf(next)
    ensures InState(s.peers, {Waiting}) !! SetOf(next)
  {
  }

  /** Spawning queries changes nothing that was recorded or decided. */
  lemma SpawnRecorded(c: Config, s: State, next: seq<Peer>)
    requires Recorded(c, s) && SetOf(next) <= InState(s.peers, {Heard}) && !Starved(s.peers) && !Complete(c, s.peers)
    ensures Recorded(c, Spawn(s, next)) && !Starved(Spawn(s, next).peers) && !Complete(c, Spawn(s, next).peers)
    ensures SetOf(next) == InState(s.peers, {Heard}) ==> InState(Spawn(s, next).peers, {Heard}) == {}
  {
    hide Starved, Complete;
    var s' := Spawn(s, next);
    SpawnOnly(s.peers, next);
    SameAnswers(s, s');
    StillNotStarved(s.peers, next);
    StillIncomplete(c, s.peers, next);
  }

  /** Those spawned go from heard to waiting, the others stay. */
  lemma SpawnOnly(ps: Peers, next: seq<Peer>)
    requires SetOf(next) <= InState(ps, {Heard})
    ensures Marked(ps, next).Keys == ps.Keys
    ensures forall p :: p in next ==> p in ps && ps[p] == Heard
    ensures forall p :: p in ps ==> Marked(ps, next)[p] == if p in next then Waiting else ps[p]
  {
    forall p | p in next ensures p in ps && ps[p] == Heard {
      assert p in SetOf(next);
    }
  }

  lemma SameAnswers(s: State, s': State)
    requires s'.received == s.received
    ensures forall p :: Answered(s', p) <==> Answered(s, p)
    ensures forall p :: Unanswered(s', p) <==> Unanswered(s, p)
    ensures forall p :: Named(s', p) <==> Named(s, p)
  {
  }

  lemma StillNotStarved(ps: Peers, next: seq<Peer>)
    requires SetOf(next) <= InState(ps, {Heard}) && !Starved(ps)
    ensures !Starved(Marked(ps, next))
    ensures SetOf(next) == InState(ps, {Heard}) ==> InState(Marked(ps, next), {Heard}) == {}
  {
    hide Marked;
    SpawnOnly(ps, next);
    var ps' := Marked(ps, next);
    if p :| p in InState(ps, {Heard}) {
      assert p in InState(ps', {Heard}) || p in InState(ps', {Waiting});
    } else {
      var p :| p in InState(ps, {Waiting});
      assert p in InState(ps', {Waiting});
    }
    if SetOf(next) == InState(ps, {Heard}) {
      forall q | q in ps ensures ps'[q] != Heard {
        assert ps[q] == Heard ==> q in SetOf(next);
      }
    }
  }

  lemma StillIncomplete(c: Config, ps: Peers, next: seq<Peer>)
    requires SetOf(next) <= InState(ps, {Heard}) && !Complete(c, ps)
    ensures !Complete(c, Marked(ps, next))
  {
    hide Marked;
    SpawnOnly(ps, next);
    var ps' := Marked(ps, next);
    assert InState(ps', {Heard, Waiting, Queried}) == InState(ps, {Heard, Waiting, Queried});
    var p :| p in Closest(c, ps, c.beta, {Heard, Waiting, Queried}) && p in ps && ps[p] != Queried;
    assert ps'[p] != Queried;
  }

  lemma SpawnOnce(s: State, next: seq<Peer>)
    requires Once(s) && Lists(next, SetOf(next)) && SetOf(next) <= InState(s.peers, {Heard})
    ensures Once(Spawn(s, next))
  {
    var s' := Spawn(s, next);
    assert forall p :: p in next ==> p in SetOf(next);
    forall i, j {:trigger s'.spawned[i], s'.spawned[j]} | 0 <= i < j < |s'.spawned|
      ensures s'.spawned[i] != s'.spawned[j]
    {
      assert i < |s.spawned| ==> s.spawned[i] in s.spawned;
      assert j >= |s.spawned| ==> next[j - |s.spawned|] in next;
    }
  }

  lemma TurnKept(c: Config, s: State, s': State, stop: bool)
    requires ConfigOk(c) && Inv(c, s) && Turn(c, s, s', stop)
    ensures Inv(c, s')
  {
    hide Updated, Complete, Once, Inv, Between, ToQuery, Starved, Recorded;
    UpdateBetween(c, s);
    var ps := Updated(c, s.peers, s.ch[0]).value;
    var mid := Received(s, ps);
    match OutcomeOf(c, s.peers, s.ch[0], stop) {
      case Ends(_, reason) => StopKept(c, mid, reason);
      case Spawns(_, next) =>
        var heard := InState(ps, {Heard});
        assert Sorts(c, heard);
        RoomBetween(c, mid);
        ChoiceFits(c.order(heard), heard, c.alpha - |InState(ps, {Waiting})|);
        NotStarved(ps);
        SpawnKept(c, mid, next);
    }
  }

  lemma NotStarved(ps: Peers)
    requires !Starved(ps)
    ensures InState(ps, {Heard}) != {} || InState(ps, {Waiting}) != {}
  {
  }

  lemma RoomBetween(c: Config, s: State)
    requires Between(c, s)
    ensures c.alpha - |InState(s.peers, {Waiting})| >= 1
  {
  }

  lemma StopKept(c: Config, s: State, reason: Reason)
    requires Between(c, s) && Justified(c, s.(ended := Some(reason)))
    ensures Inv(c, s.(ended := Some(reason)))
  {
    hide Reports, Causes, InState, Once, Recorded, Starved, Complete;
    var s' := s.(ended := Some(reason));
    RecordedSame(c, s, s');
    OnceSame(s, s');
  }

  lemma RecordedSame(c: Config, s: State, s': State)
    requires Recorded(c, s) && s'.peers == s.peers && s'.received == s.received
    ensures Recorded(c, s')
  {
    SameAnswers(s, s');
  }

  lemma CausesAppend(ch: seq<Update>, up: Update, p: Peer)
    requires Reports(ch) && IsReport(up, p) && p !in Causes(ch)
    ensures Reports(ch + [up]) && Causes(ch + [up]) == Causes(ch) + {p}
  {
    var all := ch + [up];
    forall i {:trigger ch[i]} | 0 <= i < |ch|
      ensures ch[i].cause != p
    {
      assert ch[i] in ch && ch[i].cause in Causes(ch);
    }
    assert all[|ch|] == up && up in all;
  }

  lemma ReportKept(c: Config, s: State, s': State, p: Peer, up: Update)
    requires Inv(c, s) && Report(c, s, s', p, up)
    ensures Inv(c, s')
  {
    hide Reports, Causes, IsReport, InState, Recorded, Starved, Complete;
    if !Fresh(c, s) {
      RecordedSame(c, s, s');
    }
    CausesAppend(s.ch, up, p);
    assert (s.running - {p}) + (Causes(s.ch) + {p}) == s.running + Causes(s.ch);
  }

  lemma NextKeepsInv(c: Config, s: State, s': State)
    requires ConfigOk(c) && Inv(c, s) && Next(c, s, s')
    ensures Inv(c, s')
  {
    hide Inv, Turn, Report, Cancel;
    if stop :| Turn(c, s, s', stop) {
      TurnKept(c, s, s', stop);
    } else if p, up :| Report(c, s, s', p, up) {
      ReportKept(c, s, s', p, up);
    } else {
      CancelKept(c, s, s');
    }
  }

  lemma CancelKept(c: Config, s: State, s': State)
    requires Inv(c, s) && Cancel(s, s')
    ensures Inv(c, s')
  {
    hide Once, Reports, Causes, InState, Recorded, Starved, Complete;
    if !Fresh(c, s) {
      RecordedSame(c, s, s');
      assert Once(s') by {
        OnceSame(s, s');
      }
    }
  }

  lemma OnceSame(s: State, s': State)
    requires Once(s) && s'.peers == s.peers && s'.spawned == s.spawned
    ensures Once(s')
  {
  }

  // ------------------------------------------------------------------ every lookup

  ghost predicate Run(c: Config, seeds: seq<Peer>, ss: seq<State>) {
    && |ss| > 0 && Init(c, seeds, ss[0])
    && forall i {:trigger ss[i + 1]} :: 0 <= i < |ss| - 1 ==> Next(c, ss[i], ss[i + 1])
  }

  ghost function Last(ss: seq<State>): State
    requires |ss| > 0
  {
    ss[|ss| - 1]
  }

  lemma RunPrefix(c: Config, seeds: seq<Peer>, ss: seq<State>)
    requires Run(c, seeds, ss) && |ss| > 1
    ensures Run(c, seeds, ss[..|ss| - 1])
  {
  }

  lemma InitInv(c: Config, seeds: seq<Peer>, s: State)
    requires Init(c, seeds, s)
    ensures Inv(c, s)
  {
  }

  lemma FirstCounted(c: Config, seeds: seq<Peer>, s: State)
    requires Init(c, seeds, s)
    ensures Counted(s, 0)
  {
  }

  lemma {:induction false} RunInv(c: Config, seeds: seq<Peer>, ss: seq<State>)
    requires ConfigOk(c) && Run(c, seeds, ss)
    ensures Inv(c, Last(ss))
    decreases |ss|
  {
    hide Next, Inv;
    if |ss| > 1 {
      var n := |ss| - 2;
      assert Next(c, ss[n], ss[n + 1]);
      RunPrefix(c, seeds, ss);
      RunInv(c, seeds, ss[..n + 1]);
      NextKeepsInv(c, ss[n], ss[n + 1]);
    } else {
      InitInv(c, seeds, ss[0]);
    }
  }

  /** At most alpha peers are waiting, each peer is queried at most once, and the
      panics of updateState are never reached. */
  lemma LookupBounded(c: Config, seeds: seq<Peer>, ss: seq<State>)
    requires ConfigOk(c) && Run(c, seeds, ss)
    ensures |InState(Last(ss).peers, {Waiting})| <= c.alpha && |Last(ss).running| <= c.alpha
    ensures forall i, j :: 0 <= i < j < |Last(ss).spawned| ==> Last(ss).spawned[i] != Last(ss).spawned[j]
    ensures !Last(ss).panicked
  {
    RunInv(c, seeds, ss);
  }

  /** A query that has still to report finds room in the channel, also after the
      lookup has terminated and nobody receives any more. */
  lemma ReportNeverBlocks(c: Config, seeds: seq<Peer>, ss: seq<State>, p: Peer)
    requires ConfigOk(c) && Run(c, seeds, ss) && p in Last(ss).running
    ensures |Last(ss).ch| < c.alpha
    ensures |Last(ss).ch| + |Last(ss).running| <= c.alpha
  {
    RunInv(c, seeds, ss);
  }

  /** The loop never waits in vain: until it terminates, an update is queued or a
      query is still running. */
  lemma NeverHangs(c: Config, seeds: seq<Peer>, ss: seq<State>)
    requires ConfigOk(c) && Run(c, seeds, ss) && Last(ss).ended.None?
    ensures Last(ss).ch != [] || Last(ss).running != {}
  {
    RunInv(c, seeds, ss);
  }

  /** After every update there is room for at least one more query. */
  lemma BudgetPositive(c: Config, seeds: seq<Peer>, ss: seq<State>)
    requires ConfigOk(c) && Run(c, seeds, ss) && Last(ss).ch != []
    ensures Updated(c, Last(ss).peers, Last(ss).ch[0]).Some?
    ensures c.alpha - |InState(Updated(c, Last(ss).peers, Last(ss).ch[0]).value, {Waiting})| >= 1
  {
    RunInv(c, seeds, ss);
    UpdateBetween(c, Last(ss));
  }

  lemma {:induction false} DistinctSize(list: seq<Peer>, s: set<Peer>)
    requires forall i {:trigger list[i]} :: 0 <= i < |list| ==> list[i] in s
    requires forall i, j {:trigger list[i], list[j]} :: 0 <= i < j < |list| ==> list[i] != list[j]
    ensures |list| <= |s|
  {
    if list != [] {
      DistinctSize(list[1..], s - {list[0]});
    }
  }

  /** Each turn but the first is caused by a query of its own, and each step is a
      turn, a report or the cancellation. */
  ghost predicate Counted(s: State, steps: nat) {
    steps == s.turns + (|s.spawned| - |s.running|) + if s.ended == Some(Cancelled) then 1 else 0
  }

  lemma Balanced(c: Config, s: State)
    requires Inv(c, s)
    ensures s.turns + |s.ch| + |s.running| == |s.spawned| + 1 && !s.panicked
  {
  }

  lemma NextCounted(c: Config, s: State, s': State, steps: nat)
    requires ConfigOk(c) && Inv(c, s) && Next(c, s, s') && Inv(c, s') && Counted(s, steps)
    ensures Counted(s', steps + 1)
  {
    hide Inv, OutcomeOf;
    Balanced(c, s);
    Balanced(c, s');
    if stop :| Turn(c, s, s', stop) {
      EndsNotCancelled(c, s.peers, s.ch[0], stop);
    }
  }

  lemma EndsNotCancelled(c: Config, ps: Peers, up: Update, stop: bool)
    ensures OutcomeOf(c, ps, up, stop).Ends? ==> !OutcomeOf(c, ps, up, stop).reason.Cancelled?
  {
  }

  lemma {:induction false} RunCounted(c: Config, seeds: seq<Peer>, ss: seq<State>)
    requires ConfigOk(c) && Run(c, seeds, ss)
    ensures Counted(Last(ss), |ss| - 1)
    decreases |ss|
  {
    hide Inv, Counted, Next;
    if |ss| > 1 {
      var n := |ss| - 2;
      assert Next(c, ss[n], ss[n + 1]);
      RunPrefix(c, seeds, ss);
      RunInv(c, seeds, ss[..n + 1]);
      RunInv(c, seeds, ss);
      RunCounted(c, seeds, ss[..n + 1]);
      NextCounted(c, ss[n], ss[n + 1], n);
    } else {
      FirstCounted(c, seeds, ss[0]);
    }
  }

  /** A lookup that has come to know n peers has made at most n + 1 turns and at most
      2n + 2 steps in all, so it ends. */
  lemma LookupEnds(c: Config, seeds: seq<Peer>, ss: seq<State>)
    requires ConfigOk(c) && Run(c, seeds, ss)
    ensures Last(ss).turns <= |Last(ss).peers| + 1
    ensures |ss| - 1 <= 2 * |Last(ss).peers| + 2
  {
    RunInv(c, seeds, ss);
    RunCounted(c, seeds, ss);
    var s := Last(ss);
    forall i {:trigger s.spawned[i]} | 0 <= i < |s.spawned| ensures s.spawned[i] in s.peers.Keys {
      assert s.spawned[i] in s.spawned;
    }
    DistinctSize(s.spawned, s.peers.Keys);
  }

  /** A peer is known if and only if it is a seed or was named, counts as queried if
      and only if it answered, and as unreachable if and only if it did not. */
  lemma StatesMean(c: Config, seeds: seq<Peer>, ss: seq<State>, p: Peer)
    requires ConfigOk(c) && Run(c, seeds, ss)
    ensures var s := Last(ss);
            && (p in s.peers <==> p != c.self && Named(s, p))
            && (p in s.peers && s.peers[p] == Queried <==> Answered(s, p))
            && (p in s.peers && s.peers[p] == Unreachable <==> Unanswered(s, p))
  {
    RunInv(c, seeds, ss);
  }

  /** It ends for want of peers exactly if nobody is left to hear from. */
  lemma EndReason(c: Config, seeds: seq<Peer>, ss: seq<State>)
    requires ConfigOk(c) && Run(c, seeds, ss)
    requires Last(ss).ended == Some(Starvation) || Last(ss).ended == Some(Completed)
    ensures Last(ss).ended == Some(Starvation) <==>
            forall p :: p in Last(ss).peers ==> Answered(Last(ss), p) || Unanswered(Last(ss), p)
  {
    hide Tracked, Once, Busy, Complete, Answered, Unanswered, Named;
    RunInv(c, seeds, ss);
    var s := Last(ss);
    if s.ended == Some(Completed) {
      NotStarved(s.peers);
      if p :| p in InState(s.peers, {Heard}) {
        assert p in s.peers && s.peers[p] == Heard;
      } else {
        var p :| p in InState(s.peers, {Waiting});
        assert p in s.peers && s.peers[p] == Waiting;
      }
    } else {
      forall p | p in s.peers ensures s.peers[p] == Queried || s.peers[p] == Unreachable {
        assert p !in InState(s.peers, {Heard}) && p !in InState(s.peers, {Waiting});
      }
    }
  }

  /** The peers that answered and are at least as close as p. */
  ghost function AnsweredWithin(c: Config, s: State, p: Peer): set<Peer> {
    set q | q in s.peers && Answered(s, q) && c.distance(q) <= c.distance(p)
  }

  /** The peers that answered and are closer than p. */
  ghost function AnsweredCloser(c: Config, s: State, p: Peer): set<Peer> {
    set q | q in s.peers && Answered(s, q) && c.distance(q) < c.distance(p)
  }

  /** A lookup that has begun and goes on keeps alpha queries waiting, or has nobody
      else to query, and knows a peer without an answer or failure that has fewer than
      beta answers closer to the key. */
  lemma GoesOnFor(c: Config, seeds: seq<Peer>, ss: seq<State>) returns (p: Peer)
    requires ConfigOk(c) && Run(c, seeds, ss) && Last(ss).ended.None? && Last(ss).received != []
    ensures var s := Last(ss);
            && (|InState(s.peers, {Waiting})| == c.alpha || InState(s.peers, {Heard}) == {})
            && p in s.peers && !Answered(s, p) && !Unanswered(s, p) && |AnsweredCloser(c, s, p)| < c.beta
  {
    RunInv(c, seeds, ss);
    var s := Last(ss);
    p := IncompleteMeans(c, s.peers);
    assert AnsweredCloser(c, s, p) == QueriedCloser(c, s.peers, p);
  }

  /** What it means to end, unless stopped or cancelled: every known peer has answered
      or failed to, or each other one has beta peers that answered at least as close
      to the key. */
  lemma EndMeans(c: Config, seeds: seq<Peer>, ss: seq<State>, p: Peer)
    requires ConfigOk(c) && Run(c, seeds, ss)
    requires p in Last(ss).peers && !Answered(Last(ss), p) && !Unanswered(Last(ss), p)
    requires Last(ss).ended == Some(Starvation) || Last(ss).ended == Some(Completed)
    ensures Last(ss).ended == Some(Completed) && |AnsweredWithin(c, Last(ss), p)| >= c.beta
  {
    RunInv(c, seeds, ss);
    var s := Last(ss);
    assert p in InState(s.peers, {Heard}) || p in InState(s.peers, {Waiting});
    CompleteMeans(c, s.peers, p);
    assert AnsweredWithin(c, s, p) == QueriedWithin(c, s.peers, p);
  }
}
