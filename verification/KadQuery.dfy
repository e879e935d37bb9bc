/**
 The Kademlia lookup: the state of each known peer and the loop that applies
 updates, decides on termination and picks the next peers to query.
 */
module KadQuery {
  import opened Basics

  type Peer = nat

  datatype PeerState = Heard | Waiting | Queried | Unreachable

  type Peers = map<Peer, PeerState>

  /** What a query of one peer reports, or the seeds that start the lookup. */
  datatype Update = Update(cause: Peer, heard: seq<Peer>, queried: seq<Peer>, unreachable: seq<Peer>)

  /** LookupTerminationReason */
  datatype Reason = Stopped | Starvation | Completed | Cancelled

  /** `order` lists a set of peers by their distance to the key, closest first. */
  datatype Config = Config(self: Peer, alpha: int, beta: nat, distance: Peer -> nat, order: set<Peer> -> seq<Peer>)

  ghost predicate Lists(list: seq<Peer>, s: set<Peer>) {
    && (forall p :: p in list <==> p in s)
    && (forall i, j {:trigger list[i], list[j]} :: 0 <= i < j < |list| ==> list[i] != list[j])
  }

  ghost predicate ByDistance(c: Config, list: seq<Peer>) {
    forall i, j {:trigger list[i], list[j]} :: 0 <= i < j < |list| ==> c.distance(list[i]) <= c.distance(list[j])
  }

  ghost predicate Sorts(c: Config, s: set<Peer>) {
    Lists(c.order(s), s) && ByDistance(c, c.order(s))
  }

  ghost predicate ConfigOk(c: Config) {
    c.alpha >= 1 && forall s: set<Peer> :: Sorts(c, s)
  }

  function InState(ps: Peers, st: set<PeerState>): set<Peer> {
    set p | p in ps && ps[p] in st
  }

  /** GetClosestNInStates */
  function Closest(c: Config, ps: Peers, n: nat, st: set<PeerState>): seq<Peer> {
    var all := c.order(InState(ps, st));
    if |all| >= n then all[..n] else all
  }

  // ------------------------------------------------------------------ updateState

  function Added(c: Config, ps: Peers, heard: seq<Peer>): Peers {
    if heard == [] then ps else
    var before := Added(c, ps, heard[..|heard| - 1]);
    var p := heard[|heard| - 1];
    if p == c.self || p in before then before else before[p := Heard]
  }

  /** Moves waiting peers to a final state; None is the protocol-error panic. */
  function Moved(c: Config, ps: Peers, list: seq<Peer>, to: PeerState): Option<Peers> {
    if list == [] then Some(ps) else
    match Moved(c, ps, list[..|list| - 1], to)
    case None => None
    case Some(before) =>
      var p := list[|list| - 1];
      if p == c.self then Some(before)
      else if p in before && before[p] == Waiting then Some(before[p := to])
      else None
  }

  function Updated(c: Config, ps: Peers, up: Update): Option<Peers> {
    match Moved(c, Added(c, ps, up.heard), up.queried, Queried)
    case None => None
    case Some(next) => Moved(c, next, up.unreachable, Unreachable)
  }

  /** Everybody reported on, but for this node itself, is waiting and reported once. */
  ghost predicate Reportable(c: Config, ps: Peers, list: seq<Peer>) {
    && (forall p :: p in list && p != c.self ==> p in ps && ps[p] == Waiting)
    && (forall i, j {:trigger list[i], list[j]} :: 0 <= i < j < |list| && list[i] != c.self ==> list[i] != list[j])
  }

  /** Who answered is queried, who did not is unreachable, newcomers are heard of, and
      nobody else changes. */
  ghost predicate UpdatesTo(c: Config, ps: Peers, up: Update, ps': Peers) {
    && (forall p :: p in up.queried && p != c.self ==> p in ps' && ps'[p] == Queried)
    && (forall p :: p in up.unreachable && p != c.self ==> p in ps' && ps'[p] == Unreachable)
    && (forall p :: p in ps && (p == c.self || (p !in up.queried && p !in up.unreachable)) ==>
          p in ps' && ps'[p] == ps[p])
    && (forall p :: p !in ps ==> (p in ps' <==> p in up.heard && p != c.self) && (p in ps' ==> ps'[p] == Heard))
  }

  lemma {:induction false} AddedMeans(c: Config, ps: Peers, heard: seq<Peer>)
    ensures var r := Added(c, ps, heard);
            && (forall p :: p in ps ==> p in r && r[p] == ps[p])
            && (forall p :: p !in ps ==> (p in r <==> p in heard && p != c.self) && (p in r ==> r[p] == Heard))
  {
    if heard != [] {
      AddedMeans(c, ps, heard[..|heard| - 1]);
      assert heard == heard[..|heard| - 1] + [heard[|heard| - 1]];
    }
  }

  lemma {:induction false} MovedMeans(c: Config, ps: Peers, list: seq<Peer>, to: PeerState)
    requires to != Waiting
    ensures Moved(c, ps, list, to).Some? <==> Reportable(c, ps, list)
    ensures Moved(c, ps, list, to).Some? ==>
              var r := Moved(c, ps, list, to).value;
              r.Keys == ps.Keys && forall p :: p in ps ==> r[p] == if p in list && p != c.self then to else ps[p]
  {
    if list != [] {
      var init, last := list[..|list| - 1], list[|list| - 1];
      assert list == init + [last];
      MovedMeans(c, ps, init, to);
      ReportableNext(c, ps, init, last);
    }
  }

  lemma ReportableNext(c: Config, ps: Peers, init: seq<Peer>, last: Peer)
    ensures Reportable(c, ps, init + [last]) <==>
            Reportable(c, ps, init) && (last != c.self ==> last in ps && ps[last] == Waiting && last !in init)
  {
    var list := init + [last];
    assert last in list && forall p :: p in list <==> p in init || p == last;
    assert list[|init|] == last;
    assert forall i :: 0 <= i < |init| ==> list[i] == init[i];
  }

  /** An update succeeds if and only if those it reports on are waiting, and then does
      what it says. */
  lemma UpdatedExactly(c: Config, ps: Peers, up: Update)
    ensures Updated(c, ps, up).Some? <==> Reportable(c, ps, up.queried + up.unreachable)
    ensures Updated(c, ps, up).Some? ==> UpdatesTo(c, ps, up, Updated(c, ps, up).value)
  {
    hide Added, Moved, Reportable;
    var added := Added(c, ps, up.heard);
    AddedMeans(c, ps, up.heard);
    MovedMeans(c, added, up.queried, Queried);
    ReportableAdded(c, ps, added, up.queried + up.unreachable);
    if Moved(c, added, up.queried, Queried).Some? {
      var next := Moved(c, added, up.queried, Queried).value;
      MovedMeans(c, next, up.unreachable, Unreachable);
      ReportableBoth(c, added, next, up.queried, up.unreachable);
      UpdatedOthers(c, added, next, up.queried, up.unreachable);
    } else {
      ReportableFirst(c, added, up.queried, up.unreachable);
    }
  }

  lemma ReportableAdded(c: Config, ps: Peers, added: Peers, list: seq<Peer>)
    requires forall p :: p in ps ==> p in added && added[p] == ps[p]
    requires forall p :: p in added && p !in ps ==> added[p] == Heard
    ensures Reportable(c, ps, list) <==> Reportable(c, added, list)
  {
  }

  lemma ReportableFirst(c: Config, ps: Peers, a: seq<Peer>, b: seq<Peer>)
    ensures Reportable(c, ps, a + b) ==> Reportable(c, ps, a)
  {
    assert forall i :: 0 <= i < |a| ==> (a + b)[i] == a[i];
    assert forall p :: p in a ==> p in a + b;
  }

  lemma ReportableBoth(c: Config, ps: Peers, next: Peers, a: seq<Peer>, b: seq<Peer>)
    requires Reportable(c, ps, a) && next.Keys == ps.Keys
    requires forall p :: p in ps ==> next[p] == if p in a && p != c.self then Queried else ps[p]
    ensures Reportable(c, ps, a + b) <==> Reportable(c, next, b)
  {
    var list := a + b;
    assert forall i :: 0 <= i < |a| ==> list[i] == a[i];
    assert forall i :: 0 <= i < |b| ==> list[|a| + i] == b[i];
    if Reportable(c, ps, list) {
      forall p | p in b && p != c.self ensures p in next && next[p] == Waiting {
        var j :| 0 <= j < |b| && b[j] == p;
        assert list[|a| + j] in list;
      }
      forall i, j {:trigger b[i], b[j]} | 0 <= i < j < |b| && b[i] != c.self ensures b[i] != b[j] {
        assert list[|a| + i] != list[|a| + j];
      }
    }
    if Reportable(c, next, b) {
      forall i, j {:trigger list[i], list[j]} | 0 <= i < j < |list| && list[i] != c.self ensures list[i] != list[j] {
        if i < |a| <= j {
          assert list[i] in a && list[j] in b;
        } else if i >= |a| {
          assert b[i - |a|] != b[j - |a|];
        }
      }
    }
  }

  lemma UpdatedOthers(c: Config, ps: Peers, next: Peers, a: seq<Peer>, b: seq<Peer>)
    requires Reportable(c, ps, a) && next.Keys == ps.Keys
    requires forall p :: p in ps ==> next[p] == if p in a && p != c.self then Queried else ps[p]
    ensures Reportable(c, next, b) ==> forall p :: p in b && p != c.self ==> p in ps && p !in a
    ensures forall p :: p in a && p != c.self ==> p in ps && ps[p] == Waiting
    ensures Reportable(c, next, b) ==> forall p :: p in b && p != c.self ==> ps[p] == Waiting
  {
  }

  // ------------------------------------------------------------------ isReadyToTerminate

  predicate Starved(ps: Peers) {
    InState(ps, {Heard}) == {} && InState(ps, {Waiting}) == {}
  }

  /** The closest beta peers that are not unreachable have all been queried. */
  predicate Complete(c: Config, ps: Peers) {
    forall p :: p in Closest(c, ps, c.beta, {Heard, Waiting, Queried}) && p in ps ==> ps[p] == Queried
  }

  /** The peers to query next. The test on the count would let a budget below one
      through to the end of the list. */
  function ToQuery(heard: seq<Peer>, budget: int): seq<Peer> {
    if 1 <= budget < |heard| then heard[..budget] else heard
  }

  /** So the budget is kept if and only if it is at least one, or nobody is left. */
  lemma BudgetKeptExactly(heard: seq<Peer>, budget: int)
    ensures |ToQuery(heard, budget)| <= (if budget >= 0 then budget else 0) <==> budget >= 1 || heard == []
  {
  }

  /** With a budget of nought everybody heard of is queried. */
  lemma NoBudgetSpawnsAll(heard: seq<Peer>)
    requires heard != []
    ensures ToQuery(heard, 0) == heard && |ToQuery(heard, 0)| > 0
  {
  }

  // ------------------------------------------------------------------ what closest means

  function SetOf(list: seq<Peer>): set<Peer> {
    set p | p in list
  }

  lemma {:induction false} ListSize(list: seq<Peer>, s: set<Peer>)
    requires Lists(list, s)
    ensures |list| == |s|
  {
    if list != [] {
      var init, last := list[..|list| - 1], list[|list| - 1];
      assert list == init + [last];
      ListSize(init, s - {last});
    }
  }

  /** A head of the listing is no further away than anything behind it. */
  lemma HeadIsClosest(c: Config, s: set<Peer>, n: nat, p: Peer, q: Peer)
    requires ConfigOk(c) && n <= |c.order(s)| && q in c.order(s)[..n] && p in s && p !in c.order(s)[..n]
    ensures c.distance(q) <= c.distance(p)
  {
    assert Sorts(c, s);
    var list := c.order(s);
    assert p in list;
    var i :| 0 <= i < |list| && list[i] == p;
    var j :| 0 <= j < n && list[j] == q;
    assert forall k :: 0 <= k < n ==> list[k] == list[..n][k] && list[k] in list[..n];
    assert j < n <= i;
  }

  /** The peers picked next are the closest of those heard of. */
  lemma NextAreClosest(c: Config, ps: Peers, budget: int, p: Peer, q: Peer)
    requires ConfigOk(c) && p in InState(ps, {Heard})
    requires var next := ToQuery(c.order(InState(ps, {Heard})), budget); q in next && p !in next
    ensures c.distance(q) <= c.distance(p)
  {
    var heard := InState(ps, {Heard});
    assert Sorts(c, heard);
    if 1 <= budget < |c.order(heard)| {
      HeadIsClosest(c, heard, budget, p, q);
    }
  }

  /** The queried peers at least as close as p. */
  ghost function QueriedWithin(c: Config, ps: Peers, p: Peer): set<Peer> {
    set q | q in ps && ps[q] == Queried && c.distance(q) <= c.distance(p)
  }

  /** When the lookup is complete, whoever was heard of but not queried has beta
      queried peers at least as close to the key. */
  lemma CompleteMeans(c: Config, ps: Peers, p: Peer)
    requires ConfigOk(c) && Complete(c, ps) && p in ps && ps[p] in {Heard, Waiting}
    ensures |QueriedWithin(c, ps, p)| >= c.beta
  {
    var live := InState(ps, {Heard, Waiting, Queried});
    assert Sorts(c, live);
    var all, top := c.order(live), Closest(c, ps, c.beta, {Heard, Waiting, Queried});
    assert p in live && p in all && p !in top;
    forall q | q in top ensures q in QueriedWithin(c, ps, p) {
      assert q in all && q in live;
      HeadIsClosest(c, live, c.beta, p, q);
    }
    assert Lists(top, SetOf(top));
    ListSize(top, SetOf(top));
    SubsetSize(SetOf(top), QueriedWithin(c, ps, p));
  }

  /** The queried peers closer than p. */
  ghost function QueriedCloser(c: Config, ps: Peers, p: Peer): set<Peer> {
    set q | q in ps && ps[q] == Queried && c.distance(q) < c.distance(p)
  }

  /** While it is not, somebody is left who has fewer than beta queried peers closer. */
  lemma IncompleteMeans(c: Config, ps: Peers) returns (p: Peer)
    requires ConfigOk(c) && !Complete(c, ps)
    ensures p in ps && ps[p] in {Heard, Waiting} && |QueriedCloser(c, ps, p)| < c.beta
  {
    var live := InState(ps, {Heard, Waiting, Queried});
    assert Sorts(c, live);
    var all := c.order(live);
    p :| p in Closest(c, ps, c.beta, {Heard, Waiting, Queried}) && p in ps && ps[p] != Queried;
    assert p in all;
    var i :| 0 <= i < |all| && i < c.beta && all[i] == p;
    forall q | q in QueriedCloser(c, ps, p) ensures q in SetOf(all[..i]) {
      assert q in live && q in all;
      var j :| 0 <= j < |all| && all[j] == q;
      assert j < i;
      assert all[..i][j] == q;
    }
    SubsetSize(QueriedCloser(c, ps, p), SetOf(all[..i]));
    assert Lists(all[..i], SetOf(all[..i]));
    ListSize(all[..i], SetOf(all[..i]));
  }

  // ------------------------------------------------------------------ a turn of run

  /** What one turn of the loop makes of an update: the peer states, and either the
      reason to end or the peers to query. */
  datatype Outcome = Panics | Ends(peers: Peers, reason: Reason) | Spawns(peers: Peers, next: seq<Peer>)

  function OutcomeOf(c: Config, ps: Peers, up: Update, stop: bool): Outcome {
    match Updated(c, ps, up)
    case None => Panics
    case Some(ps') =>
      if stop then Ends(ps', Stopped)
      else if Starved(ps') then Ends(ps', Starvation)
      else if Complete(c, ps') then Ends(ps', Completed)
      else Spawns(ps', ToQuery(c.order(InState(ps', {Heard})), c.alpha - |InState(ps', {Waiting})|))
  }

  function Marked(ps: Peers, list: seq<Peer>): Peers {
    map p | p in ps.Keys + SetOf(list) :: if p in list then Waiting else ps[p]
  }

  class Query {
    const c: Config
    var peers: Peers
    var terminated: bool

    constructor (c: Config)
      ensures this.c == c && peers == map[] && !terminated
    {
      this.c, peers, terminated := c, map[], false;
    }

    /** updateState; false stands for a panic. */
    method UpdateState(up: Update) returns (ok: bool)
      modifies `peers
      ensures ok <==> !old(terminated) && Updated(c, old(peers), up).Some?
      ensures ok ==> Some(peers) == Updated(c, old(peers), up)
      ensures ok <==> !old(terminated) && Reportable(c, old(peers), up.queried + up.unreachable)
      ensures ok ==> UpdatesTo(c, old(peers), up, peers)
    {
      UpdatedExactly(c, peers, up);
      if terminated {
        return false;
      }
      for i := 0 to |up.heard|
        invariant peers == Added(c, old(peers), up.heard[..i])
      {
        assert up.heard[..i + 1][..i] == up.heard[..i];
        if up.heard[i] != c.self && up.heard[i] !in peers {
          peers := peers[up.heard[i] := Heard];
        }
      }
      assert up.heard[..|up.heard|] == up.heard;
      ok := Move(up.queried, Queried);
      if ok {
        ok := Move(up.unreachable, Unreachable);
      }
    }

    method Move(list: seq<Peer>, to: PeerState) returns (ok: bool)
      modifies `peers
      ensures ok <==> Moved(c, old(peers), list, to).Some?
      ensures ok ==> Some(peers) == Moved(c, old(peers), list, to)
    {
      for i := 0 to |list|
        invariant Some(peers) == Moved(c, old(peers), list[..i], to)
      {
        assert list[..i + 1][..i] == list[..i];
        var p := list[i];
        if p != c.self {
          if p in peers && peers[p] == Waiting {
            peers := peers[p := to];
          } else {
            MovedNone(c, old(peers), list, i + 1, to);
            return false;
          }
        }
      }
      assert list[..|list|] == list;
      return true;
    }

    method LookupTermination() returns (r: bool)
      requires ConfigOk(c)
      ensures r <==> Complete(c, peers)
    {
      var list := Closest(c, peers, c.beta, {Heard, Waiting, Queried});
      ClosestKnown(c, peers, c.beta, {Heard, Waiting, Queried});
      for i := 0 to |list|
        invariant forall k :: 0 <= k < i ==> peers[list[k]] == Queried
      {
        assert list[i] in list;
        if peers[list[i]] != Queried {
          return false;
        }
      }
      return true;
    }

    /** The loop that collects the peers to query, as it counts. */
    method PeersToQuery(budget: int) returns (r: seq<Peer>)
      ensures r == ToQuery(c.order(InState(peers, {Heard})), budget)
    {
      var heard := c.order(InState(peers, {Heard}));
      r := [];
      var count := 0;
      for i := 0 to |heard|
        invariant r == heard[..i] && count == i && (1 <= budget ==> i < budget || i == 0)
      {
        r := r + [heard[i]];
        count := count + 1;
        if count == budget {
          return;
        }
      }
    }

    method SpawnQuery(p: Peer)
      requires p in peers
      modifies `peers
      ensures peers == old(peers)[p := Waiting]
    {
      peers := peers[p := Waiting];
    }

    method SpawnAll(list: seq<Peer>)
      requires forall p :: p in list ==> p in peers
      modifies `peers
      ensures peers == Marked(old(peers), list)
    {
      for i := 0 to |list|
        invariant peers == Marked(old(peers), list[..i])
      {
        assert list[..i + 1] == list[..i] + [list[i]];
        SpawnQuery(list[i]);
      }
      assert list[..|list|] == list;
    }

    /** isReadyToTerminate; `stop` is the answer of the stop function. */
    method ReadyToTerminate(stop: bool, budget: int) returns (reason: Option<Reason>, next: seq<Peer>)
      requires ConfigOk(c)
      ensures reason == if stop then Some(Stopped) else if Starved(peers) then Some(Starvation)
                        else if Complete(c, peers) then Some(Completed) else None
      ensures reason.None? ==> next == ToQuery(c.order(InState(peers, {Heard})), budget)
    {
      if stop {
        return Some(Stopped), [];
      }
      if InState(peers, {Heard}) == {} && InState(peers, {Waiting}) == {} {
        return Some(Starvation), [];
      }
      var complete := LookupTermination();
      if complete {
        return Some(Completed), [];
      }
      next := PeersToQuery(budget);
      return None, next;
    }

    /** One turn of run on an update; the queries of `next` are to be started. */
    method Turn(up: Update, stop: bool) returns (ok: bool, next: seq<Peer>)
      requires ConfigOk(c) && !terminated
      modifies this
      ensures match OutcomeOf(c, old(peers), up, stop)
              case Panics => !ok
              case Ends(ps, _) => ok && peers == ps && terminated && next == []
              case Spawns(ps, list) => ok && peers == Marked(ps, list) && !terminated && next == list
    {
      hide Updated, Complete, Starved, ToQuery;
      next := [];
      ok := UpdateState(up);
      if !ok {
        return;
      }
      var reason, list := ReadyToTerminate(stop, c.alpha - |InState(peers, {Waiting})|);
      if reason.Some? {
        terminated := true;
        return;
      }
      next := list;
      PickedHeard(c, peers, c.alpha - |InState(peers, {Waiting})|);
      SpawnAll(next);
    }
  }

  lemma PickedHeard(c: Config, ps: Peers, budget: int)
    requires ConfigOk(c)
    ensures forall p :: p in ToQuery(c.order(InState(ps, {Heard})), budget) ==> p in ps
  {
    assert Sorts(c, InState(ps, {Heard}));
    var heard := c.order(InState(ps, {Heard}));
    forall p | p in ToQuery(heard, budget) ensures p in ps {
      assert p in heard && p in InState(ps, {Heard});
    }
  }

  lemma ClosestKnown(c: Config, ps: Peers, n: nat, st: set<PeerState>)
    requires ConfigOk(c)
    ensures forall p :: p in Closest(c, ps, n, st) ==> p in ps
  {
    assert Sorts(c, InState(ps, st));
    forall p | p in Closest(c, ps, n, st) ensures p in ps {
      assert p in c.order(InState(ps, st)) && p in InState(ps, st);
    }
  }

  lemma {:induction false} MovedNone(c: Config, from: Peers, list: seq<Peer>, i: nat, to: PeerState)
    requires i <= |list| && Moved(c, from, list[..i], to).None?
    ensures Moved(c, from, list, to).None?
    decreases |list| - i
  {
    if i == |list| {
      assert list[..i] == list;
    } else {
      assert list[..i + 1][..i] == list[..i];
      MovedNone(c, from, list, i + 1, to);
    }
  }
}
