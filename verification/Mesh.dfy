/**
 Mesh, fanout and backoff of the BlossomSub router, under grafts, prunes, joins,
 leaves, publishing, disconnection and the heartbeat.
 */
module Mesh {
  import opened Basics
  import opened Backoff
  import MeshPrune

  type Peers = map<Bitmask, set<Peer>>

  type Score = Peer -> real

  /** Overlay parameters, as their documentation constrains them. */
  datatype Params = Params(D: nat, Dlo: nat, Dhi: nat, Dscore: nat, Dout: nat, pruneBackoff: int,
                           unsubscribeBackoff: int, fanoutTTL: int, opportunisticGraftTicks: nat,
                           opportunisticGraftPeers: int)
  {
    ghost predicate Ok() {
      && 0 < Dlo <= D <= Dhi && 2 * Dout <= D && opportunisticGraftTicks > 0
      && -INT64_LIMIT <= pruneBackoff < INT64_LIMIT && -INT64_LIMIT <= unsubscribeBackoff < INT64_LIMIT
    }
  }

  /** No direct peer in any mesh or fanout, no bitmask in both. */
  ghost predicate Separate(direct: set<Peer>, mesh: Peers, fanout: Peers) {
    && (forall b :: b in mesh ==> mesh[b] !! direct)
    && (forall b :: b in fanout ==> fanout[b] !! direct)
    && mesh.Keys !! fanout.Keys
  }

  /** Whoever is new in a mesh had no backoff running. */
  ghost predicate OnlyExpired(before: Peers, after: Peers, recorded: map<(Bitmask, Peer), int>, now: int) {
    forall b, p {:trigger Expired(recorded, b, p, now)} ::
      b in after && p in after[b] && !(b in before && p in before[b]) ==> Expired(recorded, b, p, now)
  }

  /** The two differ at b at most. */
  ghost predicate OnlyAt(before: Peers, after: Peers, b: Bitmask) {
    b in after && before.Keys == after.Keys && forall c :: c in before && c != b ==> after[c] == before[c]
  }

  lemma EnterOne(before: Peers, mesh: Peers, recorded: map<(Bitmask, Peer), int>, now: int, b: Bitmask, p: Peer)
    requires OnlyExpired(before, mesh, recorded, now) && b in mesh && Expired(recorded, b, p, now)
    ensures OnlyExpired(before, mesh[b := mesh[b] + {p}], recorded, now)
  {
  }

  lemma NoneEnters(mesh: Peers, recorded: map<(Bitmask, Peer), int>, now: int)
    ensures OnlyExpired(mesh, mesh, recorded, now)
  {
  }

  /** Peers without an entry in the table may join any mesh. */
  lemma EnterUnlisted(before: Peers, recorded: map<(Bitmask, Peer), int>, timers: Timers, now: int, b: Bitmask,
                      more: set<Peer>)
    requires Faithful(recorded, timers, now)
    requires forall p :: p in more && !(b in before && p in before[b]) ==> !BackedOff(timers, b, p)
    ensures OnlyExpired(before, before[b := more], recorded, now)
  {
    forall p | p in more && !(b in before && p in before[b])
      ensures Expired(recorded, b, p, now)
    {
      MayEnter(recorded, timers, now, b, p);
    }
  }

  lemma NoteOne(before: Peers, mesh: Peers, recorded: map<(Bitmask, Peer), int>, now: int, b: Bitmask, p: Peer, e: int)
    requires OnlyExpired(before, mesh, recorded, now) && b in mesh && p !in mesh[b]
    ensures OnlyExpired(before, mesh, Noted(recorded, b, p, e), now)
  {
    forall c, q | c in mesh && q in mesh[c] && !(c in before && q in before[c])
      ensures Expired(Noted(recorded, b, p, e), c, q, now)
    {
      assert Expired(recorded, c, q, now);
    }
  }

  ghost predicate Distinct(s: seq<Peer>) {
    forall i, j {:trigger s[i], s[j]} :: 0 <= i < j < |s| ==> s[i] != s[j]
  }

  function SetOf(s: seq<Peer>): set<Peer> {
    set p | p in s
  }

  function First(s: seq<Peer>, n: nat): seq<Peer> {
    if n <= |s| then s[..n] else s
  }

  lemma {:induction false} SetOfSize(s: seq<Peer>)
    ensures |SetOf(s)| <= |s|
    ensures Distinct(s) ==> |SetOf(s)| == |s|
  {
    if s != [] {
      var init, last := s[..|s| - 1], s[|s| - 1];
      SetOfSize(init);
      assert SetOf(s) == SetOf(init) + {last};
    }
  }

  /** Candidates are the keys of a map, in some order. */
  type Pool = s: seq<Peer> | Distinct(s)

  /** All there are, or as many as asked for. */
  ghost predicate Picked(all: set<Peer>, count: int, r: set<Peer>) {
    r <= all && if count > 0 && |all| > count then |r| == count else r == all
  }

  lemma PickedFew(all: set<Peer>, count: int, r: set<Peer>)
    requires Picked(all, count, r)
    ensures count > 0 ==> |r| <= count
  {
  }

  ghost function Accepted(pool: seq<Peer>, accept: Peer -> bool): set<Peer> {
    set p | p in pool && accept(p)
  }

  /** getPeers over candidates that are already intersected and shuffled. */
  method GetPeers(pool: Pool, count: int, accept: Peer -> bool) returns (r: set<Peer>)
    ensures Picked(Accepted(pool, accept), count, r)
  {
    var chosen := [];
    for i := 0 to |pool|
      invariant Distinct(chosen) && SetOf(chosen) == Accepted(pool[..i], accept)
    {
      assert pool[..i + 1] == pool[..i] + [pool[i]];
      assert Accepted(pool[..i + 1], accept) == Accepted(pool[..i], accept) + if accept(pool[i]) then {pool[i]} else {};
      if accept(pool[i]) {
        assert pool[i] !in SetOf(chosen);
        assert SetOf(chosen + [pool[i]]) == SetOf(chosen) + {pool[i]};
        chosen := chosen + [pool[i]];
      }
    }
    assert pool[..|pool|] == pool;
    SetOfSize(chosen);
    if count > 0 && |chosen| > count {
      chosen := chosen[..count];
      SetOfSize(chosen);
    }
    return SetOf(chosen);
  }

  /** The candidates neither barred nor backing off that qualify. */
  ghost function Open(pool: seq<Peer>, barred: set<Peer>, timers: Timers, b: Bitmask, accept: Peer -> bool): set<Peer> {
    set p | p in pool && p !in barred && !BackedOff(timers, b, p) && accept(p)
  }

  ghost function Better(pool: seq<Peer>, barred: set<Peer>, timers: Timers, b: Bitmask, score: Score,
                        median: real): set<Peer> {
    set p | p in pool && p !in barred && !BackedOff(timers, b, p) && score(p) > median
  }

  lemma OpenBetter(pool: seq<Peer>, barred: set<Peer>, timers: Timers, b: Bitmask, score: Score, median: real,
                   accept: Peer -> bool)
    requires forall p :: accept(p) <==> score(p) > median
    ensures Open(pool, barred, timers, b, accept) == Better(pool, barred, timers, b, score, median)
  {
  }

  lemma OpenEligible(pool: seq<Peer>, barred: set<Peer>, timers: Timers, b: Bitmask, score: Score, out: set<Peer>,
                     accept: Peer -> bool)
    requires forall p :: accept(p) <==> p in out && score(p) >= 0.0
    ensures Open(pool, barred, timers, b, accept) == Eligible(pool, barred, timers, b, score) * out
  {
  }

  /** Those whose score does not count against them. */
  ghost function Eligible(pool: seq<Peer>, barred: set<Peer>, timers: Timers, b: Bitmask, score: Score): set<Peer> {
    set p | p in pool && p !in barred && !BackedOff(timers, b, p) && score(p) >= 0.0
  }

  /** The candidates that may be published to. */
  ghost function Audience(pool: seq<Peer>, barred: set<Peer>, score: Score, publishThreshold: real): set<Peer> {
    set p | p in pool && p !in barred && score(p) >= publishThreshold
  }

  /** The peers without a negative score. */
  ghost function Unfaulted(peers: set<Peer>, score: Score): set<Peer> {
    set p | p in peers && score(p) >= 0.0
  }

  /** The fanout peers that may enter the mesh. */
  ghost function Promoted(fanout: Peers, timers: Timers, b: Bitmask, score: Score): set<Peer> {
    if b in fanout then set p | p in fanout[b] && score(p) >= 0.0 && !BackedOff(timers, b, p) else {}
  }

  /** All of those become the mesh, with candidates to fill it up to D. */
  ghost predicate Joins(fanout: Peers, timers: Timers, direct: set<Peer>, D: nat, b: Bitmask, score: Score, pool: Pool,
                        gmap: set<Peer>) {
    var kept := Promoted(fanout, timers, b, score);
    && kept <= gmap
    && if |kept| < D then Picked(Eligible(pool, kept + direct, timers, b, score), D - |kept|, gmap - kept)
       else gmap == kept
  }

  lemma JoinsWith(fanout: Peers, timers: Timers, direct: set<Peer>, D: nat, b: Bitmask, score: Score, pool: Pool,
                  more: set<Peer>)
    requires var kept := Promoted(fanout, timers, b, score);
             if |kept| < D then Picked(Eligible(pool, kept + direct, timers, b, score), D - |kept|, more)
             else more == {}
    ensures Joins(fanout, timers, direct, D, b, score, pool, Promoted(fanout, timers, b, score) + more)
  {
    var kept := Promoted(fanout, timers, b, score);
    assert kept !! more;
    assert (kept + more) - kept == more;
  }

  /** A GRAFT from p is accepted into a mesh of these peers. */
  ghost predicate Welcome(direct: set<Peer>, outbound: set<Peer>, Dhi: nat, timers: Timers, peers: set<Peer>,
                          b: Bitmask, p: Peer, score: real, now: int) {
    && p !in direct && (BackedOff(timers, b, p) ==> timers[b][p] <= now)
    && score >= 0.0 && (|peers| < Dhi || p in outbound)
  }

  /** A refused GRAFT stays refused, and refusals elsewhere are not affected. */
  lemma StaysUnwelcome(direct: set<Peer>, outbound: set<Peer>, Dhi: nat, timers: Timers, mesh: Peers,
                       b: Bitmask, p: Peer, score: real, now: int, expire: int)
    requires b in mesh && !Welcome(direct, outbound, Dhi, timers, mesh[b], b, p, score, now)
    ensures !Welcome(direct, outbound, Dhi, Added(timers, b, p, expire), mesh[b], b, p, score, now)
    ensures forall c :: c in mesh && c != b ==>
              (Welcome(direct, outbound, Dhi, Added(timers, b, p, expire), mesh[c], c, p, score, now)
               <==> Welcome(direct, outbound, Dhi, timers, mesh[c], c, p, score, now))
  {
  }

  /** p entered the meshes it is welcome in, of those it named, and is sent a
      PRUNE for exactly the named ones that it is still not in. */
  ghost predicate Answered(before: Peers, mesh: Peers, grafts: seq<Bitmask>, peerFilter: Bitmask -> bool,
                           welcome: set<Bitmask>, p: Peer, prune: seq<Bitmask>) {
    && mesh.Keys == before.Keys
    && (forall b :: b in mesh ==>
          mesh[b] == if b in grafts && peerFilter(b) && b in welcome then before[b] + {p} else before[b])
    && (forall b :: b in prune <==> b in mesh && b in grafts && peerFilter(b) && p !in mesh[b])
  }

  lemma NoneAnswered(mesh: Peers, peerFilter: Bitmask -> bool, welcome: set<Bitmask>, p: Peer)
    ensures Answered(mesh, mesh, [], peerFilter, welcome, p, [])
  {
  }

  lemma AnsweredNext(before: Peers, mesh: Peers, mesh': Peers, grafts: seq<Bitmask>, b: Bitmask,
                     peerFilter: Bitmask -> bool, welcome: set<Bitmask>, p: Peer, prune: seq<Bitmask>,
                     prune': seq<Bitmask>)
    requires Answered(before, mesh, grafts, peerFilter, welcome, p, prune)
    requires if b in mesh && peerFilter(b) && p !in mesh[b]
             then if b in welcome then mesh' == mesh[b := mesh[b] + {p}] && prune' == prune
                  else mesh' == mesh && prune' == prune + [b]
             else mesh' == mesh && prune' == prune
    ensures Answered(before, mesh', grafts + [b], peerFilter, welcome, p, prune')
  {
    forall c | c in mesh'
      ensures mesh'[c] == if c in grafts + [b] && peerFilter(c) && c in welcome then before[c] + {p} else before[c]
      ensures c in prune' <==> c in grafts + [b] && peerFilter(c) && p !in mesh'[c]
    {
      assert c in grafts + [b] <==> c in grafts || c == b;
      assert c in prune + [b] <==> c in prune || c == b;
    }
  }

  type Protocol = string

  /** A connection with the protocols of its streams. */
  datatype Conn = Conn(limited: bool, outgoing: bool, streams: seq<Protocol>)
  {
    predicate Carries(proto: Protocol) {
      !limited && outgoing && proto in streams
    }
  }

  class Router {
    const direct: set<Peer>
    const params: Params
    var mesh: Peers
    var fanout: Peers
    var lastpub: map<Bitmask, int>
    var backoff: Timers
    var outbound: set<Peer>
    var heartbeatTicks: nat
    var clock: int                               // the last reading of time.Now
    ghost var recorded: map<(Bitmask, Peer), int>

    ghost predicate Valid()
      reads this
    {
      && params.Ok() && clock > INT64_LIMIT
      && Separate(direct, mesh, fanout) && Faithful(recorded, backoff, clock)
    }

    constructor (direct: set<Peer>, params: Params, now: int)
      requires params.Ok() && now > INT64_LIMIT
      ensures Valid() && mesh == map[] && fanout == map[] && recorded == map[]
    {
      this.direct, this.params, clock := direct, params, now;
      mesh, fanout, lastpub, backoff, outbound, heartbeatTicks, recorded := map[], map[], map[], map[], {}, 0, map[];
    }

    method ReadClock(now: int)
      requires Valid() && now >= clock
      modifies `clock
      ensures Valid() && clock == now
    {
      LaterFaithful(recorded, backoff, clock, now);
      clock := now;
    }

    /** doAddBackoff */
    method AddBackoff(p: Peer, b: Bitmask, interval: int)
      requires Valid() && -INT64_LIMIT <= interval < INT64_LIMIT
      modifies `backoff, `recorded
      ensures Valid() && BackedOff(backoff, b, p)
      ensures backoff == Added(old(backoff), b, p, clock + interval)
      ensures recorded == Noted(old(recorded), b, p, clock + interval)
      ensures Until(backoff, b, p, clock + interval) && NoEarlier(old(backoff), backoff)
    {
      var expire := clock + interval;
      AddedNoEarlier(backoff, b, p, expire);
      AddedFaithful(recorded, backoff, clock, b, p, expire);
      var row := if b in backoff then backoff[b] else map[];
      var cur := if p in row then row[p] else 0;
      if cur < expire {
        row := row[p := expire];
      }
      backoff := backoff[b := row];
      recorded := Noted(recorded, b, p, expire);
    }

    /** One GRAFT for bitmask b; the caller sends back a PRUNE if asked to. */
    method Graft(p: Peer, b: Bitmask, score: real) returns (prune: bool)
      requires Valid() && b in mesh
      modifies `mesh, `backoff, `recorded
      ensures Valid()
      ensures prune <==>
              p !in old(mesh)[b]
              && !Welcome(direct, outbound, params.Dhi, old(backoff), old(mesh)[b], b, p, score, clock)
      ensures mesh == if prune || p in old(mesh)[b] then old(mesh) else old(mesh)[b := old(mesh)[b] + {p}]
      ensures backoff == if prune && p !in direct
                         then Added(old(backoff), b, p, clock + params.pruneBackoff) else old(backoff)
      ensures recorded == if prune && p !in direct
                          then Noted(old(recorded), b, p, clock + params.pruneBackoff) else old(recorded)
      ensures mesh != old(mesh) ==> Expired(recorded, b, p, clock)
      ensures mesh != old(mesh) ==> p !in direct && score >= 0.0 && (|old(mesh)[b]| < params.Dhi || p in outbound)
      ensures prune ==> || p in direct || score < 0.0 || (|mesh[b]| >= params.Dhi && p !in outbound)
                        || (BackedOff(old(backoff), b, p) && clock < old(backoff)[b][p])
    {
      var peers := mesh[b];
      if p in peers {
        return false;
      }
      if p in direct {
        return true;
      }
      if BackedOff(backoff, b, p) && clock < backoff[b][p] {
        AddBackoff(p, b, params.pruneBackoff);
        return true;
      }
      if score < 0.0 || (|peers| >= params.Dhi && p !in outbound) {
        AddBackoff(p, b, params.pruneBackoff);
        return true;
      }
      MayEnter(recorded, backoff, clock, b, p);
      mesh := mesh[b := peers + {p}];
      return false;
    }

    /** Graft, with what it keeps of the whole message's account. */
    method GraftNext(p: Peer, b: Bitmask, score: real, ghost before: Peers) returns (prune: bool)
      requires Valid() && b in mesh && OnlyExpired(before, mesh, recorded, clock)
      modifies `mesh, `backoff, `recorded
      ensures Valid() && OnlyExpired(before, mesh, recorded, clock)
      ensures prune <==> p !in old(mesh)[b] && !old(Welcomes(p, b, score, clock))
      ensures mesh == if prune || p in old(mesh)[b] then old(mesh) else old(mesh)[b := old(mesh)[b] + {p}]
      ensures forall c :: c in mesh && p !in mesh[c] ==>
                (Welcomes(p, c, score, clock) <==> old(Welcomes(p, c, score, clock)))
    {
      hide Faithful, Separate, OnlyExpired, Added, Noted, Params.Ok, Welcome;
      prune := Graft(p, b, score);
      if mesh != old(mesh) {
        EnterOne(before, old(mesh), recorded, clock, b, p);
      } else if recorded != old(recorded) {
        NoteOne(before, mesh, old(recorded), clock, b, p, clock + params.pruneBackoff);
      }
      if prune {
        StaysUnwelcome(direct, outbound, params.Dhi, old(backoff), mesh, b, p, score, clock,
                       clock + params.pruneBackoff);
      }
    }

    method HandleGraft(p: Peer, grafts: seq<Bitmask>, score: real, peerFilter: Bitmask -> bool, now: int)
      returns (prune: seq<Bitmask>)
      requires Valid() && now >= clock
      modifies `mesh, `backoff, `recorded, `clock
      ensures Valid() && clock == now && mesh.Keys == old(mesh).Keys
      ensures OnlyExpired(old(mesh), mesh, recorded, now)
      ensures Answered(old(mesh), mesh, grafts, peerFilter,
                       (set b | b in old(mesh) && old(Welcomes(p, b, score, now))), p, prune)
    {
      hide Faithful, Separate, OnlyExpired, Params.Ok, Welcome, Answered;
      ghost var welcome := set b | b in mesh && Welcomes(p, b, score, now);
      ReadClock(now);
      NoneEnters(mesh, recorded, now);
      NoneAnswered(mesh, peerFilter, welcome, p);
      prune := [];
      for i := 0 to |grafts|
        invariant Valid() && clock == now && mesh.Keys == old(mesh).Keys
        invariant OnlyExpired(old(mesh), mesh, recorded, now)
        invariant Answered(old(mesh), mesh, grafts[..i], peerFilter, welcome, p, prune)
        invariant forall b :: b in mesh && p !in mesh[b] ==> (Welcomes(p, b, score, now) <==> b in welcome)
      {
        var b := grafts[i];
        ghost var m, was := mesh, prune;
        if peerFilter(b) && b in mesh {
          var reject := GraftNext(p, b, score, old(mesh));
          if reject {
            prune := prune + [b];
          }
        }
        AnsweredNext(old(mesh), m, mesh, grafts[..i], b, peerFilter, welcome, p, was, prune);
        assert grafts[..i + 1] == grafts[..i] + [b];
      }
      assert grafts[..|grafts|] == grafts;
      assert Answered(old(mesh), mesh, grafts, peerFilter, welcome, p, prune);
    }

    ghost predicate Welcomes(p: Peer, b: Bitmask, score: real, now: int)
      reads this
    {
      b in mesh && Welcome(direct, outbound, params.Dhi, backoff, mesh[b], b, p, score, now)
    }

    /** PRUNEs with the backoff, in seconds, that the peer asks for. */
    method HandlePrune(p: Peer, prunes: seq<(Bitmask, nat)>, now: int)
      requires Valid() && now >= clock
      modifies `mesh, `backoff, `recorded, `clock
      ensures Valid() && clock == now && mesh.Keys == old(mesh).Keys
      ensures forall b :: b in mesh ==> mesh[b] == if Named(prunes, b) then old(mesh)[b] - {p} else old(mesh)[b]
      ensures forall i {:trigger prunes[i]} :: 0 <= i < |prunes| && prunes[i].0 in mesh ==>
                Until(backoff, prunes[i].0, p, now + Asked(prunes[i].1))
      ensures NoEarlier(old(backoff), backoff)
    {
      hide Faithful, Separate, Added, Noted, NoEarlier, Until, Params.Ok, ToDuration;
      ReadClock(now);
      NoEarlierSame(backoff);
      for i := 0 to |prunes|
        invariant Valid() && clock == now && mesh.Keys == old(mesh).Keys
        invariant forall b :: b in mesh ==>
                    mesh[b] == if Named(prunes[..i], b) then old(mesh)[b] - {p} else old(mesh)[b]
        invariant forall k {:trigger prunes[k]} :: 0 <= k < i && prunes[k].0 in mesh ==>
                    Until(backoff, prunes[k].0, p, now + Asked(prunes[k].1))
        invariant NoEarlier(old(backoff), backoff)
      {
        ghost var timers := backoff;
        PruneOne(p, prunes[i].0, prunes[i].1);
        NamedOneMore(prunes, i);
        NoEarlierTwice(old(backoff), timers, backoff);
        forall k {:trigger prunes[k]} | 0 <= k < i && prunes[k].0 in mesh
          ensures Until(backoff, prunes[k].0, p, now + Asked(prunes[k].1))
        {
          StillUntil(timers, backoff, prunes[k].0, p, now + Asked(prunes[k].1));
        }
      }
      assert prunes[..|prunes|] == prunes;
    }

    /** The backoff a PRUNE asks for, in seconds, or the default. */
    function Asked(seconds: nat): int {
      if seconds > 0 then ToDuration(ToDuration(seconds) * SECOND) else params.pruneBackoff
    }

    /** It is that many seconds if and only if those are less than 2^63 nanoseconds. */
    lemma AskedExactly(seconds: nat)
      requires seconds > 0
      ensures Asked(seconds) == seconds * 1_000_000_000 <==> seconds <= 9_223_372_036
    {
    }

    /** Otherwise the backoff asked for can even lie in the past. */
    lemma AskedTooMuch()
      ensures Asked(9_223_372_037) < 0
    {
    }

    method PruneOne(p: Peer, b: Bitmask, seconds: nat)
      requires Valid()
      modifies `mesh, `backoff, `recorded
      ensures Valid() && mesh == if b in old(mesh) then old(mesh)[b := old(mesh)[b] - {p}] else old(mesh)
      ensures backoff == if b in mesh then Added(old(backoff), b, p, clock + Asked(seconds)) else old(backoff)
      ensures NoEarlier(old(backoff), backoff) && (b in mesh ==> Until(backoff, b, p, clock + Asked(seconds)))
    {
      hide Faithful, Added, Noted;
      if b in mesh {
        mesh := mesh[b := mesh[b] - {p}];
        if seconds > 0 {
          AddBackoff(p, b, ToDuration(ToDuration(seconds) * SECOND));
        } else {
          AddBackoff(p, b, params.pruneBackoff);
        }
      }
    }

    method Join(b: Bitmask, score: Score, pool: Pool, now: int)
      requires Valid() && now >= clock
      modifies `mesh, `fanout, `lastpub, `clock
      ensures Valid() && clock == now && b in mesh
      ensures old(mesh).Keys <= mesh.Keys <= old(mesh).Keys + {b}
      ensures forall c :: c in old(mesh) ==> mesh[c] == old(mesh)[c]
      ensures OnlyExpired(old(mesh), mesh, recorded, now)
      ensures b in old(mesh) ==> fanout == old(fanout) && lastpub == old(lastpub)
      ensures b !in old(mesh) ==>
                fanout == old(fanout) - {b} && Joins(old(fanout), backoff, direct, params.D, b, score, pool, mesh[b])
    {
      hide Faithful, OnlyExpired, Joins;
      ReadClock(now);
      NoneEnters(mesh, recorded, now);
      if b in mesh {
        return;
      }
      var gmap := JoinPeers(b, score, pool);
      if b in fanout {
        fanout, lastpub := fanout - {b}, lastpub - {b};
      }
      EnterUnlisted(mesh, recorded, backoff, now, b, gmap);
      mesh := mesh[b := gmap];
    }

    /** The fanout peers that qualify, filled up to D, or a fresh choice. */
    method JoinPeers(b: Bitmask, score: Score, pool: Pool) returns (gmap: set<Peer>)
      requires Valid()
      ensures Joins(fanout, backoff, direct, params.D, b, score, pool, gmap) && gmap !! direct
      ensures forall p :: p in gmap ==> !BackedOff(backoff, b, p) && score(p) >= 0.0
    {
      hide Faithful, Picked, Eligible, Joins;
      var waiting := if b in backoff then backoff[b].Keys else {};
      var kept := if b in fanout then set p | p in fanout[b] && score(p) >= 0.0 && p !in waiting else {};
      assert kept == Promoted(fanout, backoff, b, score);
      var more := {};
      if |kept| < params.D {
        more := JoinMore(b, score, pool, kept, params.D - |kept|, waiting);
      }
      JoinsWith(fanout, backoff, direct, params.D, b, score, pool, more);
      return kept + more;
    }

    method JoinMore(b: Bitmask, score: Score, pool: Pool, gmap: set<Peer>, count: int, waiting: set<Peer>)
      returns (more: set<Peer>)
      requires waiting == if b in backoff then backoff[b].Keys else {}
      ensures Picked(Eligible(pool, gmap + direct, backoff, b, score), count, more)
      ensures forall p :: p in more ==> !BackedOff(backoff, b, p) && score(p) >= 0.0 && p !in direct
    {
      var accept := (p: Peer) => p !in gmap && p !in direct && p !in waiting && score(p) >= 0.0;
      more := GetPeers(pool, count, accept);
      assert Accepted(pool, accept) == Eligible(pool, gmap + direct, backoff, b, score);
    }

    method Leave(b: Bitmask, now: int)
      requires Valid() && now >= clock
      modifies `mesh, `backoff, `recorded, `clock
      ensures Valid() && clock == now && mesh == old(mesh) - {b}
      ensures forall p :: b in old(mesh) && p in old(mesh)[b] ==> Until(backoff, b, p, now + params.unsubscribeBackoff)
      ensures NoEarlier(old(backoff), backoff)
    {
      hide Faithful, Added, Noted, NoEarlier, Until;
      NoEarlierSame(backoff);
      ReadClock(now);
      if b !in mesh {
        return;
      }
      var gmap := mesh[b];
      mesh := mesh - {b};
      var todo := gmap;
      while todo != {}
        invariant Valid() && clock == now && mesh == old(mesh) - {b} && todo <= gmap
        invariant forall p :: p in gmap - todo ==> Until(backoff, b, p, now + params.unsubscribeBackoff)
        invariant NoEarlier(old(backoff), backoff)
        decreases todo
      {
        var p :| p in todo;
        ghost var timers := backoff;
        AddBackoff(p, b, params.unsubscribeBackoff);
        NoEarlierTwice(old(backoff), timers, backoff);
        AllStill(timers, backoff, b, gmap - todo, now + params.unsubscribeBackoff);
        todo := todo - {p};
      }
      assert gmap - todo == gmap;
    }

    /** The peers Publish sends to on one slice of the bitmask, when it does not
        flood: the mesh, or a fanout chosen on first use. */
    method PublishPeers(b: Bitmask, score: Score, publishThreshold: real, pool: Pool, now: int)
      returns (gmap: set<Peer>)
      requires Valid() && now >= clock
      modifies `fanout, `lastpub, `clock
      ensures Valid() && clock == now && gmap !! direct
      ensures lastpub == if b in mesh then old(lastpub) else old(lastpub)[b := now]
      ensures b in mesh ==> gmap == mesh[b] && fanout == old(fanout)
      ensures b !in mesh && b in old(fanout) && old(fanout)[b] != {} ==> gmap == old(fanout)[b] && fanout == old(fanout)
      ensures b !in mesh && (b !in old(fanout) || old(fanout)[b] == {}) ==>
                Picked(Audience(pool, direct, score, publishThreshold), params.D, gmap)
                && fanout == if gmap == {} then old(fanout) else old(fanout)[b := gmap]
    {
      ReadClock(now);
      if b in mesh {
        return mesh[b];
      }
      gmap := if b in fanout then fanout[b] else {};
      if gmap == {} {
        gmap := PublishMore({}, score, publishThreshold, pool, params.D);
        assert {} + direct == direct;
        if gmap != {} {
          fanout := fanout[b := gmap];
        }
      }
      lastpub := lastpub[b := now];
    }

    method PublishMore(peers: set<Peer>, score: Score, publishThreshold: real, pool: Pool, count: int)
      returns (more: set<Peer>)
      ensures Picked(Audience(pool, peers + direct, score, publishThreshold), count, more)
      ensures forall p :: p in more ==> p !in peers && p !in direct && score(p) >= publishThreshold
    {
      var accept := (p: Peer) => p !in peers && p !in direct && score(p) >= publishThreshold;
      more := GetPeers(pool, count, accept);
      assert Accepted(pool, accept) == Audience(pool, peers + direct, score, publishThreshold);
    }

    /** Records whether p is reached over a connection that this node opened. */
    method AddPeer(p: Peer, proto: Protocol, conns: seq<Conn>)
      requires Valid()
      modifies `outbound
      ensures Valid()
      ensures outbound == if exists c :: c in conns && c.Carries(proto)
                          then old(outbound) + {p} else old(outbound) - {p}
    {
      var out := false;
      for i := 0 to |conns|
        invariant !out && forall c :: c in conns[..i] ==> !c.Carries(proto)
      {
        assert conns[i] in conns && conns[..i + 1] == conns[..i] + [conns[i]];
        if conns[i].limited {
          continue;
        }
        if conns[i].outgoing && proto in conns[i].streams {
          out := true;
          break;
        }
      }
      assert !out ==> conns[..|conns|] == conns;
      outbound := if out then outbound + {p} else outbound - {p};
    }

    method RemovePeer(p: Peer)
      requires Valid()
      modifies `mesh, `fanout, `outbound
      ensures Valid() && mesh.Keys == old(mesh).Keys && fanout.Keys == old(fanout).Keys
      ensures forall b :: b in mesh ==> mesh[b] == old(mesh)[b] - {p}
      ensures forall b :: b in fanout ==> fanout[b] == old(fanout)[b] - {p}
      ensures outbound == old(outbound) - {p}
    {
      mesh := map b | b in mesh :: mesh[b] - {p};
      fanout := map b | b in fanout :: fanout[b] - {p};
      outbound := outbound - {p};
    }

    /** clearBackoff, once every 15 ticks */
    method ClearBackoff()
      requires Valid()
      modifies `backoff
      ensures Valid()
      ensures backoff == if heartbeatTicks % 15 == 0 then Swept(old(backoff), clock) else old(backoff)
    {
      if heartbeatTicks % 15 == 0 {
        SweptFaithful(recorded, backoff, clock);
        backoff := Sweep(backoff, clock);
      }
    }

    // ---------------------------------------------------------------- heartbeat

    ghost function View(score: Score, threshold: real): Round
      reads this
    {
      Round(direct, outbound, params, score, threshold, heartbeatTicks)
    }

    /** The table that the heartbeat at that time works with. */
    ghost function Cleared(now: int): Timers
      reads this
    {
      if (heartbeatTicks + 1) % 15 == 0 then Swept(backoff, now) else backoff
    }

    /** prunePeer for several peers, in any order. */
    method PruneAll(b: Bitmask, ps: set<Peer>, ghost before: Peers)
      requires Valid() && b in mesh && OnlyExpired(before, mesh, recorded, clock)
      modifies `mesh, `backoff, `recorded
      ensures Valid() && OnlyExpired(before, mesh, recorded, clock)
      ensures OnlyAt(old(mesh), mesh, b) && mesh[b] == old(mesh)[b] - ps
      ensures forall p :: p in ps ==> Until(backoff, b, p, clock + params.pruneBackoff)
      ensures NoEarlier(old(backoff), backoff) && Marked(old(backoff), backoff, b, ps)
    {
      hide Faithful, Added, OnlyExpired, NoEarlier, Until, Marked;
      NoEarlierSame(backoff);
      MarkedNone(backoff, b);
      var todo := ps;
      assert ps - todo == {};
      while todo != {}
        invariant Valid() && OnlyExpired(before, mesh, recorded, clock) && todo <= ps && b in mesh
        invariant OnlyAt(old(mesh), mesh, b) && mesh[b] == old(mesh)[b] - (ps - todo)
        invariant forall p :: p in ps - todo ==> Until(backoff, b, p, clock + params.pruneBackoff)
        invariant NoEarlier(old(backoff), backoff) && Marked(old(backoff), backoff, b, ps - todo)
        decreases todo
      {
        var p :| p in todo;
        LeaveOne(before, mesh, recorded, clock, b, p);
        mesh := mesh[b := mesh[b] - {p}];
        NoteOne(before, mesh, recorded, clock, b, p, clock + params.pruneBackoff);
        ghost var timers := backoff;
        AddBackoff(p, b, params.pruneBackoff);
        NoEarlierTwice(old(backoff), timers, backoff);
        AllStill(timers, backoff, b, ps - todo, clock + params.pruneBackoff);
        ghost var done := ps - todo;
        MarkedOne(old(backoff), timers, b, done, p, clock + params.pruneBackoff);
        todo := todo - {p};
        assert ps - todo == done + {p};
      }
      assert ps - todo == ps;
    }

    /** graftPeer for several peers that are not backing off. */
    method GraftAll(b: Bitmask, ps: set<Peer>, ghost before: Peers)
      requires Valid() && b in mesh && OnlyExpired(before, mesh, recorded, clock)
      requires ps !! direct && forall p :: p in ps ==> !BackedOff(backoff, b, p)
      modifies `mesh
      ensures Valid() && OnlyExpired(before, mesh, recorded, clock)
      ensures OnlyAt(old(mesh), mesh, b) && mesh[b] == old(mesh)[b] + ps
    {
      forall p | p in ps
        ensures Expired(recorded, b, p, clock)
      {
        MayEnter(recorded, backoff, clock, b, p);
      }
      mesh := mesh[b := mesh[b] + ps];
    }

    method DropNegative(b: Bitmask, score: Score, ghost before: Peers) returns (pruned: set<Peer>)
      requires Valid() && b in mesh && OnlyExpired(before, mesh, recorded, clock)
      modifies `mesh, `backoff, `recorded
      ensures Valid() && OnlyExpired(before, mesh, recorded, clock)
      ensures OnlyAt(old(mesh), mesh, b) && mesh[b] == old(mesh)[b] - pruned
      ensures pruned == set p | p in old(mesh)[b] && score(p) < 0.0
      ensures forall p :: p in pruned ==> Until(backoff, b, p, clock + params.pruneBackoff)
      ensures NoEarlier(old(backoff), backoff) && Marked(old(backoff), backoff, b, pruned)
    {
      pruned := set p | p in mesh[b] && score(p) < 0.0;
      PruneAll(b, pruned, before);
    }

    /** Grafts up to count candidates that qualify. */
    method GraftSome(b: Bitmask, pool: Pool, count: int, accept: Peer -> bool, ghost before: Peers)
      returns (more: set<Peer>)
      requires Valid() && b in mesh && OnlyExpired(before, mesh, recorded, clock)
      modifies `mesh
      ensures Valid() && OnlyExpired(before, mesh, recorded, clock)
      ensures OnlyAt(old(mesh), mesh, b) && mesh[b] == old(mesh)[b] + more
      ensures Picked(Open(pool, old(mesh)[b] + direct, backoff, b, accept), count, more)
      ensures more !! old(mesh)[b] && forall p :: p in more ==> !BackedOff(backoff, b, p) && accept(p)
    {
      hide Faithful, OnlyExpired;
      var peers, waiting := mesh[b], if b in backoff then backoff[b].Keys else {};
      var filter := (p: Peer) => p !in peers && p !in waiting && p !in direct && accept(p);
      more := GetPeers(pool, count, filter);
      assert Accepted(pool, filter) == Open(pool, peers + direct, backoff, b, accept);
      GraftAll(b, more, before);
    }

    /** Which peers to keep and which to prune, of a list in the order that sorting
        by score and shuffling beyond the first Dscore left it in. */
    method ChooseExcess(order: seq<Peer>) returns (keep: set<Peer>, pruned: set<Peer>)
      requires params.Ok() && Distinct(order) && |order| >= params.D
      ensures keep + pruned == SetOf(order) && keep !! pruned && |keep| == params.D
      ensures |keep * outbound| >= MeshPrune.Min(params.Dout, |SetOf(order) * outbound|)
      ensures params.Dscore + params.Dout <= params.D ==> SetOf(First(order, params.Dscore)) <= keep
    {
      hide MeshPrune.KeptBest;
      var plst := new Peer[|order|](i requires 0 <= i < |order| => order[i]);
      assert plst[..] == order;
      MeshPrune.KeepBest(plst, outbound, params.D, params.Dout);
      KeepIsBest(order, plst[..], outbound, params);
      return SetOf(plst[..params.D]), SetOf(plst[params.D..]);
    }

    /** Prunes a mesh of more than Dhi peers down to D. */
    method PruneExcess(b: Bitmask, score: Score, order: set<Peer> -> seq<Peer>, ghost eligible: set<Peer>,
                       ghost before: Peers)
      returns (pruned: set<Peer>)
      requires Valid() && b in mesh && |mesh[b]| > params.Dhi && OnlyExpired(before, mesh, recorded, clock)
               && Ranks(order, score, params.Dscore)
      modifies `mesh, `backoff, `recorded
      ensures Valid() && OnlyExpired(before, mesh, recorded, clock)
      ensures OnlyAt(old(mesh), mesh, b) && mesh[b] == old(mesh)[b] - pruned && pruned <= old(mesh)[b]
      ensures Sized(old(mesh)[b], mesh[b], eligible, outbound, params, score)
      ensures forall p :: p in pruned ==> Until(backoff, b, p, clock + params.pruneBackoff)
      ensures NoEarlier(old(backoff), backoff) && Marked(old(backoff), backoff, b, pruned)
    {
      hide Marked, Faithful, OnlyExpired, Separate, NoEarlier, Until, Ranks, Ascends, Sized;
      var peers := mesh[b];
      var keep;
      RankedBy(order, score, params.Dscore, peers);
      SetOfSize(order(peers));
      keep, pruned := ChooseExcess(order(peers));
      SizedByPruning(peers, keep, eligible, outbound, params, score, order);
      PruneAll(b, pruned, before);
      assert mesh[b] == keep;
    }

    /** Fills a mesh of fewer than Dlo peers up to D, as far as candidates go. */
    method FillShort(b: Bitmask, score: Score, pool: Pool, ghost before: Peers) returns (grafted: set<Peer>)
      requires Valid() && b in mesh && |mesh[b]| < params.Dlo && OnlyExpired(before, mesh, recorded, clock)
      modifies `mesh
      ensures Valid() && OnlyExpired(before, mesh, recorded, clock)
      ensures OnlyAt(old(mesh), mesh, b) && mesh[b] == old(mesh)[b] + grafted && |mesh[b]| <= params.Dhi
      ensures forall p :: p in grafted ==> !BackedOff(backoff, b, p)
      ensures Sized(old(mesh)[b], mesh[b], Eligible(pool, old(mesh)[b] + direct, backoff, b, score), outbound, params,
                    score)
    {
      hide Faithful, OnlyExpired, Separate, Sized, Picked;
      var peers := mesh[b];
      var accept := (p: Peer) => score(p) >= 0.0;
      grafted := GraftSome(b, pool, params.D - |peers|, accept, before);
      assert Open(pool, peers + direct, backoff, b, accept) == Eligible(pool, peers + direct, backoff, b, score);
      SizedByGrafting(peers, grafted, Eligible(pool, peers + direct, backoff, b, score), outbound, params, score);
    }

    /** Fills or cuts one mesh. It prunes the excess only if it has not just grafted. */
    method Resize(b: Bitmask, score: Score, pool: Pool, order: set<Peer> -> seq<Peer>, ghost before: Peers)
      returns (grafted: set<Peer>, excess: set<Peer>)
      requires Valid() && b in mesh && OnlyExpired(before, mesh, recorded, clock) && Ranks(order, score, params.Dscore)
      modifies `mesh, `backoff, `recorded
      ensures Valid() && OnlyExpired(before, mesh, recorded, clock)
      ensures OnlyAt(old(mesh), mesh, b) && mesh[b] == (old(mesh)[b] - excess) + grafted && excess <= old(mesh)[b]
      ensures grafted == {} || (excess == {} && backoff == old(backoff))
      ensures forall p :: p in grafted ==> !BackedOff(backoff, b, p)
      ensures forall p :: p in excess ==> Until(backoff, b, p, clock + params.pruneBackoff)
      ensures NoEarlier(old(backoff), backoff) && Marked(old(backoff), backoff, b, excess)
      ensures Sized(old(mesh)[b], mesh[b], Eligible(pool, old(mesh)[b] + direct, old(backoff), b, score), outbound,
                    params, score)
    {
      hide Marked, Faithful, OnlyExpired, Separate, NoEarlier, Until, Sized, Ranks, Ascends, Eligible;
      NoEarlierSame(backoff);
      MarkedNone(backoff, b);
      grafted, excess := {}, {};
      ghost var eligible := Eligible(pool, mesh[b] + direct, backoff, b, score);
      if params.Dlo <= |mesh[b]| <= params.Dhi {
        SizedAlready(mesh[b], eligible, outbound, params, score);
      }
      if |mesh[b]| < params.Dlo {
        grafted := FillShort(b, score, pool, before);
      }
      if |mesh[b]| > params.Dhi {
        excess := PruneExcess(b, score, order, eligible, before);
      }
    }

    /** The first part of maintenance: no negative scores, at least Dlo and at most
        Dhi peers where candidates allow. */
    method FixSize(b: Bitmask, score: Score, pool: Pool, order: set<Peer> -> seq<Peer>, ghost before: Peers)
      returns (grafted: set<Peer>, pruned: set<Peer>)
      requires Valid() && b in mesh && OnlyExpired(before, mesh, recorded, clock) && Ranks(order, score, params.Dscore)
      modifies `mesh, `backoff, `recorded
      ensures Valid() && OnlyExpired(before, mesh, recorded, clock)
      ensures OnlyAt(old(mesh), mesh, b) && mesh[b] == (old(mesh)[b] - pruned) + grafted
      ensures grafted !! pruned && pruned <= old(mesh)[b]
      ensures forall p :: p in pruned ==> Until(backoff, b, p, clock + params.pruneBackoff)
      ensures NoEarlier(old(backoff), backoff) && Marked(old(backoff), backoff, b, pruned)
      ensures var kept := Unfaulted(old(mesh)[b], score);
              Sized(kept, mesh[b], Eligible(pool, kept + direct, old(backoff), b, score), outbound, params, score)
    {
      hide Marked, Faithful, OnlyExpired, Separate, NoEarlier, Until, Sized, Ranks, Ascends, Eligible;
      pruned := DropNegative(b, score, before);
      ghost var timers := backoff;
      assert mesh[b] == Unfaulted(old(mesh)[b], score);
      EligibleMarked(old(backoff), timers, b, pruned, pool, mesh[b] + direct, score);
      var excess;
      grafted, excess := Resize(b, score, pool, order, before);
      AllStill(timers, backoff, b, pruned, clock + params.pruneBackoff);
      NoEarlierTwice(old(backoff), timers, backoff);
      MarkedTwice(old(backoff), timers, backoff, b, pruned, excess);
      NotWaiting(backoff, b, grafted, pruned, clock + params.pruneBackoff);
      PruneTwice(old(mesh)[b], pruned, excess);
      pruned := pruned + excess;
    }

    method GraftOutbound(b: Bitmask, score: Score, pool: Pool, need: nat, ghost before: Peers) returns (more: set<Peer>)
      requires Valid() && b in mesh && OnlyExpired(before, mesh, recorded, clock) && need > 0
      modifies `mesh
      ensures Valid() && OnlyExpired(before, mesh, recorded, clock)
      ensures OnlyAt(old(mesh), mesh, b) && mesh[b] == old(mesh)[b] + more
      ensures Picked(Eligible(pool, old(mesh)[b] + direct, backoff, b, score) * outbound, need, more)
      ensures more !! old(mesh)[b] && |more| <= need
      ensures forall p :: p in more ==> !BackedOff(backoff, b, p) && p in outbound && score(p) >= 0.0
    {
      hide Faithful, OnlyExpired, Separate, Picked, Open, Eligible;
      var out := outbound;
      var accept := (p: Peer) => p in out && score(p) >= 0.0;
      more := GraftSome(b, pool, need, accept, before);
      OpenEligible(pool, old(mesh)[b] + direct, backoff, b, score, out, accept);
      PickedFew(Open(pool, old(mesh)[b] + direct, backoff, b, accept), need, more);
    }

    method AddOutbound(b: Bitmask, score: Score, pool: Pool, ghost before: Peers) returns (more: set<Peer>)
      requires Valid() && b in mesh && OnlyExpired(before, mesh, recorded, clock)
      modifies `mesh
      ensures Valid() && OnlyExpired(before, mesh, recorded, clock)
      ensures OnlyAt(old(mesh), mesh, b) && mesh[b] == old(mesh)[b] + more
      ensures var count := |old(mesh)[b] * outbound|;
              if |old(mesh)[b]| >= params.Dlo && count < params.Dout
              then Picked(Eligible(pool, old(mesh)[b] + direct, backoff, b, score) * outbound, params.Dout - count,
                          more)
              else more == {}
      ensures more !! old(mesh)[b] && |more| <= params.Dout
      ensures forall p :: p in more ==> !BackedOff(backoff, b, p) && p in outbound && score(p) >= 0.0
      ensures Quoted(direct, outbound, params, score, b, pool, backoff, old(mesh)[b], mesh[b])
    {
      hide Faithful, OnlyExpired, Separate, Picked, Open, Eligible, Quoted;
      more := {};
      if |mesh[b]| >= params.Dlo {
        var count := |mesh[b] * outbound|;
        if count < params.Dout {
          more := GraftOutbound(b, score, pool, params.Dout - count, before);
        }
      }
      QuotedBy(direct, outbound, params, score, b, pool, backoff, old(mesh)[b], more);
    }

    /** The score in the middle of the sorted peers. */
    method Median(peers: set<Peer>, score: Score, ascending: set<Peer> -> seq<Peer>) returns (median: real)
      requires Ascends(ascending, score) && peers != {}
      ensures IsMedian(peers, score, median)
    {
      hide IsMedian, Rising;
      var plst := ascending(peers);
      AscendsBy(ascending, score, peers);
      SetOfSize(plst);
      MiddleIsMedian(plst, score);
      median := score(plst[|peers| / 2]);
    }

    /** Every few ticks, grafts peers above the median of an under-performing mesh. */
    method Opportunistic(b: Bitmask, score: Score, threshold: real, pool: Pool, ascending: set<Peer> -> seq<Peer>,
                         ghost before: Peers)
      returns (more: set<Peer>, ghost median: real)
      requires Valid() && b in mesh && OnlyExpired(before, mesh, recorded, clock) && Ascends(ascending, score)
      modifies `mesh
      ensures Valid() && OnlyExpired(before, mesh, recorded, clock)
      ensures OnlyAt(old(mesh), mesh, b) && mesh[b] == old(mesh)[b] + more
      ensures more !! old(mesh)[b] && (params.opportunisticGraftPeers > 0 ==> |more| <= params.opportunisticGraftPeers)
      ensures forall p :: p in more ==> !BackedOff(backoff, b, p) && score(p) > median
      ensures var n := |old(mesh)[b]|;
              && (n > 1 ==> IsMedian(old(mesh)[b], score, median))
              && if heartbeatTicks % params.opportunisticGraftTicks == 0 && n > 1 && median < threshold
                 then Picked(Better(pool, old(mesh)[b] + direct, backoff, b, score, median),
                             params.opportunisticGraftPeers, more)
                 else more == {}
      ensures Boosted(View(score, threshold), b, pool, backoff, old(mesh)[b], mesh[b])
    {
      hide Faithful, OnlyExpired, Separate, Ascends, Picked, Open, Better, IsMedian, Boosted;
      more, median := {}, 0.0;
      if |mesh[b]| > 1 {
        var m := Median(mesh[b], score, ascending);
        median := m;
        if heartbeatTicks % params.opportunisticGraftTicks == 0 && m < threshold {
          more := GraftSome(b, pool, params.opportunisticGraftPeers, (p: Peer) => score(p) > m, before);
          OpenBetter(pool, old(mesh)[b] + direct, backoff, b, score, m, (p: Peer) => score(p) > m);
          PickedFew(Better(pool, old(mesh)[b] + direct, backoff, b, score, m), params.opportunisticGraftPeers, more);
        }
      }
      BoostedBy(View(score, threshold), b, pool, backoff, old(mesh)[b], more, median);
    }

    /** Maintenance of one mesh never grafts a peer it prunes. */
    method Maintain(b: Bitmask, score: Score, threshold: real, pools: nat -> Pool, order: set<Peer> -> seq<Peer>,
                    ascending: set<Peer> -> seq<Peer>, ghost before: Peers)
      returns (grafted: set<Peer>, pruned: set<Peer>)
      requires Valid() && b in mesh && OnlyExpired(before, mesh, recorded, clock) && Ranks(order, score, params.Dscore)
               && Ascends(ascending, score)
      modifies `mesh, `backoff, `recorded
      ensures Valid() && OnlyExpired(before, mesh, recorded, clock)
      ensures OnlyAt(old(mesh), mesh, b) && mesh[b] == (old(mesh)[b] - pruned) + grafted
      ensures grafted !! pruned && pruned <= old(mesh)[b]
      ensures forall p :: p in pruned ==> Until(backoff, b, p, clock + params.pruneBackoff)
      ensures NoEarlier(old(backoff), backoff) && Marked(old(backoff), backoff, b, pruned)
      ensures Settled(mesh[b], pools(0), direct, backoff, b, score, params.Dlo) && Bounded(mesh[b], params)
      ensures Maintained(View(score, threshold), b, pools(0), pools(1), pools(2), old(backoff), backoff, old(mesh)[b],
                         mesh[b])
    {
      hide Marked, Faithful, OnlyExpired, Ranks, Ascends, Separate, Settled, Sized, Quoted, Boosted;
      hide NoEarlier, Until, Eligible, Picked, Params.Ok;
      grafted, pruned := FixSize(b, score, pools(0), order, before);
      SizedSettles(old(mesh)[b], mesh[b], pools(0), direct, old(backoff), backoff, b, score, outbound, params);
      ghost var sized, quoted := mesh[b], {};
      var more;
      more, quoted := Improve(b, score, threshold, pools, ascending, before);
      GraftTwice(old(mesh)[b] - pruned, grafted, more);
      NotWaiting(backoff, b, more, pruned, clock + params.pruneBackoff);
      grafted := grafted + more;
    }

    /** The grafts that improve a mesh of the right size. */
    method Improve(b: Bitmask, score: Score, threshold: real, pools: nat -> Pool, ascending: set<Peer> -> seq<Peer>,
                   ghost before: Peers)
      returns (grafted: set<Peer>, ghost quoted: set<Peer>)
      requires Valid() && b in mesh && OnlyExpired(before, mesh, recorded, clock) && Ascends(ascending, score)
      requires Settled(mesh[b], pools(0), direct, backoff, b, score, params.Dlo) && |mesh[b]| <= params.Dhi
      modifies `mesh
      ensures Valid() && OnlyExpired(before, mesh, recorded, clock)
      ensures OnlyAt(old(mesh), mesh, b) && mesh[b] == old(mesh)[b] + grafted
      ensures forall p :: p in grafted ==> !BackedOff(backoff, b, p)
      ensures Settled(mesh[b], pools(0), direct, backoff, b, score, params.Dlo) && Bounded(mesh[b], params)
      ensures Quoted(direct, outbound, params, score, b, pools(1), backoff, old(mesh)[b], quoted)
      ensures Boosted(View(score, threshold), b, pools(2), backoff, quoted, mesh[b])
    {
      hide Faithful, OnlyExpired, Ranks, Ascends, Separate, Settled, Quoted, Boosted;
      hide Eligible, Picked, Params.Ok;
      grafted := AddOutbound(b, score, pools(1), before);
      SettledWithMore(old(mesh)[b], grafted, pools(0), direct, backoff, b, score, params.Dlo);
      quoted := mesh[b];
      var more := Boost(b, score, threshold, pools, ascending, before);
      GraftTwice(old(mesh)[b], grafted, more);
      grafted := grafted + more;
    }

    /** The last of them, of a mesh that is settled. */
    method Boost(b: Bitmask, score: Score, threshold: real, pools: nat -> Pool, ascending: set<Peer> -> seq<Peer>,
                 ghost before: Peers)
      returns (more: set<Peer>)
      requires Valid() && b in mesh && OnlyExpired(before, mesh, recorded, clock) && Ascends(ascending, score)
      requires Settled(mesh[b], pools(0), direct, backoff, b, score, params.Dlo)
      modifies `mesh
      ensures Valid() && OnlyExpired(before, mesh, recorded, clock)
      ensures OnlyAt(old(mesh), mesh, b) && mesh[b] == old(mesh)[b] + more
      ensures forall p :: p in more ==> !BackedOff(backoff, b, p)
      ensures params.opportunisticGraftPeers > 0 ==> |mesh[b]| <= |old(mesh)[b]| + params.opportunisticGraftPeers
      ensures Settled(mesh[b], pools(0), direct, backoff, b, score, params.Dlo)
      ensures Boosted(View(score, threshold), b, pools(2), backoff, old(mesh)[b], mesh[b])
    {
      hide Faithful, OnlyExpired, Ranks, Ascends, Separate, Settled, Boosted, Under, Over, Better, Picked, Params.Ok;
      ghost var median;
      more, median := Opportunistic(b, score, threshold, pools(2), ascending, before);
      NoFaults(old(mesh)[b], pools(0), direct, backoff, b, score, params.Dlo);
      SettledWithMore(old(mesh)[b], more, pools(0), direct, backoff, b, score, params.Dlo);
    }

    /** Drops fanouts not published to for a while. */
    method ExpireFanout()
      requires Valid()
      modifies `fanout, `lastpub
      ensures Valid() && fanout.Keys <= old(fanout).Keys
      ensures forall b :: b in fanout ==> fanout[b] == old(fanout)[b]
      ensures forall b :: b in old(fanout) ==>
                (b !in fanout <==> b in old(lastpub) && old(lastpub)[b] + params.fanoutTTL < clock)
      ensures lastpub == map b | b in old(lastpub) && old(lastpub)[b] + params.fanoutTTL >= clock :: old(lastpub)[b]
    {
      var gone := set b | b in lastpub && lastpub[b] + params.fanoutTTL < clock;
      fanout, lastpub := fanout - gone, lastpub - gone;
    }

    /** Drops fanout peers that left or score too low, and fills up to D. */
    method FillFanout(b: Bitmask, members: set<Peer>, score: Score, publishThreshold: real, pool: Pool)
      requires Valid() && b in fanout
      modifies `fanout
      ensures Valid() && fanout.Keys == old(fanout).Keys
      ensures forall c :: c in fanout && c != b ==> fanout[c] == old(fanout)[c]
      ensures forall p :: p in fanout[b] ==> score(p) >= publishThreshold
      ensures Refilled(View(score, publishThreshold), members, pool, old(fanout)[b], fanout[b])
    {
      hide Faithful, Picked, Audience, Refilled, Separate;
      var kept := set p | p in fanout[b] && p in members && score(p) >= publishThreshold;
      var more := {};
      if |kept| < params.D {
        more := PublishMore(kept, score, publishThreshold, pool, params.D - |kept|);
      }
      RefilledBy(View(score, publishThreshold), members, pool, fanout[b], more);
      SeparateStill(direct, mesh, fanout, b, kept, more);
      fanout := fanout[b := kept + more];
    }

    /** Maintains every mesh once. Returns the GRAFTs and PRUNEs to send. */
    method MaintainAll(score: Score, threshold: real, pools: (Bitmask, nat) -> Pool,
                       orders: Bitmask -> set<Peer> -> seq<Peer>, ascending: set<Peer> -> seq<Peer>)
      returns (tograft: set<(Peer, Bitmask)>, toprune: set<(Peer, Bitmask)>)
      requires Valid() && (forall b :: Ranks(orders(b), score, params.Dscore)) && Ascends(ascending, score)
      modifies `mesh, `backoff, `recorded
      ensures Valid() && OnlyExpired(old(mesh), mesh, recorded, clock)
      ensures tograft !! toprune
      ensures mesh.Keys == old(mesh).Keys
      ensures forall b :: b in mesh ==> Matches(old(mesh)[b], mesh[b], b, tograft, toprune)
      ensures forall b :: b in mesh ==>
                Settled(mesh[b], pools(b, 0), direct, backoff, b, score, params.Dlo) && Bounded(mesh[b], params)
      ensures forall b :: b in mesh ==>
                Maintained(View(score, threshold), b, pools(b, 0), pools(b, 1), pools(b, 2), old(backoff), backoff,
                           old(mesh)[b], mesh[b])
      ensures NoEarlier(old(backoff), backoff) && MarkedBy(old(backoff), backoff, toprune)
      ensures forall p, b :: (p, b) in toprune ==> Until(backoff, b, p, clock + params.pruneBackoff)
    {
      hide Faithful, OnlyExpired, Ranks, Ascends, Separate, Progress, Settled, Bounded, NoEarlier, Until, Params.Ok;
      hide Maintained, Marked, For, OnlyAt;
      NoneEnters(mesh, recorded, clock);
      tograft, toprune := {}, {};
      var todo := mesh.Keys;
      ghost var r := View(score, threshold);
      NoProgress(r, clock, pools, backoff, mesh);
      while todo != {}
        invariant Valid() && OnlyExpired(old(mesh), mesh, recorded, clock)
        invariant todo <= mesh.Keys == old(mesh).Keys
        invariant forall b :: b in todo ==> mesh[b] == old(mesh)[b]
        invariant Progress(r, clock, pools, old(backoff), backoff, old(mesh), mesh, todo, tograft, toprune)
        decreases todo
      {
        var b :| b in todo;
        ghost var m, timers := mesh, backoff;
        var grafted, pruned := Maintain(b, score, threshold, i => pools(b, i), orders(b), ascending, old(mesh));
        ProgressNext(r, clock, pools, old(backoff), timers, backoff, old(mesh), m, mesh, todo, tograft, toprune, b,
                     grafted, pruned);
        tograft := tograft + For(grafted, b);
        toprune := toprune + For(pruned, b);
        todo := todo - {b};
        assert OnlyAt(m, mesh, b);
        AtOthers(m, mesh, b, todo);
      }
      Finished(r, clock, pools, old(backoff), backoff, old(mesh), mesh, tograft, toprune);
    }

    method Heartbeat(score: Score, publishThreshold: real, graftThreshold: real, pools: (Bitmask, nat) -> Pool,
                     orders: Bitmask -> set<Peer> -> seq<Peer>, ascending: set<Peer> -> seq<Peer>,
                     members: Bitmask -> set<Peer>, now: int)
      returns (tograft: set<(Peer, Bitmask)>, toprune: set<(Peer, Bitmask)>)
      requires Valid() && now >= clock && (forall b :: Ranks(orders(b), score, params.Dscore))
               && Ascends(ascending, score)
      modifies this
      ensures Valid() && clock == now && heartbeatTicks == old(heartbeatTicks) + 1
      ensures OnlyExpired(old(mesh), mesh, recorded, now)
      ensures tograft !! toprune
      ensures mesh.Keys == old(mesh).Keys
      ensures forall b :: b in mesh ==> Matches(old(mesh)[b], mesh[b], b, tograft, toprune)
      ensures forall b :: b in mesh ==>
                Settled(mesh[b], pools(b, 0), direct, backoff, b, score, params.Dlo) && Bounded(mesh[b], params)
      ensures forall b, p :: b in fanout && p in fanout[b] ==> score(p) >= publishThreshold
      ensures forall b :: b in mesh ==>
                Maintained(View(score, graftThreshold), b, pools(b, 0), pools(b, 1), pools(b, 2), old(Cleared(now)),
                           backoff, old(mesh)[b], mesh[b])
      ensures NoEarlier(old(Cleared(now)), backoff) && MarkedBy(old(Cleared(now)), backoff, toprune)
      ensures forall p, b :: (p, b) in toprune ==> Until(backoff, b, p, now + params.pruneBackoff)
      ensures fanout.Keys ==
              set b | b in old(fanout) && !(b in old(lastpub) && old(lastpub)[b] + params.fanoutTTL < now)
      ensures forall b :: b in fanout ==>
                Refilled(View(score, publishThreshold), members(b), pools(b, 3), old(fanout)[b], fanout[b])
      ensures lastpub == map b | b in old(lastpub) && old(lastpub)[b] + params.fanoutTTL >= now :: old(lastpub)[b]
      ensures outbound == old(outbound)
    {
      hide Faithful, OnlyExpired, Ranks, Ascends, Separate, Settled, Bounded, Maintained, Marked, MarkedBy, NoEarlier,
           Until;
      hide Refilled, Matches, Swept;
      ReadClock(now);
      heartbeatTicks := heartbeatTicks + 1;
      ClearBackoff();
      tograft, toprune := MaintainAll(score, graftThreshold, pools, orders, ascending);
      MaintainFanouts(score, publishThreshold, pools, members);
    }

    method MaintainFanouts(score: Score, publishThreshold: real, pools: (Bitmask, nat) -> Pool,
                           members: Bitmask -> set<Peer>)
      requires Valid()
      modifies `fanout, `lastpub
      ensures Valid()
      ensures fanout.Keys ==
              set b | b in old(fanout) && !(b in old(lastpub) && old(lastpub)[b] + params.fanoutTTL < clock)
      ensures forall b :: b in fanout ==>
                Refilled(View(score, publishThreshold), members(b), pools(b, 3), old(fanout)[b], fanout[b])
      ensures forall b, p :: b in fanout && p in fanout[b] ==> score(p) >= publishThreshold
      ensures lastpub == map b | b in old(lastpub) && old(lastpub)[b] + params.fanoutTTL >= clock :: old(lastpub)[b]
    {
      hide Faithful, Separate, Refilled;
      ExpireFanout();
      FillFanouts(score, publishThreshold, b => pools(b, 3), members);
    }

    method FillFanouts(score: Score, publishThreshold: real, pools: Bitmask -> Pool, members: Bitmask -> set<Peer>)
      requires Valid()
      modifies `fanout
      ensures Valid() && fanout.Keys == old(fanout).Keys
      ensures forall b, p :: b in fanout && p in fanout[b] ==> score(p) >= publishThreshold
      ensures forall b :: b in fanout ==>
                Refilled(View(score, publishThreshold), members(b), pools(b), old(fanout)[b], fanout[b])
    {
      hide Faithful, Separate, Refilled;
      var todo := fanout.Keys;
      while todo != {}
        invariant Valid() && todo <= fanout.Keys == old(fanout).Keys
        invariant forall b, p :: b in fanout && b !in todo && p in fanout[b] ==> score(p) >= publishThreshold
        invariant forall b :: b in todo ==> fanout[b] == old(fanout)[b]
        invariant forall b :: b in fanout && b !in todo ==>
                    Refilled(View(score, publishThreshold), members(b), pools(b), old(fanout)[b], fanout[b])
        decreases todo
      {
        var b :| b in todo;
        FillFanout(b, members(b), score, publishThreshold, pools(b));
        todo := todo - {b};
      }
    }
  }

  // ------------------------------------------------------------------ what a heartbeat does

  /** What a heartbeat reads besides the meshes and the backoff table. */
  datatype Round = Round(direct: set<Peer>, outbound: set<Peer>, params: Params, score: Score, threshold: real,
                         ticks: nat)

  /** Exactly these peers were entered in the row of b. */
  ghost predicate Marked(timers: Timers, timers': Timers, b: Bitmask, ps: set<Peer>) {
    forall c, p {:trigger BackedOff(timers', c, p)} ::
      BackedOff(timers', c, p) <==> BackedOff(timers, c, p) || (c == b && p in ps)
  }

  ghost predicate MarkedBy(timers: Timers, timers': Timers, sent: set<(Peer, Bitmask)>) {
    forall c, p: Peer {:trigger BackedOff(timers', c, p)} ::
      BackedOff(timers', c, p) <==> BackedOff(timers, c, p) || (p, c) in sent
  }

  lemma MarkedNone(timers: Timers, b: Bitmask)
    ensures Marked(timers, timers, b, {})
  {
  }

  lemma MarkedOne(timers: Timers, timers': Timers, b: Bitmask, ps: set<Peer>, p: Peer, expire: int)
    requires Marked(timers, timers', b, ps) && BackedOff(Added(timers', b, p, expire), b, p)
    ensures Marked(timers, Added(timers', b, p, expire), b, ps + {p})
  {
    forall c, q
      ensures BackedOff(Added(timers', b, p, expire), c, q) <==> BackedOff(timers', c, q) || (c == b && q == p)
    {
    }
  }

  lemma MarkedTwice(t: Timers, t': Timers, t'': Timers, b: Bitmask, ps: set<Peer>, qs: set<Peer>)
    requires Marked(t, t', b, ps) && Marked(t', t'', b, qs)
    ensures Marked(t, t'', b, ps + qs)
  {
    forall c, p
      ensures BackedOff(t'', c, p) <==> BackedOff(t, c, p) || (c == b && p in ps + qs)
    {
      assert BackedOff(t', c, p) <==> BackedOff(t, c, p) || (c == b && p in ps);
    }
  }

  lemma MarkedByNone(timers: Timers)
    ensures MarkedBy(timers, timers, {})
  {
  }

  lemma ForMember(ps: set<Peer>, b: Bitmask)
    ensures forall p, c :: (p, c) in For(ps, b) <==> p in ps && c == b
  {
  }

  lemma MarkedByNext(t: Timers, t': Timers, t'': Timers, sent: set<(Peer, Bitmask)>, b: Bitmask, ps: set<Peer>)
    requires MarkedBy(t, t', sent) && Marked(t', t'', b, ps)
    ensures MarkedBy(t, t'', sent + For(ps, b))
  {
    ForMember(ps, b);
    forall c, p: Peer
      ensures BackedOff(t'', c, p) <==> BackedOff(t, c, p) || (p, c) in sent + For(ps, b)
    {
      assert BackedOff(t', c, p) <==> BackedOff(t, c, p) || (p, c) in sent;
    }
  }

  /** Backing off a peer with a negative score costs no candidate. */
  lemma EligibleMarked(timers: Timers, timers': Timers, b: Bitmask, ps: set<Peer>, pool: seq<Peer>, barred: set<Peer>,
                       score: Score)
    requires Marked(timers, timers', b, ps) && forall p :: p in ps ==> score(p) < 0.0
    ensures Eligible(pool, barred, timers', b, score) == Eligible(pool, barred, timers, b, score)
  {
    forall p | p in pool && score(p) >= 0.0
      ensures BackedOff(timers', b, p) <==> BackedOff(timers, b, p)
    {
    }
  }

  /** A mesh that is large enough is given outbound peers up to Dout, as far as
      candidates go. */
  ghost predicate Quoted(direct: set<Peer>, outbound: set<Peer>, params: Params, score: Score, b: Bitmask,
                         pool: seq<Peer>, timers: Timers, peers: set<Peer>, after: set<Peer>) {
    var count := |peers * outbound|;
    && peers <= after
    && if |peers| >= params.Dlo && count < params.Dout
       then Picked(Eligible(pool, peers + direct, timers, b, score) * outbound, params.Dout - count, after - peers)
       else after == peers
  }

  lemma QuotedBy(direct: set<Peer>, outbound: set<Peer>, params: Params, score: Score, b: Bitmask,
                 pool: seq<Peer>, timers: Timers, peers: set<Peer>, more: set<Peer>)
    requires peers !! more
    requires var count := |peers * outbound|;
             if |peers| >= params.Dlo && count < params.Dout
             then Picked(Eligible(pool, peers + direct, timers, b, score) * outbound, params.Dout - count, more)
             else more == {}
    ensures Quoted(direct, outbound, params, score, b, pool, timers, peers, peers + more)
  {
    assert (peers + more) - peers == more;
  }

  /** Every few ticks a mesh with a low median is given peers above it. */
  ghost predicate Boosted(r: Round, b: Bitmask, pool: seq<Peer>, timers: Timers, peers: set<Peer>, after: set<Peer>) {
    && peers <= after
    && if |peers| > 1
       then exists median :: IsMedian(peers, r.score, median) && Above(r, b, pool, timers, peers, after - peers, median)
       else after == peers
  }

  ghost predicate Above(r: Round, b: Bitmask, pool: seq<Peer>, timers: Timers, peers: set<Peer>, more: set<Peer>,
                        median: real) {
    if r.params.opportunisticGraftTicks > 0 && r.ticks % r.params.opportunisticGraftTicks == 0 && median < r.threshold
    then Picked(Better(pool, peers + r.direct, timers, b, r.score, median), r.params.opportunisticGraftPeers, more)
    else more == {}
  }

  lemma BoostedBy(r: Round, b: Bitmask, pool: seq<Peer>, timers: Timers, peers: set<Peer>, more: set<Peer>,
                  median: real)
    requires peers !! more
    requires if |peers| > 1 then IsMedian(peers, r.score, median) && Above(r, b, pool, timers, peers, more, median)
             else more == {}
    ensures Boosted(r, b, pool, timers, peers, peers + more)
  {
    assert (peers + more) - peers == more;
  }

  /** One maintenance of a mesh: negative scores out, the size put right, outbound
      peers and better peers added. Candidates are judged by the table before it,
      and by the table after it once the excess was pruned. */
  ghost predicate Maintained(r: Round, b: Bitmask, pool0: seq<Peer>, pool1: seq<Peer>, pool2: seq<Peer>,
                             timers: Timers, timers': Timers, before: set<Peer>, after: set<Peer>) {
    var kept := Unfaulted(before, r.score);
    exists sized, quoted ::
      && Sized(kept, sized, Eligible(pool0, kept + r.direct, timers, b, r.score), r.outbound, r.params, r.score)
      && Quoted(r.direct, r.outbound, r.params, r.score, b, pool1, timers', sized, quoted)
      && Boosted(r, b, pool2, timers', quoted, after)
  }

  /** The table is the same for b. */
  ghost predicate SameRow(timers: Timers, timers': Timers, b: Bitmask) {
    forall p {:trigger BackedOff(timers', b, p)} :: BackedOff(timers', b, p) <==> BackedOff(timers, b, p)
  }

  lemma EligibleSame(t: Timers, t': Timers, b: Bitmask, pool: seq<Peer>, barred: set<Peer>, score: Score)
    requires SameRow(t, t', b)
    ensures Eligible(pool, barred, t', b, score) == Eligible(pool, barred, t, b, score)
  {
  }

  lemma BetterSame(t: Timers, t': Timers, b: Bitmask, pool: seq<Peer>, barred: set<Peer>, score: Score, median: real)
    requires SameRow(t, t', b)
    ensures Better(pool, barred, t', b, score, median) == Better(pool, barred, t, b, score, median)
  {
  }

  lemma BoostedSame(r: Round, b: Bitmask, pool: seq<Peer>, t: Timers, t': Timers, peers: set<Peer>, after: set<Peer>)
    requires SameRow(t, t', b) && Boosted(r, b, pool, t, peers, after)
    ensures Boosted(r, b, pool, t', peers, after)
  {
    hide SameRow, Picked, Better, IsMedian;
    if |peers| > 1 {
      var median :| IsMedian(peers, r.score, median) && Above(r, b, pool, t, peers, after - peers, median);
      BetterSame(t, t', b, pool, peers + r.direct, r.score, median);
    }
  }

  /** Only the row of b matters to the maintenance of b. */
  lemma MaintainedSame(r: Round, b: Bitmask, pool0: seq<Peer>, pool1: seq<Peer>, pool2: seq<Peer>,
                       t: Timers, s: Timers, t': Timers, s': Timers, before: set<Peer>, after: set<Peer>)
    requires SameRow(t, s, b) && SameRow(t', s', b) && Maintained(r, b, pool0, pool1, pool2, t, t', before, after)
    ensures Maintained(r, b, pool0, pool1, pool2, s, s', before, after)
  {
    hide SameRow, Picked, Sized, Boosted, Eligible;
    var kept := Unfaulted(before, r.score);
    EligibleSame(t, s, b, pool0, kept + r.direct, r.score);
    var sized, quoted :|
      && Sized(kept, sized, Eligible(pool0, kept + r.direct, t, b, r.score), r.outbound, r.params, r.score)
      && Quoted(r.direct, r.outbound, r.params, r.score, b, pool1, t', sized, quoted)
      && Boosted(r, b, pool2, t', quoted, after);
    EligibleSame(t', s', b, pool1, sized + r.direct, r.score);
    BoostedSame(r, b, pool2, t', s', quoted, after);
  }

  /** The account of a heartbeat that has maintained all meshes but those in todo. */
  ghost predicate Progress(r: Round, now: int, pools: (Bitmask, nat) -> Pool, start: Timers, timers: Timers,
                           before: Peers, mesh: Peers, todo: set<Bitmask>, tograft: set<(Peer, Bitmask)>,
                           toprune: set<(Peer, Bitmask)>) {
    && before.Keys == mesh.Keys
    && tograft !! toprune && (forall p, b :: (p, b) in tograft + toprune ==> b !in todo)
    && NoEarlier(start, timers) && MarkedBy(start, timers, toprune)
    && (forall p, b :: (p, b) in toprune ==> Until(timers, b, p, now + r.params.pruneBackoff))
    && (forall b :: b in mesh ==> Matches(before[b], mesh[b], b, tograft, toprune))
    && (forall b :: b in mesh && b !in todo ==> Healthy(r, pools, start, timers, before, mesh, b))
  }

  /** The mesh of b was maintained and is as it should be. */
  ghost predicate Healthy(r: Round, pools: (Bitmask, nat) -> Pool, start: Timers, timers: Timers, before: Peers,
                          mesh: Peers, b: Bitmask)
    requires b in mesh && b in before
  {
    && Settled(mesh[b], pools(b, 0), r.direct, timers, b, r.score, r.params.Dlo) && Bounded(mesh[b], r.params)
    && Maintained(r, b, pools(b, 0), pools(b, 1), pools(b, 2), start, timers, before[b], mesh[b])
  }

  lemma NoProgress(r: Round, now: int, pools: (Bitmask, nat) -> Pool, timers: Timers, mesh: Peers)
    ensures Progress(r, now, pools, timers, timers, mesh, mesh, mesh.Keys, {}, {})
  {
    hide Matches, NoEarlier;
    NothingSent(mesh);
    NoEarlierSame(timers);
  }

  lemma Finished(r: Round, now: int, pools: (Bitmask, nat) -> Pool, start: Timers, timers: Timers, before: Peers,
                 mesh: Peers, tograft: set<(Peer, Bitmask)>, toprune: set<(Peer, Bitmask)>)
    requires Progress(r, now, pools, start, timers, before, mesh, {}, tograft, toprune)
    ensures before.Keys == mesh.Keys && tograft !! toprune && NoEarlier(start, timers)
            && MarkedBy(start, timers, toprune)
    ensures forall p, b :: (p, b) in toprune ==> Until(timers, b, p, now + r.params.pruneBackoff)
    ensures forall b :: b in mesh ==> Matches(before[b], mesh[b], b, tograft, toprune)
    ensures forall b :: b in mesh ==>
              Settled(mesh[b], pools(b, 0), r.direct, timers, b, r.score, r.params.Dlo) && Bounded(mesh[b], r.params)
    ensures forall b :: b in mesh ==>
              Maintained(r, b, pools(b, 0), pools(b, 1), pools(b, 2), start, timers, before[b], mesh[b])
  {
    hide Matches, NoEarlier, MarkedBy, Until, Settled, Bounded, Maintained;
    assert forall b :: b in mesh ==> Healthy(r, pools, start, timers, before, mesh, b);
  }

  lemma AtOthers(mesh: Peers, mesh': Peers, b: Bitmask, todo: set<Bitmask>)
    requires OnlyAt(mesh, mesh', b) && b !in todo && todo <= mesh.Keys
    ensures mesh'.Keys == mesh.Keys && forall c :: c in todo ==> mesh'[c] == mesh[c]
  {
  }

  /** Maintaining one more mesh does not disturb those already maintained. */
  lemma ProgressNext(r: Round, now: int, pools: (Bitmask, nat) -> Pool, start: Timers, t: Timers, t': Timers,
                     before: Peers, mesh: Peers, mesh': Peers, todo: set<Bitmask>, tograft: set<(Peer, Bitmask)>,
                     toprune: set<(Peer, Bitmask)>, b: Bitmask, grafted: set<Peer>, pruned: set<Peer>)
    requires Progress(r, now, pools, start, t, before, mesh, todo, tograft, toprune)
    requires OnlyAt(mesh, mesh', b) && b in todo && mesh[b] == before[b]
    requires mesh'[b] == (before[b] - pruned) + grafted && grafted !! pruned && pruned <= before[b]
    requires NoEarlier(t, t') && Marked(t, t', b, pruned)
    requires forall p :: p in pruned ==> Until(t', b, p, now + r.params.pruneBackoff)
    requires Settled(mesh'[b], pools(b, 0), r.direct, t', b, r.score, r.params.Dlo) && Bounded(mesh'[b], r.params)
    requires Maintained(r, b, pools(b, 0), pools(b, 1), pools(b, 2), t, t', before[b], mesh'[b])
    ensures Progress(r, now, pools, start, t', before, mesh', todo - {b}, tograft + For(grafted, b),
                     toprune + For(pruned, b))
  {
    hide NoEarlier, MarkedBy, Marked, Until, Settled, Bounded, Maintained, Matches, For;
    ForMember(grafted, b);
    ForMember(pruned, b);
    MatchesNext(before, mesh, mesh', b, grafted, pruned, tograft, toprune);
    NoEarlierTwice(start, t, t');
    MarkedByNext(start, t, t', toprune, b, pruned);
    forall p: Peer, c | (p, c) in toprune
      ensures Until(t', c, p, now + r.params.pruneBackoff)
    {
      StillUntil(t, t', c, p, now + r.params.pruneBackoff);
    }
    var tg, tp := tograft + For(grafted, b), toprune + For(pruned, b);
    assert tg !! tp by {
      forall x | x in tg
        ensures x !in tp
      {
        assert x == (x.0, x.1);
      }
    }
    assert forall p, c :: (p, c) in tg + tp ==> c !in todo - {b};
    forall c | c in mesh' && c !in todo - {b}
      ensures Healthy(r, pools, start, t', before, mesh', c)
    {
      HealthyNext(r, pools, start, t, t', before, mesh, mesh', todo, toprune, b, pruned, c);
    }
  }

  lemma HealthyNext(r: Round, pools: (Bitmask, nat) -> Pool, start: Timers, t: Timers, t': Timers, before: Peers,
                    mesh: Peers, mesh': Peers, todo: set<Bitmask>, toprune: set<(Peer, Bitmask)>,
                    b: Bitmask, pruned: set<Peer>, c: Bitmask)
    requires before.Keys == mesh.Keys && OnlyAt(mesh, mesh', b) && NoEarlier(t, t') && b in todo
    requires MarkedBy(start, t, toprune) && Marked(t, t', b, pruned) && forall p, d :: (p, d) in toprune ==> d !in todo
    requires c in mesh' && (c == b || (c !in todo && Healthy(r, pools, start, t, before, mesh, c)))
    requires Healthy(r, pools, t, t', before, mesh', b)
    ensures Healthy(r, pools, start, t', before, mesh', c)
  {
    hide NoEarlier, Settled, Bounded, Maintained;
    if c == b {
      forall p: Peer
        ensures BackedOff(start, b, p) <==> BackedOff(t, b, p)
      {
        assert (p, b) !in toprune;
      }
      MaintainedSame(r, b, pools(b, 0), pools(b, 1), pools(b, 2), t, start, t', t', before[b], mesh'[b]);
    } else {
      SettledLater(mesh[c], pools(c, 0), r.direct, t, t', c, r.score, r.params.Dlo);
      MaintainedSame(r, c, pools(c, 0), pools(c, 1), pools(c, 2), start, start, t, t', before[c], mesh[c]);
    }
  }

  /** With enough peers or candidates to reach Dlo, a maintained mesh has Dout
      outbound peers unless no candidate for that is left. */
  lemma QuotaOrNone(r: Round, b: Bitmask, pool0: seq<Peer>, pool1: seq<Peer>, pool2: seq<Peer>,
                    timers: Timers, timers': Timers, before: set<Peer>, after: set<Peer>)
    requires r.params.Ok() && Maintained(r, b, pool0, pool1, pool2, timers, timers', before, after)
    requires var kept := Unfaulted(before, r.score);
             |kept| + |Eligible(pool0, kept + r.direct, timers, b, r.score)| >= r.params.Dlo
    ensures || |after * r.outbound| >= r.params.Dout
            || Eligible(pool1, after + r.direct, timers', b, r.score) * r.outbound == {}
  {
    hide Eligible, Sized, Picked;
    var kept := Unfaulted(before, r.score);
    var eligible := Eligible(pool0, kept + r.direct, timers, b, r.score);
    var sized, quoted :|
      && Sized(kept, sized, eligible, r.outbound, r.params, r.score)
      && Quoted(r.direct, r.outbound, r.params, r.score, b, pool1, timers', sized, quoted)
      && Boosted(r, b, pool2, timers', quoted, after);
    ReachesDlo(kept, sized, eligible, r);
    SubsetSize(quoted * r.outbound, after * r.outbound);
    QuotedMeets(r.direct, r.outbound, r.params, r.score, b, pool1, timers', sized, quoted);
    FewerLeft(pool1, quoted + r.direct, after + r.direct, timers', b, r.score);
  }

  lemma FewerLeft(pool: seq<Peer>, barred: set<Peer>, more: set<Peer>, timers: Timers, b: Bitmask, score: Score)
    requires barred <= more
    ensures Eligible(pool, more, timers, b, score) <= Eligible(pool, barred, timers, b, score)
  {
  }

  lemma QuotedMeets(direct: set<Peer>, outbound: set<Peer>, params: Params, score: Score, b: Bitmask,
                    pool: seq<Peer>, timers: Timers, peers: set<Peer>, after: set<Peer>)
    requires Quoted(direct, outbound, params, score, b, pool, timers, peers, after) && |peers| >= params.Dlo
    ensures || |after * outbound| >= params.Dout
            || Eligible(pool, after + direct, timers, b, score) * outbound == {}
  {
    var left, more := Eligible(pool, peers + direct, timers, b, score) * outbound, after - peers;
    if |peers * outbound| < params.Dout {
      assert after * outbound == peers * outbound + more;
      FewerLeft(pool, peers + direct, after + direct, timers, b, score);
      assert Eligible(pool, after + direct, timers, b, score) !! after;
    }
  }

  lemma ReachesDlo(kept: set<Peer>, sized: set<Peer>, eligible: set<Peer>, r: Round)
    requires r.params.Ok() && Sized(kept, sized, eligible, r.outbound, r.params, r.score)
    requires |kept| + |eligible| >= r.params.Dlo
    ensures |sized| >= r.params.Dlo
  {
    if |kept| < r.params.Dlo {
      assert sized == kept + (sized - kept);
    }
  }

  /** A fanout drops who left the bitmask or scores too low, and is filled up to D. */
  ghost predicate Refilled(r: Round, members: set<Peer>, pool: seq<Peer>, before: set<Peer>, after: set<Peer>) {
    var kept := set p | p in before && p in members && r.score(p) >= r.threshold;
    && kept <= after
    && if |kept| < r.params.D
       then Picked(Audience(pool, kept + r.direct, r.score, r.threshold), r.params.D - |kept|, after - kept)
       else after == kept
  }

  lemma SeparateStill(direct: set<Peer>, mesh: Peers, fanout: Peers, b: Bitmask, kept: set<Peer>, more: set<Peer>)
    requires Separate(direct, mesh, fanout) && b in fanout && kept <= fanout[b] && more !! direct
    ensures Separate(direct, mesh, fanout[b := kept + more])
  {
  }

  lemma RefilledBy(r: Round, members: set<Peer>, pool: seq<Peer>, before: set<Peer>, more: set<Peer>)
    requires var kept := set p | p in before && p in members && r.score(p) >= r.threshold;
             if |kept| < r.params.D
             then Picked(Audience(pool, kept + r.direct, r.score, r.threshold), r.params.D - |kept|, more)
             else more == {}
    ensures var kept := set p | p in before && p in members && r.score(p) >= r.threshold;
            Refilled(r, members, pool, before, kept + more)
  {
    var kept := set p | p in before && p in members && r.score(p) >= r.threshold;
    assert kept !! more;
    assert (kept + more) - kept == more;
  }

  ghost predicate Named(prunes: seq<(Bitmask, nat)>, b: Bitmask) {
    exists i :: 0 <= i < |prunes| && prunes[i].0 == b
  }

  lemma NamedOneMore(prunes: seq<(Bitmask, nat)>, i: nat)
    requires i < |prunes|
    ensures forall b :: Named(prunes[..i + 1], b) <==> Named(prunes[..i], b) || b == prunes[i].0
  {
    var shorter, longer := prunes[..i], prunes[..i + 1];
    forall b
      ensures Named(longer, b) <==> Named(shorter, b) || b == prunes[i].0
    {
      assert longer[i] == prunes[i];
      if Named(shorter, b) {
        var k :| 0 <= k < |shorter| && shorter[k].0 == b;
        assert longer[k].0 == b;
      }
      if Named(longer, b) && b != prunes[i].0 {
        var k :| 0 <= k < |longer| && longer[k].0 == b;
        assert shorter[k].0 == b;
      }
    }
  }

  /** The mesh of b changed by exactly the grafts and prunes listed for it. */
  ghost predicate Matches(before: set<Peer>, after: set<Peer>, b: Bitmask, tograft: set<(Peer, Bitmask)>,
                          toprune: set<(Peer, Bitmask)>) {
    && (forall p :: p in after <==> (p in before && (p, b) !in toprune) || (p, b) in tograft)
    && (forall p :: (p, b) in toprune ==> p in before && p !in after)
  }

  function For(ps: set<Peer>, b: Bitmask): set<(Peer, Bitmask)> {
    set p | p in ps :: (p, b)
  }

  lemma NothingSent(mesh: Peers)
    ensures forall b :: b in mesh ==> Matches(mesh[b], mesh[b], b, {}, {})
  {
  }

  lemma MatchesNext(before: Peers, mesh: Peers, mesh': Peers, b: Bitmask, grafted: set<Peer>, pruned: set<Peer>,
                    tograft: set<(Peer, Bitmask)>, toprune: set<(Peer, Bitmask)>)
    requires before.Keys == mesh.Keys && OnlyAt(mesh, mesh', b) && mesh[b] == before[b]
    requires mesh'[b] == (before[b] - pruned) + grafted && grafted !! pruned && pruned <= before[b]
    requires forall p :: (p, b) !in tograft + toprune
    requires forall c :: c in mesh ==> Matches(before[c], mesh[c], c, tograft, toprune)
    ensures forall c :: c in mesh' ==>
              Matches(before[c], mesh'[c], c, tograft + For(grafted, b), toprune + For(pruned, b))
  {
    forall c | c in mesh'
      ensures Matches(before[c], mesh'[c], c, tograft + For(grafted, b), toprune + For(pruned, b))
    {
      assert Matches(before[c], mesh[c], c, tograft, toprune);
    }
  }

  ghost predicate Ordered(order: set<Peer> -> seq<Peer>, s: set<Peer>) {
    Distinct(order(s)) && SetOf(order(s)) == s
  }

  /** What the first part of maintenance makes of the peers without a negative
      score: too few are filled up to D as far as candidates go, too many are cut
      to D with the outbound quota and the best scored kept, and others stay. */
  ghost predicate Sized(kept: set<Peer>, after: set<Peer>, eligible: set<Peer>, outbound: set<Peer>, params: Params,
                        score: Score) {
    && (|kept| < params.Dlo ==> kept <= after && Picked(eligible, params.D - |kept|, after - kept))
    && (params.Dlo <= |kept| <= params.Dhi ==> after == kept)
    && (|kept| > params.Dhi ==>
          && after <= kept && |after| == params.D
          && |after * outbound| >= MeshPrune.Min(params.Dout, |kept * outbound|)
          && (params.Dscore + params.Dout <= params.D ==> |Best(after, kept - after, score)| >= params.Dscore))
  }

  lemma SizedByGrafting(kept: set<Peer>, grafted: set<Peer>, eligible: set<Peer>, outbound: set<Peer>, params: Params,
                        score: Score)
    requires params.Ok() && |kept| < params.Dlo && Picked(eligible, params.D - |kept|, grafted) && kept !! grafted
    ensures Sized(kept, kept + grafted, eligible, outbound, params, score) && |kept + grafted| <= params.Dhi
  {
    assert (kept + grafted) - kept == grafted;
  }

  lemma SizedAlready(kept: set<Peer>, eligible: set<Peer>, outbound: set<Peer>, params: Params, score: Score)
    requires params.Dlo <= |kept| <= params.Dhi
    ensures Sized(kept, kept, eligible, outbound, params, score)
  {
  }

  lemma SizedByPruning(kept: set<Peer>, after: set<Peer>, eligible: set<Peer>, outbound: set<Peer>, params: Params,
                       score: Score, order: set<Peer> -> seq<Peer>)
    requires params.Ok() && |kept| > params.Dhi && after <= kept && |after| == params.D
             && Ranks(order, score, params.Dscore)
    requires |after * outbound| >= MeshPrune.Min(params.Dout, |kept * outbound|)
    requires params.Dscore + params.Dout <= params.D ==> SetOf(First(order(kept), params.Dscore)) <= after
    ensures Sized(kept, after, eligible, outbound, params, score)
  {
    hide Best;
    assert Ordered(order, kept) && TopFirst(order(kept), score, params.Dscore);
    SetOfSize(order(kept));
    if params.Dscore + params.Dout <= params.D {
      HeadIsBest(order(kept), after, score, params.Dscore);
    }
  }

  /** No negative score, and short of Dlo only if no candidate is left. */
  ghost predicate Settled(peers: set<Peer>, pool: seq<Peer>, direct: set<Peer>, timers: Timers, b: Bitmask,
                          score: Score, Dlo: nat) {
    && (forall p :: p in peers ==> score(p) >= 0.0)
    && (|peers| < Dlo ==> Eligible(pool, peers + direct, timers, b, score) == {})
  }

  /** The most peers a mesh has after maintenance, where opportunistic grafting is limited. */
  ghost predicate Bounded(peers: set<Peer>, params: Params) {
    params.opportunisticGraftPeers > 0 ==> |peers| <= params.Dhi + params.Dout + params.opportunisticGraftPeers
  }

  lemma SizedSettles(peers: set<Peer>, after: set<Peer>, pool: seq<Peer>, direct: set<Peer>, timers: Timers,
                     timers': Timers, b: Bitmask, score: Score, outbound: set<Peer>, params: Params)
    requires params.Ok() && NoEarlier(timers, timers')
    requires var kept := Unfaulted(peers, score);
             Sized(kept, after, Eligible(pool, kept + direct, timers, b, score), outbound, params, score)
    ensures Settled(after, pool, direct, timers', b, score, params.Dlo) && |after| <= params.Dhi
  {
    var kept := Unfaulted(peers, score);
    var eligible := Eligible(pool, kept + direct, timers, b, score);
    if |kept| < params.Dlo {
      FillsUp(kept, after, eligible, params.D);
      forall p | p in Eligible(pool, after + direct, timers', b, score)
        ensures p in eligible && p !in after
      {
        assert !BackedOff(timers, b, p);
      }
    }
  }

  lemma FillsUp(kept: set<Peer>, after: set<Peer>, eligible: set<Peer>, D: nat)
    requires |kept| < D && kept <= after && Picked(eligible, D - |kept|, after - kept)
    ensures after <= kept + eligible && |after| <= D && (|after| < D ==> eligible <= after)
  {
    assert after == kept + (after - kept);
  }

  lemma NoFaults(peers: set<Peer>, pool: seq<Peer>, direct: set<Peer>, timers: Timers, b: Bitmask, score: Score,
                 Dlo: nat)
    requires Settled(peers, pool, direct, timers, b, score, Dlo)
    ensures forall p :: p in peers ==> score(p) >= 0.0
  {
  }

  lemma SettledWithMore(peers: set<Peer>, more: set<Peer>, pool: seq<Peer>, direct: set<Peer>, timers: Timers,
                        b: Bitmask, score: Score, Dlo: nat)
    requires Settled(peers, pool, direct, timers, b, score, Dlo) && peers !! more
    requires forall p :: p in more ==> score(p) >= 0.0
    ensures Settled(peers + more, pool, direct, timers, b, score, Dlo) && |peers + more| == |peers| + |more|
  {
    assert Eligible(pool, peers + more + direct, timers, b, score) <= Eligible(pool, peers + direct, timers, b, score);
  }

  lemma SettledLater(peers: set<Peer>, pool: seq<Peer>, direct: set<Peer>, timers: Timers, timers': Timers, b: Bitmask,
                     score: Score, Dlo: nat)
    requires Settled(peers, pool, direct, timers, b, score, Dlo) && NoEarlier(timers, timers')
    ensures Settled(peers, pool, direct, timers', b, score, Dlo)
  {
    forall p | p in Eligible(pool, peers + direct, timers', b, score)
      ensures p in Eligible(pool, peers + direct, timers, b, score)
    {
      assert !BackedOff(timers, b, p);
    }
  }

  lemma NotWaiting(timers: Timers, b: Bitmask, grafted: set<Peer>, pruned: set<Peer>, expire: int)
    requires forall p :: p in grafted ==> !BackedOff(timers, b, p)
    requires forall p :: p in pruned ==> Until(timers, b, p, expire)
    ensures grafted !! pruned
  {
    forall p | p in pruned
      ensures p !in grafted
    {
      assert Until(timers, b, p, expire);
    }
  }

  lemma RankedBy(order: set<Peer> -> seq<Peer>, score: Score, n: nat, s: set<Peer>)
    requires Ranks(order, score, n)
    ensures Ordered(order, s)
  {
  }

  lemma AscendsBy(order: set<Peer> -> seq<Peer>, score: Score, s: set<Peer>)
    requires Ascends(order, score)
    ensures Ordered(order, s) && Rising(order(s), score)
  {
  }

  /** The first n score at least as high as all that follow them. */
  ghost predicate TopFirst(l: seq<Peer>, score: Score, n: nat) {
    forall i, j {:trigger l[i], l[j]} :: 0 <= i < j < |l| && i < n ==> score(l[i]) >= score(l[j])
  }

  /** Sorting by score and shuffling beyond the first n, of any set of peers. */
  ghost predicate Ranks(order: set<Peer> -> seq<Peer>, score: Score, n: nat) {
    forall s :: Ordered(order, s) && TopFirst(order(s), score, n)
  }

  ghost predicate Rising(l: seq<Peer>, score: Score) {
    forall i, j {:trigger l[i], l[j]} :: 0 <= i < j < |l| ==> score(l[i]) <= score(l[j])
  }

  /** Sorting by score, lowest first. */
  ghost predicate Ascends(order: set<Peer> -> seq<Peer>, score: Score) {
    forall s :: Ordered(order, s) && Rising(order(s), score)
  }

  /** The peers that score at least as high as all those pruned. */
  ghost function Best(peers: set<Peer>, pruned: set<Peer>, score: Score): set<Peer> {
    set p | p in peers && forall q :: q in pruned ==> score(p) >= score(q)
  }

  /** If the head of the ranking is kept, that many of the best are. */
  lemma HeadIsBest(l: seq<Peer>, after: set<Peer>, score: Score, n: nat)
    requires Distinct(l) && TopFirst(l, score, n) && n <= |l| && SetOf(First(l, n)) <= after <= SetOf(l)
    ensures |Best(after, SetOf(l) - after, score)| >= n
  {
    var head := l[..n];
    SetOfSize(head);
    assert forall k :: 0 <= k < n ==> l[k] == head[k] && head[k] in SetOf(head);
    forall p | p in head ensures p in Best(after, SetOf(l) - after, score) {
      var i :| 0 <= i < n && head[i] == p;
      assert p in SetOf(head);
      forall q | q in SetOf(l) - after ensures score(p) >= score(q) {
        var j :| 0 <= j < |l| && l[j] == q;
        assert j >= n && l[i] == p;
      }
    }
    SubsetSize(SetOf(head), Best(after, SetOf(l) - after, score));
  }

  ghost function Under(peers: set<Peer>, score: Score, m: real): set<Peer> {
    set p | p in peers && score(p) < m
  }

  ghost function Over(peers: set<Peer>, score: Score, m: real): set<Peer> {
    set p | p in peers && score(p) > m
  }

  /** A member's score with at most half of the others below and above it. */
  ghost predicate IsMedian(peers: set<Peer>, score: Score, median: real) {
    && (exists q :: q in peers && score(q) == median)
    && |Under(peers, score, median)| <= |peers| / 2 && |Over(peers, score, median)| < |peers| - |peers| / 2
  }

  lemma MiddleIsMedian(l: seq<Peer>, score: Score)
    requires Distinct(l) && Rising(l, score) && l != []
    ensures IsMedian(SetOf(l), score, score(l[|l| / 2]))
  {
    var n, m := |l| / 2, score(l[|l| / 2]);
    SetOfSize(l);
    assert l[n] in SetOf(l);
    var low, high := l[..n], l[n + 1..];
    SetOfSize(low);
    SetOfSize(high);
    forall p | p in l && score(p) < m ensures p in SetOf(low) {
      var i :| 0 <= i < |l| && l[i] == p;
      assert i < n;
      assert low[i] == p;
    }
    forall p | p in l && score(p) > m ensures p in SetOf(high) {
      var i :| 0 <= i < |l| && l[i] == p;
      assert i > n;
      assert high[i - n - 1] == p;
    }
    SubsetSize(Under(SetOf(l), score, m), SetOf(low));
    SubsetSize(Over(SetOf(l), score, m), SetOf(high));
  }

  /** What KeepBest means for the sets of peers kept and pruned. */
  lemma KeepIsBest(was: seq<Peer>, now: seq<Peer>, outbound: set<Peer>, params: Params)
    requires params.Ok() && Distinct(was) && MeshPrune.KeptBest(was, now, outbound, params.D, params.Dout)
    ensures |now| == |was| >= params.D
    ensures var keep, pruned := SetOf(now[..params.D]), SetOf(now[params.D..]);
            && keep + pruned == SetOf(was) && keep !! pruned && |keep| == params.D
            && |keep * outbound| >= MeshPrune.Min(params.Dout, |SetOf(was) * outbound|)
            && (params.Dscore + params.Dout <= params.D ==> SetOf(First(was, params.Dscore)) <= keep)
  {
    var D := params.D;
    SamePeers(was, now);
    assert now == now[..D] + now[D..];
    SetOfSize(now[..D]);
    OutsCard(now[..D], outbound);
    OutsCard(was, outbound);
    MeshPrune.QuotaMet(was, now, outbound, D, params.Dout);
    if params.Dscore + params.Dout <= D {
      MeshPrune.TopKept(was, now, outbound, D, params.Dout, params.Dscore);
    }
  }

  lemma SamePeers(was: seq<Peer>, now: seq<Peer>)
    requires multiset(was) == multiset(now) && Distinct(was)
    ensures SetOf(was) == SetOf(now) && Distinct(now)
  {
    forall p
      ensures p in was <==> p in now
    {
      assert p in was <==> p in multiset(was);
      assert p in now <==> p in multiset(now);
    }
    SetOfSize(was);
    assert |multiset(was)| == |multiset(now)| && SetOf(was) == SetOf(now);
    DistinctBySize(now);
  }

  lemma {:induction false} DistinctBySize(s: seq<Peer>)
    requires |SetOf(s)| == |s|
    ensures Distinct(s)
  {
    if s != [] {
      var init, last := s[..|s| - 1], s[|s| - 1];
      assert SetOf(s) == SetOf(init) + {last};
      SetOfSize(init);
      DistinctBySize(init);
      assert last !in init;
    }
  }

  lemma {:induction false} OutsCard(s: seq<Peer>, outbound: set<Peer>)
    requires Distinct(s)
    ensures |MeshPrune.Outs(s, outbound)| == |SetOf(s) * outbound|
  {
    if s != [] {
      var init, last := s[..|s| - 1], s[|s| - 1];
      OutsCard(init, outbound);
      assert last !in SetOf(init) && SetOf(s) == SetOf(init) + {last};
      if last in outbound {
        assert SetOf(s) * outbound == SetOf(init) * outbound + {last};
      } else {
        assert SetOf(s) * outbound == SetOf(init) * outbound;
      }
    }
  }

  lemma PruneTwice(m: set<Peer>, a: set<Peer>, b: set<Peer>)
    ensures (m - a) - b == (m - (a + b)) + {}
  {
  }

  lemma GraftTwice(m: set<Peer>, a: set<Peer>, b: set<Peer>)
    ensures (m + a) + b == m + (a + b)
  {
  }

  lemma LeaveOne(before: Peers, mesh: Peers, recorded: map<(Bitmask, Peer), int>, now: int, b: Bitmask, p: Peer)
    requires OnlyExpired(before, mesh, recorded, now) && b in mesh
    ensures OnlyExpired(before, mesh[b := mesh[b] - {p}], recorded, now)
  {
  }
}
