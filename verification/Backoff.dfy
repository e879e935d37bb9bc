/**
 Backoff timers of BlossomSub. Times are nanoseconds since Go's zero time, so
 that every clock reading lies beyond any 64-bit duration.
 */
module Backoff {
  type Peer = nat

  type Bitmask = seq<int>

  type Timers = map<Bitmask, map<Peer, int>>

  const SECOND: int := 1_000_000_000

  /** BlossomSubHeartbeatInterval */
  const HEARTBEAT_INTERVAL: int := 700_000_000

  const INT64_LIMIT: int := 0x8000_0000_0000_0000

  /** time.Duration(x), which wraps. */
  function ToDuration(x: int): (d: int)
    ensures -INT64_LIMIT <= d < INT64_LIMIT
  {
    var r := x % (2 * INT64_LIMIT);
    if r < INT64_LIMIT then r else r - 2 * INT64_LIMIT
  }

  predicate BackedOff(timers: Timers, b: Bitmask, p: Peer) {
    b in timers && p in timers[b]
  }

  /** doAddBackoff: a timer only ever moves later. */
  function Added(timers: Timers, b: Bitmask, p: Peer, expire: int): Timers {
    var row := if b in timers then timers[b] else map[];
    var cur := if p in row then row[p] else 0;
    timers[b := if cur < expire then row[p := expire] else row]
  }

  /** The peer backs off at least until then. */
  ghost predicate Until(timers: Timers, b: Bitmask, p: Peer, expire: int) {
    BackedOff(timers, b, p) && timers[b][p] >= expire
  }

  /** No timer is lost or moved earlier. */
  ghost predicate NoEarlier(before: Timers, after: Timers) {
    forall b, p {:trigger BackedOff(before, b, p)} {:trigger BackedOff(after, b, p)} ::
      BackedOff(before, b, p) ==> Until(after, b, p, before[b][p])
  }

  lemma AddedNoEarlier(timers: Timers, b: Bitmask, p: Peer, expire: int)
    requires expire > 0
    ensures Until(Added(timers, b, p, expire), b, p, expire) && NoEarlier(timers, Added(timers, b, p, expire))
  {
  }

  lemma StillUntil(before: Timers, after: Timers, b: Bitmask, p: Peer, expire: int)
    requires Until(before, b, p, expire) && NoEarlier(before, after)
    ensures Until(after, b, p, expire)
  {
  }

  lemma AllStill(before: Timers, after: Timers, b: Bitmask, ps: set<Peer>, expire: int)
    requires NoEarlier(before, after) && forall p :: p in ps ==> Until(before, b, p, expire)
    ensures forall p :: p in ps ==> Until(after, b, p, expire)
  {
  }

  lemma NoEarlierSame(timers: Timers)
    ensures NoEarlier(timers, timers)
  {
  }

  lemma NoEarlierTwice(a: Timers, b: Timers, c: Timers)
    requires NoEarlier(a, b) && NoEarlier(b, c)
    ensures NoEarlier(a, c)
  {
    forall m, p | BackedOff(a, m, p)
      ensures Until(c, m, p, a[m][p])
    {
      assert Until(b, m, p, a[m][p]);
      assert BackedOff(b, m, p);
    }
  }

  /** The latest expiry ever asked for, whatever the table has forgotten. */
  ghost function Noted(recorded: map<(Bitmask, Peer), int>, b: Bitmask, p: Peer,
                       expire: int): map<(Bitmask, Peer), int> {
    if (b, p) in recorded && recorded[(b, p)] >= expire then recorded else recorded[(b, p) := expire]
  }

  /** The peer may enter the mesh: no backoff recorded for it is running. */
  ghost predicate Expired(recorded: map<(Bitmask, Peer), int>, b: Bitmask, p: Peer, now: int) {
    (b, p) in recorded ==> recorded[(b, p)] <= now
  }

  /** The table still holds every backoff that is running. */
  ghost predicate Faithful(recorded: map<(Bitmask, Peer), int>, timers: Timers, now: int) {
    && (forall b, p {:trigger Expired(recorded, b, p, now)} ::
          Expired(recorded, b, p, now) || (BackedOff(timers, b, p) && timers[b][p] == recorded[(b, p)]))
    && (forall b, p {:trigger BackedOff(timers, b, p)} ::
          BackedOff(timers, b, p) ==> (b, p) in recorded && timers[b][p] <= recorded[(b, p)])
  }

  lemma LaterFaithful(recorded: map<(Bitmask, Peer), int>, timers: Timers, now: int, later: int)
    requires Faithful(recorded, timers, now) && now <= later
    ensures Faithful(recorded, timers, later)
  {
    forall b, p
      ensures Expired(recorded, b, p, later) || (BackedOff(timers, b, p) && timers[b][p] == recorded[(b, p)])
    {
      assert Expired(recorded, b, p, now) || BackedOff(timers, b, p);
    }
  }

  /** Adding a backoff keeps the table faithful and always leaves an entry. */
  lemma AddedFaithful(recorded: map<(Bitmask, Peer), int>, timers: Timers, now: int, b: Bitmask, p: Peer, expire: int)
    requires Faithful(recorded, timers, now) && expire > 0
    ensures Faithful(Noted(recorded, b, p, expire), Added(timers, b, p, expire), now)
    ensures BackedOff(Added(timers, b, p, expire), b, p)
    ensures forall c, q :: BackedOff(timers, c, q) ==> BackedOff(Added(timers, b, p, expire), c, q)
  {
    var recorded', timers' := Noted(recorded, b, p, expire), Added(timers, b, p, expire);
    forall c, q
      ensures Expired(recorded', c, q, now) || (BackedOff(timers', c, q) && timers'[c][q] == recorded'[(c, q)])
      ensures BackedOff(timers', c, q) ==> (c, q) in recorded' && timers'[c][q] <= recorded'[(c, q)]
    {
      assert Expired(recorded, c, q, now) || (BackedOff(timers, c, q) && timers[c][q] == recorded[(c, q)]);
      assert BackedOff(timers, c, q) ==> (c, q) in recorded && timers[c][q] <= recorded[(c, q)];
      if c == b && q == p {
        assert timers'[b][p] == if BackedOff(timers, b, p) && timers[b][p] >= expire then timers[b][p] else expire;
      } else {
        assert (c, q) in recorded' <==> (c, q) in recorded;
        assert BackedOff(timers', c, q) <==> BackedOff(timers, c, q);
      }
    }
  }

  /** The peers of a row whose backoff is over by more than the slack. */
  predicate Stale(expire: int, now: int) {
    expire + 2 * HEARTBEAT_INTERVAL < now
  }

  /** clearBackoff */
  function Swept(timers: Timers, now: int): Timers {
    map b | b in timers && (exists p :: p in timers[b] && !Stale(timers[b][p], now)) ::
      map p | p in timers[b] && !Stale(timers[b][p], now) :: timers[b][p]
  }

  lemma SweptFaithful(recorded: map<(Bitmask, Peer), int>, timers: Timers, now: int)
    requires Faithful(recorded, timers, now)
    ensures Faithful(recorded, Swept(timers, now), now)
  {
    forall b, p
      ensures Expired(recorded, b, p, now)
              || (BackedOff(Swept(timers, now), b, p) && Swept(timers, now)[b][p] == recorded[(b, p)])
      ensures BackedOff(Swept(timers, now), b, p) ==> (b, p) in recorded && Swept(timers, now)[b][p] <= recorded[(b, p)]
    {
      assert Expired(recorded, b, p, now) || BackedOff(timers, b, p);
      assert BackedOff(Swept(timers, now), b, p) ==> BackedOff(timers, b, p);
    }
  }

  /** An entry stays until it has been over for 1.4 seconds, and then goes; no row is
      left empty. */
  lemma SweptExactly(timers: Timers, now: int, b: Bitmask, p: Peer)
    ensures BackedOff(Swept(timers, now), b, p) <==>
            BackedOff(timers, b, p) && now <= timers[b][p] + 1_400_000_000
    ensures BackedOff(Swept(timers, now), b, p) ==> Swept(timers, now)[b][p] == timers[b][p]
    ensures b in Swept(timers, now) ==> Swept(timers, now)[b] != map[]
  {
    if b in Swept(timers, now) {
      var q :| q in timers[b] && !Stale(timers[b][q], now);
      assert q in Swept(timers, now)[b];
    }
  }

  /** Whoever has no entry, or one that is over, may enter. */
  lemma MayEnter(recorded: map<(Bitmask, Peer), int>, timers: Timers, now: int, b: Bitmask, p: Peer)
    requires Faithful(recorded, timers, now)
    requires BackedOff(timers, b, p) ==> timers[b][p] <= now
    ensures Expired(recorded, b, p, now)
  {
  }

  method SweepRow(row: map<Peer, int>, now: int) returns (r: map<Peer, int>)
    ensures r == map p | p in row && !Stale(row[p], now) :: row[p]
  {
    r := row;
    var todo := row.Keys;
    while todo != {}
      invariant todo <= row.Keys
      invariant r == map p | p in row && (p in todo || !Stale(row[p], now)) :: row[p]
      decreases todo
    {
      var p :| p in todo;
      if Stale(row[p], now) {
        r := r - {p};
      }
      todo := todo - {p};
    }
  }

  method Sweep(timers: Timers, now: int) returns (r: Timers)
    ensures r == Swept(timers, now)
  {
    r := timers;
    var todo := timers.Keys;
    while todo != {}
      invariant todo <= timers.Keys && todo <= r.Keys
      invariant forall b :: b in todo ==> r[b] == timers[b]
      invariant forall b :: b !in todo ==>
                  (b in r <==> b in Swept(timers, now)) && (b in r ==> r[b] == Swept(timers, now)[b])
      decreases todo
    {
      var b :| b in todo;
      var row := SweepRow(timers[b], now);
      assert row != map[] ==> exists p :: p in row;
      if row == map[] {
        assert forall p :: p in timers[b] && !Stale(timers[b][p], now) ==> p in row;
        r := r - {b};
      } else {
        r := r[b := row];
      }
      todo := todo - {b};
    }
  }
}
