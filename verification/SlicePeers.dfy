/**
 The loop of getPeers over the slices of a bitmask, which looks for the peers that
 all slices have in common.
 */
module SlicePeers {
  import opened Basics
  import opened Backoff

  /** The peers of each slice, if the slice is known. */
  type Slices = seq<Option<seq<Peer>>>

  /** Depends on the slice too, through the peer filter. */
  type Filter = (nat, Peer) -> bool

  function SetOf(s: seq<Peer>): set<Peer> {
    set p | p in s
  }

  ghost predicate AllKnown(slices: Slices) {
    forall i {:trigger slices[i]} :: 0 <= i < |slices| ==> slices[i].Some?
  }

  /** The peers of slice i that pass the filters. */
  ghost function InSlice(slices: Slices, i: nat, accept: Filter): set<Peer> {
    if i < |slices| && slices[i].Some? then set p | p in slices[i].value && accept(i, p) else {}
  }

  /** Slice f is the first of those before n that has any such peer. */
  ghost predicate Leads(slices: Slices, f: nat, n: nat, accept: Filter) {
    f < n && InSlice(slices, f, accept) != {} && forall i: nat :: i < f ==> InSlice(slices, i, accept) == {}
  }

  /** The peers of all slices from f up to n. */
  ghost predicate InAll(slices: Slices, f: nat, n: nat, accept: Filter, p: Peer) {
    forall i: nat :: f <= i < n ==> p in InSlice(slices, i, accept)
  }

  /** r is what the slices from the first one with peers up to n have in common. */
  ghost predicate Common(slices: Slices, f: nat, n: nat, accept: Filter, r: set<Peer>) {
    Leads(slices, f, n, accept) && forall p :: p in r <==> InAll(slices, f, n, accept, p)
  }

  /** What the loop has after n slices: nothing if all were without peers, else the
      peers common to those from the first one with peers on. */
  ghost predicate Collected(slices: Slices, n: nat, accept: Filter, r: set<Peer>) {
    && (r == {} ==> forall i: nat :: i < n ==> InSlice(slices, i, accept) == {})
    && (r != {} ==> exists f: nat :: Common(slices, f, n, accept, r))
  }

  method FilterPeers(peers: seq<Peer>, i: nat, accept: Filter) returns (r: seq<Peer>)
    ensures forall p :: p in r <==> p in peers && accept(i, p)
  {
    r := [];
    for k := 0 to |peers|
      invariant forall p :: p in r <==> p in peers[..k] && accept(i, p)
    {
      assert peers[..k + 1] == peers[..k] + [peers[k]];
      if accept(i, peers[k]) {
        r := r + [peers[k]];
      }
    }
    assert peers[..|peers|] == peers;
  }

  lemma CollectFirst(slices: Slices, n: nat, accept: Filter)
    requires Collected(slices, n, accept, {})
    ensures Collected(slices, n + 1, accept, InSlice(slices, n, accept))
  {
    var r := InSlice(slices, n, accept);
    if r != {} {
      assert Leads(slices, n, n + 1, accept);
      forall p ensures p in r <==> InAll(slices, n, n + 1, accept, p) {
        if InAll(slices, n, n + 1, accept, p) {
          assert p in InSlice(slices, n, accept);
        }
      }
      assert Common(slices, n, n + 1, accept, r);
    }
  }

  lemma CollectMore(slices: Slices, n: nat, accept: Filter, r: set<Peer>) returns (f: nat)
    requires Collected(slices, n, accept, r) && r != {}
    ensures Common(slices, f, n + 1, accept, r * InSlice(slices, n, accept))
  {
    f :| Common(slices, f, n, accept, r);
    assert Leads(slices, f, n + 1, accept);
    forall p ensures p in r * InSlice(slices, n, accept) <==> InAll(slices, f, n + 1, accept, p) {
      if InAll(slices, f, n + 1, accept, p) {
        assert p in InSlice(slices, n, accept);
        assert InAll(slices, f, n, accept, p);
      }
    }
    assert Common(slices, f, n + 1, accept, r * InSlice(slices, n, accept));
  }

  /** Peers that all slices share, from the first slice on that has any. */
  ghost predicate Shares(slices: Slices, accept: Filter, p: Peer) {
    exists f: nat :: Leads(slices, f, |slices|, accept) && InAll(slices, f, |slices|, accept, p)
  }

  lemma OneLead(slices: Slices, f: nat, g: nat, n: nat, m: nat, accept: Filter)
    requires Leads(slices, f, n, accept) && Leads(slices, g, m, accept)
    ensures f == g
  {
    assert !(f < g) && !(g < f);
  }

  lemma CollectedShares(slices: Slices, accept: Filter, r: set<Peer>)
    requires Collected(slices, |slices|, accept, r)
    ensures forall p :: p in r <==> Shares(slices, accept, p)
  {
    if r != {} {
      var f: nat :| Common(slices, f, |slices|, accept, r);
      forall p ensures p in r <==> Shares(slices, accept, p) {
        if Shares(slices, accept, p) {
          var g: nat :| Leads(slices, g, |slices|, accept) && InAll(slices, g, |slices|, accept, p);
          OneLead(slices, f, g, |slices|, |slices|, accept);
        }
      }
    }
  }

  lemma SharesFrom(slices: Slices, f: nat, n: nat, accept: Filter, p: Peer)
    requires Leads(slices, f, n, accept) && n <= |slices| && Shares(slices, accept, p)
    ensures InAll(slices, f, n, accept, p)
  {
    var g: nat :| Leads(slices, g, |slices|, accept) && InAll(slices, g, |slices|, accept, p);
    OneLead(slices, f, g, n, |slices|, accept);
  }

  /** With nothing in common any more, nobody is shared in the end. */
  lemma NobodyShares(slices: Slices, n: nat, accept: Filter, r: set<Peer>)
    requires Collected(slices, n, accept, r) && r != {} && n < |slices| && r * InSlice(slices, n, accept) == {}
    ensures forall p :: !Shares(slices, accept, p)
  {
    hide Shares;
    var f := CollectMore(slices, n, accept, r);
    forall p ensures Shares(slices, accept, p) ==> InAll(slices, f, n + 1, accept, p) {
      if Shares(slices, accept, p) {
        SharesFrom(slices, f, n + 1, accept, p);
      }
    }
  }

  /** The loop over the slices. A set without peers is taken for one that has not
      been started, so slices without peers are ignored up to the first with some. */
  method CommonPeers(slices: Slices, accept: Filter) returns (r: seq<Peer>)
    ensures !AllKnown(slices) ==> r == []
    ensures AllKnown(slices) ==> forall p :: p in r <==> Shares(slices, accept, p)
  {
    hide Collected, Shares, InSlice;
    r := [];
    CollectNone(slices, accept);
    for i := 0 to |slices|
      invariant Collected(slices, i, accept, SetOf(r)) && AllKnown(slices[..i])
    {
      if slices[i].None? {
        return [];
      }
      var peers := FilterPeers(slices[i].value, i, accept);
      SliceIs(slices, i, accept, peers);
      if r == [] {
        assert SetOf(r) == {};
        CollectFirst(slices, i, accept);
        r := peers;
      } else {
        assert r[0] in SetOf(r);
        var was := r;
        r := FilterPeers(peers, i, (_, p) => p in was);
        assert SetOf(r) == SetOf(was) * SetOf(peers);
        if r == [] {
          NobodyShares(slices, i, accept, SetOf(was));
          return [];
        }
        assert r[0] in SetOf(r);
        ghost var f := CollectMore(slices, i, accept, SetOf(was));
        CollectedOn(slices, f, i + 1, accept, SetOf(r));
      }
    }
    CollectedShares(slices, accept, SetOf(r));
  }

  lemma CollectNone(slices: Slices, accept: Filter)
    ensures Collected(slices, 0, accept, SetOf([]))
  {
  }

  lemma CollectedOn(slices: Slices, f: nat, n: nat, accept: Filter, r: set<Peer>)
    requires r != {} && Common(slices, f, n, accept, r)
    ensures Collected(slices, n, accept, r)
  {
  }

  lemma SliceIs(slices: Slices, i: nat, accept: Filter, peers: seq<Peer>)
    requires i < |slices| && slices[i].Some? && forall p :: p in peers <==> p in slices[i].value && accept(i, p)
    ensures SetOf(peers) == InSlice(slices, i, accept)
  {
  }

  /** So a peer that is found is a peer of every slice if and only if the first slice
      has peers. */
  lemma SharedExactly(slices: Slices, accept: Filter, p: Peer)
    requires AllKnown(slices) && Shares(slices, accept, p)
    ensures InAll(slices, 0, |slices|, accept, p) <==> InSlice(slices, 0, accept) != {}
  {
    var f: nat :| Leads(slices, f, |slices|, accept) && InAll(slices, f, |slices|, accept, p);
    if InSlice(slices, 0, accept) != {} {
      assert Leads(slices, 0, |slices|, accept);
      OneLead(slices, 0, f, |slices|, |slices|, accept);
    }
    if InAll(slices, 0, |slices|, accept, p) {
      assert p in InSlice(slices, 0, accept);
    }
  }

  /** A peer of the second slice only. */
  lemma StrangerFound(accept: Filter, p: Peer)
    requires accept(1, p)
    ensures var slices := [Some([]), Some([p])];
            AllKnown(slices) && Shares(slices, accept, p) && !InAll(slices, 0, |slices|, accept, p)
  {
    var slices: Slices := [Some([]), Some([p])];
    assert p in InSlice(slices, 1, accept) && InSlice(slices, 0, accept) == {};
    assert Leads(slices, 1, 2, accept) && InAll(slices, 1, 2, accept, p);
    assert p !in InSlice(slices, 0, accept);
  }
}
