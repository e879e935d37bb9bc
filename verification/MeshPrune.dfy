/**
 Choosing whom to keep when a mesh is over-subscribed: the in-place rotations of
 heartbeat, and which peers they leave in the first D places.
 */
module MeshPrune {
  type Peer = nat

  /** The outbound peers of a list, in order. */
  function Outs(s: seq<Peer>, outbound: set<Peer>): (r: seq<Peer>) {
    if s == [] then [] else
    Outs(s[..|s| - 1], outbound) + (if s[|s| - 1] in outbound then [s[|s| - 1]] else [])
  }

  /** The other peers of a list, in order. */
  function Plain(s: seq<Peer>, outbound: set<Peer>): (r: seq<Peer>) {
    if s == [] then [] else
    Plain(s[..|s| - 1], outbound) + (if s[|s| - 1] in outbound then [] else [s[|s| - 1]])
  }

  function Min(a: nat, b: nat): nat {
    if a <= b then a else b
  }

  /** How many outbound peers are kept. */
  function Quota(s: seq<Peer>, outbound: set<Peer>, D: nat, Dout: nat): nat
    requires D <= |s|
  {
    var selected := |Outs(s[..D], outbound)|;
    if selected < Dout then Min(Dout, |Outs(s, outbound)|) else selected
  }

  lemma {:induction false} OutsSplit(a: seq<Peer>, b: seq<Peer>, outbound: set<Peer>)
    ensures Outs(a + b, outbound) == Outs(a, outbound) + Outs(b, outbound)
  {
    if b == [] {
      assert a + b == a;
    } else {
      var init, last := b[..|b| - 1], b[|b| - 1];
      OutsSplit(a, init, outbound);
      assert (a + b)[..|a + b| - 1] == a + init && (a + b)[|a + b| - 1] == last;
    }
  }

  lemma {:induction false} PlainSplit(a: seq<Peer>, b: seq<Peer>, outbound: set<Peer>)
    ensures Plain(a + b, outbound) == Plain(a, outbound) + Plain(b, outbound)
  {
    if b == [] {
      assert a + b == a;
    } else {
      var init, last := b[..|b| - 1], b[|b| - 1];
      PlainSplit(a, init, outbound);
      assert (a + b)[..|a + b| - 1] == a + init && (a + b)[|a + b| - 1] == last;
    }
  }

  lemma {:induction false} Partition(s: seq<Peer>, outbound: set<Peer>)
    ensures |Outs(s, outbound)| + |Plain(s, outbound)| == |s|
    ensures multiset(Outs(s, outbound)) + multiset(Plain(s, outbound)) == multiset(s)
  {
    if s != [] {
      var init, last := s[..|s| - 1], s[|s| - 1];
      Partition(init, outbound);
      assert s == init + [last];
      assert multiset(s) == multiset(init) + multiset{last};
    }
  }

  lemma {:induction false} PartitionKinds(s: seq<Peer>, outbound: set<Peer>)
    ensures forall p :: p in Outs(s, outbound) ==> p in outbound
    ensures forall p :: p in Plain(s, outbound) ==> p !in outbound
  {
    if s != [] {
      PartitionKinds(s[..|s| - 1], outbound);
    }
  }

  lemma {:induction false} OutsOfOuts(s: seq<Peer>, outbound: set<Peer>)
    requires forall p :: p in s ==> p in outbound
    ensures Outs(s, outbound) == s && Plain(s, outbound) == []
  {
    if s != [] {
      var init, last := s[..|s| - 1], s[|s| - 1];
      assert last in s && s == init + [last];
      OutsOfOuts(init, outbound);
    }
  }

  lemma {:induction false} OutsOfPlain(s: seq<Peer>, outbound: set<Peer>)
    requires forall p :: p in s ==> p !in outbound
    ensures Outs(s, outbound) == [] && Plain(s, outbound) == s
  {
    if s != [] {
      var init, last := s[..|s| - 1], s[|s| - 1];
      assert last in s && s == init + [last];
      OutsOfPlain(init, outbound);
    }
  }

  // ------------------------------------------------------------------ the rotations

  /** Puts the i-th peer in front, moving those before it one place right. */
  method Rotate(plst: array<Peer>, i: nat)
    requires i < plst.Length
    modifies plst
    ensures plst[..] == [old(plst[i])] + old(plst[..i]) + old(plst[i + 1..])
  {
    var p := plst[i];
    var j := i;
    while j > 0
      invariant j <= i
      invariant forall k :: 0 <= k <= j ==> plst[k] == old(plst[k])
      invariant forall k :: j < k <= i ==> plst[k] == old(plst[k - 1])
      invariant forall k :: i < k < plst.Length ==> plst[k] == old(plst[k])
    {
      plst[j] := plst[j - 1];
      j := j - 1;
    }
    plst[0] := p;
  }

  /** The list after the outbound peers among the first i have been moved to the
      front, in whatever order, the rest keeping theirs. */
  ghost predicate Bubbled(now: seq<Peer>, was: seq<Peer>, front: seq<Peer>, i: nat, outbound: set<Peer>) {
    && i <= |was|
    && now == front + Plain(was[..i], outbound) + was[i..]
    && multiset(front) == multiset(Outs(was[..i], outbound))
  }

  lemma BubbleStart(was: seq<Peer>, outbound: set<Peer>)
    ensures Bubbled(was, was, [], 0, outbound)
  {
  }

  /** The loop starts at 1, as if the peer in front had been passed already. */
  lemma BubbleLead(was: seq<Peer>, outbound: set<Peer>)
    requires was != []
    ensures Bubbled(was, was, if was[0] in outbound then [was[0]] else [], 1, outbound)
  {
    assert was[..1][..0] == [];
  }

  lemma BubbleSize(now: seq<Peer>, was: seq<Peer>, front: seq<Peer>, i: nat, outbound: set<Peer>)
    requires Bubbled(now, was, front, i, outbound)
    ensures |now| == |was| && now[i..] == was[i..] && |front| == |Outs(was[..i], outbound)| <= i
    ensures now[..i] == front + Plain(was[..i], outbound)
  {
    hide Outs, Plain;
    Partition(was[..i], outbound);
    assert |multiset(front)| == |multiset(Outs(was[..i], outbound))|;
  }

  lemma SplitNext(was: seq<Peer>, i: nat, outbound: set<Peer>)
    requires i < |was|
    ensures Outs(was[..i + 1], outbound) == Outs(was[..i], outbound) + if was[i] in outbound then [was[i]] else []
    ensures Plain(was[..i + 1], outbound) == Plain(was[..i], outbound) + if was[i] in outbound then [] else [was[i]]
  {
    assert was[..i + 1][..i] == was[..i];
  }

  lemma BubblePass(now: seq<Peer>, was: seq<Peer>, front: seq<Peer>, i: nat, outbound: set<Peer>)
    requires Bubbled(now, was, front, i, outbound) && i < |was| == |now|
    ensures now[i] == was[i]
    ensures was[i] !in outbound ==> Bubbled(now, was, front, i + 1, outbound)
    ensures was[i] in outbound ==> Bubbled([now[i]] + now[..i] + now[i + 1..], was, [was[i]] + front, i + 1, outbound)
  {
    hide Outs, Plain;
    BubbleSize(now, was, front, i, outbound);
    SplitNext(was, i, outbound);
    assert now[i] == now[i..][0] && now[i + 1..] == now[i..][1..] && was[i + 1..] == was[i..][1..];
    if was[i] in outbound {
      assert [now[i]] + now[..i] == ([was[i]] + front) + Plain(was[..i], outbound);
    } else {
      assert now == now[..i] + [now[i]] + now[i + 1..];
      assert now[..i] + [now[i]] == front + Plain(was[..i + 1], outbound);
    }
  }

  /** As many as were moved is at most as many as there are, all of them at the end. */
  lemma BubbleWithin(now: seq<Peer>, was: seq<Peer>, front: seq<Peer>, i: nat, D: nat, outbound: set<Peer>)
    requires Bubbled(now, was, front, i, outbound) && i <= D <= |was|
    ensures |now| == |was| && was[..|was|] == was
    ensures |front| <= |Outs(was[..D], outbound)|
    ensures i == D ==> |front| == |Outs(was[..D], outbound)|
  {
    hide Plain;
    BubbleSize(now, was, front, i, outbound);
    assert was[..D] == was[..i] + was[i..D];
    OutsSplit(was[..i], was[i..D], outbound);
  }

  /** No outbound peers lie between i and D, so the pass could have run to D. */
  lemma BubbleSkip(now: seq<Peer>, was: seq<Peer>, front: seq<Peer>, i: nat, D: nat, outbound: set<Peer>)
    requires Bubbled(now, was, front, i, outbound) && i <= D <= |was|
    requires |front| >= |Outs(was[..D], outbound)|
    ensures Bubbled(now, was, front, D, outbound)
  {
    hide Outs, Plain;
    BubbleSize(now, was, front, i, outbound);
    var mid := was[i..D];
    assert was[..D] == was[..i] + mid && was[i..] == mid + was[D..];
    OutsSplit(was[..i], mid, outbound);
    PlainSplit(was[..i], mid, outbound);
    Partition(mid, outbound);
    PartitionKinds(mid, outbound);
    NoOuts(mid, outbound);
    assert front + Plain(was[..i], outbound) + (mid + was[D..]) == front + (Plain(was[..i], outbound) + mid) + was[D..];
  }

  lemma {:induction false} NoOuts(s: seq<Peer>, outbound: set<Peer>)
    requires Outs(s, outbound) == []
    ensures Plain(s, outbound) == s
  {
    if s != [] {
      NoOuts(s[..|s| - 1], outbound);
    }
  }

  /** Which peers end up in the first D places. */
  lemma BubbleFirst(now: seq<Peer>, was: seq<Peer>, front: seq<Peer>, i: nat, D: nat, outbound: set<Peer>)
    requires Bubbled(now, was, front, i, outbound) && D <= i && |front| <= D && |Outs(was[..D], outbound)| <= |front|
    ensures |now| == |was|
    ensures Outs(now[..D], outbound) == front
    ensures |front| + |Plain(was[..D], outbound)| >= D
    ensures Plain(now[..D], outbound) == Plain(was[..D], outbound)[..D - |front|]
    ensures multiset(Outs(was[..D], outbound)) <= multiset(front)
  {
    hide Outs, Plain;
    BubbleSize(now, was, front, i, outbound);
    var mid := was[D..i];
    assert was[..i] == was[..D] + mid;
    OutsSplit(was[..D], mid, outbound);
    PlainSplit(was[..D], mid, outbound);
    Partition(was[..D], outbound);
    PartitionKinds(was[..i], outbound);
    var rest := Plain(was[..D], outbound)[..D - |front|];
    assert now[..D] == front + rest;
    assert forall p :: p in front ==> p in multiset(front);
    OutsOfOuts(front, outbound);
    assert forall p :: p in rest ==> p in Plain(was[..i], outbound);
    OutsOfPlain(rest, outbound);
    OutsSplit(front, rest, outbound);
    PlainSplit(front, rest, outbound);
  }

  lemma BubbleSame(now: seq<Peer>, was: seq<Peer>, front: seq<Peer>, i: nat, outbound: set<Peer>)
    requires Bubbled(now, was, front, i, outbound)
    ensures multiset(now) == multiset(was)
  {
    hide Outs, Plain;
    Partition(was[..i], outbound);
    assert was == was[..i] + was[i..];
  }

  /** The first D places of `now` hold the peers to keep: all outbound ones that
      `was` had there, more from outside until Dout is met, and otherwise the
      earliest that `was` had there. */
  ghost predicate KeptBest(was: seq<Peer>, now: seq<Peer>, outbound: set<Peer>, D: nat, Dout: nat) {
    && D <= |was| && multiset(now) == multiset(was) && |now| == |was|
    && |Outs(now[..D], outbound)| == Quota(was, outbound, D, Dout)
    && D - |Plain(was[..D], outbound)| <= |Outs(now[..D], outbound)| <= D
    && Plain(now[..D], outbound) == Plain(was[..D], outbound)[..D - |Outs(now[..D], outbound)|]
    && multiset(Outs(was[..D], outbound)) <= multiset(Outs(now[..D], outbound))
  }

  /** Reorders the sorted and shuffled list before its tail is pruned. */
  method KeepBest(plst: array<Peer>, outbound: set<Peer>, D: nat, Dout: nat)
    requires Dout <= D <= plst.Length
    modifies plst
    ensures KeptBest(old(plst[..]), plst[..], outbound, D, Dout)
  {
    hide Outs, Plain, Bubbled;
    ghost var was := plst[..];
    assert plst[..D] == was[..D];
    var count := CountOutbound(plst, outbound, D);
    Partition(was[..D], outbound);
    if count < Dout {
      ghost var front := BubbleSelected(plst, outbound, D, count);
      ghost var i: nat;
      front, i := BubbleOthers(plst, outbound, D, Dout - count, was, front);
      BubbleSame(plst[..], was, front, i, outbound);
      BubbleFirst(plst[..], was, front, i, D, outbound);
    }
  }

  method CountOutbound(plst: array<Peer>, outbound: set<Peer>, D: nat) returns (count: nat)
    requires D <= plst.Length
    ensures count == |Outs(plst[..D], outbound)|
  {
    count := 0;
    for i := 0 to D
      invariant count == |Outs(plst[..i], outbound)|
    {
      assert plst[..i + 1][..i] == plst[..i];
      if plst[i] in outbound {
        count := count + 1;
      }
    }
  }

  /** Bubbles up all outbound peers already in the selection. */
  method BubbleSelected(plst: array<Peer>, outbound: set<Peer>, D: nat, count: nat) returns (ghost front: seq<Peer>)
    requires D <= plst.Length && count == |Outs(plst[..][..D], outbound)|
    modifies plst
    ensures Bubbled(plst[..], old(plst[..]), front, D, outbound) && |front| == count
  {
    hide Outs, Plain, Bubbled;
    ghost var was := plst[..];
    front := [];
    BubbleStart(was, outbound);
    if count == 0 {
      BubbleSkip(plst[..], was, front, 0, D, outbound);
    } else {
      front := BubbleLoop(plst, outbound, D, count);
    }
  }

  method BubbleLoop(plst: array<Peer>, outbound: set<Peer>, D: nat, count: nat) returns (ghost front: seq<Peer>)
    requires 0 < D <= plst.Length && count == |Outs(plst[..][..D], outbound)|
    modifies plst
    ensures Bubbled(plst[..], old(plst[..]), front, D, outbound) && |front| == count
  {
    hide Outs, Plain, Bubbled;
    ghost var was := plst[..];
    front := if was[0] in outbound then [was[0]] else [];
    ghost var lead := |front|;
    BubbleLead(was, outbound);
    var ihave: nat := count;
    var i := 1;
    while i < D && ihave > 0
      invariant 1 <= i <= D && Bubbled(plst[..], was, front, i, outbound)
      invariant ihave + |front| == count + lead
    {
      BubblePass(plst[..], was, front, i, outbound);
      if plst[i] in outbound {
        Rotate(plst, i);
        front := [was[i]] + front;
        ihave := ihave - 1;
      }
      i := i + 1;
    }
    BubbleWithin(plst[..], was, front, i, D, outbound);
    BubbleSkip(plst[..], was, front, i, D, outbound);
  }

  /** Bubbles up outbound peers from outside the selection, as many as needed. */
  method BubbleOthers(plst: array<Peer>, outbound: set<Peer>, D: nat, need: nat, ghost was: seq<Peer>,
                      ghost front0: seq<Peer>)
    returns (ghost front: seq<Peer>, ghost upto: nat)
    requires D <= plst.Length == |was| && Bubbled(plst[..], was, front0, D, outbound)
    modifies plst
    ensures D <= upto && Bubbled(plst[..], was, front, upto, outbound)
    ensures |front| == Min(|front0| + need, |Outs(was, outbound)|) >= |front0|
  {
    hide Outs, Plain, Bubbled;
    front := front0;
    BubbleSize(plst[..], was, front, D, outbound);
    var ineed: nat := need;
    var i := D;
    while i < plst.Length && ineed > 0
      invariant D <= i <= plst.Length && Bubbled(plst[..], was, front, i, outbound)
      invariant |front| + ineed == |front0| + need && ineed <= need
    {
      BubblePass(plst[..], was, front, i, outbound);
      if plst[i] in outbound {
        Rotate(plst, i);
        front := [was[i]] + front;
        ineed := ineed - 1;
      }
      i := i + 1;
    }
    upto := i;
    BubbleWithin(plst[..], was, front, i, |was|, outbound);
  }

  // ------------------------------------------------------------------ what is kept

  ghost predicate Distinct(s: seq<Peer>) {
    forall i, j {:trigger s[i], s[j]} :: 0 <= i < j < |s| ==> s[i] != s[j]
  }

  /** The outbound quota is met whenever the mesh has that many outbound peers. */
  lemma QuotaMet(was: seq<Peer>, now: seq<Peer>, outbound: set<Peer>, D: nat, Dout: nat)
    requires KeptBest(was, now, outbound, D, Dout)
    ensures |Outs(now[..D], outbound)| >= Min(Dout, |Outs(was, outbound)|)
  {
    assert was == was[..D] + was[D..];
    OutsSplit(was[..D], was[D..], outbound);
  }

  lemma Members(s: seq<Peer>, outbound: set<Peer>, p: Peer)
    ensures p in Outs(s, outbound) <==> p in s && p in outbound
    ensures p in Plain(s, outbound) <==> p in s && p !in outbound
  {
    Partition(s, outbound);
    PartitionKinds(s, outbound);
    assert p in s <==> p in multiset(s);
    assert p in Outs(s, outbound) <==> p in multiset(Outs(s, outbound));
    assert p in Plain(s, outbound) <==> p in multiset(Plain(s, outbound));
  }

  lemma {:induction false} PlainDistinct(s: seq<Peer>, outbound: set<Peer>)
    requires Distinct(s)
    ensures Distinct(Plain(s, outbound))
  {
    if s != [] {
      var init, last := s[..|s| - 1], s[|s| - 1];
      PlainDistinct(init, outbound);
      Members(init, outbound, last);
      assert last !in init;
    }
  }

  /** The first Dscore peers all stay if and only if those of them that are not
      outbound fit beside the outbound peers that are kept. */
  lemma TopKeptExactly(was: seq<Peer>, now: seq<Peer>, outbound: set<Peer>, D: nat, Dout: nat, Dscore: nat)
    requires KeptBest(was, now, outbound, D, Dout) && Distinct(was) && Dscore <= D
    ensures (forall p :: p in was[..Dscore] ==> p in now[..D]) <==>
            |Plain(was[..Dscore], outbound)| + Quota(was, outbound, D, Dout) <= D
  {
    var top, n := Plain(was[..Dscore], outbound), D - Quota(was, outbound, D, Dout);
    assert was[..D] == was[..Dscore] + was[Dscore..D];
    PlainSplit(was[..Dscore], was[Dscore..D], outbound);
    if |top| <= n {
      forall p | p in was[..Dscore]
        ensures p in now[..D]
      {
        TopStays(was, now, outbound, D, Dout, Dscore, p);
      }
    } else {
      TopLeaves(was, now, outbound, D, Dout, Dscore, top[n]);
    }
  }

  lemma TopStays(was: seq<Peer>, now: seq<Peer>, outbound: set<Peer>, D: nat, Dout: nat, Dscore: nat, p: Peer)
    requires KeptBest(was, now, outbound, D, Dout) && Dscore <= D && p in was[..Dscore]
    requires Plain(was[..Dscore], outbound) <= Plain(was[..D], outbound)
    requires |Plain(was[..Dscore], outbound)| + Quota(was, outbound, D, Dout) <= D
    ensures p in now[..D]
  {
    hide Outs, Plain, Quota;
    Members(was[..D], outbound, p);
    Members(was[..Dscore], outbound, p);
    Members(now[..D], outbound, p);
    if p in outbound {
      assert p in multiset(Outs(was[..D], outbound));
    } else {
      assert p in Plain(was[..D], outbound)[..|Plain(was[..Dscore], outbound)|];
    }
  }

  lemma TopLeaves(was: seq<Peer>, now: seq<Peer>, outbound: set<Peer>, D: nat, Dout: nat, Dscore: nat, p: Peer)
    requires KeptBest(was, now, outbound, D, Dout) && Distinct(was) && Dscore <= D
    requires Plain(was[..Dscore], outbound) <= Plain(was[..D], outbound)
    requires D - Quota(was, outbound, D, Dout) < |Plain(was[..Dscore], outbound)|
    requires p == Plain(was[..Dscore], outbound)[D - Quota(was, outbound, D, Dout)]
    ensures p in was[..Dscore] && p !in now[..D]
  {
    hide Outs, Plain, Quota;
    Members(was[..Dscore], outbound, p);
    Members(now[..D], outbound, p);
    PlainDistinct(was[..D], outbound);
  }

  /** In particular they all stay whenever Dscore + Dout is at most D. */
  lemma TopKept(was: seq<Peer>, now: seq<Peer>, outbound: set<Peer>, D: nat, Dout: nat, Dscore: nat)
    requires KeptBest(was, now, outbound, D, Dout) && Distinct(was) && Dscore + Dout <= D
    ensures forall p :: p in was[..Dscore] ==> p in now[..D]
  {
    TopKeptExactly(was, now, outbound, D, Dout, Dscore);
    assert was[..D] == was[..Dscore] + was[Dscore..D];
    PlainSplit(was[..Dscore], was[Dscore..D], outbound);
    Partition(was[..D], outbound);
    Partition(was[..Dscore], outbound);
  }

  ghost predicate HeadStays(was: seq<Peer>, now: seq<Peer>, D: nat, Dscore: nat)
    requires Dscore <= D <= |was| == |now|
  {
    forall p :: p in was[..Dscore] ==> p in now[..D]
  }

  /** Whatever the mesh, the first Dscore peers stay. */
  ghost predicate AlwaysStay(D: nat, Dout: nat, Dscore: nat)
    requires Dscore <= D
  {
    forall was, now, outbound {:trigger KeptBest(was, now, outbound, D, Dout)} ::
      KeptBest(was, now, outbound, D, Dout) && Distinct(was) ==> HeadStays(was, now, D, Dscore)
  }

  /** As a condition on the parameters alone it is exact as well. */
  lemma AlwaysStayExactly(D: nat, Dout: nat, Dscore: nat)
    requires Dout <= D && Dscore <= D
    ensures AlwaysStay(D, Dout, Dscore) <==> Dscore + Dout <= D
  {
    hide KeptBest;
    if Dscore + Dout <= D {
      forall was, now, outbound | KeptBest(was, now, outbound, D, Dout) && Distinct(was)
        ensures D <= |was| == |now| && HeadStays(was, now, D, Dscore)
      {
        KeptWithin(was, now, outbound, D, Dout);
        TopKept(was, now, outbound, D, Dout, Dscore);
      }
    } else {
      var was, now, outbound := PushedOut(D, Dout, Dscore);
    }
  }

  lemma KeptWithin(was: seq<Peer>, now: seq<Peer>, outbound: set<Peer>, D: nat, Dout: nat)
    requires KeptBest(was, now, outbound, D, Dout)
    ensures D <= |was| == |now|
  {
  }

  /** The n peers from p on. */
  function Run(p: Peer, n: nat): (r: seq<Peer>) {
    seq(n, i requires 0 <= i < n => p + i)
  }

  /** A mesh with all its outbound peers at the end: Dout of them push out the last
      of the first D, among them some of the best scored. */
  lemma PushedOut(D: nat, Dout: nat, Dscore: nat) returns (was: seq<Peer>, now: seq<Peer>, outbound: set<Peer>)
    requires Dout <= D && Dscore <= D < Dscore + Dout
    ensures KeptBest(was, now, outbound, D, Dout) && Distinct(was) && !HeadStays(was, now, D, Dscore)
  {
    hide Outs, Plain;
    var plain, outs := Run(0, D), Run(D, Dout);
    was, now, outbound := plain + outs, outs + plain, set p | p in outs;
    assert was[..D] == plain && now[..D] == outs + plain[..D - Dout] && was[..Dscore] == plain[..Dscore];
    OutsOfPlain(plain, outbound);
    OutsOfOuts(outs, outbound);
    OutsSplit(plain, outs, outbound);
    PushedKept(plain, outs, outbound, D, Dout);
    OutsOfPlain(plain[..Dscore], outbound);
    TopKeptExactly(was, now, outbound, D, Dout, Dscore);
  }

  lemma PushedKept(plain: seq<Peer>, outs: seq<Peer>, outbound: set<Peer>, D: nat, Dout: nat)
    requires |plain| == D && |outs| == Dout <= D
    requires forall p :: p in plain ==> p !in outbound
    requires forall p :: p in outs ==> p in outbound
    ensures KeptBest(plain + outs, outs + plain, outbound, D, Dout) && Quota(plain + outs, outbound, D, Dout) == Dout
  {
    hide Outs, Plain;
    var was, now, rest := plain + outs, outs + plain, plain[..D - Dout];
    assert was[..D] == plain && now[..D] == outs + rest;
    OutsOfPlain(plain, outbound);
    OutsOfPlain(rest, outbound);
    OutsOfOuts(outs, outbound);
    OutsSplit(plain, outs, outbound);
    OutsSplit(outs, rest, outbound);
    PlainSplit(outs, rest, outbound);
  }
}
