/**
 appendOrMergeRPC: packs the content of RPCs into RPCs below a size limit.
 */
module RpcSplit {
  import opened Basics

  type Bytes = seq<int>

  datatype IHave = IHave(bitmask: Bytes, ids: seq<Bytes>)

  /** Messages, subscriptions and the payload of GRAFT, PRUNE and IDONTWANT are
      opaque here. */
  datatype Control = Control(graft: seq<Bytes>, prune: seq<Bytes>, iwant: seq<seq<Bytes>>, ihave: seq<IHave>,
                             idontwant: seq<Bytes>)

  datatype Rpc = Rpc(publish: seq<Bytes>, subscriptions: seq<Bytes>, control: Option<Control>)

  const NO_CONTROL := Control([], [], [], [], [])

  const EMPTY := Rpc([], [], None)

  /** Marshalled size, which nothing below depends on. */
  type SizeOf = Rpc -> nat

  // ------------------------------------------------------------------ content

  /** What an RPC says, kind by kind, in order. */
  datatype Content = Content(publish: seq<Bytes>, subscriptions: seq<Bytes>, grafts: seq<Bytes>, prunes: seq<Bytes>,
                             wants: seq<Bytes>, haves: seq<(Bytes, Bytes)>)

  const NOTHING := Content([], [], [], [], [], [])

  function Join(a: Content, b: Content): Content {
    Content(a.publish + b.publish, a.subscriptions + b.subscriptions, a.grafts + b.grafts, a.prunes + b.prunes,
            a.wants + b.wants, a.haves + b.haves)
  }

  function Wants(iwant: seq<seq<Bytes>>): seq<Bytes> {
    if iwant == [] then [] else Wants(iwant[..|iwant| - 1]) + iwant[|iwant| - 1]
  }

  function Pairs(h: IHave): seq<(Bytes, Bytes)> {
    seq(|h.ids|, i requires 0 <= i < |h.ids| => (h.bitmask, h.ids[i]))
  }

  function Haves(ihave: seq<IHave>): seq<(Bytes, Bytes)> {
    if ihave == [] then [] else Haves(ihave[..|ihave| - 1]) + Pairs(ihave[|ihave| - 1])
  }

  function ContentOf(r: Rpc): Content {
    var c := if r.control.Some? then r.control.value else NO_CONTROL;
    Content(r.publish, r.subscriptions, c.graft, c.prune, Wants(c.iwant), Haves(c.ihave))
  }

  function ContentAll(rs: seq<Rpc>): Content {
    if rs == [] then NOTHING else Join(ContentAll(rs[..|rs| - 1]), ContentOf(rs[|rs| - 1]))
  }

  function Items(c: Content): nat {
    |c.publish| + |c.subscriptions| + |c.grafts| + |c.prunes| + |c.wants| + |c.haves|
  }

  function IDontWants(rs: seq<Rpc>): seq<Bytes> {
    if rs == [] then [] else
    var last := rs[|rs| - 1];
    IDontWants(rs[..|rs| - 1]) + (if last.control.Some? then last.control.value.idontwant else [])
  }

  lemma JoinLaws(a: Content, b: Content, c: Content)
    ensures Join(Join(a, b), c) == Join(a, Join(b, c))
    ensures Join(a, NOTHING) == a && Join(NOTHING, a) == a
  {
  }

  // ------------------------------------------------------------------ things

  /** What is added at a time: an item, or an empty frame for the items to come. */
  datatype Thing =
    | Message(m: Bytes)
    | Subscription(s: Bytes)
    | OpenControl
    | Graft(g: Bytes)
    | Prune(p: Bytes)
    | OpenIWant
    | Want(id: Bytes)
    | OpenIHave(b: Bytes)
    | Have(b: Bytes, id: Bytes)

  /** The RPC that holds it and nothing else. */
  function Alone(x: Thing): Rpc {
    match x
    case Message(m) => EMPTY.(publish := [m])
    case Subscription(s) => EMPTY.(subscriptions := [s])
    case OpenControl => WithControl(EMPTY, NO_CONTROL)
    case Graft(g) => WithControl(EMPTY, NO_CONTROL.(graft := [g]))
    case Prune(p) => WithControl(EMPTY, NO_CONTROL.(prune := [p]))
    case OpenIWant => WithControl(EMPTY, NO_CONTROL.(iwant := [[]]))
    case Want(id) => WithControl(EMPTY, NO_CONTROL.(iwant := [[id]]))
    case OpenIHave(b) => WithControl(EMPTY, NO_CONTROL.(ihave := [IHave(b, [])]))
    case Have(b, id) => WithControl(EMPTY, NO_CONTROL.(ihave := [IHave(b, [id])]))
  }

  function Messages(ms: seq<Bytes>): seq<Thing> { seq(|ms|, i requires 0 <= i < |ms| => Message(ms[i])) }
  function Subscriptions(ss: seq<Bytes>): seq<Thing> { seq(|ss|, i requires 0 <= i < |ss| => Subscription(ss[i])) }
  function Grafts(gs: seq<Bytes>): seq<Thing> { seq(|gs|, i requires 0 <= i < |gs| => Graft(gs[i])) }
  function Prunes(ps: seq<Bytes>): seq<Thing> { seq(|ps|, i requires 0 <= i < |ps| => Prune(ps[i])) }
  function WantIds(ids: seq<Bytes>): seq<Thing> { seq(|ids|, i requires 0 <= i < |ids| => Want(ids[i])) }
  function HaveIds(b: Bytes, ids: seq<Bytes>): seq<Thing> { seq(|ids|, i requires 0 <= i < |ids| => Have(b, ids[i])) }

  function IWants(iwants: seq<seq<Bytes>>): seq<Thing> {
    if iwants == [] then [] else IWants(iwants[..|iwants| - 1]) + ([OpenIWant] + WantIds(iwants[|iwants| - 1]))
  }

  function IHaves(ihaves: seq<IHave>): seq<Thing> {
    if ihaves == [] then [] else
    var last := ihaves[|ihaves| - 1];
    IHaves(ihaves[..|ihaves| - 1]) + ([OpenIHave(last.bitmask)] + HaveIds(last.bitmask, last.ids))
  }

  function ControlThings(c: Control): seq<Thing> {
    [OpenControl] + Grafts(c.graft) + Prunes(c.prune) + IWants(c.iwant) + IHaves(c.ihave)
  }

  /** All things of an RPC but its IDONTWANTs, in the order they are added. */
  function Things(r: Rpc): seq<Thing> {
    Messages(r.publish) + Subscriptions(r.subscriptions)
    + if r.control.Some? then ControlThings(r.control.value) else []
  }

  function AllThings(rs: seq<Rpc>): seq<Thing> {
    if rs == [] then [] else AllThings(rs[..|rs| - 1]) + Things(rs[|rs| - 1])
  }

  // ------------------------------------------------------------------ merging

  /** All ids go into one IWANT. */
  function MergeIWant(a: seq<seq<Bytes>>, b: seq<seq<Bytes>>): seq<seq<Bytes>> {
    if b == [] then a else if a == [] then b else [a[0] + b[0]]
  }

  /** An IHAVE continues the one before it if that has the same bitmask. */
  function MergeIHave(a: seq<IHave>, b: seq<IHave>): seq<IHave> {
    if a == [] || b == [] || a[|a| - 1].bitmask != b[0].bitmask then a + b
    else a[..|a| - 1] + [IHave(b[0].bitmask, a[|a| - 1].ids + b[0].ids)] + b[1..]
  }

  function MergeControl(a: Control, b: Control): Control {
    Control(a.graft + b.graft, a.prune + b.prune, MergeIWant(a.iwant, b.iwant), MergeIHave(a.ihave, b.ihave),
            a.idontwant + b.idontwant)
  }

  /** The two RPCs as one. */
  function Plus(r: Rpc, x: Rpc): Rpc {
    Rpc(r.publish + x.publish, r.subscriptions + x.subscriptions,
        if x.control.None? then r.control
        else Some(MergeControl(if r.control.Some? then r.control.value else NO_CONTROL, x.control.value)))
  }

  /** A thing is added to the last RPC if that stays within the limit, and otherwise
      starts another. A frame that is there already is not added again. */
  function Step(size: SizeOf, limit: int, out: seq<Rpc>, x: Thing): (r: seq<Rpc>)
    requires out != []
    ensures r != []
  {
    var grown := Plus(Last(out), Alone(x));
    if grown == Last(out) then out
    else if size(grown) > limit then out + [Alone(x)]
    else out[..|out| - 1] + [grown]
  }

  function Fold(size: SizeOf, limit: int, out: seq<Rpc>, xs: seq<Thing>): (r: seq<Rpc>)
    requires out != []
    ensures r != []
  {
    if xs == [] then out else Step(size, limit, Fold(size, limit, out, xs[..|xs| - 1]), xs[|xs| - 1])
  }

  lemma PlusMessage(r: Rpc, m: Bytes)
    ensures Plus(r, Alone(Message(m))) == r.(publish := r.publish + [m]) != r
  {
    assert r.subscriptions + [] == r.subscriptions;
  }

  lemma PlusSubscription(r: Rpc, b: Bytes)
    ensures Plus(r, Alone(Subscription(b))) == r.(subscriptions := r.subscriptions + [b]) != r
  {
    assert r.publish + [] == r.publish;
  }

  lemma PlusControl(r: Rpc, c: Control)
    ensures Plus(r, WithControl(EMPTY, c)) ==
            WithControl(r, MergeControl(if r.control.Some? then r.control.value else NO_CONTROL, c))
  {
    assert r.publish + [] == r.publish && r.subscriptions + [] == r.subscriptions;
  }

  /** Adding one field leaves the others. */
  lemma MergeOne(c: Control, d: Control)
    ensures d.graft == [] ==> c.graft + d.graft == c.graft
    ensures d.prune == [] ==> c.prune + d.prune == c.prune
    ensures d.idontwant == [] ==> c.idontwant + d.idontwant == c.idontwant
    ensures d.ihave == [] ==> MergeIHave(c.ihave, d.ihave) == c.ihave
    ensures MergeControl(NO_CONTROL, NO_CONTROL) == NO_CONTROL
  {
  }

  lemma PlusOpenControl(r: Rpc)
    ensures Plus(r, Alone(OpenControl)) == if r.control.Some? then r else WithControl(r, NO_CONTROL)
  {
    PlusControl(r, NO_CONTROL);
    MergeOne(if r.control.Some? then r.control.value else NO_CONTROL, NO_CONTROL);
  }

  lemma PlusGraft(r: Rpc, g: Bytes)
    requires r.control.Some?
    ensures var c := r.control.value; Plus(r, Alone(Graft(g))) == WithControl(r, c.(graft := c.graft + [g])) != r
  {
    PlusControl(r, NO_CONTROL.(graft := [g]));
    MergeOne(r.control.value, NO_CONTROL.(graft := [g]));
  }

  lemma PlusPrune(r: Rpc, p: Bytes)
    requires r.control.Some?
    ensures var c := r.control.value; Plus(r, Alone(Prune(p))) == WithControl(r, c.(prune := c.prune + [p])) != r
  {
    PlusControl(r, NO_CONTROL.(prune := [p]));
    MergeOne(r.control.value, NO_CONTROL.(prune := [p]));
  }

  lemma PlusIWant(r: Rpc, ids: seq<Bytes>)
    requires r.control.Some? && |r.control.value.iwant| <= 1
    ensures var c := r.control.value;
            Plus(r, WithControl(EMPTY, NO_CONTROL.(iwant := [ids]))) ==
            WithControl(r, c.(iwant := [if c.iwant == [] then ids else c.iwant[0] + ids]))
  {
    PlusControl(r, NO_CONTROL.(iwant := [ids]));
    MergeOne(r.control.value, NO_CONTROL.(iwant := [ids]));
  }

  /** The frame of an IWANT is added once, an id always. */
  lemma PlusWants(r: Rpc, id: Bytes)
    requires r.control.Some? && |r.control.value.iwant| <= 1
    ensures var c := r.control.value;
            && Plus(r, Alone(OpenIWant)) == (if c.iwant == [] then WithControl(r, c.(iwant := [[]])) else r)
            && (c.iwant != [] ==>
                  Plus(r, Alone(Want(id))) == WithControl(r, c.(iwant := [c.iwant[0] + [id]])) != r)
  {
    PlusIWant(r, []);
    PlusIWant(r, [id]);
    var c := r.control.value;
    if c.iwant != [] {
      assert c.iwant == [c.iwant[0]] && c.iwant[0] + [] == c.iwant[0];
      assert |c.iwant[0] + [id]| != |c.iwant[0]|;
    }
  }

  lemma PlusIHave(r: Rpc, b: Bytes, ids: seq<Bytes>)
    requires r.control.Some?
    ensures var c := r.control.value;
            Plus(r, WithControl(EMPTY, NO_CONTROL.(ihave := [IHave(b, ids)]))) ==
            WithControl(r, c.(ihave := MergeIHave(c.ihave, [IHave(b, ids)])))
  {
    PlusControl(r, NO_CONTROL.(ihave := [IHave(b, ids)]));
    MergeOne(r.control.value, NO_CONTROL.(ihave := [IHave(b, ids)]));
  }

  /** The frame of an IHAVE is added where the last one is for another bitmask. */
  lemma PlusHaves(r: Rpc, b: Bytes, id: Bytes)
    requires r.control.Some?
    ensures var c := r.control.value;
            && Plus(r, Alone(OpenIHave(b))) ==
               (if EndsWith(r, b) then r else WithControl(r, c.(ihave := c.ihave + [IHave(b, [])])))
            && (EndsWith(r, b) ==>
                  var n := |c.ihave| - 1;
                  Plus(r, Alone(Have(b, id))) ==
                  WithControl(r, c.(ihave := c.ihave[..n] + [IHave(b, c.ihave[n].ids + [id])])) != r)
  {
    PlusIHave(r, b, []);
    PlusIHave(r, b, [id]);
    var c := r.control.value;
    if EndsWith(r, b) {
      var n := |c.ihave| - 1;
      var last := c.ihave[n];
      assert last == IHave(b, last.ids) && last.ids + [] == last.ids;
      assert [IHave(b, [])][1..] == [] && [IHave(b, [id])][1..] == [];
      assert c.ihave[..n] + [last] == c.ihave;
      assert MergeIHave(c.ihave, [IHave(b, [])]) == c.ihave;
      var grown := c.ihave[..n] + [IHave(b, last.ids + [id])];
      assert MergeIHave(c.ihave, [IHave(b, [id])]) == grown && grown[n] != c.ihave[n];
    }
  }

  lemma FoldNone(size: SizeOf, limit: int, out: seq<Rpc>)
    requires out != []
    ensures Fold(size, limit, out, []) == out
  {
  }

  lemma FoldNext(size: SizeOf, limit: int, out: seq<Rpc>, xs: seq<Thing>, x: Thing)
    requires out != []
    ensures Fold(size, limit, out, xs + [x]) == Step(size, limit, Fold(size, limit, out, xs), x)
  {
    assert (xs + [x])[..|xs|] == xs;
  }

  lemma {:induction false} FoldSplit(size: SizeOf, limit: int, out: seq<Rpc>, xs: seq<Thing>, ys: seq<Thing>)
    requires out != []
    ensures Fold(size, limit, out, xs + ys) == Fold(size, limit, Fold(size, limit, out, xs), ys)
  {
    hide Fold, Step;
    var mid := Fold(size, limit, out, xs);
    if ys == [] {
      assert xs + ys == xs;
      FoldNone(size, limit, mid);
    } else {
      var init, last := ys[..|ys| - 1], ys[|ys| - 1];
      FoldSplit(size, limit, out, xs, init);
      assert xs + ys == (xs + init) + [last] && ys == init + [last];
      FoldNext(size, limit, out, xs + init, last);
      FoldNext(size, limit, mid, init, last);
    }
  }

  // ------------------------------------------------------------------ what is merged

  ghost predicate IWantWithin(a: seq<seq<Bytes>>, b: seq<seq<Bytes>>) {
    a == [] || (|b| > 0 && |a| == 1 && a[0] <= b[0])
  }

  ghost predicate IHaveWithin(a: seq<IHave>, b: seq<IHave>) {
    a == [] ||
    var n := |a| - 1;
    n < |b| && a[..n] == b[..n] && a[n].bitmask == b[n].bitmask && a[n].ids <= b[n].ids
  }

  ghost predicate ControlWithin(a: Control, b: Control) {
    && a.graft <= b.graft && a.prune <= b.prune && IWantWithin(a.iwant, b.iwant) && IHaveWithin(a.ihave, b.ihave)
  }

  /** b holds what a holds, and in the same places. */
  ghost predicate Within(a: Rpc, b: Rpc) {
    && a.publish <= b.publish && a.subscriptions <= b.subscriptions
    && (a.control.Some? ==> b.control.Some? && ControlWithin(a.control.value, b.control.value))
  }

  /** There was no room in a for the first thing of b. */
  ghost predicate NoRoom(size: SizeOf, limit: int, a: Rpc, b: Rpc) {
    exists x :: Within(Alone(x), b) && size(Plus(a, Alone(x))) > limit
  }

  /** No RPC could have taken the first thing of the next one. */
  ghost predicate Crowded(size: SizeOf, limit: int, out: seq<Rpc>) {
    forall i {:trigger out[i]} :: 0 <= i < |out| - 1 ==> NoRoom(size, limit, out[i], out[i + 1])
  }

  lemma FewCrowded(size: SizeOf, limit: int)
    ensures forall out :: |out| <= 1 ==> Crowded(size, limit, out)
  {
  }

  lemma WithinSame(r: Rpc)
    requires Tidy(r)
    ensures Within(r, r)
  {
  }

  lemma AloneTidy(x: Thing)
    ensures Tidy(Alone(x)) && Within(Alone(x), Alone(x))
  {
    WithinSame(Alone(x));
  }

  lemma IWantGrows(a: seq<seq<Bytes>>, r: seq<seq<Bytes>>, x: seq<seq<Bytes>>)
    requires IWantWithin(a, r)
    ensures IWantWithin(a, MergeIWant(r, x))
  {
  }

  lemma IHaveGrows(a: seq<IHave>, r: seq<IHave>, x: seq<IHave>)
    requires IHaveWithin(a, r)
    ensures IHaveWithin(a, MergeIHave(r, x))
  {
    if a != [] {
      var n, m := |a| - 1, MergeIHave(r, x);
      assert forall i :: 0 <= i < |r| - 1 ==> m[i] == r[i];
      assert m[..n] == r[..n];
    }
  }

  /** What an RPC holds it still holds after more was added. */
  lemma WithinGrows(a: Rpc, r: Rpc, x: Rpc)
    requires Within(a, r)
    ensures Within(a, Plus(r, x))
  {
    if a.control.Some? && x.control.Some? {
      IWantGrows(a.control.value.iwant, r.control.value.iwant, x.control.value.iwant);
      IHaveGrows(a.control.value.ihave, r.control.value.ihave, x.control.value.ihave);
    }
  }

  lemma StepCrowded(size: SizeOf, limit: int, out: seq<Rpc>, x: Thing)
    requires out != [] && Crowded(size, limit, out)
    ensures Crowded(size, limit, Step(size, limit, out, x))
  {
    hide Plus, Alone, Within;
    var r, n := Step(size, limit, out, x), |out| - 1;
    AloneTidy(x);
    forall i {:trigger r[i]} | 0 <= i < |r| - 1
      ensures NoRoom(size, limit, r[i], r[i + 1])
    {
      if i < n {
        assert r[i] == out[i] && NoRoom(size, limit, out[i], out[i + 1]);
        var y :| Within(Alone(y), out[i + 1]) && size(Plus(out[i], Alone(y))) > limit;
        WithinGrows(Alone(y), out[i + 1], Alone(x));
        assert Within(Alone(y), r[i + 1]);
      } else {
        assert r[i] == Last(out) && r[i + 1] == Alone(x);
        assert Within(Alone(x), r[i + 1]) && size(Plus(r[i], Alone(x))) > limit;
      }
    }
  }

  lemma {:induction false} FoldCrowded(size: SizeOf, limit: int, xs: seq<Thing>)
    ensures Crowded(size, limit, Fold(size, limit, [EMPTY], xs))
  {
    hide Step;
    if xs != [] {
      FoldCrowded(size, limit, xs[..|xs| - 1]);
      StepCrowded(size, limit, Fold(size, limit, [EMPTY], xs[..|xs| - 1]), xs[|xs| - 1]);
    }
  }

  /** All the things in one RPC. */
  function Merged(xs: seq<Thing>): Rpc {
    if xs == [] then EMPTY else Plus(Merged(xs[..|xs| - 1]), Alone(xs[|xs| - 1]))
  }

  /** Every RPC on the way to the whole is within the limit. */
  ghost predicate Roomy(size: SizeOf, limit: int, xs: seq<Thing>) {
    forall k {:trigger Merged(xs[..k])} :: 0 <= k <= |xs| ==> size(Merged(xs[..k])) <= limit
  }

  /** Then nothing is split. */
  lemma {:induction false} RoomyFits(size: SizeOf, limit: int, xs: seq<Thing>)
    ensures Roomy(size, limit, xs) ==> Fold(size, limit, [EMPTY], xs) == [Merged(xs)]
  {
    hide Plus, Alone;
    if xs != [] && Roomy(size, limit, xs) {
      var init := xs[..|xs| - 1];
      forall k | 0 <= k <= |init| ensures size(Merged(init[..k])) <= limit {
        assert init[..k] == xs[..k];
      }
      RoomyFits(size, limit, init);
      assert xs[..|xs|] == xs;
      assert size(Merged(xs[..|xs|])) <= limit;
    }
  }

  /** An RPC that holds more is no smaller. */
  ghost predicate Monotone(size: SizeOf) {
    forall a, b :: Within(a, b) ==> size(a) <= size(b)
  }

  lemma IWantBoth(r: seq<seq<Bytes>>, a: seq<seq<Bytes>>, b: seq<seq<Bytes>>)
    requires IWantWithin(a, b) && |r| <= 1
    ensures IWantWithin(MergeIWant(r, a), MergeIWant(r, b))
  {
  }

  lemma IHaveBoth(r: seq<IHave>, a: seq<IHave>, b: seq<IHave>)
    requires IHaveWithin(a, b) && |a| <= 1
    ensures IHaveWithin(MergeIHave(r, a), MergeIHave(r, b))
  {
    if a == [] {
      assert MergeIHave(r, a) == r;
      if r != [] {
        IHaveGrows(r, r, b);
      }
    } else {
      var x, y := MergeIHave(r, a), MergeIHave(r, b);
      var n := |x| - 1;
      assert a[0].bitmask == b[0].bitmask && a[1..] == [];
      assert x[..n] == y[..n];
    }
  }

  lemma WithinBoth(r: Rpc, a: Rpc, b: Rpc)
    requires Within(a, b) && Tidy(r) && (a.control.Some? ==> |a.control.value.ihave| <= 1)
    ensures Within(Plus(r, a), Plus(r, b))
  {
    if a.control.Some? {
      var c := if r.control.Some? then r.control.value else NO_CONTROL;
      IWantBoth(c.iwant, a.control.value.iwant, b.control.value.iwant);
      IHaveBoth(c.ihave, a.control.value.ihave, b.control.value.ihave);
    } else if b.control.Some? && r.control.Some? {
      WithinSame(r);
      WithinGrows(r, r, b);
    }
  }

  /** So no two neighbours could have been merged. */
  lemma NeighboursApart(size: SizeOf, limit: int, out: seq<Rpc>, i: nat)
    requires Monotone(size) && Crowded(size, limit, out) && i + 1 < |out| && Tidy(out[i])
    ensures size(Plus(out[i], out[i + 1])) > limit
  {
    hide Plus, Within;
    assert NoRoom(size, limit, out[i], out[i + 1]);
    var x :| Within(Alone(x), out[i + 1]) && size(Plus(out[i], Alone(x))) > limit;
    WithinBoth(out[i], Alone(x), out[i + 1]);
  }

  /** No two neighbours fit in one RPC. */
  ghost predicate Apart(size: SizeOf, limit: int, out: seq<Rpc>) {
    forall i {:trigger out[i]} :: 0 <= i < |out| - 1 ==> size(Plus(out[i], out[i + 1])) > limit
  }

  lemma AllApart(size: SizeOf, limit: int, out: seq<Rpc>)
    requires Monotone(size) && Packed(size, limit, out) && Crowded(size, limit, out)
    ensures Apart(size, limit, out)
  {
    hide Monotone, Crowded, Tidy;
    forall i {:trigger out[i]} | 0 <= i < |out| - 1 ensures size(Plus(out[i], out[i + 1])) > limit {
      NeighboursApart(size, limit, out, i);
    }
  }

  lemma {:induction false} MergedTidy(xs: seq<Thing>)
    ensures Tidy(Merged(xs))
  {
    if xs != [] {
      MergedTidy(xs[..|xs| - 1]);
    }
  }

  lemma {:induction false} MergedWithin(xs: seq<Thing>, k: nat)
    requires k <= |xs|
    ensures Within(Merged(xs[..k]), Merged(xs))
  {
    hide Plus, Within;
    if k == |xs| {
      assert xs[..k] == xs;
      MergedTidy(xs);
      WithinSame(Merged(xs));
    } else {
      var init := xs[..|xs| - 1];
      assert init[..k] == xs[..k];
      MergedWithin(init, k);
      WithinGrows(Merged(xs[..k]), Merged(init), Alone(xs[|xs| - 1]));
    }
  }

  /** And if the whole is within the limit, it is sent as one. */
  lemma WholeFits(size: SizeOf, limit: int, xs: seq<Thing>)
    requires Monotone(size)
    ensures Fold(size, limit, [EMPTY], xs) == [Merged(xs)] <== size(Merged(xs)) <= limit
  {
    if size(Merged(xs)) <= limit {
      forall k | 0 <= k <= |xs| ensures size(Merged(xs[..k])) <= limit {
        MergedWithin(xs, k);
      }
      RoomyFits(size, limit, xs);
    }
  }

  lemma FoldFrame(size: SizeOf, limit: int, out: seq<Rpc>, xs: seq<Thing>, x: Thing, ys: seq<Thing>)
    requires out != []
    ensures Fold(size, limit, out, xs + ([x] + ys)) ==
            Fold(size, limit, Step(size, limit, Fold(size, limit, out, xs), x), ys)
  {
    hide Fold, Step;
    assert xs + ([x] + ys) == (xs + [x]) + ys;
    FoldSplit(size, limit, out, xs + [x], ys);
    FoldNext(size, limit, out, xs, x);
  }

  lemma FoldControl(size: SizeOf, limit: int, out: seq<Rpc>, c: Control)
    requires out != []
    ensures Fold(size, limit, out, ControlThings(c)) ==
            var r := Fold(size, limit, Step(size, limit, out, OpenControl), Grafts(c.graft));
            var r' := Fold(size, limit, r, Prunes(c.prune));
            Fold(size, limit, Fold(size, limit, r', IWants(c.iwant)), IHaves(c.ihave))
  {
    hide Fold, Step, Grafts, Prunes, IWants, IHaves;
    var a, g, p, w := [OpenControl], Grafts(c.graft), Prunes(c.prune), IWants(c.iwant);
    FoldNone(size, limit, out);
    FoldNext(size, limit, out, [], OpenControl);
    assert [] + a == a;
    FoldSplit(size, limit, out, a, g);
    FoldSplit(size, limit, out, a + g, p);
    FoldSplit(size, limit, out, a + g + p, w);
    FoldSplit(size, limit, out, a + g + p + w, IHaves(c.ihave));
  }

  lemma FoldRpc(size: SizeOf, limit: int, out: seq<Rpc>, e: Rpc)
    requires out != []
    ensures Fold(size, limit, out, Things(e)) ==
            var r := Fold(size, limit, Fold(size, limit, out, Messages(e.publish)), Subscriptions(e.subscriptions));
            if e.control.Some? then Fold(size, limit, r, ControlThings(e.control.value)) else r
  {
    hide Fold, Messages, Subscriptions, ControlThings;
    var m, ss := Messages(e.publish), Subscriptions(e.subscriptions);
    FoldSplit(size, limit, out, m, ss);
    if e.control.Some? {
      FoldSplit(size, limit, out, m + ss, ControlThings(e.control.value));
    } else {
      assert m + ss + [] == m + ss;
    }
  }

  // ------------------------------------------------------------------ packing

  ghost predicate Fits(size: SizeOf, limit: int, r: Rpc) {
    size(r) <= limit || Items(ContentOf(r)) <= 1
  }

  /** No IDONTWANT and a single IWANT at most. */
  ghost predicate Tidy(r: Rpc) {
    r.control.Some? ==> r.control.value.idontwant == [] && |r.control.value.iwant| <= 1
  }

  /** The list being packed: not empty, every RPC fits. */
  ghost predicate Packed(size: SizeOf, limit: int, rs: seq<Rpc>) {
    rs != [] && forall i {:trigger rs[i]} :: 0 <= i < |rs| ==> Fits(size, limit, rs[i]) && Tidy(rs[i])
  }

  function Last(out: seq<Rpc>): Rpc
    requires out != []
  {
    out[|out| - 1]
  }

  /** Grows the last RPC if the grown one is within the limit, and otherwise
      leaves it and starts another. */
  method Push(size: SizeOf, limit: int, out: seq<Rpc>, grown: Rpc, started: Rpc, ghost x: Thing, ghost what: Content)
    returns (r: seq<Rpc>)
    requires Packed(size, limit, out) && Tidy(grown) && Tidy(started)
    requires started == Alone(x) && grown == Plus(Last(out), started) != Last(out)
    requires ContentOf(grown) == Join(ContentOf(Last(out)), what) && ContentOf(started) == what && Items(what) <= 1
    ensures Packed(size, limit, r) && ContentAll(r) == Join(ContentAll(out), what)
    ensures r == Step(size, limit, out, x) && (Last(r) == grown || Last(r) == started)
  {
    hide Plus, Alone, ContentOf;
    if size(grown) > limit {
      r := out + [started];
      assert r[..|r| - 1] == out;
    } else {
      r := out[..|out| - 1] + [grown];
      assert r[..|r| - 1] == out[..|out| - 1];
      JoinLaws(ContentAll(out[..|out| - 1]), ContentOf(Last(out)), what);
    }
  }

  function Published(ms: seq<Bytes>): Content { NOTHING.(publish := ms) }
  function Subscribed(ss: seq<Bytes>): Content { NOTHING.(subscriptions := ss) }
  function Grafted(gs: seq<Bytes>): Content { NOTHING.(grafts := gs) }
  function Pruned(ps: seq<Bytes>): Content { NOTHING.(prunes := ps) }
  function Wanted(ids: seq<Bytes>): Content { NOTHING.(wants := ids) }
  function Had(hs: seq<(Bytes, Bytes)>): Content { NOTHING.(haves := hs) }

  method PushPublish(size: SizeOf, limit: int, out: seq<Rpc>, msgs: seq<Bytes>) returns (r: seq<Rpc>)
    requires Packed(size, limit, out)
    ensures Packed(size, limit, r) && ContentAll(r) == Join(ContentAll(out), Published(msgs))
    ensures r == Fold(size, limit, out, Messages(msgs))
  {
    hide ContentAll, Fold, Step, Plus;
    r := out;
    FoldNone(size, limit, out);
    assert Messages(msgs[..0]) == [];
    JoinLaws(ContentAll(out), NOTHING, NOTHING);
    for i := 0 to |msgs|
      invariant Packed(size, limit, r) && ContentAll(r) == Join(ContentAll(out), Published(msgs[..i]))
      invariant r == Fold(size, limit, out, Messages(msgs[..i]))
    {
      var last := Last(r);
      PlusMessage(last, msgs[i]);
      FoldNext(size, limit, out, Messages(msgs[..i]), Message(msgs[i]));
      assert Messages(msgs[..i + 1]) == Messages(msgs[..i]) + [Message(msgs[i])];
      r := Push(size, limit, r, last.(publish := last.publish + [msgs[i]]), EMPTY.(publish := [msgs[i]]),
                Message(msgs[i]), Published([msgs[i]]));
      JoinLaws(ContentAll(out), Published(msgs[..i]), Published([msgs[i]]));
      assert msgs[..i + 1] == msgs[..i] + [msgs[i]];
    }
    assert msgs[..|msgs|] == msgs;
  }

  method PushSubscriptions(size: SizeOf, limit: int, out: seq<Rpc>, subs: seq<Bytes>) returns (r: seq<Rpc>)
    requires Packed(size, limit, out)
    ensures Packed(size, limit, r) && ContentAll(r) == Join(ContentAll(out), Subscribed(subs))
    ensures r == Fold(size, limit, out, Subscriptions(subs))
  {
    hide ContentAll, Fold, Step, Plus;
    r := out;
    FoldNone(size, limit, out);
    assert Subscriptions(subs[..0]) == [];
    JoinLaws(ContentAll(out), NOTHING, NOTHING);
    for i := 0 to |subs|
      invariant Packed(size, limit, r) && ContentAll(r) == Join(ContentAll(out), Subscribed(subs[..i]))
      invariant r == Fold(size, limit, out, Subscriptions(subs[..i]))
    {
      var last := Last(r);
      PlusSubscription(last, subs[i]);
      FoldNext(size, limit, out, Subscriptions(subs[..i]), Subscription(subs[i]));
      assert Subscriptions(subs[..i + 1]) == Subscriptions(subs[..i]) + [Subscription(subs[i])];
      r := Push(size, limit, r, last.(subscriptions := last.subscriptions + [subs[i]]),
                EMPTY.(subscriptions := [subs[i]]), Subscription(subs[i]), Subscribed([subs[i]]));
      JoinLaws(ContentAll(out), Subscribed(subs[..i]), Subscribed([subs[i]]));
      assert subs[..i + 1] == subs[..i] + [subs[i]];
    }
    assert subs[..|subs|] == subs;
  }

  /** Makes sure that the last RPC has a control message. */
  method StartControl(size: SizeOf, limit: int, out: seq<Rpc>) returns (r: seq<Rpc>)
    requires Packed(size, limit, out)
    ensures Packed(size, limit, r) && ContentAll(r) == ContentAll(out) && Last(r).control.Some?
    ensures r == Step(size, limit, out, OpenControl)
  {
    hide Plus;
    r := out;
    PlusOpenControl(Last(out));
    if Last(out).control.None? {
      JoinLaws(ContentOf(Last(out)), NOTHING, NOTHING);
      JoinLaws(ContentAll(out), NOTHING, NOTHING);
      r := Push(size, limit, out, Last(out).(control := Some(NO_CONTROL)), EMPTY.(control := Some(NO_CONTROL)),
                OpenControl, NOTHING);
    }
  }

  function WithControl(r: Rpc, c: Control): Rpc {
    r.(control := Some(c))
  }

  lemma NoneWanted()
    ensures Wants([]) == [] && Haves([]) == []
  {
  }

  method PushGrafts(size: SizeOf, limit: int, out: seq<Rpc>, grafts: seq<Bytes>) returns (r: seq<Rpc>)
    requires Packed(size, limit, out) && Last(out).control.Some?
    ensures Packed(size, limit, r) && Last(r).control.Some? && ContentAll(r) == Join(ContentAll(out), Grafted(grafts))
    ensures r == Fold(size, limit, out, Grafts(grafts))
  {
    hide ContentAll, Wants, Haves, Fold, Step, Plus;
    r := out;
    FoldNone(size, limit, out);
    assert Grafts(grafts[..0]) == [];
    NoneWanted();
    JoinLaws(ContentAll(out), NOTHING, NOTHING);
    for i := 0 to |grafts|
      invariant Packed(size, limit, r) && Last(r).control.Some?
                && ContentAll(r) == Join(ContentAll(out), Grafted(grafts[..i]))
      invariant r == Fold(size, limit, out, Grafts(grafts[..i]))
    {
      var c := Last(r).control.value;
      PlusGraft(Last(r), grafts[i]);
      FoldNext(size, limit, out, Grafts(grafts[..i]), Graft(grafts[i]));
      assert Grafts(grafts[..i + 1]) == Grafts(grafts[..i]) + [Graft(grafts[i])];
      r := Push(size, limit, r, WithControl(Last(r), c.(graft := c.graft + [grafts[i]])),
                WithControl(EMPTY, NO_CONTROL.(graft := [grafts[i]])), Graft(grafts[i]), Grafted([grafts[i]]));
      JoinLaws(ContentAll(out), Grafted(grafts[..i]), Grafted([grafts[i]]));
      assert grafts[..i + 1] == grafts[..i] + [grafts[i]];
    }
    assert grafts[..|grafts|] == grafts;
  }

  method PushPrunes(size: SizeOf, limit: int, out: seq<Rpc>, prunes: seq<Bytes>) returns (r: seq<Rpc>)
    requires Packed(size, limit, out) && Last(out).control.Some?
    ensures Packed(size, limit, r) && Last(r).control.Some? && ContentAll(r) == Join(ContentAll(out), Pruned(prunes))
    ensures r == Fold(size, limit, out, Prunes(prunes))
  {
    hide ContentAll, Wants, Haves, Fold, Step, Plus;
    r := out;
    FoldNone(size, limit, out);
    assert Prunes(prunes[..0]) == [];
    NoneWanted();
    JoinLaws(ContentAll(out), NOTHING, NOTHING);
    for i := 0 to |prunes|
      invariant Packed(size, limit, r) && Last(r).control.Some?
                && ContentAll(r) == Join(ContentAll(out), Pruned(prunes[..i]))
      invariant r == Fold(size, limit, out, Prunes(prunes[..i]))
    {
      var c := Last(r).control.value;
      PlusPrune(Last(r), prunes[i]);
      FoldNext(size, limit, out, Prunes(prunes[..i]), Prune(prunes[i]));
      assert Prunes(prunes[..i + 1]) == Prunes(prunes[..i]) + [Prune(prunes[i])];
      r := Push(size, limit, r, WithControl(Last(r), c.(prune := c.prune + [prunes[i]])),
                WithControl(EMPTY, NO_CONTROL.(prune := [prunes[i]])), Prune(prunes[i]), Pruned([prunes[i]]));
      JoinLaws(ContentAll(out), Pruned(prunes[..i]), Pruned([prunes[i]]));
      assert prunes[..i + 1] == prunes[..i] + [prunes[i]];
    }
    assert prunes[..|prunes|] == prunes;
  }

  lemma WantsOne(x: seq<Bytes>, id: Bytes)
    ensures Wants([x]) == x && Wants([x + [id]]) == x + [id] && Wants([[id]]) == [id] && Wants([[]]) == []
  {
    assert forall y: seq<Bytes> :: [y][..0] == [];
  }

  /** Makes sure that the last RPC has its IWANT. */
  method StartIWant(size: SizeOf, limit: int, out: seq<Rpc>) returns (r: seq<Rpc>)
    requires Packed(size, limit, out) && Last(out).control.Some?
    ensures Packed(size, limit, r) && ContentAll(r) == ContentAll(out)
    ensures Last(r).control.Some? && |Last(r).control.value.iwant| == 1 && r == Step(size, limit, out, OpenIWant)
  {
    hide Plus;
    r := out;
    var c := Last(out).control.value;
    PlusWants(Last(out), []);
    if |c.iwant| == 0 {
      JoinLaws(ContentOf(Last(out)), NOTHING, NOTHING);
      JoinLaws(ContentAll(out), NOTHING, NOTHING);
      WantsOne([], []);
      r := Push(size, limit, out, WithControl(Last(out), c.(iwant := [[]])),
                WithControl(EMPTY, NO_CONTROL.(iwant := [[]])), OpenIWant, NOTHING);
    }
  }

  method PushWantIds(size: SizeOf, limit: int, out: seq<Rpc>, ids: seq<Bytes>) returns (r: seq<Rpc>)
    requires Packed(size, limit, out) && Last(out).control.Some? && |Last(out).control.value.iwant| == 1
    ensures Packed(size, limit, r) && Last(r).control.Some? && ContentAll(r) == Join(ContentAll(out), Wanted(ids))
    ensures r == Fold(size, limit, out, WantIds(ids))
  {
    hide ContentAll, Wants, Haves, Fold, Step, Plus;
    r := out;
    NoneWanted();
    FoldNone(size, limit, out);
    assert WantIds(ids[..0]) == [];
    JoinLaws(ContentAll(out), NOTHING, NOTHING);
    for i := 0 to |ids|
      invariant Packed(size, limit, r) && Last(r).control.Some? && |Last(r).control.value.iwant| == 1
      invariant ContentAll(r) == Join(ContentAll(out), Wanted(ids[..i]))
      invariant r == Fold(size, limit, out, WantIds(ids[..i]))
    {
      var c := Last(r).control.value;
      PlusWants(Last(r), ids[i]);
      FoldNext(size, limit, out, WantIds(ids[..i]), Want(ids[i]));
      assert WantIds(ids[..i + 1]) == WantIds(ids[..i]) + [Want(ids[i])];
      WantsOne(c.iwant[0], ids[i]);
      assert c.iwant == [c.iwant[0]];
      r := Push(size, limit, r, WithControl(Last(r), c.(iwant := [c.iwant[0] + [ids[i]]])),
                WithControl(EMPTY, NO_CONTROL.(iwant := [[ids[i]]])), Want(ids[i]), Wanted([ids[i]]));
      JoinLaws(ContentAll(out), Wanted(ids[..i]), Wanted([ids[i]]));
      assert ids[..i + 1] == ids[..i] + [ids[i]];
    }
    assert ids[..|ids|] == ids;
  }

  method PushIWants(size: SizeOf, limit: int, out: seq<Rpc>, iwants: seq<seq<Bytes>>) returns (r: seq<Rpc>)
    requires Packed(size, limit, out) && Last(out).control.Some?
    ensures Packed(size, limit, r) && Last(r).control.Some?
            && ContentAll(r) == Join(ContentAll(out), Wanted(Wants(iwants)))
    ensures r == Fold(size, limit, out, IWants(iwants))
  {
    hide ContentAll, Fold, Step;
    r := out;
    FoldNone(size, limit, out);
    JoinLaws(ContentAll(out), NOTHING, NOTHING);
    for i := 0 to |iwants|
      invariant Packed(size, limit, r) && Last(r).control.Some?
      invariant ContentAll(r) == Join(ContentAll(out), Wanted(Wants(iwants[..i])))
      invariant r == Fold(size, limit, out, IWants(iwants[..i]))
    {
      FoldFrame(size, limit, out, IWants(iwants[..i]), OpenIWant, WantIds(iwants[i]));
      r := StartIWant(size, limit, r);
      r := PushWantIds(size, limit, r, iwants[i]);
      JoinLaws(ContentAll(out), Wanted(Wants(iwants[..i])), Wanted(iwants[i]));
      assert iwants[..i + 1][..i] == iwants[..i];
    }
    assert iwants[..|iwants|] == iwants;
  }

  lemma HavesLast(hs: seq<IHave>, b: Bytes, ids: seq<Bytes>, id: Bytes)
    ensures Haves(hs + [IHave(b, [])]) == Haves(hs) && Haves([IHave(b, [])]) == []
    ensures Haves(hs + [IHave(b, ids + [id])]) == Haves(hs + [IHave(b, ids)]) + [(b, id)]
    ensures Haves([IHave(b, [id])]) == [(b, id)]
  {
    forall h: IHave
      ensures Haves(hs + [h]) == Haves(hs) + Pairs(h) && Haves([h]) == Pairs(h)
    {
      assert (hs + [h])[..|hs|] == hs && [h][..0] == [];
    }
    assert Pairs(IHave(b, ids + [id])) == Pairs(IHave(b, ids)) + [(b, id)];
    assert Pairs(IHave(b, [id])) == [(b, id)];
  }

  /** Makes sure that the last RPC ends in an IHAVE for the bitmask. */
  method StartIHave(size: SizeOf, limit: int, out: seq<Rpc>, b: Bytes) returns (r: seq<Rpc>)
    requires Packed(size, limit, out) && Last(out).control.Some?
    ensures Packed(size, limit, r) && ContentAll(r) == ContentAll(out)
    ensures EndsWith(Last(r), b) && r == Step(size, limit, out, OpenIHave(b))
  {
    hide Plus;
    r := out;
    var c := Last(out).control.value;
    PlusHaves(Last(out), b, []);
    if |c.ihave| == 0 || c.ihave[|c.ihave| - 1].bitmask != b {
      JoinLaws(ContentOf(Last(out)), NOTHING, NOTHING);
      JoinLaws(ContentAll(out), NOTHING, NOTHING);
      HavesLast(c.ihave, b, [], []);
      r := Push(size, limit, out, WithControl(Last(out), c.(ihave := c.ihave + [IHave(b, [])])),
                WithControl(EMPTY, NO_CONTROL.(ihave := [IHave(b, [])])), OpenIHave(b), NOTHING);
    }
  }

  ghost predicate EndsWith(r: Rpc, b: Bytes) {
    r.control.Some? && |r.control.value.ihave| > 0 && r.control.value.ihave[|r.control.value.ihave| - 1].bitmask == b
  }

  method PushHaveIds(size: SizeOf, limit: int, out: seq<Rpc>, b: Bytes, ids: seq<Bytes>) returns (r: seq<Rpc>)
    requires Packed(size, limit, out) && EndsWith(Last(out), b)
    ensures Packed(size, limit, r) && Last(r).control.Some?
            && ContentAll(r) == Join(ContentAll(out), Had(Pairs(IHave(b, ids))))
    ensures r == Fold(size, limit, out, HaveIds(b, ids))
  {
    hide ContentAll, Haves, Pairs, Fold, Step, Plus;
    r := out;
    FoldNone(size, limit, out);
    assert HaveIds(b, ids[..0]) == [];
    JoinLaws(ContentAll(out), NOTHING, NOTHING);
    PairsSplit(b, ids, 0);
    for i := 0 to |ids|
      invariant Packed(size, limit, r) && EndsWith(Last(r), b)
      invariant ContentAll(r) == Join(ContentAll(out), Had(Pairs(IHave(b, ids[..i]))))
      invariant r == Fold(size, limit, out, HaveIds(b, ids[..i]))
    {
      var c := Last(r).control.value;
      PlusHaves(Last(r), b, ids[i]);
      FoldNext(size, limit, out, HaveIds(b, ids[..i]), Have(b, ids[i]));
      assert HaveIds(b, ids[..i + 1]) == HaveIds(b, ids[..i]) + [Have(b, ids[i])];
      var n := |c.ihave| - 1;
      HavesLast(c.ihave[..n], b, c.ihave[n].ids, ids[i]);
      assert c.ihave == c.ihave[..n] + [IHave(b, c.ihave[n].ids)];
      r := Push(size, limit, r, WithControl(Last(r), c.(ihave := c.ihave[..n] + [IHave(b, c.ihave[n].ids + [ids[i]])])),
                WithControl(EMPTY, NO_CONTROL.(ihave := [IHave(b, [ids[i]])])), Have(b, ids[i]), Had([(b, ids[i])]));
      JoinLaws(ContentAll(out), Had(Pairs(IHave(b, ids[..i]))), Had([(b, ids[i])]));
      PairsSplit(b, ids, i + 1);
    }
    assert ids[..|ids|] == ids;
  }

  lemma PairsSplit(b: Bytes, ids: seq<Bytes>, i: nat)
    requires i <= |ids|
    ensures i == 0 ==> Pairs(IHave(b, ids[..i])) == []
    ensures i > 0 ==> Pairs(IHave(b, ids[..i])) == Pairs(IHave(b, ids[..i - 1])) + [(b, ids[i - 1])]
  {
  }

  method PushIHaves(size: SizeOf, limit: int, out: seq<Rpc>, ihaves: seq<IHave>) returns (r: seq<Rpc>)
    requires Packed(size, limit, out) && Last(out).control.Some?
    ensures Packed(size, limit, r) && Last(r).control.Some?
            && ContentAll(r) == Join(ContentAll(out), Had(Haves(ihaves)))
    ensures r == Fold(size, limit, out, IHaves(ihaves))
  {
    hide ContentAll, Pairs, Fold, Step;
    r := out;
    FoldNone(size, limit, out);
    JoinLaws(ContentAll(out), NOTHING, NOTHING);
    for i := 0 to |ihaves|
      invariant Packed(size, limit, r) && Last(r).control.Some?
      invariant ContentAll(r) == Join(ContentAll(out), Had(Haves(ihaves[..i])))
      invariant r == Fold(size, limit, out, IHaves(ihaves[..i]))
    {
      FoldFrame(size, limit, out, IHaves(ihaves[..i]), OpenIHave(ihaves[i].bitmask),
                HaveIds(ihaves[i].bitmask, ihaves[i].ids));
      r := StartIHave(size, limit, r, ihaves[i].bitmask);
      r := PushHaveIds(size, limit, r, ihaves[i].bitmask, ihaves[i].ids);
      assert IHave(ihaves[i].bitmask, ihaves[i].ids) == ihaves[i];
      JoinLaws(ContentAll(out), Had(Haves(ihaves[..i])), Had(Pairs(ihaves[i])));
      assert ihaves[..i + 1][..i] == ihaves[..i];
    }
    assert ihaves[..|ihaves|] == ihaves;
  }

  method PushControl(size: SizeOf, limit: int, out: seq<Rpc>, ctl: Control) returns (r: seq<Rpc>)
    requires Packed(size, limit, out)
    ensures Packed(size, limit, r)
    ensures ContentAll(r) == Join(ContentAll(out), ContentOf(EMPTY.(control := Some(ctl))))
    ensures r == Fold(size, limit, out, ControlThings(ctl))
  {
    hide ContentAll, Wants, Haves, Fold, Step, Grafts, Prunes, IWants, IHaves;
    FoldControl(size, limit, out, ctl);
    r := StartControl(size, limit, out);
    r := PushGrafts(size, limit, r, ctl.graft);
    r := PushPrunes(size, limit, r, ctl.prune);
    r := PushIWants(size, limit, r, ctl.iwant);
    r := PushIHaves(size, limit, r, ctl.ihave);
    JoinControl(ContentAll(out), ctl);
  }

  lemma JoinControl(c: Content, ctl: Control)
    ensures Join(Join(Join(Join(c, Grafted(ctl.graft)), Pruned(ctl.prune)), Wanted(Wants(ctl.iwant))),
                 Had(Haves(ctl.ihave)))
            == Join(c, ContentOf(EMPTY.(control := Some(ctl))))
  {
  }

  method PushRpc(size: SizeOf, limit: int, out: seq<Rpc>, elem: Rpc) returns (r: seq<Rpc>)
    requires Packed(size, limit, out)
    ensures Packed(size, limit, r) && ContentAll(r) == Join(ContentAll(out), ContentOf(elem))
    ensures r == Fold(size, limit, out, Things(elem))
  {
    hide ContentAll, Wants, Haves, Fold, Step, Messages, Subscriptions, ControlThings;
    FoldRpc(size, limit, out, elem);
    r := PushPublish(size, limit, out, elem.publish);
    r := PushSubscriptions(size, limit, r, elem.subscriptions);
    if elem.control.Some? {
      r := PushControl(size, limit, r, elem.control.value);
    }
    JoinRpc(ContentAll(out), elem);
  }

  lemma JoinRpc(c: Content, elem: Rpc)
    ensures Join(Join(Join(c, Published(elem.publish)), Subscribed(elem.subscriptions)),
                 if elem.control.Some? then ContentOf(EMPTY.(control := elem.control))
                 else NOTHING) == Join(c, ContentOf(elem))
  {
  }

  predicate FastPath(size: SizeOf, limit: int, elems: seq<Rpc>) {
    |elems| == 1 && size(elems[0]) < limit
  }

  /** appendOrMergeRPC from an empty slice: the publish messages, subscriptions,
      grafts, prunes, IWANT ids and IHAVE pairs come out as they went in, and every
      RPC is within the limit or holds one item at most. IDONTWANTs are lost unless
      the single RPC is returned as it is. */
  method AppendOrMerge(size: SizeOf, limit: int, elems: seq<Rpc>) returns (out: seq<Rpc>)
    ensures ContentAll(out) == ContentAll(elems)
    ensures forall r :: r in out ==> Fits(size, limit, r)
    ensures |elems| == 1 && size(elems[0]) < limit ==> out == elems
    ensures IDontWants(out) == IDontWants(elems) <==> FastPath(size, limit, elems) || IDontWants(elems) == []
    ensures !FastPath(size, limit, elems) ==> IDontWants(out) == []
    ensures elems != [] && !FastPath(size, limit, elems) ==> out == Fold(size, limit, [EMPTY], AllThings(elems))
    ensures Crowded(size, limit, out)
    ensures elems != [] && Roomy(size, limit, AllThings(elems)) ==> |out| == 1
    ensures Monotone(size) ==> Apart(size, limit, out)
    ensures Monotone(size) && elems != [] && size(Merged(AllThings(elems))) <= limit ==> |out| == 1
  {
    hide ContentAll, Wants, Haves, Fold, Things, Crowded, Roomy, Monotone;
    FewCrowded(size, limit);
    if |elems| == 0 {
      return [];
    }
    if |elems| == 1 && size(elems[0]) < limit {
      assert elems == [elems[0]];
      return [elems[0]];
    }
    out := [EMPTY];
    Initially(elems);
    FoldNone(size, limit, out);
    for i := 0 to |elems|
      invariant Packed(size, limit, out) && ContentAll(out) == ContentAll(elems[..i])
      invariant out == Fold(size, limit, [EMPTY], AllThings(elems[..i]))
    {
      FoldSplit(size, limit, [EMPTY], AllThings(elems[..i]), Things(elems[i]));
      assert elems[..i + 1][..i] == elems[..i];
      out := PushRpc(size, limit, out, elems[i]);
      ContentAppend(elems, i);
    }
    assert elems[..|elems|] == elems;
    NoIDontWants(out);
    FoldCrowded(size, limit, AllThings(elems));
    RoomyFits(size, limit, AllThings(elems));
    if Monotone(size) {
      AllApart(size, limit, out);
      WholeFits(size, limit, AllThings(elems));
    }
  }

  /** A second RPC is enough to lose an IDONTWANT, whatever the sizes. */
  method LosesIDontWant(size: SizeOf, limit: int, id: Bytes) returns (elems: seq<Rpc>, out: seq<Rpc>)
    ensures elems == [WithControl(EMPTY, NO_CONTROL.(idontwant := [id])), EMPTY] && IDontWants(elems) == [id]
    ensures ContentAll(out) == ContentAll(elems) && IDontWants(out) == []
  {
    elems := [WithControl(EMPTY, NO_CONTROL.(idontwant := [id])), EMPTY];
    assert elems[..1] == [elems[0]] && [elems[0]][..0] == [];
    assert IDontWants([elems[0]]) == [id];
    out := AppendOrMerge(size, limit, elems);
  }

  lemma Initially(elems: seq<Rpc>)
    ensures ContentAll([EMPTY]) == ContentAll(elems[..0]) && ContentOf(EMPTY) == NOTHING
  {
    assert [EMPTY][..0] == [];
  }

  lemma ContentAppend(elems: seq<Rpc>, i: nat)
    requires i < |elems|
    ensures ContentAll(elems[..i + 1]) == Join(ContentAll(elems[..i]), ContentOf(elems[i]))
  {
    assert elems[..i + 1][..i] == elems[..i];
  }

  lemma {:induction false} NoIDontWants(out: seq<Rpc>)
    requires forall i {:trigger out[i]} :: 0 <= i < |out| ==> Tidy(out[i])
    ensures IDontWants(out) == []
  {
    if out != [] {
      NoIDontWants(out[..|out| - 1]);
    }
  }
}
