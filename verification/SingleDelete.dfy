/**
 When SINGLEDEL resurrects data and when it does not. One key's whole history
 lives through writes, snapshots and compactions of arbitrary contiguous runs of
 it; if every SINGLEDEL is written where it is safe, the latest read and every
 open snapshot keep the value they should have.
 */
module SingleDelete {
  import opened Basics
  import opened Lsm
  import opened Compaction
  import opened CompactionReads
  import opened CompactionOrder

  const KEY: Key := 0

  /** With `format`, every compaction of the store knows SETWITHDEL; without, some
      may not. */
  datatype Params = Params(merge: MergeOp, keyLen: Key -> nat, format: bool)

  datatype UserWrite = UserWrite(kind: Kind, value: Value)

  datatype Store = Store(
    history: seq<Entry>,                    // newest first
    snapshots: map<nat, Option<Value>>,     // what each open snapshot must read
    writes: seq<UserWrite>,                 // all writes ever, oldest first
    nextSeq: nat)

  ghost function ReadAt(p: Params, h: seq<Entry>, s: nat): Option<Value> {
    Read(h, p.merge, KEY, s, {}, None)
  }

  // --------------------------------------------------------------------- steps

  predicate UserKind(kind: Kind) {
    !kind.SetWithDelete?
  }

  /** What the latest state must read. */
  function Latest(merge: MergeOp, ws: seq<UserWrite>): Option<Value> {
    if ws == [] then None
    else Apply(merge, ws[|ws| - 1].kind, ws[|ws| - 1].value, Latest(merge, ws[..|ws| - 1]))
  }

  ghost predicate Write(s: Store, s': Store, w: UserWrite) {
    && s.nextSeq + 1 < SEQ_MAX && UserKind(w.kind)
    && s' == Store([Point(KEY, s.nextSeq, w.kind, w.value)] + s.history, s.snapshots, s.writes + [w], s.nextSeq + 1)
  }

  ghost predicate OpenSnapshot(p: Params, s: Store, s': Store) {
    s' == s.(snapshots := s.snapshots[s.nextSeq := Latest(p.merge, s.writes)])
  }

  ghost predicate CloseSnapshot(s: Store, s': Store, at: nat) {
    at in s.snapshots && s' == s.(snapshots := s.snapshots - {at})
  }

  /** The compaction of a run. It may elide tombstones only at the bottom of the
      store, but need not do so there. */
  function RunConfig(p: Params, run: seq<Entry>, snapshots: seq<nat>, bottom: bool, zero: bool, format: bool): Config {
    Config(run, snapshots, p.merge, _ => bottom, _ => bottom, bottom && zero, format, p.keyLen)
  }

  /** A snapshot opened after the whole run was written. */
  ghost predicate Later(at: nat, run: seq<Entry>) {
    forall i {:trigger run[i]} :: 0 <= i < |run| ==> run[i].seqNum < at
  }

  /** The snapshots listed when the compaction started: some may have been closed
      since, and later ones opened. */
  ghost predicate Lists(snapshots: seq<nat>, open: set<nat>, run: seq<Entry>) {
    Ascending(snapshots) && forall at :: at in open ==> at in snapshots || Later(at, run)
  }

  datatype Choice = Choice(lo: nat, hi: nat, snapshots: seq<nat>, bottom: bool, zero: bool, format: bool)

  ghost predicate CompactRun(p: Params, s: Store, s': Store, a: Choice) {
    && a.lo <= a.hi <= |s.history| && Lists(a.snapshots, s.snapshots.Keys, s.history[a.lo..a.hi])
    && (a.bottom ==> a.hi == |s.history|) && (p.format ==> a.format)
    && var o := Compact(RunConfig(p, s.history[a.lo..a.hi], a.snapshots, a.bottom, a.zero, a.format));
    && !Fails(o)
    && s' == s.(history := s.history[..a.lo] + Entries(o) + s.history[a.hi..])
  }

  datatype Action =
    | DoWrite(w: UserWrite)
    | DoOpen
    | DoClose(at: nat)
    | DoCompact(choice: Choice)

  ghost predicate Next(p: Params, s: Store, s': Store, a: Action) {
    match a
    case DoWrite(w) => Write(s, s', w)
    case DoOpen => OpenSnapshot(p, s, s')
    case DoClose(at) => CloseSnapshot(s, s', at)
    case DoCompact(choice) => CompactRun(p, s, s', choice)
  }

  ghost predicate Init(s: Store) {
    s.history == [] && s.snapshots == map[] && s.writes == [] && 0 < s.nextSeq < SEQ_MAX
  }

  // ------------------------------------------------------------------ safe writes

  /** The data written since the last tombstone, oldest first. */
  function Since(ws: seq<UserWrite>): seq<Kind> {
    if ws == [] || ws[|ws| - 1].kind.Tombstone() then [] else Since(ws[..|ws| - 1]) + [ws[|ws| - 1].kind]
  }

  /** Data was written before the last tombstone. */
  predicate Buried(ws: seq<UserWrite>) {
    ws != [] && (Buried(ws[..|ws| - 1]) || (ws[|ws| - 1].kind.Tombstone() && Since(ws[..|ws| - 1]) != []))
  }

  /** A SINGLEDEL may delete nothing or a single write. It may delete MERGEs over
      one write only if nothing is buried: compactions can fold those to a SET
      that does not tell that a tombstone went into it. So can, without
      SETWITHDEL, a compaction of a single SET. */
  predicate SafeUse(format: bool, since: seq<Kind>, buried: bool) {
    || since == [] || since == [Merge] || (format && since == [Set])
    || (Set !in since[1..] && !buried)
  }

  predicate SafeWrites(format: bool, ws: seq<UserWrite>) {
    ws == [] ||
    (var init := ws[..|ws| - 1];
     SafeWrites(format, init) && (ws[|ws| - 1].kind.SingleDelete? ==> SafeUse(format, Since(init), Buried(init))))
  }

  // ----------------------------------------------------------------- invariant

  /** Nothing older shows: the history ends, or goes on with a tombstone. */
  predicate Dead(h: seq<Entry>) {
    h == [] || (h[0].Point? && h[0].kind.Tombstone())
  }

  predicate Barren(h: seq<Entry>) {
    h == [] || (h[0].Point? && h[0].kind.Tombstone() && Barren(h[1..]))
  }

  /** MERGEs over at most one other entry and then only tombstones. */
  predicate OkMerged(h: seq<Entry>) {
    h == [] || (h[0].Point? && if h[0].kind.Merge? then OkMerged(h[1..]) else Barren(h[1..]))
  }

  /** What may lie under a SINGLEDEL without being uncovered by it. */
  predicate OkBelow(format: bool, h: seq<Entry>) {
    h == [] ||
    (h[0].Point? &&
     match h[0].kind
     case SingleDelete => OkBelow(format, h[1..])
     case Delete | DeleteSized | SetWithDelete => true
     case Set => if format then Dead(h[1..]) else Barren(h[1..])
     case Merge => Dead(h[1..]) || OkMerged(h[1..]))
  }

  predicate Safe(format: bool, h: seq<Entry>) {
    h == [] || (h[0].Point? && Safe(format, h[1..]) && (h[0].kind.SingleDelete? ==> OkBelow(format, h[1..])))
  }

  ghost predicate OneKey(h: seq<Entry>) {
    forall i {:trigger h[i]} :: 0 <= i < |h| ==> h[i].Point? && h[i].ukey == KEY && h[i].seqNum < SEQ_MAX
  }

  /** What the writes so far say about the history, whatever was compacted. */
  ghost predicate Tracks(format: bool, ws: seq<UserWrite>, h: seq<Entry>) {
    var since, buried := Since(ws), Buried(ws);
    && (since == [] ==> Dead(h))
    && (since == [] && !buried ==> Barren(h))
    && (since == [Merge] || (format && since == [Set]) ==> OkBelow(format, h))
    && (!buried && (since == [] || Set !in since[1..]) ==> OkMerged(h))
  }

  ghost predicate ReadsKept(p: Params, s: Store) {
    && ReadAt(p, s.history, SEQ_MAX) == Latest(p.merge, s.writes)
    && (forall at :: at in s.snapshots ==> ReadAt(p, s.history, at) == s.snapshots[at])
  }

  ghost predicate Inv(p: Params, s: Store) {
    && 0 < s.nextSeq < SEQ_MAX
    && OneKey(s.history) && Sorted(s.history)
    && (forall i {:trigger s.history[i]} :: 0 <= i < |s.history| ==> s.history[i].seqNum < s.nextSeq)
    && (forall at :: at in s.snapshots ==> 0 < at <= s.nextSeq)
    && Safe(p.format, s.history) && Tracks(p.format, s.writes, s.history) && ReadsKept(p, s)
  }

  // ------------------------------------------------------------ reads in pieces

  lemma {:induction false} ReadAppend(x: seq<Entry>, y: seq<Entry>, merge: MergeOp, s: nat, base: Option<Value>)
    ensures Read(x + y, merge, KEY, s, {}, base) == Read(x, merge, KEY, s, {}, Read(y, merge, KEY, s, {}, base))
  {
    if x == [] {
      assert x + y == y;
    } else {
      ReadAppend(x[1..], y, merge, s, base);
      assert (x + y)[1..] == x[1..] + y;
    }
  }

  lemma NoTombs(c: Config)
    requires OneKey(c.input)
    ensures Tombs(c, KEY) == {} && Kept(c, KEY) == {}
  {
  }

  lemma RunIsLegal(p: Params, run: seq<Entry>, snapshots: seq<nat>, bottom: bool, zero: bool, format: bool)
    requires OneKey(run) && Sorted(run) && Ascending(snapshots)
    ensures Legal(RunConfig(p, run, snapshots, bottom, zero, format))
  {
    var c := RunConfig(p, run, snapshots, bottom, zero, format);
    forall i {:trigger WellFormed(c.input[i])} | 0 <= i < |c.input| ensures WellFormed(c.input[i]) {
      assert run[i].Point?;
    }
  }

  /** A sorted history read where its head is dead and seen gives nothing. */
  lemma DeadReads(h: seq<Entry>, merge: MergeOp, s: nat)
    requires OneKey(h) && Dead(h) && (h != [] ==> h[0].seqNum < s)
    ensures Read(h, merge, KEY, s, {}, None) == None
  {
  }

  // ------------------------------------------------- what a compaction does to it

  ghost predicate BottomOnly(format: bool, c: Config, below: seq<Entry>) {
    && OneKey(c.input) && (format ==> c.formatSetWithDelete)
    && (c.elide(KEY) || c.allowZeroSeqNum ==> below == [])
  }

  ghost function Before(c: Config, below: seq<Entry>, i: nat): seq<Entry>
    requires i <= |c.input|
  {
    c.input[i..] + below
  }

  ghost function After(c: Config, below: seq<Entry>, o: Output): seq<Entry> {
    Entries(o) + below
  }

  /** A rewritten history is no less safe than the one it replaces. */
  ghost predicate Keeps(format: bool, h: seq<Entry>, h': seq<Entry>) {
    Safe(format, h) ==>
      && Safe(format, h') && (Dead(h) ==> Dead(h')) && (OkBelow(format, h) ==> OkBelow(format, h'))
      && (Barren(h) ==> Barren(h')) && (OkMerged(h) ==> OkMerged(h'))
  }

  lemma {:induction false} OutSkipPoints(c: Config, i: nat)
    requires i <= |c.input| && OneKey(c.input) && Same(c, i)
    ensures Out(c, i, true) == Out(c, StripeEnd(c, i), false)
    decreases |c.input| - i
  {
    assert c.input[i].Point?;
    if Same(c, i + 1) {
      OutSkipPoints(c, i + 1);
    }
  }

  lemma BeforeStep(c: Config, below: seq<Entry>, i: nat)
    requires i < |c.input|
    ensures Before(c, below, i) != [] && Before(c, below, i)[0] == c.input[i]
    ensures Before(c, below, i)[1..] == Before(c, below, i + 1)
  {
    assert c.input[i..] == [c.input[i]] + c.input[i + 1..];
  }

  lemma AfterStep(c: Config, below: seq<Entry>, e: Entry, o: Output)
    ensures After(c, below, Emit(e, o)) != [] && After(c, below, Emit(e, o))[0] == e
    ensures After(c, below, Emit(e, o))[1..] == After(c, below, o)
  {
    assert Entries(Emit(e, o)) + below == [e] + (Entries(o) + below);
  }

  /** Safety and barrenness of a history pass to its tails. */
  lemma {:induction false} BeforeSafe(format: bool, c: Config, below: seq<Entry>, i: nat, j: nat)
    requires i <= j <= |c.input|
    ensures Safe(format, Before(c, below, i)) ==> Safe(format, Before(c, below, j))
    ensures Barren(Before(c, below, i)) ==> Barren(Before(c, below, j))
    decreases j - i
  {
    if i < j {
      BeforeStep(c, below, i);
      BeforeSafe(format, c, below, i + 1, j);
    }
  }

  /** Passing SINGLEDELs leaves the question what lies below unchanged. */
  lemma {:induction false} PassSingleDeletes(format: bool, c: Config, below: seq<Entry>, i: nat)
    requires i <= |c.input| && OneKey(c.input)
    ensures OkBelow(format, Before(c, below, i)) == OkBelow(format, Before(c, below, SkipSingleDeletes(c, i)))
    decreases |c.input| - i
  {
    if SkipSingleDeletes(c, i) != i {
      BeforeStep(c, below, i);
      PassSingleDeletes(format, c, below, i + 1);
    }
  }

  lemma DeadIsOkBelow(format: bool, h: seq<Entry>)
    requires Dead(h) && Safe(format, h)
    ensures OkBelow(format, h)
  {
  }

  lemma {:induction false} BarrenIsOkBelow(format: bool, h: seq<Entry>)
    requires Barren(h)
    ensures OkBelow(format, h) && Dead(h) && OkMerged(h)
  {
    if h != [] {
      BarrenIsOkBelow(format, h[1..]);
    }
  }

  lemma MergedIsOkBelow(format: bool, h: seq<Entry>)
    requires OkMerged(h)
    ensures OkBelow(format, h)
  {
    if h != [] && !h[0].kind.Merge? {
      BarrenIsOkBelow(format, h[1..]);
    }
  }

  /** The bottom stripe of the run is the last thing in it. */
  lemma ElidedToEnd(c: Config, i: nat)
    requires Legal(c) && OneKey(c.input) && i < |c.input| && Stripe(c, i) == 0
    ensures StripeEnd(c, i + 1) == |c.input|
  {
    var end := StripeEnd(c, i + 1);
    assert end < |c.input| ==> c.input[end].ukey == c.input[i].ukey;
    if end < |c.input| {
      BottomIsLast(c, i, end, end);
    }
  }

  lemma OutAt(c: Config, i: nat)
    requires i < |c.input| && c.input[i].Point?
    ensures var r := StepAt(c, i);
            Out(c, i, false) == if r.Stop? then Failed
                                else if r.Pass? then Out(c, r.next, r.skip)
                                else Emit(r.entry, Out(c, r.next, r.skip))
  {
  }

  lemma KeepsSingleDelete(format: bool, c: Config, below: seq<Entry>, i: nat)
    requires Legal(c) && BottomOnly(format, c, below) && i < |c.input|
    requires c.input[i].Point? && c.input[i].kind.SingleDelete? && !Dropped(c, i) && !StepAt(c, i).Stop?
    requires var r := StepAt(c, i); var at := Resume(c, r);
             Keeps(format, Before(c, below, at), After(c, below, Out(c, at, false)))
                 && Out(c, r.next, r.skip) == Out(c, at, false)
    ensures Keeps(format, Before(c, below, i), After(c, below, Out(c, i, false)))
  {
    hide Legal, Keeps, OkBelow, OkMerged, Dead, StepAt, Out, StripeEnd, Dropped;
    OutAt(c, i);
    var r := StepAt(c, i);
    var at := Resume(c, r);
    var h, rest, rest' := Before(c, below, i), Before(c, below, at), After(c, below, Out(c, at, false));
    if Safe(format, h) {
      BeforeStep(c, below, i);
      BeforeSafe(format, c, below, i, at);
      SingleDeleteMeets(format, c, below, i);
      if r.Put? {
        AfterStep(c, below, r.entry, Out(c, at, false));
        DeletesOnto(format, h, rest, r.entry, rest');
        assert After(c, below, Out(c, i, false)) == [r.entry] + rest';
      } else {
        CancelsOnto(format, h, rest, rest');
        assert After(c, below, Out(c, i, false)) == rest';
      }
    } else {
      UnsafeKeeps(format, h, After(c, below, Out(c, i, false)));
    }
  }

  /** What the SINGLEDEL at i becomes and what is left under it. */
  lemma SingleDeleteMeets(format: bool, c: Config, below: seq<Entry>, i: nat)
    requires OneKey(c.input) && i < |c.input| && Safe(format, Before(c, below, i))
    requires c.input[i].Point? && c.input[i].kind.SingleDelete? && !Dropped(c, i)
    ensures var r := StepAt(c, i); var at := Resume(c, r);
            if r.Put?
            then r.entry.Point?
                 && (r.entry.kind.Delete? || (r.entry.kind.SingleDelete? && OkBelow(format, Before(c, below, at))))
            else Dead(Before(c, below, at)) && !Barren(Before(c, below, i + 1))
  {
    var j := SkipSingleDeletes(c, i + 1);
    BeforeStep(c, below, i);
    PassSingleDeletes(format, c, below, i + 1);
    BeforeSafe(format, c, below, i + 1, j);
    if j < |c.input| {
      BeforeStep(c, below, j);
    }
    if StepAt(c, i).Pass? && !format {
      BarrenIsOkBelow(format, Before(c, below, j + 1));
    }
  }

  /** A tombstone e' in place of the SINGLEDEL on top of h. */
  lemma DeletesOnto(format: bool, h: seq<Entry>, rest: seq<Entry>, e': Entry, rest': seq<Entry>)
    requires h != [] && h[0].Point? && h[0].kind.SingleDelete? && Safe(format, h) && Safe(format, rest)
             && Keeps(format, rest, rest')
    requires Barren(h) ==> Barren(rest)
    requires e'.Point? && (e'.kind.Delete? || (e'.kind.SingleDelete? && OkBelow(format, rest)))
    ensures Keeps(format, h, [e'] + rest')
  {
    assert ([e'] + rest')[1..] == rest';
  }

  lemma UnsafeKeeps(format: bool, h: seq<Entry>, h': seq<Entry>)
    requires !Safe(format, h)
    ensures Keeps(format, h, h')
  {
  }

  lemma CancelsOnto(format: bool, h: seq<Entry>, rest: seq<Entry>, rest': seq<Entry>)
    requires h != [] && h[0].Point? && h[0].kind.SingleDelete? && !Barren(h[1..])
    requires Safe(format, rest) && Keeps(format, rest, rest') && Dead(rest)
    ensures Keeps(format, h, rest')
  {
    DeadIsOkBelow(format, rest');
  }

  lemma KeepsStep(format: bool, c: Config, below: seq<Entry>, i: nat)
    requires Legal(c) && BottomOnly(format, c, below) && i < |c.input| && c.input[i].Point? && !StepAt(c, i).Stop?
    requires var r := StepAt(c, i); var at := Resume(c, r);
             Keeps(format, Before(c, below, at), After(c, below, Out(c, at, false)))
                 && Out(c, r.next, r.skip) == Out(c, at, false)
    ensures Keeps(format, Before(c, below, i), After(c, below, Out(c, i, false)))
  {
    NoTombs(c);
    if Dropped(c, i) {
      BeforeStep(c, below, i);
      ElidedToEnd(c, i);
    } else if c.input[i].kind.SingleDelete? {
      KeepsSingleDelete(format, c, below, i);
    } else {
      KeepsPutStep(format, c, below, i);
    }
  }

  lemma KeepsPutStep(format: bool, c: Config, below: seq<Entry>, i: nat)
    requires Legal(c) && BottomOnly(format, c, below) && i < |c.input|
    requires c.input[i].Point? && !c.input[i].kind.SingleDelete? && !Dropped(c, i) && StepAt(c, i).Put?
    requires var r := StepAt(c, i); var at := Resume(c, r);
             Keeps(format, Before(c, below, at), After(c, below, Out(c, at, false)))
                 && Out(c, r.next, r.skip) == Out(c, at, false)
    ensures Keeps(format, Before(c, below, i), After(c, below, Out(c, i, false)))
  {
    hide Legal, BottomOnly, Keeps, OkMerged, OkBelow, Barren, Safe, StepAt, Out, StripeEnd, Dropped, Turns, Before,
         After, Same, Entries;
    OutAt(c, i);
    var r := StepAt(c, i);
    var at := Resume(c, r);
    var tail, rest, rest' := Before(c, below, i + 1), Before(c, below, at), After(c, below, Out(c, at, false));
    BeforeStep(c, below, i);
    AfterStep(c, below, r.entry, Out(c, at, false));
    BeforeSafe(format, c, below, i + 1, at);
    KeepsPut(format, c, below, i);
    PutsOnto(format, c.input[i], tail, r.entry, rest, rest');
    assert Before(c, below, i) == [c.input[i]] + Before(c, below, i)[1..];
    var h' := After(c, below, Out(c, i, false));
    assert h' == [r.entry] + h'[1..];
  }

  /** How an entry other than SINGLEDEL, over `tail`, becomes e' over `rest`: a SET
      stays plain only if no tombstone was absorbed, and a MERGE becomes a SET
      only over something else than a tombstone. */
  ghost predicate Turns(format: bool, e: Entry, tail: seq<Entry>, e': Entry, rest: seq<Entry>) {
    && e.Point? && e'.Point? && !e.kind.SingleDelete?
    && match e.kind
       case Delete | DeleteSized => e'.kind.Delete? || e'.kind.DeleteSized?
       case SetWithDelete => e'.kind.SetWithDelete?
       case Set => e'.kind.SetWithDelete? || (e'.kind.Set? && (format && Dead(tail) ==> Dead(rest)))
       case Merge =>
         && (e'.kind.Merge? || e'.kind.Set? || e'.kind.SetWithDelete?)
         && (Dead(tail) ==> e'.kind.SetWithDelete? || (e'.kind.Merge? && Dead(rest)))
         && (OkMerged(tail) ==> if e'.kind.Merge? then OkMerged(rest) else Barren(rest))
  }

  lemma PutsOnto(format: bool, e: Entry, tail: seq<Entry>, e': Entry, rest: seq<Entry>, rest': seq<Entry>)
    requires Turns(format, e, tail, e', rest) && Keeps(format, rest, rest')
    requires (Safe(format, tail) ==> Safe(format, rest)) && (Barren(tail) ==> Barren(rest))
    ensures Keeps(format, [e] + tail, [e'] + rest')
  {
    var h, h' := [e] + tail, [e'] + rest';
    assert h[1..] == tail && h'[1..] == rest';
    if Barren(rest') {
      BarrenIsOkBelow(format, rest');
    }
  }

  lemma KeepsPut(format: bool, c: Config, below: seq<Entry>, i: nat)
    requires BottomOnly(format, c, below) && i < |c.input|
    requires c.input[i].Point? && !c.input[i].kind.SingleDelete? && !Dropped(c, i) && StepAt(c, i).Put?
    ensures var r := StepAt(c, i);
            Turns(format, c.input[i], Before(c, below, i + 1), r.entry, Before(c, below, Resume(c, r)))
  {
    match c.input[i].kind
    case DeleteSized => ScanSizedKind(c, i + 1, c.input[i].value);
    case Merge => KeepsMerge(format, c, below, i);
    case Set =>
      if Same(c, i + 1) {
        BeforeStep(c, below, i + 1);
      }
    case _ =>
  }

  lemma KeepsMerge(format: bool, c: Config, below: seq<Entry>, i: nat)
    requires OneKey(c.input) && i < |c.input| && c.input[i].Point? && c.input[i].kind.Merge? && !Dropped(c, i)
    ensures var r := StepAt(c, i);
            Turns(format, c.input[i], Before(c, below, i + 1), r.entry, Before(c, below, Resume(c, r)))
  {
    hide Barren, OkMerged, Safe;
    var m := ScanMerge(c, i + 1, c.input[i].value);
    NoTombs(c);
    ScanMergeRun(c, i + 1, c.input[i].value);
    if OkMerged(Before(c, below, i + 1)) {
      ScanMergeLeaves(c, below, i + 1, c.input[i].value);
    }
    if Same(c, i + 1) {
      BeforeStep(c, below, i + 1);
    }
    if Same(c, m.next) {
      BeforeSafe(format, c, below, m.next, StripeEnd(c, m.next));
    }
  }

  /** What is left under a folded MERGE. */
  lemma {:induction false} ScanMergeLeaves(c: Config, below: seq<Entry>, j: nat, acc: Value)
    requires OneKey(c.input) && 0 < j <= |c.input| && OkMerged(Before(c, below, j))
    ensures var m := ScanMerge(c, j, acc);
            if m.kind.Merge? then OkMerged(Before(c, below, m.next)) else Barren(Before(c, below, m.next))
    decreases |c.input| - j
  {
    NoTombs(c);
    if Same(c, j) {
      BeforeStep(c, below, j);
      if c.input[j].kind.Merge? {
        ScanMergeLeaves(c, below, j + 1, c.merge(acc, c.input[j].value));
      }
    }
  }

  lemma {:induction false} KeepsFrom(format: bool, c: Config, below: seq<Entry>, i: nat)
    requires Legal(c) && BottomOnly(format, c, below) && i <= |c.input| && !Fails(Out(c, i, false))
    ensures Keeps(format, Before(c, below, i), After(c, below, Out(c, i, false)))
    decreases |c.input| - i
  {
    if i < |c.input| {
      assert c.input[i].Point?;
      var r := StepAt(c, i);
      if r.skip {
        OutSkipPoints(c, r.next);
      }
      KeepsFrom(format, c, below, Resume(c, r));
      KeepsStep(format, c, below, i);
    }
  }

  /** Rewriting a tail of the history keeps the whole as safe. */
  lemma {:induction false} KeepsUnder(format: bool, newer: seq<Entry>, h: seq<Entry>, h': seq<Entry>)
    requires Keeps(format, h, h') && Safe(format, newer + h)
    ensures Safe(format, h) && Keeps(format, newer + h, newer + h')
  {
    if newer == [] {
      assert newer + h == h && newer + h' == h';
    } else {
      assert (newer + h)[1..] == newer[1..] + h && (newer + h')[1..] == newer[1..] + h';
      KeepsUnder(format, newer[1..], h, h');
    }
  }

  // ------------------------------------------------------- shape after compaction

  lemma {:induction false} OutIsPoints(c: Config, i: nat, skip: bool)
    requires i <= |c.input| && OneKey(c.input)
    ensures forall e :: e in Entries(Out(c, i, skip)) ==> e.Point?
    decreases |c.input| - i
  {
    if i < |c.input| {
      assert c.input[i].Point?;
      if skip {
        OutIsPoints(c, i + 1, Same(c, i + 1));
      } else if !StepAt(c, i).Stop? {
        StepShape(c, i);
        OutIsPoints(c, StepAt(c, i).next, StepAt(c, i).skip);
      }
    }
  }

  ghost predicate AllPrecede(x: seq<Entry>, y: seq<Entry>) {
    forall i, j {:trigger Precedes(x[i], y[j])} :: 0 <= i < |x| && 0 <= j < |y| ==> Precedes(x[i], y[j])
  }

  lemma SortedConcat(x: seq<Entry>, y: seq<Entry>)
    requires Sorted(x) && Sorted(y) && AllPrecede(x, y)
    ensures Sorted(x + y)
  {
    forall i, j {:trigger Precedes((x + y)[i], (x + y)[j])} | 0 <= i < j < |x + y|
      ensures Precedes((x + y)[i], (x + y)[j])
    {
      if j < |x| {
        assert Precedes(x[i], x[j]);
      } else if i < |x| {
        assert Precedes(x[i], y[j - |x|]);
      } else {
        assert Precedes(y[i - |x|], y[j - |x|]);
      }
    }
  }

  lemma SortedPieces(x: seq<Entry>, y: seq<Entry>)
    requires Sorted(x + y)
    ensures Sorted(x) && Sorted(y) && AllPrecede(x, y)
  {
    forall i, j {:trigger Precedes(x[i], x[j])} | 0 <= i < j < |x| ensures Precedes(x[i], x[j]) {
      assert Precedes((x + y)[i], (x + y)[j]);
    }
    forall i, j {:trigger Precedes(y[i], y[j])} | 0 <= i < j < |y| ensures Precedes(y[i], y[j]) {
      assert Precedes((x + y)[|x| + i], (x + y)[|x| + j]);
    }
    forall i, j {:trigger Precedes(x[i], y[j])} | 0 <= i < |x| && 0 <= j < |y| ensures Precedes(x[i], y[j]) {
      assert Precedes((x + y)[i], (x + y)[|x| + j]);
    }
  }

  /** The rewritten run fits where the old one was. */
  lemma RewriteSorted(format: bool, c: Config, newer: seq<Entry>, below: seq<Entry>)
    requires Legal(c) && BottomOnly(format, c, below) && OneKey(newer) && OneKey(below)
    requires Sorted(newer + (c.input + below))
    ensures var run := Entries(Compact(c));
            && OneKey(run) && Sorted(newer + (run + below))
            && forall e :: e in run ==> exists i :: 0 <= i < |c.input| && e.seqNum <= c.input[i].seqNum
  {
    var run := Entries(Compact(c));
    SortedPieces(newer, c.input + below);
    SortedPieces(c.input, below);
    OutIsPoints(c, 0, false);
    forall e | e in run
      ensures e.Point? && e.ukey == KEY && e.seqNum < SEQ_MAX
      ensures exists i :: 0 <= i < |c.input| && e.seqNum <= c.input[i].seqNum
      ensures forall x :: 0 <= x < |newer| ==> Precedes(newer[x], e)
      ensures forall x :: 0 <= x < |below| ==> Precedes(e, below[x])
    {
      FitsIn(format, c, newer, below, e);
    }
    forall i, j {:trigger Precedes(run[i], run[j])} | 0 <= i < j < |run| ensures Precedes(run[i], run[j]) {
      OutputOrdered(c, i, j);
    }
    forall i, j {:trigger Precedes(newer[i], (run + below)[j])} | 0 <= i < |newer| && 0 <= j < |run + below|
      ensures Precedes(newer[i], (run + below)[j])
    {
      assert j >= |run| ==> Precedes(newer[i], (c.input + below)[|c.input| + j - |run|]);
    }
    SortedConcat(run, below);
    SortedConcat(newer, run + below);
  }

  lemma FitsIn(format: bool, c: Config, newer: seq<Entry>, below: seq<Entry>, e: Entry)
    requires Legal(c) && BottomOnly(format, c, below)
    requires AllPrecede(newer, c.input + below) && AllPrecede(c.input, below)
    requires e in Entries(Compact(c)) && e.Point? && OneKey(newer) && OneKey(below)
    ensures e.Point? && e.ukey == KEY && e.seqNum < SEQ_MAX
    ensures exists i :: 0 <= i < |c.input| && e.seqNum <= c.input[i].seqNum
    ensures forall x :: 0 <= x < |newer| ==> Precedes(newer[x], e)
    ensures forall x :: 0 <= x < |below| ==> Precedes(e, below[x])
  {
    var j := SourceOf(c, 0, false, e);
    assert c.input[j].Point?;
    forall x | 0 <= x < |newer| ensures Precedes(newer[x], e) {
      assert Precedes(newer[x], (c.input + below)[j]);
    }
    forall x | 0 <= x < |below| ensures Precedes(e, below[x]) {
      assert Precedes(c.input[j], below[x]);
    }
  }

  // -------------------------------------------------------- reads after compaction

  lemma CancelSafely(p: Params, c: Config, below: seq<Entry>, v: nat, i: nat, j: nat)
    requires Legal(c) && OneKey(c.input) && OneKey(below) && c.merge == p.merge
    requires Safe(p.format, c.input + below) && Sorted(c.input + below)
    requires Cancels(c, i, j) && Sees(c.input[i], KEY, v)
    ensures ReadIn(c, KEY, v, ReadAt(p, below, v), j + 1) == None
  {
    var rest := Before(c, below, j + 1);
    DeadAfterCancel(p.format, c, below, i, j);
    if rest != [] {
      assert rest[0] == (c.input + below)[j + 1];
      assert Precedes((c.input + below)[i], (c.input + below)[j + 1]);
    }
    OneKeyTail(c, below, j + 1);
    DeadReads(rest, p.merge, v);
    ReadAppend(c.input[j + 1..], below, p.merge, v, None);
    NoTombs(c);
  }

  lemma DeadAfterCancel(format: bool, c: Config, below: seq<Entry>, i: nat, j: nat)
    requires OneKey(c.input) && Safe(format, c.input + below) && Cancels(c, i, j)
    ensures Dead(Before(c, below, j + 1))
  {
    assert c.input[0..] == c.input;
    BeforeSafe(format, c, below, 0, i);
    BeforeStep(c, below, i);
    PassSingleDeletes(format, c, below, i + 1);
    BeforeStep(c, below, j);
    if !format {
      BarrenIsOkBelow(format, Before(c, below, j + 1));
    }
  }

  lemma OneKeyTail(c: Config, below: seq<Entry>, n: nat)
    requires OneKey(c.input) && OneKey(below) && n <= |c.input|
    ensures OneKey(Before(c, below, n))
  {
    var rest := Before(c, below, n);
    forall x {:trigger rest[x]} | 0 <= x < |rest|
      ensures rest[x].Point? && rest[x].ukey == KEY && rest[x].seqNum < SEQ_MAX
    {
      assert rest[x] == if x < |c.input| - n then c.input[n + x] else below[x - (|c.input| - n)];
    }
  }

  lemma RewriteReads(p: Params, c: Config, newer: seq<Entry>, below: seq<Entry>, v: nat)
    requires Legal(c) && BottomOnly(p.format, c, below) && OneKey(below) && c.merge == p.merge && Associative(p.merge)
    requires Safe(p.format, c.input + below) && Sorted(c.input + below)
    requires IsView(v, c.snapshots) && !Fails(Compact(c))
    requires (c.elideRange(KEY) ==> below == []) && (c.allowZeroSeqNum ==> c.elideRange(KEY))
    ensures ReadAt(p, newer + (Entries(Compact(c)) + below), v) == ReadAt(p, newer + (c.input + below), v)
  {
    var b, run := ReadAt(p, below, v), Entries(Compact(c));
    NoTombs(c);
    forall i: nat, j: nat | Cancels(c, i, j) && Sees(c.input[i], KEY, v) ensures ReadIn(c, KEY, v, b, j + 1) == None {
      CancelSafely(p, c, below, v, i, j);
    }
    CompactionPreservesReads(c, KEY, v, b);
    ReadAppend(run, below, p.merge, v, None);
    ReadAppend(c.input, below, p.merge, v, None);
    ReadAppend(newer, run + below, p.merge, v, None);
    ReadAppend(newer, c.input + below, p.merge, v, None);
  }

  // --------------------------------------------------------------- preservation

  lemma SafeUseIsOkBelow(p: Params, s: Store)
    requires Inv(p, s) && SafeUse(p.format, Since(s.writes), Buried(s.writes))
    ensures OkBelow(p.format, s.history)
  {
    if Since(s.writes) == [] {
      DeadIsOkBelow(p.format, s.history);
    } else if OkMerged(s.history) {
      MergedIsOkBelow(p.format, s.history);
    }
  }

  lemma SinceNext(ws: seq<UserWrite>, w: UserWrite)
    ensures Since(ws + [w]) == if w.kind.Tombstone() then [] else Since(ws) + [w.kind]
    ensures Buried(ws + [w]) <==> Buried(ws) || (w.kind.Tombstone() && Since(ws) != [])
  {
    assert (ws + [w])[..|ws|] == ws;
  }

  /** The writes still say what the history looks like. */
  lemma WriteTracks(format: bool, ws: seq<UserWrite>, w: UserWrite, h: seq<Entry>, e: Entry)
    requires Tracks(format, ws, h) && e.Point? && e.kind == w.kind && UserKind(w.kind)
    ensures Tracks(format, ws + [w], [e] + h)
  {
    var ws', h', since := ws + [w], [e] + h, Since(ws);
    assert h'[1..] == h;
    SinceNext(ws, w);
    if since != [] {
      assert (since + [w.kind])[1..] == since[1..] + [w.kind];
      assert w.kind.Set? ==> Set in since[1..] + [w.kind];
    } else {
      assert since + [w.kind] == [w.kind];
    }
  }

  lemma WriteKeepsInv(p: Params, s: Store, s': Store, w: UserWrite)
    requires Inv(p, s) && Write(s, s', w) && SafeWrites(p.format, s'.writes)
    ensures Inv(p, s')
  {
    hide Tracks;
    var h, h' := s.history, s'.history;
    assert h'[1..] == h;
    assert s'.writes[..|s.writes|] == s.writes;
    if w.kind.SingleDelete? {
      SafeUseIsOkBelow(p, s);
    }
    WriteTracks(p.format, s.writes, w, h, h'[0]);
    forall i, j {:trigger Precedes(h'[i], h'[j])} | 0 <= i < j < |h'| ensures Precedes(h'[i], h'[j]) {
      assert h'[j] == h[j - 1];
      assert i > 0 ==> h'[i] == h[i - 1] && Precedes(h[i - 1], h[j - 1]);
    }
  }

  lemma {:induction false} ReadAllSeen(p: Params, h: seq<Entry>, s: nat, s': nat)
    requires forall i {:trigger h[i]} :: 0 <= i < |h| ==> h[i].seqNum < s && h[i].seqNum < s'
    ensures ReadAt(p, h, s) == ReadAt(p, h, s')
  {
    if h != [] {
      assert h[0].seqNum < s;
      ReadAllSeen(p, h[1..], s, s');
    }
  }

  lemma OpenKeepsInv(p: Params, s: Store, s': Store)
    requires Inv(p, s) && OpenSnapshot(p, s, s')
    ensures Inv(p, s')
  {
    ReadAllSeen(p, s.history, s.nextSeq, SEQ_MAX);
  }

  lemma CloseKeepsInv(p: Params, s: Store, s': Store, at: nat)
    requires Inv(p, s) && CloseSnapshot(s, s', at)
    ensures Inv(p, s')
  {
  }

  lemma SplitInThree(h: seq<Entry>, lo: nat, hi: nat)
    requires lo <= hi <= |h|
    ensures h == h[..lo] + (h[lo..hi] + h[hi..])
  {
  }

  lemma Reassociate(x: seq<Entry>, y: seq<Entry>, z: seq<Entry>)
    ensures (x + y) + z == x + (y + z)
  {
  }

  lemma OneKeySlice(h: seq<Entry>, a: nat, b: nat)
    requires a <= b <= |h| && OneKey(h)
    ensures OneKey(h[a..b])
  {
  }

  /** The history around the run being compacted. */
  lemma CompactPieces(p: Params, s: Store, s': Store, a: Choice)
    returns (c: Config, newer: seq<Entry>, below: seq<Entry>)
    requires OneKey(s.history) && Sorted(s.history) && CompactRun(p, s, s', a)
    ensures c.merge == p.merge && c.snapshots == a.snapshots && Lists(c.snapshots, s.snapshots.Keys, c.input)
    ensures s' == s.(history := newer + (Entries(Compact(c)) + below)) && s.history == newer + (c.input + below)
    ensures !Fails(Compact(c)) && Legal(c) && BottomOnly(p.format, c, below) && OneKey(newer) && OneKey(below)
    ensures Sorted(c.input + below) && (c.elideRange(KEY) ==> below == []) && (c.allowZeroSeqNum ==> c.elideRange(KEY))
  {
    var h := s.history;
    var run := h[a.lo..a.hi];
    newer, below := h[..a.lo], h[a.hi..];
    assert newer == h[0..a.lo] && below == h[a.hi..|h|];
    c := RunConfig(p, run, a.snapshots, a.bottom, a.zero, a.format);
    SplitInThree(h, a.lo, a.hi);
    Reassociate(newer, Entries(Compact(c)), below);
    OneKeySlice(h, 0, a.lo);
    OneKeySlice(h, a.lo, a.hi);
    OneKeySlice(h, a.hi, |h|);
    SortedPieces(newer, run + below);
    SortedPieces(run, below);
    RunIsLegal(p, run, a.snapshots, a.bottom, a.zero, a.format);
  }

  lemma CompactKeepsInv(p: Params, s: Store, s': Store, a: Choice)
    requires Associative(p.merge) && Inv(p, s) && CompactRun(p, s, s', a)
    ensures Inv(p, s')
  {
    hide CompactRun, Legal, Keeps, Safe, Lists, Later;
    var c, newer, below := CompactPieces(p, s, s', a);
    RewriteSorted(p.format, c, newer, below);
    ShapeAfter(s, s', newer, c.input, Entries(Compact(c)), below);
    RewriteKeeps(p.format, c, newer, below);
    StillTracks(p.format, s.writes, s.history, s'.history);
    RewriteReads(p, c, newer, below, SEQ_MAX);
    forall at | at in s.snapshots ensures ReadAt(p, s'.history, at) == s.snapshots[at] {
      ListedOrLater(c.snapshots, s.snapshots.Keys, c.input, at);
      if at in c.snapshots {
        RewriteReads(p, c, newer, below, at);
      } else {
        LateReads(p, c, newer, below, at);
      }
    }
  }

  lemma ListedOrLater(snapshots: seq<nat>, open: set<nat>, run: seq<Entry>, at: nat)
    requires Lists(snapshots, open, run) && at in open
    ensures at in snapshots || Later(at, run)
  {
  }

  lemma StillTracks(format: bool, ws: seq<UserWrite>, h: seq<Entry>, h': seq<Entry>)
    requires Tracks(format, ws, h) && Safe(format, h) && Keeps(format, h, h')
    ensures Tracks(format, ws, h') && Safe(format, h')
  {
  }

  /** A snapshot above the whole run sees it as the latest state does. */
  lemma LateReads(p: Params, c: Config, newer: seq<Entry>, below: seq<Entry>, at: nat)
    requires Legal(c) && BottomOnly(p.format, c, below) && OneKey(below) && c.merge == p.merge && Associative(p.merge)
    requires Safe(p.format, c.input + below) && Sorted(c.input + below) && !Fails(Compact(c))
    requires (c.elideRange(KEY) ==> below == []) && (c.allowZeroSeqNum ==> c.elideRange(KEY))
    requires Later(at, c.input) && OneKey(Entries(Compact(c)))
    requires forall e :: e in Entries(Compact(c)) ==> exists i :: 0 <= i < |c.input| && e.seqNum <= c.input[i].seqNum
    ensures ReadAt(p, newer + (Entries(Compact(c)) + below), at) == ReadAt(p, newer + (c.input + below), at)
  {
    hide Legal, Safe, Sorted, OneKey, Later, Compact, Entries, Read;
    var run := Entries(Compact(c));
    if c.input == [] {
      NothingCompacts(c);
    } else {
      AllLater(c.input, below, c.input, at);
      AllLater(c.input, below, run, at);
      ReadAllSeen(p, c.input + below, at, SEQ_MAX);
      ReadAllSeen(p, run + below, at, SEQ_MAX);
      RewriteReads(p, c, [], below, SEQ_MAX);
      assert [] + (run + below) == run + below && [] + (c.input + below) == c.input + below;
      ReadAppend(newer, run + below, p.merge, at, None);
      ReadAppend(newer, c.input + below, p.merge, at, None);
    }
  }

  lemma NothingCompacts(c: Config)
    requires c.input == []
    ensures Entries(Compact(c)) == []
  {
  }

  lemma AllLater(run: seq<Entry>, below: seq<Entry>, run': seq<Entry>, at: nat)
    requires run != [] && Sorted(run + below) && OneKey(run) && OneKey(below) && Later(at, run) && OneKey(run')
    requires forall e :: e in run' ==> exists i :: 0 <= i < |run| && e.seqNum <= run[i].seqNum
    ensures forall i {:trigger (run' + below)[i]} :: 0 <= i < |run' + below| ==>
              (run' + below)[i].seqNum < at && (run' + below)[i].seqNum < SEQ_MAX
  {
    forall i {:trigger (run' + below)[i]} | 0 <= i < |run' + below|
      ensures (run' + below)[i].seqNum < at && (run' + below)[i].seqNum < SEQ_MAX
    {
      var e := (run' + below)[i];
      if i < |run'| {
        assert e in run' && e == run'[i];
        var x :| 0 <= x < |run| && e.seqNum <= run[x].seqNum;
      } else {
        assert e == below[i - |run'|] == (run + below)[|run| + i - |run'|];
        assert Precedes((run + below)[0], (run + below)[|run| + i - |run'|]);
        assert run[0].seqNum < at;
      }
    }
  }

  lemma RewriteKeeps(format: bool, c: Config, newer: seq<Entry>, below: seq<Entry>)
    requires Legal(c) && BottomOnly(format, c, below) && !Fails(Compact(c)) && Safe(format, newer + (c.input + below))
    ensures Safe(format, c.input + below)
            && Keeps(format, newer + (c.input + below), newer + (Entries(Compact(c)) + below))
  {
    KeepsFrom(format, c, below, 0);
    assert c.input[0..] == c.input;
    KeepsUnder(format, newer, c.input + below, Entries(Compact(c)) + below);
  }

  lemma ShapeAfter(s: Store, s': Store, newer: seq<Entry>, run: seq<Entry>, run': seq<Entry>, below: seq<Entry>)
    requires s.history == newer + (run + below) && s'.history == newer + (run' + below)
    requires OneKey(s.history) && OneKey(run')
    requires forall i {:trigger s.history[i]} :: 0 <= i < |s.history| ==> s.history[i].seqNum < s.nextSeq
    requires forall e :: e in run' ==> exists i :: 0 <= i < |run| && e.seqNum <= run[i].seqNum
    ensures OneKey(s'.history)
    ensures forall i {:trigger s'.history[i]} :: 0 <= i < |s'.history| ==> s'.history[i].seqNum < s.nextSeq
  {
    var h, h' := s.history, s'.history;
    assert forall i :: 0 <= i < |run| ==> run[i] == h[|newer| + i];
    assert forall i :: 0 <= i < |below| ==> below[i] == h[|newer| + |run| + i];
    forall i {:trigger h'[i]} | 0 <= i < |h'|
      ensures h'[i].Point? && h'[i].ukey == KEY && h'[i].seqNum < SEQ_MAX && h'[i].seqNum < s.nextSeq
    {
      if i < |newer| {
        assert h'[i] == h[i];
      } else if i < |newer| + |run'| {
        assert h'[i] == run'[i - |newer|] && h'[i] in run';
      } else {
        assert h'[i] == below[i - |newer| - |run'|];
      }
    }
  }

  /** Every step keeps every read, as long as the writes are safe. */
  lemma NextKeepsInv(p: Params, s: Store, s': Store, a: Action)
    requires Associative(p.merge) && Inv(p, s) && Next(p, s, s', a) && SafeWrites(p.format, s'.writes)
    ensures Inv(p, s')
  {
    match a
    case DoWrite(w) => WriteKeepsInv(p, s, s', w);
    case DoOpen => OpenKeepsInv(p, s, s');
    case DoClose(at) => CloseKeepsInv(p, s, s', at);
    case DoCompact(choice) => CompactKeepsInv(p, s, s', choice);
  }

  // -------------------------------------------------------------------- theorems

  ghost predicate IsRun(p: Params, states: seq<Store>, actions: seq<Action>) {
    && |states| == |actions| + 1 && Init(states[0])
    && forall i {:trigger actions[i]} :: 0 <= i < |actions| ==> Next(p, states[i], states[i + 1], actions[i])
  }

  /** Safety of writes passes to those made earlier. */
  lemma SafeEarlier(p: Params, s: Store, s': Store, a: Action)
    requires Next(p, s, s', a) && SafeWrites(p.format, s'.writes)
    ensures SafeWrites(p.format, s.writes)
  {
    if a.DoWrite? {
      assert s'.writes[..|s.writes|] == s.writes;
    }
  }

  lemma {:induction false} RunKeepsInv(p: Params, states: seq<Store>, actions: seq<Action>, n: nat)
    requires Associative(p.merge) && IsRun(p, states, actions) && n < |states| && SafeWrites(p.format, states[n].writes)
    ensures Inv(p, states[n])
  {
    if n > 0 {
      SafeEarlier(p, states[n - 1], states[n], actions[n - 1]);
      RunKeepsInv(p, states, actions, n - 1);
      NextKeepsInv(p, states[n - 1], states[n], actions[n - 1]);
    }
  }

  /** Over every run of writes, snapshots and compactions whose writes are safe,
      the store reads as if nothing was ever compacted. */
  lemma SingleDeleteNeverResurrects(p: Params, states: seq<Store>, actions: seq<Action>, n: nat)
    requires Associative(p.merge) && IsRun(p, states, actions) && n < |states| && SafeWrites(p.format, states[n].writes)
    ensures ReadsKept(p, states[n])
  {
    RunKeepsInv(p, states, actions, n);
  }
}
