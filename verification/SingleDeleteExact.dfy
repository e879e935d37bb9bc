/**
 Safe writes are exactly those that no compaction can betray: for any others
 there is a run of a few compactions after which a deleted value reads again.
 */
module SingleDeleteExact {
  import opened Basics
  import opened Lsm
  import opened Compaction
  import opened CompactionReads
  import opened SingleDelete

  ghost predicate Reachable(p: Params, s: Store) {
    exists states, actions :: IsRun(p, states, actions) && states[|states| - 1] == s
  }

  /** All reads are kept in every run that makes these writes, at every point. */
  ghost predicate AllRunsKeep(p: Params, ws: seq<UserWrite>) {
    forall s :: Reachable(p, s) && s.writes <= ws ==> ReadsKept(p, s)
  }

  ghost predicate UserWrites(ws: seq<UserWrite>) {
    forall i {:trigger ws[i]} :: 0 <= i < |ws| ==> UserKind(ws[i].kind)
  }

  // -------------------------------------------------------------------- runs

  function Compactions(actions: seq<Action>): nat {
    if actions == [] then 0
    else Compactions(actions[..|actions| - 1]) + if actions[|actions| - 1].DoCompact? then 1 else 0
  }

  /** Some run with at most k compactions ends in s. */
  ghost predicate Within(p: Params, s: Store, k: nat) {
    exists states, actions :: IsRun(p, states, actions) && states[|states| - 1] == s && Compactions(actions) <= k
  }

  lemma {:induction false} Extends(p: Params, s: Store, s': Store, a: Action, k: nat)
    requires Within(p, s, k) && Next(p, s, s', a)
    ensures Within(p, s', if a.DoCompact? then k + 1 else k)
  {
    hide Next, Init;
    var states, actions :| IsRun(p, states, actions) && states[|states| - 1] == s && Compactions(actions) <= k;
    var states', actions' := states + [s'], actions + [a];
    forall i {:trigger actions'[i]} | 0 <= i < |actions'| ensures Next(p, states'[i], states'[i + 1], actions'[i]) {
      if i < |actions| {
        assert actions'[i] == actions[i];
      }
    }
    assert actions'[..|actions|] == actions;
    assert IsRun(p, states', actions');
  }

  /** The history of a store that has never compacted. */
  function Raw(ws: seq<UserWrite>): seq<Entry> {
    if ws == [] then [] else [Point(KEY, |ws|, ws[|ws| - 1].kind, ws[|ws| - 1].value)] + Raw(ws[..|ws| - 1])
  }

  lemma {:induction false} RawAt(ws: seq<UserWrite>, i: nat)
    requires i < |ws|
    ensures |Raw(ws)| == |ws| && Raw(ws)[i] == Point(KEY, |ws| - i, ws[|ws| - 1 - i].kind, ws[|ws| - 1 - i].value)
  {
    if |ws| > 1 {
      RawAt(ws[..|ws| - 1], if i > 0 then i - 1 else 0);
    }
  }

  lemma {:induction false} Replay(p: Params, ws: seq<UserWrite>) returns (s: Store)
    requires UserWrites(ws) && |ws| + 1 < SEQ_MAX
    ensures Within(p, s, 0) && s == Store(Raw(ws), map[], ws, |ws| + 1)
  {
    if ws == [] {
      s := Store([], map[], [], 1);
      assert IsRun(p, [s], []);
    } else {
      var init := Replay(p, ws[..|ws| - 1]);
      assert ws == ws[..|ws| - 1] + [ws[|ws| - 1]];
      s := Store(Raw(ws), map[], ws, |ws| + 1);
      Extends(p, init, s, DoWrite(ws[|ws| - 1]), 0);
    }
  }

  /** One compaction, high up in the store and with no snapshot open. */
  ghost function Plain(p: Params, run: seq<Entry>, format: bool): Config {
    RunConfig(p, run, [], false, false, format)
  }

  lemma {:induction false} Rewrite(p: Params, s: Store, k: nat, lo: nat, hi: nat, format: bool, run: seq<Entry>)
    returns (s': Store)
    requires Within(p, s, k) && s.snapshots == map[] && lo <= hi <= |s.history| && (p.format ==> format)
    requires var o := Compact(Plain(p, s.history[lo..hi], format)); !Fails(o) && Entries(o) == run
    ensures Within(p, s', k + 1) && s' == s.(history := s.history[..lo] + run + s.history[hi..])
  {
    s' := s.(history := s.history[..lo] + run + s.history[hi..]);
    Extends(p, s, s', DoCompact(Choice(lo, hi, [], false, false, format)), k);
  }

  // ------------------------------------------------------------- single compactions

  lemma {:induction false} OneStripe(p: Params, run: seq<Entry>, format: bool)
    requires OneKey(run)
    ensures var c := Plain(p, run, format);
            && (forall i: nat :: Same(c, i) <==> 0 < i < |run|)
            && (forall i :: 0 <= i < |run| ==> !Covered(c, i) && !Dropped(c, i))
  {
    NoTombs(Plain(p, run, format));
  }

  /** MERGEs over a SET, or over a SETWITHDEL. */
  ghost predicate MergesOver(run: seq<Entry>) {
    && OneKey(run) && |run| >= 2
    && (forall i {:trigger run[i]} :: 0 <= i < |run| - 1 ==> run[i].kind.Merge?)
    && (run[|run| - 1].kind.Set? || run[|run| - 1].kind.SetWithDelete?)
  }

  lemma {:induction false} FoldsFrom(p: Params, run: seq<Entry>, format: bool, j: nat, acc: Value) returns (v: Value)
    requires MergesOver(run) && 0 < j < |run|
    ensures ScanMerge(Plain(p, run, format), j, acc) == MergeScan(v, Set, |run|, false)
    decreases |run| - j
  {
    OneStripe(p, run, format);
    if run[j].kind.Merge? {
      v := FoldsFrom(p, run, format, j + 1, p.merge(acc, run[j].value));
    } else {
      v := p.merge(acc, run[j].value);
    }
  }

  /** They become a plain SET. */
  lemma {:induction false} Folds(p: Params, run: seq<Entry>, format: bool) returns (e: Entry)
    requires MergesOver(run)
    ensures e.Point? && e.kind.Set? && e.ukey == KEY && e.seqNum == run[0].seqNum
    ensures Compact(Plain(p, run, format)) == Emit(e, End)
  {
    var c := Plain(p, run, format);
    OneStripe(p, run, format);
    var v := FoldsFrom(p, run, format, 1, run[0].value);
    e := run[0].(kind := Set, value := v);
    assert StepAt(c, 0) == Put(e, |run|, false);
    assert Out(c, |run|, false) == End;
  }

  /** One data entry over tombstones only. */
  ghost predicate OverTombs(run: seq<Entry>) {
    && OneKey(run) && |run| >= 2 && (run[0].kind.Set? || run[0].kind.Merge?)
    && forall i {:trigger run[i]} :: 0 < i < |run| ==> run[i].kind.Tombstone()
  }

  /** The tombstones vanish into it. */
  lemma {:induction false} Absorbs(p: Params, run: seq<Entry>, format: bool)
    requires OverTombs(run)
    ensures var kind := if format || run[0].kind.Merge? then SetWithDelete else Set;
            Compact(Plain(p, run, format)) == Emit(run[0].(kind := kind), End)
  {
    var c := Plain(p, run, format);
    OneStripe(p, run, format);
    assert run[1].kind.Tombstone();
    var r := StepAt(c, 0);
    if run[0].kind.Merge? {
      assert ScanMerge(c, 1, run[0].value) == MergeScan(run[0].value, SetWithDelete, 2, false);
    } else {
      assert MeetsDelete(c, 1);
    }
    if r.skip {
      OutSkipPoints(c, r.next);
    }
    assert Out(c, |run|, false) == End;
  }

  /** A SINGLEDEL and a plain SET vanish together. */
  lemma {:induction false} Cancelled(p: Params, run: seq<Entry>, format: bool)
    requires OneKey(run) && |run| == 2 && run[0].kind.SingleDelete? && run[1].kind.Set?
    ensures Compact(Plain(p, run, format)) == End
  {
    var c := Plain(p, run, format);
    OneStripe(p, run, format);
    assert SkipSingleDeletes(c, 1) == 1;
    assert StepAt(c, 0) == Pass(2, false);
    assert Out(c, 2, false) == End;
  }

  // ------------------------------------------------------------ where SINGLEDEL lands

  lemma {:induction false} SinceShape(ws: seq<UserWrite>)
    ensures var n := |Since(ws)|;
            && n <= |ws| && (n < |ws| ==> ws[|ws| - n - 1].kind.Tombstone())
            && (forall i {:trigger Since(ws)[i]} :: 0 <= i < n ==>
                ws[|ws| - n + i].kind == Since(ws)[i] && !Since(ws)[i].Tombstone())
  {
    if ws != [] {
      SinceShape(ws[..|ws| - 1]);
    }
  }

  /** The newest write that is buried. */
  lemma {:induction false} BuriedShape(ws: seq<UserWrite>) returns (x: nat)
    requires Buried(ws)
    ensures x + 1 + |Since(ws)| < |ws| && !ws[x].kind.Tombstone()
    ensures forall i {:trigger ws[i]} :: x < i < |ws| - |Since(ws)| ==> ws[i].kind.Tombstone()
  {
    var init := ws[..|ws| - 1];
    SinceShape(init);
    if ws[|ws| - 1].kind.Tombstone() && Since(init) != [] {
      x := |ws| - 2;
      assert !Since(init)[|Since(init)| - 1].Tombstone();
    } else {
      x := BuriedShape(init);
    }
  }

  lemma {:induction false} LastSet(since: seq<Kind>) returns (i: nat)
    requires since != [] && Set in since[1..]
    ensures 0 < i < |since| && since[i].Set? && forall j :: i < j < |since| ==> !since[j].Set?
  {
    i := |since| - 1;
    if !since[i].Set? {
      assert since[1..] == since[..i][1..] + [since[i]];
      i := LastSet(since[..i]);
    }
  }

  // ------------------------------------------------------------------ betrayals

  /** These writes delete everything, yet after some run of at most k compactions the
      value reads again that was there after the first m of them. */
  ghost predicate Betrays(p: Params, ws: seq<UserWrite>, m: nat, k: nat) {
    && 0 < m < |ws| && Latest(p.merge, ws) == None && Latest(p.merge, ws[..m]).Some?
    && exists s :: Within(p, s, k) && s.writes == ws && ReadAt(p, s.history, SEQ_MAX) == Latest(p.merge, ws[..m])
  }

  lemma {:induction false} BetrayedReads(p: Params, ws: seq<UserWrite>, m: nat, k: nat)
    requires Betrays(p, ws, m, k)
    ensures !AllRunsKeep(p, ws)
  {
    var s :| Within(p, s, k) && s.writes == ws && ReadAt(p, s.history, SEQ_MAX) == Latest(p.merge, ws[..m]);
    assert Reachable(p, s) && !ReadsKept(p, s);
  }

  /** A history that was never compacted reads what was written. */
  lemma {:induction false} RawReads(p: Params, ws: seq<UserWrite>)
    requires |ws| < SEQ_MAX
    ensures ReadAt(p, Raw(ws), SEQ_MAX) == Latest(p.merge, ws)
  {
    if ws != [] {
      RawReads(p, ws[..|ws| - 1]);
      assert Raw(ws)[1..] == Raw(ws[..|ws| - 1]);
      assert !CoveredAt({}, |ws|, SEQ_MAX);
    }
  }

  lemma {:induction false} RawDrop(ws: seq<UserWrite>, i: nat)
    requires i <= |ws|
    ensures |Raw(ws)| == |ws| && Raw(ws)[i..] == Raw(ws[..|ws| - i])
  {
    if i == 0 {
      assert ws[..|ws|] == ws;
      if ws != [] {
        RawAt(ws, 0);
      }
    } else {
      var init := ws[..|ws| - 1];
      RawDrop(init, i - 1);
      assert init[..|init| - (i - 1)] == ws[..|ws| - i];
      assert Raw(ws)[1..] == Raw(init);
      assert Raw(ws)[i..] == Raw(init)[i - 1..];
    }
  }

  /** A SINGLEDEL and a SET over older data: one compaction more. */
  lemma {:induction false} Uncover(p: Params, s: Store, m: nat, k: nat)
    requires Within(p, s, k) && s.snapshots == map[] && OneKey(s.history) && |s.history| >= 2 && |s.writes| < SEQ_MAX
    requires s.history[0].kind.SingleDelete? && s.history[1].kind.Set?
    requires 0 < m < |s.writes| && !s.writes[m - 1].kind.Tombstone() && s.history[2..] == Raw(s.writes[..m])
    requires s.writes[|s.writes| - 1].kind.SingleDelete?
    ensures Betrays(p, s.writes, m, k + 1)
  {
    hide Within;
    var run := s.history[0..2];
    OneKeySlice(s.history, 0, 2);
    Cancelled(p, run, true);
    var s' := Rewrite(p, s, k, 0, 2, true, []);
    assert s'.history == s.history[2..];
    RawReads(p, s.writes[..m]);
    assert s.writes[..m][m - 1] == s.writes[m - 1];
  }

  /** The history of `ws` once a SINGLEDEL has been written on top. */
  lemma {:induction false} OnTop(p: Params, ws: seq<UserWrite>, w: UserWrite) returns (s: Store)
    requires UserWrites(ws) && |ws| + 2 < SEQ_MAX && w.kind.SingleDelete?
    ensures Within(p, s, 0) && s.snapshots == map[] && s.writes == ws + [w] && s.history == Raw(ws + [w])
    ensures OneKey(s.history) && |s.history| == |ws| + 1
    ensures s.history[0].kind.SingleDelete?
    ensures forall i {:trigger s.history[i]} :: 0 < i <= |ws| ==> s.history[i].kind == ws[|ws| - i].kind
    ensures |Since(ws)| <= |ws|
    ensures forall i {:trigger s.history[i]} :: 0 < i <= |Since(ws)| ==> s.history[i].kind == Since(ws)[|Since(ws)| - i]
  {
    hide Within, Raw, Since, UserWrites;
    assert UserWrites(ws + [w]) by {
      MoreUserWrites(ws, w);
    }
    s := Replay(p, ws + [w]);
    RawOnTop(ws, w);
    SinceInHistory(ws, s.history);
  }

  lemma {:induction false} MoreUserWrites(ws: seq<UserWrite>, w: UserWrite)
    requires UserWrites(ws) && UserKind(w.kind)
    ensures UserWrites(ws + [w])
  {
  }

  lemma {:induction false} RawOnTop(ws: seq<UserWrite>, w: UserWrite)
    requires |ws| + 2 < SEQ_MAX
    ensures var h := Raw(ws + [w]);
            && OneKey(h) && |h| == |ws| + 1 && h[0].kind == w.kind
            && forall i {:trigger h[i]} :: 0 < i <= |ws| ==> h[i].kind == ws[|ws| - i].kind
  {
    var ws', h := ws + [w], Raw(ws + [w]);
    RawAt(ws', 0);
    forall i {:trigger h[i]} | 0 <= i <= |ws|
      ensures h[i] == Point(KEY, |ws'| - i, ws'[|ws| - i].kind, ws'[|ws| - i].value)
    {
      RawAt(ws', i);
    }
  }

  lemma {:induction false} SinceInHistory(ws: seq<UserWrite>, h: seq<Entry>)
    requires OneKey(h) && |h| == |ws| + 1
    requires forall i {:trigger h[i]} :: 0 < i <= |ws| ==> h[i].kind == ws[|ws| - i].kind
    ensures |Since(ws)| <= |ws|
    ensures forall i {:trigger h[i]} :: 0 < i <= |Since(ws)| ==> h[i].kind == Since(ws)[|Since(ws)| - i]
  {
    SinceShape(ws);
    var n := |Since(ws)|;
    forall i {:trigger h[i]} | 0 < i <= n ensures h[i].kind == Since(ws)[n - i] {
      assert ws[|ws| - n + (n - i)].kind == Since(ws)[n - i];
    }
  }

  /** A SET above other data of its time: the MERGEs above it are folded into it,
      and the SINGLEDEL then cancels with it. */
  lemma {:induction false} SetOnData(p: Params, ws: seq<UserWrite>, w: UserWrite) returns (m: nat)
    requires UserWrites(ws) && |ws| + 2 < SEQ_MAX && w.kind.SingleDelete?
    requires Since(ws) != [] && Set in Since(ws)[1..]
    ensures m < |ws| && Betrays(p, ws + [w], m, 2)
  {
    hide Within, Raw, Betrays, Compact, UserWrites, MergesOver;
    var since, n := Since(ws), |Since(ws)|;
    var i := LastSet(since);
    var s := OnTop(p, ws, w);
    var h, top := s.history, n - i;
    OnlyData(ws);
    assert h[top].kind == since[i] && h[top + 1].kind == since[i - 1];
    m := |ws| - top;
    RawDrop(ws + [w], top + 1);
    if top == 1 {
      FewerCompactions(p, s, 0, 1);
      Uncover(p, s, m, 1);
    } else {
      var run := h[1..top + 1];
      OneKeySlice(h, 1, top + 1);
      forall j {:trigger run[j]} | 0 <= j < top - 1 ensures run[j].kind.Merge? {
        assert run[j] == h[j + 1];
      }
      assert run[top - 1] == h[top];
      MergesOverIs(run);
      var e := Folds(p, run, true);
      FoldAndUncover(p, s, top + 1, e, m, 0);
    }
  }

  lemma {:induction false} MergesOverIs(run: seq<Entry>)
    requires OneKey(run) && |run| >= 2 && (run[|run| - 1].kind.Set? || run[|run| - 1].kind.SetWithDelete?)
    requires forall i {:trigger run[i]} :: 0 <= i < |run| - 1 ==> run[i].kind.Merge?
    ensures MergesOver(run)
  {
  }

  lemma {:induction false} FewerCompactions(p: Params, s: Store, j: nat, k: nat)
    requires Within(p, s, j) && j <= k
    ensures Within(p, s, k)
  {
    var states, actions :| IsRun(p, states, actions) && states[|states| - 1] == s && Compactions(actions) <= j;
  }

  lemma {:induction false} OnlyData(ws: seq<UserWrite>)
    requires UserWrites(ws)
    ensures forall i {:trigger Since(ws)[i]} :: 0 <= i < |Since(ws)| ==> Since(ws)[i].Set? || Since(ws)[i].Merge?
  {
    SinceShape(ws);
    forall i {:trigger Since(ws)[i]} | 0 <= i < |Since(ws)| ensures Since(ws)[i].Set? || Since(ws)[i].Merge? {
      assert UserKind(ws[|ws| - |Since(ws)| + i].kind);
    }
  }

  lemma {:induction false} FoldAndUncover(p: Params, s: Store, hi: nat, e: Entry, m: nat, k: nat)
    requires Within(p, s, k) && s.snapshots == map[] && OneKey(s.history) && 2 <= hi < |s.history|
             && |s.writes| < SEQ_MAX
    requires s.history[0].kind.SingleDelete? && Compact(Plain(p, s.history[1..hi], true)) == Emit(e, End)
    requires e.Point? && e.kind.Set? && e.ukey == KEY && e.seqNum == s.history[1].seqNum
    requires 0 < m < |s.writes| && !s.writes[m - 1].kind.Tombstone() && s.history[hi..] == Raw(s.writes[..m])
    requires s.writes[|s.writes| - 1].kind.SingleDelete?
    ensures Betrays(p, s.writes, m, k + 2)
  {
    hide Within, Raw, Betrays;
    var h := s.history;
    assert Entries(Emit(e, End)) == [e];
    var s' := Rewrite(p, s, k, 1, hi, true, [e]);
    Replaced(h, 1, hi, e, s'.history);
    assert s'.history[0] == s'.history[..1][0] == h[..1][0];
    Uncover(p, s', m, k + 1);
  }

  /** The data of `since` and the tombstones under it, in the history. */
  lemma {:induction false} OverBuried(p: Params, ws: seq<UserWrite>, s: Store, format: bool) returns (s': Store, m: nat)
    requires Buried(ws) && UserWrites(ws) && Since(ws) != [] && (p.format ==> format)
    requires Within(p, s, 0) && s.snapshots == map[] && OneKey(s.history) && |s.history| == |ws| + 1
    requires |s.writes| == |ws| + 1 && ws <= s.writes && s.history == Raw(s.writes)
    requires forall i {:trigger s.history[i]} :: 0 < i <= |ws| ==> s.history[i].kind == ws[|ws| - i].kind
    ensures Within(p, s', 1) && s' == s.(history := s'.history) && OneKey(s'.history)
    ensures 0 < m && m + |Since(ws)| < |ws| && |s'.history| > |Since(ws)| + 1 && !ws[m - 1].kind.Tombstone()
    ensures var n := |Since(ws)|;
            && s'.history[..n] == s.history[..n] && s'.history[n + 1..] == Raw(s.writes[..m])
            && s'.history[n] == s.history[n].(kind := if format || Since(ws)[0].Merge? then SetWithDelete else Set)
  {
    hide Within, Since, Buried, OverTombs, UserWrites, Raw, Compact;
    var h, n := s.history, |Since(ws)|;
    var x := BuriedShape(ws);
    var hi := |ws| - x;
    BuriedRun(ws, h, x);
    Absorbs(p, h[n..hi], format);
    var e := h[n].(kind := if format || h[n].kind.Merge? then SetWithDelete else Set);
    assert Entries(Emit(e, End)) == [e];
    s' := Rewrite(p, s, 0, n, hi, format, [e]);
    Replaced(h, n, hi, e, s'.history);
    m := x + 1;
    RawDrop(s.writes, hi);
  }

  lemma {:induction false} BuriedRun(ws: seq<UserWrite>, h: seq<Entry>, x: nat)
    requires UserWrites(ws) && Since(ws) != [] && OneKey(h) && |h| == |ws| + 1
    requires forall i {:trigger h[i]} :: 0 < i <= |ws| ==> h[i].kind == ws[|ws| - i].kind
    requires x + 1 + |Since(ws)| < |ws|
    requires forall i {:trigger ws[i]} :: x < i < |ws| - |Since(ws)| ==> ws[i].kind.Tombstone()
    ensures var n := |Since(ws)|; OverTombs(h[n..|ws| - x]) && h[n].kind == Since(ws)[0]
  {
    var n := |Since(ws)|;
    SinceShape(ws);
    OnlyData(ws);
    assert ws[|ws| - n + 0].kind == Since(ws)[0];
    var run := h[n..|ws| - x];
    OneKeySlice(h, n, |ws| - x);
    forall i {:trigger run[i]} | 0 < i < |run| ensures run[i].kind.Tombstone() {
      assert run[i] == h[n + i];
      assert ws[|ws| - n - i].kind.Tombstone();
    }
  }

  /** One entry in place of a run. */
  lemma {:induction false} Replaced(h: seq<Entry>, lo: nat, hi: nat, e: Entry, h': seq<Entry>)
    requires OneKey(h) && lo < hi < |h| && h' == h[..lo] + [e] + h[hi..]
    requires e.Point? && e.ukey == KEY && e.seqNum == h[lo].seqNum
    ensures OneKey(h') && |h'| > lo + 1 && h'[..lo] == h[..lo] && h'[lo] == e && h'[lo + 1..] == h[hi..]
            && h'[lo + 1] == h[hi]
  {
    forall i {:trigger h'[i]} | 0 <= i < |h'| ensures h'[i].Point? && h'[i].ukey == KEY && h'[i].seqNum < SEQ_MAX {
      assert i < lo ==> h'[i] == h[i];
      assert i > lo ==> h'[i] == h[hi + i - lo - 1];
      assert h[lo].seqNum < SEQ_MAX;
    }
  }

  /** MERGEs over one write with something buried: the tombstone goes into that
      write, the MERGEs are folded into it, and nothing tells of the tombstone. */
  lemma {:induction false} MergesOnBuried(p: Params, ws: seq<UserWrite>, w: UserWrite) returns (m: nat)
    requires UserWrites(ws) && |ws| + 2 < SEQ_MAX && w.kind.SingleDelete?
    requires |Since(ws)| >= 2 && Set !in Since(ws)[1..] && Buried(ws)
    ensures m + |Since(ws)| < |ws| && Betrays(p, ws + [w], m, 3)
  {
    hide Within, Raw;
    var since, n := Since(ws), |Since(ws)|;
    var s := OnTop(p, ws, w);
    var s';
    s', m := OverBuried(p, ws, s, true);
    OnlyData(ws);
    var h := s'.history;
    var run := h[1..n + 1];
    OneKeySlice(h, 1, n + 1);
    assert run[n - 1] == h[n];
    forall j {:trigger run[j]} | 0 <= j < n - 1 ensures run[j].kind.Merge? {
      assert run[j] == h[..n][j + 1] == s.history[..n][j + 1] == s.history[j + 1];
      assert since[n - 1 - j] == since[1..][n - 2 - j];
    }
    assert h[0] == h[..n][0] == s.history[..n][0];
    var e := Folds(p, run, true);
    assert h[1] == run[0];
    FoldAndUncover(p, s', n + 1, e, m, 1);
  }

  /** A single SET with something buried, where SETWITHDEL is not known. */
  lemma {:induction false} SetOnBuried(p: Params, ws: seq<UserWrite>, w: UserWrite) returns (m: nat)
    requires UserWrites(ws) && |ws| + 2 < SEQ_MAX && w.kind.SingleDelete?
    requires Since(ws) == [Set] && Buried(ws) && !p.format
    ensures m + 1 < |ws| && Betrays(p, ws + [w], m, 2)
  {
    hide Within, Raw;
    var s := OnTop(p, ws, w);
    var s';
    s', m := OverBuried(p, ws, s, false);
    assert s'.history[0] == s'.history[..1][0] == s.history[..1][0];
    Uncover(p, s', m, 1);
  }

  // -------------------------------------------------------------------- theorem

  /** After an unsafe SINGLEDEL at most three compactions bring back the value that was
      there after some earlier write: one under a SET that is deleted, or one buried. */
  lemma {:induction false} UnsafeBetrayed(p: Params, ws: seq<UserWrite>, w: UserWrite) returns (m: nat)
    requires UserWrites(ws) && |ws| + 2 < SEQ_MAX && w.kind.SingleDelete? && !SafeUse(p.format, Since(ws), Buried(ws))
    ensures m < |ws| && Betrays(p, ws + [w], m, 3)
    ensures Set !in Since(ws)[1..] ==> m + |Since(ws)| < |ws|
  {
    hide Betrays;
    SinceShape(ws);
    var since := Since(ws);
    if Set in since[1..] {
      m := SetOnData(p, ws, w);
      BetraysSlower(p, ws + [w], m, 2, 3);
    } else if |since| >= 2 {
      m := MergesOnBuried(p, ws, w);
    } else {
      assert ws[|ws| - 1 + 0].kind == since[0];
      assert since == [since[0]];
      m := SetOnBuried(p, ws, w);
      BetraysSlower(p, ws + [w], m, 2, 3);
    }
  }

  lemma {:induction false} BetraysSlower(p: Params, ws: seq<UserWrite>, m: nat, j: nat, k: nat)
    requires Betrays(p, ws, m, j) && j <= k
    ensures Betrays(p, ws, m, k)
  {
    var s :| Within(p, s, j) && s.writes == ws && ReadAt(p, s.history, SEQ_MAX) == Latest(p.merge, ws[..m]);
    FewerCompactions(p, s, j, k);
  }

  lemma {:induction false} FewerRuns(p: Params, ws: seq<UserWrite>, more: seq<UserWrite>)
    requires ws <= more && AllRunsKeep(p, more)
    ensures AllRunsKeep(p, ws)
  {
  }

  lemma {:induction false} KeptMeansSafe(p: Params, ws: seq<UserWrite>)
    requires UserWrites(ws) && |ws| + 1 < SEQ_MAX && AllRunsKeep(p, ws)
    ensures SafeWrites(p.format, ws)
  {
    if ws != [] {
      var init, last := ws[..|ws| - 1], ws[|ws| - 1];
      FewerRuns(p, init, ws);
      KeptMeansSafe(p, init);
      assert ws == init + [last];
      if last.kind.SingleDelete? && !SafeUse(p.format, Since(init), Buried(init)) {
        var m := UnsafeBetrayed(p, init, last);
        BetrayedReads(p, ws, m, 3);
      }
    }
  }

  lemma {:induction false} SafePrefix(format: bool, ws: seq<UserWrite>, more: seq<UserWrite>)
    requires ws <= more && SafeWrites(format, more)
    ensures SafeWrites(format, ws)
    decreases |more|
  {
    if |ws| < |more| {
      SafePrefix(format, ws, more[..|more| - 1]);
    } else {
      assert ws == more;
    }
  }

  /** Whatever is compacted when, and whichever snapshots are open, these writes
      never read wrongly if and only if each SINGLEDEL among them is safe. */
  lemma {:induction false} SingleDeleteSafeExactly(p: Params, ws: seq<UserWrite>)
    requires Associative(p.merge) && UserWrites(ws) && |ws| + 1 < SEQ_MAX
    ensures AllRunsKeep(p, ws) <==> SafeWrites(p.format, ws)
  {
    if AllRunsKeep(p, ws) {
      KeptMeansSafe(p, ws);
    }
    if SafeWrites(p.format, ws) {
      forall s | Reachable(p, s) && s.writes <= ws ensures ReadsKept(p, s) {
        SafePrefix(p.format, s.writes, ws);
        var states, actions :| IsRun(p, states, actions) && states[|states| - 1] == s;
        SingleDeleteNeverResurrects(p, states, actions, |states| - 1);
      }
    }
  }

  /** The documented use: nothing to delete, or one SET. */
  predicate Documented(ws: seq<UserWrite>) {
    ws == [] ||
    (var init := ws[..|ws| - 1];
     Documented(init) && (ws[|ws| - 1].kind.SingleDelete? ==> Since(init) == [] || Since(init) == [Set]))
  }

  /** Each SINGLEDEL that deletes a SET deletes the first data of the key. */
  predicate DeletesFirst(ws: seq<UserWrite>) {
    ws == [] ||
    (var init := ws[..|ws| - 1];
     DeletesFirst(init) && (ws[|ws| - 1].kind.SingleDelete? && Since(init) != [] ==> !Buried(init)))
  }

  /** Documented use is safe where SETWITHDEL is known, and elsewhere just if it
      happens at most once over data. */
  lemma {:induction false} DocumentedUse(ws: seq<UserWrite>)
    requires Documented(ws)
    ensures SafeWrites(true, ws) && (SafeWrites(false, ws) <==> DeletesFirst(ws))
  {
    if ws != [] {
      DocumentedUse(ws[..|ws| - 1]);
    }
  }

  lemma {:induction false} DocumentedRuns(p: Params, ws: seq<UserWrite>)
    requires Associative(p.merge) && UserWrites(ws) && |ws| + 1 < SEQ_MAX && Documented(ws)
    ensures AllRunsKeep(p, ws) <==> p.format || DeletesFirst(ws)
  {
    DocumentedUse(ws);
    SingleDeleteSafeExactly(p, ws);
  }

  /** Over a key set twice, a SINGLEDEL can bring the older value back. */
  lemma {:induction false} MisuseResurrects(p: Params, x: Value, y: Value, z: Value)
    ensures var ws := [UserWrite(Set, x), UserWrite(Set, y), UserWrite(SingleDelete, z)];
            Betrays(p, ws, 1, 3) && Latest(p.merge, ws[..1]) == Some(x)
  {
    hide Since, Buried, Betrays, Latest;
    var a, b, c := UserWrite(Set, x), UserWrite(Set, y), UserWrite(SingleDelete, z);
    NothingYet();
    SinceNext([], a);
    SinceNext([] + [a], b);
    assert [Set, Set][1..] == [Set];
    var m := UnsafeBetrayed(p, [] + [a] + [b], c);
    FirstOf(p, [a, b, c], [] + [a] + [b] + [c], m);
  }

  /** The first write is all that can come back. */
  lemma {:induction false} FirstOf(p: Params, ws: seq<UserWrite>, ws': seq<UserWrite>, m: nat)
    requires Betrays(p, ws', m, 3) && m < 2 && ws == ws' && ws[0].kind.Set?
    ensures Betrays(p, ws, 1, 3) && Latest(p.merge, ws[..1]) == Some(ws[0].value)
  {
    assert ws[..1] == [ws[0]] && [ws[0]][..0] == [];
  }

  /** Over two MERGEs, what was deleted before them can come back. */
  lemma {:induction false} MergesResurrect(p: Params, x: Value, y: Value, z: Value)
    ensures var ws := [UserWrite(Set, x), UserWrite(Delete, []), UserWrite(Merge, y), UserWrite(Merge, z),
                       UserWrite(SingleDelete, [])];
            Betrays(p, ws, 1, 3) && Latest(p.merge, ws[..1]) == Some(x)
  {
    hide Since, Buried, Betrays, Latest;
    var a, b, c, d, e :=
      UserWrite(Set, x), UserWrite(Delete, []), UserWrite(Merge, y), UserWrite(Merge, z), UserWrite(SingleDelete, []);
    NothingYet();
    var ab := [] + [a] + [b];
    SinceNext([], a);
    SinceNext([] + [a], b);
    SinceNext(ab, c);
    SinceNext(ab + [c], d);
    assert [Merge, Merge][1..] == [Merge];
    var m := UnsafeBetrayed(p, ab + [c] + [d], e);
    FirstOf(p, [a, b, c, d, e], ab + [c] + [d] + [e], m);
  }

  /** Without SETWITHDEL, documented use a second time can bring back the first value. */
  lemma {:induction false} OldFormatResurrects(p: Params, x: Value, y: Value)
    requires !p.format
    ensures var ws := [UserWrite(Set, x), UserWrite(SingleDelete, []), UserWrite(Set, y), UserWrite(SingleDelete, [])];
            Betrays(p, ws, 1, 3) && Latest(p.merge, ws[..1]) == Some(x)
  {
    hide Since, Buried, Betrays, Latest;
    var a, b, c := UserWrite(Set, x), UserWrite(SingleDelete, []), UserWrite(Set, y);
    NothingYet();
    var ab := [] + [a] + [b];
    SinceNext([], a);
    SinceNext([] + [a], b);
    SinceNext(ab, c);
    assert [Set][1..] == [] && [] + [Set] == [Set];
    var m := UnsafeBetrayed(p, ab + [c], b);
    FirstOf(p, [a, b, c, b], ab + [c] + [b], m);
  }

  lemma NothingYet()
    ensures Since([]) == [] && !Buried([])
  {
  }
}
