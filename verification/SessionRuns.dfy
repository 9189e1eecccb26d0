/**
  What runs of session operations keep besides the count of open sessions: a manager enabled for one
  session only is disabled again, checkpoints form a chain, and each step reads as it should.
 */
module SessionRuns {
  import opened Outcomes
  import opened Sessions
  import opened SessionLaws

  // ---- enabling for the time of a session ----------------------------------------------------------

  ghost predicate HasLayer(layers: seq<Layer>, id: nat) { exists k :: 0 <= k < |layers| && layers[k].id == id }

  /** Neither the session that ends nor any layer that goes with it was to disable the manager. */
  ghost predicate NothingDisables(s: State, id: nat, after: State)
  {
    forall i :: 0 <= i < |s.layers| && s.layers[i].disableOnExit ==>
      s.layers[i].id != id && HasLayer(after.layers, s.layers[i].id)
  }

  lemma {:induction false} KeptBelow(s: State, layers: seq<Layer>, k: nat, n: nat)
    requires Inv(s) && n <= |layers| && n <= |s.layers| && k <= n
    requires forall j :: 0 <= j < n ==> layers[j].id == s.layers[j].id
    ensures forall i :: 0 <= i < |s.layers| ==> (HasLayer(layers[..k], s.layers[i].id) <==> i < k)
  {
    forall i | 0 <= i < |s.layers| ensures HasLayer(layers[..k], s.layers[i].id) <==> i < k {
      if i < k { assert layers[..k][i].id == s.layers[i].id; }
      if HasLayer(layers[..k], s.layers[i].id) {
        var j :| 0 <= j < k && layers[..k][j].id == s.layers[i].id;
        assert layers[..k][j] == layers[j];
      }
    }
  }

  lemma {:induction false} DisablesFrom(layers: seq<Layer>, k: nat)
    requires k <= |layers|
    ensures AnyDisables(layers[k..]) <==> exists i :: k <= i < |layers| && layers[i].disableOnExit
  {
    if i :| k <= i < |layers| && layers[i].disableOnExit { assert layers[k..][i - k] == layers[i]; }
    if AnyDisables(layers[k..]) {
      var j :| 0 <= j < |layers[k..]| && layers[k..][j].disableOnExit;
      assert layers[k + j].disableOnExit;
    }
  }

  lemma {:induction false} EnabledAfterCommit(s: State, id: nat)
    requires Inv(s) && MayEnd(s, id, Commit)
    ensures EndSession(s, id, Commit).enabled <==> s.enabled && NothingDisables(s, id, EndSession(s, id, Commit))
  {
    hide Inv, CountOpen, AnyDisables, AllSettled, Open, FirstAbandoned, HasLayer;
    var i := IndexOf(s.layers, id).value;
    OnlyAt(s, i);
    var layers := s.layers[i := s.layers[i].(committed := true)];
    var k := FirstAbandoned(layers);
    DisablesFrom(layers, k);
    KeptBelow(s, layers, k, |layers|);
  }

  lemma {:induction false} EnabledAfterMerge(s: State, id: nat)
    requires Inv(s) && MayEnd(s, id, Merge)
    ensures EndSession(s, id, Merge).enabled <==> s.enabled && NothingDisables(s, id, EndSession(s, id, Merge))
  {
    hide Inv, CountOpen, MergedWrites, AnyDisables, AllSettled, Open, FirstAbandoned, HasLayer;
    var i := IndexOf(s.layers, id).value;
    OnlyAt(s, i);
    var below := s.layers[i - 1];
    var layers := s.layers[..i - 1] + [below.(values := MergedWrites(below.values, s.layers[i..]))];
    var k := FirstAbandoned(layers);
    DisablesFrom(layers, k);
    DisablesFrom(s.layers, i);
    KeptBelow(s, layers, k, |layers|);
  }

  lemma {:induction false} EnabledAfterRevoke(s: State, id: nat)
    requires Inv(s) && MayEnd(s, id, Revoke)
    ensures EndSession(s, id, Revoke).enabled <==> s.enabled && NothingDisables(s, id, EndSession(s, id, Revoke))
  {
    hide Inv, CountOpen, AnyDisables, AllSettled, Open, FirstAbandoned, HasLayer;
    var i := IndexOf(s.layers, id).value;
    OnlyAt(s, i);
    var layers := s.layers[..i];
    var k := FirstAbandoned(layers);
    DisablesFrom(layers, k);
    DisablesFrom(s.layers, i);
    KeptBelow(s, layers, k, |layers|);
  }

  /** However a session ends, the manager stays enabled exactly when nothing that ends or goes was to disable it. */
  lemma {:induction false} EnabledAfterEnd(s: State, id: nat, how: Finish)
    requires Inv(s) && MayEnd(s, id, how)
    ensures EndSession(s, id, how).enabled <==> s.enabled && NothingDisables(s, id, EndSession(s, id, how))
  {
    hide Inv, EndSession, MayEnd, NothingDisables;
    match how
    case Commit => EnabledAfterCommit(s, id);
    case Merge => EnabledAfterMerge(s, id);
    case Revoke => EnabledAfterRevoke(s, id);
  }

  lemma {:induction false} OnlyAt(s: State, i: nat)
    requires Inv(s) && i < |s.layers|
    ensures forall j :: 0 <= j < |s.layers| && s.layers[j].id == s.layers[i].id ==> j == i
  {
  }

  /** Enabled means that some session which is not committed yet will disable the manager. */
  ghost predicate Temporary(s: State)
  {
    s.enabled ==> exists i :: 0 <= i < |s.layers| && !s.layers[i].committed && s.layers[i].disableOnExit
  }

  /** The one operation that can drop such a session without disabling, and the one that is meant to enable. */
  predicate Lasting(s: State, op: Op)
  {
    match op
    case SetEnabled(on) => on
    case Destroy => s.active == 0 && !AllCommitted(s.layers)
    case _ => false
  }

  lemma {:induction false} WitnessStays(s: State, t: State, w: nat, v: nat)
    requires w < |s.layers| && !s.layers[w].committed && s.layers[w].disableOnExit
    requires v < |t.layers| && !t.layers[v].committed && t.layers[v].disableOnExit
    ensures Temporary(t)
  {
  }

  lemma {:induction false} EndKeepsTemporary(s: State, id: nat, how: Finish)
    requires Inv(s) && Temporary(s)
    ensures Temporary(EndSession(s, id, how))
  {
    hide Inv, CountOpen, MergedWrites, AnyDisables, AllSettled, FirstAbandoned, Temporary, MayEnd, NothingDisables;
    var t := EndSession(s, id, how);
    if MayEnd(s, id, how) && t.enabled {
      EnabledAfterEnd(s, id, how);
      var w := TemporaryIs(s);
      StillUncommitted(s, id, how, w);
      var v: nat :| v < |t.layers| && t.layers[v].id == s.layers[w].id && !t.layers[v].committed && t.layers[v].disableOnExit;
      WitnessStays(s, t, w, v);
    } else {
      NotEnabled(s, t);
    }
  }

  lemma {:induction false} TemporaryIs(s: State) returns (w: nat)
    requires Temporary(s) && s.enabled
    ensures w < |s.layers| && !s.layers[w].committed && s.layers[w].disableOnExit
  {
    w :| w < |s.layers| && !s.layers[w].committed && s.layers[w].disableOnExit;
  }

  /** A session other than the one that ends, if it stays, is as far as it was. */
  lemma {:induction false} StillUncommitted(s: State, id: nat, how: Finish, w: nat)
    requires Inv(s) && MayEnd(s, id, how) && w < |s.layers| && s.layers[w].disableOnExit
    requires NothingDisables(s, id, EndSession(s, id, how))
    ensures exists v: nat :: v < |EndSession(s, id, how).layers| && EndSession(s, id, how).layers[v].id == s.layers[w].id
              && EndSession(s, id, how).layers[v].committed == s.layers[w].committed
              && EndSession(s, id, how).layers[v].disableOnExit
  {
    hide CountOpen, MergedWrites, AnyDisables, AllSettled, FirstAbandoned;
    var t, i := EndSession(s, id, how), IndexOf(s.layers, id).value;
    assert s.layers[w].id != id && HasLayer(t.layers, s.layers[w].id);
    var v :| 0 <= v < |t.layers| && t.layers[v].id == s.layers[w].id;
    assert t.layers[v].id == s.layers[v].id && v == w;
    assert t.layers[v].committed == s.layers[v].committed && t.layers[v].disableOnExit == s.layers[v].disableOnExit;
  }

  lemma {:induction false} PushKeepsTemporary(s: State, temp: bool)
    requires Temporary(s) && (s.enabled || temp)
    ensures Temporary(PushLayer(s, temp))
  {
    var t := PushLayer(s, temp);
    if s.enabled {
      var w := TemporaryIs(s);
      assert t.layers[w] == s.layers[w];
    } else {
      assert t.layers[|s.layers|].disableOnExit;
    }
  }

  lemma {:induction false} CloseKeepsTemporary(s: State, id: nat)
    requires Inv(s) && Temporary(s)
    ensures Temporary(CloseSession(s, id))
  {
    hide Inv, EndSession;
    var i, t := IndexOf(s.layers, id), CloseSession(s, id);
    EndKeepsTemporary(s, id, Revoke);
    if i.Some? && Open(s.layers[i.value]) && AnyOpen(s.layers[i.value + 1..]) && s.enabled {
      var w := TemporaryIs(s);
      assert !t.layers[w].committed && t.layers[w].disableOnExit;
    }
  }

  lemma {:induction false} CheckpointKeepsTemporary(s: State, id: nat, point: Point)
    requires Temporary(s)
    ensures Temporary(Checkpointed(s, id, point))
  {
    hide Captured;
    var t := Checkpointed(s, id, point);
    if MayCheckpoint(s, id, point) && t.enabled {
      var w := TemporaryIs(s);
      assert t.layers[w] == s.layers[w];
    }
  }

  lemma {:induction false} CutKeepsTemporary(s: State, n: nat, t: State)
    requires Temporary(s) && n <= |s.layers| && t.layers == s.layers[..n] && t.enabled == s.enabled
    requires forall j :: n <= j < |s.layers| ==> s.layers[j].committed
    ensures Temporary(t)
  {
    if s.enabled {
      var w := TemporaryIs(s);
      assert t.layers[w] == s.layers[w];
    }
  }

  lemma {:induction false} PendingKeepsTemporary(s: State, id: nat)
    requires Temporary(s)
    ensures Temporary(PendingReset(s, id)) && Temporary(PendingForced(s))
  {
    hide CountOpen, AnyDisables, AnyOpen;
    if s.enabled {
      var w := TemporaryIs(s);
      var t := PendingReset(s, id);
      if MayReset(s, id) {
        var i := IndexOf(s.layers, id).value;
        DisablesFrom(s.layers, i);
        if w < i { assert t.layers[w] == s.layers[w]; } else { assert t.layers[i].disableOnExit; }
      }
      var u, j := PendingForced(s), if s.pendingOuter.Some? then IndexOf(s.layers, s.pendingOuter.value) else None;
      if j.Some? {
        DisablesFrom(s.layers, j.value);
        if w < j.value { assert u.layers[w] == s.layers[w]; }
      }
    }
  }

  lemma {:induction false} WriteKeepsTemporary(s: State, id: nat, key: Key, value: Overlay)
    requires Temporary(s)
    ensures Temporary(Step(s, Write(id, key, value)))
  {
    var t := Step(s, Write(id, key, value));
    if s.enabled {
      var w := TemporaryIs(s);
      assert !t.layers[w].committed && t.layers[w].disableOnExit;
    }
  }

  lemma {:induction false} StepKeepsTemporary(s: State, op: Op)
    requires Inv(s) && Temporary(s) && !Lasting(s, op)
    ensures Temporary(Step(s, op))
  {
    hide EndSession, CloseSession, Checkpointed, PushLayer, PendingReset, PendingForced, Temporary, Over, MergedWrites, Inv, Captured;
    match op
    case Build(temp) => if s.enabled || temp { PushKeepsTemporary(s, temp); }
    case BuildChild(parent) => PushKeepsTemporary(s, true);
    case Write(id, key, value) => WriteKeepsTemporary(s, id, key, value);
    case End(id, how) => EndKeepsTemporary(s, id, how);
    case Close(id) => CloseKeepsTemporary(s, id);
    case CommitWithCheckpoint(id, point) => CheckpointKeepsTemporary(s, id, point);
    case RewindCheckpoint(expected) => if MayRewind(s, expected) { CutKeepsTemporary(s, |s.layers| - 1, Step(s, op)); }
    case Pop =>
      if s.active == 0 && s.layers != [] && s.layers[|s.layers| - 1].committed { CutKeepsTemporary(s, |s.layers| - 1, Step(s, op)); }
    case FlushCommitted => if s.active == 0 && AllCommitted(s.layers) { CutKeepsTemporary(s, 0, Step(s, op)); }
    case Destroy => if s.active == 0 { CutKeepsTemporary(s, 0, Step(s, op)); }
    case RecordCheckpoint(point) => CutKeepsTemporary(s, |s.layers|, Step(s, op));
    case BuildPending =>
      PushKeepsTemporary(s, true);
      OuterIsNoMatter(PushLayer(s, true), Some(s.nextId));
    case ResetPending(id) => PendingKeepsTemporary(s, id);
    case ReleasePending(id) => OuterIsNoMatter(s, None);
    case ForceResetPending => PendingKeepsTemporary(s, 0);
    case SetEnabled(on) => NotEnabled(s, Step(s, op));
  }

  lemma {:induction false} OuterIsNoMatter(s: State, outer: Option<nat>)
    ensures Temporary(s) <==> Temporary(s.(pendingOuter := outer))
  {
  }

  lemma {:induction false} NotEnabled(s: State, t: State)
    requires Temporary(s) && (t == s || !t.enabled)
    ensures Temporary(t)
  {
  }

  /** No operation of the run enables for good, nor throws an uncommitted layer away. */
  predicate Temperate(s: State, ops: seq<Op>)
    decreases |ops|
  {
    ops == [] || (!Lasting(s, ops[0]) && Temperate(Step(s, ops[0]), ops[1..]))
  }

  lemma {:induction false} RunKeepsTemporary(s: State, ops: seq<Op>)
    requires Inv(s) && Temporary(s) && Temperate(s, ops)
    ensures Temporary(Run(s, ops))
    decreases |ops|
  {
    hide Inv, Step, Temporary, Lasting;
    if ops != [] {
      StepKeepsInv(s, ops[0]);
      StepKeepsTemporary(s, ops[0]);
      RunKeepsTemporary(Step(s, ops[0]), ops[1..]);
    }
  }

  /** A disabled manager is disabled again whenever a run has come to rest, whatever sessions it enabled it for. */
  lemma {:induction false} DisabledAgain(s: State, ops: seq<Op>)
    requires Inv(s) && !s.enabled && Temperate(s, ops) && AllSettled(Run(s, ops).layers)
    ensures !Run(s, ops).enabled
  {
    hide Inv, Run, Temperate;
    RunKeepsTemporary(s, ops);
  }

  /** A session that disables on exit is closed under its child, the child commits a block, and all is destroyed. */
  const ORPHANED_OPS: seq<Op> :=
    [Build(true), BuildChild(1), Close(1), CommitWithCheckpoint(2, Point(5, [9])), Destroy]

  /** The exception: what is destroyed while it is only marked as closed never disables the manager. */
  lemma {:induction false} DestroyLeavesEnabled()
    ensures var s := Run(INITIAL.(enabled := false), ORPHANED_OPS);
            s.enabled && s.layers == [] && s.active == 0
  {
    hide CountOpen, Captured, Run, IndexOf;
    var s0 := INITIAL.(enabled := false);
    var one, two := Layer(1, map[], false, false, true), Layer(2, map[], false, false, false);
    var s1 := Step(s0, ORPHANED_OPS[0]);
    assert s1 == s0.(layers := [one], enabled := true, active := 1, nextId := 2);
    var s2 := Step(s1, ORPHANED_OPS[1]);
    assert s2 == s1.(layers := [one, two], active := 2, nextId := 3);
    var s3 := Step(s2, ORPHANED_OPS[2]);
    SecondOfTwo(s2.layers);
    assert Open(s2.layers[1..][0]);
    assert s3 == s2.(layers := [one.(abandoned := true), two], active := 1);
    var s4 := Step(s3, ORPHANED_OPS[3]);
    SecondOfTwo(s3.layers);
    assert s3.layers[2..] == [];
    assert s4.enabled && s4.active == 0;
    var s5 := Step(s4, ORPHANED_OPS[4]);
    RunStep(s0, ORPHANED_OPS, 0);
    RunStep(s1, ORPHANED_OPS, 1);
    RunStep(s2, ORPHANED_OPS, 2);
    RunStep(s3, ORPHANED_OPS, 3);
    RunStep(s4, ORPHANED_OPS, 4);
    assert ORPHANED_OPS[0..] == ORPHANED_OPS && ORPHANED_OPS[5..] == [];
    RunNothing(s5);
  }

  // ---- checkpoints ---------------------------------------------------------------------------------------

  function Before(checkpoints: seq<Checkpoint>, i: nat): Option<seq<int>>
    requires i <= |checkpoints|
  {
    if i == 0 then None else Some(checkpoints[i - 1].point.identity)
  }

  ghost predicate NamesItsParent(checkpoints: seq<Checkpoint>, i: nat)
    requires i < |checkpoints|
  {
    checkpoints[i].parent == Before(checkpoints, i)
  }

  ghost predicate Rising(checkpoints: seq<Checkpoint>)
  {
    forall i, j :: 0 <= i < j < |checkpoints| ==>
      checkpoints[i].point.block < checkpoints[j].point.block && checkpoints[i].point.identity != checkpoints[j].point.identity
  }

  /** Each checkpoint names the one before it, in a new identity and above its block. */
  ghost predicate Chained(checkpoints: seq<Checkpoint>)
  {
    Rising(checkpoints) && forall i: nat :: i < |checkpoints| ==> NamesItsParent(checkpoints, i)
  }

  lemma {:induction false} SameBefore(a: seq<Checkpoint>, b: seq<Checkpoint>, i: nat)
    requires a <= b && i < |a|
    ensures NamesItsParent(a, i) <==> NamesItsParent(b, i)
  {
    assert i > 0 ==> a[i - 1] == b[i - 1];
  }

  lemma {:induction false} RisesOnce(checkpoints: seq<Checkpoint>, c: Checkpoint)
    requires Rising(checkpoints) && FitsStack(checkpoints, c.point)
    ensures Rising(checkpoints + [c])
  {
    var n := |checkpoints|;
    forall i | 0 <= i < n ensures checkpoints[i].point.block < c.point.block {
      assert i < n - 1 ==> checkpoints[i].point.block < checkpoints[n - 1].point.block;
    }
  }

  lemma {:induction false} ChainGrows(checkpoints: seq<Checkpoint>, point: Point, view: Image)
    requires Chained(checkpoints) && FitsStack(checkpoints, point)
    ensures Chained(checkpoints + [Checkpoint(point, LastIdentity(checkpoints), view)])
  {
    hide Rising, FitsStack, NamesItsParent;
    var n, c := |checkpoints|, Checkpoint(point, LastIdentity(checkpoints), view);
    var more := checkpoints + [c];
    RisesOnce(checkpoints, c);
    forall i: nat | i < |more| ensures NamesItsParent(more, i) {
      if i < n { SameBefore(checkpoints, more, i); } else { NewNames(checkpoints, c); }
    }
  }

  lemma {:induction false} NewNames(checkpoints: seq<Checkpoint>, c: Checkpoint)
    requires c.parent == LastIdentity(checkpoints)
    ensures NamesItsParent(checkpoints + [c], |checkpoints|)
  {
  }

  lemma {:induction false} ChainShrinks(checkpoints: seq<Checkpoint>)
    requires Chained(checkpoints) && checkpoints != []
    ensures Chained(checkpoints[..|checkpoints| - 1])
  {
    hide NamesItsParent;
    var fewer := checkpoints[..|checkpoints| - 1];
    forall i: nat | i < |fewer| ensures NamesItsParent(fewer, i) { SameBefore(fewer, checkpoints, i); }
  }

  lemma {:induction false} StepKeepsChain(s: State, op: Op)
    requires Chained(s.checkpoints)
    ensures Chained(Step(s, op).checkpoints)
  {
    hide Captured, CountOpen, Chained, FitsStack;
    match op
    case CommitWithCheckpoint(id, point) =>
      if MayCheckpoint(s, id, point) { ChainGrows(s.checkpoints, point, Captured(s.root, s.layers)); }
    case RecordCheckpoint(point) =>
      if MayRecord(s, point) { ChainGrows(s.checkpoints, point, Captured(s.root, s.layers)); }
    case RewindCheckpoint(expected) => if MayRewind(s, expected) { ChainShrinks(s.checkpoints); }
    case _ =>
  }

  /** Over every run the checkpoints form one chain, with strictly rising blocks. */
  lemma {:induction false} RunKeepsChain(s: State, ops: seq<Op>)
    requires Chained(s.checkpoints)
    ensures Chained(Run(s, ops).checkpoints)
    decreases |ops|
  {
    hide Chained, Step;
    if ops != [] {
      StepKeepsChain(s, ops[0]);
      RunKeepsChain(Step(s, ops[0]), ops[1..]);
    }
  }

  /** The last checkpoint has captured what the head shows. */
  ghost predicate Captures(s: State, point: Point)
  {
    && s.checkpoints != []
    && s.checkpoints[|s.checkpoints| - 1].point == point && s.checkpoints[|s.checkpoints| - 1].view == Head(s)
  }

  /** A checkpoint recorded at rest captures the head. */
  lemma {:induction false} RecordedIsHead(s: State, point: Point)
    requires MayRecord(s, point)
    ensures Captures(Recorded(s, point), point) && Head(Recorded(s, point)) == Head(s)
  {
    hide Laid, Captured;
    SettledHeadIsFlat(s);
  }

  /** So does one committed with its block, when the block's session was the only one open and nothing is closed. */
  lemma {:induction false} CheckpointedIsHead(s: State, id: nat, point: Point)
    requires Inv(s) && MayCheckpoint(s, id, point) && s.active == 1
    requires forall i :: 0 <= i < |s.layers| ==> !s.layers[i].abandoned
    ensures Captures(Checkpointed(s, id, point), point)
  {
    hide Laid, CountOpen;
    var i, t := IndexOf(s.layers, id).value, Checkpointed(s, id, point);
    CheckpointKeepsInv(s, id, point);
    forall j | 0 <= j < |t.layers| ensures Settled(t.layers[j]) {
      if Open(t.layers[j]) { OpenMeansActive(t, j); }
    }
    LaidSameValues(s.root, s.layers, t.layers);
    LaidSame(s.root, s.layers, (l: Layer) => !l.abandoned, _ => true);
    SettledHeadIsFlat(t);
  }

  lemma {:induction false} LaidSameValues(root: Image, a: seq<Layer>, b: seq<Layer>)
    requires |a| == |b| && forall i :: 0 <= i < |a| ==> a[i].values == b[i].values
    ensures Flat(root, a) == Flat(root, b)
    decreases |a|
  {
    hide Over;
    if a != [] { LaidSameValues(root, a[..|a| - 1], b[..|b| - 1]); }
  }

  // ---- single steps --------------------------------------------------------------------------------------

  /** A write by the session on top is what is read afterwards, and nothing else changes. */
  lemma {:induction false} WriteIsRead(s: State, id: nat, key: Key, value: Overlay, k: Key)
    requires s.layers != [] && s.layers[|s.layers| - 1].id == id && Open(s.layers[|s.layers| - 1])
    ensures var t := Step(s, Write(id, key, value));
            Get(t.root, t.layers, k) == if k != key then Get(s.root, s.layers, k)
                                        else match value case Put(v) => Some(v) case Delete => None
  {
    var n := |s.layers| - 1;
    assert Step(s, Write(id, key, value)).layers[..n] == s.layers[..n];
  }

  /** A new session is open on top, writes nothing yet, and leaves every read as it was. */
  lemma {:induction false} BuiltIsEmpty(s: State, temp: bool, k: Key)
    requires Inv(s)
    ensures var t := PushLayer(s, temp);
            && Live(t, s.nextId) && Get(t.root, t.layers, k) == Get(s.root, s.layers, k)
            && t.layers[..|s.layers|] == s.layers && (temp || s.enabled ==> t.enabled)
  {
    var t := PushLayer(s, temp);
    PushKeepsInv(s, temp);
    IndexByOrder(t, |s.layers|);
    assert t.layers[..|s.layers|] == s.layers;
  }

  /** Closing under an open session changes neither reads nor the head. */
  lemma {:induction false} ClosingIsInvisible(s: State, id: nat, k: Key)
    requires Live(s, id) && AnyOpen(s.layers[IndexOf(s.layers, id).value + 1..])
    ensures var t := CloseSession(s, id);
            Get(t.root, t.layers, k) == Get(s.root, s.layers, k) && Head(t) == Head(s) && !Live(t, id)
  {
    hide Laid, Over, Get, Flat;
    var t := CloseSession(s, id);
    GetIsFlat(s.root, s.layers, k);
    GetIsFlat(t.root, t.layers, k);
    LaidSameValues(s.root, s.layers, t.layers);
    SameSettled(s.root, s.layers, t.layers);
    ClosedIsNotLive(s, id);
  }

  lemma {:induction false} ClosedIsNotLive(s: State, id: nat)
    requires Live(s, id) && AnyOpen(s.layers[IndexOf(s.layers, id).value + 1..])
    ensures !Live(CloseSession(s, id), id)
  {
    var i, t := IndexOf(s.layers, id).value, CloseSession(s, id);
    FirstIndex(s.layers, t.layers, id, 0);
    assert IndexOf(t.layers, id) == Some(i);
  }

  lemma {:induction false} FirstIndex(a: seq<Layer>, b: seq<Layer>, id: nat, i: nat)
    requires |a| == |b| && i <= |a| && forall j :: 0 <= j < |a| ==> a[j].id == b[j].id
    ensures IndexOf(a, id, i) == IndexOf(b, id, i)
    decreases |a| - i
  {
    if i < |a| { FirstIndex(a, b, id, i + 1); }
  }

  lemma {:induction false} SameSettled(root: Image, a: seq<Layer>, b: seq<Layer>)
    requires |a| == |b| && forall i :: 0 <= i < |a| ==> a[i].values == b[i].values && Settled(a[i]) == Settled(b[i])
    ensures Laid(root, a, (l: Layer) => Settled(l)) == Laid(root, b, (l: Layer) => Settled(l))
    decreases |a|
  {
    hide Over;
    if a != [] { SameSettled(root, a[..|a| - 1], b[..|b| - 1]); }
  }

  /** What was closed goes with the next session that ends. */
  lemma {:induction false} EndLeavesNothingClosed(s: State, id: nat, how: Finish)
    requires MayEnd(s, id, how)
    ensures forall i :: 0 <= i < |EndSession(s, id, how).layers| ==> !EndSession(s, id, how).layers[i].abandoned
  {
    hide CountOpen, MergedWrites, AnyDisables, AllSettled;
  }

  /** Renewing the pending outer session undoes what it and everything above it wrote. */
  lemma {:induction false} ResetIsUndone(s: State, id: nat, k: Key)
    requires Inv(s) && MayReset(s, id)
    ensures var t, i := PendingReset(s, id), IndexOf(s.layers, id).value;
            && t.layers[..i] == s.layers[..i] && |t.layers| == i + 1 && t.pendingOuter == Some(t.layers[i].id)
            && Open(t.layers[i]) && t.layers[i].id != id && t.enabled == s.enabled
            && Get(t.root, t.layers, k) == Get(s.root, s.layers[..i], k)
  {
    hide CountOpen, AnyDisables;
    var t, i := PendingReset(s, id), IndexOf(s.layers, id).value;
    assert t.layers[..i] == s.layers[..i];
  }

  /** Discarding it undoes the same and reserves nothing any more. */
  lemma {:induction false} ForcedIsUndone(s: State)
    requires Inv(s)
    ensures var t := PendingForced(s);
            && t.pendingOuter == None && t.layers <= s.layers && t.root == s.root
            && (s.pendingOuter.Some? ==> !HasLayer(t.layers, s.pendingOuter.value))
            && (|t.layers| < |s.layers| ==> s.pendingOuter == Some(s.layers[|t.layers|].id))
  {
    hide CountOpen, AnyDisables;
    var t := PendingForced(s);
    if s.pendingOuter.Some? {
      var i := IndexOf(s.layers, s.pendingOuter.value);
      if i.Some? { OnlyAt(s, i.value); }
    }
  }

  // ---- when an operation takes place, and what is then different ------------------------------------------------

  ghost predicate AllShut(layers: seq<Layer>) { forall i :: 0 <= i < |layers| ==> layers[i].committed || layers[i].abandoned }

  ghost predicate OpenAt(layers: seq<Layer>, i: nat, id: nat)
  {
    i < |layers| && layers[i].id == id && !layers[i].committed && !layers[i].abandoned
  }

  ghost predicate OnTop(layers: seq<Layer>, id: nat) { layers != [] && OpenAt(layers, |layers| - 1, id) }

  ghost predicate SettledFrom(layers: seq<Layer>, n: nat)
  {
    forall j :: n <= j < |layers| ==> layers[j].committed && !layers[j].abandoned
  }

  ghost predicate ShutFrom(layers: seq<Layer>, n: nat)
  {
    forall j :: n <= j < |layers| ==> layers[j].committed || layers[j].abandoned
  }

  ghost predicate NewAndHigher(checkpoints: seq<Checkpoint>, point: Point)
  {
    && (forall j :: 0 <= j < |checkpoints| ==> checkpoints[j].point.identity != point.identity)
    && (checkpoints == [] || checkpoints[|checkpoints| - 1].point.block < point.block)
  }

  /** What an operation needs, layer by layer. */
  ghost predicate Possible(s: State, op: Op)
  {
    match op
    case Build(temp) => AllShut(s.layers) && (s.enabled || temp)
    case BuildChild(parent) => OnTop(s.layers, parent)
    case Write(id, _, _) => OnTop(s.layers, id)
    case End(id, how) =>
      exists i: nat :: OpenAt(s.layers, i, id) && (how == Revoke || SettledFrom(s.layers, i + 1)) && (how == Merge ==> i > 0)
    case Close(id) => exists i: nat :: OpenAt(s.layers, i, id)
    case CommitWithCheckpoint(id, point) =>
      NewAndHigher(s.checkpoints, point) && exists i: nat :: OpenAt(s.layers, i, id) && SettledFrom(s.layers, i + 1)
    case RewindCheckpoint(expected) =>
      && AllShut(s.layers) && s.layers != [] && SettledFrom(s.layers, |s.layers| - 1)
      && s.checkpoints != [] && s.checkpoints[|s.checkpoints| - 1].point.identity == expected
    case Pop => AllShut(s.layers) && s.layers != [] && s.layers[|s.layers| - 1].committed
    case FlushCommitted => forall i :: 0 <= i < |s.layers| ==> s.layers[i].committed
    case Destroy => AllShut(s.layers)
    case RecordCheckpoint(point) => SettledFrom(s.layers, 0) && NewAndHigher(s.checkpoints, point)
    case BuildPending => AllShut(s.layers) && s.pendingOuter == None
    case ResetPending(id) => s.pendingOuter == Some(id) && exists i: nat :: OpenAt(s.layers, i, id) && ShutFrom(s.layers, i + 1)
    case ReleasePending(id) => s.pendingOuter == Some(id)
    case ForceResetPending => true
    case SetEnabled(on) => on || AllShut(s.layers)
  }

  /** The session is not open any more. */
  ghost predicate Finished(layers: seq<Layer>, id: nat) { forall i: nat :: !OpenAt(layers, i, id) }

  /** One empty open layer on top of the others, which disables what had to be enabled for it. */
  ghost predicate Opened(s: State, t: State)
  {
    && t.layers == s.layers + [Layer(s.nextId, map[], false, false, !s.enabled)]
    && t.enabled && t.nextId == s.nextId + 1 && t.active == s.active + 1
  }

  /** What an operation that takes place does. */
  ghost predicate Done(s: State, op: Op, t: State)
  {
    var n, m := |s.layers|, |s.checkpoints|;
    match op
    case Build(_) => Opened(s, t)
    case BuildChild(_) => Opened(s, t)
    case BuildPending => Opened(s, t) && t.pendingOuter == Some(s.nextId)
    case Write(id, key, value) =>
      n > 0 && t == s.(layers := s.layers[..n - 1] + [s.layers[n - 1].(values := s.layers[n - 1].values[key := value])])
    case End(id, _) => Finished(t.layers, id)
    case Close(id) => Finished(t.layers, id)
    case CommitWithCheckpoint(id, point) =>
      Finished(t.layers, id) && |t.checkpoints| == m + 1 && t.checkpoints[..m] == s.checkpoints && t.checkpoints[m].point == point
    case RewindCheckpoint(_) => n > 0 && m > 0 && t == s.(layers := s.layers[..n - 1], checkpoints := s.checkpoints[..m - 1])
    case Pop => n > 0 && t == s.(layers := s.layers[..n - 1])
    case FlushCommitted => t == s.(root := Flat(s.root, s.layers), layers := [])
    case Destroy => t == s.(layers := [])
    case RecordCheckpoint(point) =>
      |t.checkpoints| == m + 1 && t == s.(checkpoints := s.checkpoints + [t.checkpoints[m]]) && t.checkpoints[m].point == point
    case ResetPending(id) => Finished(t.layers, id) && OnTop(t.layers, s.nextId) && t.pendingOuter == Some(s.nextId) && t.nextId == s.nextId + 1
    case ReleasePending(_) => t == s.(pendingOuter := None)
    case ForceResetPending => t.pendingOuter == None && (s.pendingOuter.Some? ==> Finished(t.layers, s.pendingOuter.value))
    case SetEnabled(on) => t == s.(enabled := on)
  }

  /** An operation takes place if and only if it is possible; otherwise it changes nothing. */
  lemma {:induction false} DoneIffPossible(s: State, op: Op)
    requires Inv(s)
    ensures if Possible(s, op) then Done(s, op, Step(s, op)) else Step(s, op) == s
  {
    hide CountOpen, Laid, Inv, Done, Possible, EndSession, CloseSession, Checkpointed, Flushed, PendingReset, PendingForced;
    match op
    case End(id, how) => EndDone(s, id, how);
    case Close(id) => CloseDone(s, id);
    case CommitWithCheckpoint(id, point) => CheckpointDoneIff(s, id, point);
    case FlushCommitted => FlushDoneIff(s);
    case ResetPending(id) => ResetDoneIff(s, id);
    case ForceResetPending => ForceDone(s);
    case _ => SimpleDoneIff(s, op);
  }

  /** The operations that look at no layer but the top one. */
  lemma {:induction false} SimpleDoneIff(s: State, op: Op)
    requires Inv(s)
    requires !op.End? && !op.Close? && !op.CommitWithCheckpoint? && !op.FlushCommitted? && !op.ResetPending? && !op.ForceResetPending?
    ensures if Possible(s, op) then Done(s, op, Step(s, op)) else Step(s, op) == s
  {
    hide CountOpen, Inv, Laid, EndSession, CloseSession, Checkpointed, Flushed, PendingReset, PendingForced;
    ShutIsInactive(s);
  }

  lemma {:induction false} EndDone(s: State, id: nat, how: Finish)
    requires Inv(s)
    ensures if Possible(s, End(id, how)) then Done(s, End(id, how), EndSession(s, id, how)) else EndSession(s, id, how) == s
  {
    hide CountOpen, Inv, Possible, EndSession;
    EndDoneIff(s, id, how);
  }

  lemma {:induction false} CloseDone(s: State, id: nat)
    requires Inv(s)
    ensures if Possible(s, Close(id)) then Done(s, Close(id), CloseSession(s, id)) else CloseSession(s, id) == s
  {
    hide CountOpen, Inv, Possible, CloseSession;
    CloseDoneIff(s, id);
  }

  lemma {:induction false} ShutIsInactive(s: State)
    requires Inv(s)
    ensures AllShut(s.layers) <==> s.active == 0
  {
    hide CountOpen, Inv;
    assert s.active == CountOpen(s.layers) by { ActiveIsCount(s); }
    if AllShut(s.layers) {
      NoneOpen(s.layers);
    } else {
      var n :| 0 <= n < |s.layers| && !(s.layers[n].committed || s.layers[n].abandoned);
      OpenMeansActive(s, n);
    }
  }

  lemma {:induction false} ActiveIsCount(s: State)
    requires Inv(s)
    ensures s.active == CountOpen(s.layers)
  {
  }

  /** A session is where the search by its identifier finds it. */
  lemma {:induction false} OpenIsFound(s: State, id: nat)
    requires Inv(s)
    ensures forall i: nat :: OpenAt(s.layers, i, id) <==> IndexOf(s.layers, id) == Some(i) && Open(s.layers[i])
  {
    hide CountOpen;
    forall i: nat | OpenAt(s.layers, i, id) ensures IndexOf(s.layers, id) == Some(i) { IndexByOrder(s, i); }
  }

  lemma {:induction false} SettledAboveIs(layers: seq<Layer>, n: nat)
    requires n <= |layers|
    ensures AllSettled(layers[n..]) <==> SettledFrom(layers, n)
    ensures AnyOpen(layers[n..]) <==> !ShutFrom(layers, n)
  {
    if AllSettled(layers[n..]) {
      forall j | n <= j < |layers| ensures layers[j].committed && !layers[j].abandoned { assert Settled(layers[n..][j - n]); }
    }
    if !AnyOpen(layers[n..]) {
      forall j | n <= j < |layers| ensures layers[j].committed || layers[j].abandoned { assert !Open(layers[n..][j - n]); }
    }
  }

  lemma {:induction false} EndIff(s: State, id: nat, how: Finish)
    requires Inv(s)
    ensures MayEnd(s, id, how) <==> Possible(s, End(id, how))
  {
    hide Inv, OpenAt, SettledFrom, AllSettled;
    OpenIsFound(s, id);
    var i := IndexOf(s.layers, id);
    if i.Some? { SettledAboveIs(s.layers, i.value + 1); }
  }

  /** Identifiers ascend, so the session is nowhere among the layers below its own. */
  lemma {:induction false} NowhereElse(s: State, layers: seq<Layer>, id: nat)
    requires Inv(s) && IndexOf(s.layers, id).Some?
    requires |layers| <= |s.layers| && forall j :: 0 <= j < |layers| ==> layers[j].id == s.layers[j].id
    requires var i := IndexOf(s.layers, id).value; i < |layers| ==> layers[i].committed || layers[i].abandoned
    ensures Finished(layers, id)
  {
    hide CountOpen;
    OnlyAt(s, IndexOf(s.layers, id).value);
  }

  lemma {:induction false} EndDoneIff(s: State, id: nat, how: Finish)
    requires Inv(s)
    ensures Possible(s, End(id, how)) ==> Finished(EndSession(s, id, how).layers, id)
    ensures !Possible(s, End(id, how)) ==> EndSession(s, id, how) == s
  {
    hide Inv, CountOpen, Possible, AnyDisables, MergedWrites, MayEnd, Finished;
    EndIff(s, id, how);
    if MayEnd(s, id, how) {
      assert IndexOf(s.layers, id).Some? && (how.Merge? ==> IndexOf(s.layers, id).value > 0) by { MayEndFinds(s, id, how); }
      NowhereElse(s, EndSession(s, id, how).layers, id);
    }
  }

  lemma {:induction false} MayEndFinds(s: State, id: nat, how: Finish)
    requires MayEnd(s, id, how)
    ensures IndexOf(s.layers, id).Some? && Open(s.layers[IndexOf(s.layers, id).value])
    ensures how.Merge? ==> IndexOf(s.layers, id).value > 0
  {
  }

  lemma {:induction false} CloseDoneIff(s: State, id: nat)
    requires Inv(s)
    ensures Possible(s, Close(id)) ==> Finished(CloseSession(s, id).layers, id)
    ensures !Possible(s, Close(id)) ==> CloseSession(s, id) == s
  {
    hide Inv, CountOpen, OpenAt, EndSession, Finished, AnyOpen;
    OpenIsFound(s, id);
    var i := IndexOf(s.layers, id);
    if i.Some? && Open(s.layers[i.value]) {
      if AnyOpen(s.layers[i.value + 1..]) {
        NowhereElse(s, CloseSession(s, id).layers, id);
      } else {
        EndDoneIff(s, id, Revoke);
        assert Possible(s, End(id, Revoke)) by { assert OpenAt(s.layers, i.value, id); }
      }
    }
  }

  lemma {:induction false} CheckpointDoneIff(s: State, id: nat, point: Point)
    requires Inv(s)
    ensures if Possible(s, CommitWithCheckpoint(id, point)) then Done(s, CommitWithCheckpoint(id, point), Checkpointed(s, id, point))
            else Checkpointed(s, id, point) == s
  {
    hide Inv, CountOpen, OpenAt, SettledFrom, AllSettled, Laid, Finished;
    OpenIsFound(s, id);
    var i := IndexOf(s.layers, id);
    if i.Some? {
      SettledAboveIs(s.layers, i.value + 1);
      if MayCheckpoint(s, id, point) { NowhereElse(s, Checkpointed(s, id, point).layers, id); }
    }
  }

  lemma {:induction false} FlushDoneIff(s: State)
    requires Inv(s)
    ensures if Possible(s, FlushCommitted) then Done(s, FlushCommitted, Flushed(s)) else Flushed(s) == s
  {
    hide Inv, CountOpen, MergedWrites, Laid;
    ShutIsInactive(s);
    MergedIsFlat(s.root, map[], s.layers);
    OverNothing(s.root);
  }

  lemma {:induction false} ResetDoneIff(s: State, id: nat)
    requires Inv(s)
    ensures if Possible(s, ResetPending(id)) then Done(s, ResetPending(id), PendingReset(s, id)) else PendingReset(s, id) == s
  {
    hide Inv, CountOpen, OpenAt, AnyOpen, ShutFrom, AnyDisables;
    OpenIsFound(s, id);
    var i := IndexOf(s.layers, id);
    if i.Some? {
      SettledAboveIs(s.layers, i.value + 1);
      if MayReset(s, id) { ResetOpens(s, id); }
    }
  }

  lemma {:induction false} ResetOpens(s: State, id: nat)
    requires Inv(s) && MayReset(s, id)
    ensures Finished(PendingReset(s, id).layers, id) && OnTop(PendingReset(s, id).layers, s.nextId)
  {
    hide CountOpen, AnyDisables;
    var t, i := PendingReset(s, id), IndexOf(s.layers, id).value;
    assert forall j :: 0 <= j < i ==> t.layers[j] == s.layers[j];
  }

  lemma {:induction false} ForceDone(s: State)
    requires Inv(s)
    ensures Possible(s, ForceResetPending) && Done(s, ForceResetPending, PendingForced(s))
  {
    hide CountOpen, AnyDisables;
    if s.pendingOuter.Some? {
      var i := IndexOf(s.layers, s.pendingOuter.value);
      if i.Some? { OnlyAt(s, i.value); }
    }
  }
}
