/** What the revoking state guarantees about undoing, merging, flushing and rewinding. */
module SessionLaws {
  import opened Outcomes
  import opened Sessions

  // ---- revoking a session undoes everything since it was built ---------------------------------------

  /** The session is still being written. */
  predicate Live(s: State, id: nat)
  {
    IndexOf(s.layers, id).Some? && Open(s.layers[IndexOf(s.layers, id).value])
  }

  /** The same layers, some of them possibly closed in the meantime. */
  ghost predicate SameButClosed(a: seq<Layer>, b: seq<Layer>)
  {
    && |a| == |b|
    && forall i :: 0 <= i < |a| ==>
         && a[i].id == b[i].id && a[i].values == b[i].values && a[i].committed == b[i].committed
         && a[i].disableOnExit == b[i].disableOnExit && (a[i].abandoned ==> b[i].abandoned)
  }

  /** The session sits at height n, on the given layers, over the given root. */
  ghost predicate RestsOn(s: State, id: nat, base: seq<Layer>, root: Image)
  {
    && s.root == root && |base| < |s.layers| && s.layers[|base|].id == id && Open(s.layers[|base|])
    && SameButClosed(base, s.layers[..|base|])
  }

  lemma {:induction false} IndexByOrder(s: State, i: nat)
    requires Inv(s) && i < |s.layers|
    ensures IndexOf(s.layers, s.layers[i].id) == Some(i)
  {
    var k := IndexOf(s.layers, s.layers[i].id);
    assert k.Some?;
  }

  lemma {:induction false} OpenMeansActive(s: State, n: nat)
    requires Inv(s) && n < |s.layers| && Open(s.layers[n])
    ensures s.active >= 1
  {
    CountOpenSplit(s.layers, n);
  }

  /** Dropping abandoned layers either takes the session with it or leaves what is below it alone. */
  lemma {:induction false} DropRests(s: State, disable: bool, id: nat, base: seq<Layer>, root: Image)
    requires RestsOn(s, id, base, root)
    ensures var t := DropAbandoned(s, disable);
            RestsOn(t, id, base, root) || |t.layers| <= |base|
  {
    var k := FirstAbandoned(s.layers);
    if k > |base| { assert s.layers[..k][..|base|] == s.layers[..|base|]; }
  }

  /** A session that is gone or ended does not come back. */
  lemma {:induction false} GoneStaysGone(s: State, op: Op, id: nat)
    requires Inv(s) && id < s.nextId && !Live(s, id)
    ensures !Live(Step(s, op), id)
  {
    hide Step;
    StepKeepsInv(s, op);
    StepOnlyCloses(s, op);
    var t := Step(s, op);
    if Live(t, id) {
      IndexByOrder(s, IndexOf(t.layers, id).value);
    }
  }

  /** No layer is renamed or reopened, and none but a new one is added. */
  ghost predicate OnlyCloses(s: State, t: State)
  {
    forall k :: 0 <= k < |t.layers| && t.layers[k].id < s.nextId ==>
      k < |s.layers| && t.layers[k].id == s.layers[k].id && (Open(t.layers[k]) ==> Open(s.layers[k]))
  }

  lemma {:induction false} EndOnlyCloses(s: State, target: nat, how: Finish)
    ensures OnlyCloses(s, EndSession(s, target, how))
    ensures |EndSession(s, target, how).layers| <= |s.layers|
  {
    hide CountOpen, MergedWrites, AnyDisables;
  }

  lemma {:induction false} CloseOnlyCloses(s: State, target: nat)
    ensures OnlyCloses(s, CloseSession(s, target))
    ensures |CloseSession(s, target).layers| <= |s.layers|
  {
    hide EndSession, CountOpen;
    EndOnlyCloses(s, target, Revoke);
  }

  lemma {:induction false} PendingOnlyCloses(s: State, target: nat)
    ensures OnlyCloses(s, PendingReset(s, target)) && OnlyCloses(s, PendingForced(s))
  {
    hide CountOpen, AnyDisables;
  }

  lemma {:induction false} StepOnlyCloses(s: State, op: Op)
    ensures OnlyCloses(s, Step(s, op))
  {
    hide EndSession, CloseSession, CountOpen, MergedWrites, Captured, Over, PendingReset, PendingForced;
    match op
    case End(target, how) => EndOnlyCloses(s, target, how);
    case Close(target) => CloseOnlyCloses(s, target);
    case ResetPending(target) => PendingOnlyCloses(s, target);
    case ForceResetPending => PendingOnlyCloses(s, 0);
    case _ =>
  }

  /** Only a layer with everything above it settled may end, so none under an open one. */
  lemma {:induction false} NotBelowOpen(s: State, i: nat, n: nat)
    requires i < |s.layers| && n < |s.layers| && AllSettled(s.layers[i + 1..]) && Open(s.layers[n])
    ensures i >= n
  {
    assert forall k :: i < k < |s.layers| ==> s.layers[k] == s.layers[i + 1..][k - i - 1];
  }

  lemma {:induction false} EndRests(s: State, target: nat, how: Finish, id: nat, base: seq<Layer>, root: Image)
    requires Inv(s) && RestsOn(s, id, base, root)
    ensures var t := EndSession(s, target, how);
            RestsOn(t, id, base, root) || |t.layers| <= |base| || !Open(t.layers[|base|]) || t.layers[|base|].id != id
  {
    hide CountOpen, MergedWrites, DropAbandoned, AnyDisables;
    var n := |base|;
    if MayEnd(s, target, how) {
      var i := IndexOf(s.layers, target).value;
      if how.Revoke? {
        var u := s.(layers := s.layers[..i], active := s.active - CountOpen(s.layers[i..]));
        if i > n {
          assert u.layers[..n] == s.layers[..n];
          DropRests(u, AnyDisables(s.layers[i..]), id, base, root);
        } else {
          DropShrinks(u, AnyDisables(s.layers[i..]));
        }
      } else {
        NotBelowOpen(s, i, n);
        if how.Commit? {
          var u := s.(layers := s.layers[i := s.layers[i].(committed := true)], active := s.active - 1);
          if i > n {
            assert u.layers[..n] == s.layers[..n];
            DropRests(u, s.layers[i].disableOnExit, id, base, root);
          } else {
            DropPrefix(u, s.layers[i].disableOnExit, n);
          }
        } else {
          var below := s.layers[i - 1];
          var u := s.(layers := s.layers[..i - 1] + [below.(values := MergedWrites(below.values, s.layers[i..]))], active := s.active - 1);
          if i > n {
            assert u.layers[..n] == s.layers[..n];
            DropRests(u, AnyDisables(s.layers[i..]), id, base, root);
          } else {
            DropShrinks(u, AnyDisables(s.layers[i..]));
          }
        }
      }
    }
  }

  lemma {:induction false} DropShrinks(s: State, disable: bool)
    ensures |DropAbandoned(s, disable).layers| <= |s.layers|
  {
  }

  lemma {:induction false} DropPrefix(s: State, disable: bool, n: nat)
    requires n < |s.layers|
    ensures var t := DropAbandoned(s, disable);
            |t.layers| <= n || t.layers[n] == s.layers[n]
  {
  }

  lemma {:induction false} StepRests(s: State, op: Op, id: nat, base: seq<Layer>, root: Image)
    requires Inv(s) && RestsOn(s, id, base, root) && id < s.nextId && Live(Step(s, op), id)
    ensures RestsOn(Step(s, op), id, base, root)
  {
    hide CountOpen, MergedWrites, Captured, Over, EndSession, CloseSession, IndexOf, PendingReset, PendingForced;
    var n := |base|;
    var t := Step(s, op);
    OpenMeansActive(s, n);
    StepKeepsInv(s, op);
    match op
    case End(target, how) =>
      EndRests(s, target, how, id, base, root);
      EndOnlyCloses(s, target, how);
      StillThere(s, t, id, base, root);
    case Close(target) =>
      CloseRests(s, target, id, base, root);
    case CommitWithCheckpoint(target, point) =>
      if MayCheckpoint(s, target, point) {
        var i := IndexOf(s.layers, target).value;
        NotBelowOpen(s, i, n);
        IndexByOrder(t, n);
        assert t.layers[..n] == s.layers[..n];
      }
    case Write(target, key, value) => assert t.layers[..n] == s.layers[..n];
    case BuildChild(parent) => assert t.layers[..n] == s.layers[..n];
    case Build(temp) =>
    case RewindCheckpoint(expected) =>
    case Pop =>
    case FlushCommitted =>
    case Destroy =>
    case RecordCheckpoint(point) =>
    case BuildPending =>
    case ResetPending(target) =>
      PendingRests(s, target, id, base, root);
      PendingOnlyCloses(s, target);
      StillThere(s, t, id, base, root);
    case ReleasePending(target) =>
    case ForceResetPending =>
      PendingRests(s, 0, id, base, root);
      PendingOnlyCloses(s, 0);
      StillThere(s, t, id, base, root);
    case SetEnabled(on) =>
  }

  /** Renewing or discarding the pending outer session either takes this one along or leaves what is below it alone. */
  lemma {:induction false} PendingRests(s: State, target: nat, id: nat, base: seq<Layer>, root: Image)
    requires Inv(s) && RestsOn(s, id, base, root) && id < s.nextId
    ensures var t := PendingReset(s, target);
            RestsOn(t, id, base, root) || |t.layers| <= |base| || t.layers[|base|].id != id
    ensures var t := PendingForced(s);
            RestsOn(t, id, base, root) || |t.layers| <= |base|
  {
    hide CountOpen, AnyDisables;
    var n := |base|;
    if MayReset(s, target) {
      var i := IndexOf(s.layers, target).value;
      NotBelowOpenLayer(s, i, n);
      if i > n { assert PendingReset(s, target).layers[..n] == s.layers[..n]; }
    }
    if s.pendingOuter.Some? && IndexOf(s.layers, s.pendingOuter.value).Some? {
      var i := IndexOf(s.layers, s.pendingOuter.value).value;
      if i > n { assert s.layers[..i][..n] == s.layers[..n]; }
    }
  }

  lemma {:induction false} NotBelowOpenLayer(s: State, i: nat, n: nat)
    requires i < |s.layers| && n < |s.layers| && !AnyOpen(s.layers[i + 1..]) && Open(s.layers[n])
    ensures i >= n
  {
    assert forall k :: i < k < |s.layers| ==> s.layers[k] == s.layers[i + 1..][k - i - 1];
  }

  /** Heights do not shift: the session, if it is anywhere, is where it was. */
  lemma {:induction false} StillThere(s: State, t: State, id: nat, base: seq<Layer>, root: Image)
    requires Inv(s) && Inv(t) && RestsOn(s, id, base, root) && Live(t, id)
    requires OnlyCloses(s, t)
    ensures |base| < |t.layers| && t.layers[|base|].id == id && Open(t.layers[|base|])
  {
    var k := IndexOf(t.layers, id).value;
    IndexByOrder(s, k);
    IndexByOrder(s, |base|);
  }

  lemma {:induction false} CloseRests(s: State, target: nat, id: nat, base: seq<Layer>, root: Image)
    requires Inv(s) && RestsOn(s, id, base, root) && Live(CloseSession(s, target), id)
    ensures RestsOn(CloseSession(s, target), id, base, root)
  {
    hide CountOpen, MergedWrites, AnyDisables, EndSession;
    CloseKeepsInv(s, target);
    EndRests(s, target, Revoke, id, base, root);
    CloseOnlyCloses(s, target);
    StillThere(s, CloseSession(s, target), id, base, root);
  }

  lemma {:induction false} RunRests(s: State, ops: seq<Op>, id: nat, base: seq<Layer>, root: Image)
    requires Inv(s) && RestsOn(s, id, base, root) && id < s.nextId && Live(Run(s, ops), id)
    ensures RestsOn(Run(s, ops), id, base, root)
    decreases |ops|
  {
    hide Inv, Step, RestsOn, Live;
    if ops != [] {
      var t := Step(s, ops[0]);
      StepKeepsInv(s, ops[0]);
      IdsGrow(s, ops[0]);
      if !Live(t, id) { RunGone(t, ops[1..], id); }
      StepRests(s, ops[0], id, base, root);
      RunRests(t, ops[1..], id, base, root);
    }
  }

  lemma {:induction false} IdsGrow(s: State, op: Op)
    ensures s.nextId <= Step(s, op).nextId
  {
    hide CountOpen, MergedWrites, Captured, Over;
  }

  lemma {:induction false} RunGone(s: State, ops: seq<Op>, id: nat)
    requires Inv(s) && id < s.nextId && !Live(s, id)
    ensures !Live(Run(s, ops), id)
    decreases |ops|
  {
    hide Inv, Step, Live;
    if ops != [] {
      StepKeepsInv(s, ops[0]);
      IdsGrow(s, ops[0]);
      GoneStaysGone(s, ops[0], id);
      RunGone(Step(s, ops[0]), ops[1..], id);
    }
  }

  /** The session a build or child step has just opened. */
  ghost predicate Opens(s: State, op: Op)
  {
    (op.Build? || op.BuildChild? || op.BuildPending?) && |Step(s, op).layers| == |s.layers| + 1
  }

  /** Revoking the session at height n keeps what is under it up to the first closed layer. */
  lemma {:induction false} RevokeAt(s: State, n: nat)
    requires Inv(s) && n < |s.layers| && Open(s.layers[n])
    ensures var t := EndSession(s, s.layers[n].id, Revoke);
            var below := s.layers[..n];
            t.root == s.root && t.layers == below[..FirstAbandoned(below)]
  {
    hide CountOpen, AnyDisables, Inv;
    IndexByOrder(s, n);
  }

  lemma {:induction false} NothingClosed(a: seq<Layer>, b: seq<Layer>)
    requires SameButClosed(a, b) && FirstAbandoned(b) == |b|
    ensures a == b && b[..|b|] == b
  {
    forall i | 0 <= i < |a| ensures a[i] == b[i] { assert !b[i].abandoned; }
  }

  lemma {:induction false} JustOpened(s: State, op: Op)
    requires Inv(s) && Opens(s, op)
    ensures Inv(Step(s, op)) && RestsOn(Step(s, op), s.nextId, s.layers, s.root) && s.nextId < Step(s, op).nextId
  {
    hide CountOpen;
    StepKeepsInv(s, op);
    assert Step(s, op).layers[..|s.layers|] == s.layers;
  }

  /**
    Whatever happens between building a session and revoking it, by this session, its children or
    anyone else, the revocation brings back the layers and the root the session was built on,
    provided none of the sessions under it was closed meanwhile; in that case what was closed goes too.
   */
  lemma {:induction false} RevokeRestores(s: State, op: Op, ops: seq<Op>)
    requires Inv(s) && Opens(s, op)
    requires Live(Run(Step(s, op), ops), s.nextId)
    ensures var before := Run(Step(s, op), ops);
            var after := EndSession(before, s.nextId, Revoke);
            && after.root == s.root && |s.layers| < |before.layers|
            && after.layers == before.layers[..|s.layers|][..FirstAbandoned(before.layers[..|s.layers|])]
            && SameButClosed(s.layers, before.layers[..|s.layers|])
            && (FirstAbandoned(before.layers[..|s.layers|]) == |s.layers| ==>
                  after.layers == s.layers && after.active == s.active)
  {
    hide CountOpen, Run, Live, AnyDisables, Step, EndSession, Opens, FirstAbandoned, SameButClosed;
    var id, n := s.nextId, |s.layers|;
    var first := Step(s, op);
    var before := Run(first, ops);
    JustOpened(s, op);
    RunKeepsInv(first, ops);
    RunRests(first, ops, id, s.layers, s.root);
    RevokeAt(before, n);
    EndKeepsInv(before, id, Revoke);
    if FirstAbandoned(before.layers[..n]) == n {
      NothingClosed(s.layers, before.layers[..n]);
    }
  }

  // ---- merging and flushing keep what is read ---------------------------------------------------------

  lemma {:induction false} OverTwice(m: Image, a: Writes, b: Writes)
    ensures Over(Over(m, a), b) == Over(m, a + b)
  {
    var x, y := Over(Over(m, a), b), Over(m, a + b);
    forall k ensures k in x <==> k in y {}
    assert x.Keys == y.Keys;
  }

  /** Everything in the stack, whatever its state. */
  function Flat(root: Image, layers: seq<Layer>): Image { Laid(root, layers, _ => true) }

  lemma {:induction false} LaidConcat(root: Image, a: seq<Layer>, b: seq<Layer>, seen: Layer -> bool)
    ensures Laid(root, a + b, seen) == Laid(Laid(root, a, seen), b, seen)
    decreases |b|
  {
    hide Over;
    if b == [] {
      assert a + b == a;
    } else {
      var n := |b| - 1;
      assert (a + b)[..|a| + n] == a + b[..n];
      LaidConcat(root, a, b[..n], seen);
    }
  }

  lemma {:induction false} LaidSame(root: Image, layers: seq<Layer>, f: Layer -> bool, g: Layer -> bool)
    requires forall i :: 0 <= i < |layers| ==> f(layers[i]) == g(layers[i])
    ensures Laid(root, layers, f) == Laid(root, layers, g)
    decreases |layers|
  {
    hide Over;
    if layers != [] { LaidSame(root, layers[..|layers| - 1], f, g); }
  }

  lemma {:induction false} MergedIsFlat(m: Image, base: Writes, layers: seq<Layer>)
    ensures Flat(Over(m, base), layers) == Over(m, MergedWrites(base, layers))
    decreases |layers|
  {
    hide Over;
    if layers != [] {
      var n := |layers| - 1;
      MergedIsFlat(m, base, layers[..n]);
      OverTwice(m, MergedWrites(base, layers[..n]), layers[n].values);
    }
  }

  /** Reading key by key from the top is looking the key up in the flattened stack. */
  lemma {:induction false} GetIsFlat(root: Image, layers: seq<Layer>, k: Key)
    ensures Get(root, layers, k) == if k in Flat(root, layers) then Some(Flat(root, layers)[k]) else None
    decreases |layers|
  {
    if layers != [] { GetIsFlat(root, layers[..|layers| - 1], k); }
  }

  lemma {:induction false} FlatOne(root: Image, l: Layer)
    ensures Flat(root, [l]) == Over(root, l.values)
  {
    hide Over;
    assert [l][..0] == [];
    assert Laid(root, [l][..0], _ => true) == root;
  }

  lemma {:induction false} MergedStackIsFlat(root: Image, low: seq<Layer>, below: Layer, high: seq<Layer>)
    ensures Flat(root, low + [below.(values := MergedWrites(below.values, high))]) == Flat(root, low + [below] + high)
  {
    hide Over, Laid, MergedWrites;
    var m := Flat(root, low);
    var merged := below.(values := MergedWrites(below.values, high));
    LaidConcat(root, low, [merged], _ => true);
    LaidConcat(root, low + [below], high, _ => true);
    LaidConcat(root, low, [below], _ => true);
    FlatOne(m, merged);
    FlatOne(m, below);
    MergedIsFlat(m, below.values, high);
  }

  /** Merging a session into the one below changes no read, as long as nothing below was closed. */
  lemma {:induction false} MergeKeepsReads(s: State, id: nat, k: Key)
    requires Inv(s) && MayEnd(s, id, Merge)
    requires forall j :: 0 <= j < IndexOf(s.layers, id).value ==> !s.layers[j].abandoned
    ensures Get(s.root, EndSession(s, id, Merge).layers, k) == Get(s.root, s.layers, k)
    ensures |EndSession(s, id, Merge).layers| == IndexOf(s.layers, id).value
  {
    hide CountOpen, MergedWrites, Over, Laid;
    var i := IndexOf(s.layers, id).value;
    var below := s.layers[i - 1];
    var merged := s.layers[..i - 1] + [below.(values := MergedWrites(below.values, s.layers[i..]))];
    assert s.layers == s.layers[..i - 1] + [below] + s.layers[i..];
    MergedStackIsFlat(s.root, s.layers[..i - 1], below, s.layers[i..]);
    assert FirstAbandoned(merged) == |merged| && merged[..|merged|] == merged;
    assert EndSession(s, id, Merge).layers == merged;
    GetIsFlat(s.root, s.layers, k);
    GetIsFlat(s.root, merged, k);
  }

  lemma {:induction false} SettledHeadIsFlat(s: State)
    requires AllSettled(s.layers)
    ensures Head(s) == Flat(s.root, s.layers) && Captured(s.root, s.layers) == Flat(s.root, s.layers)
  {
    hide Laid;
    LaidSame(s.root, s.layers, (l: Layer) => Settled(l), _ => true);
    LaidSame(s.root, s.layers, (l: Layer) => !l.abandoned, _ => true);
  }

  lemma {:induction false} OverNothing(m: Image)
    ensures Over(m, map[]) == m
  {
    assert Over(m, map[]).Keys == m.Keys;
  }

  /** Flushing moves the committed layers into the root without changing the head. */
  lemma {:induction false} FlushKeepsHead(s: State)
    requires Inv(s) && s.active == 0 && AllCommitted(s.layers)
    ensures Head(Flushed(s)) == Head(s)
    ensures Flushed(s).layers == []
  {
    hide CountOpen, Over, MergedWrites;
    assert AllSettled(s.layers);
    SettledHeadIsFlat(s);
    OverNothing(s.root);
    MergedIsFlat(s.root, map[], s.layers);
  }

  // ---- what the head shows ---------------------------------------------------------------------------------

  lemma {:induction false} LaidUnseen(root: Image, layers: seq<Layer>, seen: Layer -> bool)
    requires forall i :: 0 <= i < |layers| ==> !seen(layers[i])
    ensures Laid(root, layers, seen) == root
    decreases |layers|
  {
    if layers != [] { LaidUnseen(root, layers[..|layers| - 1], seen); }
  }

  /** Stacks that agree up to some height and have nothing settled above it show the same head. */
  lemma {:induction false} SameHead(s: State, t: State, n: nat)
    requires s.root == t.root && n <= |s.layers| && n <= |t.layers| && s.layers[..n] == t.layers[..n]
    requires forall j :: n <= j < |s.layers| ==> !Settled(s.layers[j])
    requires forall j :: n <= j < |t.layers| ==> !Settled(t.layers[j])
    ensures Head(s) == Head(t)
  {
    hide Over, Laid;
    var seen := (l: Layer) => Settled(l);
    assert s.layers == s.layers[..n] + s.layers[n..] && t.layers == t.layers[..n] + t.layers[n..];
    var low := Laid(s.root, s.layers[..n], seen);
    LaidConcat(s.root, s.layers[..n], s.layers[n..], seen);
    LaidConcat(s.root, t.layers[..n], t.layers[n..], seen);
    LaidUnseen(low, s.layers[n..], seen);
    LaidUnseen(low, t.layers[n..], seen);
  }

  /** Building sessions and writing in them never shows in the head. */
  lemma {:induction false} WritingIsInvisible(s: State, op: Op)
    requires op.Write? || op.Build? || op.BuildChild? || op.BuildPending?
    ensures Head(Step(s, op)) == Head(s)
  {
    hide Head;
    var t := Step(s, op);
    if t != s {
      var n := if op.Write? then |s.layers| - 1 else |s.layers|;
      assert s.layers[..n] == t.layers[..n];
      SameHead(s, t, n);
    }
  }

  /** The writes of the settled layers alone, later ones winning. */
  function SettledWrites(layers: seq<Layer>): Writes
    decreases |layers|
  {
    if layers == [] then map[]
    else
      var n := |layers| - 1;
      SettledWrites(layers[..n]) + if Settled(layers[n]) then layers[n].values else map[]
  }

  /** The settled view of the lowest n layers. */
  function View(s: State, n: nat): Image
    requires n <= |s.layers|
  {
    Laid(s.root, s.layers[..n], (l: Layer) => Settled(l))
  }

  /** Writes that an image already agrees with. */
  ghost predicate Redundant(m: Image, w: Writes)
  {
    forall k :: k in w ==> match w[k] case Put(v) => k in m && m[k] == v case Delete => k !in m
  }

  lemma {:induction false} RedundantIff(m: Image, w: Writes)
    ensures Over(m, w) == m <==> Redundant(m, w)
  {
    var over := Over(m, w);
    if Redundant(m, w) {
      forall k ensures k in over <==> k in m {}
      assert over.Keys == m.Keys;
    }
    if over == m {
      forall k | k in w ensures match w[k] case Put(v) => k in m && m[k] == v case Delete => k !in m {
        assert k in over <==> w[k].Put?;
      }
    }
  }

  /** Writes under others show exactly where the others do not cover them. */
  lemma {:induction false} CoveredIff(m: Image, a: Writes, b: Writes)
    ensures Over(Over(m, a), b) == Over(m, b) <==> Redundant(m, a - b.Keys)
  {
    var bare, x, y := a - b.Keys, Over(Over(m, a), b), Over(m, b);
    if Redundant(m, bare) {
      forall k ensures k in x <==> k in y { if k in a && k !in b { assert k in bare; } }
      assert x.Keys == y.Keys;
      forall k | k in x ensures x[k] == y[k] { if k in a && k !in b { assert k in bare; } }
    }
    if x == y {
      forall k | k in bare ensures match bare[k] case Put(v) => k in m && m[k] == v case Delete => k !in m {
        assert bare[k] == a[k] && k !in b;
        assert k in x <==> a[k].Put?;
        assert k in y <==> k in m;
      }
    }
  }

  lemma {:induction false} SettledIsOver(root: Image, layers: seq<Layer>)
    ensures Laid(root, layers, (l: Layer) => Settled(l)) == Over(root, SettledWrites(layers))
    decreases |layers|
  {
    hide Over;
    if layers == [] {
      OverNothing(root);
    } else {
      var n := |layers| - 1;
      SettledIsOver(root, layers[..n]);
      OverTwice(root, SettledWrites(layers[..n]), layers[n].values);
      assert SettledWrites(layers[..n]) + map[] == SettledWrites(layers[..n]);
    }
  }

  /** The head is the settled view of a lower part with the settled writes above it. */
  lemma {:induction false} HeadFrom(s: State, n: nat)
    requires n <= |s.layers|
    ensures Head(s) == Over(View(s, n), SettledWrites(s.layers[n..]))
  {
    hide Over, Laid, SettledWrites;
    var seen := (l: Layer) => Settled(l);
    assert s.layers == s.layers[..n] + s.layers[n..];
    LaidConcat(s.root, s.layers[..n], s.layers[n..], seen);
    SettledIsOver(Laid(s.root, s.layers[..n], seen), s.layers[n..]);
  }

  /** A stack cut down to n layers shows the same head exactly when what was settled above was redundant. */
  lemma {:induction false} CutShows(s: State, t: State, n: nat)
    requires n <= |s.layers| && t.root == s.root && t.layers == s.layers[..n]
    ensures Head(t) == Head(s) <==> Redundant(View(s, n), SettledWrites(s.layers[n..]))
  {
    hide Over, Laid, SettledWrites, Redundant;
    HeadFrom(s, n);
    RedundantIff(View(s, n), SettledWrites(s.layers[n..]));
  }

  /** Revoking leaves the head alone if and only if every settled write it discards was redundant. */
  lemma {:induction false} RevokingIsInvisible(s: State, id: nat)
    requires MayEnd(s, id, Revoke)
    ensures var n := FirstAbandoned(s.layers[..IndexOf(s.layers, id).value]);
            Head(EndSession(s, id, Revoke)) == Head(s) <==> Redundant(View(s, n), SettledWrites(s.layers[n..]))
  {
    hide Head, CountOpen, AnyDisables, View, SettledWrites, Redundant;
    var i := IndexOf(s.layers, id).value;
    var n := FirstAbandoned(s.layers[..i]);
    assert s.layers[..i][..n] == s.layers[..n];
    CutShows(s, EndSession(s, id, Revoke), n);
  }

  lemma {:induction false} SettledWritesOfOne(l: Layer)
    ensures SettledWrites([l]) == if Settled(l) then l.values else map[]
  {
    assert [l][..0] == [];
  }

  lemma {:induction false} InTurn(a: Writes, b: Writes, c: Writes)
    ensures (a + b) + c == a + (b + c)
  {
  }

  lemma {:induction false} SettledWritesConcat(a: seq<Layer>, b: seq<Layer>)
    ensures SettledWrites(a + b) == SettledWrites(a) + SettledWrites(b)
    decreases |b|
  {
    if b == [] {
      assert a + b == a;
    } else {
      var n := |b| - 1;
      assert (a + b)[..|a| + n] == a + b[..n] && (a + b)[|a| + n] == b[n];
      SettledWritesConcat(a, b[..n]);
      InTurn(SettledWrites(a), SettledWrites(b[..n]), if Settled(b[n]) then b[n].values else map[]);
    }
  }

  /** Settling one layer in the middle of the stack shows exactly where nothing settled above covers it. */
  lemma {:induction false} SettlingShows(s: State, t: State, i: nat)
    requires i < |s.layers| && !Settled(s.layers[i])
    requires t.root == s.root && t.layers == s.layers[i := s.layers[i].(committed := true)]
    requires !s.layers[i].abandoned
    ensures Head(t) == Head(s) <==> Redundant(View(s, i), s.layers[i].values - SettledWrites(s.layers[i + 1..]).Keys)
  {
    hide Over, Laid, SettledWrites, Redundant, Head;
    var above := s.layers[i + 1..];
    var done := t.layers[i];
    assert s.layers[i..] == [s.layers[i]] + above && t.layers[i..] == [done] + above && t.layers[..i] == s.layers[..i];
    SettledWritesConcat([s.layers[i]], above);
    SettledWritesConcat([done], above);
    SettledWritesOfOne(s.layers[i]);
    SettledWritesOfOne(done);
    HeadFrom(s, i);
    HeadFrom(t, i);
    OverTwice(View(s, i), done.values, SettledWrites(above));
    assert map[] + SettledWrites(above) == SettledWrites(above);
    CoveredIff(View(s, i), done.values, SettledWrites(above));
  }

  /**
    Committing is the step by which written values enter the head. It leaves the head alone if and
    only if what the session wrote, and nothing committed above overwrites, was there before; or, when
    a layer below was closed and everything from it on goes, if that was redundant.
   */
  lemma {:induction false} CommittingIsInvisible(s: State, id: nat)
    requires MayEnd(s, id, Commit)
    ensures var i := IndexOf(s.layers, id).value;
            var n := FirstAbandoned(s.layers[..i]);
            Head(EndSession(s, id, Commit)) == Head(s) <==>
              if n < i then Redundant(View(s, n), SettledWrites(s.layers[n..]))
              else Redundant(View(s, i), s.layers[i].values - SettledWrites(s.layers[i + 1..]).Keys)
  {
    hide Head, CountOpen, AnyDisables, View, SettledWrites, Redundant;
    var i := IndexOf(s.layers, id).value;
    var n := FirstAbandoned(s.layers[..i]);
    var done := s.layers[i := s.layers[i].(committed := true)];
    var t := EndSession(s, id, Commit);
    SettledAbove(s, i, done, n);
    if n < i {
      assert done[..n] == s.layers[..n];
      CutShows(s, t, n);
    } else {
      assert done[..|done|] == done;
      SettlingShows(s, t, i);
    }
  }

  /** With everything above settled, the first closed layer is found below. */
  lemma {:induction false} SettledAbove(s: State, i: nat, done: seq<Layer>, n: nat)
    requires i < |s.layers| && Open(s.layers[i]) && AllSettled(s.layers[i + 1..]) && n == FirstAbandoned(s.layers[..i])
    requires done == s.layers[i := s.layers[i].(committed := true)]
    ensures FirstAbandoned(done) == if n < i then n else |done|
  {
    forall j | i < j < |done| ensures !done[j].abandoned { assert done[j] == s.layers[i + 1..][j - i - 1]; }
    forall j | 0 <= j < i ensures done[j] == s.layers[..i][j] {}
  }

  /** Merging into an open layer hides what was settled above it, merging into a settled one is a commit. */
  lemma {:induction false} MergingIsInvisible(s: State, id: nat)
    requires MayEnd(s, id, Merge)
    ensures var i := IndexOf(s.layers, id).value;
            var n := FirstAbandoned(s.layers[..i]);
            Head(EndSession(s, id, Merge)) == Head(s) <==>
              if n < i then Redundant(View(s, n), SettledWrites(s.layers[n..]))
              else if Settled(s.layers[i - 1]) then
                Redundant(View(s, i), s.layers[i].values - SettledWrites(s.layers[i + 1..]).Keys)
              else Redundant(View(s, i - 1), SettledWrites(s.layers[i - 1..]))
  {
    hide Head, CountOpen, AnyDisables, View, SettledWrites, Redundant, MergedWrites;
    var i := IndexOf(s.layers, id).value;
    var n := FirstAbandoned(s.layers[..i]);
    var below := s.layers[i - 1];
    var merged := below.(values := MergedWrites(below.values, s.layers[i..]));
    var low := s.layers[..i - 1];
    var t := EndSession(s, id, Merge);
    forall j | 0 <= j < i ensures s.layers[..i][j].abandoned == (low + [merged])[j].abandoned {}
    assert FirstAbandoned(low + [merged]) == n;
    if n < i {
      assert (low + [merged])[..n] == s.layers[..n];
      CutShows(s, t, n);
    } else {
      assert (low + [merged])[..n] == low + [merged];
      MergedShows(s, t, i);
    }
  }

  lemma {:induction false} MergedShows(s: State, t: State, i: nat)
    requires 0 < i < |s.layers| && Open(s.layers[i]) && AllSettled(s.layers[i + 1..])
    requires var below := s.layers[i - 1];
             t.root == s.root && !below.abandoned
             && t.layers == s.layers[..i - 1] + [below.(values := MergedWrites(below.values, s.layers[i..]))]
    ensures Head(t) == Head(s) <==>
              if Settled(s.layers[i - 1]) then Redundant(View(s, i), s.layers[i].values - SettledWrites(s.layers[i + 1..]).Keys)
              else Redundant(View(s, i - 1), SettledWrites(s.layers[i - 1..]))
  {
    hide Over, Laid, SettledWrites, Redundant, Head, MergedWrites;
    var below, above := s.layers[i - 1], s.layers[i + 1..];
    var merged := t.layers[i - 1];
    var low := View(s, i - 1);
    assert t.layers[..i - 1] == s.layers[..i - 1] && t.layers[i - 1..] == [merged];
    HeadFrom(t, i - 1);
    SettledWritesOfOne(merged);
    if Settled(below) {
      assert s.layers[..i][..i - 1] == s.layers[..i - 1];
      ViewNext(s, i - 1);
      HeadFrom(s, i);
      var own := s.layers[i];
      assert s.layers[i..] == [own] + above;
      SettledWritesConcat([own], above);
      SettledWritesOfOne(own);
      assert map[] + SettledWrites(above) == SettledWrites(above);
      MergedSplit(below.values, own, above);
      OverTwice(low, below.values, own.values + SettledWrites(above));
      OverTwice(View(s, i), own.values, SettledWrites(above));
      CoveredIff(View(s, i), own.values, SettledWrites(above));
    } else {
      OverNothing(low);
      HeadFrom(s, i - 1);
      RedundantIff(low, SettledWrites(s.layers[i - 1..]));
    }
  }

  lemma {:induction false} ViewNext(s: State, n: nat)
    requires n < |s.layers| && Settled(s.layers[n])
    ensures View(s, n + 1) == Over(View(s, n), s.layers[n].values)
  {
    hide Over;
    assert s.layers[..n + 1][..n] == s.layers[..n];
  }

  lemma {:induction false} MergedSplit(base: Writes, own: Layer, above: seq<Layer>)
    requires AllSettled(above)
    ensures MergedWrites(base, [own] + above) == base + (own.values + SettledWrites(above))
    decreases |above|
  {
    var all := [own] + above;
    if above == [] {
      assert all[..0] == [] && all == [own];
      assert own.values + map[] == own.values;
    } else {
      var n := |above| - 1;
      var low, top := SettledWrites(above[..n]), above[n].values;
      assert all[..|all| - 1] == [own] + above[..n] && all[|all| - 1] == above[n] && Settled(above[n]);
      MergedSplit(base, own, above[..n]);
      InTurn(base, own.values + low, top);
      InTurn(own.values, low, top);
    }
  }

  /** A child committed under a parent that is still open. */
  const LEAKY_OPS: seq<Op> := [Build(true), BuildChild(1), Write(2, ("account", [1]), Put([7])), End(2, Commit)]

  /**
    The exception: a session committed above one that is still open does show in the head, and
    disappears from it again when the lower session is revoked.
   */
  lemma {:induction false} CommittedChildShowsAndVanishes()
    ensures var s := Run(INITIAL, LEAKY_OPS);
            && Live(s, 1)
            && Head(s) == map[("account", [1]) := [7]]
            && Head(Step(s, End(1, Revoke))) == map[]
  {
    var k: Key := ("account", [1]);
    var s1 := Step(INITIAL, Build(true));
    assert s1.layers == [Layer(1, map[], false, false, false)];
    var s2 := Step(s1, BuildChild(1));
    assert s2.layers == [Layer(1, map[], false, false, false), Layer(2, map[], false, false, false)];
    var s3 := Step(s2, Write(2, k, Put([7])));
    assert s3.layers == [Layer(1, map[], false, false, false), Layer(2, map[k := Put([7])], false, false, false)];
    var s4 := Step(s3, End(2, Commit));
    ChildCommit(s3);
    RunFour(INITIAL, LEAKY_OPS);
    HeadOfLeak(s4);
  }

  lemma {:induction false} RunStep(s: State, ops: seq<Op>, i: nat)
    requires i < |ops|
    ensures Run(s, ops[i..]) == Run(Step(s, ops[i]), ops[i + 1..])
  {
    hide Step;
    assert ops[i..][0] == ops[i] && ops[i..][1..] == ops[i + 1..];
  }

  lemma {:induction false} RunFour(s: State, ops: seq<Op>)
    requires |ops| == 4
    ensures Run(s, ops) == Step(Step(Step(Step(s, ops[0]), ops[1]), ops[2]), ops[3])
  {
    hide Step, Run;
    var a := Step(s, ops[0]);
    var b := Step(a, ops[1]);
    var c := Step(b, ops[2]);
    RunStep(s, ops, 0);
    RunStep(a, ops, 1);
    RunStep(b, ops, 2);
    RunStep(c, ops, 3);
    assert ops[0..] == ops && ops[4..] == [];
    RunNothing(Step(c, ops[3]));
  }

  lemma {:induction false} RunNothing(s: State)
    ensures Run(s, []) == s
  {
  }

  lemma {:induction false} SecondOfTwo(layers: seq<Layer>)
    requires |layers| == 2 && layers[0].id == 1 && layers[1].id == 2
    ensures IndexOf(layers, 2) == Some(1) && IndexOf(layers, 1) == Some(0)
  {
  }

  lemma {:induction false} ChildCommit(s: State)
    requires s.layers == [Layer(1, map[], false, false, false), Layer(2, map[("account", [1]) := Put([7])], false, false, false)]
    ensures Step(s, End(2, Commit)).layers ==
            [Layer(1, map[], false, false, false), Layer(2, map[("account", [1]) := Put([7])], true, false, false)]
    ensures Step(s, End(2, Commit)).root == s.root
  {
    hide CountOpen, MergedWrites, AnyDisables, IndexOf, FirstAbandoned;
    SecondOfTwo(s.layers);
    assert s.layers[2..] == [];
    var u := s.layers[1 := s.layers[1].(committed := true)];
    SettledAboveNone(u);
    assert u[..2] == u;
  }

  lemma {:induction false} SettledAboveNone(layers: seq<Layer>)
    requires forall i :: 0 <= i < |layers| ==> !layers[i].abandoned
    ensures FirstAbandoned(layers) == |layers|
  {
  }

  lemma {:induction false} HeadOfLeak(s: State)
    requires s.root == map[]
    requires s.layers == [Layer(1, map[], false, false, false), Layer(2, map[("account", [1]) := Put([7])], true, false, false)]
    ensures Live(s, 1) && Head(s) == map[("account", [1]) := [7]] && Head(Step(s, End(1, Revoke))) == map[]
  {
    var seen := (l: Layer) => Settled(l);
    var w: Writes := map[("account", [1]) := Put([7])];
    assert s.layers[..1] == [s.layers[0]] && [s.layers[0]][..0] == [];
    assert Laid(map[], s.layers[..1], seen) == map[];
    assert Head(s) == Over(map[], w);
    assert Over(map[], w).Keys == {("account", [1])};
    assert IndexOf(s.layers, 1) == Some(0);
    var t := Step(s, End(1, Revoke));
    assert s.layers[..0] == [] && t.layers == [];
  }

  // ---- rewinding a block --------------------------------------------------------------------------------------

  /**
    Rewinding a checkpoint takes back the checkpoint, and with it the block's layer exactly when the
    block's session was on top at its commit: a committed child left above it would be popped instead.
   */
  lemma {:induction false} RewindUndoesCommitIff(s: State, id: nat, point: Point)
    requires Inv(s) && s.active == 1 && MayCheckpoint(s, id, point)
    ensures var i := IndexOf(s.layers, id).value;
            var done := Checkpointed(s, id, point);
            var back := Rewound(done, point.identity);
            && MayRewind(done, point.identity)
            && back.checkpoints == s.checkpoints && back.root == s.root
            && (back.layers == s.layers[..i] <==> i == |s.layers| - 1)
  {
    hide CountOpen, Captured;
    var i := IndexOf(s.layers, id).value;
    var done := Checkpointed(s, id, point);
    CheckpointKeepsInv(s, id, point);
    var top := |s.layers| - 1;
    assert Settled(done.layers[top]) by {
      if top > i { assert s.layers[i + 1..][top - i - 1] == s.layers[top]; }
    }
    assert done.checkpoints[..|s.checkpoints|] == s.checkpoints;
    var back := Rewound(done, point.identity);
    if i == top {
      assert back.layers == s.layers[..i];
    } else {
      assert |back.layers| == top && |s.layers[..i]| == i;
    }
  }

  /** A block whose session is committed with a child still above it. */
  const WRAPPED_OPS: seq<Op> :=
    [Build(true), BuildChild(1), End(2, Commit), CommitWithCheckpoint(1, Point(5, [9]))]

  /** Rewinding that block takes its checkpoint and the child's layer, and leaves the block's own. */
  lemma {:induction false} RewindTakesTheChild()
    ensures var s := Run(INITIAL, WRAPPED_OPS);
            && MayRewind(s, [9]) && |s.layers| == 2 && s.layers[0].id == 1
            && Rewound(s, [9]).checkpoints == []
            && Rewound(s, [9]).layers == [s.layers[0]] && s.layers[0].committed
  {
    hide CountOpen, Captured;
    var one, two := Layer(1, map[], false, false, false), Layer(2, map[], false, false, false);
    var s1 := Step(INITIAL, Build(true));
    assert s1.layers == [one] && s1.active == 1;
    var s2 := Step(s1, BuildChild(1));
    assert s2.layers == [one, two] && s2.active == 2;
    var s3 := Step(s2, End(2, Commit));
    EmptyChildCommit(s2);
    var s4 := Step(s3, CommitWithCheckpoint(1, Point(5, [9])));
    SecondOfTwo(s3.layers);
    assert s3.layers[1..] == [two.(committed := true)];
    assert s4.layers == [one.(committed := true), two.(committed := true)];
    RunFour(INITIAL, WRAPPED_OPS);
    assert s4.layers[..1] == [s4.layers[0]];
    assert s4.checkpoints[..0] == [];
  }

  lemma {:induction false} EmptyChildCommit(s: State)
    requires s.layers == [Layer(1, map[], false, false, false), Layer(2, map[], false, false, false)] && s.active == 2
    ensures var t := Step(s, End(2, Commit));
            t == s.(layers := [Layer(1, map[], false, false, false), Layer(2, map[], true, false, false)], active := 1)
  {
    hide MergedWrites, IndexOf, FirstAbandoned;
    SecondOfTwo(s.layers);
    assert s.layers[2..] == [];
    var u := s.layers[1 := s.layers[1].(committed := true)];
    SettledAboveNone(u);
    assert u[..2] == u && u[2..] == [];
  }
}
