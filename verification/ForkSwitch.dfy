/**
  Switching between two branches of blocks: rewind the old one block by block, apply the new one,
  and put the old one back when a new block fails.
 */
module ForkSwitch {
  import opened Outcomes
  import opened Sessions
  import opened SessionLaws
  import opened SessionManager
  import opened Khaos

  /** What is known of a block before it is executed. */
  datatype Header = Header(
    parent: Id,
    number: int,
    version: int,
    timestamp: int,
    bytes: nat,
    transactions: nat,
    shielded: nat,
    receivedAt: int)

  datatype Limits = Limits(
    maxBytes: nat,
    maxTransactions: nat,
    minVersion: int,
    maxVersion: int,
    maxFuture: int,
    maxShielded: nat)

  /** Executing a block: the writes it got to, and whether everything in it was accepted. */
  datatype Execution = Execution(writes: seq<(Key, Overlay)>, ok: bool)

  /**
    An identifier is a hash, so it fixes its block. Whether its encoding is exact, its signature good
    and its witness the scheduled one, and what executing it on a state does, are functions of it.
   */
  datatype Rules = Rules(
    header: Id -> Header,
    limits: Limits,
    exact: Id -> bool,
    signed: Id -> bool,
    scheduled: Id -> bool,
    exec: (Image, Id) -> Execution)

  /** The largest value of the node's 64-bit times. */
  const MAX_TIME: int := 0x7fff_ffff_ffff_ffff

  /** The checks on a block and its header that come before a session is built. */
  predicate Admitted(rules: Rules, id: Id)
  {
    var h, l := rules.header(id), rules.limits;
    && rules.exact(id)
    && h.bytes <= l.maxBytes && h.transactions <= l.maxTransactions
    && l.minVersion <= h.version <= l.maxVersion
    && rules.header(h.parent).timestamp < h.timestamp
    && h.receivedAt + l.maxFuture <= MAX_TIME && h.timestamp <= h.receivedAt + l.maxFuture
    && rules.signed(id) && rules.scheduled(id)
    && h.shielded <= l.maxShielded
  }

  // ---- one block on top of a settled state ---------------------------------------------------------

  function WritesOf(writes: seq<(Key, Overlay)>): Writes
    decreases |writes|
  {
    if writes == [] then map[]
    else
      var n := |writes| - 1;
      WritesOf(writes[..n])[writes[n].0 := writes[n].1]
  }

  predicate CanApply(rules: Rules, s: State, id: Id)
  {
    && Admitted(rules, id)
    && s.active == 0
    && rules.exec(Flat(s.root, s.layers), id).ok
    && rules.header(id).number >= 0
    && FitsStack(s.checkpoints, Point(rules.header(id).number, id))
  }

  /** The state with one more block: a committed layer of its writes and a checkpoint. */
  function Applied(rules: Rules, s: State, id: Id): State
    requires CanApply(rules, s, id)
  {
    var layer := Layer(s.nextId, WritesOf(rules.exec(Flat(s.root, s.layers), id).writes), false, false, !s.enabled);
    s.(layers := s.layers + [layer.(committed := true)],
       checkpoints := s.checkpoints + [Checkpoint(Point(rules.header(id).number, id), LastIdentity(s.checkpoints),
                                                  Captured(s.root, s.layers + [layer]))],
       nextId := s.nextId + 1)
  }

  /** States that differ in nothing but the numbers of their sessions. */
  ghost predicate SameChain(s: State, t: State)
  {
    && s.root == t.root && s.checkpoints == t.checkpoints && s.enabled == t.enabled && s.active == t.active
    && s.pendingOuter == t.pendingOuter
    && SameLayers(s.layers, t.layers)
  }

  ghost predicate SameLayers(a: seq<Layer>, b: seq<Layer>)
  {
    |a| == |b| && forall i :: 0 <= i < |a| ==> a[i].(id := 0) == b[i].(id := 0)
  }

  lemma {:induction false} LaidSameLayers(root: Image, a: seq<Layer>, b: seq<Layer>, seen: Layer -> bool)
    requires SameLayers(a, b)
    requires forall i :: 0 <= i < |a| ==> seen(a[i]) == seen(b[i])
    ensures Laid(root, a, seen) == Laid(root, b, seen)
    decreases |a|
  {
    hide Over;
    if a != [] {
      var n := |a| - 1;
      assert a[n].(id := 0).values == b[n].(id := 0).values;
      LaidSameLayers(root, a[..n], b[..n], seen);
    }
  }

  lemma {:induction false} SameViews(root: Image, a: seq<Layer>, b: seq<Layer>)
    requires SameLayers(a, b)
    ensures Flat(root, a) == Flat(root, b) && Captured(root, a) == Captured(root, b)
  {
    hide Laid;
    LaidSameLayers(root, a, b, _ => true);
    forall i | 0 <= i < |a| ensures a[i].abandoned == b[i].abandoned {
      assert a[i].(id := 0).abandoned == b[i].(id := 0).abandoned;
    }
    LaidSameLayers(root, a, b, (l: Layer) => !l.abandoned);
  }

  lemma {:induction false} ApplyCongruent(rules: Rules, s: State, t: State, id: Id)
    requires SameChain(s, t)
    ensures CanApply(rules, s, id) == CanApply(rules, t, id)
    ensures CanApply(rules, s, id) ==> SameChain(Applied(rules, s, id), Applied(rules, t, id))
  {
    hide Flat, Captured, Admitted;
    SameViews(s.root, s.layers, t.layers);
    if CanApply(rules, s, id) {
      var writes := WritesOf(rules.exec(Flat(s.root, s.layers), id).writes);
      SameViews(s.root, s.layers + [Layer(s.nextId, writes, false, false, !s.enabled)],
                t.layers + [Layer(t.nextId, writes, false, false, !t.enabled)]);
    }
  }

  /** Rewinding takes the newest block back, whatever its session was numbered. */
  lemma {:induction false} RewindTakesBack(rules: Rules, s: State, done: State, id: Id)
    requires CanApply(rules, s, id) && SameChain(done, Applied(rules, s, id))
    ensures MayRewind(done, id) && SameChain(Rewound(done, id), s)
  {
    hide Flat, Captured, Admitted;
    var n := |s.layers|;
    var after := Applied(rules, s, id);
    assert done.layers[n].(id := 0) == after.layers[n].(id := 0);
    assert Settled(done.layers[n]) by {
      assert done.layers[n].(id := 0).committed && !done.layers[n].(id := 0).abandoned;
    }
    forall i | 0 <= i < n ensures done.layers[..n][i].(id := 0) == s.layers[i].(id := 0) {
      assert after.layers[i] == s.layers[i];
    }
  }

  // ---- branches of blocks ----------------------------------------------------------------------------

  /** The state after applying the blocks in order, if each of them applies. */
  function Chain(rules: Rules, base: State, ids: seq<Id>): Option<State>
    decreases |ids|
  {
    if ids == [] then Some(base)
    else
      var n := |ids| - 1;
      match Chain(rules, base, ids[..n])
      case None => None
      case Some(s) => if CanApply(rules, s, ids[n]) then Some(Applied(rules, s, ids[n])) else None
  }

  /** The state is what the blocks make of the base. */
  ghost predicate Grown(rules: Rules, base: State, ids: seq<Id>, s: State)
  {
    Chain(rules, base, ids).Some? && SameChain(s, Chain(rules, base, ids).value)
  }

  lemma {:induction false} GrownRewinds(rules: Rules, base: State, ids: seq<Id>, s: State)
    requires Grown(rules, base, ids, s) && ids != []
    ensures var n := |ids| - 1;
            MayRewind(s, ids[n]) && Grown(rules, base, ids[..n], Rewound(s, ids[n]))
  {
    hide CanApply, Applied, MayRewind, Rewound, SameChain;
    var n := |ids| - 1;
    RewindTakesBack(rules, Chain(rules, base, ids[..n]).value, s, ids[n]);
  }

  lemma {:induction false} GrownGrows(rules: Rules, base: State, ids: seq<Id>, s: State, id: Id)
    requires Grown(rules, base, ids, s)
    ensures CanApply(rules, s, id) <==> Chain(rules, base, ids + [id]).Some?
    ensures CanApply(rules, s, id) ==> Grown(rules, base, ids + [id], Applied(rules, s, id))
  {
    hide CanApply, Applied, SameChain;
    assert (ids + [id])[..|ids|] == ids;
    ApplyCongruent(rules, s, Chain(rules, base, ids).value, id);
  }

  lemma {:induction false} SameChainTrans(a: State, b: State, c: State)
    requires SameChain(a, b) && SameChain(c, b)
    ensures SameChain(a, c)
  {
    forall i | 0 <= i < |a.layers| ensures a.layers[i].(id := 0) == c.layers[i].(id := 0) {
      assert a.layers[i].(id := 0) == b.layers[i].(id := 0);
    }
  }

  lemma {:induction false} GrownSame(rules: Rules, base: State, ids: seq<Id>, s: State, t: State)
    requires Grown(rules, base, ids, s)
    ensures SameChain(s, t) ==> Grown(rules, base, ids, t)
    ensures Grown(rules, base, ids, t) ==> SameChain(s, t)
  {
    hide Chain;
    var c := Chain(rules, base, ids).value;
    if SameChain(s, t) { SameChainTrans(c, s, t); SameChainFlip(c, t); }
    if Grown(rules, base, ids, t) { SameChainTrans(s, c, t); }
  }

  lemma {:induction false} SameChainFlip(a: State, b: State)
    requires SameChain(a, b)
    ensures SameChain(b, a)
  {
  }

  lemma {:induction false} ChainPrefix(rules: Rules, base: State, ids: seq<Id>, k: nat)
    requires k <= |ids| && Chain(rules, base, ids).Some?
    ensures Chain(rules, base, ids[..k]).Some?
    decreases |ids|
  {
    hide CanApply, Applied;
    if k < |ids| {
      var n := |ids| - 1;
      ChainPrefix(rules, base, ids[..n], k);
      assert ids[..n][..k] == ids[..k];
    } else {
      assert ids[..k] == ids;
    }
  }

  /** Applying one branch and then another is applying them in a row. */
  lemma {:induction false} ChainConcat(rules: Rules, base: State, a: seq<Id>, b: seq<Id>)
    ensures Chain(rules, base, a + b) ==
            match Chain(rules, base, a) case None => None case Some(t) => Chain(rules, t, b)
    decreases |b|
  {
    hide CanApply, Applied;
    if b == [] {
      assert a + b == a;
    } else {
      var n := |b| - 1;
      assert (a + b)[..|a| + n] == a + b[..n];
      ChainConcat(rules, base, a, b[..n]);
    }
  }

  /** Nothing is being written and nothing is half closed. */
  ghost predicate Rests(s: State) { s.active == 0 && AllSettled(s.layers) }

  lemma {:induction false} MayRewindSame(s: State, t: State, id: Id)
    requires SameChain(s, t)
    ensures MayRewind(s, id) == MayRewind(t, id)
  {
    var n := |s.layers| - 1;
    if n >= 0 {
      assert s.layers[n].(id := 0) == t.layers[n].(id := 0);
      assert s.layers[n].committed == s.layers[n].(id := 0).committed && s.layers[n].abandoned == s.layers[n].(id := 0).abandoned;
      assert t.layers[n].committed == t.layers[n].(id := 0).committed && t.layers[n].abandoned == t.layers[n].(id := 0).abandoned;
    }
  }

  lemma {:induction false} ChainRests(rules: Rules, base: State, ids: seq<Id>)
    requires Rests(base) && Chain(rules, base, ids).Some?
    ensures Rests(Chain(rules, base, ids).value)
    decreases |ids|
  {
    hide CanApply, Captured, Flat, WritesOf;
    if ids != [] { ChainRests(rules, base, ids[..|ids| - 1]); }
  }

  lemma {:induction false} GrownRests(rules: Rules, base: State, ids: seq<Id>, s: State)
    requires Rests(base) && Grown(rules, base, ids, s)
    ensures Rests(s)
  {
    hide Chain;
    ChainRests(rules, base, ids);
    var c := Chain(rules, base, ids).value;
    forall i | 0 <= i < |s.layers| ensures Settled(s.layers[i]) {
      assert s.layers[i].(id := 0) == c.layers[i].(id := 0) && Settled(c.layers[i]);
      assert s.layers[i].(id := 0).committed && !s.layers[i].(id := 0).abandoned;
    }
  }

  /** The first block that does not apply. */
  ghost predicate FailsAt(rules: Rules, base: State, ids: seq<Id>, k: nat)
  {
    k < |ids| && Chain(rules, base, ids[..k]).Some? && Chain(rules, base, ids[..k + 1]).None?
  }

  lemma {:induction false} FailureIsFinal(rules: Rules, base: State, ids: seq<Id>, k: nat)
    requires FailsAt(rules, base, ids, k)
    ensures Chain(rules, base, ids).None?
  {
    hide Chain;
    if Chain(rules, base, ids).Some? { ChainPrefix(rules, base, ids, k + 1); }
  }

  // ---- branches in the graph ----------------------------------------------------------------------------

  function Reversed<T>(s: seq<T>): seq<T> { seq(|s|, i requires 0 <= i < |s| => s[|s| - 1 - i]) }

  function Before(from: Id, ids: seq<Id>, m: nat): Id
    requires m <= |ids|
  {
    if m == 0 then from else ids[m - 1]
  }

  /** Retained blocks, each linked to the one before it, the first one to `from`. */
  ghost predicate Descends(rules: Rules, store: Store, from: Id, ids: seq<Id>)
  {
    forall m :: 0 <= m < |ids| ==>
      && ids[m] in store && store[ids[m]].parent.Some?
      && store[ids[m]].parent.value.id == Before(from, ids, m)
      && rules.header(ids[m]).parent == Before(from, ids, m)
      && rules.header(ids[m]).number == rules.header(Before(from, ids, m)).number + 1
  }

  /** Links and heights in the graph are those the headers state. */
  ghost predicate Graph(rules: Rules, store: Store)
  {
    && Linked(store)
    && forall id :: id in store ==>
         && store[id].number == rules.header(id).number
         && (store[id].parent.Some? ==>
               store[id].parent.value.id == rules.header(id).parent && store[id].parent.value.id in store)
  }

  /** The parent hash of a block that has none. */
  const ZERO_HASH: Id := []

  function ParentHash(rules: Rules, id: Id): Option<Id>
  {
    if rules.header(id).parent == ZERO_HASH then None else Some(rules.header(id).parent)
  }

  /** Whatever block is pushed, the graph stays one. */
  lemma {:induction false} PushKeepsGraph(rules: Rules, store: Store, hasHead: bool, id: Id)
    requires Graph(rules, store)
    ensures var r := Push(store, hasHead, id, rules.header(id).number, ParentHash(rules, id));
            r.Ok? ==> Graph(rules, r.value)
  {
    hide Linked;
    assert HeightOfId(store, id, rules.header(id).number) by { HeightsAgree(rules, store, id); }
    assert Linked(store);
    PushKeepsLinked(store, hasHead, id, rules.header(id).number, ParentHash(rules, id));
  }

  lemma {:induction false} HeightsAgree(rules: Rules, store: Store, id: Id)
    requires Graph(rules, store)
    ensures HeightOfId(store, id, rules.header(id).number)
  {
  }

  /** And whatever blocks are removed. */
  lemma {:induction false} DropKeepsGraph(rules: Rules, store: Store, gone: set<Id>)
    requires Graph(rules, store)
    ensures Graph(rules, Dropped(store, gone))
  {
    hide Linked;
    assert Linked(store);
    DropKeepsLinked(store, Dropped(store, gone));
  }

  lemma {:induction false} AncestorLink(rules: Rules, store: Store, id: Id, a: nat)
    requires Graph(rules, store) && Ancestor(store, id, a + 1).Some?
    ensures Ancestor(store, id, a).Some?
    ensures var child, parent := Ancestor(store, id, a).value, Ancestor(store, id, a + 1).value;
            && store[child].parent.Some? && store[child].parent.value.id == parent
            && rules.header(child).parent == parent
            && rules.header(child).number == rules.header(parent).number + 1
  {
  }

  lemma {:induction false} BranchDescends(rules: Rules, store: Store, id: Id, k: nat, from: Id)
    requires Graph(rules, store) && Ancestor(store, id, k) == Some(from)
    ensures |Branch(store, id, k)| == k && from in store && id in store
    ensures Descends(rules, store, from, Reversed(Branch(store, id, k)))
    ensures Before(from, Reversed(Branch(store, id, k)), k) == id
    ensures from !in Branch(store, id, k)
  {
    hide Graph, Linked, Branch, Ancestor;
    AncestorStarts(store, id, k);
    BranchLength(store, id, k);
    var ids := Reversed(Branch(store, id, k));
    forall m | 0 <= m < k
      ensures ids[m] in store && store[ids[m]].parent.Some?
      ensures store[ids[m]].parent.value.id == Before(from, ids, m)
      ensures rules.header(ids[m]).parent == Before(from, ids, m)
      ensures rules.header(ids[m]).number == rules.header(Before(from, ids, m)).number + 1
    {
      BranchReversed(store, id, k, from, m);
      AncestorLink(rules, store, id, k - 1 - m);
    }
    if k > 0 { BranchEntries(store, id, k, 0); }
    forall a | 0 <= a < k ensures Branch(store, id, k)[a] != from {
      LinkedGraph(rules, store);
      BranchEntries(store, id, k, a);
      AncestorHeight(store, id, k);
      AncestorHeight(store, id, a);
    }
  }

  lemma {:induction false} AncestorStarts(store: Store, id: Id, k: nat)
    requires Ancestor(store, id, k).Some?
    ensures id in store && Ancestor(store, id, 0) == Some(id) && (k > 0 ==> Ancestor(store, id, k - 1).Some?)
  {
    AncestorBefore(store, id, 0, k);
    if k > 0 { AncestorBefore(store, id, k - 1, k); }
  }

  /** The oldest block of a branch comes first. */
  lemma {:induction false} BranchReversed(store: Store, id: Id, k: nat, from: Id, m: nat)
    requires Ancestor(store, id, k) == Some(from) && m < k && |Branch(store, id, k)| == k
    ensures var ids := Reversed(Branch(store, id, k));
            && Ancestor(store, id, k - 1 - m) == Some(ids[m])
            && Ancestor(store, id, k - 1 - m + 1) == Some(Before(from, ids, m))
  {
    hide Branch, Ancestor;
    AncestorStarts(store, id, k);
    BranchEntries(store, id, k, k - 1 - m);
    if m > 0 { BranchEntries(store, id, k, k - m); }
  }

  lemma {:induction false} LinkedGraph(rules: Rules, store: Store)
    requires Graph(rules, store)
    ensures Linked(store)
  {
  }

  // ---- applying one block --------------------------------------------------------------------------------

  /** The part of `apply_block_mode` between building the session and finishing it. */
  method ApplyInSession(sessions: Manager, rules: Rules, id: Id) returns (ok: bool)
    requires sessions.Valid() && Admitted(rules, id)
    modifies sessions
    ensures sessions.Valid()
    ensures ok <==> CanApply(rules, old(sessions.Snapshot()), id)
    ensures ok ==> sessions.Snapshot() == Applied(rules, old(sessions.Snapshot()), id)
    ensures !ok && AllSettled(old(sessions.layers)) ==> SameChain(sessions.Snapshot(), old(sessions.Snapshot()))
  {
    hide Admitted, Inv, Flat, Captured, CountOpen, EndSession, CloseSession, Checkpointed, MayCheckpoint, Applied, IndexOf, MayEnd;
    ghost var before := sessions.Snapshot();
    var execution := rules.exec(Flat(sessions.root, sessions.layers), id);
    var built := sessions.BuildSession(true);
    if built.Err? {
      return false;
    }
    var session := built.value.value;
    var n := |sessions.layers| - 1;
    var k := 0;
    while k < |execution.writes|
      invariant 0 <= k <= |execution.writes| && sessions.Valid()
      invariant sessions.Snapshot() == Written(before, WritesOf(execution.writes[..k]))
    {
      assert execution.writes[..k + 1][..k] == execution.writes[..k];
      var wrote := sessions.Mutate(session, execution.writes[k].0, execution.writes[k].1);
      k := k + 1;
    }
    assert execution.writes[..k] == execution.writes;
    ok := FinishSession(sessions, rules, id, session, execution.ok, before);
  }

  /** Commit with a checkpoint, or give the session up. */
  method FinishSession(sessions: Manager, rules: Rules, id: Id, session: nat, accepted: bool, ghost before: State)
    returns (ok: bool)
    requires sessions.Valid() && Inv(before) && before.active == 0 && session == before.nextId && Admitted(rules, id)
    requires accepted == rules.exec(Flat(before.root, before.layers), id).ok
    requires sessions.Snapshot() == Written(before, WritesOf(rules.exec(Flat(before.root, before.layers), id).writes))
    modifies sessions
    ensures sessions.Valid()
    ensures ok <==> CanApply(rules, before, id)
    ensures ok ==> sessions.Snapshot() == Applied(rules, before, id)
    ensures !ok && AllSettled(before.layers) ==> SameChain(sessions.Snapshot(), before)
  {
    hide Admitted, Inv, Flat, Captured, CountOpen, EndSession, CloseSession, Checkpointed, MayCheckpoint, Applied, IndexOf, MayEnd, Written, SameChain;
    RevokeWritten(before, WritesOf(rules.exec(Flat(before.root, before.layers), id).writes));
    if !accepted || rules.header(id).number < 0 {
      var ended := sessions.EndWith(session, Revoke);
      return false;
    }
    CommitWritten(rules, before, id);
    var committed := sessions.CommitWithCheckpointAt(session, Point(rules.header(id).number, id));
    if committed.Err? {
      var closed := sessions.CloseSession(session);
      return false;
    }
    return true;
  }

  /** A session with these writes on top of a state. */
  function Written(s: State, writes: Writes): State
  {
    s.(layers := s.layers + [Layer(s.nextId, writes, false, false, !s.enabled)],
       enabled := true, active := s.active + 1, nextId := s.nextId + 1)
  }

  lemma {:induction false} WrittenOnTop(s: State, writes: Writes)
    requires Inv(s)
    ensures IndexOf(Written(s, writes).layers, s.nextId) == Some(|s.layers|)
    ensures Written(s, writes).layers[|s.layers| + 1..] == [] && Written(s, writes).layers[..|s.layers|] == s.layers
    ensures CountOpen(Written(s, writes).layers[|s.layers|..]) == 1
  {
    hide CountOpen;
    var t := Written(s, writes);
    var n := |s.layers|;
    assert t.layers[n].id == s.nextId && IndexOf(t.layers, s.nextId).Some?;
    assert t.layers[n..] == [t.layers[n]];
    CountOpenOne(t.layers[n]);
  }

  lemma {:induction false} NothingAbandoned(layers: seq<Layer>)
    requires AllSettled(layers)
    ensures FirstAbandoned(layers) == |layers| && layers[..|layers|] == layers && layers[|layers|..] == []
  {
  }

  lemma {:induction false} RevokeWritten(s: State, writes: Writes)
    requires Inv(s) && s.active == 0
    ensures CloseSession(Written(s, writes), s.nextId) == EndSession(Written(s, writes), s.nextId, Revoke)
    ensures AllSettled(s.layers) ==> SameChain(EndSession(Written(s, writes), s.nextId, Revoke), s)
  {
    hide CountOpen, Inv, IndexOf, FirstAbandoned;
    var t := Written(s, writes);
    var n := |s.layers|;
    WrittenOnTop(s, writes);
    if AllSettled(s.layers) {
      NothingAbandoned(s.layers);
      NoneOpen([]);
      assert t.layers[n..] == [t.layers[n]];
      assert EndSession(t, s.nextId, Revoke).layers == s.layers;
    }
  }

  lemma {:induction false} CommitWritten(rules: Rules, s: State, id: Id)
    requires Inv(s) && s.active == 0 && rules.header(id).number >= 0
    requires Admitted(rules, id) && rules.exec(Flat(s.root, s.layers), id).ok
    ensures var t := Written(s, WritesOf(rules.exec(Flat(s.root, s.layers), id).writes));
            var point := Point(rules.header(id).number, id);
            && (MayCheckpoint(t, s.nextId, point) <==> CanApply(rules, s, id))
            && Checkpointed(t, s.nextId, point) == if CanApply(rules, s, id) then Applied(rules, s, id) else t
  {
    hide Flat, Captured, CountOpen, Inv, IndexOf, WritesOf, Admitted;
    var t := Written(s, WritesOf(rules.exec(Flat(s.root, s.layers), id).writes));
    WrittenOnTop(s, WritesOf(rules.exec(Flat(s.root, s.layers), id).writes));
    var n := |s.layers|;
    var done := t.layers[n].(committed := true);
    assert t.layers[n := done] == s.layers + [done];
  }
}
