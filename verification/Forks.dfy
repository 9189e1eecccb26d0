/** The fork switch, carried out on the session manager and the block graph. */
module Forks {
  import opened Outcomes
  import opened Sessions
  import opened SessionManager
  import opened Khaos
  import opened ForkSwitch
  import opened Canon
  import opened Retention

  datatype ForkError =
    | GraphBroken
    | StateLost
    | Apply(id: Id)
    | PoolFailed
    | Restore(original: ForkError, restoration: ForkError)

  /**
    What the pool of pending transactions answers when it is put aside, rebuilt on the new branch,
    discarded and put back; its inner workings are not part of this model.
   */
  datatype Pool = Pool(suspends: bool, resumes: bool, discards: bool, restores: bool)

  /** The error that led to a restoration, told apart when the pool could not follow. */
  function Reported(original: ForkError, clean: bool): ForkError
  {
    if clean then original else Restore(original, PoolFailed)
  }

  /** What taking a branch back came to: all of it, or where it stopped. */
  datatype Retraction = Retracted | NoCheckpoint(popped: nat) | NoParent(popped: nat)

  // ---- the promises, as statements about values ------------------------------------------------------

  /** The state stands at the end of a branch that was applied on the base. */
  ghost predicate At(rules: Rules, base: State, store: Store, from: Id, ids: seq<Id>, k: nat, s: State, head: Id)
  {
    && Rests(base) && k <= |ids|
    && Descends(rules, store, from, ids)
    && Grown(rules, base, ids[..k], s)
    && head == Before(from, ids, k)
  }

  lemma {:induction false} AtRewinds(rules: Rules, base: State, store: Store, from: Id, ids: seq<Id>, k: nat, s: State, head: Id)
    requires At(rules, base, store, from, ids, k, s, head) && k > 0
    ensures MayRewind(s, ids[k - 1]) && head == ids[k - 1]
    ensures head in store && store[head].parent.Some?
    ensures At(rules, base, store, from, ids, k - 1, Rewound(s, ids[k - 1]), store[head].parent.value.id)
  {
    hide MayRewind, Rewound, Grown;
    GrownRewinds(rules, base, ids[..k], s);
    assert ids[..k][..k - 1] == ids[..k - 1];
  }

  lemma {:induction false} AtApplies(rules: Rules, base: State, store: Store, from: Id, ids: seq<Id>, k: nat, s: State, head: Id)
    requires At(rules, base, store, from, ids, k, s, head) && k < |ids|
    ensures Follows(rules, store, head, ids[k]) && AllSettled(s.layers)
    ensures CanApply(rules, s, ids[k]) ==> At(rules, base, store, from, ids, k + 1, Applied(rules, s, ids[k]), ids[k])
    ensures !CanApply(rules, s, ids[k]) ==> FailsAt(rules, base, ids, k)
  {
    hide CanApply, Applied, Grown;
    GrownRests(rules, base, ids[..k], s);
    GrownGrows(rules, base, ids[..k], s, ids[k]);
    assert ids[..k] + [ids[k]] == ids[..k + 1];
    GrownIsChain(rules, base, ids[..k], s);
  }

  lemma {:induction false} GrownIsChain(rules: Rules, base: State, ids: seq<Id>, s: State)
    requires Grown(rules, base, ids, s)
    ensures Chain(rules, base, ids).Some?
  {
  }

  lemma {:induction false} AtSame(rules: Rules, base: State, store: Store, from: Id, ids: seq<Id>, k: nat, s: State, t: State, head: Id)
    requires At(rules, base, store, from, ids, k, s, head) && SameChain(t, s)
    ensures At(rules, base, store, from, ids, k, t, head)
  {
    hide Grown;
    GrownSame(rules, base, ids[..k], s, t);
    SameChainFlip(t, s);
  }

  lemma {:induction false} NotOnItself(rules: Rules, store: Store, id: Id)
    ensures !Follows(rules, store, id, id)
  {
  }

  /** The checks on a block that is replayed: it is retained and extends the head. */
  predicate Follows(rules: Rules, store: Store, head: Id, id: Id)
  {
    && id in store
    && rules.header(id).parent == head
    && rules.header(id).number == rules.header(head).number + 1
  }

  lemma {:induction false} AtPrefix(rules: Rules, base: State, store: Store, from: Id, ids: seq<Id>, k: nat, s: State, head: Id)
    requires At(rules, base, store, from, ids, k, s, head)
    ensures At(rules, base, store, from, ids[..k], k, s, head)
  {
    hide Grown;
    assert ids[..k][..k] == ids[..k];
    assert forall m :: 0 <= m <= k ==> Before(from, ids[..k], m) == Before(from, ids, m);
  }

  /** Where one branch has been taken back, another one may start. */
  lemma {:induction false} AtRebase(rules: Rules, base: State, store: Store, from: Id, ids: seq<Id>, s: State, head: Id,
                                    store': Store, other: seq<Id>)
    requires At(rules, base, store, from, ids, 0, s, head) && Descends(rules, store', from, other)
    ensures At(rules, base, store', from, other, 0, s, head)
  {
    hide Grown, Descends;
    assert ids[..0] == other[..0];
  }

  /** A branch was begun on the ancestor, and the one to return to can be had again. */
  ghost predicate Restorable(rules: Rules, base: State, store: Store, s: State, head: Id,
                             oldHead: Id, ancestor: Id, newIds: seq<Id>, oldIds: seq<Id>, applied: nat)
  {
    && applied <= |newIds|
    && At(rules, base, store, ancestor, newIds[..applied], applied, s, head)
    && Returnable(rules, base, store, oldHead, ancestor, newIds, oldIds)
  }

  ghost predicate Returnable(rules: Rules, base: State, store: Store, oldHead: Id, ancestor: Id, newIds: seq<Id>, oldIds: seq<Id>)
  {
    && Descends(rules, store, ancestor, oldIds)
    && Chain(rules, base, oldIds).Some?
    && ancestor in store && ancestor !in newIds
    && (forall b :: 0 <= b < |oldIds| ==> oldIds[b] !in newIds)
    && oldHead == Before(ancestor, oldIds, |oldIds|)
  }

  /** The old branch loses no block and no link when the new one is removed. */
  lemma {:induction false} ReturnStaysPossible(rules: Rules, base: State, store: Store, oldHead: Id, ancestor: Id, newIds: seq<Id>, oldIds: seq<Id>)
    requires Returnable(rules, base, store, oldHead, ancestor, newIds, oldIds)
    ensures Descends(rules, Dropped(store, Members(newIds)), ancestor, oldIds)
    ensures ancestor in Dropped(store, Members(newIds)) && oldHead in Dropped(store, Members(newIds))
  {
    hide Chain;
  }

  lemma {:induction false} AtHead(rules: Rules, base: State, store: Store, from: Id, ids: seq<Id>, s: State)
    ensures forall head :: At(rules, base, store, from, ids, 0, s, head) ==> head == from
  {
  }

  lemma {:induction false} AtEnd(rules: Rules, base: State, store: Store, from: Id, ids: seq<Id>, s: State, head: Id)
    requires At(rules, base, store, from, ids, |ids|, s, head)
    ensures head == Before(from, ids, |ids|) && Grown(rules, base, ids, s)
  {
    hide Grown;
    assert ids[..|ids|] == ids;
  }

  lemma {:induction false} NoFailure(rules: Rules, base: State, store: Store, oldHead: Id, ancestor: Id, newIds: seq<Id>, oldIds: seq<Id>)
    requires Returnable(rules, base, store, oldHead, ancestor, newIds, oldIds)
    ensures forall k: nat :: !FailsAt(rules, base, oldIds, k)
  {
    hide Chain, FailsAt;
    forall k: nat ensures !FailsAt(rules, base, oldIds, k) {
      if FailsAt(rules, base, oldIds, k) { FailureIsFinal(rules, base, oldIds, k); }
    }
  }

  // ---- what a switch comes to ------------------------------------------------------------------------------

  /**
    The graph is a graph, and the state is what the canonical blocks up to the old head make of a base
    at rest. How far back the canonical blocks are known is left open.
   */
  ghost predicate Switchable(rules: Rules, base: State, origin: Id, canon: seq<Id>, store: Store, oldHead: Id, s: State)
  {
    && Graph(rules, store)
    && Canonical(rules, base, origin, canon, s, oldHead)
  }

  /**
    The branches fork i blocks below the new head and j below the old one. Nothing happens while the pool
    cannot be put aside. Otherwise the whole new branch applies, the pool follows, and the state is what
    the canonical blocks below the fork and the new branch make of the base; or the first failing block or
    the pool is reported, or the checkpoints do not reach back to the fork, and then state and head are
    what they were, without the new branch in the graph.
   */
  ghost predicate Switched(rules: Rules, base: State, origin: Id, canon: seq<Id>, pool: Pool, before: State, graph: Store, newHead: Id, oldHead: Id,
                           i: nat, j: nat, after: State, store: Store, head: Id, r: Result<seq<Id>, ForkError>)
  {
    var newIds := Reversed(Branch(graph, newHead, i));
    if i == 0 then
      r == Ok([]) && after == before && store == graph
    else if !pool.suspends then
      r == Err(PoolFailed) && after == before && store == graph && head == oldHead
    else if j > |canon| then
      r == Err(Reported(StateLost, pool.restores)) && PutBack(before, graph, newIds, oldHead, after, store, head)
    else
      Resolved(rules, base, origin, canon[..|canon| - j], newIds, pool, before, graph, newHead, oldHead, after, store, head, r)
  }

  /** State and head are what they were, and the new branch is gone. */
  ghost predicate PutBack(before: State, graph: Store, newIds: seq<Id>, oldHead: Id, after: State, store: Store, head: Id)
  {
    SameChain(before, after) && head == oldHead && store == Dropped(graph, Members(newIds))
  }

  ghost predicate Resolved(rules: Rules, base: State, origin: Id, kept: seq<Id>, newIds: seq<Id>, pool: Pool, before: State, graph: Store,
                           newHead: Id, oldHead: Id, after: State, store: Store, head: Id, r: Result<seq<Id>, ForkError>)
  {
    if Chain(rules, base, kept + newIds).None? then
      && PutBack(before, graph, newIds, oldHead, after, store, head)
      && exists k: nat :: FailsAt(rules, base, kept + newIds, |kept| + k) && k < |newIds| && r == Err(Reported(Apply(newIds[k]), pool.restores))
    else if !pool.resumes then
      && PutBack(before, graph, newIds, oldHead, after, store, head)
      && r == Err(Reported(PoolFailed, pool.discards && pool.restores))
    else
      && r == Ok(newIds) && store == graph && head == newHead
      && Canonical(rules, base, origin, kept + newIds, after, newHead)
  }

  /** The same on top of the state below the fork. */
  ghost predicate Adopted(rules: Rules, low: State, pool: Pool, before: State, graph: Store, newIds: seq<Id>, newHead: Id, oldHead: Id,
                          after: State, store: Store, head: Id, r: Result<seq<Id>, ForkError>)
  {
    if Chain(rules, low, newIds).None? then
      && PutBack(before, graph, newIds, oldHead, after, store, head)
      && exists k: nat :: FailsAt(rules, low, newIds, k) && r == Err(Reported(Apply(newIds[k]), pool.restores))
    else if !pool.resumes then
      && PutBack(before, graph, newIds, oldHead, after, store, head)
      && r == Err(Reported(PoolFailed, pool.discards && pool.restores))
    else
      r == Ok(newIds) && Grown(rules, low, newIds, after) && head == newHead && store == graph
  }

  lemma {:induction false} AdoptedIsResolved(rules: Rules, base: State, origin: Id, canon: seq<Id>, k: nat, newIds: seq<Id>, pool: Pool, before: State,
                                             graph: Store, newHead: Id, oldHead: Id, after: State, store: Store, head: Id,
                                             r: Result<seq<Id>, ForkError>)
    requires Canonical(rules, base, origin, canon, before, oldHead) && k <= |canon|
    requires Descends(rules, graph, Before(origin, canon, k), newIds) && newHead == Before(Before(origin, canon, k), newIds, |newIds|)
    requires Chain(rules, base, canon[..k]).Some?
    requires Adopted(rules, Chain(rules, base, canon[..k]).value, pool, before, graph, newIds, newHead, oldHead, after, store, head, r)
    ensures Resolved(rules, base, origin, canon[..k], newIds, pool, before, graph, newHead, oldHead, after, store, head, r)
  {
    hide Chain, HeaderChain, Descends, Grown, PutBack, Rests, FailsAt;
    var kept := canon[..k];
    var low := Chain(rules, base, kept).value;
    ChainConcat(rules, base, kept, newIds);
    HeadersBelow(rules, origin, canon, k);
    if Chain(rules, low, newIds).None? {
      forall k: nat | FailsAt(rules, low, newIds, k) ensures k < |newIds| { FailsWithin(rules, low, newIds, k); }
      var n: nat :| FailsAt(rules, low, newIds, n) && r == Err(Reported(Apply(newIds[n]), pool.restores));
      FailsOnTop(rules, base, low, kept, newIds, n);
    } else if pool.resumes {
      GrownOnTop(rules, base, low, kept, newIds, after);
      HeadersOnTop(rules, graph, origin, kept, newIds);
    }
  }

  lemma {:induction false} FailsWithin(rules: Rules, base: State, ids: seq<Id>, k: nat)
    requires FailsAt(rules, base, ids, k)
    ensures k < |ids|
  {
    hide Chain;
  }

  /** Either the search finds where the branches fork, or there is nothing common. */
  lemma {:induction false} ForkFound(store: Store, newHead: Id, oldHead: Id, listEntries: nat, r: Result<(seq<Id>, seq<Id>), KhaosError>)
    requires Linked(store) && |store| <= listEntries && FindsFork(store, newHead, oldHead, listEntries, r)
    ensures r.Ok? ==>
              var i, j := |r.value.0|, |r.value.1|;
              && ForkAt(store, newHead, oldHead, i, j)
              && r.value == (Branch(store, newHead, i), Branch(store, oldHead, j))
    ensures r.Err? ==> forall a: nat, b: nat :: !CommonAt(store, newHead, oldHead, a, b)
  {
    hide Ancestor, Branch, CommonAt, Linked;
  }

  /** Both branches stand on the block where they fork, and share nothing above it. */
  lemma {:induction false} BranchesStand(rules: Rules, store: Store, newHead: Id, oldHead: Id, i: nat, j: nat)
    requires Graph(rules, store) && ForkAt(store, newHead, oldHead, i, j)
    ensures Ancestor(store, newHead, i).Some? && Ancestor(store, newHead, i) == Ancestor(store, oldHead, j)
    ensures var ancestor := Ancestor(store, newHead, i).value;
            var newIds, oldIds := Reversed(Branch(store, newHead, i)), Reversed(Branch(store, oldHead, j));
            && |newIds| == i && |oldIds| == j
            && Descends(rules, store, ancestor, newIds) && Descends(rules, store, ancestor, oldIds)
            && Before(ancestor, newIds, i) == newHead && Before(ancestor, oldIds, j) == oldHead
            && ancestor in store && oldHead in store && ancestor !in newIds
            && (forall b :: 0 <= b < j ==> oldIds[b] !in newIds)
  {
    hide Graph, Ancestor, Branch, Descends;
    var ancestor := Ancestor(store, newHead, i).value;
    BranchDescends(rules, store, newHead, i, ancestor);
    BranchDescends(rules, store, oldHead, j, ancestor);
    AncestorStarts(store, newHead, i);
    AncestorStarts(store, oldHead, j);
    BranchesDisjoint(store, newHead, oldHead, i, j);
  }

  /** The lowest state the switch can reach, and the block it stands on: below the fork, or the base itself. */
  ghost predicate Reachable(rules: Rules, store: Store, low: State, from: Id, oldIds: seq<Id>, skip: nat, newIds: seq<Id>, oldHead: Id, s: State)
  {
    && skip <= |oldIds|
    && At(rules, low, store, from, oldIds[skip..], |oldIds| - skip, s, oldHead)
    && Returnable(rules, low, store, oldHead, from, newIds, oldIds[skip..])
    && (skip > 0 ==> from == oldIds[skip - 1])
  }

  lemma {:induction false} ForkInReach(rules: Rules, base: State, origin: Id, canon: seq<Id>, store: Store,
                                       newHead: Id, oldHead: Id, i: nat, j: nat, s: State)
    requires Switchable(rules, base, origin, canon, store, oldHead, s)
    requires ForkAt(store, newHead, oldHead, i, j) && j <= |canon|
    ensures Ancestor(store, newHead, i) == Some(Before(origin, canon, |canon| - j))
    ensures Chain(rules, base, canon[..|canon| - j]).Some?
    ensures Reachable(rules, store, Chain(rules, base, canon[..|canon| - j]).value, Before(origin, canon, |canon| - j),
                      Reversed(Branch(store, oldHead, j)), 0, Reversed(Branch(store, newHead, i)), oldHead, s)
  {
    hide Graph, Ancestor, Branch, Descends, Grown, ForkAt, Chain, Rests, HeaderChain;
    var k := |canon| - j;
    BranchesStand(rules, store, newHead, oldHead, i, j);
    BranchIsCanon(rules, store, origin, canon, oldHead, j);
    AncestorIsCanon(rules, store, origin, canon, oldHead, j);
    CanonBelow(rules, base, origin, canon, s, oldHead, k);
    var oldIds := Reversed(Branch(store, oldHead, j));
    assert oldIds[0..] == oldIds && oldIds[..|oldIds|] == oldIds;
    GrownIsChain(rules, Chain(rules, base, canon[..k]).value, oldIds, s);
  }

  lemma {:induction false} BaseInReach(rules: Rules, base: State, origin: Id, canon: seq<Id>, store: Store,
                                       newHead: Id, oldHead: Id, i: nat, j: nat, s: State)
    requires Switchable(rules, base, origin, canon, store, oldHead, s)
    requires ForkAt(store, newHead, oldHead, i, j) && j > |canon|
    ensures Ancestor(store, newHead, i).Some? && |Reversed(Branch(store, oldHead, j))| == j
    ensures Reversed(Branch(store, oldHead, j))[j - |canon|..] == canon
    ensures Reachable(rules, store, base, origin, Reversed(Branch(store, oldHead, j)), j - |canon|,
                      Reversed(Branch(store, newHead, i)), oldHead, s)
  {
    hide Graph, Ancestor, Branch, Grown, ForkAt, Chain, Rests, HeaderChain, Descends;
    var oldIds, skip := Reversed(Branch(store, oldHead, j)), j - |canon|;
    BranchesStand(rules, store, newHead, oldHead, i, j);
    BranchIsCanon(rules, store, origin, canon, oldHead, j);
    DescendsFrom(rules, store, Ancestor(store, newHead, i).value, oldIds, skip);
    assert canon[..|canon|] == canon;
    GrownIsChain(rules, base, canon, s);
  }

  lemma {:induction false} DescendsFrom(rules: Rules, store: Store, from: Id, ids: seq<Id>, k: nat)
    requires Descends(rules, store, from, ids) && 0 < k <= |ids|
    ensures Descends(rules, store, ids[k - 1], ids[k..]) && ids[k - 1] in store
    ensures Before(from, ids, |ids|) == Before(ids[k - 1], ids[k..], |ids| - k)
  {
    var low, rest := ids[k - 1], ids[k..];
    forall m | 0 <= m < |rest|
      ensures rest[m] == ids[k + m] && Before(low, rest, m) == Before(from, ids, k + m)
    {
    }
  }

  /** The oldest block of a branch is linked to the block below the branch. */
  lemma {:induction false} OldestLink(rules: Rules, store: Store, from: Id, ids: seq<Id>)
    requires Descends(rules, store, from, Reversed(ids)) && ids != []
    ensures ids[|ids| - 1] in store && store[ids[|ids| - 1]].parent.Some?
    ensures store[ids[|ids| - 1]].parent.value.id == from
  {
    assert Reversed(ids)[0] == ids[|ids| - 1];
  }

  /** What was canonical is taken back to the block where the branches fork. */
  ghost predicate Adoptable(rules: Rules, base: State, store: Store, newIds: seq<Id>, oldIds: seq<Id>, newHead: Id, oldHead: Id,
                            ancestor: Id, before: State, s: State, head: Id)
  {
    && At(rules, base, store, ancestor, oldIds, 0, s, head)
    && Grown(rules, base, oldIds, before)
    && Descends(rules, store, ancestor, newIds) && newHead == Before(ancestor, newIds, |newIds|)
    && Returnable(rules, base, store, oldHead, ancestor, newIds, oldIds)
  }

  lemma {:induction false} NothingLower(rules: Rules, base: State, store: Store, from: Id, ids: seq<Id>, s: State, head: Id, id: Id)
    requires At(rules, base, store, from, ids, 0, s, head) && !MayRewind(base, id)
    ensures !MayRewind(s, id)
  {
    hide MayRewind, Descends, SameChain;
    assert ids[..0] == [] && Chain(rules, base, []) == Some(base);
    MayRewindSame(s, base, id);
  }

  /** From the lowest state it reached, nothing of the new branch applied, the switch can return. */
  lemma {:induction false} ReachedIsRestorable(rules: Rules, store: Store, low: State, from: Id, ids: seq<Id>, newIds: seq<Id>,
                                               oldHead: Id, s: State, head: Id)
    requires At(rules, low, store, from, ids, 0, s, head) && Returnable(rules, low, store, oldHead, from, newIds, ids)
    ensures Restorable(rules, low, store, s, head, oldHead, head, newIds, ids, 0)
  {
    hide Grown, Chain;
    assert newIds[..0] == ids[..0] == [];
  }

  class ForkManager {
    const rules: Rules
    const keeping: Keeping
    const sessions: Manager
    var store: Store
    /** The blocks of the graph, and those whose parent was not known, in the order they came in. */
    var order: seq<Id>
    var orphans: seq<Id>
    var head: Id

    constructor (rules: Rules, keeping: Keeping, sessions: Manager, store: Store, order: seq<Id>, orphans: seq<Id>, head: Id)
      ensures this.rules == rules && this.keeping == keeping && this.sessions == sessions
      ensures this.store == store && this.order == order && this.orphans == orphans && this.head == head
    {
      this.rules, this.keeping, this.sessions := rules, keeping, sessions;
      this.store, this.order, this.orphans, this.head := store, order, orphans, head;
    }

    /** No block is in a store twice, or in both. */
    ghost predicate Shelved()
      reads this
    {
      Lists(order, store) && Distinct(orphans) && store.Keys !! Members(orphans)
    }

    ghost predicate Valid()
      reads this, sessions
    {
      sessions.Valid() && Shelved()
    }

    /** `apply_fork_block`. */
    method ApplyForkBlock(id: Id) returns (ok: bool)
      requires sessions.Valid()
      modifies this`head, sessions
      ensures sessions.Valid()
      ensures ok <==> Follows(rules, store, old(head), id) && CanApply(rules, old(sessions.Snapshot()), id)
      ensures ok ==> sessions.Snapshot() == Applied(rules, old(sessions.Snapshot()), id) && head == id
      ensures !ok ==> head == old(head)
      ensures !ok && AllSettled(old(sessions.layers)) ==> SameChain(sessions.Snapshot(), old(sessions.Snapshot()))
    {
      hide Applied, Admitted, FitsStack;
      if !Follows(rules, store, head, id) || !Admitted(rules, id) {
        return false;
      }
      ok := ApplyInSession(sessions, rules, id);
      if ok {
        head := id;
      }
    }

    /** The Khaos head steps down to its parent. */
    method Pop() returns (ok: bool)
      modifies this`head
      ensures ok <==> old(head) in store && store[old(head)].parent.Some?
      ensures head == if ok then store[old(head)].parent.value.id else old(head)
    {
      if head !in store || store[head].parent.None? {
        return false;
      }
      head := store[head].parent.value.id;
      return true;
    }

    /** `remove_blk`; false when no linked block is left, and otherwise the first of the highest ones becomes the head. */
    method RemoveBlock(id: Id) returns (ok: bool)
      requires Shelved()
      modifies this`head, this`store, this`order, this`orphans
      ensures Shelved()
      ensures store == Dropped(old(store), {id}) && order == Retained(old(order), store.Keys)
      ensures Members(orphans) == if id in old(store) then Members(old(orphans)) else Members(old(orphans)) - {id}
      ensures ok <==> store != map[]
      ensures if ok then Leads(store, order, head) else head == old(head)
    {
      hide Leads, Retained, Lists, Dropped;
      DroppedKeys(store, {id});
      RetainedMembers(orphans, Members(orphans) - {id});
      RetainedDistinct(orphans, Members(orphans) - {id});
      MembersAre(orphans);
      if id !in store {
        orphans := Retained(orphans, Members(orphans) - {id});
      }
      ListsWithin(order, store, Dropped(store, {id}));
      order := Retained(order, Dropped(store, {id}).Keys);
      store := Dropped(store, {id});
      if store == map[] {
        return false;
      }
      head := HighestFirst(store, order);
      return true;
    }

    /** Takes blocks back, newest first: the checkpoint, then the head. */
    method Retract(ids: seq<Id>, ghost base: State, ghost from: Id, ghost skip: nat) returns (r: Retraction)
      requires sessions.Valid() && skip <= |ids|
      modifies this`head, sessions
      ensures sessions.Valid()
      ensures r.NoCheckpoint? ==> r.popped < |ids|
      ensures r.NoParent? ==> r.popped < |ids|
      ensures At(rules, base, store, from, ids[skip..], |ids| - skip, old(sessions.Snapshot()), old(head))
              && (skip == 0 || !MayRewind(base, ids[skip - 1])) ==>
                && r == (if skip == 0 then Retracted else NoCheckpoint(|ids| - skip))
                && At(rules, base, store, from, ids[skip..], 0, sessions.Snapshot(), head)
    {
      hide Inv, At, MayRewind, Rewound;
      ghost var upper := ids[skip..];
      ghost var promised := && At(rules, base, store, from, upper, |upper|, sessions.Snapshot(), head)
                            && (skip == 0 || !MayRewind(base, ids[skip - 1]));
      var k := |ids|;
      while k > 0
        invariant 0 <= k <= |ids| && sessions.Valid()
        invariant promised ==> k >= skip && At(rules, base, store, from, upper, k - skip, sessions.Snapshot(), head)
      {
        if promised && k > skip {
          AtRewinds(rules, base, store, from, upper, k - skip, sessions.Snapshot(), head);
          assert upper[k - skip - 1] == ids[k - 1];
        }
        if promised && k == skip {
          NothingLower(rules, base, store, from, upper, sessions.Snapshot(), head, ids[k - 1]);
        }
        ghost var before := sessions.Snapshot();
        var rewound := sessions.Rewind(ids[k - 1]);
        if rewound != Ok(true) {
          if promised {
            NotRewound(before, ids[k - 1]);
          }
          return NoCheckpoint(|ids| - k);
        }
        var popped := Pop();
        if !popped {
          return NoParent(|ids| - k);
        }
        k := k - 1;
      }
      return Retracted;
    }

    /** Applies blocks, oldest first, until one fails. */
    method Replay(ids: seq<Id>, ghost base: State, ghost from: Id) returns (applied: nat)
      requires sessions.Valid()
      modifies this`head, sessions
      ensures sessions.Valid() && applied <= |ids|
      ensures ids != [] && ids[0] == old(head) ==> applied == 0
      ensures At(rules, base, store, from, ids, 0, old(sessions.Snapshot()), old(head)) ==>
                && At(rules, base, store, from, ids, applied, sessions.Snapshot(), head)
                && (applied < |ids| ==> FailsAt(rules, base, ids, applied))
    {
      hide Inv, At, CanApply, Applied, SameChain, FailsAt, Follows, AllSettled;
      ghost var promised := At(rules, base, store, from, ids, 0, sessions.Snapshot(), head);
      applied := 0;
      while applied < |ids|
        invariant 0 <= applied <= |ids| && sessions.Valid()
        invariant applied == 0 ==> head == old(head)
        invariant ids != [] && ids[0] == old(head) ==> applied == 0
        invariant promised ==> At(rules, base, store, from, ids, applied, sessions.Snapshot(), head)
      {
        ghost var before := sessions.Snapshot();
        NotOnItself(rules, store, head);
        if promised {
          AtApplies(rules, base, store, from, ids, applied, before, head);
        }
        var ok := ApplyForkBlock(ids[applied]);
        if !ok {
          if promised {
            AtSame(rules, base, store, from, ids, applied, before, sessions.Snapshot(), head);
          }
          return;
        }
        applied := applied + 1;
      }
    }

    /**
      Takes the replacement out of the graph and returns to the branch that was canonical before, and to
      the pool as it was. From a head that could not step down the replay would start with that head itself,
      and is refused.
     */
    method RestoreBranch(oldHead: Id, ancestor: Id, newIds: seq<Id>, oldIds: seq<Id>, applied: nat, pool: Pool, ghost base: State)
      returns (r: Result<(), ForkError>)
      requires Valid() && applied <= |newIds|
      modifies this, sessions
      ensures Valid() && order == Retained(old(order), store.Keys) && Members(orphans) <= Members(old(orphans))
      ensures Restorable(rules, base, old(store), old(sessions.Snapshot()), old(head), oldHead, ancestor, newIds, oldIds, applied) ==>
                && r == (if pool.restores then Ok(()) else Err(PoolFailed)) && store == Dropped(old(store), Members(newIds))
                && Grown(rules, base, oldIds, sessions.Snapshot()) && head == oldHead
      ensures applied == 0 && oldIds != [] && oldIds[0] == ancestor ==> r.Err?
    {
      hide Inv, At, Chain, FailsAt, Descends, Returnable, Grown, Lists, Retained, Members;
      ghost var graph := store;
      ghost var promised := Restorable(rules, base, store, sessions.Snapshot(), head, oldHead, ancestor, newIds, oldIds, applied);
      var begun := newIds[..applied];
      assert begun[0..] == begun;
      KeepsAll(order, store);
      var back := Retract(begun, base, ancestor, 0);
      if !back.Retracted? {
        return Err(if back.NoParent? then GraphBroken else StateLost);
      }
      RemoveBlocks(newIds);
      if promised {
        ReturnStaysPossible(rules, base, graph, oldHead, ancestor, newIds, oldIds);
        AtHead(rules, base, graph, ancestor, begun, sessions.Snapshot());
        AtRebase(rules, base, graph, ancestor, begun, sessions.Snapshot(), ancestor, store, oldIds);
      }
      if ancestor !in store {
        return Err(GraphBroken);
      }
      head := ancestor;
      var replayed := Replay(oldIds, base, ancestor);
      if promised {
        NoFailure(rules, base, graph, oldHead, ancestor, newIds, oldIds);
        if replayed == |oldIds| {
          AtEnd(rules, base, store, ancestor, oldIds, sessions.Snapshot(), head);
        }
      }
      if replayed < |oldIds| {
        return Err(Apply(oldIds[replayed]));
      }
      if oldHead !in store {
        return Err(GraphBroken);
      }
      head := oldHead;
      return if pool.restores then Ok(()) else Err(PoolFailed);
    }

    method RemoveBlocks(ids: seq<Id>)
      requires Shelved()
      modifies this`store, this`order, this`orphans, this`head
      ensures Shelved() && order == Retained(old(order), store.Keys) && Members(orphans) <= Members(old(orphans))
      ensures store == Dropped(old(store), Members(ids))
    {
      hide Dropped, Lists, Retained, Leads;
      var k := 0;
      DropsNothing(store);
      KeepsAll(order, store);
      assert Members(ids[..0]) == {};
      while k < |ids|
        invariant 0 <= k <= |ids| && Shelved()
        invariant store == Dropped(old(store), Members(ids[..k]))
        invariant order == Retained(old(order), store.Keys) && Members(orphans) <= Members(old(orphans))
      {
        ghost var before := store;
        assert Members(ids[..k + 1]) == Members(ids[..k]) + {ids[k]};
        DroppedTwice(old(store), Members(ids[..k]), {ids[k]});
        var left := RemoveBlock(ids[k]);
        DroppedKeys(before, {ids[k]});
        RetainedTwice(old(order), before.Keys, store.Keys);
        k := k + 1;
      }
      assert ids[..k] == ids;
    }

    /** `remove_bad_branch`: follows parent hashes, removing, until a block is unknown or no linked one is left. */
    method RemoveBadBranch(id: Id)
      requires Shelved()
      modifies this`store, this`order, this`orphans, this`head
      ensures Shelved() && order == Retained(old(order), store.Keys) && Members(orphans) <= Members(old(orphans))
      ensures Graph(rules, old(store)) ==>
                store == Dropped(old(store), HeaderLine(rules, old(store.Keys), Members(old(orphans)), id))
      ensures store != map[] ==> Leads(store, order, head)
      ensures head == old(head) || head in old(store)
    {
      hide Dropped, Leads, Lists, Retained, Following, Members;
      ghost var promised, whole := Graph(rules, store), HeaderLine(rules, store.Keys, Members(orphans), id);
      var next := id;
      ghost var gone: set<Id> := {};
      FollowStart(rules, store, Members(orphans), id);
      KeepsAll(order, store);
      while true
        invariant Shelved() && store.Keys <= old(store).Keys && (head == old(head) || head in old(store))
        invariant order == Retained(old(order), store.Keys) && Members(orphans) <= Members(old(orphans))
        invariant promised ==> Following(rules, old(store), whole, gone, store, Members(orphans), next)
        decreases |store| + |Members(orphans)|
      {
        ghost var before, shelved := store, Members(orphans);
        DroppedKeys(store, {next});
        Shrinks(store, shelved, next);
        MembersAre(orphans);
        if promised {
          FollowStep(rules, old(store), whole, gone, store, shelved, next);
        }
        var known := next in store || next in orphans;
        var left := RemoveBlock(next);
        RetainedTwice(old(order), before.Keys, store.Keys);
        if left {
          LeaderIsHighest(store, order, head);
        }
        if !left || !known {
          return;
        }
        gone := gone + {next};
        next := rules.header(next).parent;
      }
    }

    /** `insert_pinning`, for a block whose parent is retained or that has none: room is made, then what is too deep goes. */
    method InsertPinning(id: Id) returns (r: Result<(), KhaosError>)
      requires Shelved() && id !in store && id !in orphans && Push(store, true, id, rules.header(id).number, ParentHash(rules, id)).Ok?
      modifies this`store, this`order, this`head
      ensures Shelved()
      ensures var placed := Placed(rules, keeping, old(store), old(order), rules.header(old(head)).number, id);
              if placed.Ok? then
                && r.Ok? && store == placed.value && order == Retained(old(order) + [id], store.Keys)
                && head == if rules.header(id).number > rules.header(old(head)).number then id else old(head)
              else
                r == Err(ResourceLimit) && placed.error == ResourceLimit
                && store == old(store) && order == old(order) && head == old(head)
      ensures r.Ok? && Graph(rules, old(store)) ==>
                && Victims(keeping.size, keeping.linked, old(order), keeping.size(id), ParentHash(rules, id)).Some?
                && KeepsTheYoung(rules, old(store),
                                 Members(Victims(keeping.size, keeping.linked, old(order), keeping.size(id), ParentHash(rules, id)).value),
                                 rules.header(old(head)).number, keeping.capacity, id, store)
      ensures r.Ok? ==> |order| <= keeping.linked.entries && Total(keeping.size, order) <= keeping.linked.bytes
    {
      hide Lists, Victims, Retained, Leads, Total, KeepsTheYoung, Graph, Distinct;
      var number, parent, headNumber := rules.header(id).number, ParentHash(rules, id), rules.header(head).number;
      var victims := MakeRoom(keeping.size, keeping.linked, order, keeping.size(id), parent);
      if victims.None? {
        return Err(ResourceLimit);
      }
      PlacedLeads(rules, keeping, store, order, headNumber, id, head);
      PushFits(rules, keeping, store, order, headNumber, id);
      if Graph(rules, store) {
        PushKeepsTheYoung(rules, keeping, store, order, headNumber, id);
      }
      var link := if parent.None? then None else Some(Link(parent.value, store[parent.value].number));
      var grown := store[id := Node(number, link)];
      store := Dropped(grown, Members(victims.value) + Expired(grown, Cutoff(headNumber, keeping.capacity)));
      order := Retained(order + [id], store.Keys);
      if number > headNumber {
        head := id;
      }
      return Ok(());
    }

    /** The same for a block whose parent is unknown. */
    method InsertOrphan(id: Id) returns (ok: bool)
      requires Shelved() && id !in store && id !in orphans
      modifies this`orphans
      ensures Shelved() && Members(orphans) <= Members(old(orphans)) + {id}
      ensures match Waiting(rules, keeping, old(orphans), rules.header(head).number, id)
              case None => !ok && orphans == old(orphans)
              case Some(waiting) => ok && orphans == waiting
      ensures ok ==> |orphans| <= keeping.unlinked.entries && Total(keeping.size, orphans) <= keeping.unlinked.bytes
    {
      hide Lists, Victims, Retained, Total, Distinct, Cutoff;
      var victims := MakeRoom(keeping.size, keeping.unlinked, orphans, keeping.size(id), None);
      if victims.None? {
        return false;
      }
      var cutoff := Cutoff(rules.header(head).number, keeping.capacity);
      var kept := set x | x in orphans + [id] && x !in victims.value && rules.header(x).number >= cutoff;
      RetainedMembers(orphans + [id], kept);
      WaitingFits(rules, keeping, orphans, rules.header(head).number, id);
      orphans := Retained(orphans + [id], kept);
      return true;
    }

    /** `push`: takes a block into the graph, giving up others for it, or among the orphans when its parent is unknown. */
    method PushBlock(id: Id) returns (r: Result<(), KhaosError>)
      requires Shelved() && id !in store && id !in orphans
      modifies this`store, this`order, this`orphans, this`head
      ensures Shelved()
      ensures r.Ok? <==> TakesIn(rules, keeping, old(store), id)
      ensures var placed := Placed(rules, keeping, old(store), old(order), rules.header(old(head)).number, id);
              if placed.Ok? then
                && r.Ok? && store == placed.value && order == Retained(old(order) + [id], store.Keys) && orphans == old(orphans)
                && head == if rules.header(id).number > rules.header(old(head)).number then id else old(head)
              else
                && r.Err? && store == old(store) && order == old(order) && head == old(head)
                && Members(orphans) <= Members(old(orphans)) + {id}
                && if placed.error != UnlinkedBlock then
                  r == Err(placed.error) && orphans == old(orphans)
                else
                  match Waiting(rules, keeping, old(orphans), rules.header(old(head)).number, id)
                  case None => r == Err(ResourceLimit) && orphans == old(orphans)
                  case Some(waiting) => r == Err(UnlinkedBlock) && orphans == waiting
      ensures r.Ok? && Graph(rules, old(store)) ==>
                && Victims(keeping.size, keeping.linked, old(order), keeping.size(id), ParentHash(rules, id)).Some?
                && KeepsTheYoung(rules, old(store),
                                 Members(Victims(keeping.size, keeping.linked, old(order), keeping.size(id), ParentHash(rules, id)).value),
                                 rules.header(old(head)).number, keeping.capacity, id, store)
      ensures r.Ok? ==> |order| <= keeping.linked.entries && Total(keeping.size, order) <= keeping.linked.bytes
      ensures r == Err(UnlinkedBlock) ==> |orphans| <= keeping.unlinked.entries && Total(keeping.size, orphans) <= keeping.unlinked.bytes
    {
      hide Lists, Victims, Retained, Total, TakesIn, KeepsTheYoung, Graph, Distinct, Waiting, Cutoff, Expired;
      var parent := ParentHash(rules, id);
      PlacedIff(rules, keeping, store, order, rules.header(head).number, id);
      if parent.Some? && parent.value !in store {
        var ok := InsertOrphan(id);
        return Err(if ok then UnlinkedBlock else ResourceLimit);
      }
      if parent.Some? && rules.header(id).number != store[parent.value].number + 1 {
        return Err(BadNumber);
      }
      r := InsertPinning(id);
    }

    /**
      `switch`: find the fork, put the pool aside, take the old branch back, apply the new one, and on
      failure restore. Transaction caches and events are not part of this model.
     */
    method Switch(newHead: Id, oldHead: Id, pool: Pool, ghost base: State, ghost origin: Id, ghost canon: seq<Id>)
      returns (r: Result<seq<Id>, ForkError>, ghost i: nat, ghost j: nat)
      requires Valid()
      modifies this, sessions
      ensures Valid() && order == Retained(old(order), store.Keys) && Members(orphans) <= Members(old(orphans))
      ensures Switchable(rules, base, origin, canon, old(store), oldHead, old(sessions.Snapshot())) ==>
                if exists a: nat, b: nat :: CommonAt(old(store), newHead, oldHead, a, b) then
                  && ForkAt(old(store), newHead, oldHead, i, j)
                  && (j <= |canon| || !MayRewind(base, origin) ==>
                        Switched(rules, base, origin, canon, pool, old(sessions.Snapshot()), old(store), newHead, oldHead, i, j,
                                 sessions.Snapshot(), store, head, r))
                else
                  && r == Err(GraphBroken) && sessions.Snapshot() == old(sessions.Snapshot())
                  && store == Dropped(old(store), HeaderLine(rules, old(store).Keys, Members(old(orphans)), newHead))
                  && (store != map[] ==> Leads(store, order, head))
                  && (head == old(head) || head in old(store))
    {
      hide Inv, At, Chain, FailsAt, Descends, Returnable, Ancestor, Branch, Grown, SameChain, ForkAt, FindsFork, CommonAt, Members,
        HeaderChain, Graph, Rests, Canonical, MayRewind, Leads, HeaderLine, Dropped, Resolved, Lists, Retained, PutBack;
      ghost var graph, before := store, sessions.Snapshot();
      ghost var promised := Switchable(rules, base, origin, canon, graph, oldHead, before);
      ListsSize(order, store);
      KeepsAll(order, store);
      var branches := GetBranch(store, newHead, oldHead, |order|);
      i, j := 0, 0;
      if promised {
        LinkedGraph(rules, graph);
        ForkFound(store, newHead, oldHead, |order|, branches);
      }
      if branches.Err? {
        RemoveBadBranch(newHead);
        r := Err(GraphBroken);
        return;
      }
      var (newNodes, oldNodes) := branches.value;
      i, j := |newNodes|, |oldNodes|;
      if promised {
        ForkIsCommon(graph, newHead, oldHead, i, j);
      }
      if newNodes == [] {
        r := Ok([]);
        return;
      }
      r := SwitchBranches(newHead, oldHead, newNodes, oldNodes, pool, base, origin, canon);
    }

    /** The part of `switch` after the branches are known. */
    method SwitchBranches(newHead: Id, oldHead: Id, newNodes: seq<Id>, oldNodes: seq<Id>, pool: Pool,
                          ghost base: State, ghost origin: Id, ghost canon: seq<Id>)
      returns (r: Result<seq<Id>, ForkError>)
      requires Valid() && newNodes != []
      modifies this, sessions
      ensures Valid() && order == Retained(old(order), store.Keys) && Members(orphans) <= Members(old(orphans))
      ensures (&& Switchable(rules, base, origin, canon, old(store), oldHead, old(sessions.Snapshot()))
               && ForkAt(old(store), newHead, oldHead, |newNodes|, |oldNodes|)
               && newNodes == Branch(old(store), newHead, |newNodes|) && oldNodes == Branch(old(store), oldHead, |oldNodes|)
               && (|oldNodes| <= |canon| || !MayRewind(base, origin))) ==>
                Switched(rules, base, origin, canon, pool, old(sessions.Snapshot()), old(store), newHead, oldHead, |newNodes|, |oldNodes|,
                         sessions.Snapshot(), store, head, r)
    {
      hide Inv, At, Chain, FailsAt, Descends, Returnable, Ancestor, Branch, Grown, SameChain, ForkAt, CommonAt, Members,
        HeaderChain, Graph, Rests, Canonical, MayRewind, Resolved, Reachable, Adopted, Lists, Retained, Dropped, Restorable, CanApply,
        Linked, AllSettled, Returnable;
      ghost var graph, before, i, j := store, sessions.Snapshot(), |newNodes|, |oldNodes|;
      ghost var promised :=
        && Switchable(rules, base, origin, canon, graph, oldHead, before) && ForkAt(graph, newHead, oldHead, i, j)
        && newNodes == Branch(graph, newHead, i) && oldNodes == Branch(graph, oldHead, j) && (j <= |canon| || !MayRewind(base, origin));
      var newIds, oldIds := Reversed(newNodes), Reversed(oldNodes);
      ghost var skip := if promised && j > |canon| then j - |canon| else 0;
      ghost var low := if promised && j <= |canon| && Chain(rules, base, canon[..|canon| - j]).Some?
                       then Chain(rules, base, canon[..|canon| - j]).value else base;
      ghost var from := if promised && j <= |canon| then Before(origin, canon, |canon| - j) else origin;
      ghost var fork := newHead;
      KeepsAll(order, store);
      if promised {
        BranchesStand(rules, graph, newHead, oldHead, i, j);
        fork := Ancestor(graph, newHead, i).value;
        OldestLink(rules, graph, fork, newNodes);
        if j <= |canon| {
          ForkInReach(rules, base, origin, canon, graph, newHead, oldHead, i, j, before);
        } else {
          BaseInReach(rules, base, origin, canon, graph, newHead, oldHead, i, j, before);
        }
        ReachedParts(rules, graph, low, from, oldIds, skip, newIds, oldHead, before);
      }
      var last := newNodes[|newNodes| - 1];
      if last !in store || store[last].parent.None? || oldHead !in store {
        return Err(GraphBroken);
      }
      var ancestor := store[last].parent.value.id;
      head := oldHead;
      if !pool.suspends {
        return Err(PoolFailed);
      }
      var back := Retract(oldIds, low, from, skip);
      if !back.Retracted? {
        r := TurnBack(back, newIds, oldIds, oldHead, pool, low, from, skip, before);
        if promised {
          GrownSame(rules, base, canon, before, sessions.Snapshot());
        }
        return;
      }
      r := Adopt(newIds, oldIds, newHead, oldHead, ancestor, pool, low, before);
      if promised {
        AdoptedIsResolved(rules, base, origin, canon, |canon| - j, newIds, pool, before, graph, newHead, oldHead,
                          sessions.Snapshot(), store, head, r);
      }
    }

    /** The old branch could not be taken back all the way: apply again what was taken back. */
    method TurnBack(back: Retraction, newIds: seq<Id>, oldIds: seq<Id>, oldHead: Id, pool: Pool,
                    ghost low: State, ghost from: Id, ghost skip: nat, ghost before: State)
      returns (r: Result<seq<Id>, ForkError>)
      requires Valid() && !back.Retracted? && back.popped < |oldIds| && skip <= |oldIds|
      modifies this, sessions
      ensures Valid() && order == Retained(old(order), store.Keys) && Members(orphans) <= Members(old(orphans))
      ensures (&& back == NoCheckpoint(|oldIds| - skip)
               && At(rules, low, old(store), from, oldIds[skip..], 0, old(sessions.Snapshot()), old(head))
               && Returnable(rules, low, old(store), oldHead, from, newIds, oldIds[skip..])
               && Grown(rules, low, oldIds[skip..], before)) ==>
                && r == Err(Reported(StateLost, pool.restores))
                && PutBack(before, old(store), newIds, oldHead, sessions.Snapshot(), store, head)
    {
      hide Inv, At, Chain, Returnable, Grown, SameChain, Members, Lists, Retained, Dropped, Restorable;
      ghost var graph, ids := store, oldIds[skip..];
      var original := if back.NoParent? then GraphBroken else StateLost;
      var replay := oldIds[|oldIds| - (if back.NoParent? then back.popped + 1 else back.popped)..];
      ghost var promised :=
        && back == NoCheckpoint(|oldIds| - skip) && At(rules, low, store, from, ids, 0, sessions.Snapshot(), head)
        && Returnable(rules, low, store, oldHead, from, newIds, ids) && Grown(rules, low, ids, before);
      if promised {
        ReachedIsRestorable(rules, graph, low, from, ids, newIds, oldHead, sessions.Snapshot(), head);
      }
      var put := RestoreBranch(oldHead, head, newIds, replay, 0, pool, low);
      if promised {
        GrownSame(rules, low, ids, before, sessions.Snapshot());
      }
      return Err(if put.Ok? then original else Restore(original, put.error));
    }

    /** The old branch is gone: apply the new one and let the pool follow, or restore. */
    method Adopt(newIds: seq<Id>, oldIds: seq<Id>, newHead: Id, oldHead: Id, ancestor: Id, pool: Pool, ghost base: State, ghost before: State)
      returns (r: Result<seq<Id>, ForkError>)
      requires Valid() && newIds != []
      modifies this, sessions
      ensures Valid() && order == Retained(old(order), store.Keys) && Members(orphans) <= Members(old(orphans))
      ensures Adoptable(rules, base, old(store), newIds, oldIds, newHead, oldHead, ancestor, before, old(sessions.Snapshot()), old(head)) ==>
                Adopted(rules, base, pool, before, old(store), newIds, newHead, oldHead, sessions.Snapshot(), store, head, r)
    {
      hide Inv, At, Chain, FailsAt, Descends, Returnable, Grown, SameChain, Members, Lists, Retained;
      ghost var graph := store;
      ghost var promised := Adoptable(rules, base, store, newIds, oldIds, newHead, oldHead, ancestor, before, sessions.Snapshot(), head);
      KeepsAll(order, store);
      if promised {
        AtHead(rules, base, graph, ancestor, oldIds, sessions.Snapshot());
        AtRebase(rules, base, graph, ancestor, oldIds, sessions.Snapshot(), head, graph, newIds);
        ReturnStaysPossible(rules, base, graph, oldHead, ancestor, newIds, oldIds);
      }
      if ancestor !in store {
        return Err(GraphBroken);
      }
      head := ancestor;
      var applied := Replay(newIds, base, ancestor);
      if applied < |newIds| || !pool.resumes {
        var original := if applied < |newIds| then Apply(newIds[applied]) else PoolFailed;
        if promised {
          AtPrefix(rules, base, graph, ancestor, newIds, applied, sessions.Snapshot(), head);
          AppliedOrNot(rules, base, graph, ancestor, newIds, applied, sessions.Snapshot(), head);
        }
        var put := RestoreBranch(oldHead, ancestor, newIds, oldIds, applied, pool, base);
        if promised {
          GrownSame(rules, base, oldIds, before, sessions.Snapshot());
        }
        if put.Err? {
          return Err(Restore(original, put.error));
        }
        return Err(Reported(original, original.Apply? || pool.discards));
      }
      if promised {
        AtEnd(rules, base, graph, ancestor, newIds, sessions.Snapshot(), head);
        GrownIsChain(rules, base, newIds, sessions.Snapshot());
      }
      return Ok(newIds);
    }
  }

  /** The blocks before the k-th applied; all of them did when there is no k-th, and otherwise that one did not. */
  lemma {:induction false} AppliedOrNot(rules: Rules, base: State, store: Store, from: Id, ids: seq<Id>, k: nat, s: State, head: Id)
    requires At(rules, base, store, from, ids, k, s, head) && (k < |ids| ==> FailsAt(rules, base, ids, k))
    ensures Chain(rules, base, ids).Some? <==> k == |ids|
  {
    hide Chain, FailsAt, Descends, SameChain;
    if k < |ids| { FailureIsFinal(rules, base, ids, k); } else { assert ids[..k] == ids; }
  }

  lemma {:induction false} KeepsAll(order: seq<Id>, store: Store)
    requires Lists(order, store)
    ensures Retained(order, store.Keys) == order
  {
    RetainedAll(order, store.Keys);
  }

  lemma {:induction false} MembersAre(ids: seq<Id>)
    ensures forall x :: x in ids <==> x in Members(ids)
  {
  }

  /** How far a line of parent hashes was removed. */
  ghost predicate Following(rules: Rules, first: Store, whole: set<Id>, gone: set<Id>, store: Store, orphans: set<Id>, next: Id)
  {
    && Graph(rules, store) && store == Dropped(first, gone)
    && whole == gone + HeaderLine(rules, store.Keys, orphans, next)
  }

  lemma {:induction false} FollowStart(rules: Rules, store: Store, orphans: set<Id>, id: Id)
    ensures Graph(rules, store) ==> Following(rules, store, HeaderLine(rules, store.Keys, orphans, id), {}, store, orphans, id)
  {
    hide Graph, HeaderLine;
    DropsNothing(store);
  }

  lemma {:induction false} FollowStep(rules: Rules, first: Store, whole: set<Id>, gone: set<Id>, store: Store, orphans: set<Id>, next: Id)
    requires Following(rules, first, whole, gone, store, orphans, next)
    ensures var rest, others := Dropped(store, {next}), if next in store then orphans else orphans - {next};
            if rest != map[] && (next in store || next in orphans)
            then Following(rules, first, whole, gone + {next}, rest, others, rules.header(next).parent)
            else rest == Dropped(first, whole)
  {
    hide Graph, HeaderLine, Dropped;
    LineStep(rules, store, orphans, next);
    DroppedTwice(first, gone, {next});
    DropKeepsGraph(rules, store, {next});
    DropsUnknown(rules, store, next);
    assert gone + {} == gone;
    if next !in store && next !in orphans {
      assert whole == gone;
    } else if Dropped(store, {next}) == map[] {
      assert whole == gone + {next};
    }
  }

  lemma {:induction false} Shrinks(store: Store, orphans: set<Id>, id: Id)
    ensures id in store ==> |Dropped(store, {id})| < |store|
    ensures id in orphans ==> |orphans - {id}| < |orphans|
    ensures id !in store ==> |Dropped(store, {id})| == |store|
  {
    hide Dropped;
    DroppedKeys(store, {id});
    var rest := Dropped(store, {id});
    assert |rest.Keys| == |rest| && |store.Keys| == |store|;
    if id in store { SmallerWithout(store.Keys, id); } else { assert rest.Keys == store.Keys; }
    if id in orphans { SmallerWithout(orphans, id); }
  }

  lemma {:induction false} NotRewound(s: State, id: Id)
    requires !MayRewind(s, id)
    ensures Step(s, RewindCheckpoint(id)) == s
  {
  }

  lemma {:induction false} DropsNothing(store: Store)
    ensures Dropped(store, {}) == store
  {
  }

  lemma {:induction false} DropsUnknown(rules: Rules, store: Store, id: Id)
    requires Graph(rules, store)
    ensures id !in store ==> Dropped(store, {id}) == store
  {
  }

  lemma {:induction false} ForkIsCommon(store: Store, newHead: Id, oldHead: Id, i: nat, j: nat)
    requires ForkAt(store, newHead, oldHead, i, j)
    ensures exists a: nat, b: nat :: CommonAt(store, newHead, oldHead, a, b)
  {
    hide CommonAt;
  }

  lemma {:induction false} ReachedParts(rules: Rules, store: Store, low: State, from: Id, oldIds: seq<Id>, skip: nat, newIds: seq<Id>, oldHead: Id, s: State)
    requires Reachable(rules, store, low, from, oldIds, skip, newIds, oldHead, s)
    ensures skip <= |oldIds| && At(rules, low, store, from, oldIds[skip..], |oldIds| - skip, s, oldHead)
    ensures Returnable(rules, low, store, oldHead, from, newIds, oldIds[skip..])
    ensures Grown(rules, low, oldIds[skip..], s) && oldIds[0..] == oldIds
    ensures skip > 0 ==> from == oldIds[skip - 1]
  {
    hide Grown, Chain, Descends;
    assert oldIds[skip..][..|oldIds| - skip] == oldIds[skip..];
  }
}
