/**
  Accepting blocks: one that extends the head is applied, any other is kept beside it, and when it is
  higher than the head its branch becomes the canonical one. Over every run of these operations the
  state is what the canonical branch makes of the state the run began with.
 */
module Chains {
  import opened Outcomes
  import opened Sessions
  import opened SessionLaws
  import opened SessionManager
  import opened Khaos
  import opened ForkSwitch
  import opened Canon
  import opened Retention
  import opened Forks

  datatype ChainError = Duplicate | Refused | Unlinkable(reason: KhaosError) | PoolStuck | NotPersisted | Fork(error: ForkError)

  /** What is asked of outside while a block is accepted: the pending pool, and writing the checkpoints. */
  datatype Surroundings = Surroundings(pool: Pool, persists: bool)

  /** Recorded checkpoints carry the heights of their blocks and end at the block the run began with. */
  ghost predicate StackBelow(rules: Rules, checkpoints: seq<Checkpoint>, tip: Id)
  {
    forall i :: 0 <= i < |checkpoints| ==>
      rules.header(checkpoints[i].point.identity).number == checkpoints[i].point.block <= rules.header(tip).number
  }

  lemma {:induction false} StackStep(rules: Rules, s: State, tip: Id, id: Id)
    requires CanApply(rules, s, id) && StackBelow(rules, s.checkpoints, tip)
    requires rules.header(tip).number <= rules.header(id).number
    ensures StackBelow(rules, Applied(rules, s, id).checkpoints, id)
  {
    hide Admitted, Captured, Flat, WritesOf, FitsStack;
  }

  lemma {:induction false} StackGrows(rules: Rules, base: State, origin: Id, canon: seq<Id>)
    requires Chain(rules, base, canon).Some? && HeaderChain(rules, origin, canon) && StackBelow(rules, base.checkpoints, origin)
    ensures StackBelow(rules, Chain(rules, base, canon).value.checkpoints, Before(origin, canon, |canon|))
    decreases |canon|
  {
    hide CanApply, Applied, StackBelow;
    if canon != [] {
      var n := |canon| - 1;
      HeadersBelow(rules, origin, canon, n);
      StackGrows(rules, base, origin, canon[..n]);
      StackStep(rules, Chain(rules, base, canon[..n]).value, Before(origin, canon, n), canon[n]);
    }
  }

  /** So the block that comes next always fits, and its commit cannot be what fails. */
  lemma {:induction false} NextFits(rules: Rules, base: State, origin: Id, canon: seq<Id>, s: State, id: Id)
    requires Grown(rules, base, canon, s) && HeaderChain(rules, origin, canon) && StackBelow(rules, base.checkpoints, origin)
    requires rules.header(id).number == rules.header(Before(origin, canon, |canon|)).number + 1 && rules.header(id).number >= 0
    ensures FitsStack(s.checkpoints, Point(rules.header(id).number, id))
  {
    hide Chain, HeaderChain;
    StackGrows(rules, base, origin, canon);
    var stack := Chain(rules, base, canon).value.checkpoints;
    assert s.checkpoints == stack;
    forall j | 0 <= j < |stack| ensures stack[j].point.identity != id && stack[j].point.block < rules.header(id).number {
      assert rules.header(stack[j].point.identity).number == stack[j].point.block;
    }
  }

  lemma {:induction false} CanonGrows(rules: Rules, base: State, origin: Id, canon: seq<Id>, s: State, tip: Id, id: Id)
    requires Canonical(rules, base, origin, canon, s, tip) && CanApply(rules, s, id)
    requires rules.header(id).parent == tip && rules.header(id).number == rules.header(tip).number + 1
    ensures Canonical(rules, base, origin, canon + [id], Applied(rules, s, id), id)
    ensures Before(origin, canon + [id], |canon + [id]|) == id
  {
    hide CanApply, Applied, Grown, Chain, Rests;
    GrownGrows(rules, base, canon, s, id);
    var grown := canon + [id];
    forall m | 0 <= m < |grown|
      ensures rules.header(grown[m]).parent == Before(origin, grown, m)
      ensures rules.header(grown[m]).number == rules.header(Before(origin, grown, m)).number + 1
    {
      assert Before(origin, grown, m) == Before(origin, canon, m);
    }
  }

  lemma {:induction false} CanonStays(rules: Rules, base: State, origin: Id, canon: seq<Id>, s: State, tip: Id, t: State)
    requires Canonical(rules, base, origin, canon, s, tip) && (SameChain(t, s) || SameChain(s, t))
    ensures Canonical(rules, base, origin, canon, t, tip)
  {
    hide Grown, HeaderChain, Rests;
    if SameChain(t, s) { SameChainFlip(t, s); }
    GrownSame(rules, base, canon, s, t);
  }

  /** A higher block is never an ancestor of the head. */
  lemma {:induction false} HigherIsAhead(rules: Rules, store: Store, newHead: Id, oldHead: Id, i: nat, j: nat)
    requires Graph(rules, store) && ForkAt(store, newHead, oldHead, i, j)
    requires rules.header(newHead).number > rules.header(oldHead).number
    ensures i > 0
  {
    hide Ancestor;
    CommonHeights(store, newHead, oldHead, i, j);
  }

  lemma {:induction false} SettledNow(rules: Rules, base: State, origin: Id, canon: seq<Id>, s: State, tip: Id)
    requires Canonical(rules, base, origin, canon, s, tip)
    ensures s.active == 0 && AllSettled(s.layers)
    ensures Grown(rules, base, canon, s) && HeaderChain(rules, origin, canon)
  {
    hide Grown, HeaderChain;
    GrownRests(rules, base, canon, s);
  }

  lemma {:induction false} ApplicableIff(rules: Rules, s: State, id: Id)
    requires Admitted(rules, id) && s.active == 0
    requires rules.header(id).number >= 0 ==> FitsStack(s.checkpoints, Point(rules.header(id).number, id))
    ensures CanApply(rules, s, id) <==> rules.header(id).number >= 0 && rules.exec(Flat(s.root, s.layers), id).ok
  {
    hide Admitted, Flat, FitsStack;
  }

  // ---- what a competing branch has to be -----------------------------------------------------------------

  /** It forks off within the canonical branch, i blocks below its head and j below the tip, and can be executed from there. */
  ghost predicate ExecutableAt(rules: Rules, base: State, canon: seq<Id>, store: Store, newHead: Id, tip: Id, i: nat, j: nat)
  {
    && ForkAt(store, newHead, tip, i, j) && j <= |canon|
    && Chain(rules, base, canon[..|canon| - j] + Reversed(Branch(store, newHead, i))).Some?
  }

  ghost predicate Executable(rules: Rules, base: State, canon: seq<Id>, store: Store, newHead: Id, tip: Id)
  {
    exists i: nat, j: nat :: ExecutableAt(rules, base, canon, store, newHead, tip, i, j)
  }

  /** What becomes canonical: what was below the fork, and the new branch. */
  ghost predicate MovesTo(canon: seq<Id>, store: Store, newHead: Id, tip: Id, moved: seq<Id>)
  {
    exists i: nat, j: nat :: ForkAt(store, newHead, tip, i, j) && j <= |canon|
                             && moved == canon[..|canon| - j] + Reversed(Branch(store, newHead, i))
  }

  lemma {:induction false} ForkIsUnique(store: Store, a: Id, b: Id, i: nat, j: nat, i': nat, j': nat)
    requires ForkAt(store, a, b, i, j) && ForkAt(store, a, b, i', j')
    ensures i == i' && j == j'
  {
    hide CommonAt;
  }

  lemma {:induction false} ExecutableOnlyThere(rules: Rules, base: State, canon: seq<Id>, store: Store, newHead: Id, tip: Id, i: nat, j: nat)
    requires ForkAt(store, newHead, tip, i, j)
    ensures Executable(rules, base, canon, store, newHead, tip) <==> ExecutableAt(rules, base, canon, store, newHead, tip, i, j)
  {
    hide ForkAt, Chain, Branch;
    if Executable(rules, base, canon, store, newHead, tip) {
      var i': nat, j': nat :| ExecutableAt(rules, base, canon, store, newHead, tip, i', j');
      ForkIsUnique(store, newHead, tip, i, j, i', j');
    }
  }

  lemma {:induction false} NothingToExecute(rules: Rules, base: State, canon: seq<Id>, store: Store, newHead: Id, tip: Id)
    requires forall a: nat, b: nat :: !CommonAt(store, newHead, tip, a, b)
    ensures !Executable(rules, base, canon, store, newHead, tip)
  {
    hide CommonAt, Chain, Branch;
  }

  lemma {:induction false} UnswitchedKeeps(rules: Rules, base: State, origin: Id, canon: seq<Id>, pool: Pool, before: State, graph: Store,
                                           newHead: Id, oldHead: Id, i: nat, j: nat, after: State, store: Store, head: Id,
                                           r: Result<seq<Id>, ForkError>)
    requires Switched(rules, base, origin, canon, pool, before, graph, newHead, oldHead, i, j, after, store, head, r)
    requires Canonical(rules, base, origin, canon, before, oldHead) && ForkAt(graph, newHead, oldHead, i, j) && i > 0 && r.Err?
    ensures Canonical(rules, base, origin, canon, after, oldHead) && head == oldHead && r.error != GraphBroken
    ensures store == if pool.suspends then Dropped(graph, Members(Reversed(Branch(graph, newHead, i)))) else graph
    ensures !(pool.suspends && pool.resumes && ExecutableAt(rules, base, canon, graph, newHead, oldHead, i, j))
  {
    hide Canonical, SameChain, Chain, FailsAt, Branch, ForkAt;
    assert SameChain(before, before) by { SameAsItself(before); }
    CanonStays(rules, base, origin, canon, before, oldHead, after);
  }

  lemma {:induction false} SameAsItself(s: State)
    ensures SameChain(s, s)
  {
  }

  lemma {:induction false} SwitchedMoves(rules: Rules, base: State, origin: Id, canon: seq<Id>, pool: Pool, before: State, graph: Store,
                                         newHead: Id, oldHead: Id, i: nat, j: nat, after: State, store: Store, head: Id,
                                         r: Result<seq<Id>, ForkError>)
    requires Switched(rules, base, origin, canon, pool, before, graph, newHead, oldHead, i, j, after, store, head, r)
    requires ForkAt(graph, newHead, oldHead, i, j) && i > 0 && r.Ok?
    ensures pool.suspends && pool.resumes && ExecutableAt(rules, base, canon, graph, newHead, oldHead, i, j)
    ensures head == newHead && store == graph && j <= |canon|
    ensures var moved := canon[..|canon| - j] + Reversed(Branch(graph, newHead, i));
            && Canonical(rules, base, origin, moved, after, newHead) && Before(origin, moved, |moved|) == newHead
            && MovesTo(canon, graph, newHead, oldHead, moved)
  {
    hide SameChain, Chain, FailsAt, Branch, Grown, HeaderChain, Rests, ForkAt;
  }

  /** When the new branch goes again, its head goes with it and the old head does not. */
  lemma {:induction false} OldHeadStays(rules: Rules, store: Store, newHead: Id, oldHead: Id, i: nat, j: nat)
    requires Graph(rules, store) && ForkAt(store, newHead, oldHead, i, j) && i > 0
    ensures var rest := Dropped(store, Members(Reversed(Branch(store, newHead, i))));
            oldHead in rest && newHead !in rest
  {
    hide Graph, Ancestor, Branch, Descends, ForkAt;
    BranchesStand(rules, store, newHead, oldHead, i, j);
    var oldIds := Reversed(Branch(store, oldHead, j));
    assert j > 0 ==> oldHead == oldIds[j - 1];
  }

  // ---- the graph around the canonical tip ------------------------------------------------------------------

  /** The tip is the first of the highest blocks, and every block states a height one above its parent's. */
  ghost predicate InOrder(rules: Rules, store: Store, order: seq<Id>, orphans: set<Id>, tip: Id)
  {
    && Leads(store, order, tip)
    && ZERO_HASH !in store.Keys + orphans
    && forall x :: x in store ==> Descent(rules, x)
  }

  /** A block was taken in, others may have gone: what leads, as long as it is kept. */
  lemma {:induction false} OrderAfterPlacing(rules: Rules, keeping: Keeping, store: Store, order: seq<Id>, orphans: set<Id>, tip: Id, id: Id,
                                             headNumber: int, leader: Id)
    requires InOrder(rules, store, order, orphans, tip) && Lists(order, store) && Graph(rules, store)
    requires id !in store && id != ZERO_HASH && Placed(rules, keeping, store, order, headNumber, id).Ok?
    requires leader == if rules.header(id).number > rules.header(tip).number then id else tip
    ensures var placed := Placed(rules, keeping, store, order, headNumber, id).value;
            leader in placed ==> InOrder(rules, placed, Retained(order + [id], placed.Keys), orphans, leader)
    ensures Descent(rules, id) && ZERO_HASH !in Placed(rules, keeping, store, order, headNumber, id).value.Keys + orphans
    ensures rules.header(id).parent == ZERO_HASH || rules.header(id).number <= rules.header(tip).number + 1
  {
    hide Leads, Lists, Descent, Victims, Expired, Retained, Linked;
    LeaderIsHighest(store, order, tip);
    PlacedLeads(rules, keeping, store, order, headNumber, id, tip);
    DescentGrows(rules, id);
  }

  lemma {:induction false} OrderWithOrphan(rules: Rules, store: Store, order: seq<Id>, orphans: set<Id>, tip: Id, id: Id, others: set<Id>)
    requires InOrder(rules, store, order, orphans, tip) && id != ZERO_HASH && others <= orphans + {id}
    ensures InOrder(rules, store, order, others, tip)
  {
  }

  /** The new block has gone again, and maybe others: the tip leads as before, as long as it is kept. */
  lemma {:induction false} OrderWithoutNew(rules: Rules, store: Store, order: seq<Id>, orphans: set<Id>, tip: Id, id: Id, rest: Store, others: set<Id>)
    requires InOrder(rules, store, order, orphans, tip) && tip in rest && rest.Keys <= store.Keys && others <= orphans && id !in rest
    requires forall x :: x in rest ==> rest[x].number == store[x].number
    ensures InOrder(rules, rest, Retained(order + [id], rest.Keys), others, tip)
  {
    hide Leads, Descent, Retained;
    LeaderStays(store, order, rest, tip);
    RetainedAppend(order, id, rest.Keys);
    assert Retained(order, rest.Keys) + [] == Retained(order, rest.Keys);
  }

  /** After the new block was taken back the tip leads again, and so is what becomes the head. */
  lemma {:induction false} RolledBack(rules: Rules, keeping: Keeping, store: Store, order: seq<Id>, orphans: set<Id>, tip: Id, id: Id,
                                      headNumber: int, rest: Store, left: seq<Id>, others: set<Id>, head: Id)
    requires InOrder(rules, store, order, orphans, tip) && Lists(order, store) && others <= orphans
    requires id !in store && Placed(rules, keeping, store, order, headNumber, id).Ok? && tip in rest
    requires var placed := Placed(rules, keeping, store, order, headNumber, id).value;
             && rest.Keys <= placed.Keys && id !in rest && (forall x :: x in rest ==> rest[x].number == placed[x].number)
             && left == Retained(Retained(order + [id], placed.Keys), rest.Keys)
    ensures InOrder(rules, rest, left, others, tip)
    ensures Leads(rest, left, head) ==> head == tip
  {
    hide InOrder, Retained, Leads, Lists, Placed;
    PlacedLeads(rules, keeping, store, order, headNumber, id, tip);
    RetainedTwice(order + [id], Placed(rules, keeping, store, order, headNumber, id).value.Keys, rest.Keys);
    OrderWithoutNew(rules, store, order, orphans, tip, id, rest, others);
    InOrderLeads(rules, rest, left, others, tip);
    if Leads(rest, left, head) { LeaderIsUnique(rest, left, head, tip); }
  }

  /** Removing a branch that has nothing in common with the tip leaves the tip alone. */
  lemma {:induction false} TipIsSpared(rules: Rules, placed: Store, orphans: set<Id>, id: Id, tip: Id)
    requires placed.Keys !! orphans && ZERO_HASH !in placed.Keys + orphans && Descent(rules, id)
    requires rules.header(id).parent != tip && rules.header(id).number > rules.header(tip).number
    requires rules.header(id).parent == ZERO_HASH || rules.header(id).number <= rules.header(tip).number + 1
    requires tip in placed
    ensures tip in Dropped(placed, HeaderLine(rules, placed.Keys, orphans, id))
  {
    hide HeaderLine, Descent, Lineage;
    NotInLineage(rules, placed.Keys + orphans, id, tip);
    RemovedIsLineage(rules, placed.Keys, orphans, id);
  }

  lemma {:induction false} NewHeadGoes(rules: Rules, placed: Store, orphans: set<Id>, id: Id)
    ensures id !in Dropped(placed, HeaderLine(rules, placed.Keys, orphans, id))
  {
    hide HeaderLine;
    LineStep(rules, placed, orphans, id);
  }

  lemma {:induction false} DroppedNumbers(store: Store, gone: set<Id>)
    ensures Dropped(store, gone).Keys <= store.Keys
    ensures forall x :: x in Dropped(store, gone) ==> Dropped(store, gone)[x].number == store[x].number
  {
  }

  lemma {:induction false} RewoundIsCanonical(rules: Rules, base: State, origin: Id, canon: seq<Id>, s: State, tip: Id)
    requires Canonical(rules, base, origin, canon, s, tip) && canon != []
    ensures var n := |canon| - 1;
            && MayRewind(s, canon[n])
            && Canonical(rules, base, origin, canon[..n], Rewound(s, canon[n]), Before(origin, canon, n))
            && Before(origin, canon[..n], n) == Before(origin, canon, n)
  {
    hide MayRewind, Rewound, Grown, HeaderChain, Rests;
    GrownRewinds(rules, base, canon, s);
    HeadersBelow(rules, origin, canon, |canon| - 1);
  }

  class ChainManager {
    const forks: ForkManager
    ghost const base: State
    ghost const origin: Id
    ghost var canon: seq<Id>

    ghost function Tip(): Id
      reads this
    {
      Before(origin, canon, |canon|)
    }

    /** The state is what the canonical branch makes of the base, whatever the graph's head is. */
    ghost predicate Sound()
      reads this, forks, forks.sessions
    {
      && forks.Valid()
      && Graph(forks.rules, forks.store)
      && !MayRewind(base, origin) && StackBelow(forks.rules, base.checkpoints, origin)
      && Canonical(forks.rules, base, origin, canon, forks.sessions.Snapshot(), Tip())
    }

    /** And the head of the graph is the canonical one. */
    ghost predicate Valid()
      reads this, forks, forks.sessions
    {
      Sound() && forks.head == Tip()
    }

    /** And it is retained, as the first of the highest blocks. */
    ghost predicate Orderly()
      reads this, forks
    {
      InOrder(forks.rules, forks.store, forks.order, Members(forks.orphans), Tip())
    }

    /** A run begins with any state that canonical blocks made of a base at rest, whose own last block cannot be taken back. */
    constructor (forks: ForkManager, ghost base: State, ghost origin: Id, ghost canon: seq<Id>)
      requires forks.Valid() && Graph(forks.rules, forks.store)
      requires Canonical(forks.rules, base, origin, canon, forks.sessions.Snapshot(), forks.head)
      requires !MayRewind(base, origin) && StackBelow(forks.rules, base.checkpoints, origin)
      ensures this.forks == forks && this.base == base && this.origin == origin && this.canon == canon && Valid()
    {
      this.forks := forks;
      this.base, this.origin, this.canon := base, origin, canon;
    }

    /** Blocks go, whatever the reason. */
    method Forget(gone: set<Id>)
      requires Valid()
      modifies forks`store, forks`order
      ensures Valid() && forks.store == Dropped(old(forks.store), gone)
      ensures old(Orderly()) && Tip() in forks.store ==> Orderly()
    {
      hide Graph, Canonical, StackBelow, Inv, Lists, Retained, Leads, Descent;
      var rest := Dropped(forks.store, gone);
      DropKeepsGraph(forks.rules, forks.store, gone);
      DroppedNumbers(forks.store, gone);
      ListsWithin(forks.order, forks.store, rest);
      if Orderly() && Tip() in rest {
        LeaderStays(forks.store, forks.order, rest, Tip());
      }
      forks.order := Retained(forks.order, rest.Keys);
      forks.store := rest;
    }

    /** A block the graph has, or that waits for its parent. */
    predicate Known(id: Id)
      reads this, forks
    {
      id in forks.store || id in forks.orphans
    }

    /** The graph with one more block. */
    function PlacedWith(id: Id): Result<Store, KhaosError>
      reads this, forks
    {
      Placed(forks.rules, forks.keeping, forks.store, forks.order, forks.rules.header(forks.head).number, id)
    }

    /** What `apply_block` asks of a block besides executing it: that there is room for it, too. */
    predicate Extends(id: Id)
      reads this, forks, forks.sessions
    {
      && !Known(id) && ("block", id) !in Head(forks.sessions.Snapshot())
      && forks.rules.header(id).parent == forks.head
      && forks.rules.header(id).number == forks.rules.header(forks.head).number + 1
      && Admitted(forks.rules, id)
      && forks.head in forks.store
      && Victims(forks.keeping.size, forks.keeping.linked, forks.order, forks.keeping.size(id), Some(forks.head)).Some?
      && PlacedWith(id).Ok?
    }

    predicate Applies(id: Id)
      reads this, forks, forks.sessions
    {
      && Extends(id) && forks.rules.header(id).number >= 0
      && forks.rules.exec(Flat(forks.sessions.root, forks.sessions.layers), id).ok
    }

    /** `apply_block`: a new block on top of the head. */
    method ApplyBlock(id: Id) returns (ok: bool)
      requires Valid()
      modifies this, forks, forks.sessions
      ensures Valid()
      ensures ok <==> old(Applies(id))
      ensures canon == if ok then old(canon) + [id] else old(canon)
      ensures ok ==> forks.store == old(PlacedWith(id)).value && forks.order == Retained(old(forks.order) + [id], forks.store.Keys)
      ensures !ok ==> forks.store == old(forks.store) && forks.order == old(forks.order)
      ensures ok && forks.keeping.capacity >= 0 ==> id in forks.store
      ensures forks.orphans == old(forks.orphans)
    {
      hide Graph, StackBelow, Inv, CanApply, Applied, Admitted, Head, Placed, Rests, Grown, HeaderChain, SameChain, MayRewind, Lists, Retained;
      ghost var before := forks.sessions.Snapshot();
      if !Extends(id) {
        return false;
      }
      var rules := forks.rules;
      PlacedKeepsGraph(rules, forks.keeping, forks.store, forks.order, rules.header(forks.head).number, id);
      if forks.keeping.capacity >= 0 && rules.header(id).number >= 0 {
        NewBlockIsKept(rules, forks.keeping, forks.store, forks.order, rules.header(forks.head).number, id);
      }
      SettledNow(rules, base, origin, canon, before, Tip());
      if rules.header(id).number >= 0 {
        NextFits(rules, base, origin, canon, before, id);
      }
      ApplicableIff(rules, before, id);
      ok := ApplyInSession(forks.sessions, rules, id);
      if ok {
        CanonGrows(rules, base, origin, canon, before, Tip(), id);
        var pushed := forks.PushBlock(id);
        canon := canon + [id];
      } else {
        CanonStays(rules, base, origin, canon, before, Tip(), forks.sessions.Snapshot());
      }
    }

    /** `rollback_direct`: takes the newest block back, from the state and from the graph. */
    method Rollback(id: Id, pool: Pool) returns (ok: bool)
      requires Valid() && canon != [] && canon[|canon| - 1] == id
      modifies this, forks, forks.sessions
      ensures Sound()
      ensures canon == if pool.discards then old(canon)[..|old(canon)| - 1] else old(canon)
      ensures forks.store == if pool.discards then Dropped(old(forks.store), {id}) else old(forks.store)
      ensures forks.order == Retained(old(forks.order), forks.store.Keys) && Members(forks.orphans) <= Members(old(forks.orphans))
      ensures !pool.discards ==> forks.head == old(forks.head) && forks.order == old(forks.order) && forks.orphans == old(forks.orphans)
      ensures pool.discards && forks.store != map[] ==> Leads(forks.store, forks.order, forks.head)
    {
      hide Graph, StackBelow, Inv, Canonical, MayRewind, Rewound, Lists, Retained, Dropped, Leads, Members;
      KeepsAll(forks.order, forks.store);
      if !pool.discards {
        return false;
      }
      RewoundIsCanonical(forks.rules, base, origin, canon, forks.sessions.Snapshot(), Tip());
      var rewound := forks.sessions.Rewind(id);
      canon := canon[..|canon| - 1];
      DropKeepsGraph(forks.rules, forks.store, {id});
      var left := forks.RemoveBlock(id);
      return left && pool.restores;
    }

    /**
      The direct way of `accept_block`, with `apply_direct`: the pool is put aside and brought back, and when
      the checkpoints cannot be written the block is taken back. A pool that cannot be brought back leaves
      the block where it is.
     */
    method ApplyDirect(id: Id, around: Surroundings) returns (r: Result<(), ChainError>)
      requires Valid()
      modifies this, forks, forks.sessions
      ensures Sound()
      ensures var pool := around.pool;
              && canon == (if old(Applies(id)) && pool.suspends && (!pool.resumes || around.persists || !pool.discards)
                           then old(canon) + [id] else old(canon))
              && (r.Ok? <==> old(Applies(id)) && pool.suspends && pool.resumes && around.persists)
      ensures canon != old(canon) && forks.keeping.capacity >= 0 ==> Tip() in forks.store
      ensures r.Err? ==> r.error == Refused || r.error == PoolStuck || r.error == NotPersisted
      ensures r != Err(NotPersisted) ==> Valid()
      ensures old(Orderly()) && id != ZERO_HASH && Tip() in forks.store ==> Valid() && Orderly()
    {
      hide Graph, StackBelow, Inv, Canonical, MayRewind, Lists, Retained, Leads, Members, Placed, Head, Admitted, InOrder, Dropped;
      ghost var store, order, orphans, tip, placed := forks.store, forks.order, Members(forks.orphans), Tip(), PlacedWith(id);
      ghost var ordered := Orderly() && id != ZERO_HASH;
      if !around.pool.suspends {
        return Err(PoolStuck);
      }
      var ok := ApplyBlock(id);
      if !ok {
        return Err(if around.pool.restores then Refused else PoolStuck);
      }
      if ordered {
        OrderAfterPlacing(forks.rules, forks.keeping, store, order, orphans, tip, id, forks.rules.header(tip).number, id);
      }
      if !around.pool.resumes {
        return Err(PoolStuck);
      }
      if !around.persists {
        assert canon[..|canon| - 1] == old(canon);
        DroppedNumbers(forks.store, {id});
        DroppedKeys(forks.store, {id});
        var back := Rollback(id, around.pool);
        if ordered && around.pool.discards && tip in forks.store {
          RolledBack(forks.rules, forks.keeping, store, order, orphans, tip, id, forks.rules.header(tip).number,
                     forks.store, forks.order, Members(forks.orphans), forks.head);
        }
        return Err(NotPersisted);
      }
      return Ok(());
    }

    /** `switch_fork` to a block above the tip that the graph has just taken for its head. */
    method SwitchTo(id: Id, oldHead: Id, around: Surroundings) returns (r: Result<(), ChainError>)
      requires Sound() && forks.head == id && oldHead == Tip()
      requires forks.rules.header(id).number > forks.rules.header(oldHead).number
      modifies this, forks, forks.sessions
      ensures Sound()
      ensures var moved := && around.pool.suspends && around.pool.resumes
                           && Executable(forks.rules, base, old(canon), old(forks.store), id, oldHead);
              && (r.Ok? <==> moved && around.persists)
              && (r == Err(NotPersisted) <==> moved && !around.persists) && (r.Err? ==> r.error.Fork? || r.error == NotPersisted)
              && if moved then
                MovesTo(old(canon), old(forks.store), id, oldHead, canon) && Tip() == id && forks.store == old(forks.store)
              else
                canon == old(canon) && (around.pool.suspends ==> id !in forks.store)
      ensures r != Err(Fork(GraphBroken)) ==> forks.head == Tip()
      ensures r == Err(Fork(GraphBroken)) ==>
                && forks.store == Dropped(old(forks.store), HeaderLine(forks.rules, old(forks.store).Keys, Members(old(forks.orphans)), id))
                && (forks.store != map[] ==> Leads(forks.store, forks.order, forks.head))
                && (forks.head == id || forks.head in old(forks.store)) && id !in forks.store
      ensures forks.order == Retained(old(forks.order), forks.store.Keys) && Members(forks.orphans) <= Members(old(forks.orphans))
      ensures forks.store.Keys <= old(forks.store).Keys
      ensures forall x :: x in forks.store ==> forks.store[x].number == old(forks.store)[x].number
    {
      hide Graph, StackBelow, Inv, Canonical, MayRewind, Leads, Resolved, Dropped, HeaderLine, ForkAt, CommonAt, SameChain, Members,
        Chain, Executable, ExecutableAt, MovesTo, Lists, Retained, Switched;
      ghost var graph, before, rules := forks.store, forks.sessions.Snapshot(), forks.rules;
      var result, i, j := forks.Switch(id, oldHead, around.pool, base, origin, canon);
      if exists a: nat, b: nat :: CommonAt(graph, id, oldHead, a, b) {
        HigherIsAhead(rules, graph, id, oldHead, i, j);
        ExecutableOnlyThere(rules, base, canon, graph, id, oldHead, i, j);
        ghost var gone := Members(Reversed(Branch(graph, id, i)));
        DropKeepsGraph(rules, graph, gone);
        DroppedNumbers(graph, gone);
        OldHeadStays(rules, graph, id, oldHead, i, j);
        if result.Err? {
          UnswitchedKeeps(rules, base, origin, canon, around.pool, before, graph, id, oldHead, i, j,
                          forks.sessions.Snapshot(), forks.store, forks.head, result);
        } else {
          SwitchedMoves(rules, base, origin, canon, around.pool, before, graph, id, oldHead, i, j,
                        forks.sessions.Snapshot(), forks.store, forks.head, result);
          canon := canon[..|canon| - j] + Reversed(Branch(graph, id, i));
        }
      } else {
        ghost var line := HeaderLine(rules, graph.Keys, Members(old(forks.orphans)), id);
        DropKeepsGraph(rules, graph, line);
        DroppedNumbers(graph, line);
        NewHeadGoes(rules, graph, Members(old(forks.orphans)), id);
        NothingToExecute(rules, base, canon, graph, id, oldHead);
      }
      if result.Err? {
        return Err(Fork(result.error));
      }
      return if around.persists then Ok(()) else Err(NotPersisted);
    }

    /** The competing block is taken in but is not higher than the head. */
    ghost predicate Waits(id: Id)
      reads this, forks
    {
      && !Known(id) && PlacedWith(id).Ok?
      && forks.rules.header(id).number <= forks.rules.header(forks.head).number
    }

    /** It is higher, and its branch can be executed from a block of the canonical one. */
    ghost predicate Overtakes(id: Id)
      reads this, forks
    {
      && !Known(id) && PlacedWith(id).Ok?
      && forks.rules.header(id).number > forks.rules.header(forks.head).number
      && Executable(forks.rules, base, canon, PlacedWith(id).value, id, Tip())
    }

    /** `retain_competing_block`. */
    method Retain(id: Id) returns (r: Result<(), ChainError>)
      requires Valid()
      modifies forks`store, forks`order, forks`orphans, forks`head
      ensures Sound() && Members(forks.orphans) <= Members(old(forks.orphans)) + {id}
      ensures r == Err(Duplicate) <==> old(Known(id))
      ensures r.Err? ==> r == Err(Duplicate) || (r.error.Unlinkable? && old(PlacedWith(id)).Err?)
      ensures r.Err? ==> forks.store == old(forks.store) && forks.order == old(forks.order) && forks.head == old(forks.head)
      ensures r.Ok? ==>
                && old(PlacedWith(id)).Ok? && forks.store == old(PlacedWith(id)).value && forks.orphans == old(forks.orphans)
                && forks.order == Retained(old(forks.order) + [id], forks.store.Keys)
                && forks.head == if forks.rules.header(id).number > forks.rules.header(old(forks.head)).number then id else old(forks.head)
    {
      hide Graph, StackBelow, Inv, Canonical, MayRewind, Lists, Retained, Members, Placed;
      MembersAre(forks.orphans);
      if Known(id) {
        return Err(Duplicate);
      }
      if PlacedWith(id).Ok? {
        PlacedKeepsGraph(forks.rules, forks.keeping, forks.store, forks.order, forks.rules.header(forks.head).number, id);
      }
      var pushed := forks.PushBlock(id);
      return if pushed.Ok? then Ok(()) else Err(Unlinkable(pushed.error));
    }

    /** The other way of `accept_block`, with `retain_competing_block` and `switch_fork`. */
    method Compete(id: Id, around: Surroundings) returns (r: Result<(), ChainError>)
      requires Valid() && forks.rules.header(id).parent != forks.head
      modifies this, forks, forks.sessions
      ensures Sound()
      ensures var moved := around.pool.suspends && around.pool.resumes && old(Overtakes(id));
              && (r.Ok? <==> old(Waits(id)) || (moved && around.persists))
              && if moved then
                   MovesTo(old(canon), old(PlacedWith(id)).value, id, old(Tip()), canon) && Tip() == id
                 else
                   canon == old(canon)
      ensures old(Waits(id)) ==> forks.store == old(PlacedWith(id)).value
      ensures Tip() != old(Tip()) && forks.keeping.capacity >= 0 && forks.rules.header(id).number >= 0 ==> id in forks.store
      ensures r == Err(Duplicate) <==> old(Known(id))
      ensures r.Err? && r.error.Unlinkable? <==> !old(Known(id)) && old(PlacedWith(id)).Err?
      ensures r != Err(Fork(GraphBroken)) ==> Valid()
      ensures old(Orderly()) && id != ZERO_HASH && around.pool.suspends && Tip() in forks.store ==> Valid() && Orderly()
      ensures r == Err(Fork(GraphBroken)) && old(Orderly()) && id != ZERO_HASH ==>
                old(PlacedWith(id)).Ok? && (forks.head == Tip() <==> Tip() in old(PlacedWith(id)).value)
    {
      hide Graph, StackBelow, Inv, Canonical, MayRewind, Lists, Retained, Leads, Members, Placed, InOrder, Dropped, HeaderLine, Executable, MovesTo;
      ghost var store, order, orphans, tip, placed := forks.store, forks.order, Members(forks.orphans), Tip(), PlacedWith(id);
      ghost var ordered := Orderly() && id != ZERO_HASH;
      var rules, oldHead := forks.rules, forks.head;
      if ordered && !Known(id) && placed.Ok? {
        OrderAfterPlacing(rules, forks.keeping, store, order, orphans, tip, id, rules.header(tip).number,
                          if rules.header(id).number > rules.header(tip).number then id else tip);
      }
      if forks.keeping.capacity >= 0 && rules.header(id).number >= 0 && rules.header(id).number > rules.header(tip).number && !Known(id) && placed.Ok? {
        NewBlockIsKept(rules, forks.keeping, store, order, rules.header(tip).number, id);
      }
      r := Retain(id);
      if r.Err? {
        if ordered {
          OrderWithOrphan(rules, store, order, orphans, tip, id, Members(forks.orphans));
        }
        return;
      }
      if rules.header(id).number <= rules.header(oldHead).number {
        return;
      }
      ghost var next := forks.order;
      RetainedTwice(order + [id], placed.value.Keys, placed.value.Keys);
      r := SwitchTo(id, oldHead, around);
      if ordered && (r.Ok? || r == Err(NotPersisted)) && id in placed.value {
        OrderWithOrphan(rules, placed.value, next, orphans, id, id, Members(forks.orphans));
      }
      if ordered && r == Err(Fork(GraphBroken)) && tip in placed.value {
        TipIsSpared(rules, placed.value, orphans, id, tip);
      }
      if ordered && r.Err? && r != Err(NotPersisted) && id !in forks.store && tip in forks.store {
        RolledBack(rules, forks.keeping, store, order, orphans, tip, id, rules.header(tip).number,
                   forks.store, forks.order, Members(forks.orphans), forks.head);
      }
    }

    /** The block becomes the canonical tip. */
    ghost predicate Adopts(id: Id, around: Surroundings)
      reads this, forks, forks.sessions
    {
      && around.pool.suspends
      && if forks.rules.header(id).parent == forks.head then
           Applies(id) && (!around.pool.resumes || around.persists || !around.pool.discards)
         else
           Overtakes(id) && around.pool.resumes
    }

    /** `accept_block`. */
    method Accept(id: Id, around: Surroundings) returns (r: Result<(), ChainError>)
      requires Valid()
      modifies this, forks, forks.sessions
      ensures Sound()
      ensures if !old(Adopts(id, around)) then canon == old(canon)
              else if forks.rules.header(id).parent == old(forks.head) then canon == old(canon) + [id]
              else MovesTo(old(canon), old(PlacedWith(id)).value, id, old(Tip()), canon) && Tip() == id
      ensures r.Ok? <==> || (old(Adopts(id, around)) && around.pool.resumes && around.persists)
                         || (forks.rules.header(id).parent != old(forks.head) && old(Waits(id)))
      ensures forks.rules.header(Tip()).number >= forks.rules.header(old(Tip())).number
      ensures old(Adopts(id, around)) && forks.keeping.capacity >= 0 && forks.rules.header(id).number >= 0 ==> Tip() in forks.store
      ensures r != Err(Fork(GraphBroken)) && r != Err(NotPersisted) ==> Valid()
      ensures old(Orderly()) && id != ZERO_HASH && around.pool.suspends && Tip() in forks.store ==> Valid() && Orderly()
      ensures r == Err(Fork(GraphBroken)) && old(Orderly()) && id != ZERO_HASH ==>
                old(PlacedWith(id)).Ok? && (forks.head == Tip() <==> Tip() in old(PlacedWith(id)).value)
    {
      hide Graph, StackBelow, Inv, Canonical, MayRewind, Lists, Retained, Leads, Members, Placed, InOrder, Executable, MovesTo, Admitted, Head;
      if forks.rules.header(id).parent == forks.head {
        r := ApplyDirect(id, around);
      } else {
        r := Compete(id, around);
      }
    }
  }

  lemma {:induction false} InOrderLeads(rules: Rules, store: Store, order: seq<Id>, orphans: set<Id>, tip: Id)
    requires InOrder(rules, store, order, orphans, tip)
    ensures Leads(store, order, tip)
  {
  }
}
