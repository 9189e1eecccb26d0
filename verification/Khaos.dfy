/** The graph of recent blocks: linking new blocks to their parents, and finding where two branches fork. */
module Khaos {
  import opened Outcomes

  type Id = seq<int>

  /** The parent object a block still points at. */
  datatype Link = Link(id: Id, number: int)

  /** A retained block; the link is gone when the parent object has been dropped. */
  datatype Node = Node(number: int, parent: Option<Link>)

  type Store = map<Id, Node>

  datatype KhaosError = BadNumber | UnlinkedBlock | NonCommonBlock | MalformedChain | CycleDetected | TraversalLimit | ResourceLimit

  /** Heights are consecutive along links, also when the parent is looked up again by its id. */
  ghost predicate Linked(store: Store)
  {
    forall id :: id in store && store[id].parent.Some? ==>
      var p := store[id].parent.value;
      p.number == store[id].number - 1 && (p.id in store ==> store[p.id].number == p.number)
  }

  // ---- growing and shrinking the graph -----------------------------------------------------------

  /**
    How `push` links a block. Before there is a head, and for a block without a parent hash, nothing
    is looked up; otherwise the parent must be retained and exactly one block lower.
   */
  function Push(store: Store, hasHead: bool, id: Id, number: int, parentId: Option<Id>): Result<Store, KhaosError>
  {
    if !hasHead || parentId.None? then Ok(store[id := Node(number, None)])
    else if parentId.value !in store then Err(UnlinkedBlock)
    else if number != store[parentId.value].number + 1 then Err(BadNumber)
    else Ok(store[id := Node(number, Some(Link(parentId.value, store[parentId.value].number)))])
  }

  /** A block identifier carries its height, so a known identifier is never re-used at another one. */
  ghost predicate HeightOfId(store: Store, id: Id, number: int)
  {
    && (id in store ==> store[id].number == number)
    && forall o :: o in store && store[o].parent.Some? && store[o].parent.value.id == id ==> store[o].parent.value.number == number
  }

  lemma {:induction false} PushKeepsLinked(store: Store, hasHead: bool, id: Id, number: int, parentId: Option<Id>)
    requires Linked(store) && HeightOfId(store, id, number)
    ensures Push(store, hasHead, id, number, parentId).Ok? ==>
              Linked(Push(store, hasHead, id, number, parentId).value)
  {
    if Push(store, hasHead, id, number, parentId).Ok? {
      var grown := Push(store, hasHead, id, number, parentId).value;
      forall o | o in grown && grown[o].parent.Some?
        ensures grown[o].parent.value.number == grown[o].number - 1
        ensures var p := grown[o].parent.value; p.id in grown ==> grown[p.id].number == p.number
      {
        var p := grown[o].parent.value;
        if o != id { assert store[o] == grown[o]; }
      }
    }
  }

  /** Dropping blocks, and with them links to them, keeps what remains linked. */
  lemma {:induction false} DropKeepsLinked(store: Store, rest: Store)
    requires Linked(store) && rest.Keys <= store.Keys
    requires forall id :: id in rest ==>
               rest[id].number == store[id].number && (rest[id].parent.Some? ==> rest[id].parent == store[id].parent)
    ensures Linked(rest)
  {
  }

  /** What remains when blocks are removed or evicted: a link to one of them is dead. */
  function Dropped(store: Store, gone: set<Id>): Store
  {
    map id | id in store && id !in gone ::
      if store[id].parent.Some? && store[id].parent.value.id in gone then Node(store[id].number, None) else store[id]
  }

  lemma {:induction false} DroppedKeys(store: Store, gone: set<Id>)
    ensures Dropped(store, gone).Keys == store.Keys - gone
  {
  }

  lemma {:induction false} DroppedTwice(store: Store, a: set<Id>, b: set<Id>)
    ensures Dropped(Dropped(store, a), b) == Dropped(store, a + b)
  {
    assert Dropped(Dropped(store, a), b).Keys == Dropped(store, a + b).Keys;
  }

  // ---- ancestors -----------------------------------------------------------------------------------

  /** The retained parent of a retained block. */
  function ParentOf(store: Store, id: Id): Option<Id>
  {
    if id in store && store[id].parent.Some? && store[id].parent.value.id in store
    then Some(store[id].parent.value.id) else None
  }

  /** The k-th ancestor, itself for zero. */
  function Ancestor(store: Store, id: Id, k: nat): (a: Option<Id>)
    ensures a.Some? ==> a.value in store
  {
    if k == 0 then (if id in store then Some(id) else None)
    else
      match Ancestor(store, id, k - 1)
      case None => None
      case Some(a) => ParentOf(store, a)
  }

  lemma {:induction false} AncestorHeight(store: Store, id: Id, k: nat)
    requires Linked(store) && Ancestor(store, id, k).Some?
    ensures id in store && store[Ancestor(store, id, k).value].number == store[id].number - k
    decreases k
  {
    if k > 0 { AncestorHeight(store, id, k - 1); }
  }

  lemma {:induction false} NoAncestorBeyond(store: Store, id: Id, k: nat, m: nat)
    requires Ancestor(store, id, k).None? && k <= m
    ensures Ancestor(store, id, m).None?
    decreases m - k
  {
    if k < m { NoAncestorBeyond(store, id, k, m - 1); }
  }

  lemma {:induction false} AncestorBefore(store: Store, id: Id, k: nat, m: nat)
    requires Ancestor(store, id, m).Some? && k <= m
    ensures Ancestor(store, id, k).Some?
  {
    if Ancestor(store, id, k).None? { NoAncestorBeyond(store, id, k, m); }
  }

  /** The block and its first ancestors, as a branch lists them. */
  function Branch(store: Store, id: Id, k: nat): seq<Id>
  {
    if k == 0 then []
    else
      match Ancestor(store, id, k - 1)
      case None => Branch(store, id, k - 1)
      case Some(a) => Branch(store, id, k - 1) + [a]
  }

  /** The i-th ancestor of the first block is the j-th ancestor of the second. */
  ghost predicate CommonAt(store: Store, first: Id, second: Id, i: nat, j: nat)
  {
    Ancestor(store, first, i).Some? && Ancestor(store, first, i) == Ancestor(store, second, j)
  }

  /** The nearest common ancestor is i blocks below the first and j below the second. */
  ghost predicate ForkAt(store: Store, first: Id, second: Id, i: nat, j: nat)
  {
    CommonAt(store, first, second, i, j) && NoneBefore(store, first, second, i, j)
  }

  /** No common ancestor lies nearer than i from the first block or j from the second. */
  ghost predicate NoneBefore(store: Store, first: Id, second: Id, i: nat, j: nat)
  {
    forall a: nat, b: nat :: CommonAt(store, first, second, a, b) ==> i <= a && j <= b
  }

  lemma {:induction false} CommonHeights(store: Store, first: Id, second: Id, i: nat, j: nat)
    requires Linked(store) && CommonAt(store, first, second, i, j)
    ensures first in store && second in store && store[first].number - i == store[second].number - j
  {
    AncestorHeight(store, first, i);
    AncestorHeight(store, second, j);
  }

  lemma {:induction false} BranchEntries(store: Store, id: Id, k: nat, a: nat)
    requires (k == 0 || Ancestor(store, id, k - 1).Some?) && a < k
    ensures |Branch(store, id, k)| == k && Ancestor(store, id, a) == Some(Branch(store, id, k)[a])
    decreases k
  {
    BranchLength(store, id, k);
    if k >= 2 {
      AncestorBefore(store, id, k - 2, k - 1);
      BranchLength(store, id, k - 1);
      if a < k - 1 { BranchEntries(store, id, k - 1, a); }
    }
  }

  lemma {:induction false} BranchLength(store: Store, id: Id, k: nat)
    requires k == 0 || Ancestor(store, id, k - 1).Some?
    ensures |Branch(store, id, k)| == k
  {
    if k > 0 {
      AncestorBefore(store, id, if k >= 2 then k - 2 else 0, k - 1);
      BranchLength(store, id, k - 1);
    }
  }

  /** The two branches above the fork have no block in common. */
  lemma {:induction false} BranchesDisjoint(store: Store, first: Id, second: Id, i: nat, j: nat)
    requires ForkAt(store, first, second, i, j)
    requires i == 0 || Ancestor(store, first, i - 1).Some?
    requires j == 0 || Ancestor(store, second, j - 1).Some?
    ensures forall a, b :: 0 <= a < |Branch(store, first, i)| && 0 <= b < |Branch(store, second, j)| ==>
              Branch(store, first, i)[a] != Branch(store, second, j)[b]
  {
    BranchLength(store, first, i);
    BranchLength(store, second, j);
    forall a, b | 0 <= a < i && 0 <= b < j
      ensures Branch(store, first, i)[a] != Branch(store, second, j)[b]
    {
      BranchEntries(store, first, i, a);
      BranchEntries(store, second, j, b);
      assert !CommonAt(store, first, second, a, b);
    }
  }

  // ---- walking back to the fork --------------------------------------------------------------------

  /** `seen` holds blocks no lower than this one, one more than the steps that led here. */
  ghost predicate Trail(store: Store, start: Id, at: Id, walked: seq<Id>, seen: set<Id>)
  {
    && Ancestor(store, start, |walked|) == Some(at)
    && (|walked| == 0 || Ancestor(store, start, |walked| - 1).Some?)
    && walked == Branch(store, start, |walked|)
    && |seen| == |walked| + 1
    && seen <= store.Keys
    && forall x :: x in seen ==> store[x].number >= store[at].number
  }

  /** One step to the parent, with every check on the way. */
  method CheckedParent(store: Store, block: Id, visited: set<Id>, steps: nat, maximum: nat)
    returns (result: Result<Id, KhaosError>, visited': set<Id>, steps': nat)
    requires block in store
    ensures steps' == steps + 1
    ensures result.Ok? ==>
              && ParentOf(store, block) == Some(result.value)
              && store[result.value].number < store[block].number
              && result.value !in visited && visited' == visited + {result.value}
    ensures result == Err(TraversalLimit) <==> steps + 1 > maximum
    ensures Linked(store) && (forall x :: x in visited ==> x in store && store[x].number >= store[block].number) ==>
              result.Ok? || result == Err(TraversalLimit) || result == Err(NonCommonBlock)
    ensures Linked(store) && result == Err(NonCommonBlock) ==> ParentOf(store, block) == None
  {
    steps' := steps + 1;
    visited' := visited;
    if steps' > maximum { return Err(TraversalLimit), visited', steps'; }
    match store[block].parent
    case None => return Err(NonCommonBlock), visited', steps';
    case Some(parent) =>
      if parent.number >= store[block].number { return Err(MalformedChain), visited', steps'; }
      if parent.id in visited { return Err(CycleDetected), visited', steps'; }
      visited' := visited + {parent.id};
      if parent.id !in store { return Err(NonCommonBlock), visited', steps'; }
      if store[parent.id].number >= store[block].number { return Err(MalformedChain), visited', steps'; }
      return Ok(parent.id), visited', steps';
  }

  lemma {:induction false} TrailStart(store: Store, start: Id)
    requires start in store
    ensures Trail(store, start, start, [], {start})
  {
  }

  lemma {:induction false} TrailStep(store: Store, start: Id, at: Id, walked: seq<Id>, seen: set<Id>, next: Id)
    requires Trail(store, start, at, walked, seen)
    requires ParentOf(store, at) == Some(next) && store[next].number < store[at].number && next !in seen
    ensures Trail(store, start, next, walked + [at], seen + {next})
  {
    var k := |walked|;
    assert Ancestor(store, start, k + 1) == Some(next);
    assert (k == 0 || Ancestor(store, start, k - 1).Some?) && Branch(store, start, k + 1) == walked + [at];
  }

  lemma {:induction false} TrailFits(store: Store, start: Id, at: Id, walked: seq<Id>, seen: set<Id>)
    requires Trail(store, start, at, walked, seen)
    ensures |walked| + 1 <= |store| && at in store
    ensures Linked(store) ==> start in store && store[at].number == store[start].number - |walked|
  {
    SubsetSize(seen, store.Keys);
    assert |store.Keys| == |store|;
    if Linked(store) { AncestorHeight(store, start, |walked|); }
  }

  /** Whatever is common lies strictly beyond two different blocks of which one is at least as high. */
  lemma {:induction false} NotYet(store: Store, first: Id, second: Id, f: Id, s: Id, i: nat, j: nat)
    requires Linked(store) && NoneBefore(store, first, second, i, j)
    requires Ancestor(store, first, i) == Some(f) && Ancestor(store, second, j) == Some(s)
    requires f != s
    ensures store[f].number >= store[s].number ==>
              forall a: nat, b: nat :: CommonAt(store, first, second, a, b) ==> i + 1 <= a
    ensures store[s].number >= store[f].number ==>
              forall a: nat, b: nat :: CommonAt(store, first, second, a, b) ==> j + 1 <= b
  {
    AncestorHeight(store, first, i);
    AncestorHeight(store, second, j);
    forall a: nat, b: nat | CommonAt(store, first, second, a, b)
      ensures store[f].number >= store[s].number ==> i + 1 <= a
      ensures store[s].number >= store[f].number ==> j + 1 <= b
    {
      CommonHeights(store, first, second, a, b);
    }
  }

  /** Links go down exactly one block. */
  lemma {:induction false} OneLower(store: Store, id: Id, next: Id)
    requires Linked(store) && ParentOf(store, id) == Some(next)
    ensures store[next].number == store[id].number - 1
  {
  }

  /** When the walk cannot go on from the i-th ancestor, and nothing common was met, nothing is common. */
  lemma {:induction false} DeadEnd(store: Store, id: Id, at: Id, i: nat)
    requires Ancestor(store, id, i) == Some(at) && ParentOf(store, at) == None
    ensures forall a: nat :: i + 1 <= a ==> Ancestor(store, id, a).None?
  {
    forall a: nat | i + 1 <= a ensures Ancestor(store, id, a).None? { NoAncestorBeyond(store, id, i + 1, a); }
  }

  /** What the search for the fork promises about its outcome. */
  ghost predicate FindsFork(store: Store, first: Id, second: Id, listEntries: nat, r: Result<(seq<Id>, seq<Id>), KhaosError>)
  {
    && (r.Ok? ==>
          && CommonAt(store, first, second, |r.value.0|, |r.value.1|)
          && (|r.value.0| == 0 || Ancestor(store, first, |r.value.0| - 1).Some?)
          && (|r.value.1| == 0 || Ancestor(store, second, |r.value.1| - 1).Some?)
          && r.value.0 == Branch(store, first, |r.value.0|)
          && r.value.1 == Branch(store, second, |r.value.1|)
          && (Linked(store) ==> NoneBefore(store, first, second, |r.value.0|, |r.value.1|)))
    && (|store| <= listEntries ==> r != Err(TraversalLimit))
    && (Linked(store) && |store| <= listEntries && r.Err? ==>
          r == Err(NonCommonBlock) && forall a: nat, b: nat :: !CommonAt(store, first, second, a, b))
  }

  lemma {:induction false} UnknownBlock(store: Store, first: Id, second: Id, listEntries: nat)
    requires first !in store || second !in store
    ensures FindsFork(store, first, second, listEntries, Err(NonCommonBlock))
  {
    forall a: nat, b: nat ensures !CommonAt(store, first, second, a, b) {
      if first !in store { NoAncestorBeyond(store, first, 0, a); } else { NoAncestorBeyond(store, second, 0, b); }
    }
  }

  /** A block `at` that the walk from `start` reached, and whose parent could not be taken. */
  ghost predicate StepFailed(store: Store, start: Id, at: Id, i: nat, listEntries: nat, error: KhaosError)
  {
    && Ancestor(store, start, i) == Some(at)
    && (|store| <= listEntries ==> error != TraversalLimit)
    && (Linked(store) ==> error == TraversalLimit || (error == NonCommonBlock && ParentOf(store, at) == None))
  }

  lemma {:induction false} FirstFails(store: Store, first: Id, second: Id, at: Id, i: nat, listEntries: nat, error: KhaosError)
    requires StepFailed(store, first, at, i, listEntries, error)
    requires Linked(store) ==> forall a: nat, b: nat :: CommonAt(store, first, second, a, b) ==> i + 1 <= a
    ensures FindsFork(store, first, second, listEntries, Err(error))
  {
    if Linked(store) && |store| <= listEntries {
      DeadEnd(store, first, at, i);
      assert forall a: nat, b: nat :: CommonAt(store, first, second, a, b) ==> Ancestor(store, first, a).Some?;
    }
  }

  lemma {:induction false} SecondFails(store: Store, first: Id, second: Id, at: Id, j: nat, listEntries: nat, error: KhaosError)
    requires StepFailed(store, second, at, j, listEntries, error)
    requires Linked(store) ==> forall a: nat, b: nat :: CommonAt(store, first, second, a, b) ==> j + 1 <= b
    ensures FindsFork(store, first, second, listEntries, Err(error))
  {
    if Linked(store) && |store| <= listEntries {
      DeadEnd(store, second, at, j);
      assert forall a: nat, b: nat :: CommonAt(store, first, second, a, b) ==> Ancestor(store, second, b).Some?;
    }
  }

  /** Both walks, and that nothing common was passed on the way. */
  ghost predicate Walking(store: Store, first: Id, second: Id, f: Id, s: Id,
                          firstBranch: seq<Id>, secondBranch: seq<Id>, firstSeen: set<Id>, secondSeen: set<Id>)
  {
    && f in store && s in store
    && Trail(store, first, f, firstBranch, firstSeen)
    && Trail(store, second, s, secondBranch, secondSeen)
    && (Linked(store) ==> NoneBefore(store, first, second, |firstBranch|, |secondBranch|))
  }

  lemma {:induction false} WalkStarts(store: Store, first: Id, second: Id)
    requires first in store && second in store
    ensures Walking(store, first, second, first, second, [], [], {first}, {second})
  {
    TrailStart(store, first);
    TrailStart(store, second);
  }

  lemma {:induction false} StepFirst(store: Store, first: Id, second: Id, f: Id, s: Id,
                                     firstBranch: seq<Id>, secondBranch: seq<Id>, firstSeen: set<Id>, secondSeen: set<Id>, next: Id)
    requires Walking(store, first, second, f, s, firstBranch, secondBranch, firstSeen, secondSeen)
    requires store[f].number > store[s].number
    requires ParentOf(store, f) == Some(next) && store[next].number < store[f].number && next !in firstSeen
    ensures Walking(store, first, second, next, s, firstBranch + [f], secondBranch, firstSeen + {next}, secondSeen)
    ensures Linked(store) ==> store[next].number == store[f].number - 1
  {
    hide Ancestor, Branch, CommonAt, Linked;
    TrailStep(store, first, f, firstBranch, firstSeen, next);
    if Linked(store) {
      OneLower(store, f, next);
      NotYet(store, first, second, f, s, |firstBranch|, |secondBranch|);
    }
  }

  lemma {:induction false} StepSecond(store: Store, first: Id, second: Id, f: Id, s: Id,
                                      firstBranch: seq<Id>, secondBranch: seq<Id>, firstSeen: set<Id>, secondSeen: set<Id>, next: Id)
    requires Walking(store, first, second, f, s, firstBranch, secondBranch, firstSeen, secondSeen)
    requires store[s].number > store[f].number
    requires ParentOf(store, s) == Some(next) && store[next].number < store[s].number && next !in secondSeen
    ensures Walking(store, first, second, f, next, firstBranch, secondBranch + [s], firstSeen, secondSeen + {next})
    ensures Linked(store) ==> store[next].number == store[s].number - 1
  {
    hide Ancestor, Branch, CommonAt, Linked;
    TrailStep(store, second, s, secondBranch, secondSeen, next);
    if Linked(store) {
      OneLower(store, s, next);
      NotYet(store, first, second, f, s, |firstBranch|, |secondBranch|);
    }
  }

  lemma {:induction false} StepBoth(store: Store, first: Id, second: Id, f: Id, s: Id,
                                    firstBranch: seq<Id>, secondBranch: seq<Id>, firstSeen: set<Id>, secondSeen: set<Id>,
                                    nextF: Id, nextS: Id)
    requires Walking(store, first, second, f, s, firstBranch, secondBranch, firstSeen, secondSeen)
    requires f != s && (Linked(store) ==> store[f].number == store[s].number)
    requires ParentOf(store, f) == Some(nextF) && store[nextF].number < store[f].number && nextF !in firstSeen
    requires ParentOf(store, s) == Some(nextS) && store[nextS].number < store[s].number && nextS !in secondSeen
    ensures Walking(store, first, second, nextF, nextS, firstBranch + [f], secondBranch + [s],
                    firstSeen + {nextF}, secondSeen + {nextS})
    ensures Linked(store) ==> store[nextF].number == store[nextS].number
  {
    hide Ancestor, Branch, CommonAt, Linked;
    TrailStep(store, first, f, firstBranch, firstSeen, nextF);
    TrailStep(store, second, s, secondBranch, secondSeen, nextS);
    if Linked(store) {
      OneLower(store, f, nextF);
      OneLower(store, s, nextS);
      NotYet(store, first, second, f, s, |firstBranch|, |secondBranch|);
    }
  }

  lemma {:induction false} WalkFits(store: Store, first: Id, second: Id, f: Id, s: Id,
                                    firstBranch: seq<Id>, secondBranch: seq<Id>, firstSeen: set<Id>, secondSeen: set<Id>)
    requires Walking(store, first, second, f, s, firstBranch, secondBranch, firstSeen, secondSeen)
    ensures |firstBranch| + 1 <= |store| && |secondBranch| + 1 <= |store|
    ensures Ancestor(store, first, |firstBranch|) == Some(f) && Ancestor(store, second, |secondBranch|) == Some(s)
    ensures forall x :: x in firstSeen ==> x in store && store[x].number >= store[f].number
    ensures forall x :: x in secondSeen ==> x in store && store[x].number >= store[s].number
  {
    TrailFits(store, first, f, firstBranch, firstSeen);
    TrailFits(store, second, s, secondBranch, secondSeen);
  }

  lemma {:induction false} WalkArrives(store: Store, first: Id, second: Id, at: Id, listEntries: nat,
                                       firstBranch: seq<Id>, secondBranch: seq<Id>, firstSeen: set<Id>, secondSeen: set<Id>)
    requires Walking(store, first, second, at, at, firstBranch, secondBranch, firstSeen, secondSeen)
    ensures FindsFork(store, first, second, listEntries, Ok((firstBranch, secondBranch)))
  {
  }

  /** The walk back from two blocks to where their branches fork. */
  method GetBranch(store: Store, first: Id, second: Id, listEntries: nat)
    returns (r: Result<(seq<Id>, seq<Id>), KhaosError>)
    ensures FindsFork(store, first, second, listEntries, r)
  {
    hide Ancestor, Branch, CommonAt, Linked, Trail, NoneBefore, FindsFork, ParentOf;
    if first !in store || second !in store {
      UnknownBlock(store, first, second, listEntries);
      return Err(NonCommonBlock);
    }
    var f, s := first, second;
    var firstBranch: seq<Id>, secondBranch: seq<Id> := [], [];
    var firstSeen, secondSeen := {f}, {s};
    var steps := 0;
    var maximum := 2 * listEntries + 2;
    WalkStarts(store, first, second);
    while store[f].number > store[s].number
      invariant Walking(store, first, second, f, s, firstBranch, secondBranch, firstSeen, secondSeen)
      invariant steps == |firstBranch| + |secondBranch|
      decreases store[f].number - store[s].number
    {
      ghost var i := |firstBranch|;
      WalkFits(store, first, second, f, s, firstBranch, secondBranch, firstSeen, secondSeen);
      if Linked(store) { NotYet(store, first, second, f, s, i, |secondBranch|); }
      var parent, seen, taken := CheckedParent(store, f, firstSeen, steps, maximum);
      if parent.Err? { FirstFails(store, first, second, f, i, listEntries, parent.error); return Err(parent.error); }
      StepFirst(store, first, second, f, s, firstBranch, secondBranch, firstSeen, secondSeen, parent.value);
      firstBranch := firstBranch + [f];
      f, firstSeen, steps := parent.value, seen, taken;
    }
    while store[s].number > store[f].number
      invariant Walking(store, first, second, f, s, firstBranch, secondBranch, firstSeen, secondSeen)
      invariant steps == |firstBranch| + |secondBranch|
      invariant Linked(store) ==> store[s].number >= store[f].number
      decreases store[s].number - store[f].number
    {
      ghost var j := |secondBranch|;
      WalkFits(store, first, second, f, s, firstBranch, secondBranch, firstSeen, secondSeen);
      if Linked(store) { NotYet(store, first, second, f, s, |firstBranch|, j); }
      var parent, seen, taken := CheckedParent(store, s, secondSeen, steps, maximum);
      if parent.Err? { SecondFails(store, first, second, s, j, listEntries, parent.error); return Err(parent.error); }
      StepSecond(store, first, second, f, s, firstBranch, secondBranch, firstSeen, secondSeen, parent.value);
      secondBranch := secondBranch + [s];
      s, secondSeen, steps := parent.value, seen, taken;
    }
    while f != s
      invariant Walking(store, first, second, f, s, firstBranch, secondBranch, firstSeen, secondSeen)
      invariant steps == |firstBranch| + |secondBranch|
      invariant Linked(store) ==> store[s].number == store[f].number
      decreases |store| - |firstBranch|
    {
      WalkFits(store, first, second, f, s, firstBranch, secondBranch, firstSeen, secondSeen);
      if Linked(store) { NotYet(store, first, second, f, s, |firstBranch|, |secondBranch|); }
      var parent, seen, taken := CheckedParent(store, f, firstSeen, steps, maximum);
      if parent.Err? {
        FirstFails(store, first, second, f, |firstBranch|, listEntries, parent.error);
        return Err(parent.error);
      }
      var parent', seen', taken' := CheckedParent(store, s, secondSeen, taken, maximum);
      if parent'.Err? {
        SecondFails(store, first, second, s, |secondBranch|, listEntries, parent'.error);
        return Err(parent'.error);
      }
      StepBoth(store, first, second, f, s, firstBranch, secondBranch, firstSeen, secondSeen, parent.value, parent'.value);
      firstBranch, secondBranch := firstBranch + [f], secondBranch + [s];
      f, s, firstSeen, secondSeen, steps := parent.value, parent'.value, seen, seen', taken';
    }
    WalkArrives(store, first, second, f, listEntries, firstBranch, secondBranch, firstSeen, secondSeen);
    return Ok((firstBranch, secondBranch));
  }
}
