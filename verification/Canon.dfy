/** The canonical branch as headers state it, and how it lies in the graph of retained blocks. */
module Canon {
  import opened Outcomes
  import opened Sessions
  import opened Khaos
  import opened ForkSwitch

  /** Blocks of which each states the one before it as its parent, one lower. */
  ghost predicate HeaderChain(rules: Rules, origin: Id, ids: seq<Id>)
  {
    forall m :: 0 <= m < |ids| ==>
      && rules.header(ids[m]).parent == Before(origin, ids, m)
      && rules.header(ids[m]).number == rules.header(Before(origin, ids, m)).number + 1
  }

  /** The state is what the canonical blocks make of the base, and the tip is the last of them. */
  ghost predicate Canonical(rules: Rules, base: State, origin: Id, canon: seq<Id>, s: State, tip: Id)
  {
    && Rests(base) && Grown(rules, base, canon, s)
    && HeaderChain(rules, origin, canon)
    && tip == Before(origin, canon, |canon|)
  }

  // ---- the canonical branch in the graph -----------------------------------------------------------

  lemma {:induction false} CanonParent(rules: Rules, origin: Id, canon: seq<Id>, m: nat)
    requires HeaderChain(rules, origin, canon) && 0 < m <= |canon|
    ensures rules.header(Before(origin, canon, m)).parent == Before(origin, canon, m - 1)
    ensures rules.header(Before(origin, canon, m)).number == rules.header(Before(origin, canon, m - 1)).number + 1
  {
  }

  lemma {:induction false} AncestorIsCanon(rules: Rules, store: Store, origin: Id, canon: seq<Id>, tip: Id, a: nat)
    requires Graph(rules, store) && HeaderChain(rules, origin, canon) && tip == Before(origin, canon, |canon|)
    requires a <= |canon| && Ancestor(store, tip, a).Some?
    ensures Ancestor(store, tip, a) == Some(Before(origin, canon, |canon| - a))
    decreases a
  {
    hide Graph, Ancestor, HeaderChain, Before;
    if a == 0 {
      AncestorStarts(store, tip, 0);
    } else {
      AncestorBefore(store, tip, a - 1, a);
      AncestorIsCanon(rules, store, origin, canon, tip, a - 1);
      AncestorLink(rules, store, tip, a - 1);
      CanonParent(rules, origin, canon, |canon| - (a - 1));
    }
  }

  /** Going back from the tip one meets the canonical blocks, as far as they reach. */
  lemma {:induction false} BranchIsCanon(rules: Rules, store: Store, origin: Id, canon: seq<Id>, tip: Id, j: nat)
    requires Graph(rules, store) && HeaderChain(rules, origin, canon) && tip == Before(origin, canon, |canon|)
    requires Ancestor(store, tip, j).Some?
    ensures var ids, n := Reversed(Branch(store, tip, j)), |canon|;
            && |ids| == j
            && (j <= n ==> ids == canon[n - j..])
            && (j > n ==> ids[j - n..] == canon && ids[j - n - 1] == origin)
  {
    hide Graph, Ancestor, Branch, HeaderChain;
    var ids, n := Reversed(Branch(store, tip, j)), |canon|;
    var fork := Ancestor(store, tip, j).value;
    AncestorStarts(store, tip, j);
    if j > 0 { AncestorBefore(store, tip, j - 1, j); }
    BranchLength(store, tip, j);
    forall m | 0 <= m < j && j - 1 - m <= n ensures ids[m] == Before(origin, canon, n - (j - 1 - m)) {
      BranchReversed(store, tip, j, fork, m);
      AncestorIsCanon(rules, store, origin, canon, tip, j - 1 - m);
    }
  }

  // ---- applying a branch on top of a part of the canonical one --------------------------------------

  lemma {:induction false} CanonBelow(rules: Rules, base: State, origin: Id, canon: seq<Id>, s: State, tip: Id, k: nat)
    requires Canonical(rules, base, origin, canon, s, tip) && k <= |canon|
    ensures Chain(rules, base, canon[..k]).Some?
    ensures var low := Chain(rules, base, canon[..k]).value;
            Rests(low) && Grown(rules, low, canon[k..], s)
  {
    hide Chain, HeaderChain, SameChain, Rests;
    ChainPrefix(rules, base, canon, k);
    ChainRests(rules, base, canon[..k]);
    assert canon[..k] + canon[k..] == canon;
    ChainConcat(rules, base, canon[..k], canon[k..]);
  }

  lemma {:induction false} GrownOnTop(rules: Rules, base: State, low: State, kept: seq<Id>, ids: seq<Id>, s: State)
    requires Chain(rules, base, kept) == Some(low) && Grown(rules, low, ids, s)
    ensures Grown(rules, base, kept + ids, s)
  {
    hide Chain, SameChain;
    ChainConcat(rules, base, kept, ids);
  }

  lemma {:induction false} FailsOnTop(rules: Rules, base: State, low: State, kept: seq<Id>, ids: seq<Id>, k: nat)
    requires Chain(rules, base, kept) == Some(low) && FailsAt(rules, low, ids, k)
    ensures FailsAt(rules, base, kept + ids, |kept| + k)
  {
    hide Chain;
    var all := kept + ids;
    assert all[..|kept| + k] == kept + ids[..k] && all[..|kept| + k + 1] == kept + ids[..k + 1];
    ChainConcat(rules, base, kept, ids[..k]);
    ChainConcat(rules, base, kept, ids[..k + 1]);
  }

  lemma {:induction false} BeforeOnTop(origin: Id, kept: seq<Id>, ids: seq<Id>, m: nat)
    requires m <= |kept + ids|
    ensures Before(origin, kept + ids, m) ==
            if m <= |kept| then Before(origin, kept, m) else Before(Before(origin, kept, |kept|), ids, m - |kept|)
  {
  }

  lemma {:induction false} HeadersOnTop(rules: Rules, store: Store, origin: Id, kept: seq<Id>, ids: seq<Id>)
    requires HeaderChain(rules, origin, kept) && Descends(rules, store, Before(origin, kept, |kept|), ids)
    ensures HeaderChain(rules, origin, kept + ids)
    ensures Before(origin, kept + ids, |kept + ids|) == Before(Before(origin, kept, |kept|), ids, |ids|)
  {
    hide Before;
    var all, tip := kept + ids, Before(origin, kept, |kept|);
    BeforeOnTop(origin, kept, ids, |all|);
    forall m | 0 <= m < |all|
      ensures rules.header(all[m]).parent == Before(origin, all, m)
      ensures rules.header(all[m]).number == rules.header(Before(origin, all, m)).number + 1
    {
      BeforeOnTop(origin, kept, ids, m);
      if m < |kept| {
        assert all[m] == kept[m];
      } else {
        BeforeNothing(tip, ids);
        assert all[m] == ids[m - |kept|] && Before(origin, all, m) == Before(tip, ids, m - |kept|);
      }
    }
    BeforeNothing(tip, ids);
  }

  lemma {:induction false} BeforeNothing(from: Id, ids: seq<Id>)
    ensures Before(from, ids, 0) == from
  {
  }

  lemma {:induction false} HeadersBelow(rules: Rules, origin: Id, canon: seq<Id>, k: nat)
    requires HeaderChain(rules, origin, canon) && k <= |canon|
    ensures HeaderChain(rules, origin, canon[..k])
    ensures Before(origin, canon[..k], k) == Before(origin, canon, k)
  {
    forall m | 0 <= m < k ensures Before(origin, canon[..k], m) == Before(origin, canon, m) {}
  }

  // ---- removing a branch by its headers -----------------------------------------------------------------

  /**
    What is met on going from parent hash to parent hash, each block removed from the store that has it
    before the next one is looked up, until a block is unknown or no linked one is left.
   */
  function HeaderLine(rules: Rules, stored: set<Id>, orphans: set<Id>, id: Id): set<Id>
    decreases |stored| + |orphans|
  {
    if id in stored then
      SmallerWithout(stored, id);
      {id} + if stored == {id} then {} else HeaderLine(rules, stored - {id}, orphans, rules.header(id).parent)
    else if id in orphans then
      SmallerWithout(orphans, id);
      {id} + if stored == {} then {} else HeaderLine(rules, stored, orphans - {id}, rules.header(id).parent)
    else {}
  }

  lemma {:induction false} LineFromStored(rules: Rules, stored: set<Id>, orphans: set<Id>, id: Id)
    requires id in stored
    ensures HeaderLine(rules, stored, orphans, id)
            == {id} + if stored == {id} then {} else HeaderLine(rules, stored - {id}, orphans, rules.header(id).parent)
  {
  }

  lemma {:induction false} LineFromOrphan(rules: Rules, stored: set<Id>, orphans: set<Id>, id: Id)
    requires id !in stored && id in orphans
    ensures HeaderLine(rules, stored, orphans, id)
            == {id} + if stored == {} then {} else HeaderLine(rules, stored, orphans - {id}, rules.header(id).parent)
  {
  }

  lemma {:induction false} LineFromUnknown(rules: Rules, stored: set<Id>, orphans: set<Id>, id: Id)
    requires id !in stored && id !in orphans
    ensures HeaderLine(rules, stored, orphans, id) == {}
  {
  }

  /** One removal, and what is left. */
  lemma {:induction false} LineStep(rules: Rules, store: Store, orphans: set<Id>, id: Id)
    ensures id in store ==>
              var rest := Dropped(store, {id});
              HeaderLine(rules, store.Keys, orphans, id)
              == {id} + if rest == map[] then {} else HeaderLine(rules, rest.Keys, orphans, rules.header(id).parent)
    ensures id !in store && id in orphans ==>
              HeaderLine(rules, store.Keys, orphans, id)
              == {id} + if store == map[] then {} else HeaderLine(rules, store.Keys, orphans - {id}, rules.header(id).parent)
    ensures id !in store && id !in orphans ==> HeaderLine(rules, store.Keys, orphans, id) == {}
  {
    hide HeaderLine, Dropped;
    NoKeys(store);
    if id in store {
      var rest := Dropped(store, {id});
      DroppedKeys(store, {id});
      NoKeys(rest);
      assert store.Keys == {id} <==> rest.Keys == {};
      LineFromStored(rules, store.Keys, orphans, id);
    } else if id in orphans {
      LineFromOrphan(rules, store.Keys, orphans, id);
    } else {
      LineFromUnknown(rules, store.Keys, orphans, id);
    }
  }

  lemma {:induction false} NoKeys(store: Store)
    ensures store == map[] <==> store.Keys == {}
  {
  }

  lemma {:induction false} SmallerWithout(some: set<Id>, id: Id)
    requires id in some
    ensures |some - {id}| < |some|
  {
    assert some == (some - {id}) + {id};
  }

  /** The blocks stated as parents, one after the other. */
  function HeaderAt(rules: Rules, id: Id, k: nat): Id
  {
    if k == 0 then id else rules.header(HeaderAt(rules, id, k - 1)).parent
  }

  lemma {:induction false} HeaderShift(rules: Rules, id: Id, k: nat)
    ensures HeaderAt(rules, id, k + 1) == HeaderAt(rules, rules.header(id).parent, k)
    decreases k
  {
    if k > 0 { HeaderShift(rules, id, k - 1); }
  }

  /** Known blocks lead there by parent hashes. */
  ghost predicate LineageAt(rules: Rules, known: set<Id>, id: Id, x: Id, k: nat)
  {
    HeaderAt(rules, id, k) == x && forall m: nat :: m <= k ==> HeaderAt(rules, id, m) in known
  }

  ghost predicate Lineage(rules: Rules, known: set<Id>, id: Id, x: Id) { exists k: nat :: LineageAt(rules, known, id, x, k) }

  lemma {:induction false} LineageShift(rules: Rules, known: set<Id>, id: Id, x: Id, k: nat)
    requires id in known
    ensures LineageAt(rules, known, id, x, k + 1) <==> LineageAt(rules, known, rules.header(id).parent, x, k)
  {
    hide HeaderAt;
    forall m: nat ensures HeaderAt(rules, id, m + 1) == HeaderAt(rules, rules.header(id).parent, m) { HeaderShift(rules, id, m); }
    assert HeaderAt(rules, id, 0) == id by { HeaderNow(rules, id); }
    forall m: nat | m <= k + 1 && LineageAt(rules, known, rules.header(id).parent, x, k) ensures HeaderAt(rules, id, m) in known {
      if m > 0 { assert HeaderAt(rules, rules.header(id).parent, m - 1) in known; }
    }
    forall m: nat | m <= k && LineageAt(rules, known, id, x, k + 1) ensures HeaderAt(rules, rules.header(id).parent, m) in known {
      assert HeaderAt(rules, id, m + 1) in known;
    }
  }

  lemma {:induction false} HeaderNow(rules: Rules, id: Id)
    ensures HeaderAt(rules, id, 0) == id
  {
  }

  lemma {:induction false} HeaderSum(rules: Rules, id: Id, m: nat, k: nat)
    ensures HeaderAt(rules, HeaderAt(rules, id, m), k) == HeaderAt(rules, id, m + k)
    decreases k
  {
    if k > 0 { HeaderSum(rules, id, m, k - 1); }
  }

  /** A way that comes back to its start can be cut short. */
  lemma {:induction false} LineageAvoids(rules: Rules, known: set<Id>, id: Id, x: Id, k: nat)
    requires LineageAt(rules, known, rules.header(id).parent, x, k) && x != id
    ensures Lineage(rules, known - {id}, rules.header(id).parent, x)
    decreases k
  {
    hide HeaderAt;
    var p := rules.header(id).parent;
    if m: nat :| m <= k && HeaderAt(rules, p, m) == id {
      assert m < k;
      forall i: nat ensures HeaderAt(rules, p, i) == HeaderAt(rules, p, m + 1 + i) {
        HeaderShift(rules, id, i);
        HeaderSum(rules, p, m, i + 1);
      }
      assert LineageAt(rules, known, p, x, k - m - 1);
      LineageAvoids(rules, known, id, x, k - m - 1);
    } else {
      assert LineageAt(rules, known - {id}, p, x, k);
    }
  }

  /** A block's lineage is itself and its parent's without it. */
  lemma {:induction false} LineageStep(rules: Rules, known: set<Id>, id: Id, x: Id)
    requires id in known
    ensures Lineage(rules, known, id, x) <==> x == id || Lineage(rules, known - {id}, rules.header(id).parent, x)
  {
    hide HeaderAt;
    HeaderNow(rules, id);
    var p := rules.header(id).parent;
    if x == id {
      assert LineageAt(rules, known, id, x, 0);
    } else if Lineage(rules, known, id, x) {
      var k: nat :| LineageAt(rules, known, id, x, k);
      LineageShift(rules, known, id, x, k - 1);
      LineageAvoids(rules, known, id, x, k - 1);
    } else if Lineage(rules, known - {id}, p, x) {
      var k: nat :| LineageAt(rules, known - {id}, p, x, k);
      LineageShift(rules, known, id, x, k);
    }
  }

  lemma {:induction false} UnknownHasNoLineage(rules: Rules, known: set<Id>, id: Id, x: Id)
    requires id !in known
    ensures !Lineage(rules, known, id, x)
  {
    HeaderNow(rules, id);
  }

  lemma {:induction false} WithoutOne(a: set<Id>, b: set<Id>, id: Id)
    requires a !! b && id in a
    ensures (a + b) - {id} == (a - {id}) + b && (b + a) - {id} == b + (a - {id}) && a - {id} !! b
  {
  }

  lemma {:induction false} GoesWithLineage(rules: Rules, stored: set<Id>, orphans: set<Id>, id: Id, x: Id)
    requires stored !! orphans && x in stored
    ensures x in HeaderLine(rules, stored, orphans, id) <==> Lineage(rules, stored + orphans, id, x)
    decreases |stored| + |orphans|
  {
    hide Lineage, HeaderLine;
    var known, p := stored + orphans, rules.header(id).parent;
    if id in stored {
      LineageStep(rules, known, id, x);
      LineFromStored(rules, stored, orphans, id);
      if x != id {
        SmallerWithout(stored, id);
        WithoutOne(stored, orphans, id);
        GoesWithLineage(rules, stored - {id}, orphans, p, x);
      }
    } else if id in orphans {
      LineageStep(rules, known, id, x);
      LineFromOrphan(rules, stored, orphans, id);
      SmallerWithout(orphans, id);
      WithoutOne(orphans, stored, id);
      GoesWithLineage(rules, stored, orphans - {id}, p, x);
    } else {
      LineFromUnknown(rules, stored, orphans, id);
      UnknownHasNoLineage(rules, known, id, x);
    }
  }

  /** The linked blocks that go are the linked ones of the lineage, through whatever store it leads. */
  lemma {:induction false} RemovedIsLineage(rules: Rules, stored: set<Id>, orphans: set<Id>, id: Id)
    requires stored !! orphans
    ensures forall x :: x in stored ==> (x in HeaderLine(rules, stored, orphans, id) <==> Lineage(rules, stored + orphans, id, x))
  {
    hide Lineage, HeaderLine;
    forall x | x in stored ensures x in HeaderLine(rules, stored, orphans, id) <==> Lineage(rules, stored + orphans, id, x) {
      GoesWithLineage(rules, stored, orphans, id, x);
    }
  }

  // ---- lineage and ancestry ---------------------------------------------------------------------------------

  ghost predicate IsAncestor(store: Store, id: Id, x: Id) { exists k: nat :: Ancestor(store, id, k) == Some(x) }

  /** A block states a height one above the height its parent states, and so does its parent, as far back as blocks go. */
  ghost predicate HeightsDown(rules: Rules, id: Id, k: nat)
    decreases k
  {
    var p := rules.header(id).parent;
    p == ZERO_HASH || (rules.header(id).number == rules.header(p).number + 1 && (k == 0 || HeightsDown(rules, p, k - 1)))
  }

  ghost predicate Descent(rules: Rules, id: Id) { forall k: nat :: HeightsDown(rules, id, k) }

  /** What is pushed onto a block of such a descent has it too. */
  lemma {:induction false} DescentGrows(rules: Rules, id: Id)
    requires var p := rules.header(id).parent;
             p == ZERO_HASH || (rules.header(id).number == rules.header(p).number + 1 && Descent(rules, p))
    ensures Descent(rules, id)
  {
    forall k: nat ensures HeightsDown(rules, id, k) {
      assert rules.header(id).parent != ZERO_HASH && k > 0 ==> HeightsDown(rules, rules.header(id).parent, k - 1);
    }
  }

  lemma {:induction false} LineageHeight(rules: Rules, known: set<Id>, id: Id, x: Id, k: nat)
    requires HeightsDown(rules, id, k) && LineageAt(rules, known, id, x, k) && ZERO_HASH !in known
    ensures rules.header(x).number == rules.header(id).number - k
    decreases k
  {
    hide HeaderAt;
    HeaderNow(rules, id);
    if k > 0 {
      var p := rules.header(id).parent;
      LineageShift(rules, known, id, x, k - 1);
      HeaderNow(rules, p);
      assert p in known;
      LineageHeight(rules, known, p, x, k - 1);
    }
  }

  /** A block at most one above another, and not on top of it, does not have it in its lineage. */
  lemma {:induction false} NotInLineage(rules: Rules, known: set<Id>, id: Id, tip: Id)
    requires Descent(rules, id) && ZERO_HASH !in known && rules.header(id).parent != tip
    requires rules.header(tip).number < rules.header(id).number
    requires rules.header(id).parent == ZERO_HASH || rules.header(id).number <= rules.header(tip).number + 1
    ensures !Lineage(rules, known, id, tip)
  {
    hide HeaderAt;
    assert HeaderAt(rules, id, 1) == rules.header(id).parent by {
      HeaderShift(rules, id, 0);
      HeaderNow(rules, rules.header(id).parent);
    }
    if Lineage(rules, known, id, tip) {
      var k: nat :| LineageAt(rules, known, id, tip, k);
      LineageHeight(rules, known, id, tip, k);
    }
  }

  lemma {:induction false} AncestorIsHeader(rules: Rules, store: Store, id: Id, k: nat)
    requires Graph(rules, store) && Ancestor(store, id, k).Some?
    ensures Ancestor(store, id, k) == Some(HeaderAt(rules, id, k))
    decreases k
  {
    hide Graph, Ancestor;
    AncestorStarts(store, id, k);
    if k > 0 {
      AncestorIsHeader(rules, store, id, k - 1);
      AncestorLink(rules, store, id, k - 1);
    }
  }

  /** The walk by links, and from where it ends by parent hashes. */
  lemma {:induction false} LineageOf(rules: Rules, store: Store, known: set<Id>, id: Id, k: nat, low: Id, x: Id)
    requires Graph(rules, store) && Ancestor(store, id, k) == Some(low) && Ancestor(store, id, k + 1).None?
    requires store.Keys <= known && rules.header(low).parent !in known
    ensures Lineage(rules, known, id, x) <==> IsAncestor(store, id, x)
  {
    hide Graph, Ancestor, HeaderAt;
    forall m: nat | m <= k ensures Ancestor(store, id, m) == Some(HeaderAt(rules, id, m)) {
      AncestorBefore(store, id, m, k);
      AncestorIsHeader(rules, store, id, m);
    }
    forall m: nat ensures m > k ==> Ancestor(store, id, m).None? {
      if m > k { NoAncestorBeyond(store, id, k + 1, m); }
    }
    assert HeaderAt(rules, id, k + 1) == rules.header(low).parent by { HeaderNext(rules, id, k); }
    if Lineage(rules, known, id, x) {
      var m: nat :| LineageAt(rules, known, id, x, m);
      assert m <= k;
    }
    if IsAncestor(store, id, x) {
      var m: nat :| Ancestor(store, id, m) == Some(x);
      assert LineageAt(rules, known, id, x, m);
    }
  }

  lemma {:induction false} HeaderNext(rules: Rules, id: Id, k: nat)
    ensures HeaderAt(rules, id, k + 1) == rules.header(HeaderAt(rules, id, k)).parent
  {
  }

  /**
    Removing by parent hash removes exactly the ancestors in the graph, if and only if the block at which
    the links end has no retained parent. It may have one that went and came back: the link is still dead.
   */
  lemma {:induction false} RemovedAreAncestorsIff(rules: Rules, store: Store, orphans: set<Id>, id: Id, k: nat, low: Id)
    requires Graph(rules, store) && store.Keys !! orphans
    requires Ancestor(store, id, k) == Some(low) && Ancestor(store, id, k + 1).None?
    requires rules.header(low).parent !in orphans && Descent(rules, low) && ZERO_HASH !in store
    ensures (forall x :: x in store ==> (x in HeaderLine(rules, store.Keys, orphans, id) <==> IsAncestor(store, id, x)))
            <==> rules.header(low).parent !in store
  {
    hide Graph, Ancestor, HeaderLine, Descent, Lineage, IsAncestor;
    var known, p := store.Keys + orphans, rules.header(low).parent;
    RemovedIsLineage(rules, store.Keys, orphans, id);
    if p !in store {
      forall x ensures Lineage(rules, known, id, x) <==> IsAncestor(store, id, x) { LineageOf(rules, store, known, id, k, low, x); }
    } else {
      BelowTheLinks(rules, store, known, id, k, low);
    }
  }

  lemma {:induction false} BelowTheLinks(rules: Rules, store: Store, known: set<Id>, id: Id, k: nat, low: Id)
    requires Graph(rules, store) && store.Keys <= known
    requires Ancestor(store, id, k) == Some(low) && Ancestor(store, id, k + 1).None?
    requires rules.header(low).parent in store && Descent(rules, low) && ZERO_HASH !in store
    ensures Lineage(rules, known, id, rules.header(low).parent) && !IsAncestor(store, id, rules.header(low).parent)
  {
    hide Ancestor, HeaderAt;
    var p := rules.header(low).parent;
    forall m: nat | m <= k ensures HeaderAt(rules, id, m) in store {
      AncestorBefore(store, id, m, k);
      AncestorIsHeader(rules, store, id, m);
    }
    AncestorIsHeader(rules, store, id, k);
    HeaderNext(rules, id, k);
    assert LineageAt(rules, known, id, p, k + 1);
    LinkedGraph(rules, store);
    AncestorHeight(store, id, k);
    assert HeightsDown(rules, low, 0);
    forall m: nat ensures Ancestor(store, id, m) != Some(p) {
      if Ancestor(store, id, m) == Some(p) {
        if m > k { NoAncestorBeyond(store, id, k + 1, m); }
        AncestorHeight(store, id, m);
      }
    }
  }

  /** Without a common ancestor, and with no dead link on the way, none of the other block's ancestors goes. */
  lemma {:induction false} NothingCanonicalRemoved(rules: Rules, store: Store, orphans: set<Id>, newHead: Id, oldHead: Id, k: nat, low: Id)
    requires Graph(rules, store) && store.Keys !! orphans
    requires Ancestor(store, newHead, k) == Some(low) && Ancestor(store, newHead, k + 1).None?
    requires rules.header(low).parent !in store.Keys + orphans
    requires forall a: nat, b: nat :: !CommonAt(store, newHead, oldHead, a, b)
    ensures forall x :: IsAncestor(store, oldHead, x) ==> x !in HeaderLine(rules, store.Keys, orphans, newHead)
  {
    hide Ancestor, Graph, HeaderLine, Lineage;
    RemovedIsLineage(rules, store.Keys, orphans, newHead);
    forall x | IsAncestor(store, oldHead, x) ensures x !in HeaderLine(rules, store.Keys, orphans, newHead) {
      LineageOf(rules, store, store.Keys + orphans, newHead, k, low, x);
      var b: nat :| Ancestor(store, oldHead, b) == Some(x);
      if IsAncestor(store, newHead, x) {
        var a: nat :| Ancestor(store, newHead, a) == Some(x);
        NoCommon(store, newHead, oldHead, a, b);
      }
    }
  }

  lemma {:induction false} NoCommon(store: Store, newHead: Id, oldHead: Id, a: nat, b: nat)
    requires Ancestor(store, newHead, a).Some? && Ancestor(store, newHead, a) == Ancestor(store, oldHead, b)
    ensures CommonAt(store, newHead, oldHead, a, b)
  {
  }

  /** When the old head is no longer retained nothing counts as common, and all of the lineage goes, canonical or not. */
  lemma {:induction false} ForgottenHeadProtectsNothing(rules: Rules, store: Store, orphans: set<Id>, newHead: Id, oldHead: Id)
    requires oldHead !in store && store.Keys !! orphans
    ensures forall a: nat, b: nat :: !CommonAt(store, newHead, oldHead, a, b)
    ensures forall x :: x in store && Lineage(rules, store.Keys + orphans, newHead, x) ==>
              x in HeaderLine(rules, store.Keys, orphans, newHead)
  {
    hide Ancestor, HeaderLine, Lineage;
    RemovedIsLineage(rules, store.Keys, orphans, newHead);
    forall a: nat, b: nat ensures !CommonAt(store, newHead, oldHead, a, b) { UnknownHasNone(store, oldHead, b); }
  }

  lemma {:induction false} UnknownHasNone(store: Store, id: Id, k: nat)
    requires id !in store
    ensures Ancestor(store, id, k).None?
  {
    NoAncestorBeyond(store, id, 0, k);
  }

  /** A root, a canonical block and another one on it, and a block on top of the latter. */
  function Fork(root: Id, tip: Id, side: Id, child: Id): Store
  {
    map[root := Node(0, None), tip := Node(1, Some(Link(root, 0))), side := Node(1, Some(Link(root, 0))),
        child := Node(2, Some(Link(side, 1)))]
  }

  ghost predicate States(rules: Rules, root: Id, tip: Id, side: Id, child: Id)
  {
    && root != tip && root != side && root != child && tip != side && tip != child && side != child
    && rules.header(root).number == 0 && rules.header(tip).number == rules.header(side).number == 1 && rules.header(child).number == 2
    && rules.header(tip).parent == rules.header(side).parent == root && rules.header(child).parent == side
    && root != ZERO_HASH
  }

  /** The graph after the block in between was evicted and came back. */
  function Returned(rules: Rules, root: Id, tip: Id, side: Id, child: Id): Result<Store, KhaosError>
  {
    Push(Dropped(Fork(root, tip, side, child), {side}), true, side, 1, ParentHash(rules, side))
  }

  lemma {:induction false} ForkWithout(root: Id, tip: Id, side: Id, child: Id)
    requires root != tip && root != side && root != child && tip != side && tip != child && side != child
    ensures Dropped(Fork(root, tip, side, child), {side}) == map[root := Node(0, None), tip := Node(1, Some(Link(root, 0))), child := Node(2, None)]
  {
  }

  lemma {:induction false} ReturnedIs(rules: Rules, root: Id, tip: Id, side: Id, child: Id)
    requires States(rules, root, tip, side, child)
    ensures Returned(rules, root, tip, side, child) ==
            Ok(map[root := Node(0, None), tip := Node(1, Some(Link(root, 0))), child := Node(2, None), side := Node(1, Some(Link(root, 0)))])
  {
    hide Dropped, Fork;
    ForkWithout(root, tip, side, child);
    var store: Store := map[root := Node(0, None), tip := Node(1, Some(Link(root, 0))), child := Node(2, None)];
    assert store[side := Node(1, Some(Link(root, 0)))]
        == map[root := Node(0, None), tip := Node(1, Some(Link(root, 0))), child := Node(2, None), side := Node(1, Some(Link(root, 0)))];
  }

  lemma {:induction false} ForkIsGraph(rules: Rules, root: Id, tip: Id, side: Id, child: Id)
    requires States(rules, root, tip, side, child)
    ensures Graph(rules, Fork(root, tip, side, child))
  {
    var store := Fork(root, tip, side, child);
    forall id | id in store
      ensures id == root || id == tip || id == side || id == child
    {
    }
  }

  /**
    Evicting a block and taking it in again leaves its child without a link to it. The child then has
    nothing in common with the canonical block, and removing it by parent hashes takes a canonical one.
   */
  lemma {:induction false} ReturnedParentOpensTheWay(rules: Rules, root: Id, tip: Id, side: Id, child: Id)
    requires States(rules, root, tip, side, child)
    ensures Graph(rules, Fork(root, tip, side, child)) && Returned(rules, root, tip, side, child).Ok?
    ensures var store := Returned(rules, root, tip, side, child).value;
            && (forall a: nat, b: nat :: !CommonAt(store, child, tip, a, b))
            && IsAncestor(store, tip, root) && root in HeaderLine(rules, store.Keys, {}, child)
  {
    hide HeaderLine, Returned, Fork, Graph;
    ForkIsGraph(rules, root, tip, side, child);
    ReturnedIs(rules, root, tip, side, child);
    var store := Returned(rules, root, tip, side, child).value;
    assert Ancestor(store, tip, 0) == Some(tip) && Ancestor(store, tip, 1) == Some(root) && Ancestor(store, tip, 2) == None;
    assert Ancestor(store, child, 0) == Some(child) && Ancestor(store, child, 1) == None;
    forall a: nat, b: nat ensures !CommonAt(store, child, tip, a, b) {
      if a > 0 { NoAncestorBeyond(store, child, 1, a); }
      if b > 1 { NoAncestorBeyond(store, tip, 2, b); }
    }
    RemovedIsLineage(rules, store.Keys, {}, child);
    assert HeaderAt(rules, child, 0) == child && HeaderAt(rules, child, 1) == side && HeaderAt(rules, child, 2) == root;
    assert LineageAt(rules, store.Keys + {}, child, root, 2);
  }
}
