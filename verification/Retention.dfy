/**
  Which blocks are kept: the order they came in, the highest of them, and what is given up when
  another one needs room or the head has moved on.
 */
module Retention {
  import opened Outcomes
  import opened Khaos
  import opened ForkSwitch

  datatype Bounds = Bounds(entries: nat, bytes: nat)

  /** What a block takes, how much each of the two stores may hold, and how far below the head blocks are kept. */
  datatype Keeping = Keeping(size: Id -> nat, linked: Bounds, unlinked: Bounds, capacity: int)

  function Members(ids: seq<Id>): set<Id> { set x | x in ids }

  ghost predicate Distinct(ids: seq<Id>) { forall i, j :: 0 <= i < j < |ids| ==> ids[i] != ids[j] }

  lemma {:induction false} DistinctMore(ids: seq<Id>, id: Id)
    requires Distinct(ids) && id !in ids
    ensures Distinct(ids + [id])
  {
  }

  /** The blocks of the graph, each once, in the order they came in. */
  ghost predicate Lists(order: seq<Id>, store: Store)
  {
    Distinct(order) && forall x :: x in order <==> x in store
  }

  lemma {:induction false} ListsSize(order: seq<Id>, store: Store)
    requires Lists(order, store)
    ensures |order| == |store|
  {
    DistinctSize(order);
    assert Members(order) == store.Keys && |store.Keys| == |store|;
  }

  lemma {:induction false} DistinctSize(ids: seq<Id>)
    requires Distinct(ids)
    ensures |Members(ids)| == |ids|
    decreases |ids|
  {
    if ids != [] {
      var n := |ids| - 1;
      DistinctSize(ids[..n]);
      assert Members(ids) == Members(ids[..n]) + {ids[n]};
    }
  }

  /** Those that are kept, in the same order. */
  function Retained(order: seq<Id>, kept: set<Id>): seq<Id>
    decreases |order|
  {
    if order == [] then []
    else
      var n := |order| - 1;
      Retained(order[..n], kept) + if order[n] in kept then [order[n]] else []
  }

  lemma {:induction false} RetainedHas(order: seq<Id>, kept: set<Id>, x: Id)
    ensures x in Retained(order, kept) <==> x in order && x in kept
    decreases |order|
  {
    if order != [] {
      var n := |order| - 1;
      RetainedHas(order[..n], kept, x);
      assert order == order[..n] + [order[n]];
    }
  }

  lemma {:induction false} RetainedMembers(order: seq<Id>, kept: set<Id>)
    ensures Members(Retained(order, kept)) == Members(order) * kept
    ensures forall x :: x in Retained(order, kept) <==> x in order && x in kept
  {
    hide Retained;
    forall x ensures x in Retained(order, kept) <==> x in order && x in kept { RetainedHas(order, kept, x); }
  }

  lemma {:induction false} RetainedAppend(order: seq<Id>, id: Id, kept: set<Id>)
    ensures Retained(order + [id], kept) == Retained(order, kept) + if id in kept then [id] else []
  {
    assert (order + [id])[..|order|] == order;
  }

  lemma {:induction false} RetainedTwice(order: seq<Id>, some: set<Id>, fewer: set<Id>)
    requires fewer <= some
    ensures Retained(Retained(order, some), fewer) == Retained(order, fewer)
    decreases |order|
  {
    if order != [] {
      var n := |order| - 1;
      RetainedTwice(order[..n], some, fewer);
      var front := Retained(order[..n], some);
      if order[n] in some {
        RetainedAppend(front, order[n], fewer);
      } else {
        assert Retained(order, some) == front && Retained(order, fewer) == Retained(order[..n], fewer);
      }
    }
  }

  lemma {:induction false} RetainedAll(order: seq<Id>, kept: set<Id>)
    requires Members(order) <= kept
    ensures Retained(order, kept) == order
    decreases |order|
  {
    if order != [] {
      var n := |order| - 1;
      assert order[n] in Members(order);
      assert Members(order[..n]) <= Members(order);
      RetainedAll(order[..n], kept);
      assert order == order[..n] + [order[n]];
    }
  }

  lemma {:induction false} RetainedDistinct(order: seq<Id>, kept: set<Id>)
    requires Distinct(order)
    ensures Distinct(Retained(order, kept))
    decreases |order|
  {
    if order != [] {
      var n := |order| - 1;
      RetainedDistinct(order[..n], kept);
      RetainedHas(order[..n], kept, order[n]);
      if order[n] in kept { DistinctMore(Retained(order[..n], kept), order[n]); }
    }
  }

  lemma {:induction false} ListsWithin(order: seq<Id>, store: Store, rest: Store)
    requires Lists(order, store) && rest.Keys <= store.Keys
    ensures Lists(Retained(order, rest.Keys), rest)
  {
    hide Retained;
    RetainedDistinct(order, rest.Keys);
    RetainedMembers(order, rest.Keys);
  }

  // ---- the highest block ----------------------------------------------------------------------------

  /** The first of the highest blocks. */
  ghost predicate Leads(store: Store, order: seq<Id>, id: Id)
  {
    exists i: nat :: LeadsAt(store, order, id, i)
  }

  ghost predicate LeadsAt(store: Store, order: seq<Id>, id: Id, i: nat)
  {
    && i < |order| && order[i] == id && id in store
    && forall j :: 0 <= j < |order| ==>
         && order[j] in store
         && store[order[j]].number <= store[id].number
         && (j < i ==> store[order[j]].number < store[id].number)
  }

  /** `highest_first`: the greatest height there is, and the first block that has it. */
  method HighestFirst(store: Store, order: seq<Id>) returns (id: Id)
    requires Lists(order, store) && store != map[]
    ensures Leads(store, order, id)
  {
    assert exists x :: x in store;
    assert order != [];
    var highest := store[order[0]].number;
    var k := 1;
    while k < |order|
      invariant 1 <= k <= |order|
      invariant forall j :: 0 <= j < k ==> store[order[j]].number <= highest
      invariant exists j :: 0 <= j < k && store[order[j]].number == highest
    {
      if store[order[k]].number > highest {
        highest := store[order[k]].number;
      }
      k := k + 1;
    }
    var i := 0;
    while store[order[i]].number != highest
      invariant 0 <= i < |order|
      invariant forall j :: 0 <= j < i ==> store[order[j]].number < highest
      invariant exists j :: i <= j < |order| && store[order[j]].number == highest
      decreases |order| - i
    {
      i := i + 1;
    }
    id := order[i];
    assert LeadsAt(store, order, id, i);
  }

  lemma {:induction false} LeaderIsUnique(store: Store, order: seq<Id>, a: Id, b: Id)
    requires Leads(store, order, a) && Leads(store, order, b)
    ensures a == b
  {
    var i: nat :| LeadsAt(store, order, a, i);
    var j: nat :| LeadsAt(store, order, b, j);
    assert order[i] == a && order[j] == b;
  }

  lemma {:induction false} LeaderIsHighest(store: Store, order: seq<Id>, id: Id)
    requires Lists(order, store) && Leads(store, order, id)
    ensures id in store && forall x :: x in store ==> store[x].number <= store[id].number
  {
    forall x | x in store ensures store[x].number <= store[id].number { assert x in order; }
  }

  /** As long as it is kept, a leader stays the leader, whatever else goes. */
  lemma {:induction false} LeaderStays(store: Store, order: seq<Id>, rest: Store, id: Id)
    requires Leads(store, order, id) && id in rest && rest.Keys <= store.Keys
    requires forall x :: x in rest ==> rest[x].number == store[x].number
    ensures Leads(rest, Retained(order, rest.Keys), id)
  {
    var i: nat :| LeadsAt(store, order, id, i);
    var kept := rest.Keys;
    var front := Retained(order[..i], kept);
    assert order[..i + 1] == order[..i] + [id];
    RetainedAppend(order[..i], id, kept);
    RetainedPrefix(order, i + 1, kept);
    RetainedMembers(order, kept);
    RetainedMembers(order[..i], kept);
    var all := Retained(order, kept);
    assert all[|front|] == id;
    forall j | 0 <= j < |all|
      ensures all[j] in rest && rest[all[j]].number <= rest[id].number
      ensures j < |front| ==> rest[all[j]].number < rest[id].number
    {
      assert all[j] in order;
      if j < |front| { assert all[j] == front[j] && front[j] in order[..i]; }
    }
    assert LeadsAt(rest, all, id, |front|);
  }

  lemma {:induction false} RetainedPrefix(order: seq<Id>, k: nat, kept: set<Id>)
    requires k <= |order|
    ensures Retained(order[..k], kept) <= Retained(order, kept)
    decreases |order|
  {
    if k < |order| {
      RetainedPrefix(order[..|order| - 1], k, kept);
      assert order[..|order| - 1][..k] == order[..k];
    } else {
      assert order[..k] == order;
    }
  }

  /** A new block leads exactly when it is higher than what led so far. */
  lemma {:induction false} LeaderAfter(store: Store, order: seq<Id>, tip: Id, id: Id, node: Node)
    requires Lists(order, store) && Leads(store, order, tip) && id !in store
    ensures node.number > store[tip].number ==> Leads(store[id := node], order + [id], id)
    ensures node.number <= store[tip].number ==> Leads(store[id := node], order + [id], tip)
  {
    var i: nat :| LeadsAt(store, order, tip, i);
    if node.number > store[tip].number {
      assert LeadsAt(store[id := node], order + [id], id, |order|);
    } else {
      assert LeadsAt(store[id := node], order + [id], tip, i);
    }
  }

  // ---- making room ----------------------------------------------------------------------------------

  function Total(size: Id -> nat, ids: seq<Id>): nat
  {
    if ids == [] then 0 else size(ids[0]) + Total(size, ids[1..])
  }

  /** There is room for one more block of this size. */
  predicate Fits(b: Bounds, entries: int, bytes: int, incoming: nat)
  {
    entries < b.entries && bytes + incoming <= b.bytes
  }

  /** Oldest first, and passing over the pinned block, blocks are given up until the new one fits. */
  function GivenUp(size: Id -> nat, b: Bounds, ids: seq<Id>, entries: int, bytes: int, incoming: nat, pinned: Option<Id>): Option<seq<Id>>
    decreases |ids|
  {
    if Fits(b, entries, bytes, incoming) then Some([])
    else if ids == [] then None
    else if pinned == Some(ids[0]) then GivenUp(size, b, ids[1..], entries, bytes, incoming, pinned)
    else
      match GivenUp(size, b, ids[1..], entries - 1, bytes - size(ids[0]), incoming, pinned)
      case None => None
      case Some(more) => Some([ids[0]] + more)
  }

  function Victims(size: Id -> nat, b: Bounds, order: seq<Id>, incoming: nat, pinned: Option<Id>): Option<seq<Id>>
  {
    if b.entries == 0 || incoming > b.bytes then None
    else GivenUp(size, b, order, |order|, Total(size, order), incoming, pinned)
  }

  /** `check_resource_limit`: whether there will be room. */
  method CheckRoom(size: Id -> nat, b: Bounds, order: seq<Id>, incoming: nat, pinned: Option<Id>) returns (ok: bool)
    ensures ok <==> Victims(size, b, order, incoming, pinned).Some?
  {
    if b.entries == 0 || incoming > b.bytes {
      return false;
    }
    var entries, bytes: int, k := |order|, Total(size, order), 0;
    assert order[0..] == order;
    while k < |order|
      invariant 0 <= k <= |order|
      invariant Victims(size, b, order, incoming, pinned).Some? <==>
                GivenUp(size, b, order[k..], entries, bytes, incoming, pinned).Some?
    {
      if Fits(b, entries, bytes, incoming) {
        return true;
      }
      assert order[k..][0] == order[k] && order[k..][1..] == order[k + 1..];
      if pinned != Some(order[k]) {
        entries, bytes := entries - 1, bytes - size(order[k]);
      }
      k := k + 1;
    }
    return Fits(b, entries, bytes, incoming);
  }

  /** `evict_for_resource_limit`: which blocks are given up. */
  method MakeRoom(size: Id -> nat, b: Bounds, order: seq<Id>, incoming: nat, pinned: Option<Id>) returns (r: Option<seq<Id>>)
    ensures r == Victims(size, b, order, incoming, pinned)
  {
    var ok := CheckRoom(size, b, order, incoming, pinned);
    if !ok {
      return None;
    }
    var entries, bytes: int, k := |order|, Total(size, order), 0;
    var victims: seq<Id> := [];
    ghost var more := GivenUp(size, b, order, entries, bytes, incoming, pinned).value;
    assert order[0..] == order && victims + more == more;
    while k < |order| && !Fits(b, entries, bytes, incoming)
      invariant 0 <= k <= |order|
      invariant GivenUp(size, b, order[k..], entries, bytes, incoming, pinned) == Some(more)
      invariant Victims(size, b, order, incoming, pinned) == Some(victims + more)
    {
      assert order[k..][0] == order[k] && order[k..][1..] == order[k + 1..];
      if pinned != Some(order[k]) {
        assert more[0] == order[k] && victims + more == (victims + [order[k]]) + more[1..];
        entries, bytes, victims := entries - 1, bytes - size(order[k]), victims + [order[k]];
        more := more[1..];
      }
      k := k + 1;
    }
    assert more == [] && victims + more == victims;
    return Some(victims);
  }

  /** The blocks that may be given up, oldest first. */
  function Loose(ids: seq<Id>, pinned: Option<Id>): seq<Id>
  {
    if ids == [] then []
    else (if pinned == Some(ids[0]) then [] else [ids[0]]) + Loose(ids[1..], pinned)
  }

  /** When the first k of these are given up, those left and the new one keep both bounds. */
  predicate FitsWithout(size: Id -> nat, b: Bounds, loose: seq<Id>, k: nat, entries: int, bytes: int, incoming: nat)
    requires k <= |loose|
  {
    entries - k + 1 <= b.entries && bytes - Total(size, loose[..k]) + incoming <= b.bytes
  }

  /** The first of them go, no more than have to, or all of them are too few. */
  ghost predicate Fewest(size: Id -> nat, b: Bounds, loose: seq<Id>, entries: int, bytes: int, incoming: nat, r: Option<seq<Id>>)
  {
    match r
    case Some(v) =>
      && v <= loose && FitsWithout(size, b, loose, |v|, entries, bytes, incoming)
      && (forall k: nat :: k < |v| ==> !FitsWithout(size, b, loose, k, entries, bytes, incoming))
    case None => forall k: nat :: k <= |loose| ==> !FitsWithout(size, b, loose, k, entries, bytes, incoming)
  }

  /** Of the blocks that are not pinned, oldest first, the fewest that make room are given up. */
  lemma {:induction false} FewestOldestGo(size: Id -> nat, b: Bounds, ids: seq<Id>, entries: int, bytes: int, incoming: nat, pinned: Option<Id>)
    ensures Fewest(size, b, Loose(ids, pinned), entries, bytes, incoming, GivenUp(size, b, ids, entries, bytes, incoming, pinned))
    decreases |ids|
  {
    hide Fewest, Total;
    if Fits(b, entries, bytes, incoming) {
      FewestIsNone(size, b, Loose(ids, pinned), entries, bytes, incoming);
    } else if ids == [] {
      FewestOfNone(size, b, entries, bytes, incoming);
    } else if pinned == Some(ids[0]) {
      FewestOldestGo(size, b, ids[1..], entries, bytes, incoming, pinned);
      assert Loose(ids, pinned) == Loose(ids[1..], pinned);
    } else {
      FewestOldestGo(size, b, ids[1..], entries - 1, bytes - size(ids[0]), incoming, pinned);
      FewestOneMore(size, b, ids[0], Loose(ids[1..], pinned), entries, bytes, incoming,
                    GivenUp(size, b, ids[1..], entries - 1, bytes - size(ids[0]), incoming, pinned));
    }
  }

  lemma {:induction false} FewestIsNone(size: Id -> nat, b: Bounds, loose: seq<Id>, entries: int, bytes: int, incoming: nat)
    requires Fits(b, entries, bytes, incoming)
    ensures Fewest(size, b, loose, entries, bytes, incoming, Some([]))
  {
    assert loose[..0] == [];
  }

  lemma {:induction false} FewestOfNone(size: Id -> nat, b: Bounds, entries: int, bytes: int, incoming: nat)
    requires !Fits(b, entries, bytes, incoming)
    ensures Fewest(size, b, [], entries, bytes, incoming, None)
  {
    var none: seq<Id> := [];
    assert none[..0] == [];
  }

  lemma {:induction false} FewestOneMore(size: Id -> nat, b: Bounds, id: Id, rest: seq<Id>, entries: int, bytes: int, incoming: nat, r: Option<seq<Id>>)
    requires !Fits(b, entries, bytes, incoming)
    requires Fewest(size, b, rest, entries - 1, bytes - size(id), incoming, r)
    ensures Fewest(size, b, [id] + rest, entries, bytes, incoming, match r case None => None case Some(v) => Some([id] + v))
  {
    var loose := [id] + rest;
    forall k: nat | k <= |loose|
      ensures FitsWithout(size, b, loose, k, entries, bytes, incoming) <==>
              k > 0 && FitsWithout(size, b, rest, k - 1, entries - 1, bytes - size(id), incoming)
    {
      OneMore(size, b, id, rest, k, entries, bytes, incoming);
    }
  }

  lemma {:induction false} OneMore(size: Id -> nat, b: Bounds, id: Id, rest: seq<Id>, k: nat, entries: int, bytes: int, incoming: nat)
    requires !Fits(b, entries, bytes, incoming) && k <= |rest| + 1
    ensures FitsWithout(size, b, [id] + rest, k, entries, bytes, incoming) <==>
            k > 0 && FitsWithout(size, b, rest, k - 1, entries - 1, bytes - size(id), incoming)
  {
    var loose := [id] + rest;
    if k == 0 {
      assert loose[..0] == [];
    } else {
      assert loose[..k] == [id] + rest[..k - 1];
      assert loose[..k][1..] == rest[..k - 1];
    }
  }

  lemma {:induction false} LooseMembers(ids: seq<Id>, pinned: Option<Id>)
    ensures forall x :: x in Loose(ids, pinned) <==> x in ids && pinned != Some(x)
  {
    if ids != [] { LooseMembers(ids[1..], pinned); }
  }

  /** What is given up was kept so far, and is not the pinned block. */
  lemma {:induction false} VictimsAreLoose(size: Id -> nat, b: Bounds, order: seq<Id>, incoming: nat, pinned: Option<Id>)
    requires Victims(size, b, order, incoming, pinned).Some?
    ensures forall x :: x in Victims(size, b, order, incoming, pinned).value ==> x in order && pinned != Some(x)
  {
    FewestOldestGo(size, b, order, |order|, Total(size, order), incoming, pinned);
    LooseMembers(order, pinned);
  }

  /** A block is refused exactly when it does not fit beside the block it must not displace. */
  lemma {:induction false} RefusedIff(size: Id -> nat, b: Bounds, order: seq<Id>, incoming: nat, pinned: Option<Id>)
    requires Distinct(order)
    ensures var stays := if pinned.Some? && pinned.value in order then [pinned.value] else [];
            Victims(size, b, order, incoming, pinned).None? <==> |stays| + 1 > b.entries || Total(size, stays) + incoming > b.bytes
  {
    var all, loose := Total(size, order), Loose(order, pinned);
    var stays := if pinned.Some? && pinned.value in order then [pinned.value] else [];
    FewestOldestGo(size, b, order, |order|, all, incoming, pinned);
    LooseSize(size, order, pinned);
    assert loose[..|loose|] == loose;
    assert FitsWithout(size, b, loose, |loose|, |order|, all, incoming) <==> Fits(b, |stays|, Total(size, stays), incoming);
    var r := GivenUp(size, b, order, |order|, all, incoming, pinned);
    if r.Some? {
      TotalGrows(size, loose, |r.value|);
      FitsFewer(b, |order| - |r.value|, all - Total(size, loose[..|r.value|]), |order| - |loose|, all - Total(size, loose), incoming);
    }
    if b.entries == 0 || incoming > b.bytes { RoomAtAll(b, |stays|, Total(size, stays), incoming); }
  }

  lemma {:induction false} RoomAtAll(b: Bounds, entries: nat, bytes: nat, incoming: nat)
    requires b.entries == 0 || incoming > b.bytes
    ensures !Fits(b, entries, bytes, incoming)
  {
  }

  lemma {:induction false} FitsFewer(b: Bounds, entries: int, bytes: int, fewer: int, less: int, incoming: nat)
    requires Fits(b, entries, bytes, incoming) && fewer <= entries && less <= bytes
    ensures Fits(b, fewer, less, incoming)
  {
  }

  lemma {:induction false} TotalGrows(size: Id -> nat, ids: seq<Id>, k: nat)
    requires k <= |ids|
    ensures Total(size, ids[..k]) <= Total(size, ids)
  {
    if k > 0 {
      TotalGrows(size, ids[1..], k - 1);
      assert ids[..k][1..] == ids[1..][..k - 1];
    }
  }

  lemma {:induction false} LooseSize(size: Id -> nat, ids: seq<Id>, pinned: Option<Id>)
    requires Distinct(ids)
    ensures var stays := if pinned.Some? && pinned.value in ids then [pinned.value] else [];
            |Loose(ids, pinned)| + |stays| == |ids|
            && Total(size, Loose(ids, pinned)) + Total(size, stays) == Total(size, ids)
  {
    if ids != [] {
      var rest := Loose(ids[1..], pinned);
      LooseSize(size, ids[1..], pinned);
      TotalOne(size, ids[0]);
      if pinned == Some(ids[0]) {
        assert ids[0] !in ids[1..] by {
          forall j | 0 <= j < |ids[1..]| ensures ids[1..][j] != ids[0] { assert ids[1..][j] == ids[j + 1]; }
        }
        assert Loose(ids, pinned) == rest;
      } else {
        assert Loose(ids, pinned) == [ids[0]] + rest && ([ids[0]] + rest)[1..] == rest;
        assert forall x :: x in ids[1..] ==> x in ids;
      }
    }
  }

  lemma {:induction false} TotalOne(size: Id -> nat, id: Id)
    ensures Total(size, [id]) == size(id) && Total(size, []) == 0
  {
    assert [id][1..] == [];
  }

  /** No block but the parent is spared: with room for two, the older goes even if it is the canonical tip. */
  lemma {:induction false} TipMayGo(size: Id -> nat, tip: Id, other: Id, id: Id)
    requires tip != other
    ensures var b := Bounds(2, size(tip) + size(other) + size(id));
            Victims(size, b, [tip, other], size(id), Some(other)) == Some([tip])
  {
    var b, ids := Bounds(2, size(tip) + size(other) + size(id)), [tip, other];
    assert ids[1..] == [other];
    TotalOne(size, other);
    assert GivenUp(size, b, [other], 1, size(other), size(id), Some(other)) == Some([]);
    assert Victims(size, b, ids, size(id), Some(other)) == Some([tip] + []);
    assert [tip] + [] == [tip];
  }

  // ---- placing a block ------------------------------------------------------------------------------

  const MAX_HEIGHT: int := 0x7fff_ffff_ffff_ffff

  /** Blocks below this height are no longer kept. */
  function Cutoff(headNumber: int, capacity: int): int
  {
    if headNumber - capacity > MAX_HEIGHT then MAX_HEIGHT
    else if headNumber - capacity < 0 then 0 else headNumber - capacity
  }

  function Expired(store: Store, cutoff: int): set<Id> { set x | x in store && store[x].number < cutoff }

  /** The graph after a block was pushed, with what goes for it. */
  function Placed(rules: Rules, keeping: Keeping, store: Store, order: seq<Id>, headNumber: int, id: Id): Result<Store, KhaosError>
  {
    match Push(store, true, id, rules.header(id).number, ParentHash(rules, id))
    case Err(error) => Err(error)
    case Ok(grown) =>
      match Victims(keeping.size, keeping.linked, order, keeping.size(id), ParentHash(rules, id))
      case None => Err(ResourceLimit)
      case Some(victims) =>
        Ok(Dropped(grown, Members(victims) + Expired(grown, Cutoff(headNumber, keeping.capacity))))
  }

  /** The blocks waiting for their parents after one more was put among them. */
  function Waiting(rules: Rules, keeping: Keeping, orphans: seq<Id>, headNumber: int, id: Id): Option<seq<Id>>
  {
    match Victims(keeping.size, keeping.unlinked, orphans, keeping.size(id), None)
    case None => None
    case Some(victims) =>
      var cutoff := Cutoff(headNumber, keeping.capacity);
      Some(Retained(orphans + [id], set x | x in orphans + [id] && x !in victims && rules.header(x).number >= cutoff))
  }

  lemma {:induction false} PlacedKeepsGraph(rules: Rules, keeping: Keeping, store: Store, order: seq<Id>, headNumber: int, id: Id)
    requires Graph(rules, store) && Placed(rules, keeping, store, order, headNumber, id).Ok?
    ensures Graph(rules, Placed(rules, keeping, store, order, headNumber, id).value)
  {
    hide Graph, Push, Dropped, Victims;
    PushKeepsGraph(rules, store, true, id);
    var grown := Push(store, true, id, rules.header(id).number, ParentHash(rules, id)).value;
    var victims := Victims(keeping.size, keeping.linked, order, keeping.size(id), ParentHash(rules, id)).value;
    DropKeepsGraph(rules, grown, Members(victims) + Expired(grown, Cutoff(headNumber, keeping.capacity)));
  }

  lemma {:induction false} PlacedWithin(rules: Rules, keeping: Keeping, store: Store, order: seq<Id>, headNumber: int, id: Id)
    requires Placed(rules, keeping, store, order, headNumber, id).Ok?
    ensures Push(store, true, id, rules.header(id).number, ParentHash(rules, id)).Ok?
    ensures var placed := Placed(rules, keeping, store, order, headNumber, id).value;
            var grown := Push(store, true, id, rules.header(id).number, ParentHash(rules, id)).value;
            && id in grown && grown == store[id := grown[id]] && grown[id].number == rules.header(id).number
            && placed.Keys <= grown.Keys
            && forall x :: x in placed ==> placed[x].number == grown[x].number
  {
    hide Victims, Expired;
  }

  /** A new block above the head is never given up itself while blocks below the head are. */
  lemma {:induction false} NewBlockIsKept(rules: Rules, keeping: Keeping, store: Store, order: seq<Id>, headNumber: int, id: Id)
    requires Lists(order, store) && id !in store && Placed(rules, keeping, store, order, headNumber, id).Ok?
    requires keeping.capacity >= 0 && rules.header(id).number > headNumber && rules.header(id).number >= 0
    ensures id in Placed(rules, keeping, store, order, headNumber, id).value
  {
    hide Victims;
    VictimsAreLoose(keeping.size, keeping.linked, order, keeping.size(id), ParentHash(rules, id));
  }

  /** What is in the graph afterwards was there or is the new block; and what leads. */
  lemma {:induction false} PlacedLeads(rules: Rules, keeping: Keeping, store: Store, order: seq<Id>, headNumber: int, id: Id, tip: Id)
    requires Lists(order, store) && id !in store && Placed(rules, keeping, store, order, headNumber, id).Ok?
    ensures var placed := Placed(rules, keeping, store, order, headNumber, id).value;
            && placed.Keys <= store.Keys + {id}
            && Lists(Retained(order + [id], placed.Keys), placed)
            && (forall x :: x in placed ==> placed[x].number == if x == id then rules.header(id).number else store[x].number)
            && (Leads(store, order, tip) && rules.header(id).number <= store[tip].number && tip in placed ==>
                  Leads(placed, Retained(order + [id], placed.Keys), tip))
            && (Leads(store, order, tip) && rules.header(id).number > store[tip].number && id in placed ==>
                  Leads(placed, Retained(order + [id], placed.Keys), id))
  {
    hide Leads, Placed, Lists, Push;
    PlacedWithin(rules, keeping, store, order, headNumber, id);
    var placed := Placed(rules, keeping, store, order, headNumber, id).value;
    var grown := Push(store, true, id, rules.header(id).number, ParentHash(rules, id)).value;
    var node := grown[id];
    ListsMore(order, store, id, node);
    ListsWithin(order + [id], store[id := node], placed);
    if Leads(store, order, tip) {
      LeaderIsHighest(store, order, tip);
      LeaderAfter(store, order, tip, id, node);
      var leader := if rules.header(id).number > store[tip].number then id else tip;
      if leader in placed { LeaderStays(store[id := node], order + [id], placed, leader); }
    }
  }

  lemma {:induction false} ListsMore(order: seq<Id>, store: Store, id: Id, node: Node)
    requires Lists(order, store) && id !in store
    ensures Lists(order + [id], store[id := node])
  {
  }

  // ---- which blocks stay -------------------------------------------------------------------------------

  /**
    What a push does to the blocks of the graph, told by heights: those no deeper below the head than the
    capacity stay with their links, unless they were given up for room or their parent was; deeper ones,
    and none else, go; and the new block is linked to its parent.
   */
  ghost predicate KeepsTheYoung(rules: Rules, store: Store, givenUp: set<Id>, headNumber: int, capacity: int, id: Id, after: Store)
  {
    && (forall x :: x in store && x !in givenUp && store[x].number >= headNumber - capacity && store[x].number >= 0 ==>
          && x in after && after[x].number == store[x].number
          && (store[x].parent.Some? && store[x].parent.value.id in after ==> after[x].parent == store[x].parent))
    && (forall x :: x in after ==> (x in store && x !in givenUp) || x == id)
    && (forall x :: x in after && after[x].number < MAX_HEIGHT ==> after[x].number >= headNumber - capacity && after[x].number >= 0)
    && (rules.header(id).number >= headNumber - capacity && rules.header(id).number >= 0 ==> id in after)
    && (id in after ==>
          && after[id].number == rules.header(id).number
          && (ParentHash(rules, id).Some? && ParentHash(rules, id).value in after ==>
                after[id].parent == Some(Link(ParentHash(rules, id).value, rules.header(id).number - 1))))
  }

  lemma {:induction false} PushKeepsTheYoung(rules: Rules, keeping: Keeping, store: Store, order: seq<Id>, headNumber: int, id: Id)
    requires Lists(order, store) && id !in store && Placed(rules, keeping, store, order, headNumber, id).Ok?
    requires Graph(rules, store)
    ensures Victims(keeping.size, keeping.linked, order, keeping.size(id), ParentHash(rules, id)).Some?
    ensures KeepsTheYoung(rules, store, Members(Victims(keeping.size, keeping.linked, order, keeping.size(id), ParentHash(rules, id)).value),
                          headNumber, keeping.capacity, id, Placed(rules, keeping, store, order, headNumber, id).value)
  {
    hide Victims, Lists, Linked;
    VictimsAreLoose(keeping.size, keeping.linked, order, keeping.size(id), ParentHash(rules, id));
    IdNotListed(order, store, id);
  }

  lemma {:induction false} IdNotListed(order: seq<Id>, store: Store, id: Id)
    requires Lists(order, store)
    ensures id in order <==> id in store
  {
  }

  predicate YoungEnough(rules: Rules, keeping: Keeping, headNumber: int, id: Id)
  {
    rules.header(id).number >= headNumber - keeping.capacity && rules.header(id).number >= 0
  }

  /** The same for the blocks that wait for their parents. */
  lemma {:induction false} WaitingKeepsTheYoung(rules: Rules, keeping: Keeping, orphans: seq<Id>, headNumber: int, id: Id)
    requires Waiting(rules, keeping, orphans, headNumber, id).Some?
    ensures Victims(keeping.size, keeping.unlinked, orphans, keeping.size(id), None).Some?
    ensures var after, givenUp := Waiting(rules, keeping, orphans, headNumber, id).value,
                                  Victims(keeping.size, keeping.unlinked, orphans, keeping.size(id), None).value;
            && (forall x :: x in after ==> (x in orphans || x == id) && x !in givenUp)
            && (forall x :: (x in orphans || x == id) && x !in givenUp && YoungEnough(rules, keeping, headNumber, x) ==> x in after)
            && (forall x :: x in after && rules.header(x).number < MAX_HEIGHT ==> YoungEnough(rules, keeping, headNumber, x))
  {
    hide Victims;
    var victims := Victims(keeping.size, keeping.unlinked, orphans, keeping.size(id), None).value;
    var cutoff := Cutoff(headNumber, keeping.capacity);
    RetainedMembers(orphans + [id], set x | x in orphans + [id] && x !in victims && rules.header(x).number >= cutoff);
  }

  // ---- and that they fit --------------------------------------------------------------------------------

  lemma {:induction false} TotalConcat(size: Id -> nat, a: seq<Id>, b: seq<Id>)
    ensures Total(size, a + b) == Total(size, a) + Total(size, b)
  {
    if a == [] {
      assert a + b == b;
    } else {
      assert (a + b)[1..] == a[1..] + b;
      TotalConcat(size, a[1..], b);
    }
  }

  /** Different blocks out of a list take no more than the list. */
  lemma {:induction false} TotalSubset(size: Id -> nat, a: seq<Id>, b: seq<Id>)
    requires Distinct(a) && forall x :: x in a ==> x in b
    ensures |a| <= |b| && Total(size, a) <= Total(size, b)
    decreases |a|
  {
    if a != [] {
      assert a[0] in a;
      var i :| 0 <= i < |b| && b[i] == a[0];
      var rest := b[..i] + b[i + 1..];
      assert b == b[..i] + ([b[i]] + b[i + 1..]);
      TotalConcat(size, b[..i], [b[i]] + b[i + 1..]);
      TotalConcat(size, [b[i]], b[i + 1..]);
      TotalConcat(size, b[..i], b[i + 1..]);
      TotalOne(size, b[i]);
      forall x | x in a[1..] ensures x in rest {
        var j :| 0 <= j < |a[1..]| && a[1..][j] == x;
        assert a[j + 1] == x && x != a[0] && x in a && x in b;
        var k :| 0 <= k < |b| && b[k] == x;
        if k < i { assert b[..i][k] == x; } else { assert b[i + 1..][k - i - 1] == x; }
      }
      TotalSubset(size, a[1..], rest);
    }
  }

  lemma {:induction false} LooseDistinct(ids: seq<Id>, pinned: Option<Id>)
    requires Distinct(ids)
    ensures Distinct(Loose(ids, pinned))
  {
    if ids != [] {
      LooseDistinct(ids[1..], pinned);
      LooseMembers(ids[1..], pinned);
      forall j | 0 <= j < |ids[1..]| ensures ids[1..][j] != ids[0] { assert ids[1..][j] == ids[j + 1]; }
      var rest := Loose(ids[1..], pinned);
      assert ids[0] !in rest;
      forall i, j | 0 <= i < j < |[ids[0]] + rest| ensures ([ids[0]] + rest)[i] != ([ids[0]] + rest)[j] {
        if i == 0 { assert rest[j - 1] in rest; }
      }
    }
  }

  /** Whoever stays beside the new block, apart from those given up, fits with it. */
  lemma {:induction false} RoomWasMade(size: Id -> nat, b: Bounds, order: seq<Id>, incoming: nat, pinned: Option<Id>, kept: seq<Id>)
    requires Distinct(order) && Distinct(kept) && Victims(size, b, order, incoming, pinned).Some?
    requires forall x :: x in kept ==> x in order && x !in Victims(size, b, order, incoming, pinned).value
    ensures |kept| + 1 <= b.entries && Total(size, kept) + incoming <= b.bytes
  {
    hide GivenUp, Loose, Total;
    var v, loose := Victims(size, b, order, incoming, pinned).value, Loose(order, pinned);
    FewestOldestGo(size, b, order, |order|, Total(size, order), incoming, pinned);
    LooseDistinct(order, pinned);
    LooseMembers(order, pinned);
    assert loose[..|v|] == v && forall i :: 0 <= i < |v| ==> v[i] == loose[i];
    forall i, j | 0 <= i < j < |kept + v| ensures (kept + v)[i] != (kept + v)[j] {
      if i < |kept| <= j { assert kept[i] in kept && v[j - |kept|] in v; }
    }
    forall x | x in kept + v ensures x in order {
      if x in v { assert x in loose by { var i :| 0 <= i < |v| && v[i] == x; assert loose[i] == x; } }
    }
    TotalSubset(size, kept + v, order);
    TotalConcat(size, kept, v);
  }

  /** After a push the graph is within its bounds. */
  lemma {:induction false} PushFits(rules: Rules, keeping: Keeping, store: Store, order: seq<Id>, headNumber: int, id: Id)
    requires Lists(order, store) && id !in store && Placed(rules, keeping, store, order, headNumber, id).Ok?
    ensures var after := Retained(order + [id], Placed(rules, keeping, store, order, headNumber, id).value.Keys);
            |after| <= keeping.linked.entries && Total(keeping.size, after) <= keeping.linked.bytes
  {
    hide Victims, Total, Retained;
    var placed := Placed(rules, keeping, store, order, headNumber, id).value;
    var victims := Victims(keeping.size, keeping.linked, order, keeping.size(id), ParentHash(rules, id)).value;
    var kept := Retained(order, placed.Keys);
    RetainedAppend(order, id, placed.Keys);
    RetainedDistinct(order, placed.Keys);
    RetainedMembers(order, placed.Keys);
    RoomWasMade(keeping.size, keeping.linked, order, keeping.size(id), ParentHash(rules, id), kept);
    TotalConcat(keeping.size, kept, [id]);
    TotalOne(keeping.size, id);
    assert kept + [] == kept;
  }

  /** And so are those that wait. */
  lemma {:induction false} WaitingFits(rules: Rules, keeping: Keeping, orphans: seq<Id>, headNumber: int, id: Id)
    requires Distinct(orphans) && id !in orphans && Waiting(rules, keeping, orphans, headNumber, id).Some?
    ensures var after := Waiting(rules, keeping, orphans, headNumber, id).value;
            Distinct(after) && |after| <= keeping.unlinked.entries && Total(keeping.size, after) <= keeping.unlinked.bytes
  {
    hide Victims, Total, Retained, Cutoff;
    var victims := Victims(keeping.size, keeping.unlinked, orphans, keeping.size(id), None).value;
    var cutoff := Cutoff(headNumber, keeping.capacity);
    var stay := set x | x in orphans + [id] && x !in victims && rules.header(x).number >= cutoff;
    var kept := Retained(orphans, stay);
    RetainedAppend(orphans, id, stay);
    RetainedDistinct(orphans, stay);
    RetainedMembers(orphans, stay);
    RoomWasMade(keeping.size, keeping.unlinked, orphans, keeping.size(id), None, kept);
    TotalConcat(keeping.size, kept, [id]);
    TotalOne(keeping.size, id);
    DistinctMore(kept, id);
    assert kept + [] == kept;
  }

  /** A block is taken in exactly when its parent is there, one lower, and it fits beside it. */
  lemma {:induction false} PlacedIff(rules: Rules, keeping: Keeping, store: Store, order: seq<Id>, headNumber: int, id: Id)
    requires Lists(order, store)
    ensures Placed(rules, keeping, store, order, headNumber, id).Ok? <==> TakesIn(rules, keeping, store, id)
  {
    hide Victims, Total;
    var parent := ParentHash(rules, id);
    RefusedIff(keeping.size, keeping.linked, order, keeping.size(id), parent);
    if parent.Some? { IdNotListed(order, store, parent.value); }
  }

  ghost predicate TakesIn(rules: Rules, keeping: Keeping, store: Store, id: Id)
  {
    var parent := ParentHash(rules, id);
    var stays := if parent.Some? then [parent.value] else [];
    && (parent.Some? ==> parent.value in store && rules.header(id).number == store[parent.value].number + 1)
    && |stays| + 1 <= keeping.linked.entries && Total(keeping.size, stays) + keeping.size(id) <= keeping.linked.bytes
  }
}
