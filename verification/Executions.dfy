/**
  What the state at the end of a branch is, said of the blocks alone: the image that executing them one
  after the other makes of the base, and exactly when that goes through.
 */
module Executions {
  import opened Outcomes
  import opened Sessions
  import opened SessionLaws
  import opened Khaos
  import opened ForkSwitch

  type Wrote = seq<(Key, Overlay)>

  /** An image after some writes, one by one. */
  function After(m: Image, writes: Wrote): Image
    decreases |writes|
  {
    if writes == [] then m
    else
      var n := |writes| - 1;
      var key, before := writes[n].0, After(m, writes[..n]);
      match writes[n].1
      case Put(v) => before[key := v]
      case Delete => before - {key}
  }

  /** The image that the blocks, executed in order, make of an image. */
  function Executed(rules: Rules, m: Image, ids: seq<Id>): Image
    decreases |ids|
  {
    if ids == [] then m
    else
      var n := |ids| - 1;
      var before := Executed(rules, m, ids[..n]);
      After(before, rules.exec(before, ids[n]).writes)
  }

  lemma {:induction false} WritesLaidOver(m: Image, writes: Wrote)
    ensures Over(m, WritesOf(writes)) == After(m, writes)
    decreases |writes|
  {
    if writes == [] {
      OverNothing(m);
    } else {
      var n := |writes| - 1;
      WritesLaidOver(m, writes[..n]);
      OneMoreOver(m, WritesOf(writes[..n]), writes[n].0, writes[n].1);
    }
  }

  lemma {:induction false} OneMoreOver(m: Image, w: Writes, key: Key, value: Overlay)
    ensures Over(m, w[key := value]) == match value case Put(v) => Over(m, w)[key := v] case Delete => Over(m, w) - {key}
  {
    var over := Over(m, w[key := value]);
    match value
    case Put(v) => assert over.Keys == Over(m, w)[key := v].Keys;
    case Delete => assert over.Keys == (Over(m, w) - {key}).Keys;
  }

  /** One more block: the head after it is the head before it with its writes, and the new checkpoint has captured it. */
  lemma {:induction false} AppliedShows(rules: Rules, s: State, id: Id)
    requires Rests(s) && CanApply(rules, s, id)
    ensures var t := Applied(rules, s, id);
            var made := After(Head(s), rules.exec(Head(s), id).writes);
            && Rests(t) && Head(t) == made
            && |t.checkpoints| == |s.checkpoints| + 1 && t.checkpoints[..|s.checkpoints|] == s.checkpoints
            && t.checkpoints[|s.checkpoints|].point == Point(rules.header(id).number, id)
            && t.checkpoints[|s.checkpoints|].view == made
            && t.checkpoints[|s.checkpoints|].parent
               == (if s.checkpoints == [] then None else Some(s.checkpoints[|s.checkpoints| - 1].point.identity))
            && t.enabled == s.enabled && t.root == s.root
  {
    hide WritesOf, Laid, Over, Admitted, FitsStack, After;
    var t := Applied(rules, s, id);
    SettledHeadIsFlat(s);
    var writes := rules.exec(Flat(s.root, s.layers), id).writes;
    var open := Layer(s.nextId, WritesOf(writes), false, false, !s.enabled);
    var closed := open.(committed := true);
    SettledWith(s, t, closed);
    SettledHeadIsFlat(t);
    OneMoreLayer(s.root, s.layers, closed);
    WritesLaidOver(Head(s), writes);
    NothingAbandoned(s.root, s.layers, open);
    OneMoreLayer(s.root, s.layers, open);
  }

  lemma {:induction false} SettledWith(s: State, t: State, l: Layer)
    requires Rests(s) && t.layers == s.layers + [l] && Settled(l) && t.active == s.active
    ensures Rests(t)
  {
  }

  lemma {:induction false} OneMoreLayer(root: Image, layers: seq<Layer>, l: Layer)
    ensures Flat(root, layers + [l]) == Over(Flat(root, layers), l.values)
  {
    hide Over, Laid;
    LaidConcat(root, layers, [l], _ => true);
    FlatOne(Flat(root, layers), l);
  }

  lemma {:induction false} NothingAbandoned(root: Image, layers: seq<Layer>, l: Layer)
    requires AllSettled(layers) && !l.abandoned
    ensures Captured(root, layers + [l]) == Flat(root, layers + [l])
  {
    hide Laid;
    LaidSame(root, layers + [l], (x: Layer) => !x.abandoned, _ => true);
  }

  /** The points of the blocks, behind the checkpoints there were. */
  ghost predicate StacksUp(rules: Rules, checkpoints: seq<Checkpoint>, ids: seq<Id>, n: nat)
    requires n < |ids|
  {
    && rules.header(ids[n]).number >= 0
    && (forall j :: 0 <= j < |checkpoints| ==> checkpoints[j].point.identity != ids[n])
    && (forall j :: 0 <= j < n ==> ids[j] != ids[n])
    && if n > 0 then rules.header(ids[n - 1]).number < rules.header(ids[n]).number
       else checkpoints != [] ==> checkpoints[|checkpoints| - 1].point.block < rules.header(ids[n]).number
  }

  /** A block passes the checks and executes, on the image that those below it make, and its checkpoint stacks up. */
  ghost predicate GoesThrough(rules: Rules, base: State, ids: seq<Id>, n: nat)
    requires n < |ids|
  {
    && Admitted(rules, ids[n])
    && rules.exec(Executed(rules, Head(base), ids[..n]), ids[n]).ok
    && StacksUp(rules, base.checkpoints, ids, n)
  }

  /** The checkpoints behind those of the base are those of the blocks. */
  ghost predicate Checkpoints(rules: Rules, base: State, ids: seq<Id>, s: State)
  {
    && |s.checkpoints| == |base.checkpoints| + |ids|
    && (forall j :: 0 <= j < |base.checkpoints| ==> s.checkpoints[j] == base.checkpoints[j])
    && forall j :: |base.checkpoints| <= j < |s.checkpoints| ==>
         var m := j - |base.checkpoints|;
         s.checkpoints[j].point == Point(Height(rules, ids[m]), ids[m]) && s.checkpoints[j].view == Executed(rules, Head(base), ids[..m + 1])
  }

  function Height(rules: Rules, id: Id): nat { if rules.header(id).number < 0 then 0 else rules.header(id).number }

  lemma {:induction false} FitsMeansStacks(rules: Rules, base: State, ids: seq<Id>, s: State)
    requires ids != [] && Checkpoints(rules, base, ids[..|ids| - 1], s) && rules.header(ids[|ids| - 1]).number >= 0
    requires forall m :: 0 <= m < |ids| - 1 ==> rules.header(ids[m]).number >= 0
    ensures var n := |ids| - 1;
            FitsStack(s.checkpoints, Point(rules.header(ids[n]).number, ids[n])) <==> StacksUp(rules, base.checkpoints, ids, n)
  {
    hide Executed, Head;
    var n, k := |ids| - 1, |base.checkpoints|;
    var low := ids[..n];
    forall j | k <= j < |s.checkpoints| ensures s.checkpoints[j].point == Point(rules.header(ids[j - k]).number, ids[j - k]) {
      assert low[j - k] == ids[j - k];
    }
    if FitsStack(s.checkpoints, Point(rules.header(ids[n]).number, ids[n])) {
      forall j | 0 <= j < n ensures ids[j] != ids[n] { assert s.checkpoints[k + j].point.identity == ids[j]; }
    }
  }

  lemma {:induction false} ChainStep(rules: Rules, base: State, ids: seq<Id>)
    requires ids != []
    ensures Chain(rules, base, ids) ==
            match Chain(rules, base, ids[..|ids| - 1])
            case None => None
            case Some(s) => if CanApply(rules, s, ids[|ids| - 1]) then Some(Applied(rules, s, ids[|ids| - 1])) else None
  {
    hide CanApply, Applied;
  }

  /** One block further. */
  lemma {:induction false} NextCheckpoints(rules: Rules, base: State, ids: seq<Id>, s: State)
    requires ids != [] && Checkpoints(rules, base, ids[..|ids| - 1], s) && Rests(s)
    requires Head(s) == Executed(rules, Head(base), ids[..|ids| - 1]) && CanApply(rules, s, ids[|ids| - 1])
    ensures var t := Applied(rules, s, ids[|ids| - 1]);
            Checkpoints(rules, base, ids, t) && Rests(t) && Head(t) == Executed(rules, Head(base), ids)
  {
    hide Applied, Admitted, FitsStack, Head, After, Checkpoints;
    var n := |ids| - 1;
    AppliedShows(rules, s, ids[n]);
    assert ids[..n + 1] == ids;
    CheckpointsGrow(rules, base, ids, s, Applied(rules, s, ids[n]));
  }

  lemma {:induction false} CheckpointsGrow(rules: Rules, base: State, ids: seq<Id>, s: State, t: State)
    requires ids != [] && Checkpoints(rules, base, ids[..|ids| - 1], s)
    requires |t.checkpoints| == |s.checkpoints| + 1 && t.checkpoints[..|s.checkpoints|] == s.checkpoints
    requires rules.header(ids[|ids| - 1]).number >= 0
    requires t.checkpoints[|s.checkpoints|].point == Point(rules.header(ids[|ids| - 1]).number, ids[|ids| - 1])
    requires t.checkpoints[|s.checkpoints|].view == Executed(rules, Head(base), ids)
    ensures Checkpoints(rules, base, ids, t)
  {
    hide Head, Executed;
    var n, k := |ids| - 1, |base.checkpoints|;
    var low := ids[..n];
    assert ids[..n + 1] == ids && |s.checkpoints| == k + n;
    forall j | 0 <= j < |s.checkpoints| ensures t.checkpoints[j] == s.checkpoints[j] {
      assert t.checkpoints[j] == t.checkpoints[..|s.checkpoints|][j];
    }
    forall j | k <= j < |t.checkpoints|
      ensures var m := j - k;
              && t.checkpoints[j].point == Point(Height(rules, ids[m]), ids[m])
              && t.checkpoints[j].view == Executed(rules, Head(base), ids[..m + 1])
    {
      var m := j - k;
      if j < |s.checkpoints| { assert t.checkpoints[j] == s.checkpoints[j] && low[m] == ids[m] && low[..m + 1] == ids[..m + 1]; }
    }
  }

  lemma {:induction false} NothingExecuted(rules: Rules, base: State)
    ensures Chain(rules, base, []) == Some(base) && Executed(rules, Head(base), []) == Head(base) && Checkpoints(rules, base, [], base)
  {
  }

  lemma {:induction false} NeverNegative(rules: Rules, base: State, ids: seq<Id>)
    requires Chain(rules, base, ids).Some?
    ensures forall m :: 0 <= m < |ids| ==> rules.header(ids[m]).number >= 0
    decreases |ids|
  {
    hide Applied, Admitted, FitsStack, Flat;
    if ids != [] {
      var n := |ids| - 1;
      ChainStep(rules, base, ids);
      NeverNegative(rules, base, ids[..n]);
      assert forall m :: 0 <= m < n ==> ids[..n][m] == ids[m];
    }
  }

  /**
    The state a branch makes of a base at rest: its head is what executing the blocks in order makes of
    the base's head, and every block's checkpoint has captured what it was after that block.
   */
  lemma {:induction false} ChainIsExecuted(rules: Rules, base: State, ids: seq<Id>)
    requires Rests(base) && Chain(rules, base, ids).Some?
    ensures var s := Chain(rules, base, ids).value;
            Rests(s) && Head(s) == Executed(rules, Head(base), ids) && Checkpoints(rules, base, ids, s)
    decreases |ids|
  {
    hide Chain, CanApply, Applied, Checkpoints, Executed, Head;
    if ids == [] {
      NothingExecuted(rules, base);
    } else {
      ChainStep(rules, base, ids);
      ChainIsExecuted(rules, base, ids[..|ids| - 1]);
      NextCheckpoints(rules, base, ids, Chain(rules, base, ids[..|ids| - 1]).value);
    }
  }

  /** A branch can be applied to a base at rest if and only if every block of it goes through. */
  lemma {:induction false} ChainExistsIff(rules: Rules, base: State, ids: seq<Id>)
    requires Rests(base)
    ensures Chain(rules, base, ids).Some? <==> forall m :: 0 <= m < |ids| ==> GoesThrough(rules, base, ids, m)
    decreases |ids|
  {
    hide Chain, CanApply, Applied, Checkpoints, Executed, Head, GoesThrough;
    if ids == [] {
      NothingExecuted(rules, base);
    } else {
      var n := |ids| - 1;
      ChainStep(rules, base, ids);
      ChainExistsIff(rules, base, ids[..n]);
      forall m | 0 <= m < n ensures GoesThrough(rules, base, ids[..n], m) <==> GoesThrough(rules, base, ids, m) {
        GoesThroughBelow(rules, base, ids, m);
      }
      if Chain(rules, base, ids[..n]).Some? { LastGoesThrough(rules, base, ids); }
    }
  }

  lemma {:induction false} GoesThroughBelow(rules: Rules, base: State, ids: seq<Id>, m: nat)
    requires m < |ids| - 1
    ensures GoesThrough(rules, base, ids[..|ids| - 1], m) <==> GoesThrough(rules, base, ids, m)
  {
    hide Executed, Head, Admitted;
    var low := ids[..|ids| - 1];
    assert low[..m] == ids[..m] && forall j :: 0 <= j <= m ==> low[j] == ids[j];
  }

  lemma {:induction false} LastGoesThrough(rules: Rules, base: State, ids: seq<Id>)
    requires Rests(base) && ids != [] && Chain(rules, base, ids[..|ids| - 1]).Some?
    ensures CanApply(rules, Chain(rules, base, ids[..|ids| - 1]).value, ids[|ids| - 1]) <==> GoesThrough(rules, base, ids, |ids| - 1)
  {
    hide Chain, Applied, Checkpoints, Executed, Head, Admitted, FitsStack, StacksUp, Flat;
    var n := |ids| - 1;
    var s := Chain(rules, base, ids[..n]).value;
    ChainIsExecuted(rules, base, ids[..n]);
    SettledHeadIsFlat(s);
    NeverNegative(rules, base, ids[..n]);
    assert forall m :: 0 <= m < n ==> ids[..n][m] == ids[m];
    if rules.header(ids[n]).number >= 0 { FitsMeansStacks(rules, base, ids, s); } else { NoHeight(rules, base, ids); }
  }

  lemma {:induction false} NoHeight(rules: Rules, base: State, ids: seq<Id>)
    requires ids != [] && rules.header(ids[|ids| - 1]).number < 0
    ensures !StacksUp(rules, base.checkpoints, ids, |ids| - 1)
  {
  }

  /**
    In a branch that was applied, every block is of a supported version and within its limits, was exact,
    signed and scheduled, is no further ahead of the clock than it may be, and later than its parent.
   */
  lemma {:induction false} AppliedWereAdmitted(rules: Rules, base: State, ids: seq<Id>, m: nat)
    requires Rests(base) && Chain(rules, base, ids).Some? && m < |ids|
    ensures var h, l := rules.header(ids[m]), rules.limits;
            && h.bytes <= l.maxBytes && h.transactions <= l.maxTransactions && h.shielded <= l.maxShielded
            && l.minVersion <= h.version <= l.maxVersion
            && rules.exact(ids[m]) && rules.signed(ids[m]) && rules.scheduled(ids[m])
            && h.timestamp - h.receivedAt <= l.maxFuture && h.receivedAt + l.maxFuture <= 0x7fff_ffff_ffff_ffff
            && rules.header(h.parent).timestamp < h.timestamp
  {
    hide Chain, Executed, Head, StacksUp;
    ChainExistsIff(rules, base, ids);
    assert GoesThrough(rules, base, ids, m);
  }

  /** Along a branch times and heights rise. */
  lemma {:induction false} TimesRise(rules: Rules, base: State, origin: Id, ids: seq<Id>, i: nat, j: nat)
    requires Rests(base) && Chain(rules, base, ids).Some? && i < j < |ids|
    requires forall m :: 0 <= m < |ids| ==> rules.header(ids[m]).parent == Before(origin, ids, m)
    ensures rules.header(ids[i]).timestamp < rules.header(ids[j]).timestamp
    ensures rules.header(ids[i]).number < rules.header(ids[j]).number && ids[i] != ids[j]
    decreases j
  {
    hide Chain, Executed, Head;
    AppliedWereAdmitted(rules, base, ids, j);
    ChainExistsIff(rules, base, ids);
    assert GoesThrough(rules, base, ids, j);
    assert rules.header(ids[j]).parent == ids[j - 1];
    if i < j - 1 { TimesRise(rules, base, origin, ids, i, j - 1); }
  }
}
