/** What the comparison guarantees about any two documents. */
module DifferenceLaws {
  import opened Outcomes
  import opened Sorting
  import opened Text
  import opened Json
  import opened Pointer
  import opened Differences

  // ---- the steps compared are those of either side, once each, in ascending order ---------------

  lemma {:induction false} KeyOrderIsTotal()
    ensures TotalPreorder(KeyOrder())
  {
    var le := KeyOrder();
    forall x, y ensures le(x, y) || le(y, x) { LexTotal(Codes(x), Codes(y)); }
    forall x, y, z | le(x, y) && le(y, z) ensures le(x, z) { LexTransitive(Codes(x), Codes(y), Codes(z)); }
  }

  lemma {:induction false} NotInElements(keys: seq<string>, other: seq<string>)
    ensures forall k :: k in NotIn(keys, other) <==> k in keys && k !in other
    ensures Distinct(keys) ==> Distinct(NotIn(keys, other))
  {
    if keys != [] {
      NotInElements(keys[1..], other);
      assert keys == [keys[0]] + keys[1..];
      assert Distinct(keys) ==> Distinct(keys[1..]) && keys[0] !in keys[1..];
    }
  }

  lemma {:induction false} HasKey(v: Json, k: string)
    requires v.Obj?
    ensures Has(v, Key(k)) <==> k in Keys(v.fields)
  {
    if k in Keys(v.fields) {
      var i :| 0 <= i < |v.fields| && Keys(v.fields)[i] == k;
      assert StepAt(v, i) == Key(k);
    }
    if Has(v, Key(k)) {
      assert Keys(v.fields)[Position(v, Key(k)).value] == k;
    }
  }

  lemma {:induction false} HasIndex(v: Json, i: nat)
    requires v.Arr?
    ensures Has(v, Index(i)) <==> i < |v.items|
  {
    if i < |v.items| { assert StepAt(v, i) == Index(i); }
  }

  lemma {:induction false} SortedUnionElements(left: seq<string>, right: seq<string>)
    ensures forall k :: k in SortedUnion(left, right) <==> k in left || k in right
    ensures Distinct(left) && Distinct(right) ==> Distinct(SortedUnion(left, right))
    ensures SortedBy(SortedUnion(left, right), KeyOrder())
  {
    var all := left + NotIn(right, left);
    NotInElements(right, left);
    KeyOrderIsTotal();
    SortSorts(all, KeyOrder());
    SameElements(all, SortedUnion(left, right));
    if Distinct(left) && Distinct(right) {
      var more := NotIn(right, left);
      forall i, j | 0 <= i < j < |all| ensures all[i] != all[j] {
        if i < |left| <= j { assert all[j] == more[j - |left|] && all[j] in more; }
      }
      PermutationDistinct(all, SortedUnion(left, right));
    }
  }

  lemma {:induction false} KeysDistinct(v: Json)
    requires WellFormed(v) && v.Obj?
    ensures Distinct(Keys(v.fields))
  {
    forall i, j | 0 <= i < j < |v.fields| ensures Keys(v.fields)[i] != Keys(v.fields)[j] {
      assert StepAt(v, i) != StepAt(v, j);
    }
  }

  /** Ascending order of steps: code points for keys, numbers for indices. */
  ghost predicate StepBefore(s: Step, t: Step)
  {
    match (s, t)
    case (Key(a), Key(b)) => LexLess(Codes(a), Codes(b))
    case (Index(i), Index(j)) => i < j
    case _ => false
  }

  lemma {:induction false} MergedElements(l: Json, r: Json, step: Step)
    requires SameType(l, r) && !Leaf(l)
    ensures step in Merged(l, r) <==> Has(l, step) || Has(r, step)
  {
    var steps := Merged(l, r);
    if l.Obj? {
      var keys := SortedUnion(Keys(l.fields), Keys(r.fields));
      SortedUnionElements(Keys(l.fields), Keys(r.fields));
      match step
      case Index(_) =>
      case Key(k) =>
        HasKey(l, k);
        HasKey(r, k);
        if k in keys {
          var i :| 0 <= i < |keys| && keys[i] == k;
          assert steps[i] == step;
        }
    } else {
      match step
      case Key(_) =>
      case Index(i) =>
        HasIndex(l, i);
        HasIndex(r, i);
        if i < |steps| { assert steps[i] == step; }
    }
  }

  lemma {:induction false} MergedAscending(l: Json, r: Json)
    requires WellFormed(l) && WellFormed(r)
    requires SameType(l, r) && !Leaf(l)
    ensures forall i, j :: 0 <= i < j < |Merged(l, r)| ==> StepBefore(Merged(l, r)[i], Merged(l, r)[j])
    ensures Distinct(Merged(l, r))
  {
    if l.Obj? {
      var keys := SortedUnion(Keys(l.fields), Keys(r.fields));
      KeysDistinct(l);
      KeysDistinct(r);
      SortedUnionElements(Keys(l.fields), Keys(r.fields));
      forall i, j | 0 <= i < j < |keys| ensures LexLess(Codes(keys[i]), Codes(keys[j])) {
        assert KeyOrder()(keys[i], keys[j]);
        if Codes(keys[i]) == Codes(keys[j]) { CodesInjective(keys[i], keys[j]); }
      }
    }
  }

  // ---- no difference means equal -----------------------------------------------------------------

  lemma {:induction false} NoAbsentRows(e: Entry, steps: seq<Step>)
    requires forall s :: s in steps ==> Has(e.left, s) || Has(e.right, s)
    ensures AbsentRows(e, steps) == [] <==> forall s :: s in steps ==> Common(e, s)
  {
    if steps != [] {
      NoAbsentRows(e, steps[1..]);
      assert steps == [steps[0]] + steps[1..];
    }
  }

  lemma {:induction false} NoCommonRows(e: Entry, steps: seq<Step>)
    ensures CommonRows(e, steps) == [] <==>
            forall s :: s in steps && Common(e, s) ==> Diff(ChildEntry(e, s)) == []
  {
    hide Diff, ChildEntry, Common;
    if steps != [] {
      NoCommonRows(e, steps[1..]);
      assert steps == [steps[0]] + steps[1..];
    }
  }

  /** The comparison reports nothing exactly when the documents are structurally equal. */
  lemma {:induction false} NoDifferenceMeansEqual(e: Entry)
    requires WellFormed(e.left) && WellFormed(e.right)
    ensures Diff(e) == [] <==> StructEq(e.left, e.right)
    decreases e.left
  {
    if Expands(e) {
      var l, r := e.left, e.right;
      var steps := Merged(l, r);
      forall s ensures s in steps <==> Has(l, s) || Has(r, s) { MergedElements(l, r, s); }
      NoAbsentRows(e, steps);
      NoCommonRows(e, steps);
      forall s | Common(e, s) ensures Diff(ChildEntry(e, s)) == [] <==> StructEq(Child(l, s), Child(r, s)) {
        NoDifferenceMeansEqual(ChildEntry(e, s));
      }
      NoDifferenceAtContainer(e, steps);
    }
  }

  lemma {:induction false} NoDifferenceAtContainer(e: Entry, steps: seq<Step>)
    requires Expands(e) && steps == Merged(e.left, e.right)
    requires WellFormed(e.left) && WellFormed(e.right)
    requires forall s :: s in steps <==> Has(e.left, s) || Has(e.right, s)
    requires AbsentRows(e, steps) == [] <==> forall s :: s in steps ==> Common(e, s)
    requires CommonRows(e, steps) == [] <==> forall s :: s in steps && Common(e, s) ==> Diff(ChildEntry(e, s)) == []
    requires forall s :: Common(e, s) ==> (Diff(ChildEntry(e, s)) == [] <==> StructEq(Child(e.left, s), Child(e.right, s)))
    ensures Diff(e) == [] <==> StructEq(e.left, e.right)
  {
    hide Merged, ChildEntry, AbsentRows, CommonRows;
    var l, r := e.left, e.right;
    forall i | 0 <= i < Arity(l) ensures Has(l, StepAt(l, i)) && Child(l, StepAt(l, i)) == ChildAt(l, i) {
      PositionOfStep(l, i);
    }
    forall i | 0 <= i < Arity(r) ensures Has(r, StepAt(r, i)) { PositionOfStep(r, i); }
    if Diff(e) == [] {
      forall i | 0 <= i < Arity(l)
        ensures Has(r, StepAt(l, i)) && StructEq(ChildAt(l, i), Child(r, StepAt(l, i)))
      {
        assert StepAt(l, i) in steps;
        assert Common(e, StepAt(l, i));
      }
      forall i | 0 <= i < Arity(r) ensures Has(l, StepAt(r, i)) {
        assert StepAt(r, i) in steps;
        assert Common(e, StepAt(r, i));
      }
    }
    if StructEq(l, r) {
      forall s | s in steps ensures Common(e, s) && Diff(ChildEntry(e, s)) == [] {
        assert Has(l, s) by {
          if Has(r, s) { assert StepAt(r, Position(r, s).value) == s; }
        }
        var i := Position(l, s).value;
        assert StepAt(l, i) == s && StructEq(ChildAt(l, i), Child(r, s));
      }
      assert AbsentRows(e, steps) == [] && CommonRows(e, steps) == [];
    }
  }

  // ---- the stack stays below the size of either document ------------------------------------------

  function Total(steps: seq<Step>, w: Step -> nat): nat
  {
    if steps == [] then 0 else w(steps[0]) + Total(steps[1..], w)
  }

  lemma {:induction false} TotalConcat(a: seq<Step>, b: seq<Step>, w: Step -> nat)
    ensures Total(a + b, w) == Total(a, w) + Total(b, w)
  {
    if a == [] {
      assert a + b == b;
    } else {
      assert (a + b)[1..] == a[1..] + b;
      TotalConcat(a[1..], b, w);
    }
  }

  /** Distinct steps taken from a list weigh no more than the list. */
  lemma {:induction false} TotalOfSome(some: seq<Step>, all: seq<Step>, w: Step -> nat)
    requires Distinct(some) && forall s :: s in some ==> s in all
    ensures Total(some, w) <= Total(all, w)
    decreases |some|
  {
    if some != [] {
      var s := some[0];
      assert s in some;
      var i :| 0 <= i < |all| && all[i] == s;
      var rest := all[..i] + all[i + 1..];
      assert all == all[..i] + ([s] + all[i + 1..]);
      TotalConcat(all[..i], [s] + all[i + 1..], w);
      TotalConcat([s], all[i + 1..], w);
      TotalConcat(all[..i], all[i + 1..], w);
      assert Total([s], w) == w(s);
      forall t | t in some[1..] ensures t in rest {
        var j :| 0 <= j < |some[1..]| && some[1..][j] == t;
        assert some[j + 1] == t && t != s && t in all;
        var k :| 0 <= k < |all| && all[k] == t;
        if k < i { assert all[..i][k] == t; } else { assert all[i + 1..][k - i - 1] == t; }
      }
      TotalOfSome(some[1..], rest, w);
    }
  }

  function NodesBelow(v: Json): Step -> nat { s => if Has(v, s) then Nodes(Child(v, s)) else 0 }

  function StepsFrom(v: Json, i: nat): seq<Step>
    requires i <= Arity(v)
    decreases Arity(v) - i
  {
    if i == Arity(v) then [] else [StepAt(v, i)] + StepsFrom(v, i + 1)
  }

  lemma {:induction false} StepsFromElements(v: Json, i: nat, s: Step)
    requires i <= Arity(v)
    ensures s in StepsFrom(v, i) <==> exists j :: i <= j < Arity(v) && StepAt(v, j) == s
    decreases Arity(v) - i
  {
    hide StepAt;
    if i < Arity(v) {
      StepsFromElements(v, i + 1, s);
      var rest := StepsFrom(v, i + 1);
      assert s in StepsFrom(v, i) <==> s == StepAt(v, i) || s in rest;
    }
  }

  lemma {:induction false} NodesAreTotal(v: Json, i: nat)
    requires WellFormed(v) && i <= Arity(v)
    ensures NodesFrom(v, i) == Total(StepsFrom(v, i), NodesBelow(v))
    decreases Arity(v) - i
  {
    if i < Arity(v) {
      NodesAreTotal(v, i + 1);
      PositionOfStep(v, i);
    }
  }

  /** Keeps the steps common to both sides. */
  function CommonSteps(e: Entry, steps: seq<Step>): seq<Step>
  {
    if steps == [] then []
    else (if Common(e, steps[0]) then [steps[0]] else []) + CommonSteps(e, steps[1..])
  }

  lemma {:induction false} CommonStepsElements(e: Entry, steps: seq<Step>)
    ensures forall s :: s in CommonSteps(e, steps) <==> s in steps && Common(e, s)
    ensures Distinct(steps) ==> Distinct(CommonSteps(e, steps))
    ensures |CommonSteps(e, steps)| == |Pushes(e, steps)|
  {
    hide Common, ChildEntry;
    if steps != [] {
      CommonStepsElements(e, steps[1..]);
      assert steps == [steps[0]] + steps[1..];
      assert Distinct(steps) ==> Distinct(steps[1..]) && steps[0] !in steps[1..];
    }
  }

  lemma {:induction false} TotalAtLeastLength(steps: seq<Step>, w: Step -> nat)
    requires forall s :: s in steps ==> w(s) >= 1
    ensures Total(steps, w) >= |steps|
  {
    if steps != [] { TotalAtLeastLength(steps[1..], w); }
  }

  lemma {:induction false} PeakOverAtMost(e: Entry, steps: seq<Step>, w: Step -> nat)
    requires forall s :: s in steps && Common(e, s) ==> Peak(ChildEntry(e, s)) <= w(s)
    ensures PeakOver(e, steps) <= Total(CommonSteps(e, steps), w)
  {
    hide Common, ChildEntry;
    if steps != [] {
      PeakOverAtMost(e, steps[1..], w);
      if Common(e, steps[0]) {
        var rest := CommonSteps(e, steps[1..]);
        CommonStepsElements(e, steps[1..]);
        forall s | s in rest ensures w(s) >= 1 { assert s in steps; }
        TotalAtLeastLength(rest, w);
        assert CommonSteps(e, steps)[1..] == rest;
      } else {
        assert CommonSteps(e, steps) == CommonSteps(e, steps[1..]);
      }
    }
  }

  lemma {:induction false} CommonTotalBelow(e: Entry, v: Json)
    requires WellFormed(e.left) && WellFormed(e.right) && Expands(e)
    requires v == e.left || v == e.right
    ensures Total(CommonSteps(e, Merged(e.left, e.right)), NodesBelow(v)) < Nodes(v)
  {
    var steps := Merged(e.left, e.right);
    MergedAscending(e.left, e.right);
    CommonStepsElements(e, steps);
    var common := CommonSteps(e, steps);
    forall s | s in common ensures s in StepsFrom(v, 0) {
      StepsFromElements(v, 0, s);
      assert StepAt(v, Position(v, s).value) == s;
    }
    TotalOfSome(common, StepsFrom(v, 0), NodesBelow(v));
    NodesAreTotal(v, 0);
  }

  lemma {:induction false} WellFormedChild(v: Json, s: Step)
    requires WellFormed(v) && Has(v, s)
    ensures WellFormed(Child(v, s))
  {
  }

  /** However the documents branch, the stack never outgrows either of them. */
  lemma {:induction false} PeakBelowNodes(e: Entry)
    requires WellFormed(e.left) && WellFormed(e.right)
    ensures Peak(e) <= Nodes(e.left) && Peak(e) <= Nodes(e.right)
    decreases e.left
  {
    if Expands(e) {
      var l, r, steps := e.left, e.right, Merged(e.left, e.right);
      forall s | s in steps && Common(e, s)
        ensures Peak(ChildEntry(e, s)) <= NodesBelow(l)(s) && Peak(ChildEntry(e, s)) <= NodesBelow(r)(s)
      {
        WellFormedChild(l, s);
        WellFormedChild(r, s);
        PeakBelowNodes(ChildEntry(e, s));
      }
      PeakOverAtMost(e, steps, NodesBelow(l));
      PeakOverAtMost(e, steps, NodesBelow(r));
      CommonTotalBelow(e, l);
      CommonTotalBelow(e, r);
    }
  }

  // ---- every row points at a real difference -------------------------------------------------------

  function OrNull(v: Option<Json>): Json
  {
    match v case Some(x) => x case None => Null
  }

  /**
    The row names the place it was found at and the value each side holds there, null for a side
    without that place; and the sides do differ there.
   */
  ghost predicate Locates(row: Row, base: string, l: Json, r: Json)
  {
    && Below(base, row.pointer)
    && var x, y := Walk(l, Tail(base, row.pointer)), Walk(r, Tail(base, row.pointer));
       && row.left == OrNull(x) && row.right == OrNull(y)
       && (x.Some? || y.Some?)
       && !(x.Some? && y.Some? && StructEq(x.value, y.value))
  }

  lemma {:induction false} SelectByStep(v: Json, step: Step)
    requires WellFormed(v) && !Leaf(v) && step.Key? == v.Obj?
    ensures Select(v, StepText(step)) == Position(v, step)
  {
    match step
    case Key(k) => UnescapeEscape(k);
    case Index(i) =>
      HasIndex(v, i);
      UnescapePlain(Decimal(i));
      ParseIntOfDecimal(i);
  }

  lemma {:induction false} StepOfAbsentRow(e: Entry, steps: seq<Step>, row: Row) returns (s: Step)
    requires row in AbsentRows(e, steps)
    ensures s in steps && AbsentRow(e, s) == [row]
  {
    if row in AbsentRow(e, steps[0]) {
      s := steps[0];
    } else {
      s := StepOfAbsentRow(e, steps[1..], row);
    }
  }

  lemma {:induction false} StepOfCommonRow(e: Entry, steps: seq<Step>, row: Row) returns (s: Step)
    requires row in CommonRows(e, steps)
    ensures s in steps && Common(e, s) && row in Diff(ChildEntry(e, s))
    decreases |steps|
  {
    hide Diff, Common, ChildEntry;
    if Common(e, steps[0]) && row in Diff(ChildEntry(e, steps[0])) {
      s := steps[0];
    } else {
      s := StepOfCommonRow(e, steps[1..], row);
    }
  }

  lemma {:induction false} MergedKinds(l: Json, r: Json, s: Step)
    requires SameType(l, r) && !Leaf(l) && s in Merged(l, r)
    ensures s.Key? == l.Obj?
  {
  }

  lemma {:induction false} SelfBelow(p: string)
    ensures Below(p, p) && Tail(p, p) == []
  {
    assert p[|p|..] == "";
  }

  /** One step down on one side, in terms of pointer text. */
  lemma {:induction false} WalkStep(v: Json, base: string, s: Step, p: string)
    requires WellFormed(v) && !Leaf(v) && s.Key? == v.Obj?
    requires Below(Extend(base, s), p)
    ensures Below(base, p)
    ensures Walk(v, Tail(base, p)) == if Has(v, s) then Walk(Child(v, s), Tail(Extend(base, s), p)) else None
  {
    BelowParent(base, s, p);
    TailStep(base, s, p);
    SelectByStep(v, s);
    assert Tail(base, p)[1..] == Tail(Extend(base, s), p);
  }

  lemma {:induction false} AbsentRowLocates(e: Entry, s: Step, row: Row)
    requires WellFormed(e.left) && WellFormed(e.right) && Expands(e)
    requires s.Key? == e.left.Obj? && AbsentRow(e, s) == [row]
    ensures Locates(row, e.pointer, e.left, e.right)
  {
    var next := Extend(e.pointer, s);
    SelfBelow(next);
    WalkStep(e.left, e.pointer, s, next);
    WalkStep(e.right, e.pointer, s, next);
  }

  lemma {:induction false} ChildRowLocates(e: Entry, s: Step, row: Row)
    requires WellFormed(e.left) && WellFormed(e.right) && Expands(e)
    requires s.Key? == e.left.Obj? && Common(e, s)
    requires Locates(row, Extend(e.pointer, s), Child(e.left, s), Child(e.right, s))
    ensures Locates(row, e.pointer, e.left, e.right)
  {
    WalkStep(e.left, e.pointer, s, row.pointer);
    WalkStep(e.right, e.pointer, s, row.pointer);
  }

  /** Every reported row resolves, on both sides, to the two values it reports. */
  lemma {:induction false} RowsLocateDifferences(e: Entry, row: Row)
    requires WellFormed(e.left) && WellFormed(e.right)
    requires e.pointer != "" || Expands(e)
    requires row in Diff(e)
    ensures Locates(row, e.pointer, e.left, e.right)
    decreases e.left
  {
    if Expands(e) {
      var steps := Merged(e.left, e.right);
      if row in AbsentRows(e, steps) {
        var s := StepOfAbsentRow(e, steps, row);
        MergedKinds(e.left, e.right, s);
        AbsentRowLocates(e, s, row);
      } else {
        var s := StepOfCommonRow(e, steps, row);
        MergedKinds(e.left, e.right, s);
        WellFormedChild(e.left, s);
        WellFormedChild(e.right, s);
        RowsLocateDifferences(ChildEntry(e, s), row);
        ChildRowLocates(e, s, row);
      }
    } else {
      SelfBelow(e.pointer);
      assert Walk(e.left, []) == Some(e.left) && Walk(e.right, []) == Some(e.right);
    }
  }
}
