/**
  Which rows the comparison reports: exactly one for each place at which two documents part, in a
  fixed order. Places are paths of steps, and nothing here speaks of how the rows are computed.
 */
module RowLaws {
  import opened Outcomes
  import opened Sorting
  import opened Text
  import opened Json
  import opened Pointer
  import opened Differences
  import opened DifferenceLaws

  type Path = seq<Step>

  /** What lies at the end of a path. */
  function Reached(v: Json, path: Path): Option<Json>
  {
    if path == [] then Some(v)
    else if !Has(v, path[0]) then None
    else Reached(Child(v, path[0]), path[1..])
  }

  function PointerOf(base: string, path: Path): string
    decreases path
  {
    if path == [] then base else PointerOf(Extend(base, path[0]), path[1..])
  }

  /**
    Two documents part at a path: they go along it together, through containers of the same type, and
    then only one of them goes on, or they are not containers of one type and not equal leaves either.
   */
  ghost predicate PartAt(l: Json, r: Json, path: Path)
    decreases path
  {
    if path == [] then !(SameType(l, r) && (!Leaf(l) || LeafEq(l, r)))
    else
      && SameType(l, r) && !Leaf(l)
      && if Has(l, path[0]) && Has(r, path[0]) then PartAt(Child(l, path[0]), Child(r, path[0]), path[1..])
         else |path| == 1 && (Has(l, path[0]) || Has(r, path[0]))
  }

  /** Where the ways of two paths separate, what one side lacks comes before what both have, backwards; the rest forwards. */
  ghost predicate Precedes(l: Json, r: Json, p: Path, q: Path)
    decreases p
  {
    && p != [] && q != []
    && var s, t := p[0], q[0];
       var both, both' := Has(l, s) && Has(r, s), Has(l, t) && Has(r, t);
       if s == t then both && Precedes(Child(l, s), Child(r, s), p[1..], q[1..])
       else if both != both' then both'
       else if both then StepBefore(s, t)
       else StepBefore(t, s)
  }

  /** The row for the place a path leads to. */
  function RowAt(e: Entry, path: Path): Row
  {
    Row(Shown(PointerOf(e.pointer, path)), OrNull(Reached(e.left, path)), OrNull(Reached(e.right, path)))
  }

  // ---- the rows of one container pair ----------------------------------------------------------------

  ghost predicate Ascends(steps: seq<Step>) { forall i, j :: 0 <= i < j < |steps| ==> StepBefore(steps[i], steps[j]) }

  lemma {:induction false} AscendsRest(steps: seq<Step>)
    requires steps != [] && Ascends(steps)
    ensures Ascends(steps[1..])
    ensures forall s :: s in steps[1..] ==> StepBefore(steps[0], s)
    ensures forall s :: s in steps <==> s == steps[0] || s in steps[1..]
  {
    assert steps == [steps[0]] + steps[1..];
    forall s | s in steps[1..] ensures StepBefore(steps[0], s) {
      var i :| 0 <= i < |steps[1..]| && steps[1..][i] == s;
      assert steps[i + 1] == s;
    }
  }

  lemma {:induction false} BeforeDiffers(s: Step, t: Step)
    requires StepBefore(s, t)
    ensures s != t
  {
  }

  /** The steps of the rows for children only one side has: all of them, descending. */
  lemma {:induction false} AbsentSteps(e: Entry, steps: seq<Step>) returns (found: seq<Step>)
    requires Ascends(steps) && forall s :: s in steps ==> Has(e.left, s) || Has(e.right, s)
    ensures |found| == |AbsentRows(e, steps)|
    ensures forall i :: 0 <= i < |found| ==> AbsentRow(e, found[i]) == [AbsentRows(e, steps)[i]]
    ensures forall s :: s in found <==> s in steps && !Common(e, s)
    ensures forall i, j :: 0 <= i < j < |found| ==> StepBefore(found[j], found[i])
  {
    hide StepBefore, Ascends, Common;
    if steps == [] {
      found := [];
    } else {
      AscendsRest(steps);
      var rest := AbsentSteps(e, steps[1..]);
      var s := steps[0];
      OneAbsentRow(e, s);
      if Common(e, s) {
        found := rest;
        assert AbsentRows(e, steps) == AbsentRows(e, steps[1..]);
      } else {
        found := rest + [s];
        forall i, j | 0 <= i < j < |found| ensures StepBefore(found[j], found[i]) {
          if j == |rest| { assert rest[i] in rest; }
        }
      }
    }
  }

  lemma {:induction false} OneAbsentRow(e: Entry, s: Step)
    requires Has(e.left, s) || Has(e.right, s)
    ensures Common(e, s) ==> AbsentRow(e, s) == []
    ensures !Common(e, s) ==> |AbsentRow(e, s)| == 1
    ensures !Common(e, s) ==> AbsentRow(e, s)[0] == Row(Extend(e.pointer, s), OrNull(Reached(e.left, [s])), OrNull(Reached(e.right, [s])))
  {
    assert [s][1..] == [];
  }

  /** Paths that belong to these rows, one each, in their order. */
  ghost predicate Traces(e: Entry, rows: seq<Row>, paths: seq<Path>)
  {
    |paths| == |rows| && forall i :: 0 <= i < |rows| ==> rows[i] == RowAt(e, paths[i])
  }

  ghost predicate InOrder(l: Json, r: Json, paths: seq<Path>)
  {
    forall i, j :: 0 <= i < j < |paths| ==> Precedes(l, r, paths[i], paths[j])
  }

  /** Exactly the places at which two documents part. */
  ghost predicate AllParts(l: Json, r: Json, paths: seq<Path>)
  {
    forall p: Path :: p in paths <==> PartAt(l, r, p)
  }

  function Under(s: Step, paths: seq<Path>): (r: seq<Path>)
    ensures |r| == |paths| && forall i :: 0 <= i < |r| ==> r[i] == [s] + paths[i]
  {
    seq(|paths|, i requires 0 <= i < |paths| => [s] + paths[i])
  }

  lemma {:induction false} UnderElements(s: Step, paths: seq<Path>, p: Path)
    ensures p in Under(s, paths) <==> p != [] && p[0] == s && p[1..] in paths
  {
    if p in Under(s, paths) {
      var i :| 0 <= i < |paths| && Under(s, paths)[i] == p;
      assert p[1..] == paths[i];
    }
    if p != [] && p[0] == s && p[1..] in paths {
      var i :| 0 <= i < |paths| && paths[i] == p[1..];
      assert Under(s, paths)[i] == p;
    }
  }

  lemma {:induction false} TraceUnder(e: Entry, s: Step, paths: seq<Path>)
    requires Common(e, s) && Traces(ChildEntry(e, s), Diff(ChildEntry(e, s)), paths)
    requires InOrder(Child(e.left, s), Child(e.right, s), paths)
    ensures Traces(e, Diff(ChildEntry(e, s)), Under(s, paths))
    ensures InOrder(e.left, e.right, Under(s, paths))
  {
    hide Diff, Has, Child;
    var under := Under(s, paths);
    forall i | 0 <= i < |paths| ensures Diff(ChildEntry(e, s))[i] == RowAt(e, under[i]) {
      assert under[i][1..] == paths[i];
    }
    forall i, j | 0 <= i < j < |paths| ensures Precedes(e.left, e.right, under[i], under[j]) {
      assert under[i][1..] == paths[i] && under[j][1..] == paths[j];
    }
  }

  /** The paths of the rows below common children: all of them, child after child. */
  lemma {:induction false} CommonPaths(e: Entry, steps: seq<Step>) returns (paths: seq<Path>)
    requires WellFormed(e.left) && WellFormed(e.right) && Ascends(steps)
    ensures Traces(e, CommonRows(e, steps), paths) && InOrder(e.left, e.right, paths)
    ensures forall p: Path :: p in paths <==>
              p != [] && p[0] in steps && Common(e, p[0]) && PartAt(Child(e.left, p[0]), Child(e.right, p[0]), p[1..])
    decreases e.left, |steps|
  {
    hide Diff, Ascends, StepBefore, PartAt, WellFormed, Precedes, Reached, PointerOf, CommonRows, InOrder, AllParts, Traces;
    if steps == [] {
      paths := [];
      NoCommonRows(e);
    } else {
      var s := steps[0];
      AscendsRest(steps);
      paths := CommonPaths(e, steps[1..]);
      FirstCommonRows(e, steps);
      if Common(e, s) {
        WellFormedChild(e.left, s);
        WellFormedChild(e.right, s);
        var below := RowPaths(ChildEntry(e, s));
        TraceUnder(e, s, below);
        JoinPaths(e, s, steps[1..], below, paths);
        JoinTraces(e, Diff(ChildEntry(e, s)), CommonRows(e, steps[1..]), Under(s, below), paths);
        paths := Under(s, below) + paths;
      }
    }
  }

  lemma {:induction false} NoCommonRows(e: Entry)
    ensures Traces(e, CommonRows(e, []), []) && InOrder(e.left, e.right, [])
  {
  }

  lemma {:induction false} FirstCommonRows(e: Entry, steps: seq<Step>)
    requires steps != []
    ensures CommonRows(e, steps) ==
            if Common(e, steps[0]) then Diff(ChildEntry(e, steps[0])) + CommonRows(e, steps[1..]) else CommonRows(e, steps[1..])
  {
    hide Diff;
    assert [] + CommonRows(e, steps[1..]) == CommonRows(e, steps[1..]);
  }

  lemma {:induction false} JoinTraces(e: Entry, a: seq<Row>, b: seq<Row>, p: seq<Path>, q: seq<Path>)
    requires Traces(e, a, p) && Traces(e, b, q)
    ensures Traces(e, a + b, p + q)
  {
    hide RowAt;
    forall i | 0 <= i < |a + b| ensures (a + b)[i] == RowAt(e, (p + q)[i]) {
      assert i >= |a| ==> b[i - |a|] == RowAt(e, q[i - |a|]);
    }
  }

  lemma {:induction false} JoinPaths(e: Entry, s: Step, rest: seq<Step>, below: seq<Path>, paths: seq<Path>)
    requires Common(e, s) && forall t :: t in rest ==> StepBefore(s, t)
    requires AllParts(Child(e.left, s), Child(e.right, s), below)
    requires InOrder(e.left, e.right, Under(s, below)) && InOrder(e.left, e.right, paths)
    requires forall p: Path :: p in paths <==>
               p != [] && p[0] in rest && Common(e, p[0]) && PartAt(Child(e.left, p[0]), Child(e.right, p[0]), p[1..])
    ensures InOrder(e.left, e.right, Under(s, below) + paths)
    ensures forall p: Path :: p in Under(s, below) + paths <==>
              && p != [] && (p[0] == s || p[0] in rest)
              && Common(e, p[0]) && PartAt(Child(e.left, p[0]), Child(e.right, p[0]), p[1..])
  {
    hide PartAt, StepBefore;
    var under := Under(s, below);
    var all := under + paths;
    forall i, j | 0 <= i < j < |all| ensures Precedes(e.left, e.right, all[i], all[j]) {
      if i < |under| <= j {
        assert all[i][0] == s && all[j] in paths && all[j] == paths[j - |under|];
        BeforeDiffers(s, all[j][0]);
      } else if j < |under| {
        assert all[i] == under[i] && all[j] == under[j];
      } else {
        assert all[i] == paths[i - |under|] && all[j] == paths[j - |under|];
      }
    }
    forall p: Path
      ensures p in all <==> && p != [] && (p[0] == s || p[0] in rest)
                            && Common(e, p[0]) && PartAt(Child(e.left, p[0]), Child(e.right, p[0]), p[1..])
    {
      UnderElements(s, below, p);
      assert p in all <==> p in under || p in paths;
      if p != [] && p[0] in rest { BeforeDiffers(s, p[0]); }
    }
  }

  /** The paths of a container pair: absent children, then common ones. */
  lemma {:induction false} ContainerPaths(e: Entry) returns (paths: seq<Path>)
    requires WellFormed(e.left) && WellFormed(e.right) && Expands(e)
    ensures Traces(e, Diff(e), paths) && AllParts(e.left, e.right, paths) && InOrder(e.left, e.right, paths)
    decreases e.left, |Merged(e.left, e.right)| + 1
  {
    hide Merged, StepBefore, WellFormed, AbsentRows, CommonRows, PartAt, Precedes, Has, Traces, InOrder, AllParts, Single;
    var steps := Merged(e.left, e.right);
    MergedAscending(e.left, e.right);
    forall s ensures s in steps <==> Has(e.left, s) || Has(e.right, s) { MergedElements(e.left, e.right, s); }
    var found := AbsentSteps(e, steps);
    var common := CommonPaths(e, steps);
    paths := Single(found) + common;
    SingleTraces(e, steps, found);
    JoinTraces(e, AbsentRows(e, steps), CommonRows(e, steps), Single(found), common);
    JoinAbsent(e, steps, found, common);
    OrderAbsent(e, steps, found, common);
    assert Diff(e) == AbsentRows(e, steps) + CommonRows(e, steps);
  }

  function Single(steps: seq<Step>): (r: seq<Path>)
    ensures |r| == |steps| && forall i :: 0 <= i < |r| ==> r[i] == [steps[i]]
  {
    seq(|steps|, i requires 0 <= i < |steps| => [steps[i]])
  }

  lemma {:induction false} SingleTraces(e: Entry, steps: seq<Step>, found: seq<Step>)
    requires |found| == |AbsentRows(e, steps)|
    requires forall i :: 0 <= i < |found| ==> AbsentRow(e, found[i]) == [AbsentRows(e, steps)[i]]
    requires forall s :: s in found ==> !Common(e, s) && (Has(e.left, s) || Has(e.right, s))
    ensures Traces(e, AbsentRows(e, steps), Single(found))
  {
    hide AbsentRow, AbsentRows, Common, Reached;
    forall i | 0 <= i < |found| ensures AbsentRows(e, steps)[i] == RowAt(e, Single(found)[i]) {
      var s := found[i];
      OneAbsentRow(e, s);
      assert [s][1..] == [];
      assert PointerOf(e.pointer, [s]) == Extend(e.pointer, s);
    }
  }

  lemma {:induction false} JoinAbsent(e: Entry, steps: seq<Step>, found: seq<Step>, common: seq<Path>)
    requires Expands(e) && forall s :: s in steps <==> Has(e.left, s) || Has(e.right, s)
    requires forall s :: s in found <==> s in steps && !Common(e, s)
    requires forall p: Path :: p in common <==>
               p != [] && p[0] in steps && Common(e, p[0]) && PartAt(Child(e.left, p[0]), Child(e.right, p[0]), p[1..])
    ensures AllParts(e.left, e.right, Single(found) + common)
  {
    hide Has;
    var all := Single(found) + common;
    forall p: Path ensures p in all <==> PartAt(e.left, e.right, p) {
      assert p in all <==> p in Single(found) || p in common;
      SingleElements(found, p);
    }
  }

  lemma {:induction false} OrderAbsent(e: Entry, steps: seq<Step>, found: seq<Step>, common: seq<Path>)
    requires forall s :: s in found <==> s in steps && !Common(e, s)
    requires forall i, j :: 0 <= i < j < |found| ==> StepBefore(found[j], found[i])
    requires InOrder(e.left, e.right, common)
    requires forall p: Path :: p in common <==>
               p != [] && p[0] in steps && Common(e, p[0]) && PartAt(Child(e.left, p[0]), Child(e.right, p[0]), p[1..])
    ensures InOrder(e.left, e.right, Single(found) + common)
  {
    hide StepBefore, Has, PartAt;
    var single := Single(found);
    var all := single + common;
    forall i, j | 0 <= i < j < |all| ensures Precedes(e.left, e.right, all[i], all[j]) {
      if j < |single| {
        assert all[i] == [found[i]] && all[j] == [found[j]] && found[i] in found && found[j] in found;
        BeforeDiffers(found[j], found[i]);
      } else if i < |single| {
        assert all[i] == [found[i]] && found[i] in found && all[j] == common[j - |single|] && all[j] in common;
      } else {
        assert all[i] == common[i - |single|] && all[j] == common[j - |single|];
      }
    }
  }

  lemma {:induction false} SingleElements(steps: seq<Step>, p: Path)
    ensures p in Single(steps) <==> |p| == 1 && p[0] in steps
  {
    if p in Single(steps) {
      var i :| 0 <= i < |steps| && Single(steps)[i] == p;
      assert p[0] == steps[i];
    }
    if |p| == 1 && p[0] in steps {
      var i :| 0 <= i < |steps| && steps[i] == p[0];
      assert Single(steps)[i] == p;
    }
  }

  /**
    The comparison reports one row for every place at which the documents part, none besides, each with
    the pointer of the place and what either side has there, and in the order of the places.
   */
  lemma {:induction false} RowPaths(e: Entry) returns (paths: seq<Path>)
    requires WellFormed(e.left) && WellFormed(e.right)
    ensures Traces(e, Diff(e), paths) && AllParts(e.left, e.right, paths) && InOrder(e.left, e.right, paths)
    decreases e.left, |if Expands(e) then Merged(e.left, e.right) else []| + 2
  {
    hide Merged, StepBefore, WellFormed, AbsentRows, CommonRows, Precedes;
    if Expands(e) {
      paths := ContainerPaths(e);
    } else if SameType(e.left, e.right) && LeafEq(e.left, e.right) {
      paths := [];
      assert Diff(e) == [];
    } else {
      paths := [[]];
      assert Diff(e) == [RowAt(e, [])];
    }
  }

  // ---- pointers of places ------------------------------------------------------------------------------

  /** Steps that a place in either of two documents is reached by are told apart by their text. */
  lemma {:induction false} TextsDiffer(s: Step, t: Step)
    requires s.Key? == t.Key? && StepText(s) == StepText(t)
    ensures s == t
  {
    match s
    case Key(a) => UnescapeEscape(a); UnescapeEscape(t.name);
    case Index(i) => ParseIntOfDecimal(i); ParseIntOfDecimal(t.at);
  }

  lemma {:induction false} PointerBelow(base: string, path: Path)
    ensures Below(base, PointerOf(base, path))
    decreases path
  {
    hide Extend;
    if path == [] {
      SelfBelow(base);
    } else {
      PointerBelow(Extend(base, path[0]), path[1..]);
      BelowParent(base, path[0], PointerOf(base, path));
    }
  }

  lemma {:induction false} ApartPointers(base: string, s: Step, t: Step, p: string, q: string)
    requires Below(Extend(base, s), p) && Below(Extend(base, t), q) && s != t && s.Key? == t.Key?
    ensures p != q
  {
    hide Below, Extend, Tail, StepText;
    TailStep(base, s, p);
    TailStep(base, t, q);
    if p == q {
      assert Tail(base, p)[0] == StepText(s) && Tail(base, q)[0] == StepText(t);
      TextsDiffer(s, t);
    }
  }

  lemma {:induction false} StepKinds(v: Json, s: Step)
    requires Has(v, s)
    ensures s.Key? == v.Obj? && !Leaf(v)
  {
    assert StepAt(v, Position(v, s).value) == s;
  }

  /** So two rows never share a pointer. */
  lemma {:induction false} PlacesHavePointers(l: Json, r: Json, base: string, p: Path, q: Path)
    requires PartAt(l, r, p) && PartAt(l, r, q) && Precedes(l, r, p, q)
    ensures PointerOf(base, p) != PointerOf(base, q)
    decreases p
  {
    hide StepBefore, Has, SameType, Child, LeafEq;
    var s, t := p[0], q[0];
    if s == t {
      PlacesHavePointers(Child(l, s), Child(r, s), Extend(base, s), p[1..], q[1..]);
    } else {
      PointerBelow(Extend(base, s), p[1..]);
      PointerBelow(Extend(base, t), q[1..]);
      KindsAgree(l, r, s, t);
      ApartPointers(base, s, t, PointerOf(base, p), PointerOf(base, q));
    }
  }

  lemma {:induction false} KindsAgree(l: Json, r: Json, s: Step, t: Step)
    requires SameType(l, r) && (Has(l, s) || Has(r, s)) && (Has(l, t) || Has(r, t))
    ensures s.Key? == t.Key?
  {
    if Has(l, s) { StepKinds(l, s); } else { StepKinds(r, s); }
    if Has(l, t) { StepKinds(l, t); } else { StepKinds(r, t); }
  }

  lemma {:induction false} RowPointersDistinct(e: Entry)
    requires WellFormed(e.left) && WellFormed(e.right)
    ensures forall i, j :: 0 <= i < j < |Diff(e)| ==> Diff(e)[i].pointer != Diff(e)[j].pointer
  {
    hide Diff, PartAt, Precedes, WellFormed, Reached;
    var paths := RowPaths(e);
    forall i, j | 0 <= i < j < |Diff(e)| ensures Diff(e)[i].pointer != Diff(e)[j].pointer {
      assert paths[i] in paths && paths[j] in paths;
      PlacesHavePointers(e.left, e.right, e.pointer, paths[i], paths[j]);
      NeverRoot(e, paths[i], paths[j]);
    }
  }

  /** A place inside a document is never shown like the document itself. */
  lemma {:induction false} NeverRoot(e: Entry, p: Path, q: Path)
    requires Precedes(e.left, e.right, p, q)
    ensures Shown(PointerOf(e.pointer, p)) == PointerOf(e.pointer, p) && Shown(PointerOf(e.pointer, q)) == PointerOf(e.pointer, q)
  {
    PointerBelow(Extend(e.pointer, p[0]), p[1..]);
    PointerBelow(Extend(e.pointer, q[0]), q[1..]);
  }

  // ---- every difference has its row ------------------------------------------------------------------------

  /**
    Wherever a leaf of either document resolves on one side only, or to values that are not equal, a row
    points there or to a container around it.
   */
  lemma {:induction false} EveryDifferenceHasRow(e: Entry, leaf: (string, Json))
    requires WellFormed(e.left) && WellFormed(e.right) && (e.pointer != "" || Expands(e))
    requires leaf in LeafPointers(e.left, e.pointer) || leaf in LeafPointers(e.right, e.pointer)
    requires |e.pointer| <= |leaf.0|
    requires var x, y := Walk(e.left, Tail(e.pointer, leaf.0)), Walk(e.right, Tail(e.pointer, leaf.0));
             x.None? || y.None? || !StructEq(x.value, y.value)
    ensures exists row :: row in Diff(e) && Below(row.pointer, leaf.0)
    decreases e.left
  {
    hide WellFormed, Walk, Tail, Below, Merged, StructEq;
    if Expands(e) {
      var side := if leaf in LeafPointers(e.left, e.pointer) then e.left else e.right;
      var k := ChildOfLeaf(side, e.pointer, 0, leaf);
      var s := StepAt(side, k);
      var next := Extend(e.pointer, s);
      PositionOfStep(side, k);
      LeafIsBelow(ChildAt(side, k), next, leaf);
      StepKinds(side, s);
      TailStep(e.pointer, s, leaf.0);
      if Common(e, s) {
        WalkStep(e.left, e.pointer, s, leaf.0);
        WalkStep(e.right, e.pointer, s, leaf.0);
        WellFormedChild(e.left, s);
        WellFormedChild(e.right, s);
        EveryDifferenceHasRow(ChildEntry(e, s), leaf);
        var row :| row in Diff(ChildEntry(e, s)) && Below(row.pointer, leaf.0);
        RowOfChild(e, s, row);
      } else {
        RowOfAbsent(e, s);
      }
    } else {
      LeafOrRow(e, leaf);
    }
  }

  lemma {:induction false} RowOfChild(e: Entry, s: Step, row: Row)
    requires WellFormed(e.left) && WellFormed(e.right) && Expands(e) && Common(e, s) && row in Diff(ChildEntry(e, s))
    ensures row in Diff(e)
  {
    hide Diff, WellFormed, Merged, Precedes, PartAt;
    WellFormedChild(e.left, s);
    WellFormedChild(e.right, s);
    var below := RowPaths(ChildEntry(e, s));
    var all := RowPaths(e);
    var i :| 0 <= i < |Diff(ChildEntry(e, s))| && Diff(ChildEntry(e, s))[i] == row;
    assert below[i] in below;
    var path := [s] + below[i];
    assert path[1..] == below[i];
    assert PartAt(e.left, e.right, path) by { PartUnder(e, s, below[i]); }
    var j :| 0 <= j < |all| && all[j] == path;
    assert Diff(e)[j] == row;
  }

  lemma {:induction false} PartUnder(e: Entry, s: Step, path: Path)
    requires Expands(e) && Common(e, s) && PartAt(Child(e.left, s), Child(e.right, s), path)
    ensures PartAt(e.left, e.right, [s] + path)
  {
    assert ([s] + path)[1..] == path;
  }

  lemma {:induction false} RowOfAbsent(e: Entry, s: Step)
    requires WellFormed(e.left) && WellFormed(e.right) && Expands(e) && !Common(e, s) && (Has(e.left, s) || Has(e.right, s))
    ensures exists row :: row in Diff(e) && row.pointer == Extend(e.pointer, s)
  {
    hide Diff, WellFormed, Merged, Precedes, Reached;
    var all := RowPaths(e);
    var path: Path := [s];
    assert PartAt(e.left, e.right, path);
    var j :| 0 <= j < |all| && all[j] == path;
    assert path[1..] == [] && PointerOf(e.pointer, path) == Extend(e.pointer, s);
    assert Diff(e)[j] == RowAt(e, path);
  }

  lemma {:induction false} LeafOrRow(e: Entry, leaf: (string, Json))
    requires WellFormed(e.left) && WellFormed(e.right) && e.pointer != "" && !Expands(e)
    requires leaf in LeafPointers(e.left, e.pointer) || leaf in LeafPointers(e.right, e.pointer)
    requires |e.pointer| <= |leaf.0|
    requires var x, y := Walk(e.left, Tail(e.pointer, leaf.0)), Walk(e.right, Tail(e.pointer, leaf.0));
             x.None? || y.None? || !StructEq(x.value, y.value)
    ensures exists row :: row in Diff(e) && Below(row.pointer, leaf.0)
  {
    hide WellFormed, Walk, Tail, LeafPointers;
    if leaf in LeafPointers(e.left, e.pointer) { LeafIsBelow(e.left, e.pointer, leaf); } else { LeafIsBelow(e.right, e.pointer, leaf); }
    if SameType(e.left, e.right) && LeafEq(e.left, e.right) {
      SelfBelow(e.pointer);
      assert Walk(e.left, []) == Some(e.left) && Walk(e.right, []) == Some(e.right) by { WalkNowhere(e.left); WalkNowhere(e.right); }
    } else {
      assert Row(e.pointer, e.left, e.right) in Diff(e);
    }
  }

  lemma {:induction false} WalkNowhere(v: Json)
    ensures Walk(v, []) == Some(v)
  {
  }
}
