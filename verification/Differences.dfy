/**
  The stack-driven comparison of two results, its recursive meaning, and the height its stack
  can reach.
 */
module Differences {
  import opened Outcomes
  import opened Sorting
  import opened Text
  import opened Json
  import opened Pointer

  const MAX_MISMATCHES: nat := 1_000
  const MAX_COMPARE_QUEUE: nat := 40_000

  datatype Row = Row(pointer: string, left: Json, right: Json)

  datatype LimitError = ComparisonQueue | Mismatches

  /** One pending comparison. */
  datatype Entry = Entry(left: Json, right: Json, pointer: string)

  // ---- the steps a pair of containers is compared along -----------------------------------------

  function Keys(fields: seq<Field>): seq<string>
  {
    seq(|fields|, i requires 0 <= i < |fields| => fields[i].key)
  }

  function NotIn(keys: seq<string>, other: seq<string>): seq<string>
  {
    if keys == [] then []
    else if keys[0] in other then NotIn(keys[1..], other)
    else [keys[0]] + NotIn(keys[1..], other)
  }

  function KeyOrder(): (string, string) -> bool { (a, b) => LexLe(Codes(a), Codes(b)) }

  /** `sorted(set(left) | set(right))`. */
  function SortedUnion(left: seq<string>, right: seq<string>): seq<string>
  {
    Sort(left + NotIn(right, left), KeyOrder())
  }

  /** The steps into either container, ascending. */
  function Merged(l: Json, r: Json): seq<Step>
    requires SameType(l, r) && !Leaf(l)
  {
    if l.Obj? then
      var keys := SortedUnion(Keys(l.fields), Keys(r.fields));
      seq(|keys|, i requires 0 <= i < |keys| => Key(keys[i]))
    else
      seq(if |l.items| > |r.items| then |l.items| else |r.items|, i requires 0 <= i => Index(i))
  }

  predicate Common(e: Entry, step: Step) { Has(e.left, step) && Has(e.right, step) }

  function ChildEntry(e: Entry, step: Step): (c: Entry)
    requires Common(e, step)
    ensures c.left < e.left
  {
    Entry(Child(e.left, step), Child(e.right, step), Extend(e.pointer, step))
  }

  predicate Expands(e: Entry) { SameType(e.left, e.right) && !Leaf(e.left) }

  // ---- the recursive meaning --------------------------------------------------------------------

  function AbsentRow(e: Entry, step: Step): seq<Row>
  {
    if Common(e, step) then []
    else if Has(e.left, step) then [Row(Extend(e.pointer, step), Child(e.left, step), Null)]
    else if Has(e.right, step) then [Row(Extend(e.pointer, step), Null, Child(e.right, step))]
    else []
  }

  /** Rows for children only one side has, last step first. */
  function AbsentRows(e: Entry, steps: seq<Step>): seq<Row>
  {
    if steps == [] then [] else AbsentRows(e, steps[1..]) + AbsentRow(e, steps[0])
  }

  /** Rows for children both sides have, first step first. */
  function CommonRows(e: Entry, steps: seq<Step>): seq<Row>
    decreases e.left, |steps|
  {
    if steps == [] then []
    else (if Common(e, steps[0]) then Diff(ChildEntry(e, steps[0])) else []) + CommonRows(e, steps[1..])
  }

  /** The differences of two values: absent children descending, then common children ascending. */
  function Diff(e: Entry): seq<Row>
    decreases e.left
  {
    if Expands(e) then
      var steps := Merged(e.left, e.right);
      AbsentRows(e, steps) + CommonRows(e, steps)
    else if SameType(e.left, e.right) && LeafEq(e.left, e.right) then []
    else [Row(Shown(e.pointer), e.left, e.right)]
  }

  // ---- the stack ----------------------------------------------------------------------------------

  /** The comparisons one node pushes, the first step on top. */
  function Pushes(e: Entry, steps: seq<Step>): seq<Entry>
  {
    if steps == [] then []
    else Pushes(e, steps[1..]) + if Common(e, steps[0]) then [ChildEntry(e, steps[0])] else []
  }

  /** Rows still to come from a stack whose top is its last element. */
  function PendingRows(stack: seq<Entry>): seq<Row>
  {
    if stack == [] then [] else Diff(stack[|stack| - 1]) + PendingRows(stack[..|stack| - 1])
  }

  lemma {:induction false} PushesStep(below: seq<Entry>, e: Entry, steps: seq<Step>)
    requires steps != []
    ensures below + Pushes(e, steps) ==
            if Common(e, steps[0]) then (below + Pushes(e, steps[1..])) + [ChildEntry(e, steps[0])]
            else below + Pushes(e, steps[1..])
  {
    hide Common, ChildEntry;
    if !Common(e, steps[0]) { assert Pushes(e, steps[1..]) + [] == Pushes(e, steps[1..]); }
  }

  lemma {:induction false} EmptyStack()
    ensures PendingRows([]) == [] && PeakOfStack([]) == 0
  {
  }

  lemma {:induction false} PendingTop(below: seq<Entry>, e: Entry)
    ensures PendingRows(below + [e]) == Diff(e) + PendingRows(below)
  {
    hide Diff;
    assert (below + [e])[..|below|] == below;
  }

  lemma {:induction false} PendingPushes(below: seq<Entry>, e: Entry, steps: seq<Step>)
    ensures PendingRows(below + Pushes(e, steps)) == CommonRows(e, steps) + PendingRows(below)
  {
    hide Diff, Common, ChildEntry, PendingRows;
    if steps == [] {
      assert below + [] == below;
    } else {
      var rest := CommonRows(e, steps[1..]);
      PendingPushes(below, e, steps[1..]);
      PushesStep(below, e, steps);
      if Common(e, steps[0]) {
        var c := ChildEntry(e, steps[0]);
        PendingTop(below + Pushes(e, steps[1..]), c);
        assert Diff(c) + (rest + PendingRows(below)) == (Diff(c) + rest) + PendingRows(below);
      }
    }
  }

  function Max(a: nat, b: nat): nat { if a > b then a else b }

  /** Greatest height of the stack while one entry and everything under it is compared. */
  function Peak(e: Entry): (n: nat)
    ensures n >= 1
    decreases e.left
  {
    if Expands(e) then Max(1, PeakOver(e, Merged(e.left, e.right))) else 1
  }

  function PeakOver(e: Entry, steps: seq<Step>): nat
    decreases e.left, |steps|
  {
    if steps == [] then 0
    else if Common(e, steps[0]) then
      Max(PeakOver(e, steps[1..]), |Pushes(e, steps[1..])| + Peak(ChildEntry(e, steps[0])))
    else PeakOver(e, steps[1..])
  }

  function PeakOfStack(stack: seq<Entry>): (n: nat)
    ensures |stack| <= n
  {
    if stack == [] then 0
    else Max(PeakOfStack(stack[..|stack| - 1]), |stack| - 1 + Peak(stack[|stack| - 1]))
  }

  lemma {:induction false} PeakTop(below: seq<Entry>, e: Entry)
    ensures PeakOfStack(below + [e]) == Max(PeakOfStack(below), |below| + Peak(e))
  {
    hide Peak;
    assert (below + [e])[..|below|] == below;
  }

  lemma {:induction false} PeakPushes(below: seq<Entry>, e: Entry, steps: seq<Step>)
    ensures PeakOfStack(below + Pushes(e, steps)) == Max(PeakOfStack(below), |below| + PeakOver(e, steps))
  {
    hide Peak, Common, ChildEntry, PeakOfStack;
    if steps == [] {
      assert below + [] == below;
    } else {
      PeakPushes(below, e, steps[1..]);
      PushesStep(below, e, steps);
      if Common(e, steps[0]) { PeakTop(below + Pushes(e, steps[1..]), ChildEntry(e, steps[0])); }
    }
  }

  /** Number of comparisons made for one entry and everything under it. */
  function Work(e: Entry): (n: nat)
    ensures n >= 1
    decreases e.left
  {
    1 + if Expands(e) then WorkOver(e, Merged(e.left, e.right)) else 0
  }

  function WorkOver(e: Entry, steps: seq<Step>): nat
    decreases e.left, |steps|
  {
    if steps == [] then 0
    else (if Common(e, steps[0]) then Work(ChildEntry(e, steps[0])) else 0) + WorkOver(e, steps[1..])
  }

  function WorkOfStack(stack: seq<Entry>): nat
  {
    if stack == [] then 0 else WorkOfStack(stack[..|stack| - 1]) + Work(stack[|stack| - 1])
  }

  lemma {:induction false} WorkTop(below: seq<Entry>, e: Entry)
    ensures WorkOfStack(below + [e]) == WorkOfStack(below) + Work(e)
  {
    hide Work;
    assert (below + [e])[..|below|] == below;
  }

  lemma {:induction false} WorkPushes(below: seq<Entry>, e: Entry, steps: seq<Step>)
    ensures WorkOfStack(below + Pushes(e, steps)) == WorkOfStack(below) + WorkOver(e, steps)
  {
    hide Work, Common, ChildEntry, WorkOfStack;
    if steps == [] {
      assert below + [] == below;
    } else {
      WorkPushes(below, e, steps[1..]);
      PushesStep(below, e, steps);
      if Common(e, steps[0]) { WorkTop(below + Pushes(e, steps[1..]), ChildEntry(e, steps[0])); }
    }
  }

  // ---- the algorithm ------------------------------------------------------------------------------

  /** The rows one comparison reports itself. */
  function OwnRows(e: Entry): seq<Row>
  {
    if Expands(e) then AbsentRows(e, Merged(e.left, e.right))
    else if SameType(e.left, e.right) && LeafEq(e.left, e.right) then []
    else [Row(Shown(e.pointer), e.left, e.right)]
  }

  /** The comparisons it leaves for later. */
  function OwnPushes(e: Entry): seq<Entry>
  {
    if Expands(e) then Pushes(e, Merged(e.left, e.right)) else []
  }

  /** One turn of the loop: its rows come next, and the rest is what the new stack will give. */
  lemma {:induction false} OneTurnRows(below: seq<Entry>, e: Entry)
    ensures PendingRows(below + [e]) == OwnRows(e) + PendingRows(below + OwnPushes(e))
  {
    hide Merged, SameType, CommonRows, AbsentRows, Pushes, PendingRows;
    PendingTop(below, e);
    if Expands(e) {
      var steps := Merged(e.left, e.right);
      var absent, common, pending := AbsentRows(e, steps), CommonRows(e, steps), PendingRows(below);
      PendingPushes(below, e, steps);
      assert (absent + common) + pending == absent + (common + pending);
    } else {
      assert below + [] == below;
    }
  }

  lemma {:induction false} OneTurnPeak(below: seq<Entry>, e: Entry)
    ensures PeakOfStack(below + [e]) == Max(|below| + 1, PeakOfStack(below + OwnPushes(e)))
  {
    hide Merged, SameType, PeakOver, Pushes, PeakOfStack;
    PeakTop(below, e);
    if Expands(e) {
      PeakPushes(below, e, Merged(e.left, e.right));
    } else {
      assert below + [] == below;
    }
  }

  lemma {:induction false} OneTurnWork(below: seq<Entry>, e: Entry)
    ensures WorkOfStack(below + OwnPushes(e)) < WorkOfStack(below + [e])
  {
    hide Merged, SameType, WorkOver, Pushes, WorkOfStack;
    WorkTop(below, e);
    if Expands(e) {
      WorkPushes(below, e, Merged(e.left, e.right));
    } else {
      assert below + [] == below;
    }
  }

  /** One comparison; the steps of a container pair are visited from last to first. */
  method CompareOne(e: Entry) returns (rows: seq<Row>, pushed: seq<Entry>)
    ensures rows == OwnRows(e) && pushed == OwnPushes(e)
  {
    hide Merged, SameType, LeafEq, ChildEntry, Common;
    rows, pushed := [], [];
    if !Expands(e) {
      if !(SameType(e.left, e.right) && LeafEq(e.left, e.right)) {
        rows := [Row(Shown(e.pointer), e.left, e.right)];
      }
      return;
    }
    var steps := Merged(e.left, e.right);
    var k := |steps|;
    assert steps[k..] == [];
    while k > 0
      invariant 0 <= k <= |steps|
      invariant rows == AbsentRows(e, steps[k..])
      invariant pushed == Pushes(e, steps[k..])
    {
      k := k - 1;
      var step := steps[k];
      assert steps[k..][0] == step && steps[k..][1..] == steps[k + 1..];
      if Common(e, step) {
        pushed := pushed + [ChildEntry(e, step)];
      } else {
        rows := rows + AbsentRow(e, step);
      }
    }
    assert steps[0..] == steps;
  }

  /**
    `differences`: a depth-first comparison over an explicit stack. It returns exactly the
    recursive differences, unless the stack outgrows its limit or there are too many rows.
   */
  method Differences(left: Json, right: Json, pointer: string) returns (r: Result<seq<Row>, LimitError>)
    ensures var e := Entry(left, right, pointer);
            r.Ok? <==> Peak(e) <= MAX_COMPARE_QUEUE && |Diff(e)| <= MAX_MISMATCHES
    ensures r.Ok? ==> r.value == Diff(Entry(left, right, pointer))
    ensures r == Err(ComparisonQueue) ==> Peak(Entry(left, right, pointer)) > MAX_COMPARE_QUEUE
    ensures r == Err(Mismatches) ==> |Diff(Entry(left, right, pointer))| > MAX_MISMATCHES
  {
    hide Diff, Peak, OwnRows, OwnPushes, PendingRows, PeakOfStack, WorkOfStack;
    ghost var root := Entry(left, right, pointer);
    var rows: seq<Row> := [];
    var stack := [Entry(left, right, pointer)];
    ghost var highest: nat := 0;
    EmptyStack();
    PendingTop([], root);
    PeakTop([], root);
    assert [] + [root] == stack && Diff(root) + [] == Diff(root);
    while stack != []
      invariant rows + PendingRows(stack) == Diff(root)
      invariant Max(highest, PeakOfStack(stack)) == Peak(root)
      invariant highest <= MAX_COMPARE_QUEUE && |rows| <= MAX_MISMATCHES
      decreases WorkOfStack(stack)
    {
      if |stack| > MAX_COMPARE_QUEUE {
        return Err(ComparisonQueue);
      }
      highest := Max(highest, |stack|);
      var e, below := stack[|stack| - 1], stack[..|stack| - 1];
      assert stack == below + [e];
      OneTurnRows(below, e);
      OneTurnPeak(below, e);
      OneTurnWork(below, e);
      var own, pushed := CompareOne(e);
      assert (rows + own) + PendingRows(below + pushed) == rows + (own + PendingRows(below + pushed));
      rows, stack := rows + own, below + pushed;
      if |rows| > MAX_MISMATCHES {
        return Err(Mismatches);
      }
    }
    assert rows + [] == rows;
    return Ok(rows);
  }
}
