/** The stack-driven resource limiter every loaded document passes. */
module Limits {
  import opened Outcomes
  import opened Text
  import opened Json

  const MAX_JSON_DEPTH: nat := 64
  const MAX_JSON_ITEMS: nat := 20_000
  const MAX_STRING_BYTES: nat := 262_144

  datatype Breach = JsonDepth | JsonItems | StringBytes

  /** A value waiting to be visited, with the depth it sits at. */
  datatype Visit = Visit(value: Json, depth: nat)

  predicate ShortText(s: string) { |Utf8(s)| <= MAX_STRING_BYTES }

  /** The value itself and its keys are short enough. */
  predicate OwnTextFits(v: Json)
  {
    && (v.Str? ==> ShortText(v.s))
    && (v.Obj? ==> forall i :: 0 <= i < |v.fields| ==> ShortText(v.fields[i].key))
  }

  /** Every string and key in the value is short enough. */
  predicate TextFits(v: Json)
  {
    OwnTextFits(v) && forall i :: 0 <= i < Arity(v) ==> TextFits(ChildAt(v, i))
  }

  predicate WithinLimits(v: Json)
  {
    Depth(v) <= MAX_JSON_DEPTH && Nodes(v) <= MAX_JSON_ITEMS && TextFits(v)
  }

  // ---- the stack ------------------------------------------------------------------------------

  function Children(v: Json, depth: nat): seq<Visit>
  {
    seq(Arity(v), i requires 0 <= i < Arity(v) => Visit(ChildAt(v, i), depth + 1))
  }

  function StackNodes(stack: seq<Visit>): nat
  {
    if stack == [] then 0 else Nodes(stack[0].value) + StackNodes(stack[1..])
  }

  predicate Shallow(x: Visit) { x.depth + Depth(x.value) <= MAX_JSON_DEPTH + 1 }

  predicate AllShallow(stack: seq<Visit>) { forall k :: 0 <= k < |stack| ==> Shallow(stack[k]) }

  predicate AllTextFits(stack: seq<Visit>) { forall k :: 0 <= k < |stack| ==> TextFits(stack[k].value) }

  lemma {:induction false} StackNodesConcat(a: seq<Visit>, b: seq<Visit>)
    ensures StackNodes(a + b) == StackNodes(a) + StackNodes(b)
  {
    hide Nodes;
    if a == [] {
      assert a + b == b;
    } else {
      assert (a + b)[1..] == a[1..] + b;
      StackNodesConcat(a[1..], b);
    }
  }

  lemma {:induction false} ChildrenNodes(v: Json, depth: nat, i: nat)
    requires i <= Arity(v)
    ensures StackNodes(Children(v, depth)[i..]) == NodesFrom(v, i)
    decreases Arity(v) - i
  {
    if i < Arity(v) {
      ChildrenNodes(v, depth, i + 1);
      assert Children(v, depth)[i..][1..] == Children(v, depth)[i + 1..];
    }
  }

  /** One visit trades a value for its children. */
  lemma {:induction false} VisitNodes(below: seq<Visit>, x: Visit)
    ensures StackNodes(below + [x]) == 1 + StackNodes(below + Children(x.value, x.depth))
  {
    StackNodesConcat(below, [x]);
    StackNodesConcat(below, Children(x.value, x.depth));
    ChildrenNodes(x.value, x.depth, 0);
    assert Children(x.value, x.depth)[0..] == Children(x.value, x.depth);
    assert [x][1..] == [];
  }

  lemma {:induction false} VisitShallow(below: seq<Visit>, x: Visit)
    requires x.depth <= MAX_JSON_DEPTH
    ensures AllShallow(below + [x]) <==> AllShallow(below + Children(x.value, x.depth))
  {
    var kids := Children(x.value, x.depth);
    DepthFromAtMost(x.value, 0, MAX_JSON_DEPTH - x.depth);
    assert Shallow(x) <==> AllShallow(kids) by {
      assert AllShallow(kids) <==> forall j :: 0 <= j < Arity(x.value) ==> Shallow(kids[j]);
      assert forall j :: 0 <= j < Arity(x.value) ==> kids[j].value == ChildAt(x.value, j);
    }
    assert AllShallow([x]) <==> Shallow(x) by { assert [x][0] == x; }
    AllShallowConcat(below, [x]);
    AllShallowConcat(below, kids);
  }

  lemma {:induction false} AllShallowConcat(a: seq<Visit>, b: seq<Visit>)
    ensures AllShallow(a + b) <==> AllShallow(a) && AllShallow(b)
  {
    hide Shallow;
    var c := a + b;
    if AllShallow(c) {
      forall k | 0 <= k < |a| ensures Shallow(a[k]) { assert c[k] == a[k]; }
      forall k | 0 <= k < |b| ensures Shallow(b[k]) { assert c[|a| + k] == b[k]; }
    }
  }

  lemma {:induction false} VisitText(below: seq<Visit>, x: Visit)
    ensures AllTextFits(below + [x]) <==> OwnTextFits(x.value) && AllTextFits(below + Children(x.value, x.depth))
  {
    var kids := Children(x.value, x.depth);
    assert TextFits(x.value) <==> OwnTextFits(x.value) && AllTextFits(kids) by {
      assert forall j :: 0 <= j < Arity(x.value) ==> kids[j].value == ChildAt(x.value, j);
    }
    assert AllTextFits([x]) <==> TextFits(x.value) by { assert [x][0] == x; }
    AllTextFitsConcat(below, [x]);
    AllTextFitsConcat(below, kids);
  }

  lemma {:induction false} AllTextFitsConcat(a: seq<Visit>, b: seq<Visit>)
    ensures AllTextFits(a + b) <==> AllTextFits(a) && AllTextFits(b)
  {
    hide TextFits;
    var c := a + b;
    if AllTextFits(c) {
      forall k | 0 <= k < |a| ensures TextFits(a[k].value) { assert c[k] == a[k]; }
      forall k | 0 <= k < |b| ensures TextFits(b[k].value) { assert c[|a| + k] == b[k]; }
    }
  }

  // ---- the algorithm ----------------------------------------------------------------------------

  /** Checks the texts of one value and lists its children. */
  method Open(x: Visit) returns (ok: bool, kids: seq<Visit>)
    ensures ok <==> OwnTextFits(x.value)
    ensures ok ==> kids == Children(x.value, x.depth)
  {
    kids := [];
    if x.value.Str? && !ShortText(x.value.s) {
      return false, [];
    }
    var i := 0;
    while i < Arity(x.value)
      invariant 0 <= i <= Arity(x.value)
      invariant kids == Children(x.value, x.depth)[..i]
      invariant x.value.Obj? ==> forall j :: 0 <= j < i ==> ShortText(x.value.fields[j].key)
    {
      if x.value.Obj? && !ShortText(x.value.fields[i].key) {
        return false, [];
      }
      kids := kids + [Visit(ChildAt(x.value, i), x.depth + 1)];
      i := i + 1;
    }
    return true, kids;
  }

  /** `_enforce_json_limits`: accepts exactly the documents within every bound. */
  method EnforceLimits(value: Json) returns (r: Result<(), Breach>)
    ensures r.Ok? <==> WithinLimits(value)
    ensures r == Err(JsonDepth) ==> Depth(value) > MAX_JSON_DEPTH
    ensures r == Err(JsonItems) ==> Nodes(value) > MAX_JSON_ITEMS
    ensures r == Err(StringBytes) ==> !TextFits(value)
  {
    hide Depth, Nodes, TextFits, OwnTextFits, StackNodes, Children;
    var stack := [Visit(value, 1)];
    var items := 0;
    StartStack(value);
    while stack != []
      invariant items + StackNodes(stack) == Nodes(value)
      invariant items <= MAX_JSON_ITEMS
      invariant Depth(value) <= MAX_JSON_DEPTH <==> AllShallow(stack)
      invariant TextFits(value) <==> AllTextFits(stack)
      decreases StackNodes(stack)
    {
      var x, below := stack[|stack| - 1], stack[..|stack| - 1];
      assert stack == below + [x];
      if x.depth > MAX_JSON_DEPTH {
        TooDeep(stack);
        return Err(JsonDepth);
      }
      VisitNodes(below, x);
      VisitShallow(below, x);
      VisitText(below, x);
      items := items + 1;
      if items > MAX_JSON_ITEMS {
        return Err(JsonItems);
      }
      var ok, kids := Open(x);
      if !ok {
        return Err(StringBytes);
      }
      stack := below + kids;
    }
    EmptyVisits();
    return Ok(());
  }

  lemma {:induction false} StartStack(value: Json)
    ensures StackNodes([Visit(value, 1)]) == Nodes(value)
    ensures AllShallow([Visit(value, 1)]) <==> Depth(value) <= MAX_JSON_DEPTH
    ensures AllTextFits([Visit(value, 1)]) <==> TextFits(value)
  {
    hide Nodes, Depth, TextFits;
    assert [Visit(value, 1)][0] == Visit(value, 1);
    assert [Visit(value, 1)][1..] == [];
    if Shallow(Visit(value, 1)) { assert AllShallow([Visit(value, 1)]); }
  }

  lemma {:induction false} EmptyVisits()
    ensures StackNodes([]) == 0
  {
  }

  lemma {:induction false} TooDeep(stack: seq<Visit>)
    requires stack != [] && stack[|stack| - 1].depth > MAX_JSON_DEPTH
    ensures !AllShallow(stack)
  {
    assert !Shallow(stack[|stack| - 1]);
  }
}
