/**
  JSON values as the reference runner holds them: parsed by Python, objects keeping the order
  in which their keys arrived.
 */
module Json {
  import opened Outcomes
  import opened Sorting
  import opened Text

  /** A parsed float: never NaN, but an overflowing literal parses to an infinity. */
  datatype PyFloat =
    | Finite(value: real, negativeZero: bool)
    | Infinite(positive: bool)

  datatype Json =
    | Null
    | Bool(b: bool)
    | Int(i: int)
    | Float(f: PyFloat)
    | Str(s: string)
    | Arr(items: seq<Json>)
    | Obj(fields: seq<Field>)

  datatype Field = Field(key: string, value: Json)

  /** One step from a container to a child. */
  datatype Step = Key(name: string) | Index(at: nat)

  // ---- containers, seen uniformly ---------------------------------------------------------

  predicate Leaf(v: Json) { !v.Arr? && !v.Obj? }

  function Arity(v: Json): nat
  {
    if v.Arr? then |v.items| else if v.Obj? then |v.fields| else 0
  }

  function ChildAt(v: Json, i: nat): (c: Json)
    requires i < Arity(v)
    ensures c < v
  {
    if v.Arr? then v.items[i] else v.fields[i].value
  }

  function StepAt(v: Json, i: nat): Step
    requires i < Arity(v)
  {
    if v.Arr? then Index(i) else Key(v.fields[i].key)
  }

  /** The same container around other children. */
  function Rebuild(v: Json, children: seq<Json>): (w: Json)
    requires |children| == Arity(v)
    ensures Leaf(w) == Leaf(v) && w.Arr? == v.Arr? && Arity(w) == Arity(v)
    ensures forall i :: 0 <= i < Arity(v) ==> StepAt(w, i) == StepAt(v, i) && ChildAt(w, i) == children[i]
  {
    if v.Arr? then Arr(children)
    else if v.Obj? then Obj(seq(|children|, i requires 0 <= i < |children| => Field(v.fields[i].key, children[i])))
    else v
  }

  /** Python dictionaries cannot repeat a key, and the loader refuses documents that do. */
  ghost predicate WellFormed(v: Json)
  {
    && (forall i, j :: 0 <= i < j < Arity(v) ==> StepAt(v, i) != StepAt(v, j))
    && (forall i :: 0 <= i < Arity(v) ==> WellFormed(ChildAt(v, i)))
  }

  /** Position of the child reached by a step, searching from position i on. */
  function Position(v: Json, step: Step, i: nat := 0): (p: Option<nat>)
    requires i <= Arity(v)
    ensures p.Some? ==> i <= p.value < Arity(v) && StepAt(v, p.value) == step
    ensures p.None? ==> forall j :: i <= j < Arity(v) ==> StepAt(v, j) != step
    decreases Arity(v) - i
  {
    if i == Arity(v) then None
    else if StepAt(v, i) == step then Some(i)
    else Position(v, step, i + 1)
  }

  predicate Has(v: Json, step: Step) { Position(v, step).Some? }

  function Child(v: Json, step: Step): (c: Json)
    requires Has(v, step)
    ensures c < v
  {
    ChildAt(v, Position(v, step).value)
  }

  lemma {:induction false} PositionOfStep(v: Json, i: nat)
    requires WellFormed(v) && i < Arity(v)
    ensures Position(v, StepAt(v, i)) == Some(i)
    ensures Has(v, StepAt(v, i)) && Child(v, StepAt(v, i)) == ChildAt(v, i)
  {
  }

  // ---- equality as the comparator sees it -----------------------------------------------

  /** `type(a) is type(b)`. */
  predicate SameType(a: Json, b: Json)
  {
    && a.Null? == b.Null? && a.Bool? == b.Bool? && a.Int? == b.Int? && a.Float? == b.Float?
    && a.Str? == b.Str? && a.Arr? == b.Arr? && a.Obj? == b.Obj?
  }

  /** Python's `==` on floats: the sign of zero does not count. */
  predicate FloatEq(a: PyFloat, b: PyFloat)
  {
    if a.Finite? && b.Finite? then a.value == b.value else a == b
  }

  /** `==` on two leaves of one type. */
  predicate LeafEq(a: Json, b: Json)
  {
    if a.Float? && b.Float? then FloatEq(a.f, b.f) else a == b
  }

  /**
    Structural equality with types distinguished: same steps into each container, whatever the
    order of an object's keys, and equal leaves.
   */
  ghost predicate StructEq(a: Json, b: Json)
    decreases a
  {
    && SameType(a, b)
    && (if Leaf(a) then LeafEq(a, b)
        else
          && (forall i :: 0 <= i < Arity(a) ==>
                Has(b, StepAt(a, i)) && StructEq(ChildAt(a, i), Child(b, StepAt(a, i))))
          && (forall i :: 0 <= i < Arity(b) ==> Has(a, StepAt(b, i))))
  }

  // ---- size --------------------------------------------------------------------------------

  /** Number of nodes, containers included. */
  function Nodes(v: Json): (n: nat)
    ensures n >= 1
  {
    1 + NodesFrom(v, 0)
  }

  function NodesFrom(v: Json, i: nat): nat
    requires i <= Arity(v)
    decreases v, Arity(v) - i
  {
    if i == Arity(v) then 0 else Nodes(ChildAt(v, i)) + NodesFrom(v, i + 1)
  }

  /** Number of nodes on the longest way down. */
  function Depth(v: Json): (d: nat)
    ensures d >= 1
  {
    1 + DepthFrom(v, 0)
  }

  function DepthFrom(v: Json, i: nat): nat
    requires i <= Arity(v)
    decreases v, Arity(v) - i
  {
    if i == Arity(v) then 0
    else
      var head, rest := Depth(ChildAt(v, i)), DepthFrom(v, i + 1);
      if head > rest then head else rest
  }

  lemma {:induction false} DepthFromAtMost(v: Json, i: nat, d: nat)
    requires i <= Arity(v)
    ensures DepthFrom(v, i) <= d <==> forall j :: i <= j < Arity(v) ==> Depth(ChildAt(v, j)) <= d
    decreases Arity(v) - i
  {
    hide Depth;
    if i < Arity(v) { DepthFromAtMost(v, i + 1, d); }
  }
}
