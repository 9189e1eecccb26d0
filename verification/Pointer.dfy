/**
  JSON pointers (sections 3 and 4 of RFC 6901) as the runner builds, reads and writes them,
  and the leaf rewriting they are used for.
 */
module Pointer {
  import opened Outcomes
  import opened Sorting
  import opened Text
  import opened Json

  // ---- building ------------------------------------------------------------------------------

  function StepText(step: Step): string
  {
    match step
    case Key(name) => Escape(name)
    case Index(at) => Decimal(at)
  }

  function Extend(pointer: string, step: Step): (p: string)
    ensures |pointer| < |p|
  {
    pointer + "/" + StepText(step)
  }

  /** The whole document is reported as "/". */
  function Shown(pointer: string): string { if pointer == "" then "/" else pointer }

  /** `_leaf_pointers`: every leaf with its pointer, in document order. */
  function LeafPointers(v: Json, pointer: string): seq<(string, Json)>
    decreases v
  {
    if Leaf(v) then [(Shown(pointer), v)] else LeavesFrom(v, pointer, 0)
  }

  function LeavesFrom(v: Json, pointer: string, i: nat): seq<(string, Json)>
    requires i <= Arity(v)
    decreases v, Arity(v) - i
  {
    if i == Arity(v) then []
    else LeafPointers(ChildAt(v, i), Extend(pointer, StepAt(v, i))) + LeavesFrom(v, pointer, i + 1)
  }

  // ---- reading and writing ---------------------------------------------------------------------

  /** Position of the child that one pointer part selects; None is the Python exception. */
  function Select(v: Json, part: string): (p: Option<nat>)
    ensures p.Some? ==> p.value < Arity(v)
  {
    if v.Arr? then
      match ParseInt(Unescape(part))
      case None => None
      case Some(n) =>
        if 0 <= n < |v.items| then Some(n)
        else if -|v.items| <= n < 0 then Some(n + |v.items|)
        else None
    else if v.Obj? then Position(v, Key(Unescape(part)))
    else None
  }

  function Parts(pointer: string): seq<string> { Split(pointer, '/')[1..] }

  function Walk(v: Json, parts: seq<string>): Option<Json>
    decreases parts
  {
    if parts == [] then Some(v)
    else
      match Select(v, parts[0])
      case None => None
      case Some(i) => Walk(ChildAt(v, i), parts[1..])
  }

  /** `_pointer_get`. */
  method PointerGet(value: Json, pointer: string) returns (found: Option<Json>)
    ensures found == Walk(value, Parts(pointer))
  {
    var parts := Parts(pointer);
    var current := value;
    var k := 0;
    while k < |parts|
      invariant 0 <= k <= |parts|
      invariant Walk(value, parts) == Walk(current, parts[k..])
    {
      var p := Select(current, parts[k]);
      assert parts[k..][0] == parts[k] && parts[k..][1..] == parts[k + 1..];
      if p.None? {
        return None;
      }
      current := ChildAt(current, p.value);
      k := k + 1;
    }
    return Some(current);
  }

  /** Replaces the child at position i. */
  function WithChild(v: Json, i: nat, c: Json): (w: Json)
    requires i < Arity(v)
    ensures Leaf(w) == Leaf(v) && w.Arr? == v.Arr? && Arity(w) == Arity(v)
    ensures forall j :: 0 <= j < Arity(v) ==>
              StepAt(w, j) == StepAt(v, j) && ChildAt(w, j) == if j == i then c else ChildAt(v, j)
  {
    if v.Arr? then Arr(v.items[i := c]) else Obj(v.fields[i := Field(v.fields[i].key, c)])
  }

  /** What the last part of a pointer writes into its container. */
  function Put(v: Json, part: string, replacement: Json): Option<Json>
  {
    match Select(v, part)
    case Some(i) => Some(WithChild(v, i, replacement))
    case None => if v.Obj? then Some(Obj(v.fields + [Field(Unescape(part), replacement)])) else None
  }

  /** The document `_pointer_set` leaves behind; a key that was missing goes to the end. */
  function Store(v: Json, parts: seq<string>, replacement: Json): Option<Json>
    decreases parts
  {
    if parts == [] then None
    else if |parts| == 1 then Put(v, parts[0], replacement)
    else
      match Select(v, parts[0])
      case None => None
      case Some(i) =>
        match Store(ChildAt(v, i), parts[1..], replacement)
        case None => None
        case Some(c) => Some(WithChild(v, i, c))
  }

  // ---- steps and their texts -----------------------------------------------------------------

  lemma {:induction false} StepTextHasNoSlash(step: Step)
    ensures '/' !in StepText(step)
  {
    match step
    case Key(name) => EscapeHasNoSlash(name);
    case Index(at) => ParseIntOfDecimal(at);
  }

  lemma {:induction false} UnescapePlain(s: string)
    requires forall i :: 0 <= i < |s| ==> s[i] != '~'
    ensures Replace(s, "~1", "/") == s && Replace(s, "~0", "~") == s
  {
    if |s| >= 2 {
      assert s[..2][0] == s[0];
      UnescapePlain(s[1..]);
      assert s == [s[0]] + s[1..];
    }
  }

  /** The text of a step selects exactly that child. */
  lemma {:induction false} SelectStepText(v: Json, i: nat)
    requires WellFormed(v) && i < Arity(v)
    ensures Select(v, StepText(StepAt(v, i))) == Some(i)
  {
    if v.Arr? {
      UnescapePlain(Decimal(i));
      ParseIntOfDecimal(i);
    } else {
      UnescapeEscape(v.fields[i].key);
      PositionOfStep(v, i);
    }
  }

  lemma {:induction false} StepTextsDiffer(v: Json, i: nat, j: nat)
    requires WellFormed(v) && i < Arity(v) && j < Arity(v) && i != j
    ensures StepText(StepAt(v, i)) != StepText(StepAt(v, j))
  {
    SelectStepText(v, i);
    SelectStepText(v, j);
  }

  // ---- leaves and their pointers ---------------------------------------------------------------

  /** What a pointer adds below a base pointer: nothing, or something that starts with a slash. */
  predicate Below(base: string, pointer: string)
  {
    base <= pointer && (pointer == base || pointer[|base|] == '/')
  }

  lemma {:induction false} BelowParent(base: string, s: Step, p: string)
    requires Below(Extend(base, s), p)
    ensures Below(base, p)
  {
    var next := Extend(base, s);
    assert next[..|base|] == base && next[|base|] == '/';
    assert p[..|base|] == p[..|next|][..|base|];
    assert p[|base|] == p[..|next|][|base|];
  }

  lemma {:induction false} LeavesFromChild(v: Json, pointer: string, i: nat, k: nat, e: (string, Json))
    requires i <= k < Arity(v)
    requires e in LeafPointers(ChildAt(v, k), Extend(pointer, StepAt(v, k)))
    ensures e in LeavesFrom(v, pointer, i)
    decreases k - i
  {
    if i < k { LeavesFromChild(v, pointer, i + 1, k, e); }
  }

  /** The child whose leaves hold e. */
  lemma {:induction false} ChildOfLeaf(v: Json, pointer: string, i: nat, e: (string, Json)) returns (k: nat)
    requires i <= Arity(v) && e in LeavesFrom(v, pointer, i)
    ensures i <= k < Arity(v) && e in LeafPointers(ChildAt(v, k), Extend(pointer, StepAt(v, k)))
    decreases Arity(v) - i
  {
    if e in LeafPointers(ChildAt(v, i), Extend(pointer, StepAt(v, i))) {
      k := i;
    } else {
      k := ChildOfLeaf(v, pointer, i + 1, e);
    }
  }

  lemma {:induction false} LeafIsBelow(v: Json, base: string, e: (string, Json))
    requires base != "" || !Leaf(v)
    requires e in LeafPointers(v, base)
    ensures Below(base, e.0) && Leaf(e.1) && (e.0 == base <==> Leaf(v))
    decreases v
  {
    if !Leaf(v) {
      var k := ChildOfLeaf(v, base, 0, e);
      var next := Extend(base, StepAt(v, k));
      LeafIsBelow(ChildAt(v, k), next, e);
      assert next[..|base|] == base && next[|base|] == '/';
      assert e.0[..|base|] == e.0[..|next|][..|base|];
      assert e.0[|base|] == next[|base|];
    }
  }

  lemma {:induction false} SplitHead(text: string, rest: string)
    requires '/' !in text && (rest == "" || rest[0] == '/')
    ensures Split(text + rest, '/') == [text] + Split(rest, '/')[1..]
  {
    SplitAfterPrefix(text, rest, '/');
    var parts := Split(rest, '/');
    assert parts[0] == "";
    assert text + parts[0] == text;
  }

  lemma {:induction false} SplitSlash(s: string)
    ensures Split("/" + s, '/') == [""] + Split(s, '/')
  {
    assert ("/" + s)[1..] == s;
  }

  /** Pointers below two different children of one node differ. */
  lemma {:induction false} ChildPointersDiffer(v: Json, base: string, i: nat, j: nat, p: string, q: string)
    requires WellFormed(v) && i < Arity(v) && j < Arity(v) && i != j
    requires Below(Extend(base, StepAt(v, i)), p) && Below(Extend(base, StepAt(v, j)), q)
    ensures p != q
  {
    StepTextsDiffer(v, i, j);
    var s, t := StepText(StepAt(v, i)), StepText(StepAt(v, j));
    StepTextHasNoSlash(StepAt(v, i));
    StepTextHasNoSlash(StepAt(v, j));
    var n := |base| + 1;
    var x, y := p[n + |s|..], q[n + |t|..];
    assert p[n..] == s + x && q[n..] == t + y by {
      assert p == Extend(base, StepAt(v, i)) + x && q == Extend(base, StepAt(v, j)) + y;
    }
    SplitHead(s, x);
    SplitHead(t, y);
    assert Split(p[n..], '/')[0] == s && Split(q[n..], '/')[0] == t;
  }

  /** The parts of a pointer below a base. */
  function Tail(base: string, pointer: string): seq<string>
    requires |base| <= |pointer|
  {
    Split(pointer[|base|..], '/')[1..]
  }

  lemma {:induction false} DropPrefix(base: string, step: Step, rest: string)
    ensures (Extend(base, step) + rest)[|base|..] == "/" + StepText(step) + rest
    ensures (Extend(base, step) + rest)[|Extend(base, step)|..] == rest
  {
  }

  lemma {:induction false} TailStep(base: string, step: Step, pointer: string)
    requires Below(Extend(base, step), pointer)
    ensures |base| <= |pointer| && |Extend(base, step)| <= |pointer|
    ensures Tail(base, pointer) == [StepText(step)] + Tail(Extend(base, step), pointer)
  {
    var next := Extend(base, step);
    var rest := pointer[|next|..];
    assert pointer == next + rest;
    assert |base| <= |next|;
    DropPrefix(base, step, rest);
    StepTextHasNoSlash(step);
    SplitHead(StepText(step), rest);
    SplitSlash(StepText(step) + rest);
    assert "/" + StepText(step) + rest == "/" + (StepText(step) + rest);
  }

  /** Every listed pointer resolves to the leaf it was listed with. */
  lemma {:induction false} LeafResolves(v: Json, base: string, e: (string, Json))
    requires WellFormed(v) && (base != "" || !Leaf(v))
    requires e in LeafPointers(v, base)
    ensures |base| <= |e.0| && Walk(v, Tail(base, e.0)) == Some(e.1)
    decreases v
  {
    LeafIsBelow(v, base, e);
    if !Leaf(v) {
      var k := ChildOfLeaf(v, base, 0, e);
      var step := StepAt(v, k);
      LeafIsBelow(ChildAt(v, k), Extend(base, step), e);
      LeafResolves(ChildAt(v, k), Extend(base, step), e);
      TailStep(base, step, e.0);
      SelectStepText(v, k);
    }
  }

  /** `_pointer_get` inverts `_leaf_pointers` on every object or array. */
  lemma {:induction false} PointerGetFindsLeaf(v: Json, e: (string, Json))
    requires WellFormed(v) && !Leaf(v)
    requires e in LeafPointers(v, "")
    ensures Walk(v, Parts(e.0)) == Some(e.1)
  {
    LeafResolves(v, "", e);
    assert e.0[0..] == e.0;
  }

  ghost predicate DistinctPointers(leaves: seq<(string, Json)>)
  {
    forall i, j :: 0 <= i < j < |leaves| ==> leaves[i].0 != leaves[j].0
  }

  /** No two leaves of a document share a pointer. */
  lemma {:induction false} LeafPointersDistinct(v: Json, base: string)
    requires WellFormed(v)
    ensures DistinctPointers(LeafPointers(v, base))
    decreases v
  {
    if !Leaf(v) { LeavesFromDistinct(v, base, 0); }
  }

  lemma {:induction false} LeavesFromDistinct(v: Json, base: string, i: nat)
    requires WellFormed(v) && i <= Arity(v)
    ensures DistinctPointers(LeavesFrom(v, base, i))
    decreases v, Arity(v) - i
  {
    if i < Arity(v) {
      var next := Extend(base, StepAt(v, i));
      var here, rest := LeafPointers(ChildAt(v, i), next), LeavesFrom(v, base, i + 1);
      LeafPointersDistinct(ChildAt(v, i), next);
      LeavesFromDistinct(v, base, i + 1);
      forall a, b | 0 <= a < |here| && 0 <= b < |rest| ensures here[a].0 != rest[b].0 {
        var k := ChildOfLeaf(v, base, i + 1, rest[b]);
        LeafIsBelow(ChildAt(v, i), next, here[a]);
        LeafIsBelow(ChildAt(v, k), Extend(base, StepAt(v, k)), rest[b]);
        ChildPointersDiffer(v, base, i, k, here[a].0, rest[b].0);
      }
    }
  }

  // ---- rewriting leaves ----------------------------------------------------------------------

  /** A rewriting of leaves by pointer: Some is the replacement, None leaves the leaf alone. */
  type Rewriting = string -> Option<Json>

  function Chosen(f: Rewriting, pointer: string, v: Json): Json
  {
    match f(pointer) case Some(r) => r case None => v
  }

  /** Rewrites every leaf in one descent, without going through pointer text. */
  function Mask(v: Json, base: string, f: Rewriting): Json
    decreases v
  {
    if Leaf(v) then Chosen(f, Shown(base), v)
    else Rebuild(v, seq(Arity(v), i requires 0 <= i < Arity(v) => Mask(ChildAt(v, i), Extend(base, StepAt(v, i)), f)))
  }

  lemma {:induction false} MaskContainer(v: Json, base: string, f: Rewriting)
    requires !Leaf(v)
    ensures var w := Mask(v, base, f);
            && !Leaf(w) && w.Arr? == v.Arr? && Arity(w) == Arity(v)
            && forall i :: 0 <= i < Arity(v) ==>
                 StepAt(w, i) == StepAt(v, i) && ChildAt(w, i) == Mask(ChildAt(v, i), Extend(base, StepAt(v, i)), f)
  {
  }

  /** Replacing leaves by leaves keeps a document well formed. */
  ghost predicate ReplacesByLeaves(f: Rewriting) { forall p :: f(p).Some? ==> Leaf(f(p).value) }

  lemma {:induction false} MaskWellFormed(v: Json, base: string, f: Rewriting)
    requires WellFormed(v) && ReplacesByLeaves(f)
    ensures WellFormed(Mask(v, base, f))
    decreases v
  {
    if !Leaf(v) {
      MaskContainer(v, base, f);
      forall i | 0 <= i < Arity(v) ensures WellFormed(ChildAt(Mask(v, base, f), i)) {
        MaskWellFormed(ChildAt(v, i), Extend(base, StepAt(v, i)), f);
      }
    }
  }

  lemma {:induction false} SameChildren(v: Json, w: Json)
    requires v.Arr? == w.Arr? && v.Obj? == w.Obj? && !Leaf(v) && Arity(v) == Arity(w)
    requires forall i :: 0 <= i < Arity(v) ==> StepAt(v, i) == StepAt(w, i) && ChildAt(v, i) == ChildAt(w, i)
    ensures v == w
  {
    if v.Arr? {
      assert forall i :: 0 <= i < |v.items| ==> v.items[i] == ChildAt(v, i) && w.items[i] == ChildAt(w, i);
      assert v.items == w.items;
    } else {
      forall i | 0 <= i < |v.fields| ensures v.fields[i] == w.fields[i] {
        assert StepAt(v, i) == StepAt(w, i) && ChildAt(v, i) == ChildAt(w, i);
      }
      assert v.fields == w.fields;
    }
  }

  /** Only what a rewriting says at the document's own leaves matters. */
  lemma {:induction false} MaskCongruent(v: Json, base: string, f: Rewriting, g: Rewriting)
    requires forall e :: e in LeafPointers(v, base) ==> f(e.0) == g(e.0)
    ensures Mask(v, base, f) == Mask(v, base, g)
    decreases v
  {
    if Leaf(v) {
      assert (Shown(base), v) in LeafPointers(v, base);
    } else {
      MaskContainer(v, base, f);
      MaskContainer(v, base, g);
      forall i | 0 <= i < Arity(v) ensures ChildAt(Mask(v, base, f), i) == ChildAt(Mask(v, base, g), i) {
        var next := Extend(base, StepAt(v, i));
        forall e | e in LeafPointers(ChildAt(v, i), next) ensures f(e.0) == g(e.0) {
          LeavesFromChild(v, base, 0, i, e);
        }
        MaskCongruent(ChildAt(v, i), next, f, g);
      }
      SameChildren(Mask(v, base, f), Mask(v, base, g));
    }
  }

  lemma {:induction false} MaskNothing(v: Json, base: string, f: Rewriting)
    requires forall e :: e in LeafPointers(v, base) ==> f(e.0).None?
    ensures Mask(v, base, f) == v
    decreases v
  {
    if Leaf(v) {
      assert (Shown(base), v) in LeafPointers(v, base);
    } else {
      MaskContainer(v, base, f);
      forall i | 0 <= i < Arity(v) ensures ChildAt(Mask(v, base, f), i) == ChildAt(v, i) {
        var next := Extend(base, StepAt(v, i));
        forall e | e in LeafPointers(ChildAt(v, i), next) ensures f(e.0).None? {
          LeavesFromChild(v, base, 0, i, e);
        }
        MaskNothing(ChildAt(v, i), next, f);
      }
      SameChildren(Mask(v, base, f), v);
    }
  }

  function RewriteLeaves(leaves: seq<(string, Json)>, f: Rewriting): seq<(string, Json)>
  {
    seq(|leaves|, i requires 0 <= i < |leaves| => (leaves[i].0, Chosen(f, leaves[i].0, leaves[i].1)))
  }

  lemma {:induction false} RewriteConcat(a: seq<(string, Json)>, b: seq<(string, Json)>, f: Rewriting)
    ensures RewriteLeaves(a + b, f) == RewriteLeaves(a, f) + RewriteLeaves(b, f)
  {
  }

  /** Rewriting moves no leaf: the same pointers in the same order, with the chosen values. */
  lemma {:induction false} LeavesOfMask(v: Json, base: string, f: Rewriting)
    requires ReplacesByLeaves(f)
    ensures LeafPointers(Mask(v, base, f), base) == RewriteLeaves(LeafPointers(v, base), f)
    decreases v
  {
    if !Leaf(v) { LeavesFromMask(v, base, f, 0); }
  }

  lemma {:induction false} LeavesFromMask(v: Json, base: string, f: Rewriting, i: nat)
    requires !Leaf(v) && i <= Arity(v) && ReplacesByLeaves(f)
    ensures Arity(Mask(v, base, f)) == Arity(v)
    ensures LeavesFrom(Mask(v, base, f), base, i) == RewriteLeaves(LeavesFrom(v, base, i), f)
    decreases v, Arity(v) - i
  {
    MaskContainer(v, base, f);
    if i < Arity(v) {
      LeavesOfMask(ChildAt(v, i), Extend(base, StepAt(v, i)), f);
      LeavesFromMask(v, base, f, i + 1);
      RewriteConcat(LeafPointers(ChildAt(v, i), Extend(base, StepAt(v, i))), LeavesFrom(v, base, i + 1), f);
    }
  }

  /** Two rewritings in a row are one: the later has the last word. */
  function Then(f: Rewriting, g: Rewriting): Rewriting
  {
    p => if g(p).Some? then g(p) else f(p)
  }

  lemma {:induction false} MaskTwice(v: Json, base: string, f: Rewriting, g: Rewriting)
    requires ReplacesByLeaves(f)
    ensures Mask(Mask(v, base, f), base, g) == Mask(v, base, Then(f, g))
    decreases v
  {
    if !Leaf(v) {
      var once := Mask(v, base, f);
      MaskContainer(v, base, f);
      MaskContainer(once, base, g);
      MaskContainer(v, base, Then(f, g));
      forall i | 0 <= i < Arity(v)
        ensures ChildAt(Mask(once, base, g), i) == ChildAt(Mask(v, base, Then(f, g)), i)
      {
        MaskTwice(ChildAt(v, i), Extend(base, StepAt(v, i)), f, g);
      }
      SameChildren(Mask(once, base, g), Mask(v, base, Then(f, g)));
    }
  }

  // ---- writing through a pointer is a rewriting of one leaf --------------------------------------

  /** g is f, except that it sends the pointer p to r. */
  ghost predicate Updates(leaves: seq<(string, Json)>, f: Rewriting, g: Rewriting, p: string, r: Json)
  {
    g(p) == Some(r) && forall e :: e in leaves && e.0 != p ==> g(e.0) == f(e.0)
  }

  lemma {:induction false} SiblingUntouched(v: Json, base: string, f: Rewriting, g: Rewriting, p: string, r: Json, k: nat, j: nat)
    requires WellFormed(v) && k < Arity(v) && j < Arity(v) && j != k && !Leaf(v)
    requires Below(Extend(base, StepAt(v, k)), p)
    requires Updates(LeafPointers(v, base), f, g, p, r)
    ensures Mask(ChildAt(v, j), Extend(base, StepAt(v, j)), f) == Mask(ChildAt(v, j), Extend(base, StepAt(v, j)), g)
  {
    var next := Extend(base, StepAt(v, j));
    forall e | e in LeafPointers(ChildAt(v, j), next) ensures f(e.0) == g(e.0) {
      LeavesFromChild(v, base, 0, j, e);
      LeafIsBelow(ChildAt(v, j), next, e);
      ChildPointersDiffer(v, base, k, j, p, e.0);
    }
    MaskCongruent(ChildAt(v, j), next, f, g);
  }

  lemma {:induction false} StoreThrough(v: Json, parts: seq<string>, k: nat, r: Json, inner: Json)
    requires parts != [] && Select(v, parts[0]) == Some(k)
    requires if |parts| == 1 then inner == r else Store(ChildAt(v, k), parts[1..], r) == Some(inner)
    ensures Store(v, parts, r) == Some(WithChild(v, k, inner))
  {
    hide Select, WithChild;
  }

  lemma {:induction false} StoreIsRewriting(v: Json, base: string, f: Rewriting, g: Rewriting, e: (string, Json), r: Json)
    requires WellFormed(v) && !Leaf(v)
    requires e in LeafPointers(v, base)
    requires Updates(LeafPointers(v, base), f, g, e.0, r)
    ensures |base| <= |e.0|
    ensures Store(Mask(v, base, f), Tail(base, e.0), r) == Some(Mask(v, base, g))
    decreases v
  {
    hide Select, Store, WithChild;
    LeafIsBelow(v, base, e);
    var k := ChildOfLeaf(v, base, 0, e);
    var step, c := StepAt(v, k), ChildAt(v, k);
    var next := Extend(base, step);
    LeafIsBelow(c, next, e);
    TailStep(base, step, e.0);
    MaskContainer(v, base, f);
    MaskContainer(v, base, g);
    var w := Mask(v, base, f);
    assert Select(w, StepText(step)) == Some(k) by { SelectStepText(v, k); SelectOfMask(v, base, f, StepText(step)); }
    forall j | 0 <= j < Arity(v) && j != k ensures ChildAt(w, j) == ChildAt(Mask(v, base, g), j) {
      SiblingUntouched(v, base, f, g, e.0, r, k, j);
    }
    assert Updates(LeafPointers(c, next), f, g, e.0, r) by {
      forall x | x in LeafPointers(c, next) ensures x in LeafPointers(v, base) { LeavesFromChild(v, base, 0, k, x); }
    }
    var parts := Tail(base, e.0);
    assert parts[1..] == Tail(next, e.0);
    var replaced: Json;
    if Leaf(c) {
      assert e.0[|next|..] == "";
      replaced := r;
    } else {
      StoreIsRewriting(c, next, f, g, e, r);
      replaced := Mask(c, next, g);
      assert parts[1..] != [] ;
    }
    StoreThrough(w, parts, k, r, replaced);
    SameChildren(WithChild(w, k, replaced), Mask(v, base, g));
  }

  lemma {:induction false} SelectOfMask(v: Json, base: string, f: Rewriting, part: string)
    requires !Leaf(v)
    ensures Select(Mask(v, base, f), part) == Select(v, part)
  {
    MaskContainer(v, base, f);
    if v.Obj? { PositionOfMask(v, base, f, Key(Unescape(part)), 0); }
  }

  lemma {:induction false} PositionOfMask(v: Json, base: string, f: Rewriting, step: Step, i: nat)
    requires !Leaf(v) && i <= Arity(v)
    ensures Arity(Mask(v, base, f)) == Arity(v)
    ensures Position(Mask(v, base, f), step, i) == Position(v, step, i)
    decreases Arity(v) - i
  {
    hide Mask;
    MaskContainer(v, base, f);
    if i < Arity(v) { PositionOfMask(v, base, f, step, i + 1); }
  }

  /** `_pointer_set` at a leaf's pointer changes that leaf and no other. */
  lemma {:induction false} PointerSetChangesOneLeaf(v: Json, k: nat, r: Json)
    requires WellFormed(v) && !Leaf(v) && Leaf(r)
    requires k < |LeafPointers(v, "")|
    ensures var leaves := LeafPointers(v, "");
            var after := Store(v, Parts(leaves[k].0), r);
            after.Some? && WellFormed(after.value) && LeafPointers(after.value, "") == leaves[k := (leaves[k].0, r)]
  {
    var leaves := LeafPointers(v, "");
    var p := leaves[k].0;
    var none: Rewriting := _ => None;
    var one: Rewriting := q => if q == p then Some(r) else None;
    MaskNothing(v, "", none);
    StoreIsRewriting(v, "", none, one, leaves[k], r);
    assert p[0..] == p;
    LeavesOfMask(v, "", one);
    MaskWellFormed(v, "", one);
    LeafPointersDistinct(v, "");
    assert RewriteLeaves(leaves, one) == leaves[k := (p, r)];
  }
}
