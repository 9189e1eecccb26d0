/**
  The in-place pass that masks the leaves a central rule allows to vary, recording each masking
  inside the very document it rewrites.
 */
module Normalize {
  import opened Outcomes
  import opened Sorting
  import opened Text
  import opened Json
  import opened Pointer

  /** One rule of the central policy; matching its pointer patterns is an arbitrary predicate. */
  datatype Rule = Rule(id: string, classes: seq<string>, allowed: string -> bool, replacement: Json)

  type Policy = map<string, Rule>

  /** The policy is indexed by the identifiers of its own rules, and masks by leaves. */
  ghost predicate PolicyOk(policy: Policy)
  {
    forall id :: id in policy ==> policy[id].id == id && Leaf(policy[id].replacement)
  }

  datatype Refusal =
    | UnknownRule(rule: string)
    | ForbiddenClass(rule: string)
    | ConstraintViolated(rule: string, pointer: string)
    | Malformed

  /** The document as the pass leaves it, and why it stopped early if it did. */
  datatype Outcome = Outcome(doc: Json, refusal: Option<Refusal>)

  const APPLIED := "normalizations_applied"

  /** `_constraint_ok`. */
  predicate ConstraintOk(rule: string, v: Json)
  {
    if rule == "ephemeral_port" then v.Int? && 1024 <= v.i <= 65535
    else if rule == "process_id" then v.Int? && v.i > 0
    else rule == "log_prefix" && v.Str? && v.s != ""
  }

  function FieldOf(doc: Json, key: string): Option<Json>
  {
    if doc.Obj? && Has(doc, Key(key)) then Some(Child(doc, Key(key))) else None
  }

  /** The oracle class is one of the rule's. */
  predicate ClassAllowed(c: Option<Json>, rule: Rule)
  {
    c.Some? && c.value.Str? && c.value.s in rule.classes
  }

  /** The record of one masking; `digest` stands for the hash of the canonical encoding. */
  function Record(rule: string, pointer: string, original: Json, replacement: Json, digest: Json -> string): Json
  {
    Obj([Field("rule", Str(rule)), Field("json_pointer", Str(pointer)), Field("original_value", original),
         Field("before_sha256", Str(digest(original))), Field("after_sha256", Str(digest(replacement)))])
  }

  // ---- the log of maskings inside the document --------------------------------------------------

  predicate HasLog(doc: Json)
  {
    doc.Obj? && Has(doc, Key(APPLIED)) && Child(doc, Key(APPLIED)).Arr?
  }

  function Log(doc: Json): seq<Json>
    requires HasLog(doc)
  {
    Child(doc, Key(APPLIED)).items
  }

  function Logged(doc: Json, records: seq<Json>): (d: Json)
    requires HasLog(doc)
    ensures d.Obj?
  {
    WithChild(doc, Position(doc, Key(APPLIED)).value, Arr(Log(doc) + records))
  }

  // ---- the pass, as a function of the document -----------------------------------------------------

  /** Masks one allowed leaf, or refuses it. */
  function ApplyLeaf(doc: Json, e: (string, Json), id: string, rule: Rule, digest: Json -> string): Outcome
  {
    if !ConstraintOk(id, e.1) then Outcome(doc, Some(ConstraintViolated(id, e.0)))
    else
      match Store(doc, Parts(e.0), rule.replacement)
      case None => Outcome(doc, Some(Malformed))
      case Some(stored) =>
        if HasLog(stored) then
          Outcome(Logged(stored, [Record(id, e.0, e.1, rule.replacement, digest)]), None)
        else Outcome(stored, Some(Malformed))
  }

  /** Goes through a snapshot of the leaves, in order. */
  function ApplyLeaves(doc: Json, leaves: seq<(string, Json)>, id: string, rule: Rule, digest: Json -> string): Outcome
    decreases |leaves|
  {
    if leaves == [] then Outcome(doc, None)
    else if !rule.allowed(leaves[0].0) then ApplyLeaves(doc, leaves[1..], id, rule, digest)
    else
      var o := ApplyLeaf(doc, leaves[0], id, rule, digest);
      if o.refusal.Some? then o else ApplyLeaves(o.doc, leaves[1..], id, rule, digest)
  }

  function ApplyRule(doc: Json, id: string, policy: Policy, digest: Json -> string): Outcome
  {
    if id !in policy then Outcome(doc, Some(UnknownRule(id)))
    else if FieldOf(doc, "oracle_class").None? then Outcome(doc, Some(Malformed))
    else if !ClassAllowed(FieldOf(doc, "oracle_class"), policy[id]) then Outcome(doc, Some(ForbiddenClass(id)))
    else ApplyLeaves(doc, LeafPointers(doc, ""), id, policy[id], digest)
  }

  function ApplyAll(doc: Json, requested: seq<string>, policy: Policy, digest: Json -> string): Outcome
    decreases |requested|
  {
    if requested == [] then Outcome(doc, None)
    else
      var o := ApplyRule(doc, requested[0], policy, digest);
      if o.refusal.Some? then o else ApplyAll(o.doc, requested[1..], policy, digest)
  }

  // ---- walking down to a container and back up --------------------------------------------------------

  /** Containers passed on the way, each with the position taken. */
  predicate Holds(trail: seq<(Json, nat)>) { forall i :: 0 <= i < |trail| ==> trail[i].1 < Arity(trail[i].0) }

  /** A rewritten container put back into those around it, innermost first. */
  function PutBack(trail: seq<(Json, nat)>, inner: Option<Json>): Option<Json>
    requires Holds(trail)
    decreases |trail|
  {
    if inner.None? || trail == [] then inner
    else
      var n := |trail| - 1;
      PutBack(trail[..n], Some(WithChild(trail[n].0, trail[n].1, inner.value)))
  }

  lemma {:induction false} PutBackNothing(trail: seq<(Json, nat)>)
    requires Holds(trail)
    ensures PutBack(trail, None) == None
  {
  }

  lemma {:induction false} PutBackOne(trail: seq<(Json, nat)>, v: Json, i: nat, inner: Option<Json>)
    requires Holds(trail) && i < Arity(v)
    ensures PutBack(trail + [(v, i)], inner) ==
            PutBack(trail, if inner.None? then None else Some(WithChild(v, i, inner.value)))
  {
    hide WithChild;
    assert (trail + [(v, i)])[..|trail|] == trail;
  }

  /** Puts the rewritten container back into those around it. */
  method WriteBack(trail: seq<(Json, nat)>, inner: Json) returns (outer: Json)
    requires Holds(trail)
    ensures PutBack(trail, Some(inner)) == Some(outer)
  {
    hide WithChild;
    outer := inner;
    var k := |trail|;
    assert trail[..k] == trail;
    while k > 0
      invariant 0 <= k <= |trail|
      invariant PutBack(trail, Some(inner)) == PutBack(trail[..k], Some(outer))
    {
      assert trail[..k][..k - 1] == trail[..k - 1];
      outer := WithChild(trail[k - 1].0, trail[k - 1].1, outer);
      k := k - 1;
    }
  }

  // ---- the pass itself, rewriting in place -----------------------------------------------------------

  /** A result held by the runner. */
  class Document {
    var root: Json

    constructor (value: Json)
      ensures root == value
    {
      root := value;
    }

    /** `_pointer_set`: walks to the last container, writes there, and puts the containers back on the way up. */
    method PointerSet(pointer: string, replacement: Json) returns (ok: bool)
      modifies this
      ensures ok == Store(old(root), Parts(pointer), replacement).Some?
      ensures root == if ok then Store(old(root), Parts(pointer), replacement).value else old(root)
    {
      hide Select, Put, WithChild;
      var parts := Parts(pointer);
      if parts == [] {
        return false;
      }
      var current := root;
      var trail: seq<(Json, nat)> := [];
      var k := 0;
      while k < |parts| - 1
        invariant 0 <= k < |parts| && root == old(root) && Holds(trail)
        invariant Store(root, parts, replacement) == PutBack(trail, Store(current, parts[k..], replacement))
      {
        var p := Select(current, parts[k]);
        assert parts[k..][0] == parts[k] && parts[k..][1..] == parts[k + 1..];
        if p.None? {
          PutBackNothing(trail);
          return false;
        }
        PutBackOne(trail, current, p.value, Store(ChildAt(current, p.value), parts[k + 1..], replacement));
        trail := trail + [(current, p.value)];
        current := ChildAt(current, p.value);
        k := k + 1;
      }
      assert parts[k..] == [parts[k]];
      var written := Put(current, parts[k], replacement);
      if written.None? {
        PutBackNothing(trail);
        return false;
      }
      root := WriteBack(trail, written.value);
      return true;
    }

    /** `_apply_requested_normalizations`. */
    method ApplyRequested(requested: seq<string>, policy: Policy, digest: Json -> string) returns (refusal: Option<Refusal>)
      modifies this
      ensures Outcome(root, refusal) == ApplyAll(old(root), requested, policy, digest)
    {
      var k := 0;
      while k < |requested|
        invariant 0 <= k <= |requested|
        invariant ApplyAll(root, requested[k..], policy, digest) == ApplyAll(old(root), requested, policy, digest)
      {
        assert requested[k..][0] == requested[k] && requested[k..][1..] == requested[k + 1..];
        var id := requested[k];
        if id !in policy {
          return Some(UnknownRule(id));
        }
        var rule := policy[id];
        var class_ := FieldOf(root, "oracle_class");
        if class_.None? {
          return Some(Malformed);
        }
        if !ClassAllowed(class_, rule) {
          return Some(ForbiddenClass(id));
        }
        var leaves := LeafPointers(root, "");
        refusal := ApplySnapshot(leaves, id, rule, digest);
        if refusal.Some? {
          return refusal;
        }
        k := k + 1;
      }
      return None;
    }

    /** The inner loop over the snapshot of leaves. */
    method ApplySnapshot(leaves: seq<(string, Json)>, id: string, rule: Rule, digest: Json -> string) returns (refusal: Option<Refusal>)
      modifies this
      ensures Outcome(root, refusal) == ApplyLeaves(old(root), leaves, id, rule, digest)
    {
      var k := 0;
      while k < |leaves|
        invariant 0 <= k <= |leaves|
        invariant ApplyLeaves(root, leaves[k..], id, rule, digest) == ApplyLeaves(old(root), leaves, id, rule, digest)
      {
        assert leaves[k..][0] == leaves[k] && leaves[k..][1..] == leaves[k + 1..];
        var pointer, original := leaves[k].0, leaves[k].1;
        if rule.allowed(pointer) {
          if !ConstraintOk(id, original) {
            return Some(ConstraintViolated(id, pointer));
          }
          var ok := PointerSet(pointer, rule.replacement);
          if !ok || !HasLog(root) {
            return Some(Malformed);
          }
          root := Logged(root, [Record(id, pointer, original, rule.replacement, digest)]);
        }
        k := k + 1;
      }
      return None;
    }
  }

  // ---- appending to the log commutes with masking ----------------------------------------------------

  const LOG_POINTER: string := Extend("", Key(APPLIED))

  function LogItem(i: nat): string { Extend(LOG_POINTER, Index(i)) }

  /** f says nothing about log entries from n on. */
  ghost predicate SilentFrom(f: Rewriting, n: nat)
  {
    forall i: nat, p :: n <= i && Below(LogItem(i), p) ==> f(p).None?
  }

  lemma {:induction false} LoggedChildren(doc: Json, records: seq<Json>)
    requires HasLog(doc)
    ensures var d, at := Logged(doc, records), Position(doc, Key(APPLIED)).value;
            && Arity(d) == Arity(doc) && ChildAt(d, at) == Arr(Log(doc) + records)
            && (forall j :: 0 <= j < Arity(doc) ==> StepAt(d, j) == StepAt(doc, j))
            && (forall j :: 0 <= j < Arity(doc) && j != at ==> ChildAt(d, j) == ChildAt(doc, j))
  {
  }

  lemma {:induction false} LogPosition(doc: Json, d: Json)
    requires WellFormed(doc) && HasLog(doc) && d.Obj? && Arity(d) == Arity(doc)
    requires forall j :: 0 <= j < Arity(doc) ==> StepAt(d, j) == StepAt(doc, j)
    requires ChildAt(d, Position(doc, Key(APPLIED)).value).Arr?
    ensures HasLog(d) && Position(d, Key(APPLIED)) == Position(doc, Key(APPLIED))
  {
    var at := Position(doc, Key(APPLIED)).value;
    assert StepAt(d, at) == Key(APPLIED);
    var p := Position(d, Key(APPLIED));
    assert p.Some? && StepAt(doc, p.value) == StepAt(doc, at);
  }

  lemma {:induction false} LoggedHasLog(doc: Json, records: seq<Json>)
    requires WellFormed(doc) && HasLog(doc)
    ensures HasLog(Logged(doc, records)) && Log(Logged(doc, records)) == Log(doc) + records
    ensures Position(Logged(doc, records), Key(APPLIED)) == Position(doc, Key(APPLIED))
  {
    LoggedChildren(doc, records);
    LogPosition(doc, Logged(doc, records));
  }

  lemma {:induction false} LoggedWellFormed(doc: Json, records: seq<Json>)
    requires WellFormed(doc) && HasLog(doc)
    requires forall i :: 0 <= i < |records| ==> WellFormed(records[i])
    ensures WellFormed(Logged(doc, records))
  {
    LoggedChildren(doc, records);
    var d, at := Logged(doc, records), Position(doc, Key(APPLIED)).value;
    var log := Arr(Log(doc) + records);
    assert WellFormed(log) by {
      forall i | 0 <= i < Arity(log) ensures WellFormed(ChildAt(log, i)) {
        if i < |Log(doc)| { assert WellFormed(ChildAt(Arr(Log(doc)), i)); }
      }
    }
    forall j | 0 <= j < Arity(d) ensures WellFormed(ChildAt(d, j)) {
      if j != at { assert ChildAt(d, j) == ChildAt(doc, j); }
    }
  }

  lemma {:induction false} LoggedTwice(doc: Json, a: seq<Json>, b: seq<Json>)
    requires WellFormed(doc) && HasLog(doc)
    ensures HasLog(Logged(doc, a)) && Logged(Logged(doc, a), b) == Logged(doc, a + b)
  {
    LoggedHasLog(doc, a);
    LoggedChildren(doc, a);
    LoggedChildren(doc, a + b);
    LoggedChildren(Logged(doc, a), b);
    assert (Log(doc) + a) + b == Log(doc) + (a + b);
    SameChildren(Logged(Logged(doc, a), b), Logged(doc, a + b));
  }

  lemma {:induction false} LoggedNothing(doc: Json)
    requires WellFormed(doc) && HasLog(doc)
    ensures Logged(doc, []) == doc
  {
    LoggedChildren(doc, []);
    assert Log(doc) + [] == Log(doc);
    SameChildren(Logged(doc, []), doc);
  }

  lemma {:induction false} MaskHasLog(doc: Json, f: Rewriting)
    requires WellFormed(doc) && HasLog(doc)
    ensures HasLog(Mask(doc, "", f))
    ensures Position(Mask(doc, "", f), Key(APPLIED)) == Position(doc, Key(APPLIED))
    ensures Arr(Log(Mask(doc, "", f))) == Mask(Arr(Log(doc)), LOG_POINTER, f)
  {
    MaskContainer(doc, "", f);
    MaskContainer(Child(doc, Key(APPLIED)), LOG_POINTER, f);
    LogPosition(doc, Mask(doc, "", f));
  }

  /** Leaves inside a log entry lie below that entry's pointer. */
  lemma {:induction false} EntrySilent(f: Rewriting, n: nat, i: nat, entry: Json)
    requires SilentFrom(f, n) && n <= i
    ensures Mask(entry, LogItem(i), f) == entry
  {
    forall e | e in LeafPointers(entry, LogItem(i)) ensures f(e.0).None? {
      LeafIsBelow(entry, LogItem(i), e);
    }
    MaskNothing(entry, LogItem(i), f);
  }

  lemma {:induction false} MaskLongerLog(log: seq<Json>, records: seq<Json>, f: Rewriting)
    requires SilentFrom(f, |log|)
    ensures Mask(Arr(log + records), LOG_POINTER, f) == Arr(Mask(Arr(log), LOG_POINTER, f).items + records)
  {
    var long := Arr(log + records);
    var masked := Mask(Arr(log), LOG_POINTER, f);
    MaskContainer(long, LOG_POINTER, f);
    MaskContainer(Arr(log), LOG_POINTER, f);
    forall i | 0 <= i < |log + records|
      ensures ChildAt(Mask(long, LOG_POINTER, f), i) == ChildAt(Arr(masked.items + records), i)
    {
      assert ChildAt(long, i) == (log + records)[i] && StepAt(long, i) == Index(i);
      if i < |log| {
        assert ChildAt(Arr(log), i) == log[i] && StepAt(Arr(log), i) == Index(i);
        assert masked.items[i] == ChildAt(masked, i);
      } else {
        EntrySilent(f, |log|, i, records[i - |log|]);
      }
    }
    SameChildren(Mask(long, LOG_POINTER, f), Arr(masked.items + records));
  }

  /** Masking then logging is logging then masking, when the rule is silent about the new entries. */
  lemma {:induction false} MaskLogged(doc: Json, records: seq<Json>, f: Rewriting)
    requires WellFormed(doc) && HasLog(doc) && SilentFrom(f, |Log(doc)|)
    ensures HasLog(Mask(doc, "", f))
    ensures Mask(Logged(doc, records), "", f) == Logged(Mask(doc, "", f), records)
  {
    var d, m := Logged(doc, records), Mask(doc, "", f);
    var at := Position(doc, Key(APPLIED)).value;
    MaskHasLog(doc, f);
    LoggedChildren(doc, records);
    LoggedChildren(m, records);
    MaskContainer(doc, "", f);
    MaskContainer(d, "", f);
    MaskLongerLog(Log(doc), records, f);
    forall j | 0 <= j < Arity(doc) ensures ChildAt(Mask(d, "", f), j) == ChildAt(Logged(m, records), j) {
      if j == at { assert Extend("", StepAt(doc, at)) == LOG_POINTER; }
    }
    SameChildren(Mask(d, "", f), Logged(m, records));
  }

  lemma {:induction false} EntriesApart(i: nat, j: nat, p: string)
    requires i != j && Below(LogItem(i), p)
    ensures !Below(LogItem(j), p)
  {
    hide Below, Extend;
    var wide := Arr(seq(i + j + 1, _ => Null));
    assert forall k :: 0 <= k < Arity(wide) ==> WellFormed(ChildAt(wide, k));
    assert StepAt(wide, i) == Index(i) && StepAt(wide, j) == Index(j);
    if Below(LogItem(j), p) {
      ChildPointersDiffer(wide, LOG_POINTER, i, j, p, p);
    }
  }

  lemma {:induction false} ApartFromLog(doc: Json, k: nat, p: string)
    requires WellFormed(doc) && HasLog(doc) && k < Arity(doc) && k != Position(doc, Key(APPLIED)).value
    requires Below(Extend("", StepAt(doc, k)), p)
    ensures !Below(LOG_POINTER, p)
  {
    if Below(LOG_POINTER, p) {
      ChildPointersDiffer(doc, "", k, Position(doc, Key(APPLIED)).value, p, p);
    }
  }

  /** No leaf the document already has lies below a log entry still to come. */
  lemma {:induction false} LeavesAvoidNewEntries(doc: Json, e: (string, Json), i: nat)
    requires WellFormed(doc) && HasLog(doc) && |Log(doc)| <= i
    requires e in LeafPointers(doc, "")
    ensures !Below(LogItem(i), e.0)
  {
    hide Below, Extend;
    var k := ChildOfLeaf(doc, "", 0, e);
    LeafIsBelow(ChildAt(doc, k), Extend("", StepAt(doc, k)), e);
    if k != Position(doc, Key(APPLIED)).value {
      ApartFromLog(doc, k, e.0);
      if Below(LogItem(i), e.0) { BelowParent(LOG_POINTER, Index(i), e.0); }
    } else {
      var log := ChildAt(doc, k);
      var j := ChildOfLeaf(log, LOG_POINTER, 0, e);
      LeafIsBelow(ChildAt(log, j), LogItem(j), e);
      EntriesApart(j, i, e.0);
    }
  }

  lemma {:induction false} LoggedKeepsLeaf(doc: Json, records: seq<Json>, e: (string, Json))
    requires WellFormed(doc) && HasLog(doc) && e in LeafPointers(doc, "")
    ensures e in LeafPointers(Logged(doc, records), "")
  {
    var d, at := Logged(doc, records), Position(doc, Key(APPLIED)).value;
    LoggedChildren(doc, records);
    var k := ChildOfLeaf(doc, "", 0, e);
    if k == at {
      var old_, new_ := ChildAt(doc, at), ChildAt(d, at);
      var j := ChildOfLeaf(old_, LOG_POINTER, 0, e);
      assert ChildAt(new_, j) == ChildAt(old_, j);
      LeavesFromChild(new_, LOG_POINTER, 0, j, e);
    }
    LeavesFromChild(d, "", 0, k, e);
  }

  // ---- one rule is one masking ---------------------------------------------------------------------

  /** What a rule does, leaf by leaf. */
  function RuleRewriting(rule: Rule): Rewriting
  {
    p => if rule.allowed(p) then Some(rule.replacement) else None
  }

  function Pointers(leaves: seq<(string, Json)>): set<string> { set e | e in leaves :: e.0 }

  /** The part of a rule's work done on the first leaves. */
  function Upto(rule: Rule, leaves: seq<(string, Json)>): Rewriting
  {
    var done := Pointers(leaves);
    p => if p in done && rule.allowed(p) then Some(rule.replacement) else None
  }

  function Records(leaves: seq<(string, Json)>, id: string, rule: Rule, digest: Json -> string): seq<Json>
  {
    if leaves == [] then []
    else
      var n := |leaves| - 1;
      var e := leaves[n];
      Records(leaves[..n], id, rule, digest)
      + if rule.allowed(e.0) then [Record(id, e.0, e.1, rule.replacement, digest)] else []
  }

  lemma {:induction false} RecordWellFormed(rule: string, pointer: string, original: Json, replacement: Json, digest: Json -> string)
    requires Leaf(original)
    ensures WellFormed(Record(rule, pointer, original, replacement, digest))
  {
    var r := Record(rule, pointer, original, replacement, digest);
    assert StepAt(r, 0) == Key("rule") && StepAt(r, 1) == Key("json_pointer") && StepAt(r, 2) == Key("original_value")
        && StepAt(r, 3) == Key("before_sha256") && StepAt(r, 4) == Key("after_sha256");
    assert "rule"[0] != "json_pointer"[0] && "original_value"[0] != "before_sha256"[0];
    forall i | 0 <= i < Arity(r) ensures WellFormed(ChildAt(r, i)) { assert Leaf(ChildAt(r, i)); }
  }

  lemma {:induction false} RecordsWellFormed(leaves: seq<(string, Json)>, id: string, rule: Rule, digest: Json -> string)
    requires forall e :: e in leaves ==> Leaf(e.1)
    ensures forall i :: 0 <= i < |Records(leaves, id, rule, digest)| ==> WellFormed(Records(leaves, id, rule, digest)[i])
    decreases |leaves|
  {
    hide WellFormed, Record;
    if leaves != [] {
      var n := |leaves| - 1;
      RecordsWellFormed(leaves[..n], id, rule, digest);
      RecordWellFormed(id, leaves[n].0, leaves[n].1, rule.replacement, digest);
    }
  }

  lemma {:induction false} UptoIsSilent(doc: Json, leaves: seq<(string, Json)>, rule: Rule)
    requires WellFormed(doc) && HasLog(doc)
    requires forall e :: e in leaves ==> e in LeafPointers(doc, "")
    ensures SilentFrom(Upto(rule, leaves), |Log(doc)|)
  {
    forall i: nat, p | |Log(doc)| <= i && Below(LogItem(i), p) ensures p !in Pointers(leaves) {
      if p in Pointers(leaves) {
        var e :| e in leaves && e.0 == p;
        LeavesAvoidNewEntries(doc, e, i);
      }
    }
  }

  /** The document after the first leaves have been dealt with. */
  ghost function Sofar(doc: Json, leaves: seq<(string, Json)>, id: string, rule: Rule, digest: Json -> string): Json
    requires WellFormed(doc) && HasLog(doc)
  {
    MaskHasLog(doc, Upto(rule, leaves));
    Logged(Mask(doc, "", Upto(rule, leaves)), Records(leaves, id, rule, digest))
  }

  lemma {:induction false} PointersGrow(leaves: seq<(string, Json)>, k: nat)
    requires k < |leaves|
    ensures Pointers(leaves[..k + 1]) == Pointers(leaves[..k]) + {leaves[k].0}
  {
    assert leaves[..k + 1] == leaves[..k] + [leaves[k]];
    forall p ensures p in Pointers(leaves[..k + 1]) <==> p in Pointers(leaves[..k]) + {leaves[k].0} {
      if p in Pointers(leaves[..k]) {
        var e :| e in leaves[..k] && e.0 == p;
        assert e in leaves[..k + 1];
      }
    }
  }

  lemma {:induction false} RecordsGrow(leaves: seq<(string, Json)>, k: nat, id: string, rule: Rule, digest: Json -> string)
    requires k < |leaves|
    ensures Records(leaves[..k + 1], id, rule, digest) ==
            Records(leaves[..k], id, rule, digest)
            + if rule.allowed(leaves[k].0) then [Record(id, leaves[k].0, leaves[k].1, rule.replacement, digest)] else []
  {
    hide Record;
    assert leaves[..k + 1][..k] == leaves[..k];
  }

  /** A leaf the rule does not allow changes nothing. */
  lemma {:induction false} SkippedLeaf(doc: Json, leaves: seq<(string, Json)>, k: nat, id: string, rule: Rule, digest: Json -> string)
    requires WellFormed(doc) && HasLog(doc) && k < |leaves|
    requires !rule.allowed(leaves[k].0)
    ensures Sofar(doc, leaves[..k + 1], id, rule, digest) == Sofar(doc, leaves[..k], id, rule, digest)
  {
    hide Record, Records, Mask, LeafPointers, Logged, HasLog, WellFormed, Pointers;
    var f, g := Upto(rule, leaves[..k]), Upto(rule, leaves[..k + 1]);
    PointersGrow(leaves, k);
    RecordsGrow(leaves, k, id, rule, digest);
    var records := Records(leaves[..k], id, rule, digest);
    assert records + [] == records;
    assert forall p :: f(p) == g(p);
    MaskCongruent(doc, "", f, g);
  }

  lemma {:induction false} LeavesAreLeaves(doc: Json, leaves: seq<(string, Json)>)
    requires !Leaf(doc) && leaves <= LeafPointers(doc, "")
    ensures forall e :: e in leaves ==> e in LeafPointers(doc, "") && Leaf(e.1)
  {
    forall e | e in leaves ensures e in LeafPointers(doc, "") && Leaf(e.1) { LeafIsBelow(doc, "", e); }
  }

  lemma {:induction false} LogInObject(doc: Json)
    requires HasLog(doc)
    ensures doc.Obj?
  {
  }

  /** Writing one allowed leaf masks one more leaf, records of earlier ones notwithstanding. */
  lemma {:induction false} StoredLeaf(doc: Json, leaves: seq<(string, Json)>, k: nat, rule: Rule, records: seq<Json>)
    requires WellFormed(doc) && HasLog(doc) && leaves == LeafPointers(doc, "") && k < |leaves|
    requires rule.allowed(leaves[k].0)
    requires forall i :: 0 <= i < |records| ==> WellFormed(records[i])
    ensures HasLog(Mask(doc, "", Upto(rule, leaves[..k]))) && HasLog(Mask(doc, "", Upto(rule, leaves[..k + 1])))
    ensures Store(Logged(Mask(doc, "", Upto(rule, leaves[..k])), records), Parts(leaves[k].0), rule.replacement)
         == Some(Logged(Mask(doc, "", Upto(rule, leaves[..k + 1])), records))
  {
    hide Mask, LeafPointers, WellFormed, Store, Logged, HasLog, Log, Pointers;
    var f, g := Upto(rule, leaves[..k]), Upto(rule, leaves[..k + 1]);
    assert doc.Obj? by { LogInObject(doc); }
    var e, d := leaves[k], Logged(doc, records);
    LeavesAreLeaves(doc, leaves[..k]);
    LeavesAreLeaves(doc, leaves[..k + 1]);
    UptoIsSilent(doc, leaves[..k], rule);
    UptoIsSilent(doc, leaves[..k + 1], rule);
    MaskLogged(doc, records, f);
    MaskLogged(doc, records, g);
    LoggedWellFormed(doc, records);
    LoggedKeepsLeaf(doc, records, e);
    PointersGrow(leaves, k);
    StoreIsRewriting(d, "", f, g, e, rule.replacement);
    assert e.0[0..] == e.0;
  }

  lemma {:induction false} MaskedLeaf(doc: Json, leaves: seq<(string, Json)>, k: nat, id: string, rule: Rule, digest: Json -> string)
    requires WellFormed(doc) && HasLog(doc) && leaves == LeafPointers(doc, "") && k < |leaves|
    requires rule.allowed(leaves[k].0) && ConstraintOk(id, leaves[k].1) && Leaf(rule.replacement)
    ensures ApplyLeaf(Sofar(doc, leaves[..k], id, rule, digest), leaves[k], id, rule, digest)
         == Outcome(Sofar(doc, leaves[..k + 1], id, rule, digest), None)
  {
    hide Record, Records, Store, Mask, Logged, WellFormed, LeafPointers;
    var records := Records(leaves[..k], id, rule, digest);
    var e := leaves[k];
    LeavesAreLeaves(doc, leaves[..k]);
    RecordsWellFormed(leaves[..k], id, rule, digest);
    StoredLeaf(doc, leaves, k, rule, records);
    var m := Mask(doc, "", Upto(rule, leaves[..k + 1]));
    MaskWellFormed(doc, "", Upto(rule, leaves[..k + 1]));
    RecordsGrow(leaves, k, id, rule, digest);
    LoggedTwice(m, records, [Record(id, e.0, e.1, rule.replacement, digest)]);
  }

  /** Every allowed leaf meets the rule's constraint. */
  predicate ConstraintsHold(leaves: seq<(string, Json)>, id: string, rule: Rule)
  {
    forall i :: 0 <= i < |leaves| && rule.allowed(leaves[i].0) ==> ConstraintOk(id, leaves[i].1)
  }

  lemma {:induction false} RestOfPass(doc: Json, leaves: seq<(string, Json)>, k: nat, id: string, rule: Rule, digest: Json -> string)
    requires WellFormed(doc) && HasLog(doc) && leaves == LeafPointers(doc, "") && k <= |leaves| && Leaf(rule.replacement)
    ensures var o := ApplyLeaves(Sofar(doc, leaves[..k], id, rule, digest), leaves[k..], id, rule, digest);
            && (o.refusal.None? <==> ConstraintsHold(leaves[k..], id, rule))
            && (o.refusal.None? ==> o.doc == Sofar(doc, leaves, id, rule, digest))
    decreases |leaves| - k
  {
    hide WellFormed, HasLog, LeafPointers, Sofar, ApplyLeaf, ConstraintOk;
    if k == |leaves| {
      assert leaves[..k] == leaves;
    } else {
      assert leaves[k..][0] == leaves[k] && leaves[k..][1..] == leaves[k + 1..];
      assert ConstraintsHold(leaves[k..], id, rule) <==>
             (rule.allowed(leaves[k].0) ==> ConstraintOk(id, leaves[k].1)) && ConstraintsHold(leaves[k + 1..], id, rule) by {
        HoldsStep(leaves, k, id, rule);
      }
      if !rule.allowed(leaves[k].0) {
        SkippedLeaf(doc, leaves, k, id, rule, digest);
        RestOfPass(doc, leaves, k + 1, id, rule, digest);
      } else if ConstraintOk(id, leaves[k].1) {
        MaskedLeaf(doc, leaves, k, id, rule, digest);
        RestOfPass(doc, leaves, k + 1, id, rule, digest);
      } else {
        RefusedLeaf(Sofar(doc, leaves[..k], id, rule, digest), leaves[k], id, rule, digest);
      }
    }
  }

  lemma {:induction false} HoldsStep(leaves: seq<(string, Json)>, k: nat, id: string, rule: Rule)
    requires k < |leaves|
    ensures ConstraintsHold(leaves[k..], id, rule) <==>
            (rule.allowed(leaves[k].0) ==> ConstraintOk(id, leaves[k].1)) && ConstraintsHold(leaves[k + 1..], id, rule)
  {
    hide ConstraintOk;
    var here, rest := leaves[k..], leaves[k + 1..];
    assert here == [leaves[k]] + rest;
    if ConstraintsHold(here, id, rule) {
      assert here[0] == leaves[k];
      forall i | 0 <= i < |rest| && rule.allowed(rest[i].0) ensures ConstraintOk(id, rest[i].1) {
        assert here[i + 1] == rest[i];
      }
    }
  }

  lemma {:induction false} RefusedLeaf(doc: Json, e: (string, Json), id: string, rule: Rule, digest: Json -> string)
    requires !ConstraintOk(id, e.1)
    ensures ApplyLeaf(doc, e, id, rule, digest).refusal.Some?
  {
  }

  /** The document one rule leaves behind: its leaves masked, one record per masked leaf. */
  ghost function Masked(doc: Json, id: string, rule: Rule, digest: Json -> string): Json
    requires WellFormed(doc) && HasLog(doc)
  {
    MaskHasLog(doc, RuleRewriting(rule));
    Logged(Mask(doc, "", RuleRewriting(rule)), Records(LeafPointers(doc, ""), id, rule, digest))
  }

  /**
    One pass over a snapshot of pointers, writing through each and logging as it goes, succeeds
    exactly when every allowed leaf meets the constraint, and then equals one descent.
   */
  lemma {:induction false} OnePassIsOneMasking(doc: Json, id: string, rule: Rule, digest: Json -> string)
    requires WellFormed(doc) && HasLog(doc) && Leaf(rule.replacement)
    ensures var o := ApplyLeaves(doc, LeafPointers(doc, ""), id, rule, digest);
            && (o.refusal.None? <==> ConstraintsHold(LeafPointers(doc, ""), id, rule))
            && (o.refusal.None? ==> o.doc == Masked(doc, id, rule, digest))
  {
    hide WellFormed, HasLog, LeafPointers, ApplyLeaves, Records, Mask;
    var leaves := LeafPointers(doc, "");
    var none := Upto(rule, leaves[..0]);
    assert Sofar(doc, leaves[..0], id, rule, digest) == doc by {
      MaskNothing(doc, "", none);
      NoRecords(id, rule, digest);
      LoggedNothing(doc);
    }
    RestOfPass(doc, leaves, 0, id, rule, digest);
    assert leaves[0..] == leaves;
    MaskCongruent(doc, "", Upto(rule, leaves), RuleRewriting(rule));
  }

  /**
    A pass that meets a leaf against its constraint stops there and names it, the leaves before it
    masked and on record.
   */
  lemma {:induction false} RefusalNamesFirst(doc: Json, id: string, rule: Rule, digest: Json -> string, k: nat)
    requires WellFormed(doc) && HasLog(doc) && Leaf(rule.replacement) && k < |LeafPointers(doc, "")|
    requires var leaves := LeafPointers(doc, "");
             rule.allowed(leaves[k].0) && !ConstraintOk(id, leaves[k].1) && ConstraintsHold(leaves[..k], id, rule)
    ensures var leaves := LeafPointers(doc, "");
            ApplyLeaves(doc, leaves, id, rule, digest)
            == Outcome(Sofar(doc, leaves[..k], id, rule, digest), Some(ConstraintViolated(id, leaves[k].0)))
  {
    hide WellFormed, HasLog, LeafPointers, ApplyLeaves, Records, Mask, ConstraintsHold, ConstraintOk;
    var leaves := LeafPointers(doc, "");
    var none := Upto(rule, leaves[..0]);
    assert Sofar(doc, leaves[..0], id, rule, digest) == doc by {
      MaskNothing(doc, "", none);
      NoRecords(id, rule, digest);
      LoggedNothing(doc);
    }
    PassUpTo(doc, leaves, 0, k, id, rule, digest);
    assert leaves[0..] == leaves;
  }

  lemma {:induction false} PassUpTo(doc: Json, leaves: seq<(string, Json)>, i: nat, k: nat, id: string, rule: Rule, digest: Json -> string)
    requires WellFormed(doc) && HasLog(doc) && leaves == LeafPointers(doc, "") && i <= k < |leaves| && Leaf(rule.replacement)
    requires rule.allowed(leaves[k].0) && !ConstraintOk(id, leaves[k].1) && ConstraintsHold(leaves[..k], id, rule)
    ensures ApplyLeaves(Sofar(doc, leaves[..i], id, rule, digest), leaves[i..], id, rule, digest)
         == Outcome(Sofar(doc, leaves[..k], id, rule, digest), Some(ConstraintViolated(id, leaves[k].0)))
    decreases k - i
  {
    hide WellFormed, HasLog, LeafPointers, Sofar, ConstraintOk;
    assert leaves[i..][0] == leaves[i] && leaves[i..][1..] == leaves[i + 1..];
    if i < k {
      hide ApplyLeaf;
      assert leaves[..k][i] == leaves[i];
      if rule.allowed(leaves[i].0) {
        MaskedLeaf(doc, leaves, i, id, rule, digest);
      } else {
        SkippedLeaf(doc, leaves, i, id, rule, digest);
      }
      PassUpTo(doc, leaves, i + 1, k, id, rule, digest);
    }
  }

  lemma {:induction false} NoRecords(id: string, rule: Rule, digest: Json -> string)
    ensures Records([], id, rule, digest) == []
  {
  }
}
