/**
  The independent check of masking records, and when the records the pass writes survive it.
 */
module Validation {
  import opened Outcomes
  import opened Sorting
  import opened Text
  import opened Json
  import opened Pointer
  import opened Normalize

  datatype Verdict =
    | Accepted
    | NotInAllowlist
    | ClassForbidden
    | PointerForbidden
    | ValueForbidden
    | BeforeDigestDiffers
    | AfterDigestDiffers
    | NotReplaced
    | Unresolved
    | Crash

  // ---- Python equality across types -----------------------------------------------------------

  /** Booleans and integers compare as numbers. */
  function AsNumber(v: Json): Option<PyFloat>
  {
    match v
    case Bool(b) => Some(Finite(if b then 1.0 else 0.0, false))
    case Int(i) => Some(Finite(i as real, false))
    case Float(f) => Some(f)
    case _ => None
  }

  /** `a == b`. */
  predicate PyEq(a: Json, b: Json)
    decreases a
  {
    if AsNumber(a).Some? && AsNumber(b).Some? then FloatEq(AsNumber(a).value, AsNumber(b).value)
    else if Leaf(a) || Leaf(b) then a == b
    else
      && a.Arr? == b.Arr?
      && (forall i :: 0 <= i < Arity(a) ==> Has(b, StepAt(a, i)) && PyEq(ChildAt(a, i), Child(b, StepAt(a, i))))
      && (forall i :: 0 <= i < Arity(b) ==> Has(a, StepAt(b, i)))
  }

  // ---- the validator ----------------------------------------------------------------------------

  function OrElse(v: Option<Json>, fallback: Json): Json
  {
    match v case Some(x) => x case None => fallback
  }

  /** `_validate_normalization`; a record of the wrong shape makes it raise. */
  function Validate(applied: Json, class_: Option<Json>, result: Json, policy: Policy, digest: Json -> string): Verdict
  {
    var name := OrElse(FieldOf(applied, "rule"), Null);
    var pointer := OrElse(FieldOf(applied, "json_pointer"), Str(""));
    var original := OrElse(FieldOf(applied, "original_value"), Null);
    if !applied.Obj? || !Leaf(name) then Crash
    else if !name.Str? || name.s !in policy then NotInAllowlist
    else
      var rule := policy[name.s];
      if !ClassAllowed(class_, rule) then ClassForbidden
      else if !pointer.Str? then Crash
      else if !rule.allowed(pointer.s) then PointerForbidden
      else if !ConstraintOk(rule.id, original) then ValueForbidden
      else if FieldOf(applied, "before_sha256") != Some(Str(digest(original))) then BeforeDigestDiffers
      else if FieldOf(applied, "after_sha256") != Some(Str(digest(rule.replacement))) then AfterDigestDiffers
      else
        match Walk(result, Parts(pointer.s))
        case None => Unresolved
        case Some(found) => if PyEq(found, rule.replacement) then Accepted else NotReplaced
  }

  lemma {:induction false} RecordFields(rule: string, pointer: string, original: Json, replacement: Json, digest: Json -> string)
    ensures var r := Record(rule, pointer, original, replacement, digest);
            && FieldOf(r, "rule") == Some(Str(rule)) && FieldOf(r, "json_pointer") == Some(Str(pointer))
            && FieldOf(r, "original_value") == Some(original)
            && FieldOf(r, "before_sha256") == Some(Str(digest(original)))
            && FieldOf(r, "after_sha256") == Some(Str(digest(replacement)))
  {
    var r := Record(rule, pointer, original, replacement, digest);
    assert StepAt(r, 0) == Key("rule") && StepAt(r, 1) == Key("json_pointer") && StepAt(r, 2) == Key("original_value")
        && StepAt(r, 3) == Key("before_sha256") && StepAt(r, 4) == Key("after_sha256");
    assert "rule"[0] != "json_pointer"[0] && "rule"[0] != "original_value"[0]
        && "rule"[0] != "before_sha256"[0] && "rule"[0] != "after_sha256"[0];
    assert "json_pointer"[0] != "original_value"[0] && "json_pointer"[0] != "before_sha256"[0] && "json_pointer"[0] != "after_sha256"[0];
    assert "original_value"[0] != "before_sha256"[0] && "original_value"[0] != "after_sha256"[0];
    assert "before_sha256"[0] != "after_sha256"[0];
    assert Position(r, Key("rule"), 0) == Some(0);
    assert Position(r, Key("json_pointer"), 1) == Some(1);
    assert Position(r, Key("original_value"), 2) == Some(2) && Position(r, Key("original_value"), 1) == Some(2);
    assert Position(r, Key("before_sha256"), 3) == Some(3) && Position(r, Key("before_sha256"), 2) == Some(3)
        && Position(r, Key("before_sha256"), 1) == Some(3);
    assert Position(r, Key("after_sha256"), 4) == Some(4) && Position(r, Key("after_sha256"), 3) == Some(4)
        && Position(r, Key("after_sha256"), 2) == Some(4) && Position(r, Key("after_sha256"), 1) == Some(4);
  }

  /** The five fields are those the pass would have written; an absent pointer is read as the empty one, an absent original as null. */
  ghost predicate ReadsAs(applied: Json, written: Json)
  {
    && FieldOf(applied, "rule") == FieldOf(written, "rule")
    && Some(OrElse(FieldOf(applied, "json_pointer"), Str(""))) == FieldOf(written, "json_pointer")
    && Some(OrElse(FieldOf(applied, "original_value"), Null)) == FieldOf(written, "original_value")
    && FieldOf(applied, "before_sha256") == FieldOf(written, "before_sha256")
    && FieldOf(applied, "after_sha256") == FieldOf(written, "after_sha256")
  }

  /** A masking the policy permits at this place, of this value, in a result of this class that does hold the replacement there. */
  ghost predicate Permitted(id: string, p: string, o: Json, class_: Option<Json>, result: Json, policy: Policy)
  {
    && id in policy && policy[id].allowed(p) && ConstraintOk(id, o) && ClassAllowed(class_, policy[id])
    && Walk(result, Parts(p)).Some? && PyEq(Walk(result, Parts(p)).value, policy[id].replacement)
  }

  /** Of all records, whoever made them, those are accepted that record a permitted masking, and no others. */
  lemma {:induction false} AcceptedRecords(applied: Json, class_: Option<Json>, result: Json, policy: Policy, digest: Json -> string)
    requires PolicyOk(policy)
    ensures Validate(applied, class_, result, policy, digest) == Accepted <==>
            exists id, p, o :: Permitted(id, p, o, class_, result, policy)
                               && ReadsAs(applied, Record(id, p, o, policy[id].replacement, digest))
  {
    hide Walk, Parts, PyEq, ConstraintOk, ClassAllowed, ReadsAs, Validate, Record;
    if Validate(applied, class_, result, policy, digest) == Accepted {
      var id, p, o := RecordOfAccepted(applied, class_, result, policy, digest);
      assert Permitted(id, p, o, class_, result, policy) && ReadsAs(applied, Record(id, p, o, policy[id].replacement, digest));
    }
    if id, p, o :| Permitted(id, p, o, class_, result, policy) && ReadsAs(applied, Record(id, p, o, policy[id].replacement, digest)) {
      PermittedIsAccepted(applied, id, p, o, class_, result, policy, digest);
    }
  }

  lemma {:induction false} RecordOfAccepted(applied: Json, class_: Option<Json>, result: Json, policy: Policy, digest: Json -> string)
      returns (id: string, p: string, o: Json)
    requires PolicyOk(policy) && Validate(applied, class_, result, policy, digest) == Accepted
    ensures Permitted(id, p, o, class_, result, policy) && ReadsAs(applied, Record(id, p, o, policy[id].replacement, digest))
  {
    hide Walk, Parts, PyEq, ConstraintOk, Record, ClassAllowed, FieldOf;
    id, p := FieldOf(applied, "rule").value.s, OrElse(FieldOf(applied, "json_pointer"), Str("")).s;
    o := OrElse(FieldOf(applied, "original_value"), Null);
    RecordFields(id, p, o, policy[id].replacement, digest);
  }

  lemma {:induction false} PermittedIsAccepted(applied: Json, id: string, p: string, o: Json, class_: Option<Json>, result: Json, policy: Policy, digest: Json -> string)
    requires PolicyOk(policy)
    requires Permitted(id, p, o, class_, result, policy) && ReadsAs(applied, Record(id, p, o, policy[id].replacement, digest))
    ensures Validate(applied, class_, result, policy, digest) == Accepted
  {
    hide Walk, Parts, PyEq, ConstraintOk, Record, ClassAllowed, FieldOf;
    RecordFields(id, p, o, policy[id].replacement, digest);
    FieldsOfObject(applied, "rule");
  }

  lemma {:induction false} FieldsOfObject(v: Json, key: string)
    ensures FieldOf(v, key).Some? ==> v.Obj?
  {
  }

  /** A record of a masking tells, at validation, the first of the policy's conditions that it breaks. */
  lemma {:induction false} VerdictTellsWhy(id: string, p: string, o: Json, class_: Option<Json>, result: Json, policy: Policy, digest: Json -> string)
    requires PolicyOk(policy) && id in policy
    ensures var verdict := Validate(Record(id, p, o, policy[id].replacement, digest), class_, result, policy, digest);
            && (verdict == ClassForbidden <==> !InClass(class_, policy[id].classes))
            && (verdict == PointerForbidden <==> InClass(class_, policy[id].classes) && !policy[id].allowed(p))
            && (verdict == ValueForbidden <==> InClass(class_, policy[id].classes) && policy[id].allowed(p) && !ConstraintOk(id, o))
            && (verdict in {Unresolved, NotReplaced, Accepted} <==>
                  InClass(class_, policy[id].classes) && policy[id].allowed(p) && ConstraintOk(id, o))
            && (verdict == Unresolved ==> Walk(result, Parts(p)).None?)
            && (verdict == NotReplaced ==> Walk(result, Parts(p)).Some?)
  {
    hide Walk, Parts, PyEq, ConstraintOk, Record;
    RecordFields(id, p, o, policy[id].replacement, digest);
    RecordIsObject(id, p, o, policy[id].replacement, digest);
  }

  /** The class of the result is one of these. */
  ghost predicate InClass(class_: Option<Json>, classes: seq<string>)
  {
    exists i :: 0 <= i < |classes| && class_ == Some(Str(classes[i]))
  }

  /** What an accepted record masks: a port, a process or the text of a log line, and nothing else. */
  lemma {:induction false} AcceptedIsMeasured(applied: Json, class_: Option<Json>, result: Json, policy: Policy, digest: Json -> string)
    requires PolicyOk(policy) && Validate(applied, class_, result, policy, digest) == Accepted
    ensures FieldOf(applied, "rule").Some? && FieldOf(applied, "original_value").Some?
    ensures var rule, o := FieldOf(applied, "rule").value, FieldOf(applied, "original_value").value;
            || (rule == Str("ephemeral_port") && exists n :: 1024 <= n <= 65535 && o == Int(n))
            || (rule == Str("process_id") && exists n :: n > 0 && o == Int(n))
            || (rule == Str("log_prefix") && exists s :: s != "" && o == Str(s))
  {
    hide Walk, Parts, PyEq, FieldOf;
  }

  /** A record the pass wrote depends, at validation, only on the final class and the final leaf. */
  lemma {:induction false} WrittenRecordVerdict(id: string, rule: Rule, pointer: string, original: Json, class_: Option<Json>, result: Json, policy: Policy, digest: Json -> string)
    requires PolicyOk(policy) && id in policy && policy[id] == rule
    requires rule.allowed(pointer) && ConstraintOk(id, original)
    ensures Validate(Record(id, pointer, original, rule.replacement, digest), class_, result, policy, digest) == Accepted
       <==> ClassAllowed(class_, rule) && Walk(result, Parts(pointer)).Some? && PyEq(Walk(result, Parts(pointer)).value, rule.replacement)
  {
    hide Walk, Parts, PyEq, ConstraintOk, Record;
    RecordFields(id, pointer, original, rule.replacement, digest);
    assert Record(id, pointer, original, rule.replacement, digest).Obj? by { RecordIsObject(id, pointer, original, rule.replacement, digest); }
  }

  lemma {:induction false} RecordIsObject(id: string, pointer: string, original: Json, replacement: Json, digest: Json -> string)
    ensures Record(id, pointer, original, replacement, digest).Obj?
  {
  }

  // ---- what a whole run of rules does to the leaves -------------------------------------------------

  function RewritingOf(policy: Policy, id: string): Rewriting
  {
    if id in policy then RuleRewriting(policy[id]) else _ => None
  }

  /** All requested rules as one rewriting: the last rule that allows a pointer decides. */
  function Combined(requested: seq<string>, policy: Policy): Rewriting
  {
    if requested == [] then _ => None
    else Then(RewritingOf(policy, requested[0]), Combined(requested[1..], policy))
  }

  lemma {:induction false} CombinedByLeaves(requested: seq<string>, policy: Policy)
    requires PolicyOk(policy)
    ensures ReplacesByLeaves(Combined(requested, policy))
  {
    if requested != [] { CombinedByLeaves(requested[1..], policy); }
  }

  /** The combined rewriting is that of the last requested rule which allows the pointer. */
  lemma {:induction false} CombinedIsLast(requested: seq<string>, policy: Policy, p: string, k: nat)
    requires k < |requested| && requested[k] in policy && policy[requested[k]].allowed(p)
    requires forall j :: k < j < |requested| && requested[j] in policy ==> !policy[requested[j]].allowed(p)
    ensures Combined(requested, policy)(p) == Some(policy[requested[k]].replacement)
    decreases |requested|
  {
    if k > 0 {
      CombinedIsLast(requested[1..], policy, p, k - 1);
    } else {
      CombinedSilent(requested[1..], policy, p);
    }
  }

  lemma {:induction false} CombinedSilent(requested: seq<string>, policy: Policy, p: string)
    requires forall j :: 0 <= j < |requested| && requested[j] in policy ==> !policy[requested[j]].allowed(p)
    ensures Combined(requested, policy)(p) == None
    decreases |requested|
  {
    if requested != [] { CombinedSilent(requested[1..], policy, p); }
  }

  /** A successful rule: it was known, its class was allowed, and the document is masked. */
  lemma {:induction false} RuleSucceeds(doc: Json, id: string, policy: Policy, digest: Json -> string)
    requires WellFormed(doc) && HasLog(doc) && PolicyOk(policy)
    requires ApplyRule(doc, id, policy, digest).refusal.None?
    ensures id in policy && ClassAllowed(FieldOf(doc, "oracle_class"), policy[id])
    ensures ConstraintsHold(LeafPointers(doc, ""), id, policy[id])
    ensures ApplyRule(doc, id, policy, digest).doc == Masked(doc, id, policy[id], digest)
  {
    hide WellFormed, HasLog, ApplyLeaves, LeafPointers, ClassAllowed, FieldOf, Masked, ConstraintsHold;
    if id in policy { OnePassIsOneMasking(doc, id, policy[id], digest); }
  }

  lemma {:induction false} MaskedKeepsShape(doc: Json, id: string, rule: Rule, digest: Json -> string)
    requires WellFormed(doc) && HasLog(doc) && Leaf(rule.replacement)
    ensures WellFormed(Masked(doc, id, rule, digest)) && HasLog(Masked(doc, id, rule, digest))
    ensures HasLog(Mask(doc, "", RuleRewriting(rule)))
    ensures Log(Masked(doc, id, rule, digest)) == Log(Mask(doc, "", RuleRewriting(rule))) + Records(LeafPointers(doc, ""), id, rule, digest)
  {
    hide LeafPointers, Records, Mask, WellFormed, Logged, HasLog;
    var f := RuleRewriting(rule);
    MaskHasLog(doc, f);
    MaskWellFormed(doc, "", f);
    assert doc.Obj? by { LogInObject(doc); }
    LeavesAreLeaves(doc, LeafPointers(doc, ""));
    RecordsWellFormed(LeafPointers(doc, ""), id, rule, digest);
    LoggedWellFormed(Mask(doc, "", f), Records(LeafPointers(doc, ""), id, rule, digest));
    LoggedHasLog(Mask(doc, "", f), Records(LeafPointers(doc, ""), id, rule, digest));
  }

  // ---- where each leaf of the start is at the end -----------------------------------------------------

  lemma {:induction false} MaskedLeafValue(doc: Json, id: string, rule: Rule, digest: Json -> string, e: (string, Json))
    requires WellFormed(doc) && HasLog(doc) && Leaf(rule.replacement) && e in LeafPointers(doc, "")
    ensures (e.0, Chosen(RuleRewriting(rule), e.0, e.1)) in LeafPointers(Masked(doc, id, rule, digest), "")
  {
    hide Records, Mask, WellFormed, Logged, HasLog, LeafPointers;
    var f := RuleRewriting(rule);
    var m := Mask(doc, "", f);
    LeavesOfMask(doc, "", f);
    var leaves := LeafPointers(doc, "");
    var k :| 0 <= k < |leaves| && leaves[k] == e;
    assert RewriteLeaves(leaves, f)[k] == (e.0, Chosen(f, e.0, e.1));
    MaskHasLog(doc, f);
    MaskWellFormed(doc, "", f);
    LoggedKeepsLeaf(m, Records(leaves, id, rule, digest), (e.0, Chosen(f, e.0, e.1)));
  }

  /** A run moves no leaf: each keeps its pointer and holds what the combined rewriting says. */
  lemma {:induction false} FinalLeafValue(doc: Json, requested: seq<string>, policy: Policy, digest: Json -> string, e: (string, Json))
    requires WellFormed(doc) && HasLog(doc) && PolicyOk(policy)
    requires ApplyAll(doc, requested, policy, digest).refusal.None?
    requires e in LeafPointers(doc, "")
    ensures (e.0, Chosen(Combined(requested, policy), e.0, e.1))
            in LeafPointers(ApplyAll(doc, requested, policy, digest).doc, "")
    decreases |requested|
  {
    hide WellFormed, HasLog, LeafPointers, ApplyRule, Masked;
    if requested != [] {
      var id := requested[0];
      RuleSucceeds(doc, id, policy, digest);
      var next := ApplyRule(doc, id, policy, digest).doc;
      MaskedKeepsShape(doc, id, policy[id], digest);
      MaskedLeafValue(doc, id, policy[id], digest, e);
      FinalLeafValue(next, requested[1..], policy, digest, (e.0, Chosen(RuleRewriting(policy[id]), e.0, e.1)));
    }
  }

  lemma {:induction false} FinalWellFormed(doc: Json, requested: seq<string>, policy: Policy, digest: Json -> string)
    requires WellFormed(doc) && HasLog(doc) && PolicyOk(policy)
    requires ApplyAll(doc, requested, policy, digest).refusal.None?
    ensures var final := ApplyAll(doc, requested, policy, digest).doc;
            WellFormed(final) && HasLog(final)
    decreases |requested|
  {
    hide WellFormed, HasLog, LeafPointers, ApplyRule, Masked;
    if requested != [] {
      var id := requested[0];
      RuleSucceeds(doc, id, policy, digest);
      MaskedKeepsShape(doc, id, policy[id], digest);
      FinalWellFormed(ApplyRule(doc, id, policy, digest).doc, requested[1..], policy, digest);
    }
  }

  /** Leaves outside the log come from leaves that were there before. */
  lemma {:induction false} LoggedLeafOutsideLog(doc: Json, records: seq<Json>, e: (string, Json))
    requires WellFormed(doc) && HasLog(doc)
    requires e in LeafPointers(Logged(doc, records), "") && !Below(LOG_POINTER, e.0)
    ensures e in LeafPointers(doc, "")
  {
    hide Below;
    var d := Logged(doc, records);
    LoggedChildren(doc, records);
    var k := ChildOfLeaf(d, "", 0, e);
    LeafIsBelow(ChildAt(d, k), Extend("", StepAt(d, k)), e);
    LeavesFromChild(doc, "", 0, k, e);
  }

  lemma {:induction false} MaskedLeafOrigin(doc: Json, id: string, rule: Rule, digest: Json -> string, e: (string, Json)) returns (o: (string, Json))
    requires WellFormed(doc) && HasLog(doc) && Leaf(rule.replacement)
    requires e in LeafPointers(Masked(doc, id, rule, digest), "") && !Below(LOG_POINTER, e.0)
    ensures o in LeafPointers(doc, "") && e == (o.0, Chosen(RuleRewriting(rule), o.0, o.1))
  {
    hide Records, Mask, WellFormed, Logged, HasLog, LeafPointers, Below;
    var f := RuleRewriting(rule);
    MaskHasLog(doc, f);
    MaskWellFormed(doc, "", f);
    LoggedLeafOutsideLog(Mask(doc, "", f), Records(LeafPointers(doc, ""), id, rule, digest), e);
    LeavesOfMask(doc, "", f);
    var leaves := LeafPointers(doc, "");
    var k :| 0 <= k < |leaves| && RewriteLeaves(leaves, f)[k] == e;
    o := leaves[k];
  }

  // ---- the oracle class at the end ---------------------------------------------------------------------

  const CLASS_POINTER: string := Extend("", Key("oracle_class"))

  /** The class after the requested rules, which one of them may itself have masked. */
  function ClassAfter(doc: Json, requested: seq<string>, policy: Policy): Option<Json>
  {
    match FieldOf(doc, "oracle_class")
    case None => None
    case Some(c) => Some(Mask(c, CLASS_POINTER, Combined(requested, policy)))
  }

  lemma {:induction false} ClassOfMasked(doc: Json, id: string, rule: Rule, digest: Json -> string)
    requires WellFormed(doc) && HasLog(doc) && Leaf(rule.replacement) && FieldOf(doc, "oracle_class").Some?
    ensures FieldOf(Masked(doc, id, rule, digest), "oracle_class")
         == Some(Mask(FieldOf(doc, "oracle_class").value, CLASS_POINTER, RuleRewriting(rule)))
  {
    hide Records;
    var f := RuleRewriting(rule);
    var at := Position(doc, Key("oracle_class")).value;
    MaskHasLog(doc, f);
    MaskContainer(doc, "", f);
    var m := Mask(doc, "", f);
    MaskedKeepsShape(doc, id, rule, digest);
    LoggedChildren(m, Records(LeafPointers(doc, ""), id, rule, digest));
    var d := Masked(doc, id, rule, digest);
    assert "oracle_class"[0] != APPLIED[0];
    assert StepAt(d, at) == Key("oracle_class") && ChildAt(d, at) == ChildAt(m, at);
    PositionOfStep(d, at);
  }

  lemma {:induction false} FinalClass(doc: Json, requested: seq<string>, policy: Policy, digest: Json -> string)
    requires WellFormed(doc) && HasLog(doc) && PolicyOk(policy) && FieldOf(doc, "oracle_class").Some?
    requires ApplyAll(doc, requested, policy, digest).refusal.None?
    ensures FieldOf(ApplyAll(doc, requested, policy, digest).doc, "oracle_class") == ClassAfter(doc, requested, policy)
    decreases |requested|
  {
    hide WellFormed, HasLog, LeafPointers, ApplyRule, Masked, FieldOf, Mask;
    var c := FieldOf(doc, "oracle_class").value;
    if requested == [] {
      MaskNothing(c, CLASS_POINTER, Combined(requested, policy));
    } else {
      var id := requested[0];
      RuleSucceeds(doc, id, policy, digest);
      MaskedKeepsShape(doc, id, policy[id], digest);
      ClassOfMasked(doc, id, policy[id], digest);
      FinalClass(ApplyRule(doc, id, policy, digest).doc, requested[1..], policy, digest);
      MaskTwice(c, CLASS_POINTER, RuleRewriting(policy[id]), Combined(requested[1..], policy));
    }
  }

  // ---- which records survive ---------------------------------------------------------------------------

  /** No requested rule reaches into the log. */
  ghost predicate AvoidsLog(requested: seq<string>, policy: Policy)
  {
    forall id, p :: id in requested && id in policy && policy[id].allowed(p) ==> !Below(LOG_POINTER, p)
  }

  lemma {:induction false} LogUnmasked(doc: Json, rule: Rule)
    requires WellFormed(doc) && HasLog(doc)
    requires forall p :: rule.allowed(p) ==> !Below(LOG_POINTER, p)
    ensures HasLog(Mask(doc, "", RuleRewriting(rule))) && Log(Mask(doc, "", RuleRewriting(rule))) == Log(doc)
  {
    hide Below, Mask;
    var f := RuleRewriting(rule);
    MaskHasLog(doc, f);
    forall e | e in LeafPointers(Arr(Log(doc)), LOG_POINTER) ensures f(e.0).None? {
      LeafIsBelow(Arr(Log(doc)), LOG_POINTER, e);
    }
    MaskNothing(Arr(Log(doc)), LOG_POINTER, f);
  }

  /** One rule's demand on the end of the run, at one pointer. */
  ghost predicate Survives(rule: Rule, p: string, class_: Option<Json>, final: Json)
  {
    ClassAllowed(class_, rule) && Walk(final, Parts(p)).Some? && PyEq(Walk(final, Parts(p)).value, rule.replacement)
  }

  ghost predicate AllAccepted(records: seq<Json>, class_: Option<Json>, final: Json, policy: Policy, digest: Json -> string)
  {
    forall i :: 0 <= i < |records| ==> Validate(records[i], class_, final, policy, digest) == Accepted
  }

  lemma {:induction false} RecordsAccepted(leaves: seq<(string, Json)>, id: string, policy: Policy, digest: Json -> string, class_: Option<Json>, final: Json)
    requires PolicyOk(policy) && id in policy && ConstraintsHold(leaves, id, policy[id])
    ensures AllAccepted(Records(leaves, id, policy[id], digest), class_, final, policy, digest)
       <==> RuleSurvives(leaves, policy[id], class_, final)
    decreases |leaves|
  {
    hide Validate, Record, Survives, ConstraintOk;
    if leaves != [] {
      var n := |leaves| - 1;
      var e := leaves[n];
      var rule := policy[id];
      RecordsAccepted(leaves[..n], id, policy, digest, class_, final);
      assert leaves == leaves[..n] + [e];
      var before := Records(leaves[..n], id, rule, digest);
      var after := Records(leaves, id, rule, digest);
      if rule.allowed(e.0) {
        var r := Record(id, e.0, e.1, rule.replacement, digest);
        assert after == before + [r];
        VerdictIsSurvival(id, e, policy, digest, class_, final);
        assert AllAccepted(after, class_, final, policy, digest)
          <==> AllAccepted(before, class_, final, policy, digest) && Validate(r, class_, final, policy, digest) == Accepted by {
          AcceptedConcat(before, [r], class_, final, policy, digest);
        }
      } else {
        assert after == before;
      }
    }
  }

  lemma {:induction false} VerdictIsSurvival(id: string, e: (string, Json), policy: Policy, digest: Json -> string, class_: Option<Json>, final: Json)
    requires PolicyOk(policy) && id in policy && policy[id].allowed(e.0) && ConstraintOk(id, e.1)
    ensures Validate(Record(id, e.0, e.1, policy[id].replacement, digest), class_, final, policy, digest) == Accepted
       <==> Survives(policy[id], e.0, class_, final)
  {
    hide Validate, Record;
    WrittenRecordVerdict(id, policy[id], e.0, e.1, class_, final, policy, digest);
  }

  lemma {:induction false} AcceptedConcat(a: seq<Json>, b: seq<Json>, class_: Option<Json>, final: Json, policy: Policy, digest: Json -> string)
    ensures AllAccepted(a + b, class_, final, policy, digest)
       <==> AllAccepted(a, class_, final, policy, digest) && AllAccepted(b, class_, final, policy, digest)
    ensures |b| == 1 ==> (AllAccepted(b, class_, final, policy, digest) <==> Validate(b[0], class_, final, policy, digest) == Accepted)
  {
    hide Validate;
    var c := a + b;
    if AllAccepted(c, class_, final, policy, digest) {
      forall i | 0 <= i < |a| ensures Validate(a[i], class_, final, policy, digest) == Accepted { assert c[i] == a[i]; }
      forall i | 0 <= i < |b| ensures Validate(b[i], class_, final, policy, digest) == Accepted { assert c[|a| + i] == b[i]; }
    }
  }

  /** One rule is content with the end of the run, wherever it was allowed. */
  ghost predicate RuleSurvives(leaves: seq<(string, Json)>, rule: Rule, class_: Option<Json>, final: Json)
  {
    forall e :: e in leaves && rule.allowed(e.0) ==> Survives(rule, e.0, class_, final)
  }

  /** Every requested rule is. */
  ghost predicate AllSurvive(doc: Json, requested: seq<string>, policy: Policy, class_: Option<Json>, final: Json)
  {
    forall id :: id in requested && id in policy ==> RuleSurvives(LeafPointers(doc, ""), policy[id], class_, final)
  }

  /** The pointers a rule may touch are the same before and after another rule ran. */
  lemma {:induction false} SurvivalUnmoved(doc: Json, id: string, rule: Rule, digest: Json -> string, other: Rule, class_: Option<Json>, final: Json)
    requires WellFormed(doc) && HasLog(doc) && Leaf(rule.replacement)
    requires forall p :: other.allowed(p) ==> !Below(LOG_POINTER, p)
    ensures RuleSurvives(LeafPointers(Masked(doc, id, rule, digest), ""), other, class_, final)
       <==> RuleSurvives(LeafPointers(doc, ""), other, class_, final)
  {
    hide WellFormed, HasLog, Masked, LeafPointers, Survives, Below;
    var before, after := LeafPointers(doc, ""), LeafPointers(Masked(doc, id, rule, digest), "");
    if RuleSurvives(after, other, class_, final) {
      forall e | e in before && other.allowed(e.0) ensures Survives(other, e.0, class_, final) {
        MaskedLeafValue(doc, id, rule, digest, e);
        assert (e.0, Chosen(RuleRewriting(rule), e.0, e.1)) in after;
      }
    }
    if RuleSurvives(before, other, class_, final) {
      forall e | e in after && other.allowed(e.0) ensures Survives(other, e.0, class_, final) {
        var o := MaskedLeafOrigin(doc, id, rule, digest, e);
      }
    }
  }

  lemma {:induction false} AllSurviveUnmoved(doc: Json, id: string, digest: Json -> string, requested: seq<string>, policy: Policy, class_: Option<Json>, final: Json)
    requires WellFormed(doc) && HasLog(doc) && PolicyOk(policy) && id in policy && AvoidsLog(requested, policy)
    ensures AllSurvive(Masked(doc, id, policy[id], digest), requested, policy, class_, final)
       <==> AllSurvive(doc, requested, policy, class_, final)
  {
    hide WellFormed, HasLog, Masked, LeafPointers, RuleSurvives, Below;
    forall r | r in requested && r in policy
      ensures RuleSurvives(LeafPointers(Masked(doc, id, policy[id], digest), ""), policy[r], class_, final)
         <==> RuleSurvives(LeafPointers(doc, ""), policy[r], class_, final)
    {
      SurvivalUnmoved(doc, id, policy[id], digest, policy[r], class_, final);
    }
  }

  lemma {:induction false} SurviveSplit(doc: Json, requested: seq<string>, policy: Policy, class_: Option<Json>, final: Json)
    requires requested != [] && requested[0] in policy
    ensures AllSurvive(doc, requested, policy, class_, final)
       <==> RuleSurvives(LeafPointers(doc, ""), policy[requested[0]], class_, final)
            && AllSurvive(doc, requested[1..], policy, class_, final)
  {
    hide LeafPointers, RuleSurvives;
    assert requested == [requested[0]] + requested[1..];
  }

  lemma {:induction false} SuffixAfter<T>(whole: seq<T>, first: seq<T>, more: seq<T>)
    requires |first + more| <= |whole| && whole[..|first + more|] == first + more
    ensures whole[..|first|] == first
    ensures whole[|first|..] == more + whole[|first + more|..]
  {
    assert whole[..|first|] == whole[..|first + more|][..|first|];
    assert whole == (first + more) + whole[|first + more|..];
  }

  /** The records a run adds are all accepted exactly when every rule is content with its end. */
  lemma {:induction false} NewRecordsAccepted(doc: Json, requested: seq<string>, policy: Policy, digest: Json -> string, class_: Option<Json>, final: Json)
    requires WellFormed(doc) && HasLog(doc) && PolicyOk(policy) && AvoidsLog(requested, policy)
    requires ApplyAll(doc, requested, policy, digest) == Outcome(final, None)
    ensures HasLog(final) && |Log(doc)| <= |Log(final)| && Log(final)[..|Log(doc)|] == Log(doc)
    ensures AllAccepted(Log(final)[|Log(doc)|..], class_, final, policy, digest)
       <==> AllSurvive(doc, requested, policy, class_, final)
    decreases |requested|
  {
    hide WellFormed, HasLog, Masked, LeafPointers, ApplyRule, Records, AllSurvive, AllAccepted, RuleSurvives, Validate, Below, Log, ConstraintsHold, ClassAllowed;
    if requested == [] {
      assert Log(final)[|Log(doc)|..] == [];
      NothingRequested(doc, policy, class_, final, digest);
    } else {
      var id := requested[0];
      RuleSucceeds(doc, id, policy, digest);
      MaskedKeepsShape(doc, id, policy[id], digest);
      var next := Masked(doc, id, policy[id], digest);
      var records := Records(LeafPointers(doc, ""), id, policy[id], digest);
      LogUnmasked(doc, policy[id]);
      assert Log(next) == Log(doc) + records;
      NewRecordsAccepted(next, requested[1..], policy, digest, class_, final);
      AllSurviveUnmoved(doc, id, digest, requested[1..], policy, class_, final);
      SurviveSplit(doc, requested, policy, class_, final);
      RecordsAccepted(LeafPointers(doc, ""), id, policy, digest, class_, final);
      SuffixAfter(Log(final), Log(doc), records);
      AcceptedConcat(records, Log(final)[|Log(next)|..], class_, final, policy, digest);
    }
  }

  lemma {:induction false} NothingRequested(doc: Json, policy: Policy, class_: Option<Json>, final: Json, digest: Json -> string)
    ensures AllSurvive(doc, [], policy, class_, final) && AllAccepted([], class_, final, policy, digest)
  {
  }

  /**
    What a caller can check before the run: wherever a requested rule is allowed, the class the run
    will end with is one of its classes, and the last rule allowed there masks by an equal value.
   */
  ghost predicate RecordsWillHold(doc: Json, requested: seq<string>, policy: Policy)
  {
    forall id, e :: id in requested && id in policy && e in LeafPointers(doc, "") && policy[id].allowed(e.0) ==>
      && ClassAllowed(ClassAfter(doc, requested, policy), policy[id])
      && Combined(requested, policy)(e.0).Some?
      && PyEq(Combined(requested, policy)(e.0).value, policy[id].replacement)
  }

  lemma {:induction false} CombinedCovers(requested: seq<string>, policy: Policy, id: string, p: string)
    requires id in requested && id in policy && policy[id].allowed(p)
    ensures Combined(requested, policy)(p).Some?
    decreases |requested|
  {
    if requested[0] != id { CombinedCovers(requested[1..], policy, id, p); }
  }

  /** Writer and validator agree exactly under that condition. */
  lemma {:induction false} WriterMeetsValidator(doc: Json, requested: seq<string>, policy: Policy, digest: Json -> string)
    requires WellFormed(doc) && HasLog(doc) && Log(doc) == [] && PolicyOk(policy) && AvoidsLog(requested, policy)
    requires ApplyAll(doc, requested, policy, digest).refusal.None?
    ensures var final := ApplyAll(doc, requested, policy, digest).doc;
            HasLog(final) &&
            (AllAccepted(Log(final), FieldOf(final, "oracle_class"), final, policy, digest) <==> RecordsWillHold(doc, requested, policy))
  {
    hide WellFormed, LeafPointers, ApplyAll, Validate, PyEq, FieldOf, AvoidsLog, Walk, ClassAllowed, AllAccepted, ClassAfter, Parts;
    var final := ApplyAll(doc, requested, policy, digest).doc;
    var class_ := FieldOf(final, "oracle_class");
    NewRecordsAccepted(doc, requested, policy, digest, class_, final);
    assert Log(final)[0..] == Log(final);
    if requested != [] {
      ClassPresent(doc, requested, policy, digest);
      FinalClass(doc, requested, policy, digest);
    }
    FinalWellFormed(doc, requested, policy, digest);
    LogInObject(final);
    forall id, e | id in requested && id in policy && e in LeafPointers(doc, "") && policy[id].allowed(e.0)
      ensures Combined(requested, policy)(e.0).Some?
      ensures Walk(final, Parts(e.0)) == Combined(requested, policy)(e.0)
    {
      CombinedCovers(requested, policy, id, e.0);
      FinalLeafValue(doc, requested, policy, digest, e);
      PointerGetFindsLeaf(final, (e.0, Chosen(Combined(requested, policy), e.0, e.1)));
    }
  }

  lemma {:induction false} PyEqReflexive(v: Json)
    requires Leaf(v)
    ensures PyEq(v, v)
  {
  }

  /** Rules that never meet, and leave the class alone, always satisfy the validator. */
  lemma {:induction false} DisjointRulesHold(doc: Json, requested: seq<string>, policy: Policy, digest: Json -> string)
    requires WellFormed(doc) && HasLog(doc) && Log(doc) == [] && PolicyOk(policy) && AvoidsLog(requested, policy)
    requires ApplyAll(doc, requested, policy, digest).refusal.None?
    requires forall a, b, p :: a in requested && b in requested && a in policy && b in policy && policy[a].allowed(p) && policy[b].allowed(p) ==> a == b
    requires forall a :: a in requested && a in policy ==> !policy[a].allowed(CLASS_POINTER)
    ensures RecordsWillHold(doc, requested, policy)
  {
    hide LeafPointers, Mask, PyEq, ClassAllowed, FieldOf, WellFormed, HasLog;
    if requested != [] { ClassPresent(doc, requested, policy, digest); }
    forall id, e | id in requested && id in policy && e in LeafPointers(doc, "") && policy[id].allowed(e.0)
      ensures ClassAllowed(ClassAfter(doc, requested, policy), policy[id])
      ensures Combined(requested, policy)(e.0).Some? && PyEq(Combined(requested, policy)(e.0).value, policy[id].replacement)
    {
      var k := LastAllowing(requested, policy, e.0, id);
      CombinedIsLast(requested, policy, e.0, k);
      PyEqReflexive(policy[id].replacement);
      ClassStays(doc, requested, policy, digest, id);
    }
  }

  lemma {:induction false} LastAllowing(requested: seq<string>, policy: Policy, p: string, id: string) returns (k: nat)
    requires id in requested && id in policy && policy[id].allowed(p)
    ensures k < |requested| && requested[k] in policy && policy[requested[k]].allowed(p)
    ensures forall j :: k < j < |requested| && requested[j] in policy ==> !policy[requested[j]].allowed(p)
    decreases |requested|
  {
    var n := |requested| - 1;
    if requested[n] in policy && policy[requested[n]].allowed(p) {
      k := n;
    } else {
      assert requested == requested[..n] + [requested[n]];
      k := LastAllowing(requested[..n], policy, p, id);
      assert forall j :: 0 <= j < n ==> requested[..n][j] == requested[j];
    }
  }

  /** When no rule masks the class, every rule of a successful run was checked against the class it ends with. */
  lemma {:induction false} ClassStays(doc: Json, requested: seq<string>, policy: Policy, digest: Json -> string, id: string)
    requires WellFormed(doc) && HasLog(doc) && PolicyOk(policy) && FieldOf(doc, "oracle_class").Some?
    requires ApplyAll(doc, requested, policy, digest).refusal.None?
    requires forall a :: a in requested && a in policy ==> !policy[a].allowed(CLASS_POINTER)
    requires id in requested && id in policy
    ensures ClassAllowed(ClassAfter(doc, requested, policy), policy[id])
    decreases |requested|
  {
    hide WellFormed, HasLog, LeafPointers, ApplyRule, Masked, FieldOf, Mask;
    var first := requested[0];
    RuleSucceeds(doc, first, policy, digest);
    var c := FieldOf(doc, "oracle_class").value;
    ClassUnmasked(c, requested, policy);
    if first != id {
      MaskedKeepsShape(doc, first, policy[first], digest);
      ClassOfMasked(doc, first, policy[first], digest);
      ClassUnmasked(c, [first], policy);
      var next := Masked(doc, first, policy[first], digest);
      ClassStays(next, requested[1..], policy, digest, id);
      ClassUnmasked(c, requested[1..], policy);
      assert Mask(c, CLASS_POINTER, RuleRewriting(policy[first])) == c by {
        MaskCongruent(c, CLASS_POINTER, RuleRewriting(policy[first]), Combined([first], policy));
      }
    }
  }

  lemma {:induction false} ClassUnmasked(c: Json, requested: seq<string>, policy: Policy)
    requires Leaf(c)
    requires forall a :: a in requested && a in policy ==> !policy[a].allowed(CLASS_POINTER)
    ensures Mask(c, CLASS_POINTER, Combined(requested, policy)) == c
  {
    CombinedSilent(requested, policy, CLASS_POINTER);
  }

  lemma {:induction false} ClassPresent(doc: Json, requested: seq<string>, policy: Policy, digest: Json -> string)
    requires requested != [] && ApplyAll(doc, requested, policy, digest).refusal.None?
    ensures FieldOf(doc, "oracle_class").Some?
  {
    hide ApplyLeaves, FieldOf, LeafPointers;
  }

  // ---- records under rules that reach into the log ----------------------------------------------------------

  /** Whatever the rules may touch, an entry of the log ends up masked by all of those that ran after it was written. */
  lemma {:induction false} EntryAtEnd(doc: Json, requested: seq<string>, policy: Policy, digest: Json -> string, i: nat)
    requires WellFormed(doc) && HasLog(doc) && PolicyOk(policy) && i < |Log(doc)|
    requires ApplyAll(doc, requested, policy, digest).refusal.None?
    ensures var final := ApplyAll(doc, requested, policy, digest).doc;
            && HasLog(final) && |Log(doc)| <= |Log(final)|
            && Log(final)[i] == Mask(Log(doc)[i], LogItem(i), Combined(requested, policy))
    decreases |requested|
  {
    hide WellFormed, HasLog, LeafPointers, ApplyRule, Masked, Mask, Log, ConstraintsHold, ClassAllowed, Records, LogItem;
    if requested == [] {
      MaskNothing(Log(doc)[i], LogItem(i), Combined(requested, policy));
    } else {
      var id := requested[0];
      RuleSucceeds(doc, id, policy, digest);
      MaskedKeepsShape(doc, id, policy[id], digest);
      var next := Masked(doc, id, policy[id], digest);
      var f := RuleRewriting(policy[id]);
      EntryOfMask(doc, f, i);
      EntryAtEnd(next, requested[1..], policy, digest, i);
      MaskTwice(Log(doc)[i], LogItem(i), f, Combined(requested[1..], policy));
    }
  }

  lemma {:induction false} EntryOfMask(doc: Json, f: Rewriting, i: nat)
    requires WellFormed(doc) && HasLog(doc) && i < |Log(doc)|
    ensures HasLog(Mask(doc, "", f)) && |Log(Mask(doc, "", f))| == |Log(doc)|
    ensures Log(Mask(doc, "", f))[i] == Mask(Log(doc)[i], LogItem(i), f)
  {
    hide Mask, Extend, WellFormed, HasLog, Log;
    MaskHasLog(doc, f);
    var log := Arr(Log(doc));
    MaskContainer(log, LOG_POINTER, f);
    assert ChildAt(log, i) == Log(doc)[i] && StepAt(log, i) == Index(i);
    assert ChildAt(Arr(Log(Mask(doc, "", f))), i) == Log(Mask(doc, "", f))[i];
  }

  /** Every record is that of an allowed leaf. */
  lemma {:induction false} RecordOf(leaves: seq<(string, Json)>, id: string, rule: Rule, digest: Json -> string, j: nat) returns (e: (string, Json))
    requires j < |Records(leaves, id, rule, digest)|
    ensures e in leaves && rule.allowed(e.0) && Records(leaves, id, rule, digest)[j] == Record(id, e.0, e.1, rule.replacement, digest)
    decreases |leaves|
  {
    hide Record;
    var n := |leaves| - 1;
    assert leaves == leaves[..n] + [leaves[n]];
    if j < |Records(leaves[..n], id, rule, digest)| {
      e := RecordOf(leaves[..n], id, rule, digest, j);
    } else {
      e := leaves[n];
    }
  }

  /**
    So a record holds at the end as the later rules left it. Where they did not touch it, it is accepted
    exactly when its rule is content with the final class and the final leaf, whatever else is masked.
   */
  lemma {:induction false} RecordAtEnd(doc: Json, id: string, later: seq<string>, policy: Policy, digest: Json -> string, j: nat)
    returns (e: (string, Json))
    requires WellFormed(doc) && HasLog(doc) && PolicyOk(policy) && ApplyAll(doc, [id] + later, policy, digest).refusal.None?
    requires id in policy && j < |Records(LeafPointers(doc, ""), id, policy[id], digest)|
    ensures e in LeafPointers(doc, "") && policy[id].allowed(e.0)
    ensures var final, at := ApplyAll(doc, [id] + later, policy, digest).doc, |Log(doc)| + j;
            && HasLog(final) && at < |Log(final)|
            && Log(final)[at] == Mask(Record(id, e.0, e.1, policy[id].replacement, digest), LogItem(at), Combined(later, policy))
            && ((forall p :: Below(LogItem(at), p) ==> Combined(later, policy)(p).None?) ==>
                  (Validate(Log(final)[at], FieldOf(final, "oracle_class"), final, policy, digest) == Accepted
                   <==> Survives(policy[id], e.0, FieldOf(final, "oracle_class"), final)))
  {
    hide WellFormed, HasLog, LeafPointers, ApplyRule, Masked, Mask, Log, ClassAllowed, Records, LogItem, Validate, Survives, Below, FieldOf, Record, ConstraintOk;
    var requested, rule, n := [id] + later, policy[id], |Log(doc)|;
    assert requested[1..] == later;
    RuleSucceeds(doc, id, policy, digest);
    MaskedKeepsShape(doc, id, rule, digest);
    var next, leaves := Masked(doc, id, rule, digest), LeafPointers(doc, "");
    var f, records := RuleRewriting(rule), Records(leaves, id, rule, digest);
    e := RecordOf(leaves, id, rule, digest, j);
    LogLengthOfMask(doc, f);
    assert Log(next)[n + j] == records[j];
    EntryAtEnd(next, later, policy, digest, n + j);
    HeldAt(leaves, id, rule, e);
    VerdictIsSurvival(id, e, policy, digest, FieldOf(ApplyAll(doc, requested, policy, digest).doc, "oracle_class"), ApplyAll(doc, requested, policy, digest).doc);
    var at, r := n + j, Record(id, e.0, e.1, rule.replacement, digest);
    if forall p :: Below(LogItem(at), p) ==> Combined(later, policy)(p).None? {
      forall l | l in LeafPointers(r, LogItem(at)) ensures Combined(later, policy)(l.0).None? {
        RecordIsObject(id, e.0, e.1, rule.replacement, digest);
        LeafIsBelow(r, LogItem(at), l);
      }
      MaskNothing(r, LogItem(at), Combined(later, policy));
    }
  }

  lemma {:induction false} LogLengthOfMask(doc: Json, f: Rewriting)
    requires WellFormed(doc) && HasLog(doc)
    ensures HasLog(Mask(doc, "", f)) && |Log(Mask(doc, "", f))| == |Log(doc)|
  {
    hide Mask, Extend, WellFormed, HasLog, Log;
    MaskHasLog(doc, f);
    MaskContainer(Arr(Log(doc)), LOG_POINTER, f);
    assert Arity(Arr(Log(doc))) == |Log(doc)|;
  }

  lemma {:induction false} HeldAt(leaves: seq<(string, Json)>, id: string, rule: Rule, e: (string, Json))
    requires ConstraintsHold(leaves, id, rule) && e in leaves && rule.allowed(e.0)
    ensures ConstraintOk(id, e.1)
  {
    hide ConstraintOk;
  }

  // ---- disjoint rules alone are not enough ---------------------------------------------------------------

  /** A result whose only leaf is its class. */
  const BARE_RESULT: Json := Obj([Field("oracle_class", Str("harness")), Field(APPLIED, Arr([]))])

  /** One rule, allowed nowhere but at the class. */
  const CLASS_MASKER: Rule := Rule("log_prefix", ["harness"], p => p == CLASS_POINTER, Str("<LOG_PREFIX>"))

  /**
    A single rule that may mask the class itself: the run succeeds, yet its record is refused,
    because the validator reads the class the run left behind.
   */
  lemma {:induction false} ClassMaskingIsRefused(digest: Json -> string)
    ensures var policy := map["log_prefix" := CLASS_MASKER];
            && ApplyAll(BARE_RESULT, ["log_prefix"], policy, digest).refusal.None?
            && var final := ApplyAll(BARE_RESULT, ["log_prefix"], policy, digest).doc;
            && !RecordsWillHold(BARE_RESULT, ["log_prefix"], policy)
            && HasLog(final) && !AllAccepted(Log(final), FieldOf(final, "oracle_class"), final, policy, digest)
  {
    hide ApplyAll, LeafPointers, FieldOf, ClassAfter, Combined, Extend, AllAccepted, Log, HasLog, WellFormed, Below, Validate;
    var policy := map["log_prefix" := CLASS_MASKER];
    var e := (CLASS_POINTER, Str("harness"));
    BareResultShape();
    BareRunSucceeds(digest);
    BareClassAfter();
    assert "log_prefix" in ["log_prefix"] && e in LeafPointers(BARE_RESULT, "") && policy["log_prefix"].allowed(e.0);
    ClassIsNoLogEntry();
    WriterMeetsValidator(BARE_RESULT, ["log_prefix"], policy, digest);
  }

  /** The second character of a pointer tells the log, the class and the shipped patterns apart. */
  lemma {:induction false} SecondCharacters()
    ensures |LOG_POINTER| > 1 && LOG_POINTER[1] == 'n' && |CLASS_POINTER| > 1 && CLASS_POINTER[1] == 'o'
  {
    hide Escape;
    EscapeCons(APPLIED);
    EscapeCons("oracle_class");
    assert APPLIED[0] == 'n' && "oracle_class"[0] == 'o';
  }

  lemma {:induction false} ClassIsNoLogEntry()
    ensures !Below(LOG_POINTER, CLASS_POINTER)
  {
    SecondCharacters();
  }

  /** Where the shipped policy lets a rule mask: inside the logs and the events of a result. */
  predicate Shipped(p: string)
  {
    "/logs/" <= p || "/events/" <= p
  }

  /** Rules of that kind reach neither the log of maskings nor the class, so the theorems above apply to them. */
  lemma {:induction false} ShippedRulesApply(requested: seq<string>, policy: Policy)
    requires forall id, p :: id in policy && policy[id].allowed(p) ==> Shipped(p)
    ensures AvoidsLog(requested, policy)
    ensures forall a :: a in requested && a in policy ==> !policy[a].allowed(CLASS_POINTER)
  {
    hide Extend;
    SecondCharacters();
    forall p | Shipped(p) ensures p != CLASS_POINTER && !Below(LOG_POINTER, p) {
      assert p[1] == 'l' || p[1] == 'e';
    }
    forall a | a in requested && a in policy ensures !policy[a].allowed(CLASS_POINTER) {
      assert policy[a].allowed(CLASS_POINTER) ==> Shipped(CLASS_POINTER);
    }
  }

  lemma {:induction false} BareRunSucceeds(digest: Json -> string)
    ensures ApplyAll(BARE_RESULT, ["log_prefix"], map["log_prefix" := CLASS_MASKER], digest).refusal.None?
  {
    hide LeafPointers, ApplyLeaves, FieldOf, WellFormed, HasLog, Masked, Extend;
    var policy := map["log_prefix" := CLASS_MASKER];
    BareResultShape();
    OnePassIsOneMasking(BARE_RESULT, "log_prefix", CLASS_MASKER, digest);
    var o := ApplyRule(BARE_RESULT, "log_prefix", policy, digest);
    assert ["log_prefix"][1..] == [];
  }

  lemma {:induction false} BareClassAfter()
    ensures var policy := map["log_prefix" := CLASS_MASKER];
            !ClassAllowed(ClassAfter(BARE_RESULT, ["log_prefix"], policy), CLASS_MASKER)
  {
    hide LeafPointers, FieldOf, WellFormed, HasLog, Extend, Combined;
    var policy := map["log_prefix" := CLASS_MASKER];
    BareResultShape();
    CombinedIsLast(["log_prefix"], policy, CLASS_POINTER, 0);
    assert "<LOG_PREFIX>"[0] != "harness"[0];
  }

  lemma {:induction false} BareResultShape()
    ensures WellFormed(BARE_RESULT) && HasLog(BARE_RESULT) && Log(BARE_RESULT) == []
    ensures LeafPointers(BARE_RESULT, "") == [(CLASS_POINTER, Str("harness"))]
    ensures FieldOf(BARE_RESULT, "oracle_class") == Some(Str("harness"))
  {
    hide Extend, LeafPointers, LeavesFrom;
    var doc := BARE_RESULT;
    assert StepAt(doc, 0) == Key("oracle_class") && StepAt(doc, 1) == Key(APPLIED);
    assert "oracle_class"[0] != APPLIED[0];
    assert ChildAt(doc, 0) == Str("harness") && ChildAt(doc, 1) == Arr([]);
    assert WellFormed(Arr([])) && WellFormed(Str("harness"));
    assert Position(doc, Key(APPLIED), 1) == Some(1);
    BareLeaves();
  }

  lemma {:induction false} BareLeaves()
    ensures LeafPointers(BARE_RESULT, "") == [(CLASS_POINTER, Str("harness"))]
  {
    hide Extend;
    var doc := BARE_RESULT;
    assert StepAt(doc, 0) == Key("oracle_class") && StepAt(doc, 1) == Key(APPLIED);
    assert ChildAt(doc, 0) == Str("harness") && ChildAt(doc, 1) == Arr([]);
    assert LeavesFrom(doc, "", 2) == [];
    assert LeafPointers(Arr([]), Extend("", Key(APPLIED))) == [];
    assert LeavesFrom(doc, "", 1) == [];
    assert LeafPointers(Str("harness"), CLASS_POINTER) == [(CLASS_POINTER, Str("harness"))];
  }
}
