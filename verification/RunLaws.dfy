/** When a run of requested rules succeeds, and why it is refused, in terms of the original document. */
module RunLaws {
  import opened Outcomes
  import opened Text
  import opened Json
  import opened Pointer
  import opened Normalize
  import opened Validation

  /** A leaf as the earlier rules leave it. */
  function Earlier(earlier: seq<string>, policy: Policy, e: (string, Json)): Json
  {
    Chosen(Combined(earlier, policy), e.0, e.1)
  }

  /** A leaf the rule would mask and must not. */
  predicate Offends(e: (string, Json), earlier: seq<string>, id: string, policy: Policy)
    requires id in policy
  {
    policy[id].allowed(e.0) && !ConstraintOk(id, Earlier(earlier, policy, e))
  }

  /** The rule is known, allows the class as the earlier rules leave it, and meets no leaf it must not mask. */
  ghost predicate Runs(doc: Json, earlier: seq<string>, id: string, policy: Policy)
  {
    && id in policy
    && FieldOf(doc, "oracle_class").Some? && InClass(ClassAfter(doc, earlier, policy), policy[id].classes)
    && forall e :: e in LeafPointers(doc, "") ==> !Offends(e, earlier, id, policy)
  }

  lemma {:induction false} AllowedIsInClass(c: Option<Json>, rule: Rule)
    ensures ClassAllowed(c, rule) <==> InClass(c, rule.classes)
  {
    if ClassAllowed(c, rule) {
      var i :| 0 <= i < |rule.classes| && rule.classes[i] == c.value.s;
      assert c == Some(Str(rule.classes[i]));
    }
  }

  lemma {:induction false} NoEarlier(doc: Json, policy: Policy)
    ensures ClassAfter(doc, [], policy) == FieldOf(doc, "oracle_class")
    ensures forall e :: Earlier([], policy, e) == e.1
  {
    hide FieldOf, Mask;
    if FieldOf(doc, "oracle_class").Some? {
      MaskNothing(FieldOf(doc, "oracle_class").value, CLASS_POINTER, Combined([], policy));
    }
  }

  /** The first rule, alone. */
  lemma {:induction false} FirstRuns(doc: Json, id: string, policy: Policy, digest: Json -> string)
    requires WellFormed(doc) && HasLog(doc) && PolicyOk(policy)
    ensures ApplyRule(doc, id, policy, digest).refusal.None? <==> Runs(doc, [], id, policy)
    ensures !Runs(doc, [], id, policy) ==> Refuses(ApplyRule(doc, id, policy, digest).refusal, doc, [], id, policy)
  {
    hide WellFormed, HasLog, ApplyLeaves, LeafPointers, ClassAllowed, FieldOf, Masked, InClass, ClassAfter, Earlier, ConstraintOk;
    NoEarlier(doc, policy);
    if id in policy {
      AllowedIsInClass(FieldOf(doc, "oracle_class"), policy[id]);
      OnePassIsOneMasking(doc, id, policy[id], digest);
      var leaves := LeafPointers(doc, "");
      if !ConstraintsHold(leaves, id, policy[id]) {
        var k := FirstOffender(leaves, id, policy[id]);
        RefusalNamesFirst(doc, id, policy[id], digest, k);
        assert Offends(leaves[k], [], id, policy);
      }
    }
  }

  lemma {:induction false} FirstOffender(leaves: seq<(string, Json)>, id: string, rule: Rule) returns (k: nat)
    requires !ConstraintsHold(leaves, id, rule)
    ensures k < |leaves| && rule.allowed(leaves[k].0) && !ConstraintOk(id, leaves[k].1) && ConstraintsHold(leaves[..k], id, rule)
    decreases |leaves|
  {
    hide ConstraintOk;
    var n := |leaves| - 1;
    if ConstraintsHold(leaves[..n], id, rule) {
      k := n;
    } else {
      k := FirstOffender(leaves[..n], id, rule);
      assert leaves[..n][..k] == leaves[..k];
    }
  }

  /** The reason a rule is refused for: its name, the class, or a leaf that offends. */
  ghost predicate Refuses(why: Option<Refusal>, doc: Json, earlier: seq<string>, id: string, policy: Policy)
  {
    if id !in policy then why == Some(UnknownRule(id))
    else if FieldOf(doc, "oracle_class").None? then why == Some(Malformed)
    else if !InClass(ClassAfter(doc, earlier, policy), policy[id].classes) then why == Some(ForbiddenClass(id))
    else exists e :: e in LeafPointers(doc, "") && Offends(e, earlier, id, policy) && why == Some(ConstraintViolated(id, e.0))
  }

  // ---- one rule earlier ------------------------------------------------------------------------------

  lemma {:induction false} EarlierClass(doc: Json, id: string, earlier: seq<string>, policy: Policy, digest: Json -> string)
    requires WellFormed(doc) && HasLog(doc) && PolicyOk(policy) && id in policy && FieldOf(doc, "oracle_class").Some?
    ensures FieldOf(Masked(doc, id, policy[id], digest), "oracle_class").Some?
    ensures ClassAfter(Masked(doc, id, policy[id], digest), earlier, policy) == ClassAfter(doc, [id] + earlier, policy)
  {
    hide WellFormed, HasLog, FieldOf, Mask, Masked, Combined;
    ClassOfMasked(doc, id, policy[id], digest);
    CombinedFirst(id, earlier, policy);
    MaskTwice(FieldOf(doc, "oracle_class").value, CLASS_POINTER, RuleRewriting(policy[id]), Combined(earlier, policy));
  }

  lemma {:induction false} CombinedFirst(id: string, earlier: seq<string>, policy: Policy)
    requires id in policy
    ensures Combined([id] + earlier, policy) == Then(RuleRewriting(policy[id]), Combined(earlier, policy))
  {
    assert ([id] + earlier)[1..] == earlier;
  }

  lemma {:induction false} EarlierLeaf(id: string, earlier: seq<string>, policy: Policy, e: (string, Json))
    requires id in policy
    ensures Earlier(earlier, policy, (e.0, Chosen(RuleRewriting(policy[id]), e.0, e.1))) == Earlier([id] + earlier, policy, e)
  {
    hide Combined;
    CombinedFirst(id, earlier, policy);
  }

  /** What offends after one more rule. */
  lemma {:induction false} OffendersMove(doc: Json, id: string, earlier: seq<string>, next: string, policy: Policy, digest: Json -> string)
    requires WellFormed(doc) && HasLog(doc) && PolicyOk(policy) && id in policy && next in policy
    requires forall p :: policy[next].allowed(p) ==> !Below(LOG_POINTER, p)
    ensures forall e :: e in LeafPointers(doc, "") && Offends(e, [id] + earlier, next, policy) ==>
              exists x :: x in LeafPointers(Masked(doc, id, policy[id], digest), "") && Offends(x, earlier, next, policy) && x.0 == e.0
    ensures forall x :: x in LeafPointers(Masked(doc, id, policy[id], digest), "") && Offends(x, earlier, next, policy) ==>
              exists e :: e in LeafPointers(doc, "") && Offends(e, [id] + earlier, next, policy) && e.0 == x.0
  {
    hide WellFormed, HasLog, LeafPointers, Masked, Below, ConstraintOk, Earlier;
    var f := RuleRewriting(policy[id]);
    forall e | e in LeafPointers(doc, "") && Offends(e, [id] + earlier, next, policy)
      ensures exists x :: x in LeafPointers(Masked(doc, id, policy[id], digest), "") && Offends(x, earlier, next, policy) && x.0 == e.0
    {
      MaskedLeafValue(doc, id, policy[id], digest, e);
      EarlierLeaf(id, earlier, policy, e);
      var x := (e.0, Chosen(f, e.0, e.1));
      assert x in LeafPointers(Masked(doc, id, policy[id], digest), "") && Offends(x, earlier, next, policy);
    }
    forall x | x in LeafPointers(Masked(doc, id, policy[id], digest), "") && Offends(x, earlier, next, policy)
      ensures exists e :: e in LeafPointers(doc, "") && Offends(e, [id] + earlier, next, policy) && e.0 == x.0
    {
      var e := MaskedLeafOrigin(doc, id, policy[id], digest, x);
      EarlierLeaf(id, earlier, policy, e);
      assert Offends(e, [id] + earlier, next, policy);
    }
  }

  lemma {:induction false} RunsAfter(doc: Json, id: string, earlier: seq<string>, next: string, policy: Policy, digest: Json -> string)
    requires WellFormed(doc) && HasLog(doc) && PolicyOk(policy) && id in policy && FieldOf(doc, "oracle_class").Some?
    requires next in policy ==> forall p :: policy[next].allowed(p) ==> !Below(LOG_POINTER, p)
    ensures Runs(Masked(doc, id, policy[id], digest), earlier, next, policy) <==> Runs(doc, [id] + earlier, next, policy)
  {
    hide WellFormed, HasLog, LeafPointers, Masked, Offends, ClassAfter, InClass, FieldOf, Below;
    EarlierClass(doc, id, earlier, policy, digest);
    if next in policy { OffendersMove(doc, id, earlier, next, policy, digest); }
  }

  lemma {:induction false} RefusesAfter(why: Option<Refusal>, doc: Json, id: string, earlier: seq<string>, next: string, policy: Policy, digest: Json -> string)
    requires WellFormed(doc) && HasLog(doc) && PolicyOk(policy) && id in policy && FieldOf(doc, "oracle_class").Some?
    requires next in policy ==> forall p :: policy[next].allowed(p) ==> !Below(LOG_POINTER, p)
    requires Refuses(why, Masked(doc, id, policy[id], digest), earlier, next, policy)
    ensures Refuses(why, doc, [id] + earlier, next, policy)
  {
    hide WellFormed, HasLog, LeafPointers, Masked, Offends, ClassAfter, InClass, FieldOf, Below;
    EarlierClass(doc, id, earlier, policy, digest);
    if next in policy { OffendersMove(doc, id, earlier, next, policy, digest); }
  }

  // ---- a whole run -------------------------------------------------------------------------------------

  /** After the first rule the others can run exactly as they could behind it. */
  lemma {:induction false} RunsLater(doc: Json, requested: seq<string>, policy: Policy, digest: Json -> string)
    requires WellFormed(doc) && HasLog(doc) && PolicyOk(policy) && AvoidsLog(requested, policy)
    requires requested != [] && requested[0] in policy && FieldOf(doc, "oracle_class").Some?
    ensures var next, rest := Masked(doc, requested[0], policy[requested[0]], digest), requested[1..];
            && WellFormed(next) && HasLog(next) && AvoidsLog(rest, policy)
            && forall k :: 0 <= k < |rest| ==> (Runs(next, rest[..k], rest[k], policy) <==> Runs(doc, requested[..k + 1], requested[k + 1], policy))
  {
    hide WellFormed, HasLog, Masked, Runs, FieldOf, Below;
    var id, rest := requested[0], requested[1..];
    MaskedKeepsShape(doc, id, policy[id], digest);
    assert forall x :: x in rest ==> x in requested;
    var next := Masked(doc, id, policy[id], digest);
    forall k | 0 <= k < |rest| ensures Runs(next, rest[..k], rest[k], policy) <==> Runs(doc, requested[..k + 1], requested[k + 1], policy) {
      assert [id] + rest[..k] == requested[..k + 1] && rest[k] in requested;
      RunsAfter(doc, id, rest[..k], rest[k], policy, digest);
    }
  }

  /** The first rule can run; then a run is that rule followed by the others. */
  lemma {:induction false} FirstOfRun(doc: Json, requested: seq<string>, policy: Policy, digest: Json -> string)
    requires WellFormed(doc) && HasLog(doc) && PolicyOk(policy) && requested != []
    ensures !Runs(doc, requested[..0], requested[0], policy) ==>
              var why := ApplyAll(doc, requested, policy, digest).refusal;
              why.Some? && Refuses(why, doc, requested[..0], requested[0], policy)
    ensures Runs(doc, requested[..0], requested[0], policy) ==>
              && requested[0] in policy && FieldOf(doc, "oracle_class").Some?
              && ApplyAll(doc, requested, policy, digest) == ApplyAll(Masked(doc, requested[0], policy[requested[0]], digest), requested[1..], policy, digest)
  {
    hide WellFormed, HasLog, ApplyRule, Masked, Runs, Refuses, FieldOf;
    assert requested[..0] == [];
    FirstRuns(doc, requested[0], policy, digest);
    if Runs(doc, [], requested[0], policy) {
      RuleSucceeds(doc, requested[0], policy, digest);
      RunsHaveClass(doc, [], requested[0], policy);
    }
  }

  lemma {:induction false} RunsHaveClass(doc: Json, earlier: seq<string>, id: string, policy: Policy)
    requires Runs(doc, earlier, id, policy)
    ensures id in policy && FieldOf(doc, "oracle_class").Some?
  {
  }

  /** Every requested rule can run. */
  ghost predicate AllRun(doc: Json, requested: seq<string>, policy: Policy)
  {
    forall k :: 0 <= k < |requested| ==> Runs(doc, requested[..k], requested[k], policy)
  }

  lemma {:induction false} AllRunLater(doc: Json, next: Json, requested: seq<string>, policy: Policy)
    requires requested != [] && Runs(doc, requested[..0], requested[0], policy)
    requires var rest := requested[1..];
             forall k :: 0 <= k < |rest| ==> (Runs(next, rest[..k], rest[k], policy) <==> Runs(doc, requested[..k + 1], requested[k + 1], policy))
    ensures AllRun(next, requested[1..], policy) <==> AllRun(doc, requested, policy)
  {
    hide Runs;
    var rest := requested[1..];
    if AllRun(next, rest, policy) {
      forall k | 0 <= k < |requested| ensures Runs(doc, requested[..k], requested[k], policy) {
        if k > 0 { assert Runs(next, rest[..k - 1], rest[k - 1], policy); }
      }
    }
    if AllRun(doc, requested, policy) {
      forall k | 0 <= k < |rest| ensures Runs(next, rest[..k], rest[k], policy) {
        assert Runs(doc, requested[..k + 1], requested[k + 1], policy);
      }
    }
  }

  /**
    A run succeeds if and only if every requested rule is known, allows the class as the rules before
    it leave it, and allows no leaf of the original document whose value, as the rules before it leave
    it, breaks its constraint.
   */
  lemma {:induction false} RunSucceedsIff(doc: Json, requested: seq<string>, policy: Policy, digest: Json -> string)
    requires WellFormed(doc) && HasLog(doc) && PolicyOk(policy) && AvoidsLog(requested, policy)
    ensures ApplyAll(doc, requested, policy, digest).refusal.None? <==> AllRun(doc, requested, policy)
    decreases |requested|
  {
    hide WellFormed, HasLog, ApplyRule, Masked, Runs, Refuses, FieldOf, AvoidsLog;
    if requested != [] {
      FirstOfRun(doc, requested, policy, digest);
      if Runs(doc, requested[..0], requested[0], policy) {
        RunsLater(doc, requested, policy, digest);
        var next := Masked(doc, requested[0], policy[requested[0]], digest);
        RunSucceedsIff(next, requested[1..], policy, digest);
        AllRunLater(doc, next, requested, policy);
      }
    }
  }

  /** A run that fails is refused for the first rule that cannot run, and says why it cannot. */
  lemma {:induction false} RunIsRefusedFor(doc: Json, requested: seq<string>, policy: Policy, digest: Json -> string, k: nat)
    requires WellFormed(doc) && HasLog(doc) && PolicyOk(policy) && AvoidsLog(requested, policy)
    requires k < |requested| && !Runs(doc, requested[..k], requested[k], policy) && AllRun(doc, requested[..k], policy)
    ensures Refuses(ApplyAll(doc, requested, policy, digest).refusal, doc, requested[..k], requested[k], policy)
    decreases |requested|
  {
    hide WellFormed, HasLog, ApplyAll, Masked, Runs, Refuses, FieldOf, AvoidsLog, AllRun;
    FirstOfRun(doc, requested, policy, digest);
    if k > 0 {
      var id, rest := requested[0], requested[1..];
      FirstIsAmong(doc, requested, policy, k);
      RunsLater(doc, requested, policy, digest);
      var next := Masked(doc, id, policy[id], digest);
      PrefixLater(doc, next, requested, policy, k);
      RunIsRefusedFor(next, rest, policy, digest, k - 1);
      LastRefusal(doc, requested, policy, digest, k);
    }
  }

  lemma {:induction false} FirstIsAmong(doc: Json, requested: seq<string>, policy: Policy, k: nat)
    requires 0 < k <= |requested| && AllRun(doc, requested[..k], policy)
    ensures Runs(doc, requested[..0], requested[0], policy)
  {
    hide Runs;
    assert requested[..k][..0] == requested[..0] && requested[..k][0] == requested[0];
  }

  lemma {:induction false} PrefixLater(doc: Json, next: Json, requested: seq<string>, policy: Policy, k: nat)
    requires 0 < k < |requested| && AllRun(doc, requested[..k], policy) && !Runs(doc, requested[..k], requested[k], policy)
    requires var rest := requested[1..];
             forall j :: 0 <= j < |rest| ==> (Runs(next, rest[..j], rest[j], policy) <==> Runs(doc, requested[..j + 1], requested[j + 1], policy))
    ensures AllRun(next, requested[1..][..k - 1], policy) && !Runs(next, requested[1..][..k - 1], requested[1..][k - 1], policy)
  {
    hide Runs;
    var rest := requested[1..];
    var few := rest[..k - 1];
    forall j | 0 <= j < |few| ensures Runs(next, few[..j], few[j], policy) {
      assert few[..j] == rest[..j] && few[j] == rest[j];
      assert requested[..k][..j + 1] == requested[..j + 1] && requested[..k][j + 1] == requested[j + 1];
    }
  }

  lemma {:induction false} LastRefusal(doc: Json, requested: seq<string>, policy: Policy, digest: Json -> string, k: nat)
    requires WellFormed(doc) && HasLog(doc) && PolicyOk(policy) && AvoidsLog(requested, policy)
    requires 0 < k < |requested| && requested[0] in policy && FieldOf(doc, "oracle_class").Some?
    requires var next := Masked(doc, requested[0], policy[requested[0]], digest);
             && ApplyAll(doc, requested, policy, digest) == ApplyAll(next, requested[1..], policy, digest)
             && Refuses(ApplyAll(next, requested[1..], policy, digest).refusal, next, requested[1..][..k - 1], requested[1..][k - 1], policy)
    ensures Refuses(ApplyAll(doc, requested, policy, digest).refusal, doc, requested[..k], requested[k], policy)
  {
    hide WellFormed, HasLog, ApplyAll, Masked, Refuses, FieldOf, Below;
    var rest := requested[1..];
    assert [requested[0]] + rest[..k - 1] == requested[..k] && rest[k - 1] in requested;
    RefusesAfter(ApplyAll(doc, requested, policy, digest).refusal, doc, requested[0], rest[..k - 1], rest[k - 1], policy, digest);
  }
}
