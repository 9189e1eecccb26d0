/** Binding the observations of a qualification result to the scenarios of the manifest. */
module Evidence {
  import opened Outcomes
  import opened Json

  /** A scenario of the manifest; None where a key does not hold a list. */
  datatype Contract = Contract(item: Json, id: Json, subjects: Option<seq<Json>>)

  /** The same scenario in the result. */
  datatype Scenario = Scenario(id: Json, observationIds: Option<seq<Json>>, evidence: Option<seq<Json>>)

  /** An absent key reads as null. */
  datatype Observation = Observation(id: Json, subject: Json, status: Json, expected: Json, actual: Json, path: Json)

  function ForItem(manifest: seq<Contract>, item: Json): seq<Contract>
  {
    if manifest == [] then []
    else (if manifest[0].item == item then [manifest[0]] else []) + ForItem(manifest[1..], item)
  }

  predicate SameIds(contracts: seq<Contract>, scenarios: seq<Scenario>)
  {
    |contracts| == |scenarios| && forall i :: 0 <= i < |contracts| ==> contracts[i].id == scenarios[i].id
  }

  function ObservationIds(observations: seq<Observation>): (ids: seq<Json>)
    ensures |ids| == |observations|
  {
    seq(|observations|, i requires 0 <= i < |observations| => observations[i].id)
  }

  predicate Identified(observations: seq<Observation>)
  {
    && (forall i :: 0 <= i < |observations| ==> observations[i].id.Str?)
    && forall i, j :: 0 <= i < j < |observations| ==> observations[i].id != observations[j].id
  }

  // ---- one scenario ------------------------------------------------------------------------------------

  /** A pass, with measured values, on evidence that is both the scenario's and in the inventory. */
  predicate Sound(o: Observation, evidence: seq<Json>, inventory: set<Json>)
  {
    && o.status == Str("pass")
    && !o.expected.Null? && !o.actual.Null? && !o.expected.Bool? && !o.actual.Bool?
    && o.path in inventory && o.path in evidence
  }

  predicate EvidenceListed(s: Scenario, inventory: set<Json>)
  {
    && s.evidence.Some? && s.evidence.value != []
    && forall i :: 0 <= i < |s.evidence.value| ==> s.evidence.value[i] in inventory
  }

  predicate SameLength(c: Contract, s: Scenario)
  {
    s.observationIds.Some? && c.subjects.Some? && |s.observationIds.value| == |c.subjects.value|
  }

  /** The k-th observation a scenario names exists, has the k-th expected subject and is sound. */
  predicate Bound(c: Contract, s: Scenario, k: nat, observations: seq<Observation>, inventory: set<Json>)
    requires SameLength(c, s) && EvidenceListed(s, inventory) && k < |s.observationIds.value|
  {
    exists j :: 0 <= j < |observations| && BoundTo(c, s, k, observations[j], inventory)
  }

  predicate BoundTo(c: Contract, s: Scenario, k: nat, o: Observation, inventory: set<Json>)
    requires SameLength(c, s) && EvidenceListed(s, inventory) && k < |s.observationIds.value|
  {
    o.id == s.observationIds.value[k] && o.subject == c.subjects.value[k] && Sound(o, s.evidence.value, inventory)
  }

  predicate Fits(c: Contract, s: Scenario, observations: seq<Observation>, inventory: set<Json>)
  {
    && SameLength(c, s) && EvidenceListed(s, inventory)
    && forall k :: 0 <= k < |s.observationIds.value| ==> Bound(c, s, k, observations, inventory)
  }

  /** Everything the scenarios name, in order. */
  function Named(scenarios: seq<Scenario>): seq<Json>
    decreases |scenarios|
  {
    if scenarios == [] then []
    else
      var n := |scenarios| - 1;
      Named(scenarios[..n]) + (match scenarios[n].observationIds case Some(ids) => ids case None => [])
  }

  predicate Accepted(contracts: seq<Contract>, scenarioIds: seq<Json>, scenarios: seq<Scenario>,
                     observations: seq<Observation>, inventory: set<Json>)
  {
    && contracts != [] && SameIds(contracts, scenarios)
    && |scenarioIds| == |contracts| && (forall i :: 0 <= i < |contracts| ==> scenarioIds[i] == contracts[i].id)
    && Identified(observations)
    && (forall i :: 0 <= i < |contracts| ==> Fits(contracts[i], scenarios[i], observations, inventory))
    && Named(scenarios) == ObservationIds(observations)
  }

  // ---- the validator --------------------------------------------------------------------------------------

  lemma {:induction false} NothingIndexed()
    ensures Identified([]) && Indexes(map[], [])
  {
  }

  /** One more observation, and what it does to the index. */
  lemma {:induction false} IndexOneMore(observations: seq<Observation>, k: nat, byId: map<Json, Observation>)
    requires k < |observations|
    requires Identified(observations[..k]) && Indexes(byId, observations[..k])
    ensures Identified(observations[..k + 1]) <==> observations[k].id.Str? && observations[k].id !in byId
    ensures observations[k].id !in byId ==> Indexes(byId[observations[k].id := observations[k]], observations[..k + 1])
    ensures Identified(observations) ==> Identified(observations[..k + 1])
  {
    var low, high, o := observations[..k], observations[..k + 1], observations[k];
    assert high[k] == o && forall i :: 0 <= i < k ==> high[i] == low[i];
    if o.id in byId {
      assert byId[o.id] in low;
      var i :| 0 <= i < |low| && low[i] == byId[o.id];
      assert high[i].id == high[k].id;
    } else {
      forall i | 0 <= i < k ensures low[i].id != o.id { assert low[i].id in byId; }
      var grown := byId[o.id := o];
      forall id | id in grown ensures grown[id].id == id && grown[id] in high {
        if id != o.id {
          assert byId[id] in low;
          var i :| 0 <= i < |low| && low[i] == byId[id];
          assert high[i] == grown[id];
        } else {
          assert high[k] == grown[id];
        }
      }
    }
  }

  /** The observations by identifier, or None when an identifier is missing or repeated. */
  method IndexObservations(observations: seq<Observation>) returns (index: Option<map<Json, Observation>>)
    ensures index.Some? <==> Identified(observations)
    ensures index.Some? ==> Indexes(index.value, observations)
  {
    hide Identified, Indexes;
    NothingIndexed();
    var byId: map<Json, Observation> := map[];
    var k := 0;
    while k < |observations|
      invariant 0 <= k <= |observations|
      invariant Identified(observations[..k])
      invariant Indexes(byId, observations[..k])
    {
      var o := observations[k];
      IndexOneMore(observations, k, byId);
      if !o.id.Str? || o.id in byId {
        return None;
      }
      byId := byId[o.id := o];
      k := k + 1;
    }
    assert observations[..k] == observations;
    return Some(byId);
  }

  /** Exactly the observations, each under its own identifier. */
  ghost predicate Indexes(byId: map<Json, Observation>, observations: seq<Observation>)
  {
    && (forall i :: 0 <= i < |observations| ==> observations[i].id in byId && byId[observations[i].id] == observations[i])
    && forall id :: id in byId ==> byId[id].id == id && byId[id] in observations
  }

  /** One turn of the loop over scenarios. */
  method CheckScenario(c: Contract, s: Scenario, byId: map<Json, Observation>, inventory: set<Json>, ghost observations: seq<Observation>)
    returns (ok: bool)
    requires Indexes(byId, observations)
    ensures ok <==> Fits(c, s, observations, inventory)
  {
    if !SameLength(c, s) {
      return false;
    }
    var ids, subjects := s.observationIds.value, c.subjects.value;
    var k := 0;
    while k < |ids|
      invariant 0 <= k <= |ids|
      invariant forall i :: 0 <= i < k ==> ids[i] in byId && byId[ids[i]].subject == subjects[i]
    {
      if ids[k] !in byId || byId[ids[k]].subject != subjects[k] {
        assert EvidenceListed(s, inventory) ==> !Bound(c, s, k, observations, inventory);
        return false;
      }
      k := k + 1;
    }
    if !EvidenceListed(s, inventory) {
      return false;
    }
    k := 0;
    while k < |ids|
      invariant 0 <= k <= |ids|
      invariant forall i :: 0 <= i < k ==> Bound(c, s, i, observations, inventory)
    {
      var o := byId[ids[k]];
      if !Sound(o, s.evidence.value, inventory) {
        assert !Bound(c, s, k, observations, inventory);
        return false;
      }
      ghost var j :| 0 <= j < |observations| && observations[j] == o;
      assert BoundTo(c, s, k, observations[j], inventory);
      k := k + 1;
    }
    return true;
  }

  /** `_validate_manifest_evidence`, for the scenarios of one item. */
  method ValidateEvidence(manifest: seq<Contract>, item: Json, scenarioIds: seq<Json>, scenarios: seq<Scenario>,
                          observations: seq<Observation>, inventory: set<Json>) returns (ok: bool)
    ensures ok <==> Accepted(ForItem(manifest, item), scenarioIds, scenarios, observations, inventory)
  {
    hide Fits, Identified;
    var contracts := ForItem(manifest, item);
    if contracts == [] || |scenarioIds| != |contracts| || exists i :: 0 <= i < |contracts| && scenarioIds[i] != contracts[i].id {
      return false;
    }
    if !SameIds(contracts, scenarios) {
      return false;
    }
    var index := IndexObservations(observations);
    if index.None? {
      return false;
    }
    var consumed: seq<Json> := [];
    var k := 0;
    while k < |contracts|
      invariant 0 <= k <= |contracts|
      invariant forall i :: 0 <= i < k ==> Fits(contracts[i], scenarios[i], observations, inventory)
      invariant consumed == Named(scenarios[..k])
    {
      var fits := CheckScenario(contracts[k], scenarios[k], index.value, inventory, observations);
      if !fits {
        return false;
      }
      FitsNames(contracts[k], scenarios[k], observations, inventory);
      assert scenarios[..k + 1][..k] == scenarios[..k];
      consumed := consumed + scenarios[k].observationIds.value;
      k := k + 1;
    }
    assert scenarios[..k] == scenarios;
    return consumed == ObservationIds(observations);
  }

  lemma {:induction false} FitsNames(c: Contract, s: Scenario, observations: seq<Observation>, inventory: set<Json>)
    requires Fits(c, s, observations, inventory)
    ensures s.observationIds.Some?
  {
  }

  // ---- what acceptance means -------------------------------------------------------------------------------

  /** Where the observations of the i-th scenario begin. */
  function Offset(scenarios: seq<Scenario>, i: nat): nat
    requires i <= |scenarios|
  {
    |Named(scenarios[..i])|
  }

  lemma {:induction false} NamedAt(scenarios: seq<Scenario>, i: nat, k: nat)
    requires i < |scenarios| && scenarios[i].observationIds.Some? && k < |scenarios[i].observationIds.value|
    ensures Offset(scenarios, i) + k < |Named(scenarios)|
    ensures Named(scenarios)[Offset(scenarios, i) + k] == scenarios[i].observationIds.value[k]
    ensures Offset(scenarios, i + 1) == Offset(scenarios, i) + |scenarios[i].observationIds.value|
    decreases |scenarios|
  {
    var n := |scenarios| - 1;
    assert scenarios[..i + 1][..i] == scenarios[..i];
    if i < n {
      NamedAt(scenarios[..n], i, k);
      assert scenarios[..n][..i] == scenarios[..i] && scenarios[..n][..i + 1] == scenarios[..i + 1];
    } else {
      assert scenarios[..i + 1] == scenarios;
    }
  }

  /**
    Cut into consecutive pieces, one per scenario, the observations are in order what each scenario
    names, with the expected subjects, measured, passing, and on evidence of that scenario.
   */
  ghost predicate Partitioned(contracts: seq<Contract>, scenarios: seq<Scenario>, observations: seq<Observation>, inventory: set<Json>)
  {
    && |contracts| == |scenarios| && |Named(scenarios)| == |observations|
    && (forall i :: 0 <= i < |contracts| ==>
          SameLength(contracts[i], scenarios[i]) && EvidenceListed(scenarios[i], inventory))
    && forall i: nat, k: nat :: i < |contracts| && k < |contracts[i].subjects.value| ==>
         Placed(contracts, scenarios, i, k, observations, inventory)
  }

  /** The k-th observation of the i-th scenario is where the pieces before it end. */
  ghost predicate Placed(contracts: seq<Contract>, scenarios: seq<Scenario>, i: nat, k: nat,
                         observations: seq<Observation>, inventory: set<Json>)
    requires i < |contracts| == |scenarios| && SameLength(contracts[i], scenarios[i])
    requires EvidenceListed(scenarios[i], inventory) && k < |contracts[i].subjects.value|
  {
    var at := Offset(scenarios, i) + k;
    at < |observations| && BoundTo(contracts[i], scenarios[i], k, observations[at], inventory)
  }

  lemma {:induction false} AcceptedIsPartitioned(contracts: seq<Contract>, scenarioIds: seq<Json>, scenarios: seq<Scenario>,
                                                 observations: seq<Observation>, inventory: set<Json>)
    requires Accepted(contracts, scenarioIds, scenarios, observations, inventory)
    ensures Partitioned(contracts, scenarios, observations, inventory)
  {
    hide Named, Offset, Sound, EvidenceListed;
    assert |Named(scenarios)| == |ObservationIds(observations)|;
    forall i: nat, k: nat | i < |contracts| && k < |contracts[i].subjects.value|
      ensures Placed(contracts, scenarios, i, k, observations, inventory)
    {
      assert Fits(contracts[i], scenarios[i], observations, inventory);
      NamedAt(scenarios, i, k);
      var at := Offset(scenarios, i) + k;
      assert observations[at].id == scenarios[i].observationIds.value[k];
      assert Bound(contracts[i], scenarios[i], k, observations, inventory);
      var j :| 0 <= j < |observations| && BoundTo(contracts[i], scenarios[i], k, observations[j], inventory);
      SameObservation(observations, at, j);
    }
  }

  lemma {:induction false} SameObservation(observations: seq<Observation>, i: nat, j: nat)
    requires Identified(observations) && i < |observations| && j < |observations| && observations[i].id == observations[j].id
    ensures i == j
  {
  }

  /** Every position of the concatenation belongs to some scenario. */
  lemma {:induction false} Located(scenarios: seq<Scenario>, at: nat) returns (i: nat, k: nat)
    requires at < |Named(scenarios)|
    ensures i < |scenarios| && scenarios[i].observationIds.Some? && k < |scenarios[i].observationIds.value|
    ensures at == Offset(scenarios, i) + k
    decreases |scenarios|
  {
    var n := |scenarios| - 1;
    var low := scenarios[..n];
    if at < |Named(low)| {
      i, k := Located(low, at);
      assert low[..i] == scenarios[..i];
    } else {
      i, k := n, at - |Named(low)|;
    }
  }

  /** The lookup by identifier and the partition by position say the same. */
  lemma {:induction false} AcceptedIff(contracts: seq<Contract>, scenarioIds: seq<Json>, scenarios: seq<Scenario>,
                                       observations: seq<Observation>, inventory: set<Json>)
    ensures Accepted(contracts, scenarioIds, scenarios, observations, inventory) <==>
              && contracts != [] && SameIds(contracts, scenarios)
              && |scenarioIds| == |contracts| && (forall i :: 0 <= i < |contracts| ==> scenarioIds[i] == contracts[i].id)
              && Identified(observations)
              && Partitioned(contracts, scenarios, observations, inventory)
  {
    hide Named, Offset, Sound, EvidenceListed, Identified, Fits;
    if Accepted(contracts, scenarioIds, scenarios, observations, inventory) {
      AcceptedIsPartitioned(contracts, scenarioIds, scenarios, observations, inventory);
    } else if SameIds(contracts, scenarios) && Identified(observations) && Partitioned(contracts, scenarios, observations, inventory) {
      PartitionedFits(contracts, scenarios, observations, inventory);
    }
  }

  lemma {:induction false} PartitionedFits(contracts: seq<Contract>, scenarios: seq<Scenario>,
                                           observations: seq<Observation>, inventory: set<Json>)
    requires Partitioned(contracts, scenarios, observations, inventory)
    ensures forall i :: 0 <= i < |contracts| ==> Fits(contracts[i], scenarios[i], observations, inventory)
    ensures Named(scenarios) == ObservationIds(observations)
  {
    hide Named, Offset, Sound, EvidenceListed;
    forall at | 0 <= at < |observations| ensures Named(scenarios)[at] == ObservationIds(observations)[at] {
      var i, k := Located(scenarios, at);
      NamedAt(scenarios, i, k);
      assert Placed(contracts, scenarios, i, k, observations, inventory);
    }
    forall i | 0 <= i < |contracts| ensures Fits(contracts[i], scenarios[i], observations, inventory) {
      forall k: nat | k < |contracts[i].subjects.value|
        ensures Bound(contracts[i], scenarios[i], k, observations, inventory)
      {
        assert Placed(contracts, scenarios, i, k, observations, inventory);
      }
    }
  }

  /**
    Acceptance observation by observation: each passed, was measured on both sides, and rests on
    evidence of its own scenario, all of whose evidence is in the inventory; in manifest order, no
    observation left over.
   */
  lemma {:induction false} AcceptedMeasures(contracts: seq<Contract>, scenarioIds: seq<Json>, scenarios: seq<Scenario>,
                                            observations: seq<Observation>, inventory: set<Json>)
    ensures Accepted(contracts, scenarioIds, scenarios, observations, inventory) <==>
              && contracts != [] && SameIds(contracts, scenarios)
              && |scenarioIds| == |contracts| && (forall i :: 0 <= i < |contracts| ==> scenarioIds[i] == contracts[i].id)
              && Identified(observations) && Named(scenarios) == ObservationIds(observations)
              && forall i :: 0 <= i < |contracts| ==> Measured(contracts[i], scenarios[i], Offset(scenarios, i), observations, inventory)
  {
    hide Named, Offset, Identified, Fits, ObservationIds;
    if Accepted(contracts, scenarioIds, scenarios, observations, inventory) {
      AcceptedIsPartitioned(contracts, scenarioIds, scenarios, observations, inventory);
      forall i | 0 <= i < |contracts| ensures Measured(contracts[i], scenarios[i], Offset(scenarios, i), observations, inventory) {
        PlacedIsMeasured(contracts, scenarios, i, observations, inventory);
      }
    } else if
      && SameIds(contracts, scenarios) && Named(scenarios) == ObservationIds(observations)
      && forall i :: 0 <= i < |contracts| ==> Measured(contracts[i], scenarios[i], Offset(scenarios, i), observations, inventory)
    {
      forall i | 0 <= i < |contracts| ensures Fits(contracts[i], scenarios[i], observations, inventory) {
        MeasuredFits(contracts, scenarios, i, observations, inventory);
      }
    }
  }

  /** The observations from `at` on are, one by one, what the contract expects of the scenario. */
  ghost predicate Measured(c: Contract, s: Scenario, at: nat, observations: seq<Observation>, inventory: set<Json>)
  {
    && s.observationIds.Some? && c.subjects.Some? && |s.observationIds.value| == |c.subjects.value|
    && at + |c.subjects.value| <= |observations|
    && s.evidence.Some? && s.evidence.value != [] && (forall i :: 0 <= i < |s.evidence.value| ==> s.evidence.value[i] in inventory)
    && forall k :: 0 <= k < |c.subjects.value| ==>
         IsMeasured(observations[at + k], s.observationIds.value[k], c.subjects.value[k], s.evidence.value)
  }

  ghost predicate IsMeasured(o: Observation, id: Json, subject: Json, evidence: seq<Json>)
  {
    && o.id == id && o.subject == subject && o.status == Str("pass")
    && (!o.expected.Null? && !o.expected.Bool?) && (!o.actual.Null? && !o.actual.Bool?)
    && exists e :: 0 <= e < |evidence| && o.path == evidence[e]
  }

  lemma {:induction false} PlacedIsMeasured(contracts: seq<Contract>, scenarios: seq<Scenario>, i: nat,
                                            observations: seq<Observation>, inventory: set<Json>)
    requires Partitioned(contracts, scenarios, observations, inventory) && i < |contracts|
    ensures Measured(contracts[i], scenarios[i], Offset(scenarios, i), observations, inventory)
  {
    hide Named, Offset;
    var c, s, at := contracts[i], scenarios[i], Offset(scenarios, i);
    EndsWithin(scenarios, i, |observations|);
    forall k | 0 <= k < |c.subjects.value|
      ensures IsMeasured(observations[at + k], s.observationIds.value[k], c.subjects.value[k], s.evidence.value)
    {
      assert Placed(contracts, scenarios, i, k, observations, inventory);
    }
  }

  lemma {:induction false} EndsWithin(scenarios: seq<Scenario>, i: nat, n: nat)
    requires i < |scenarios| && scenarios[i].observationIds.Some? && n == |Named(scenarios)|
    ensures Offset(scenarios, i) + |scenarios[i].observationIds.value| <= n
  {
    hide Named;
    var k := |scenarios[i].observationIds.value|;
    OffsetsGrow(scenarios, i + 1, |scenarios|);
    assert scenarios[..|scenarios|] == scenarios;
    NextOffset(scenarios, i);
  }

  lemma {:induction false} NextOffset(scenarios: seq<Scenario>, i: nat)
    requires i < |scenarios| && scenarios[i].observationIds.Some?
    ensures Offset(scenarios, i + 1) == Offset(scenarios, i) + |scenarios[i].observationIds.value|
  {
    assert scenarios[..i + 1][..i] == scenarios[..i];
  }

  lemma {:induction false} MeasuredFits(contracts: seq<Contract>, scenarios: seq<Scenario>, i: nat,
                                        observations: seq<Observation>, inventory: set<Json>)
    requires |contracts| == |scenarios| && i < |contracts|
    requires Measured(contracts[i], scenarios[i], Offset(scenarios, i), observations, inventory)
    ensures Fits(contracts[i], scenarios[i], observations, inventory)
  {
    hide Offset;
    var c, s, at := contracts[i], scenarios[i], Offset(scenarios, i);
    forall k | 0 <= k < |s.observationIds.value| ensures Bound(c, s, k, observations, inventory) {
      assert IsMeasured(observations[at + k], s.observationIds.value[k], c.subjects.value[k], s.evidence.value);
      assert BoundTo(c, s, k, observations[at + k], inventory);
    }
  }

  /** No observation serves two scenarios, nor one scenario twice. */
  lemma {:induction false} ObservationsServeOnce(contracts: seq<Contract>, scenarioIds: seq<Json>, scenarios: seq<Scenario>,
                                                 observations: seq<Observation>, inventory: set<Json>, i: nat, k: nat, i': nat, k': nat)
    requires Accepted(contracts, scenarioIds, scenarios, observations, inventory)
    requires i < |scenarios| && i' < |scenarios|
    requires scenarios[i].observationIds.Some? && k < |scenarios[i].observationIds.value|
    requires scenarios[i'].observationIds.Some? && k' < |scenarios[i'].observationIds.value|
    requires scenarios[i].observationIds.value[k] == scenarios[i'].observationIds.value[k']
    ensures i == i' && k == k'
  {
    hide Named, Offset, Fits;
    NamedAt(scenarios, i, k);
    NamedAt(scenarios, i', k');
    SameObservation(observations, Offset(scenarios, i) + k, Offset(scenarios, i') + k');
    if i < i' { OffsetsGrow(scenarios, i + 1, i'); }
    if i' < i { OffsetsGrow(scenarios, i' + 1, i); }
  }

  lemma {:induction false} OffsetsGrow(scenarios: seq<Scenario>, i: nat, j: nat)
    requires i <= j <= |scenarios|
    ensures Offset(scenarios, i) <= Offset(scenarios, j)
    decreases j - i
  {
    if i < j {
      OffsetsGrow(scenarios, i, j - 1);
      assert scenarios[..j][..j - 1] == scenarios[..j - 1];
    }
  }

  /** The positions of the manifest's scenarios that belong to an item. */
  ghost function Belonging(manifest: seq<Contract>, item: Json): set<nat>
  {
    set i: nat | i < |manifest| && manifest[i].item == item
  }

  /** The contracts of an item are those of the manifest that belong to it, each once and in manifest order. */
  lemma {:induction false} ItemInManifestOrder(manifest: seq<Contract>, item: Json)
    ensures |ForItem(manifest, item)| == |Belonging(manifest, item)|
    ensures forall i :: i in Belonging(manifest, item) ==>
              |ForItem(manifest[..i], item)| < |ForItem(manifest, item)|
              && ForItem(manifest, item)[|ForItem(manifest[..i], item)|] == manifest[i]
    decreases |manifest|
  {
    hide ForItem;
    if manifest == [] {
      NothingBelongs(item);
    } else {
      var n := |manifest| - 1;
      var low := manifest[..n];
      ItemInManifestOrder(low, item);
      OneMoreBelongs(low, manifest[n], item);
      assert low + [manifest[n]] == manifest;
      forall i | i in Belonging(low, item) ensures manifest[..i] == low[..i] && manifest[i] == low[i] {}
    }
  }

  lemma {:induction false} NothingBelongs(item: Json)
    ensures ForItem([], item) == [] && Belonging([], item) == {}
  {
  }

  lemma {:induction false} OneMoreBelongs(manifest: seq<Contract>, c: Contract, item: Json)
    ensures ForItem(manifest + [c], item) == ForItem(manifest, item) + if c.item == item then [c] else []
    ensures Belonging(manifest + [c], item) == Belonging(manifest, item) + if c.item == item then {|manifest|} else {}
    ensures |manifest| !in Belonging(manifest, item)
  {
    MoreForItem(manifest, c, item);
  }

  lemma {:induction false} MoreForItem(manifest: seq<Contract>, c: Contract, item: Json)
    ensures ForItem(manifest + [c], item) == ForItem(manifest, item) + if c.item == item then [c] else []
  {
    if manifest == [] {
      assert [c][1..] == [] && manifest + [c] == [c];
    } else {
      MoreForItem(manifest[1..], c, item);
      assert (manifest + [c])[1..] == manifest[1..] + [c] && (manifest + [c])[0] == manifest[0];
      var first: seq<Contract> := if manifest[0].item == item then [manifest[0]] else [];
      var last: seq<Contract> := if c.item == item then [c] else [];
      assert ForItem(manifest + [c], item) == first + ForItem(manifest[1..] + [c], item);
      assert first + (ForItem(manifest[1..], item) + last) == (first + ForItem(manifest[1..], item)) + last;
    }
  }
}
