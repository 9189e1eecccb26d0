/**
  The lifecycle schedule of the qualification runs: which disruptive action happens in which phase
  of which run, and when. The hash that ranks phases is arbitrary, so every guarantee holds for
  every seed.
 */
module Schedule {
  import opened Sorting

  datatype Contract = Contract(
    actions: seq<string>,
    counts: map<string, nat>,
    phaseCount: nat,
    phaseDuration: int,
    runCount: nat)

  /** The digest of seed, run, action and phase. */
  type Hash = (nat, string, nat) -> seq<int>

  /** An action placed in a phase, with its running number among the action's occurrences. */
  datatype Placed = Placed(action: string, occurrence: nat)

  datatype Row = Row(
    action: string,
    start: int,
    actionEnd: int,
    exclusionEnd: int,
    forkActivation: bool,
    occurrence: nat,
    phase: nat,
    run: nat)

  ghost predicate ContractOk(c: Contract)
  {
    forall a :: a in c.actions ==> a in c.counts
  }

  // ---- choosing phases ------------------------------------------------------------------------

  function Range(n: nat): seq<nat> { seq(n, i requires 0 <= i => i) }

  function ByRank(hash: Hash, run: nat, action: string): (nat, nat) -> bool
  {
    (p: nat, q: nat) => LexLe(hash(run, action, p), hash(run, action, q))
  }

  function Ascending(): (nat, nat) -> bool { (p: nat, q: nat) => p <= q }

  function Min(a: nat, b: nat): nat { if a < b then a else b }

  /** `sorted(ranked[:count])`: the best-ranked phases, in time order. */
  function Chosen(c: Contract, hash: Hash, run: nat, action: string): seq<nat>
    requires action in c.counts
  {
    var ranked := Sort(Range(c.phaseCount), ByRank(hash, run, action));
    Sort(ranked[..Min(c.counts[action], |ranked|)], Ascending())
  }

  ghost predicate StrictlyAscending(s: seq<nat>)
  {
    forall i, j :: 0 <= i < j < |s| ==> s[i] < s[j]
  }

  lemma {:induction false} DistinctPrefix<T>(s: seq<T>, n: nat)
    requires Distinct(s) && n <= |s|
    ensures Distinct(s[..n])
  {
  }

  /** An action gets its count of phases, all different, in time order; all phases if it wants more. */
  lemma {:induction false} ChosenPhases(c: Contract, hash: Hash, run: nat, action: string)
    requires action in c.counts
    ensures var s := Chosen(c, hash, run, action);
            && |s| == Min(c.counts[action], c.phaseCount)
            && StrictlyAscending(s)
            && forall i :: 0 <= i < |s| ==> s[i] < c.phaseCount
  {
    var le := ByRank(hash, run, action);
    var all := Range(c.phaseCount);
    var ranked := Sort(all, le);
    SortKeeps(all, le);
    SameElements(all, ranked);
    PermutationDistinct(all, ranked);
    var picked := ranked[..Min(c.counts[action], |ranked|)];
    DistinctPrefix(ranked, |picked|);
    SortSorts(picked, Ascending());
    var s := Sort(picked, Ascending());
    SameElements(picked, s);
    PermutationDistinct(picked, s);
    forall i | 0 <= i < |s| ensures s[i] < c.phaseCount {
      assert s[i] in picked && s[i] in ranked && s[i] in all;
    }
    forall i, j | 0 <= i < j < |s| ensures s[i] < s[j] { assert Ascending()(s[i], s[j]); }
  }

  // ---- placing actions ----------------------------------------------------------------------------

  /** Position of p in s, searching from i. */
  function Find<T(==)>(s: seq<T>, x: T, i: nat := 0): (k: nat)
    requires i <= |s|
    ensures i <= k <= |s|
    ensures k < |s| ==> s[k] == x
    ensures forall j :: i <= j < k ==> s[j] != x
    decreases |s| - i
  {
    if i == |s| || s[i] == x then i else Find(s, x, i + 1)
  }

  /** What the first actions put into one phase. */
  function Assigned(c: Contract, hash: Hash, run: nat, phase: nat, actions: seq<string>): seq<Placed>
    requires forall a :: a in actions ==> a in c.counts
    decreases |actions|
  {
    if actions == [] then []
    else
      var n := |actions| - 1;
      var phases := Chosen(c, hash, run, actions[n]);
      Assigned(c, hash, run, phase, actions[..n])
      + if phase in phases then [Placed(actions[n], Find(phases, phase))] else []
  }

  function ByActionOrder(actions: seq<string>): (Placed, Placed) -> bool
  {
    (x: Placed, y: Placed) => Find(actions, x.action) <= Find(actions, y.action)
  }

  /** The actions of one phase in the order they are carried out. */
  function Ordered(c: Contract, hash: Hash, run: nat, phase: nat): seq<Placed>
    requires ContractOk(c)
  {
    Sort(Assigned(c, hash, run, phase, c.actions), ByActionOrder(c.actions))
  }

  function StartOf(c: Contract, run: nat, phase: nat, slot: nat): int
  {
    run * c.phaseCount * c.phaseDuration + phase * c.phaseDuration + 60 + slot * 90
  }

  function RowFor(c: Contract, run: nat, phase: nat, slot: nat, x: Placed): Row
  {
    var start := StartOf(c, run, phase, slot);
    Row(x.action, start, start + 60, start + 120, x.action == "reorg" && x.occurrence == 0, x.occurrence, phase, run)
  }

  function PhaseRows(c: Contract, hash: Hash, run: nat, phase: nat): seq<Row>
    requires ContractOk(c)
  {
    var ordered := Ordered(c, hash, run, phase);
    seq(|ordered|, slot requires 0 <= slot < |ordered| => RowFor(c, run, phase, slot, ordered[slot]))
  }

  function RunRows(c: Contract, hash: Hash, run: nat, phases: nat): seq<Row>
    requires ContractOk(c)
  {
    if phases == 0 then [] else RunRows(c, hash, run, phases - 1) + PhaseRows(c, hash, run, phases - 1)
  }

  function AllRows(c: Contract, hash: Hash, runs: nat): seq<Row>
    requires ContractOk(c)
  {
    if runs == 0 then [] else AllRows(c, hash, runs - 1) + RunRows(c, hash, runs - 1, c.phaseCount)
  }

  function CountAction(placed: seq<Placed>, action: string): nat
  {
    if placed == [] then 0 else (if placed[0].action == action then 1 else 0) + CountAction(placed[1..], action)
  }

  function MatrixRow(c: Contract, hash: Hash, run: nat, phase: nat): seq<nat>
    requires ContractOk(c)
  {
    seq(|c.actions|, k requires 0 <= k < |c.actions| =>
      CountAction(Assigned(c, hash, run, phase, c.actions), c.actions[k]))
  }

  function Matrix(c: Contract, hash: Hash, run: nat, phases: nat): seq<seq<nat>>
    requires ContractOk(c)
  {
    if phases == 0 then [] else Matrix(c, hash, run, phases - 1) + [MatrixRow(c, hash, run, phases - 1)]
  }

  function Matrices(c: Contract, hash: Hash, runs: nat): seq<seq<seq<nat>>>
    requires ContractOk(c)
  {
    if runs == 0 then [] else Matrices(c, hash, runs - 1) + [Matrix(c, hash, runs - 1, c.phaseCount)]
  }

  // ---- the algorithm ---------------------------------------------------------------------------------

  lemma {:induction false} AssignedStep(c: Contract, hash: Hash, run: nat, phase: nat, k: nat)
    requires ContractOk(c) && k < |c.actions|
    ensures Assigned(c, hash, run, phase, c.actions[..k + 1]) ==
            Assigned(c, hash, run, phase, c.actions[..k])
            + if phase in Chosen(c, hash, run, c.actions[k]) then [Placed(c.actions[k], Find(Chosen(c, hash, run, c.actions[k]), phase))] else []
  {
    hide Chosen;
    assert c.actions[..k + 1][..k] == c.actions[..k];
  }

  /** Distributes all actions of one run over its phases. */
  method AssignRun(c: Contract, hash: Hash, run: nat) returns (plan: seq<seq<Placed>>)
    requires ContractOk(c)
    ensures |plan| == c.phaseCount
    ensures forall p: nat :: p < c.phaseCount ==> plan[p] == Assigned(c, hash, run, p, c.actions)
  {
    hide Chosen;
    plan := seq(c.phaseCount, _ => []);
    var k := 0;
    while k < |c.actions|
      invariant 0 <= k <= |c.actions|
      invariant |plan| == c.phaseCount
      invariant forall p: nat :: p < c.phaseCount ==> plan[p] == Assigned(c, hash, run, p, c.actions[..k])
    {
      var action := c.actions[k];
      var phases := Chosen(c, hash, run, action);
      ChosenPhases(c, hash, run, action);
      ghost var before := plan;
      var i := 0;
      while i < |phases|
        invariant 0 <= i <= |phases|
        invariant |plan| == c.phaseCount
        invariant forall p: nat :: p < c.phaseCount ==>
                    plan[p] == before[p] + if Find(phases, p) < i then [Placed(action, Find(phases, p))] else []
      {
        var phase := phases[i];
        FindDistinct(phases, i);
        assert forall p: nat :: p != phase ==> Find(phases, p) != i;
        plan := plan[phase := plan[phase] + [Placed(action, i)]];
        i := i + 1;
      }
      forall p: nat | p < c.phaseCount ensures plan[p] == Assigned(c, hash, run, p, c.actions[..k + 1]) {
        AssignedStep(c, hash, run, p, k);
        assert p in phases <==> Find(phases, p) < |phases|;
      }
      k := k + 1;
    }
    assert c.actions[..k] == c.actions;
  }

  lemma {:induction false} FindDistinct(s: seq<nat>, i: nat)
    requires StrictlyAscending(s) && i < |s|
    ensures Find(s, s[i]) == i
  {
    var k := Find(s, s[i]);
    assert k <= i;
  }

  /** One run: its matrix and its rows. */
  method ScheduleRun(c: Contract, hash: Hash, run: nat) returns (matrix: seq<seq<nat>>, rows: seq<Row>)
    requires ContractOk(c)
    ensures matrix == Matrix(c, hash, run, c.phaseCount)
    ensures rows == RunRows(c, hash, run, c.phaseCount)
  {
    hide Assigned, Sort;
    var plan := AssignRun(c, hash, run);
    matrix, rows := [], [];
    var p := 0;
    while p < c.phaseCount
      invariant 0 <= p <= c.phaseCount
      invariant matrix == Matrix(c, hash, run, p)
      invariant rows == RunRows(c, hash, run, p)
    {
      var placed := plan[p];
      matrix := matrix + [seq(|c.actions|, k requires 0 <= k < |c.actions| => CountAction(placed, c.actions[k]))];
      assert matrix == Matrix(c, hash, run, p + 1);
      var ordered := Sort(placed, ByActionOrder(c.actions));
      var slot := 0;
      ghost var before := rows;
      while slot < |ordered|
        invariant 0 <= slot <= |ordered|
        invariant rows == before + PhaseRows(c, hash, run, p)[..slot]
      {
        rows := rows + [RowFor(c, run, p, slot, ordered[slot])];
        slot := slot + 1;
      }
      assert PhaseRows(c, hash, run, p)[..slot] == PhaseRows(c, hash, run, p);
      p := p + 1;
    }
  }

  /** `lifecycle_schedule`. */
  method LifecycleSchedule(c: Contract, hash: Hash) returns (matrices: seq<seq<seq<nat>>>, rows: seq<Row>)
    requires ContractOk(c)
    ensures matrices == Matrices(c, hash, c.runCount)
    ensures rows == AllRows(c, hash, c.runCount)
  {
    hide Matrix, RunRows;
    matrices, rows := [], [];
    var run := 0;
    while run < c.runCount
      invariant 0 <= run <= c.runCount
      invariant matrices == Matrices(c, hash, run)
      invariant rows == AllRows(c, hash, run)
    {
      var matrix, more := ScheduleRun(c, hash, run);
      matrices, rows := matrices + [matrix], rows + more;
      run := run + 1;
    }
  }
}
