/** What the lifecycle schedule guarantees for every contract and every ranking. */
module ScheduleLaws {
  import opened Outcomes
  import opened Sorting
  import opened Schedule

  // ---- where an action shows up ---------------------------------------------------------------

  /** The (phase, occurrence) pairs of one action's rows, in row order. */
  function Marks(rows: seq<Row>, action: string): seq<(nat, nat)>
  {
    if rows == [] then []
    else (if rows[0].action == action then [(rows[0].phase, rows[0].occurrence)] else []) + Marks(rows[1..], action)
  }

  lemma {:induction false} MarksConcat(a: seq<Row>, b: seq<Row>, action: string)
    ensures Marks(a + b, action) == Marks(a, action) + Marks(b, action)
  {
    if a == [] {
      assert a + b == b;
    } else {
      assert (a + b)[1..] == a[1..] + b;
      MarksConcat(a[1..], b, action);
      var head := if a[0].action == action then [(a[0].phase, a[0].occurrence)] else [];
      assert Marks(a + b, action) == head + Marks(a[1..] + b, action);
    }
  }

  function PlacedMarks(placed: seq<Placed>, phase: nat, action: string): seq<(nat, nat)>
  {
    if placed == [] then []
    else (if placed[0].action == action then [(phase, placed[0].occurrence)] else []) + PlacedMarks(placed[1..], phase, action)
  }

  lemma {:induction false} PlacedMarksConcat(a: seq<Placed>, b: seq<Placed>, phase: nat, action: string)
    ensures PlacedMarks(a + b, phase, action) == PlacedMarks(a, phase, action) + PlacedMarks(b, phase, action)
  {
    if a == [] {
      assert a + b == b;
    } else {
      assert (a + b)[1..] == a[1..] + b;
      PlacedMarksConcat(a[1..], b, phase, action);
      var head := if a[0].action == action then [(phase, a[0].occurrence)] else [];
      assert PlacedMarks(a + b, phase, action) == head + PlacedMarks(a[1..] + b, phase, action);
    }
  }

  lemma {:induction false} PhaseMarks(c: Contract, hash: Hash, run: nat, phase: nat, action: string, k: nat)
    requires ContractOk(c) && k <= |Ordered(c, hash, run, phase)|
    ensures Marks(PhaseRows(c, hash, run, phase)[k..], action) == PlacedMarks(Ordered(c, hash, run, phase)[k..], phase, action)
    decreases |Ordered(c, hash, run, phase)| - k
  {
    hide Ordered, StartOf;
    var rows, ordered := PhaseRows(c, hash, run, phase), Ordered(c, hash, run, phase);
    if k < |ordered| {
      PhaseMarks(c, hash, run, phase, action, k + 1);
      assert rows[k..][1..] == rows[k + 1..] && ordered[k..][1..] == ordered[k + 1..];
      assert rows[k..][0] == rows[k] && ordered[k..][0] == ordered[k];
    }
  }

  // ---- one phase ----------------------------------------------------------------------------------

  lemma {:induction false} FindInDistinct(s: seq<string>, k: nat)
    requires Distinct(s) && k < |s|
    ensures Find(s, s[k]) == k
  {
  }

  lemma {:induction false} OneMark(x: Placed, phase: nat, action: string)
    ensures PlacedMarks([x], phase, action) == if x.action == action then [(phase, x.occurrence)] else []
    ensures PlacedMarks([], phase, action) == []
  {
    assert [x][1..] == [];
  }

  /** The phase holds the action once if it was chosen for it, not at all otherwise. */
  lemma {:induction false} AssignedMarks(c: Contract, hash: Hash, run: nat, phase: nat, action: string, k: nat)
    requires ContractOk(c) && Distinct(c.actions) && k <= |c.actions| && action in c.counts
    ensures PlacedMarks(Assigned(c, hash, run, phase, c.actions[..k]), phase, action)
         == if action in c.actions[..k] && phase in Chosen(c, hash, run, action)
            then [(phase, Find(Chosen(c, hash, run, action), phase))] else []
    decreases k
  {
    hide Chosen, Assigned, Find, PlacedMarks;
    if k == 0 {
      AssignedNothing(c, hash, run, phase);
      OneMark(Placed("", 0), phase, action);
      assert c.actions[..0] == [];
    } else {
      AssignedMarks(c, hash, run, phase, action, k - 1);
      AssignedStep(c, hash, run, phase, k - 1);
      var a := c.actions[k - 1];
      var before := Assigned(c, hash, run, phase, c.actions[..k - 1]);
      var phases := Chosen(c, hash, run, a);
      assert c.actions[..k] == c.actions[..k - 1] + [a];
      if phase in phases {
        var x := Placed(a, Find(phases, phase));
        PlacedMarksConcat(before, [x], phase, action);
        OneMark(x, phase, action);
      } else {
        assert before + [] == before;
      }
    }
  }

  lemma {:induction false} AssignedNothing(c: Contract, hash: Hash, run: nat, phase: nat)
    ensures Assigned(c, hash, run, phase, []) == []
  {
  }

  /** Actions land in a phase in action order, so sorting them changes nothing. */
  lemma {:induction false} AssignedInOrder(c: Contract, hash: Hash, run: nat, phase: nat, k: nat)
    requires ContractOk(c) && Distinct(c.actions) && k <= |c.actions|
    ensures var s := Assigned(c, hash, run, phase, c.actions[..k]);
            && |s| <= k
            && (forall i :: 0 <= i < |s| ==> Find(c.actions, s[i].action) < k)
            && (forall i, j :: 0 <= i < j < |s| ==> Find(c.actions, s[i].action) < Find(c.actions, s[j].action))
    decreases k
  {
    hide Chosen, Assigned;
    if k == 0 {
      AssignedNothing(c, hash, run, phase);
      assert c.actions[..0] == [];
    } else {
      AssignedInOrder(c, hash, run, phase, k - 1);
      AssignedStep(c, hash, run, phase, k - 1);
      FindInDistinct(c.actions, k - 1);
    }
  }

  lemma {:induction false} OrderedIsAssigned(c: Contract, hash: Hash, run: nat, phase: nat)
    requires ContractOk(c) && Distinct(c.actions)
    ensures Ordered(c, hash, run, phase) == Assigned(c, hash, run, phase, c.actions)
    ensures |Ordered(c, hash, run, phase)| <= |c.actions|
  {
    hide Assigned, Sort;
    var s := Assigned(c, hash, run, phase, c.actions);
    AssignedInOrder(c, hash, run, phase, |c.actions|);
    assert c.actions[..|c.actions|] == c.actions;
    assert SortedBy(s, ByActionOrder(c.actions));
    SortOfSorted(s, ByActionOrder(c.actions));
  }

  lemma {:induction false} MarksOfPhase(c: Contract, hash: Hash, run: nat, phase: nat, action: string)
    requires ContractOk(c) && Distinct(c.actions) && action in c.actions
    ensures Marks(PhaseRows(c, hash, run, phase), action) ==
            if phase in Chosen(c, hash, run, action) then [(phase, Find(Chosen(c, hash, run, action), phase))] else []
  {
    hide Ordered, Assigned, Chosen;
    PhaseMarks(c, hash, run, phase, action, 0);
    OrderedIsAssigned(c, hash, run, phase);
    AssignedMarks(c, hash, run, phase, action, |c.actions|);
    var rows, ordered := PhaseRows(c, hash, run, phase), Ordered(c, hash, run, phase);
    assert rows[0..] == rows && ordered[0..] == ordered && c.actions[..|c.actions|] == c.actions;
  }

  // ---- one run ------------------------------------------------------------------------------------

  /** How many elements of an ascending sequence lie below p. */
  function Below(s: seq<nat>, p: nat, i: nat := 0): (n: nat)
    requires i <= |s|
    ensures i <= n <= |s|
    ensures forall j :: i <= j < n ==> s[j] < p
    ensures n < |s| ==> s[n] >= p
    decreases |s| - i
  {
    if i == |s| || s[i] >= p then i else Below(s, p, i + 1)
  }

  function Numbered(s: seq<nat>): seq<(nat, nat)> { seq(|s|, i requires 0 <= i < |s| => (s[i], i)) }

  lemma {:induction false} BelowNext(s: seq<nat>, p: nat)
    requires StrictlyAscending(s)
    ensures p in s ==> Find(s, p) == Below(s, p) && Below(s, p + 1) == Below(s, p) + 1
    ensures p !in s ==> Below(s, p + 1) == Below(s, p)
  {
    var n, m := Below(s, p), Below(s, p + 1);
    if p in s {
      var i :| 0 <= i < |s| && s[i] == p;
      assert i == n;
      FindDistinct(s, i);
      assert n + 1 < |s| ==> s[n] < s[n + 1];
    } else {
      assert n <= m;
      assert n < |s| ==> s[n] in s;
    }
  }

  lemma {:induction false} NothingBelowZero(s: seq<nat>, action: string)
    ensures Below(s, 0) == 0 && Marks([], action) == []
  {
  }

  lemma {:induction false} MarksOfRun(c: Contract, hash: Hash, run: nat, action: string, phases: nat)
    requires ContractOk(c) && Distinct(c.actions) && action in c.actions
    ensures Marks(RunRows(c, hash, run, phases), action)
         == Numbered(Chosen(c, hash, run, action))[..Below(Chosen(c, hash, run, action), phases)]
    decreases phases
  {
    hide Chosen, PhaseRows, Marks, Below, Find;
    var s := Chosen(c, hash, run, action);
    ChosenPhases(c, hash, run, action);
    if phases == 0 {
      NothingBelowZero(s, action);
    } else {
      var p := phases - 1;
      MarksOfRun(c, hash, run, action, p);
      MarksConcat(RunRows(c, hash, run, p), PhaseRows(c, hash, run, p), action);
      MarksOfPhase(c, hash, run, p, action);
      BelowNext(s, p);
      var n := Below(s, p);
      if p in s {
        assert Numbered(s)[..n + 1] == Numbered(s)[..n] + [Numbered(s)[n]];
      } else {
        assert Numbered(s)[..n] + [] == Numbered(s)[..n];
      }
    }
  }

  /**
    In every run each action occurs its count of times (in every phase, if it wants more), in
    pairwise different phases, and its occurrences are numbered from zero in time order.
   */
  lemma {:induction false} ActionsOfRun(c: Contract, hash: Hash, run: nat, action: string)
    requires ContractOk(c) && Distinct(c.actions) && action in c.actions
    ensures var marks := Marks(RunRows(c, hash, run, c.phaseCount), action);
            && |marks| == Min(c.counts[action], c.phaseCount)
            && (forall i :: 0 <= i < |marks| ==> marks[i].1 == i && marks[i].0 < c.phaseCount)
            && (forall i, j :: 0 <= i < j < |marks| ==> marks[i].0 < marks[j].0)
  {
    hide Chosen, RunRows;
    var s := Chosen(c, hash, run, action);
    ChosenPhases(c, hash, run, action);
    MarksOfRun(c, hash, run, action, c.phaseCount);
    assert Below(s, c.phaseCount) == |s|;
    assert Numbered(s)[..|s|] == Numbered(s);
  }

  // ---- the matrix -----------------------------------------------------------------------------------

  lemma {:induction false} CountIsMarks(placed: seq<Placed>, phase: nat, action: string)
    ensures CountAction(placed, action) == |PlacedMarks(placed, phase, action)|
  {
    if placed != [] { CountIsMarks(placed[1..], phase, action); }
  }

  /** A matrix entry is one where the phase was chosen for the action, zero elsewhere. */
  lemma {:induction false} MatrixEntry(c: Contract, hash: Hash, run: nat, phase: nat, k: nat)
    requires ContractOk(c) && Distinct(c.actions) && k < |c.actions|
    ensures MatrixRow(c, hash, run, phase)[k] == if phase in Chosen(c, hash, run, c.actions[k]) then 1 else 0
  {
    hide Assigned, Chosen;
    CountIsMarks(Assigned(c, hash, run, phase, c.actions), phase, c.actions[k]);
    AssignedMarks(c, hash, run, phase, c.actions[k], |c.actions|);
    assert c.actions[..|c.actions|] == c.actions;
  }

  function ColumnSum(matrix: seq<seq<nat>>, k: nat): nat
    requires forall i :: 0 <= i < |matrix| ==> k < |matrix[i]|
  {
    if matrix == [] then 0 else ColumnSum(matrix[..|matrix| - 1], k) + matrix[|matrix| - 1][k]
  }

  lemma {:induction false} MatrixShape(c: Contract, hash: Hash, run: nat, phases: nat)
    requires ContractOk(c)
    ensures |Matrix(c, hash, run, phases)| == phases
    ensures forall i :: 0 <= i < phases ==> |Matrix(c, hash, run, phases)[i]| == |c.actions|
  {
    hide CountAction, Assigned;
    if phases > 0 { MatrixShape(c, hash, run, phases - 1); }
  }

  lemma {:induction false} EmptyColumn(k: nat)
    ensures ColumnSum([], k) == 0
  {
  }

  lemma {:induction false} ColumnSumStep(m: seq<seq<nat>>, row: seq<nat>, k: nat)
    requires (forall i :: 0 <= i < |m| ==> k < |m[i]|) && k < |row|
    ensures ColumnSum(m + [row], k) == ColumnSum(m, k) + row[k]
  {
    assert (m + [row])[..|m|] == m;
  }

  lemma {:induction false} ColumnOfRun(c: Contract, hash: Hash, run: nat, k: nat, phases: nat)
    requires ContractOk(c) && Distinct(c.actions) && k < |c.actions|
    ensures forall i :: 0 <= i < |Matrix(c, hash, run, phases)| ==> k < |Matrix(c, hash, run, phases)[i]|
    ensures ColumnSum(Matrix(c, hash, run, phases), k) == Below(Chosen(c, hash, run, c.actions[k]), phases)
  {
    hide Chosen, MatrixRow, ColumnSum;
    MatrixShape(c, hash, run, phases);
    var s := Chosen(c, hash, run, c.actions[k]);
    ChosenPhases(c, hash, run, c.actions[k]);
    if phases > 0 {
      ColumnOfRun(c, hash, run, k, phases - 1);
      MatrixShape(c, hash, run, phases - 1);
      assert |MatrixRow(c, hash, run, phases - 1)| == |c.actions| by {
        assert Matrix(c, hash, run, phases)[phases - 1] == MatrixRow(c, hash, run, phases - 1);
      }
      ColumnSumStep(Matrix(c, hash, run, phases - 1), MatrixRow(c, hash, run, phases - 1), k);
      MatrixEntry(c, hash, run, phases - 1, k);
      BelowNext(s, phases - 1);
    } else {
      EmptyColumn(k);
    }
  }

  /** Each column of a run's matrix adds up to the action's count. */
  lemma {:induction false} ColumnSums(c: Contract, hash: Hash, run: nat, k: nat)
    requires ContractOk(c) && Distinct(c.actions) && k < |c.actions|
    ensures forall i :: 0 <= i < |Matrix(c, hash, run, c.phaseCount)| ==> k < |Matrix(c, hash, run, c.phaseCount)[i]|
    ensures ColumnSum(Matrix(c, hash, run, c.phaseCount), k) == Min(c.counts[c.actions[k]], c.phaseCount)
  {
    hide Chosen, Matrix;
    ColumnOfRun(c, hash, run, k, c.phaseCount);
    ChosenPhases(c, hash, run, c.actions[k]);
  }

  // ---- totals over all runs ----------------------------------------------------------------------------

  /** Over all runs each action occurs the number of runs times its count. */
  lemma {:induction false} ActionTotals(c: Contract, hash: Hash, action: string, runs: nat)
    requires ContractOk(c) && Distinct(c.actions) && action in c.actions
    ensures |Marks(AllRows(c, hash, runs), action)| == runs * Min(c.counts[action], c.phaseCount)
    decreases runs
  {
    hide RunRows;
    if runs > 0 {
      ActionTotals(c, hash, action, runs - 1);
      MarksConcat(AllRows(c, hash, runs - 1), RunRows(c, hash, runs - 1, c.phaseCount), action);
      ActionsOfRun(c, hash, runs - 1, action);
      var n := Min(c.counts[action], c.phaseCount);
      assert (runs - 1) * n + n == runs * n;
    }
  }

  function Forks(rows: seq<Row>): nat
  {
    if rows == [] then 0 else (if rows[0].forkActivation then 1 else 0) + Forks(rows[1..])
  }

  lemma {:induction false} ForksConcat(a: seq<Row>, b: seq<Row>)
    ensures Forks(a + b) == Forks(a) + Forks(b)
  {
    if a == [] {
      assert a + b == b;
    } else {
      assert (a + b)[1..] == a[1..] + b;
      ForksConcat(a[1..], b);
    }
  }

  function Firsts(marks: seq<(nat, nat)>): nat
  {
    if marks == [] then 0 else (if marks[0].1 == 0 then 1 else 0) + Firsts(marks[1..])
  }

  /** A row activates the fork exactly when it is the first reorg. */
  ghost predicate ForkMarked(rows: seq<Row>)
  {
    forall i :: 0 <= i < |rows| ==> rows[i].forkActivation == (rows[i].action == "reorg" && rows[i].occurrence == 0)
  }

  lemma {:induction false} ForksAreFirsts(rows: seq<Row>)
    requires ForkMarked(rows)
    ensures Forks(rows) == Firsts(Marks(rows, "reorg"))
  {
    if rows != [] {
      ForksAreFirsts(rows[1..]);
      if rows[0].action == "reorg" {
        assert Marks(rows, "reorg")[1..] == Marks(rows[1..], "reorg");
      } else {
        assert Marks(rows, "reorg") == Marks(rows[1..], "reorg");
      }
    }
  }

  lemma {:induction false} RunForkMarked(c: Contract, hash: Hash, run: nat, phases: nat)
    requires ContractOk(c)
    ensures ForkMarked(RunRows(c, hash, run, phases))
  {
    hide Ordered, StartOf;
    if phases > 0 { RunForkMarked(c, hash, run, phases - 1); }
  }

  lemma {:induction false} FirstsFrom(marks: seq<(nat, nat)>)
    requires forall i :: 0 <= i < |marks| ==> marks[i].1 > 0
    ensures Firsts(marks) == 0
  {
    if marks != [] { FirstsFrom(marks[1..]); }
  }

  /** Each run activates the fork once if it schedules a reorg, and never otherwise. */
  lemma {:induction false} ForksOfRun(c: Contract, hash: Hash, run: nat)
    requires ContractOk(c) && Distinct(c.actions) && "reorg" in c.actions
    ensures Forks(RunRows(c, hash, run, c.phaseCount)) == if c.counts["reorg"] > 0 && c.phaseCount > 0 then 1 else 0
  {
    hide RunRows, Marks;
    var rows := RunRows(c, hash, run, c.phaseCount);
    RunForkMarked(c, hash, run, c.phaseCount);
    ForksAreFirsts(rows);
    ActionsOfRun(c, hash, run, "reorg");
    var marks := Marks(rows, "reorg");
    if marks != [] { FirstsFrom(marks[1..]); }
  }

  lemma {:induction false} ForkTotals(c: Contract, hash: Hash, runs: nat)
    requires ContractOk(c) && Distinct(c.actions) && "reorg" in c.actions
    ensures Forks(AllRows(c, hash, runs)) == if c.counts["reorg"] > 0 && c.phaseCount > 0 then runs else 0
    decreases runs
  {
    hide RunRows;
    if runs > 0 {
      ForkTotals(c, hash, runs - 1);
      ForksConcat(AllRows(c, hash, runs - 1), RunRows(c, hash, runs - 1, c.phaseCount));
      ForksOfRun(c, hash, runs - 1);
    }
  }

  // ---- time windows ----------------------------------------------------------------------------------------

  /** Later rows start at least the gap after earlier ones. */
  ghost predicate Separated(rows: seq<Row>, gap: int)
  {
    forall i, j :: 0 <= i < j < |rows| ==> rows[i].start + gap <= rows[j].start
  }

  /** All starts lie within the window, with the gap to spare at its end. */
  ghost predicate Within(rows: seq<Row>, from: int, to: int, gap: int)
  {
    forall i :: 0 <= i < |rows| ==> from <= rows[i].start && rows[i].start + gap <= to
  }

  lemma {:induction false} SeparatedConcat(a: seq<Row>, b: seq<Row>, from: int, mid: int, to: int, gap: int)
    requires Separated(a, gap) && Separated(b, gap) && from <= mid <= to
    requires Within(a, from, mid, gap) && Within(b, mid, to, gap)
    ensures Separated(a + b, gap) && Within(a + b, from, to, gap)
  {
    var r := a + b;
    forall i, j | 0 <= i < j < |r| ensures r[i].start + gap <= r[j].start {
      if i < |a| <= j { assert r[i] == a[i] && r[j] == b[j - |a|]; }
    }
  }

  /** The last slot a phase can need, with its gap, still fits the phase. */
  predicate SlotsFit(c: Contract, gap: int)
  {
    0 <= gap && 90 * (|c.actions| - 1) + gap <= c.phaseDuration
  }

  function PhaseBase(c: Contract, run: nat, phase: nat): int { StartOf(c, run, phase, 0) }

  /** No phase of any run holds two actions. */
  ghost predicate Single(c: Contract, hash: Hash)
    requires ContractOk(c)
  {
    forall run: nat, phase: nat :: run < c.runCount && phase < c.phaseCount ==> |Ordered(c, hash, run, phase)| <= 1
  }

  lemma {:induction false} PhaseSeparated(c: Contract, hash: Hash, run: nat, phase: nat, gap: int)
    requires ContractOk(c) && Distinct(c.actions) && c.actions != [] && SlotsFit(c, gap)
    requires gap <= 90 || |Ordered(c, hash, run, phase)| <= 1
    ensures var rows := PhaseRows(c, hash, run, phase);
            Separated(rows, gap) && Within(rows, PhaseBase(c, run, phase), PhaseBase(c, run, phase + 1), gap)
  {
    hide Ordered;
    OrderedIsAssigned(c, hash, run, phase);
    var rows := PhaseRows(c, hash, run, phase);
    assert (phase + 1) * c.phaseDuration == phase * c.phaseDuration + c.phaseDuration;
    forall i | 0 <= i < |rows| ensures PhaseBase(c, run, phase) <= rows[i].start && rows[i].start + gap <= PhaseBase(c, run, phase + 1) {
      assert rows[i].start == PhaseBase(c, run, phase) + i * 90;
    }
    forall i, j | 0 <= i < j < |rows| ensures rows[i].start + gap <= rows[j].start {
      assert rows[i].start == PhaseBase(c, run, phase) + i * 90 && rows[j].start == PhaseBase(c, run, phase) + j * 90;
    }
  }

  lemma {:induction false} PhaseBaseMonotone(c: Contract, run: nat, phase: nat)
    requires c.phaseDuration >= 0
    ensures PhaseBase(c, run, 0) <= PhaseBase(c, run, phase) <= PhaseBase(c, run, phase + 1)
  {
    assert (phase + 1) * c.phaseDuration == phase * c.phaseDuration + c.phaseDuration;
    assert phase * c.phaseDuration >= 0;
  }

  lemma {:induction false} RunSeparated(c: Contract, hash: Hash, run: nat, gap: int, phases: nat)
    requires ContractOk(c) && Distinct(c.actions) && c.actions != [] && SlotsFit(c, gap)
    requires run < c.runCount && phases <= c.phaseCount && (gap <= 90 || Single(c, hash))
    ensures var rows := RunRows(c, hash, run, phases);
            Separated(rows, gap) && Within(rows, PhaseBase(c, run, 0), PhaseBase(c, run, phases), gap)
    decreases phases
  {
    hide PhaseRows, PhaseBase, Ordered;
    if phases > 0 {
      RunSeparated(c, hash, run, gap, phases - 1);
      PhaseSeparated(c, hash, run, phases - 1, gap);
      PhaseBaseMonotone(c, run, phases - 1);
      SeparatedConcat(RunRows(c, hash, run, phases - 1), PhaseRows(c, hash, run, phases - 1),
                      PhaseBase(c, run, 0), PhaseBase(c, run, phases - 1), PhaseBase(c, run, phases), gap);
    }
  }

  lemma {:induction false} RunBases(c: Contract, run: nat)
    requires c.phaseDuration >= 0
    ensures PhaseBase(c, run, c.phaseCount) == PhaseBase(c, run + 1, 0)
    ensures PhaseBase(c, 0, 0) <= PhaseBase(c, run, 0) <= PhaseBase(c, run + 1, 0)
  {
    var d := c.phaseCount * c.phaseDuration;
    assert d >= 0;
    RunTimes(run, c.phaseCount, c.phaseDuration);
    RunTimes(run + 1, c.phaseCount, c.phaseDuration);
    assert (run + 1) * d == run * d + d && run * d >= 0;
  }

  lemma {:induction false} RunTimes(run: nat, count: nat, duration: int)
    ensures run * count * duration == run * (count * duration)
  {
  }

  /**
    When the slots fit the phase, the whole schedule runs forward: every row starts at least the
    gap after every earlier one, for any gap up to the slot distance, and for larger gaps as long
    as no phase holds two actions.
   */
  lemma {:induction false} ScheduleSeparated(c: Contract, hash: Hash, gap: int, runs: nat)
    requires ContractOk(c) && Distinct(c.actions) && c.actions != [] && SlotsFit(c, gap)
    requires runs <= c.runCount && (gap <= 90 || Single(c, hash))
    ensures Separated(AllRows(c, hash, runs), gap)
    ensures Within(AllRows(c, hash, runs), PhaseBase(c, 0, 0), PhaseBase(c, runs, 0), gap)
    decreases runs
  {
    hide RunRows, PhaseBase, Ordered;
    if runs > 0 {
      ScheduleSeparated(c, hash, gap, runs - 1);
      RunSeparated(c, hash, runs - 1, gap, c.phaseCount);
      RunBases(c, runs - 1);
      SeparatedConcat(AllRows(c, hash, runs - 1), RunRows(c, hash, runs - 1, c.phaseCount),
                      PhaseBase(c, 0, 0), PhaseBase(c, runs - 1, 0), PhaseBase(c, runs, 0), gap);
    }
  }

  /** Action windows never overlap, and rows come in strictly increasing start order. */
  lemma {:induction false} ActionWindowsDisjoint(c: Contract, hash: Hash)
    requires ContractOk(c) && Distinct(c.actions) && c.actions != [] && SlotsFit(c, 60)
    ensures var rows := AllRows(c, hash, c.runCount);
            forall i, j :: 0 <= i < j < |rows| ==> rows[i].start < rows[j].start && rows[i].actionEnd <= rows[j].start
  {
    hide RunRows, PhaseBase, Ordered, AllRows;
    ScheduleSeparated(c, hash, 60, c.runCount);
    WindowLengths(c, hash, c.runCount);
  }

  /** Every row's windows have the fixed lengths. */
  lemma {:induction false} WindowLengths(c: Contract, hash: Hash, runs: nat)
    requires ContractOk(c)
    ensures forall r :: r in AllRows(c, hash, runs) ==> r.actionEnd == r.start + 60 && r.exclusionEnd == r.start + 120
    decreases runs
  {
    hide RunRows;
    if runs > 0 {
      WindowLengths(c, hash, runs - 1);
      RunWindowLengths(c, hash, runs - 1, c.phaseCount);
    }
  }

  lemma {:induction false} RunWindowLengths(c: Contract, hash: Hash, run: nat, phases: nat)
    requires ContractOk(c)
    ensures forall r :: r in RunRows(c, hash, run, phases) ==> r.actionEnd == r.start + 60 && r.exclusionEnd == r.start + 120
  {
    hide Ordered, StartOf;
    if phases > 0 { RunWindowLengths(c, hash, run, phases - 1); }
  }

  /** The seconds of all exclusion windows, overlapping ones counted again. */
  function ExclusionSeconds(rows: seq<Row>): int
  {
    if rows == [] then 0
    else ExclusionSeconds(rows[..|rows| - 1]) + (rows[|rows| - 1].exclusionEnd - rows[|rows| - 1].start)
  }

  lemma {:induction false} EqualWindows(rows: seq<Row>)
    requires forall r :: r in rows ==> r.exclusionEnd == r.start + 120
    ensures ExclusionSeconds(rows) == 120 * |rows|
    decreases |rows|
  {
    if rows != [] {
      assert rows[|rows| - 1] in rows;
      EqualWindows(rows[..|rows| - 1]);
    }
  }

  // ---- how many rows there are, whatever the hash -----------------------------------------------------------

  /** The rows a run needs for its first k actions. */
  function Demand(c: Contract, k: nat): nat
    requires ContractOk(c) && k <= |c.actions|
  {
    if k == 0 then 0 else Demand(c, k - 1) + Min(c.counts[c.actions[k - 1]], c.phaseCount)
  }

  /** The rows of the first k actions that fall into the first phases. */
  function DemandBelow(c: Contract, hash: Hash, run: nat, phases: nat, k: nat): nat
    requires ContractOk(c) && k <= |c.actions|
  {
    if k == 0 then 0 else DemandBelow(c, hash, run, phases, k - 1) + Below(Chosen(c, hash, run, c.actions[k - 1]), phases)
  }

  lemma {:induction false} DemandNextPhase(c: Contract, hash: Hash, run: nat, phase: nat, k: nat)
    requires ContractOk(c) && k <= |c.actions|
    ensures DemandBelow(c, hash, run, phase + 1, k)
         == DemandBelow(c, hash, run, phase, k) + |Assigned(c, hash, run, phase, c.actions[..k])|
  {
    hide Chosen;
    if k == 0 {
      AssignedNothing(c, hash, run, phase);
    } else {
      DemandNextPhase(c, hash, run, phase, k - 1);
      AssignedStep(c, hash, run, phase, k - 1);
      ChosenPhases(c, hash, run, c.actions[k - 1]);
      BelowNext(Chosen(c, hash, run, c.actions[k - 1]), phase);
    }
  }

  lemma {:induction false} DemandNoPhase(c: Contract, hash: Hash, run: nat, k: nat)
    requires ContractOk(c) && k <= |c.actions|
    ensures DemandBelow(c, hash, run, 0, k) == 0
  {
    hide Chosen;
    if k > 0 { DemandNoPhase(c, hash, run, k - 1); }
  }

  lemma {:induction false} DemandAllPhases(c: Contract, hash: Hash, run: nat, k: nat)
    requires ContractOk(c) && k <= |c.actions|
    ensures DemandBelow(c, hash, run, c.phaseCount, k) == Demand(c, k)
  {
    hide Chosen;
    if k > 0 {
      DemandAllPhases(c, hash, run, k - 1);
      ChosenPhases(c, hash, run, c.actions[k - 1]);
      var s := Chosen(c, hash, run, c.actions[k - 1]);
      assert Below(s, c.phaseCount) == |s|;
    }
  }

  lemma {:induction false} RowsOfPhases(c: Contract, hash: Hash, run: nat, phases: nat)
    requires ContractOk(c)
    ensures |RunRows(c, hash, run, phases)| == DemandBelow(c, hash, run, phases, |c.actions|)
    decreases phases
  {
    hide PhaseRows, Assigned, DemandBelow;
    if phases == 0 {
      DemandNoPhase(c, hash, run, |c.actions|);
    } else {
      RowsOfPhases(c, hash, run, phases - 1);
      DemandNextPhase(c, hash, run, phases - 1, |c.actions|);
      assert c.actions[..|c.actions|] == c.actions;
      RowsOfPhase(c, hash, run, phases - 1);
    }
  }

  lemma {:induction false} RowsOfPhase(c: Contract, hash: Hash, run: nat, phase: nat)
    requires ContractOk(c)
    ensures |PhaseRows(c, hash, run, phase)| == |Assigned(c, hash, run, phase, c.actions)|
  {
    hide Assigned, Sort, StartOf;
    SortKeeps(Assigned(c, hash, run, phase, c.actions), ByActionOrder(c.actions));
  }

  /** Every run has as many rows as its actions demand, for every hash. */
  lemma {:induction false} RowsOfRun(c: Contract, hash: Hash, run: nat)
    requires ContractOk(c)
    ensures |RunRows(c, hash, run, c.phaseCount)| == Demand(c, |c.actions|)
  {
    hide RunRows;
    RowsOfPhases(c, hash, run, c.phaseCount);
    DemandAllPhases(c, hash, run, |c.actions|);
  }

  lemma {:induction false} RowsOfSchedule(c: Contract, hash: Hash, runs: nat)
    requires ContractOk(c)
    ensures |AllRows(c, hash, runs)| == runs * Demand(c, |c.actions|)
    decreases runs
  {
    hide RunRows;
    if runs > 0 {
      RowsOfSchedule(c, hash, runs - 1);
      RowsOfRun(c, hash, runs - 1);
      var n := Demand(c, |c.actions|);
      assert (runs - 1) * n + n == runs * n;
    }
  }

  /** The exclusion windows of all runs add up to two minutes a row, a number the contract alone fixes. */
  lemma {:induction false} ExclusionTotal(c: Contract, hash: Hash)
    requires ContractOk(c)
    ensures ExclusionSeconds(AllRows(c, hash, c.runCount)) == 120 * |AllRows(c, hash, c.runCount)|
    ensures ExclusionSeconds(AllRows(c, hash, c.runCount)) == 120 * (c.runCount * Demand(c, |c.actions|))
  {
    hide AllRows, Demand;
    WindowLengths(c, hash, c.runCount);
    EqualWindows(AllRows(c, hash, c.runCount));
    RowsOfSchedule(c, hash, c.runCount);
  }

  // ---- exclusion windows do overlap, exactly when a phase holds two actions -------------------------------------

  lemma {:induction false} SeparatedPart(a: seq<Row>, b: seq<Row>, gap: int)
    requires Separated(a + b, gap)
    ensures Separated(a, gap) && Separated(b, gap)
  {
    var r := a + b;
    forall i, j | 0 <= i < j < |a| ensures a[i].start + gap <= a[j].start { assert r[i] == a[i] && r[j] == a[j]; }
    forall i, j | 0 <= i < j < |b| ensures b[i].start + gap <= b[j].start {
      assert r[|a| + i] == b[i] && r[|a| + j] == b[j];
    }
  }

  lemma {:induction false} PhaseOfRun(c: Contract, hash: Hash, run: nat, phase: nat, phases: nat, gap: int)
    requires ContractOk(c) && phase < phases && Separated(RunRows(c, hash, run, phases), gap)
    ensures Separated(PhaseRows(c, hash, run, phase), gap)
    decreases phases
  {
    hide PhaseRows;
    SeparatedPart(RunRows(c, hash, run, phases - 1), PhaseRows(c, hash, run, phases - 1), gap);
    if phase < phases - 1 { PhaseOfRun(c, hash, run, phase, phases - 1, gap); }
  }

  lemma {:induction false} RunOfSchedule(c: Contract, hash: Hash, run: nat, runs: nat, gap: int)
    requires ContractOk(c) && run < runs && Separated(AllRows(c, hash, runs), gap)
    ensures Separated(RunRows(c, hash, run, c.phaseCount), gap)
    decreases runs
  {
    hide RunRows;
    SeparatedPart(AllRows(c, hash, runs - 1), RunRows(c, hash, runs - 1, c.phaseCount), gap);
    if run < runs - 1 { RunOfSchedule(c, hash, run, runs - 1, gap); }
  }

  lemma {:induction false} CrowdedPhaseOverlaps(c: Contract, hash: Hash, run: nat, phase: nat)
    requires ContractOk(c) && |Ordered(c, hash, run, phase)| >= 2
    ensures !Separated(PhaseRows(c, hash, run, phase), 120)
  {
    hide Ordered;
    var rows := PhaseRows(c, hash, run, phase);
    assert rows[0].start == StartOf(c, run, phase, 0) && rows[1].start == StartOf(c, run, phase, 1);
    assert !(rows[0].start + 120 <= rows[1].start);
  }

  ghost predicate ExclusionsDisjoint(rows: seq<Row>)
  {
    forall i, j :: 0 <= i < j < |rows| ==> rows[i].exclusionEnd <= rows[j].start
  }

  lemma {:induction false} DisjointIsSeparated(rows: seq<Row>)
    requires forall r :: r in rows ==> r.exclusionEnd == r.start + 120
    ensures ExclusionsDisjoint(rows) <==> Separated(rows, 120)
  {
    forall i | 0 <= i < |rows| ensures rows[i].exclusionEnd == rows[i].start + 120 { assert rows[i] in rows; }
    if ExclusionsDisjoint(rows) {
      forall i, j | 0 <= i < j < |rows| ensures rows[i].start + 120 <= rows[j].start {
        assert rows[i].exclusionEnd <= rows[j].start;
      }
    }
    if Separated(rows, 120) {
      forall i, j | 0 <= i < j < |rows| ensures rows[i].exclusionEnd <= rows[j].start {
        assert rows[i].start + 120 <= rows[j].start;
      }
    }
  }

  lemma {:induction false} CrowdedScheduleOverlaps(c: Contract, hash: Hash, run: nat, phase: nat)
    requires ContractOk(c) && run < c.runCount && phase < c.phaseCount && |Ordered(c, hash, run, phase)| >= 2
    ensures !Separated(AllRows(c, hash, c.runCount), 120)
  {
    hide Ordered, AllRows, RunRows, PhaseRows, Separated;
    CrowdedPhaseOverlaps(c, hash, run, phase);
    if Separated(AllRows(c, hash, c.runCount), 120) {
      RunOfSchedule(c, hash, run, c.runCount, 120);
      PhaseOfRun(c, hash, run, phase, c.phaseCount, 120);
    }
  }

  /**
    The two-minute exclusion windows, unlike the one-minute action windows, are pairwise disjoint
    if and only if no phase holds two actions: slots are only ninety seconds apart.
   */
  lemma {:induction false} ExclusionsDisjointIff(c: Contract, hash: Hash)
    requires ContractOk(c) && Distinct(c.actions) && c.actions != [] && SlotsFit(c, 120)
    ensures ExclusionsDisjoint(AllRows(c, hash, c.runCount)) <==> Single(c, hash)
  {
    hide Ordered, AllRows, Separated, ExclusionsDisjoint;
    WindowLengths(c, hash, c.runCount);
    DisjointIsSeparated(AllRows(c, hash, c.runCount));
    if Single(c, hash) {
      ScheduleSeparated(c, hash, 120, c.runCount);
    } else {
      var run: nat, phase: nat :| run < c.runCount && phase < c.phaseCount && |Ordered(c, hash, run, phase)| > 1;
      CrowdedScheduleOverlaps(c, hash, run, phase);
    }
  }

  lemma {:induction false} SparsePhases(c: Contract, hash: Hash, run: nat, phases: nat)
    requires ContractOk(c) && run < c.runCount && phases <= c.phaseCount && Single(c, hash)
    ensures |RunRows(c, hash, run, phases)| <= phases
    decreases phases
  {
    hide Ordered;
    if phases > 0 { SparsePhases(c, hash, run, phases - 1); }
  }

  /** When the actions of a run demand more rows than it has phases, windows overlap for every hash. */
  lemma {:induction false} DemandForcesOverlap(c: Contract, hash: Hash)
    requires ContractOk(c) && Distinct(c.actions) && c.actions != [] && SlotsFit(c, 120)
    requires c.runCount > 0 && Demand(c, |c.actions|) > c.phaseCount
    ensures !ExclusionsDisjoint(AllRows(c, hash, c.runCount))
  {
    hide AllRows, RunRows, Demand, Single, ExclusionsDisjoint;
    ExclusionsDisjointIff(c, hash);
    RowsOfRun(c, hash, 0);
    if Single(c, hash) { SparsePhases(c, hash, 0, c.phaseCount); }
  }

  /** A hash that deals out the phases one action after the other. */
  function Dealt(c: Contract): Hash
    requires ContractOk(c)
  {
    (run: nat, action: string, phase: nat) =>
      var k := Find(c.actions, action);
      if k < |c.actions| && Demand(c, k) <= phase < Demand(c, k + 1) then [0] else [1]
  }

  lemma {:induction false} DemandGrows(c: Contract, j: nat, k: nat)
    requires ContractOk(c) && j <= k <= |c.actions|
    ensures Demand(c, j) <= Demand(c, k)
    decreases k
  {
    if j < k { DemandGrows(c, j, k - 1); }
  }

  lemma {:induction false} FewDistinct<T>(s: seq<T>)
    ensures |set x | x in s| <= |s|
    decreases |s|
  {
    if s != [] {
      var n := |s| - 1;
      FewDistinct(s[..n]);
      assert (set x | x in s) == (set x | x in s[..n]) + {s[n]};
    }
  }

  function Between(lo: nat, hi: nat): (s: set<nat>)
    requires lo <= hi
    ensures |s| == hi - lo && forall p: nat :: p in s <==> lo <= p < hi
    decreases hi - lo
  {
    if lo == hi then {} else Between(lo, hi - 1) + {hi - 1}
  }

  /** In a ranking that puts an interval first, the best-ranked phases lie in the interval. */
  lemma {:induction false} BestAreDealt(ranked: seq<nat>, lo: nat, hi: nat, best: nat -> bool, i: nat)
    requires lo <= hi && i < hi - lo && i < |ranked|
    requires forall p: nat :: best(p) <==> lo <= p < hi
    requires forall p: nat :: best(p) ==> p in ranked
    requires forall a, b :: 0 <= a < b < |ranked| && best(ranked[b]) ==> best(ranked[a])
    ensures best(ranked[i])
  {
    if !best(ranked[i]) {
      forall p | p in Between(lo, hi) ensures p in ranked[..i] {
        assert p in ranked && best(p);
        var b :| 0 <= b < |ranked| && ranked[b] == p;
        assert b < i && ranked[..i][b] == p;
      }
      FewDistinct(ranked[..i]);
      SubsetSize(Between(lo, hi), (set p | p in ranked[..i]));
    }
  }

  lemma {:induction false} ByRankIsTotal(hash: Hash, run: nat, action: string)
    ensures TotalPreorder(ByRank(hash, run, action))
  {
    hide LexLe;
    var le := ByRank(hash, run, action);
    forall p: nat, q: nat ensures le(p, q) || le(q, p) { LexTotal(hash(run, action, p), hash(run, action, q)); }
    forall p: nat, q: nat, r: nat | le(p, q) && le(q, r) ensures le(p, r) {
      LexTransitive(hash(run, action, p), hash(run, action, q), hash(run, action, r));
    }
  }

  predicate Dealing(c: Contract, k: nat, p: nat)
    requires ContractOk(c) && k < |c.actions|
  {
    Demand(c, k) <= p < Demand(c, k + 1)
  }

  lemma {:induction false} DealtRank(c: Contract, run: nat, k: nat, p: nat)
    requires ContractOk(c) && Distinct(c.actions) && k < |c.actions|
    ensures Dealt(c)(run, c.actions[k], p) == if Dealing(c, k, p) then [0] else [1]
  {
    hide Demand;
    FindInDistinct(c.actions, k);
  }

  /** What is ranked no worse than a phase of the interval is in the interval too. */
  lemma {:induction false} DealtFirst(c: Contract, run: nat, k: nat, p: nat, q: nat)
    requires ContractOk(c) && Distinct(c.actions) && k < |c.actions|
    requires ByRank(Dealt(c), run, c.actions[k])(p, q) && Dealing(c, k, q)
    ensures Dealing(c, k, p)
  {
    hide Dealt, Dealing;
    DealtRank(c, run, k, p);
    DealtRank(c, run, k, q);
  }

  lemma {:induction false} DemandStep(c: Contract, k: nat)
    requires ContractOk(c) && k < |c.actions|
    ensures Demand(c, k + 1) == Demand(c, k) + Min(c.counts[c.actions[k]], c.phaseCount)
  {
  }

  lemma {:induction false} DealtChosen(c: Contract, run: nat, k: nat, p: nat)
    requires ContractOk(c) && Distinct(c.actions) && k < |c.actions| && Demand(c, |c.actions|) <= c.phaseCount
    requires p in Chosen(c, Dealt(c), run, c.actions[k])
    ensures Demand(c, k) <= p < Demand(c, k + 1)
  {
    hide Sort, Dealt, Demand, ByRank;
    var action, hash := c.actions[k], Dealt(c);
    var le := ByRank(hash, run, action);
    var all := Range(c.phaseCount);
    var ranked := Sort(all, le);
    ByRankIsTotal(hash, run, action);
    SortSorts(all, le);
    SortKeeps(all, le);
    SameElements(all, ranked);
    var lo, hi := Demand(c, k), Demand(c, k + 1);
    DemandGrows(c, k + 1, |c.actions|);
    var n := Min(c.counts[action], |ranked|);
    var picked := ranked[..n];
    SortKeeps(picked, Ascending());
    SameElements(picked, Sort(picked, Ascending()));
    var i :| 0 <= i < |picked| && picked[i] == p;
    var best := (q: nat) => lo <= q < hi;
    forall a, b | 0 <= a < b < |ranked| && best(ranked[b]) ensures best(ranked[a]) {
      assert le(ranked[a], ranked[b]);
      DealtFirst(c, run, k, ranked[a], ranked[b]);
    }
    DemandStep(c, k);
    forall q: nat | best(q) ensures q in ranked { assert all[q] == q; }
    BestAreDealt(ranked, lo, hi, best, i);
  }

  lemma {:induction false} DealtPhase(c: Contract, run: nat, phase: nat, k: nat)
    requires ContractOk(c) && Distinct(c.actions) && k <= |c.actions| && Demand(c, |c.actions|) <= c.phaseCount
    ensures |Assigned(c, Dealt(c), run, phase, c.actions[..k])| <= if phase < Demand(c, k) then 1 else 0
  {
    hide Chosen, Dealt;
    if k == 0 {
      AssignedNothing(c, Dealt(c), run, phase);
    } else {
      DealtPhase(c, run, phase, k - 1);
      AssignedStep(c, Dealt(c), run, phase, k - 1);
      if phase in Chosen(c, Dealt(c), run, c.actions[k - 1]) { DealtChosen(c, run, k - 1, phase); }
      DemandGrows(c, k - 1, k);
    }
  }

  /** Conversely, when the phases suffice, some hash keeps all windows apart: the contract decides exactly. */
  lemma {:induction false} DisjointForSomeHashIff(c: Contract)
    requires ContractOk(c) && Distinct(c.actions) && c.actions != [] && SlotsFit(c, 120)
    ensures (exists hash: Hash :: ExclusionsDisjoint(AllRows(c, hash, c.runCount)))
       <==> c.runCount == 0 || Demand(c, |c.actions|) <= c.phaseCount
  {
    hide AllRows, Demand, ExclusionsDisjoint, Dealt, Assigned, Chosen;
    if c.runCount > 0 && Demand(c, |c.actions|) > c.phaseCount {
      forall hash: Hash ensures !ExclusionsDisjoint(AllRows(c, hash, c.runCount)) { DemandForcesOverlap(c, hash); }
    } else {
      var hash := Dealt(c);
      forall run: nat, phase: nat | run < c.runCount && phase < c.phaseCount
        ensures |Ordered(c, hash, run, phase)| <= 1
      {
        DealtPhase(c, run, phase, |c.actions|);
        assert c.actions[..|c.actions|] == c.actions;
        SortKeeps(Assigned(c, hash, run, phase, c.actions), ByActionOrder(c.actions));
      }
      ExclusionsDisjointIff(c, hash);
    }
  }

  /** The contract of the qualification specification. */
  const FROZEN: Contract := Contract(
    ["genesis_sync", "maintenance", "restart", "rolling_upgrade", "snapshot_bootstrap", "witness_rotation", "reorg"],
    map["genesis_sync" := 2, "maintenance" := 6, "reorg" := 6, "restart" := 8, "rolling_upgrade" := 1,
        "snapshot_bootstrap" := 2, "witness_rotation" := 3],
    24, 900, 2)

  lemma {:induction false} NoDemand(c: Contract)
    requires ContractOk(c)
    ensures Demand(c, 0) == 0
  {
  }

  lemma {:induction false} FrozenDemand()
    ensures ContractOk(FROZEN) && Distinct(FROZEN.actions) && Demand(FROZEN, 7) == 28
  {
    hide Demand;
    NoDemand(FROZEN);
    DemandStep(FROZEN, 0);
    DemandStep(FROZEN, 1);
    DemandStep(FROZEN, 2);
    DemandStep(FROZEN, 3);
    DemandStep(FROZEN, 4);
    DemandStep(FROZEN, 5);
    DemandStep(FROZEN, 6);
  }

  /** It is such a contract: 28 actions in 24 phases. Its windows add up to the 6720 seconds the gate expects. */
  lemma {:induction false} FrozenScheduleOverlaps(hash: Hash)
    ensures ContractOk(FROZEN)
    ensures !ExclusionsDisjoint(AllRows(FROZEN, hash, FROZEN.runCount))
    ensures ExclusionSeconds(AllRows(FROZEN, hash, FROZEN.runCount)) == 6720
  {
    hide AllRows, Demand, ExclusionsDisjoint, ExclusionSeconds;
    FrozenDemand();
    DemandForcesOverlap(FROZEN, hash);
    ExclusionTotal(FROZEN, hash);
  }

  // ---- which phases are taken ------------------------------------------------------------------------

  /** A phase goes before another: its digest is smaller, or the same and it comes earlier. */
  predicate Outranks(hash: Hash, run: nat, action: string, p: nat, q: nat)
  {
    LexLe(hash(run, action, p), hash(run, action, q)) && (hash(run, action, p) == hash(run, action, q) ==> p < q)
  }

  ghost predicate Ranked(hash: Hash, run: nat, action: string, s: seq<nat>)
  {
    forall i, j :: 0 <= i < j < |s| ==> Outranks(hash, run, action, s[i], s[j])
  }

  lemma {:induction false} InsertRanks(hash: Hash, run: nat, action: string, x: nat, s: seq<nat>)
    requires Ranked(hash, run, action, s) && forall y :: y in s ==> x < y
    ensures Ranked(hash, run, action, Insert(x, s, ByRank(hash, run, action)))
  {
    hide LexLe;
    var le := ByRank(hash, run, action);
    LexIsOrder();
    if s == [] {
    } else if le(x, s[0]) {
      var r := [x] + s;
      forall i, j | 0 <= i < j < |r| ensures Outranks(hash, run, action, r[i], r[j]) {
        if i == 0 {
          assert s[j - 1] in s;
          assert x < s[j - 1] && (j > 1 ==> Outranks(hash, run, action, s[0], s[j - 1]));
          assert LexLe(hash(run, action, x), hash(run, action, s[0]));
        } else {
          assert r[i] == s[i - 1] && r[j] == s[j - 1];
        }
      }
    } else {
      assert forall y :: y in s[1..] ==> y in s;
      var rest := Insert(x, s[1..], le);
      InsertRanks(hash, run, action, x, s[1..]);
      InsertKeeps(x, s[1..], le);
      forall j | 0 <= j < |rest| ensures Outranks(hash, run, action, s[0], rest[j]) {
        assert rest[j] in multiset(rest);
        if rest[j] != x {
          assert rest[j] in multiset(s[1..]);
          var k :| 0 <= k < |s[1..]| && s[1..][k] == rest[j];
          assert s[k + 1] == rest[j];
        }
      }
    }
  }

  lemma {:induction false} LexIsOrder()
    ensures forall a, b :: LexLe(a, b) || LexLe(b, a)
    ensures forall a, b, c :: LexLe(a, b) && LexLe(b, c) ==> LexLe(a, c)
    ensures forall a, b :: LexLe(a, b) && LexLe(b, a) ==> a == b
  {
    forall a, b ensures LexLe(a, b) || LexLe(b, a) { LexTotal(a, b); }
    forall a, b, c | LexLe(a, b) && LexLe(b, c) ensures LexLe(a, c) { LexTransitive(a, b, c); }
    forall a, b | LexLe(a, b) && LexLe(b, a) ensures a == b { LexAntisymmetric(a, b); }
  }

  /** Ranking phases that are given in time order ranks them strictly. */
  lemma {:induction false} SortRanks(hash: Hash, run: nat, action: string, s: seq<nat>)
    requires StrictlyAscending(s)
    ensures Ranked(hash, run, action, Sort(s, ByRank(hash, run, action)))
  {
    hide LexLe;
    if s != [] {
      var le := ByRank(hash, run, action);
      var rest := Sort(s[1..], le);
      SortRanks(hash, run, action, s[1..]);
      SortKeeps(s[1..], le);
      SameElements(s[1..], rest);
      forall y | y in rest ensures s[0] < y {
        var k :| 0 <= k < |s[1..]| && s[1..][k] == y;
        assert s[k + 1] == y;
      }
      InsertRanks(hash, run, action, s[0], rest);
    }
  }

  /** The phases an action gets are those of the smallest digests of its run, the earlier one among equals. */
  lemma {:induction false} ChosenAreBest(c: Contract, hash: Hash, run: nat, action: string, p: nat, q: nat)
    requires action in c.counts && p in Chosen(c, hash, run, action) && q < c.phaseCount && q !in Chosen(c, hash, run, action)
    ensures LexLe(hash(run, action, p), hash(run, action, q))
    ensures hash(run, action, p) == hash(run, action, q) ==> p < q
  {
    hide LexLe, Sort;
    var le, all := ByRank(hash, run, action), Range(c.phaseCount);
    var ranked := Sort(all, le);
    SortRanks(hash, run, action, all);
    SortKeeps(all, le);
    SameElements(all, ranked);
    var n := Min(c.counts[action], |ranked|);
    var picked := ranked[..n];
    SortKeeps(picked, Ascending());
    SameElements(picked, Sort(picked, Ascending()));
    assert p in picked && q !in picked && all[q] == q && q in all;
    var i :| 0 <= i < n && ranked[i] == p;
    var j :| 0 <= j < |ranked| && ranked[j] == q;
    assert forall k :: 0 <= k < n ==> picked[k] == ranked[k] && picked[k] in picked;
    assert Outranks(hash, run, action, ranked[i], ranked[j]);
  }

  lemma {:induction false} AssignedAreChosen(c: Contract, hash: Hash, run: nat, phase: nat, actions: seq<string>, action: string)
    requires forall a :: a in actions ==> a in c.counts
    ensures (exists x :: x in Assigned(c, hash, run, phase, actions) && x.action == action) <==>
            action in actions && phase in Chosen(c, hash, run, action)
    decreases |actions|
  {
    hide Chosen;
    if actions != [] {
      var n := |actions| - 1;
      AssignedAreChosen(c, hash, run, phase, actions[..n], action);
      assert actions == actions[..n] + [actions[n]];
      var before := Assigned(c, hash, run, phase, actions[..n]);
      var all := Assigned(c, hash, run, phase, actions);
      assert before <= all;
      if action == actions[n] && phase in Chosen(c, hash, run, action) {
        assert all[|before|].action == action && all[|before|] in all;
      }
      if x :| x in all && x.action == action && x !in before {
        assert x == all[|before|];
      }
    }
  }

  /** The schedule has a row for this action in this phase of this run. */
  ghost predicate Takes(rows: seq<Row>, run: nat, action: string, phase: nat)
  {
    exists row :: row in rows && row.run == run && row.action == action && row.phase == phase
  }

  lemma {:induction false} PhaseTakes(c: Contract, hash: Hash, run: nat, phase: nat, r: nat, action: string, p: nat)
    requires ContractOk(c)
    ensures Takes(PhaseRows(c, hash, run, phase), r, action, p) <==>
            r == run && p == phase && action in c.actions && phase in Chosen(c, hash, run, action)
  {
    hide Chosen, Assigned, Sort;
    var placed, ordered := Assigned(c, hash, run, phase, c.actions), Ordered(c, hash, run, phase);
    var rows := PhaseRows(c, hash, run, phase);
    AssignedAreChosen(c, hash, run, phase, c.actions, action);
    SortKeeps(placed, ByActionOrder(c.actions));
    SameElements(placed, ordered);
    if Takes(rows, r, action, p) {
      var row :| row in rows && row.run == r && row.action == action && row.phase == p;
      var k :| 0 <= k < |rows| && rows[k] == row;
      assert ordered[k] in placed && ordered[k].action == action;
    }
    if x :| r == run && p == phase && x in placed && x.action == action {
      var k :| 0 <= k < |ordered| && ordered[k] == x;
      assert rows[k] in rows && rows[k].action == action;
    }
  }

  lemma {:induction false} TakesEither(a: seq<Row>, b: seq<Row>, run: nat, action: string, phase: nat)
    ensures Takes(a + b, run, action, phase) <==> Takes(a, run, action, phase) || Takes(b, run, action, phase)
  {
    forall row ensures row in a + b <==> row in a || row in b {}
  }

  lemma {:induction false} RunTakes(c: Contract, hash: Hash, run: nat, phases: nat, r: nat, action: string, p: nat)
    requires ContractOk(c)
    ensures Takes(RunRows(c, hash, run, phases), r, action, p) <==>
            r == run && p < phases && action in c.actions && p in Chosen(c, hash, run, action)
    decreases phases
  {
    hide Chosen, PhaseRows, Takes;
    if phases == 0 {
      NothingTaken(r, action, p);
    } else {
      RunTakes(c, hash, run, phases - 1, r, action, p);
      PhaseTakes(c, hash, run, phases - 1, r, action, p);
      TakesEither(RunRows(c, hash, run, phases - 1), PhaseRows(c, hash, run, phases - 1), r, action, p);
    }
  }

  lemma {:induction false} NothingTaken(run: nat, action: string, phase: nat)
    ensures !Takes([], run, action, phase)
  {
  }

  lemma {:induction false} ScheduleTakes(c: Contract, hash: Hash, runs: nat, r: nat, action: string, p: nat)
    requires ContractOk(c)
    ensures Takes(AllRows(c, hash, runs), r, action, p) <==>
            r < runs && p < c.phaseCount && action in c.actions && p in Chosen(c, hash, r, action)
    decreases runs
  {
    hide Chosen, RunRows, Takes;
    if runs == 0 {
      NothingTaken(r, action, p);
    } else {
      ScheduleTakes(c, hash, runs - 1, r, action, p);
      RunTakes(c, hash, runs - 1, c.phaseCount, r, action, p);
      TakesEither(AllRows(c, hash, runs - 1), RunRows(c, hash, runs - 1, c.phaseCount), r, action, p);
    }
  }

  /**
    A row lies in a phase that no phase the same run left free for its action outranks: the digest of
    that very run is no larger, and among equal digests the earlier phase is taken.
   */
  lemma {:induction false} RowsTakeTheBest(c: Contract, hash: Hash, row: Row, q: nat)
    requires ContractOk(c) && row in AllRows(c, hash, c.runCount)
    requires q < c.phaseCount && !Takes(AllRows(c, hash, c.runCount), row.run, row.action, q)
    ensures LexLe(hash(row.run, row.action, row.phase), hash(row.run, row.action, q))
    ensures hash(row.run, row.action, row.phase) == hash(row.run, row.action, q) ==> row.phase < q
  {
    hide Chosen, AllRows, LexLe;
    ScheduleTakes(c, hash, c.runCount, row.run, row.action, row.phase);
    ScheduleTakes(c, hash, c.runCount, row.run, row.action, q);
    ChosenAreBest(c, hash, row.run, row.action, row.phase, q);
  }

  // ---- when each row happens -------------------------------------------------------------------------------

  /** How many of these rows lie in a phase of a run. */
  function CountIn(rows: seq<Row>, run: nat, phase: nat): nat
  {
    if rows == [] then 0
    else
      var r := rows[|rows| - 1];
      CountIn(rows[..|rows| - 1], run, phase) + if r.run == run && r.phase == phase then 1 else 0
  }

  /**
    A row starts sixty seconds into its phase, the phases of all runs one behind the other, and ninety
    seconds later for each row already in the phase; it acts for sixty and excludes for 120 seconds.
    Within a phase the rows follow the order of the actions.
   */
  ghost predicate TimedAt(c: Contract, rows: seq<Row>, i: nat)
    requires i < |rows|
  {
    var r := rows[i];
    && r.start == (r.run * c.phaseCount + r.phase) * c.phaseDuration + 60 + 90 * CountIn(rows[..i], r.run, r.phase)
    && r.actionEnd == r.start + 60 && r.exclusionEnd == r.start + 120
    && (r.forkActivation <==> r.action == "reorg" && r.occurrence == 0)
    && forall j :: 0 <= j < i && rows[j].run == r.run && rows[j].phase == r.phase ==>
         Find(c.actions, rows[j].action) <= Find(c.actions, r.action)
  }

  ghost predicate Timed(c: Contract, rows: seq<Row>)
  {
    forall i :: 0 <= i < |rows| ==> TimedAt(c, rows, i)
  }

  lemma {:induction false} CountConcat(a: seq<Row>, b: seq<Row>, run: nat, phase: nat)
    ensures CountIn(a + b, run, phase) == CountIn(a, run, phase) + CountIn(b, run, phase)
    decreases |b|
  {
    if b == [] {
      assert a + b == a;
    } else {
      CountConcat(a, b[..|b| - 1], run, phase);
      assert (a + b)[..|a + b| - 1] == a + b[..|b| - 1];
    }
  }

  lemma {:induction false} CountNone(rows: seq<Row>, run: nat, phase: nat)
    requires forall i :: 0 <= i < |rows| ==> rows[i].run != run || rows[i].phase != phase
    ensures CountIn(rows, run, phase) == 0
    decreases |rows|
  {
    if rows != [] { CountNone(rows[..|rows| - 1], run, phase); }
  }

  lemma {:induction false} CountAll(rows: seq<Row>, run: nat, phase: nat)
    requires forall i :: 0 <= i < |rows| ==> rows[i].run == run && rows[i].phase == phase
    ensures CountIn(rows, run, phase) == |rows|
    decreases |rows|
  {
    if rows != [] { CountAll(rows[..|rows| - 1], run, phase); }
  }

  lemma {:induction false} TimedConcat(c: Contract, a: seq<Row>, b: seq<Row>)
    requires Timed(c, a) && Timed(c, b)
    requires forall i, j :: 0 <= i < |a| && 0 <= j < |b| ==> a[i].run != b[j].run || a[i].phase != b[j].phase
    ensures Timed(c, a + b)
  {
    hide CountIn, Find;
    forall i | 0 <= i < |a + b| ensures TimedAt(c, a + b, i) {
      if i < |a| {
        assert (a + b)[..i] == a[..i] && TimedAt(c, a, i);
        assert forall j :: 0 <= j < i ==> (a + b)[j] == a[j];
      } else {
        var k := i - |a|;
        assert TimedAt(c, b, k) && (a + b)[i] == b[k] && (a + b)[..i] == a + b[..k];
        CountConcat(a, b[..k], b[k].run, b[k].phase);
        CountNone(a, b[k].run, b[k].phase);
        assert forall j :: 0 <= j < i ==> (a + b)[j] == if j < |a| then a[j] else b[j - |a|];
      }
    }
  }

  lemma {:induction false} PhaseStart(c: Contract, run: nat, phase: nat, slot: nat)
    ensures StartOf(c, run, phase, slot) == (run * c.phaseCount + phase) * c.phaseDuration + 60 + 90 * slot
  {
    assert (run * c.phaseCount + phase) * c.phaseDuration == run * c.phaseCount * c.phaseDuration + phase * c.phaseDuration;
  }

  lemma {:induction false} PhaseTimed(c: Contract, hash: Hash, run: nat, phase: nat)
    requires ContractOk(c)
    ensures Timed(c, PhaseRows(c, hash, run, phase))
    ensures forall i :: 0 <= i < |PhaseRows(c, hash, run, phase)| ==>
              PhaseRows(c, hash, run, phase)[i].run == run && PhaseRows(c, hash, run, phase)[i].phase == phase
  {
    hide Assigned, Sort, StartOf, Find, CountIn;
    var rows, ordered := PhaseRows(c, hash, run, phase), Ordered(c, hash, run, phase);
    SortSorts(Assigned(c, hash, run, phase, c.actions), ByActionOrder(c.actions));
    forall i | 0 <= i < |rows| ensures TimedAt(c, rows, i) {
      PhaseStart(c, run, phase, i);
      CountAll(rows[..i], run, phase);
      assert forall j :: 0 <= j < i ==> ByActionOrder(c.actions)(ordered[j], ordered[i]);
    }
  }

  lemma {:induction false} RunTimed(c: Contract, hash: Hash, run: nat, phases: nat)
    requires ContractOk(c)
    ensures Timed(c, RunRows(c, hash, run, phases))
    ensures forall i :: 0 <= i < |RunRows(c, hash, run, phases)| ==>
              RunRows(c, hash, run, phases)[i].run == run && RunRows(c, hash, run, phases)[i].phase < phases
    decreases phases
  {
    hide PhaseRows, TimedAt;
    if phases > 0 {
      RunTimed(c, hash, run, phases - 1);
      PhaseTimed(c, hash, run, phases - 1);
      TimedConcat(c, RunRows(c, hash, run, phases - 1), PhaseRows(c, hash, run, phases - 1));
    }
  }

  /** Every row of the schedule happens when the formula says, in a phase and a run of the contract. */
  lemma {:induction false} RowTimes(c: Contract, hash: Hash, runs: nat)
    requires ContractOk(c)
    ensures Timed(c, AllRows(c, hash, runs))
    ensures forall i :: 0 <= i < |AllRows(c, hash, runs)| ==>
              AllRows(c, hash, runs)[i].run < runs && AllRows(c, hash, runs)[i].phase < c.phaseCount
    decreases runs
  {
    hide RunRows, TimedAt;
    if runs > 0 {
      RowTimes(c, hash, runs - 1);
      RunTimed(c, hash, runs - 1, c.phaseCount);
      TimedConcat(c, AllRows(c, hash, runs - 1), RunRows(c, hash, runs - 1, c.phaseCount));
    }
  }
}
