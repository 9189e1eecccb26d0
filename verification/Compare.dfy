/**
  The comparison of two results: which fields it looks at, when it reports a match, and exactly
  what masking hides from it.
 */
module Compare {
  import opened Outcomes
  import opened Sorting
  import opened Text
  import opened Json
  import opened Pointer
  import opened Differences
  import opened DifferenceLaws
  import opened Limits
  import opened Normalize
  import opened Validation

  // ---- the part of a result that is compared ---------------------------------------------------

  const IGNORED: set<string> := {"runner", APPLIED, "diagnostics"}
  const UNCOMPARED_IDENTITY: set<string> := {"implementation", "toolchain"}

  /** The fields whose keys are not in the set, in order. */
  function Without(fields: seq<Field>, keys: set<string>): seq<Field>
  {
    if fields == [] then []
    else (if fields[0].key in keys then [] else [fields[0]]) + Without(fields[1..], keys)
  }

  /** Drops the fields two runners may differ in; None where the source raises instead. */
  function Compared(result: Json): Option<Json>
  {
    if !result.Obj? then None
    else
      var kept := Obj(Without(result.fields, IGNORED));
      match Position(kept, Key("identity"))
      case None => Some(kept)
      case Some(i) =>
        if ChildAt(kept, i).Obj?
        then Some(WithChild(kept, i, Obj(Without(ChildAt(kept, i).fields, UNCOMPARED_IDENTITY))))
        else None
  }

  lemma {:induction false} WithoutFields(fields: seq<Field>, keys: set<string>)
    ensures |Without(fields, keys)| <= |fields|
    ensures forall x :: x in Without(fields, keys) ==> x in fields
    ensures (forall i, j :: 0 <= i < j < |fields| ==> fields[i].key != fields[j].key) ==>
            forall i, j :: 0 <= i < j < |Without(fields, keys)| ==> Without(fields, keys)[i].key != Without(fields, keys)[j].key
  {
    if fields != [] {
      WithoutFields(fields[1..], keys);
      var rest := Without(fields[1..], keys);
      if forall i, j :: 0 <= i < j < |fields| ==> fields[i].key != fields[j].key {
        forall j | 0 <= j < |rest| ensures fields[0].key != rest[j].key {
          assert rest[j] in fields[1..];
          var m :| 0 <= m < |fields[1..]| && fields[1..][m] == rest[j];
          assert fields[m + 1] == rest[j];
        }
      }
    }
  }

  lemma {:induction false} WithoutWellFormed(v: Json, keys: set<string>)
    requires v.Obj? && WellFormed(v)
    ensures WellFormed(Obj(Without(v.fields, keys)))
  {
    var w := Obj(Without(v.fields, keys));
    forall i, j | 0 <= i < j < |v.fields| ensures v.fields[i].key != v.fields[j].key {
      assert StepAt(v, i) != StepAt(v, j);
    }
    WithoutFields(v.fields, keys);
    forall i | 0 <= i < Arity(w) ensures WellFormed(ChildAt(w, i)) {
      assert w.fields[i] in v.fields;
      var m :| 0 <= m < |v.fields| && v.fields[m] == w.fields[i];
      assert WellFormed(ChildAt(v, m));
    }
  }

  lemma {:induction false} WithChildWellFormed(v: Json, i: nat, c: Json)
    requires WellFormed(v) && i < Arity(v) && WellFormed(c)
    ensures WellFormed(WithChild(v, i, c))
  {
  }

  lemma {:induction false} ComparedWellFormed(result: Json)
    requires WellFormed(result) && Compared(result).Some?
    ensures WellFormed(Compared(result).value) && Compared(result).value.Obj?
  {
    hide WellFormed;
    var kept := Obj(Without(result.fields, IGNORED));
    WithoutWellFormed(result, IGNORED);
    match Position(kept, Key("identity"))
    case None =>
    case Some(i) =>
      assert WellFormed(ChildAt(kept, i)) by { ChildWellFormed(kept, i); }
      WithoutWellFormed(ChildAt(kept, i), UNCOMPARED_IDENTITY);
      WithChildWellFormed(kept, i, Obj(Without(ChildAt(kept, i).fields, UNCOMPARED_IDENTITY)));
  }

  lemma {:induction false} ChildWellFormed(v: Json, i: nat)
    requires WellFormed(v) && i < Arity(v)
    ensures WellFormed(ChildAt(v, i))
  {
  }

  // ---- what is compared is never larger than the result ---------------------------------------------

  function FieldNodes(fields: seq<Field>): nat
  {
    if fields == [] then 0 else Nodes(fields[0].value) + FieldNodes(fields[1..])
  }

  lemma {:induction false} ObjectNodes(v: Json, i: nat)
    requires v.Obj? && i <= |v.fields|
    ensures NodesFrom(v, i) == FieldNodes(v.fields[i..])
    decreases |v.fields| - i
  {
    if i < |v.fields| {
      ObjectNodes(v, i + 1);
      assert v.fields[i..][0] == v.fields[i] && v.fields[i..][1..] == v.fields[i + 1..];
    }
  }

  lemma {:induction false} WithoutNodes(fields: seq<Field>, keys: set<string>)
    ensures FieldNodes(Without(fields, keys)) <= FieldNodes(fields)
  {
    if fields != [] {
      WithoutNodes(fields[1..], keys);
      if fields[0].key !in keys {
        assert Without(fields, keys)[1..] == Without(fields[1..], keys);
      } else {
        assert Without(fields, keys) == Without(fields[1..], keys);
      }
    }
  }

  lemma {:induction false} ObjectWithoutNodes(v: Json, keys: set<string>)
    requires v.Obj?
    ensures Nodes(Obj(Without(v.fields, keys))) <= Nodes(v)
  {
    var w := Obj(Without(v.fields, keys));
    ObjectNodes(v, 0);
    ObjectNodes(w, 0);
    assert v.fields[0..] == v.fields && w.fields[0..] == w.fields;
    WithoutNodes(v.fields, keys);
  }

  lemma {:induction false} WithChildNodes(v: Json, i: nat, c: Json, k: nat)
    requires i < Arity(v) && k <= Arity(v) && Nodes(c) <= Nodes(ChildAt(v, i))
    ensures Arity(WithChild(v, i, c)) == Arity(v) && NodesFrom(WithChild(v, i, c), k) <= NodesFrom(v, k)
    decreases Arity(v) - k
  {
    if k < Arity(v) { WithChildNodes(v, i, c, k + 1); }
  }

  lemma {:induction false} ComparedNodes(result: Json)
    requires Compared(result).Some?
    ensures Nodes(Compared(result).value) <= Nodes(result)
  {
    var kept := Obj(Without(result.fields, IGNORED));
    ObjectWithoutNodes(result, IGNORED);
    match Position(kept, Key("identity"))
    case None =>
    case Some(i) =>
      var c := Obj(Without(ChildAt(kept, i).fields, UNCOMPARED_IDENTITY));
      ObjectWithoutNodes(ChildAt(kept, i), UNCOMPARED_IDENTITY);
      WithChildNodes(kept, i, c, 0);
  }

  /**
    Every field of a result is compared, with its value as it is, but for three; of the identity every
    field but two. An identity that is no object, or a result that is none, makes the source raise.
   */
  lemma {:induction false} OnlyTheseAreIgnored(result: Json, key: string)
    requires WellFormed(result) && result.Obj?
    ensures Compared(result).None? <==> FieldOf(result, "identity").Some? && !FieldOf(result, "identity").value.Obj?
    ensures Compared(result).Some? ==>
              var c := Compared(result).value;
              && (key in {"runner", "normalizations_applied", "diagnostics"} ==> FieldOf(c, key) == None)
              && (key !in {"runner", "normalizations_applied", "diagnostics", "identity"} ==> FieldOf(c, key) == FieldOf(result, key))
              && (FieldOf(c, "identity").Some? <==> FieldOf(result, "identity").Some?)
              && (FieldOf(result, "identity").Some? ==>
                    var was, now := FieldOf(result, "identity").value, FieldOf(c, "identity").value;
                    && now.Obj?
                    && FieldOf(now, key) == if key in {"implementation", "toolchain"} then None else FieldOf(was, key))
  {
    hide WellFormed, FieldOf;
    var kept := Obj(Without(result.fields, IGNORED));
    Distinguished();
    WithoutWellFormed(result, IGNORED);
    FieldOfWithout(result, IGNORED, key);
    FieldOfWithout(result, IGNORED, "identity");
    FieldIsAt(kept, "identity");
    match Position(kept, Key("identity"))
    case None =>
    case Some(i) =>
      var was := ChildAt(kept, i);
      ChildWellFormed(kept, i);
      if was.Obj? {
        FieldOfWithout(was, UNCOMPARED_IDENTITY, key);
        FieldOfWithChild(kept, i, Obj(Without(was.fields, UNCOMPARED_IDENTITY)), key);
        FieldOfWithChild(kept, i, Obj(Without(was.fields, UNCOMPARED_IDENTITY)), "identity");
      }
  }

  lemma {:induction false} Distinguished()
    ensures "identity" !in IGNORED
  {
    assert "identity"[0] != "runner"[0] && "identity"[0] != APPLIED[0] && "identity"[0] != "diagnostics"[0];
  }

  lemma {:induction false} FieldIsAt(v: Json, key: string)
    requires v.Obj?
    ensures match Position(v, Key(key))
            case None => FieldOf(v, key) == None
            case Some(i) => FieldOf(v, key) == Some(ChildAt(v, i)) && StepAt(v, i) == Key(key)
  {
  }

  lemma {:induction false} FieldOfWithout(v: Json, keys: set<string>, key: string)
    requires WellFormed(v) && v.Obj?
    ensures FieldOf(Obj(Without(v.fields, keys)), key) == if key in keys then None else FieldOf(v, key)
  {
    hide WellFormed;
    var w := Obj(Without(v.fields, keys));
    WithoutWellFormed(v, keys);
    WithoutHas(v.fields, keys);
    FieldIsAt(v, key);
    FieldIsAt(w, key);
    forall f: Field ensures f in v.fields ==> FieldOf(v, f.key) == Some(f.value) { HasField(v, f); }
    if Position(w, Key(key)).Some? {
      var f := w.fields[Position(w, Key(key)).value];
      assert f in w.fields && f.key == key;
    } else if key !in keys && Position(v, Key(key)).Some? {
      var f := v.fields[Position(v, Key(key)).value];
      assert f in v.fields && f.key == key && f in w.fields;
      HasField(w, f);
    }
  }

  lemma {:induction false} WithoutHas(fields: seq<Field>, keys: set<string>)
    ensures forall f :: f in Without(fields, keys) <==> f in fields && f.key !in keys
  {
    if fields != [] {
      WithoutHas(fields[1..], keys);
      assert fields == [fields[0]] + fields[1..];
    }
  }

  lemma {:induction false} HasField(v: Json, f: Field)
    requires WellFormed(v) && v.Obj?
    ensures f in v.fields ==> FieldOf(v, f.key) == Some(f.value)
  {
    hide WellFormed;
    if f in v.fields {
      var i :| 0 <= i < |v.fields| && v.fields[i] == f;
      assert StepAt(v, i) == Key(f.key);
      PositionOfStep(v, i);
    }
  }

  lemma {:induction false} FieldOfWithChild(v: Json, i: nat, c: Json, key: string)
    requires WellFormed(v) && v.Obj? && i < Arity(v)
    ensures WithChild(v, i, c).Obj?
    ensures FieldOf(WithChild(v, i, c), key) == if StepAt(v, i) == Key(key) then Some(c) else FieldOf(v, key)
  {
    hide WellFormed;
    var w := WithChild(v, i, c);
    FieldIsAt(v, key);
    FieldIsAt(w, key);
    SameSteps(v, w, Key(key), 0);
    if StepAt(v, i) == Key(key) { PositionOfStep(v, i); }
  }

  lemma {:induction false} SameSteps(v: Json, w: Json, s: Step, i: nat)
    requires i <= Arity(v) == Arity(w) && forall j :: 0 <= j < Arity(v) ==> StepAt(v, j) == StepAt(w, j)
    ensures Position(v, s, i) == Position(w, s, i)
    decreases Arity(v) - i
  {
    if i < Arity(v) && StepAt(v, i) != s { SameSteps(v, w, s, i + 1); }
  }

  // ---- the report ------------------------------------------------------------------------------------

  datatype Kind = StateKind | ErrorKind | EventKind | LogKind | ExitKind | IdentityKind | OutputKind

  /** `mismatch_kind`: the part of the result a pointer lies in. */
  function MismatchKind(pointer: string): Kind
  {
    if "/state_deltas" <= pointer then StateKind
    else if "/error" <= pointer then ErrorKind
    else if "/events" <= pointer then EventKind
    else if "/logs" <= pointer then LogKind
    else if "/exit_code" <= pointer || "/status" <= pointer then ExitKind
    else if "/identity" <= pointer then IdentityKind
    else OutputKind
  }

  datatype Mismatch =
    | SchemaMismatch(message: string)
    | ForbiddenNormalization(record: Json, verdict: Verdict)
    | Difference(kind: Kind, row: Row)

  datatype Failure = TooManySchemaErrors | TooManyMismatches | QueueLimit | Raised

  const MAX_SCHEMA_ERRORS: nat := 1_000

  /** What the validation loop iterates over; None where Python cannot iterate. */
  function RecordsOf(result: Json): Option<seq<Json>>
  {
    match FieldOf(result, APPLIED)
    case None => Some([])
    case Some(v) =>
      if v.Arr? then Some(v.items)
      else if v.Obj? then Some(seq(|v.fields|, i requires 0 <= i < |v.fields| => Str(v.fields[i].key)))
      else if v.Str? then Some(seq(|v.s|, i requires 0 <= i < |v.s| => Str([v.s[i]])))
      else None
  }

  function VerdictOn(result: Json, record: Json, policy: Policy, digest: Json -> string): Verdict
  {
    Validate(record, FieldOf(result, "oracle_class"), result, policy, digest)
  }

  /** The source gets through this result without raising. */
  ghost predicate Readable(result: Json, policy: Policy, digest: Json -> string)
  {
    && Compared(result).Some? && RecordsOf(result).Some?
    && forall x :: x in RecordsOf(result).value ==> VerdictOn(result, x, policy, digest) != Crash
  }

  function SchemaReport(errors: seq<string>): seq<Mismatch>
  {
    seq(|errors|, i requires 0 <= i < |errors| => SchemaMismatch(errors[i]))
  }

  function RecordReport(result: Json, records: seq<Json>, policy: Policy, digest: Json -> string): seq<Mismatch>
  {
    if records == [] then []
    else
      var n := |records| - 1;
      var verdict := VerdictOn(result, records[n], policy, digest);
      RecordReport(result, records[..n], policy, digest)
      + if verdict == Accepted then [] else [ForbiddenNormalization(records[n], verdict)]
  }

  /** What is reported about one result on its own. */
  function SideReport(result: Json, errors: seq<string>, policy: Policy, digest: Json -> string): seq<Mismatch>
    requires RecordsOf(result).Some?
  {
    SchemaReport(errors) + RecordReport(result, RecordsOf(result).value, policy, digest)
  }

  function RowReport(rows: seq<Row>): seq<Mismatch>
  {
    seq(|rows|, i requires 0 <= i < |rows| => Difference(MismatchKind(rows[i].pointer), rows[i]))
  }

  /** The whole report on two results. */
  function Report(java: Json, rust: Json, javaErrors: seq<string>, rustErrors: seq<string>, policy: Policy, digest: Json -> string): seq<Mismatch>
    requires Compared(java).Some? && RecordsOf(java).Some? && Compared(rust).Some? && RecordsOf(rust).Some?
  {
    SideReport(java, javaErrors, policy, digest) + SideReport(rust, rustErrors, policy, digest)
    + RowReport(Diff(Entry(Compared(java).value, Compared(rust).value, "")))
  }

  /** One result's own findings, appended to those so far. */
  method CheckSide(result: Json, errors: seq<string>, policy: Policy, digest: Json -> string, sofar: seq<Mismatch>)
      returns (r: Result<seq<Mismatch>, Failure>)
    ensures r.Ok? ==> Readable(result, policy, digest) && |r.value| <= MAX_MISMATCHES && |errors| <= MAX_SCHEMA_ERRORS
                      && r.value == sofar + SideReport(result, errors, policy, digest)
    ensures r == Err(Raised) ==> !Readable(result, policy, digest)
    ensures r == Err(TooManySchemaErrors) ==> |errors| > MAX_SCHEMA_ERRORS
    ensures r == Err(TooManyMismatches) ==>
              RecordsOf(result).Some? && |sofar + SideReport(result, errors, policy, digest)| > MAX_MISMATCHES
    ensures r != Err(QueueLimit)
  {
    hide VerdictOn, Compared, RecordsOf, SchemaReport;
    if Compared(result).None? || RecordsOf(result).None? {
      return Err(Raised);
    }
    if |errors| > MAX_SCHEMA_ERRORS {
      return Err(TooManySchemaErrors);
    }
    var found: seq<Mismatch> := sofar + SchemaReport(errors);
    var records := RecordsOf(result).value;
    var i := 0;
    assert found == found + [];
    while i < |records|
      invariant 0 <= i <= |records|
      invariant found == (sofar + SchemaReport(errors)) + RecordReport(result, records[..i], policy, digest)
      invariant forall j :: 0 <= j < i ==> VerdictOn(result, records[j], policy, digest) != Crash
    {
      var verdict := VerdictOn(result, records[i], policy, digest);
      assert records[..i + 1][..i] == records[..i];
      if verdict == Crash {
        assert records[i] in records;
        return Err(Raised);
      }
      if verdict != Accepted {
        found := found + [ForbiddenNormalization(records[i], verdict)];
      }
      i := i + 1;
    }
    assert records[..i] == records;
    assert found == sofar + SideReport(result, errors, policy, digest);
    if |found| > MAX_MISMATCHES {
      return Err(TooManyMismatches);
    }
    return Ok(found);
  }

  /** The last loop of `compare`: one finding for each row, while there is room. */
  method AddRows(sofar: seq<Mismatch>, found: seq<Row>) returns (r: Result<seq<Mismatch>, Failure>)
    requires |sofar| <= MAX_MISMATCHES
    ensures r.Ok? ==> r.value == sofar + RowReport(found) && |r.value| <= MAX_MISMATCHES
    ensures r.Err? ==> r.error == TooManyMismatches && |sofar + RowReport(found)| > MAX_MISMATCHES
  {
    var i := 0;
    var all := sofar;
    while i < |found|
      invariant 0 <= i <= |found|
      invariant all == sofar + RowReport(found)[..i] && |all| <= MAX_MISMATCHES
    {
      all := all + [Difference(MismatchKind(found[i].pointer), found[i])];
      assert all == sofar + RowReport(found)[..i + 1] by {
        assert RowReport(found)[..i + 1] == RowReport(found)[..i] + [RowReport(found)[i]];
      }
      if |all| > MAX_MISMATCHES {
        return Err(TooManyMismatches);
      }
      i := i + 1;
    }
    assert RowReport(found)[..i] == RowReport(found);
    return Ok(all);
  }

  /**
    `compare`: the report on two results, given the schema and invariant errors already found in
    each. The queue limit cannot be the reason it fails, once either result has been loaded.
   */
  method Compare(java: Json, rust: Json, javaErrors: seq<string>, rustErrors: seq<string>, policy: Policy, digest: Json -> string)
      returns (r: Result<seq<Mismatch>, Failure>)
    requires WellFormed(java) && WellFormed(rust)
    ensures r.Ok? ==> Readable(java, policy, digest) && Readable(rust, policy, digest)
                      && r.value == Report(java, rust, javaErrors, rustErrors, policy, digest) && |r.value| <= MAX_MISMATCHES
    ensures r == Err(Raised) ==> !Readable(java, policy, digest) || !Readable(rust, policy, digest)
    ensures r == Err(TooManySchemaErrors) ==> |javaErrors| > MAX_SCHEMA_ERRORS || |rustErrors| > MAX_SCHEMA_ERRORS
    ensures r == Err(TooManyMismatches) && Readable(java, policy, digest) && Readable(rust, policy, digest) ==>
              |Report(java, rust, javaErrors, rustErrors, policy, digest)| > MAX_MISMATCHES
    ensures WithinLimits(java) || WithinLimits(rust) ==> r != Err(QueueLimit)
  {
    hide SideReport, Diff, Peak, Compared, RecordsOf, VerdictOn, WellFormed, Depth, TextFits, Nodes;
    var left := CheckSide(java, javaErrors, policy, digest, []);
    if left.Err? {
      return Err(left.error);
    }
    var own: seq<Mismatch> := left.value;
    assert [] + SideReport(java, javaErrors, policy, digest) == SideReport(java, javaErrors, policy, digest);
    var both := CheckSide(rust, rustErrors, policy, digest, own);
    if both.Err? {
      return Err(both.error);
    }
    var jl, rl := Compared(java).value, Compared(rust).value;
    ComparedWellFormed(java);
    ComparedWellFormed(rust);
    ComparedNodes(java);
    ComparedNodes(rust);
    PeakBelowNodes(Entry(jl, rl, ""));
    var rows := Differences.Differences(jl, rl, "");
    match rows
    case Err(ComparisonQueue) => return Err(QueueLimit);
    case Err(Mismatches) => return Err(TooManyMismatches);
    case Ok(found) =>
      r := AddRows(both.value, found);
  }

  /** Nothing about one result on its own is reported. */
  ghost predicate Blameless(result: Json, errors: seq<string>, policy: Policy, digest: Json -> string)
  {
    && errors == [] && RecordsOf(result).Some?
    && forall x :: x in RecordsOf(result).value ==> VerdictOn(result, x, policy, digest) == Accepted
  }

  lemma {:induction false} NoRecordReport(result: Json, records: seq<Json>, policy: Policy, digest: Json -> string)
    ensures RecordReport(result, records, policy, digest) == [] <==>
            forall x :: x in records ==> VerdictOn(result, x, policy, digest) == Accepted
    decreases |records|
  {
    hide VerdictOn;
    if records != [] {
      var n := |records| - 1;
      NoRecordReport(result, records[..n], policy, digest);
      assert records == records[..n] + [records[n]];
    }
  }

  /** Two results match exactly when each is blameless and their compared parts are equal. */
  lemma {:induction false} MatchMeansEqual(java: Json, rust: Json, javaErrors: seq<string>, rustErrors: seq<string>, policy: Policy, digest: Json -> string)
    requires WellFormed(java) && WellFormed(rust)
    requires Compared(java).Some? && RecordsOf(java).Some? && Compared(rust).Some? && RecordsOf(rust).Some?
    ensures Report(java, rust, javaErrors, rustErrors, policy, digest) == [] <==>
            && Blameless(java, javaErrors, policy, digest) && Blameless(rust, rustErrors, policy, digest)
            && StructEq(Compared(java).value, Compared(rust).value)
  {
    hide VerdictOn, Diff, Compared, RecordsOf, StructEq, WellFormed;
    var e := Entry(Compared(java).value, Compared(rust).value, "");
    ComparedWellFormed(java);
    ComparedWellFormed(rust);
    NoDifferenceMeansEqual(e);
    NoRecordReport(java, RecordsOf(java).value, policy, digest);
    NoRecordReport(rust, RecordsOf(rust).value, policy, digest);
    assert |RowReport(Diff(e))| == |Diff(e)|;
    assert |SchemaReport(javaErrors)| == |javaErrors| && |SchemaReport(rustErrors)| == |rustErrors|;
  }

  /** The kind of a difference is the field of the result it lies in, however deep. */
  lemma {:induction false} KindNamesField(rest: string)
    ensures MismatchKind("/state_deltas" + rest) == StateKind && MismatchKind("/error" + rest) == ErrorKind
    ensures MismatchKind("/events" + rest) == EventKind && MismatchKind("/logs" + rest) == LogKind
  {
    var error, events, logs := "/error" + rest, "/events" + rest, "/logs" + rest;
    assert error[1] == 'e' && events[1] == 'e' && events[2] == 'v' && logs[1] == 'l';
    assert "/state_deltas"[1] == 's' && "/error"[2] == 'r';
  }

  lemma {:induction false} OtherKinds(rest: string)
    ensures MismatchKind("/exit_code" + rest) == ExitKind && MismatchKind("/status" + rest) == ExitKind
    ensures MismatchKind("/identity" + rest) == IdentityKind
    ensures rest == "" || rest[0] !in {'s', 'e', 'l', 'i'} ==> MismatchKind("/" + rest) == OutputKind
  {
    var exit, status, identity := "/exit_code" + rest, "/status" + rest, "/identity" + rest;
    assert exit[1] == 'e' && exit[2] == 'x' && status[1] == 's' && status[5] == 'u' && identity[1] == 'i';
    assert "/state_deltas"[1] == 's' && "/state_deltas"[5] == 'e' && "/error"[2] == 'r' && "/events"[2] == 'v';
    assert rest != "" ==> ("/" + rest)[1] == rest[0];
  }

  /** The positions of the records that are refused. */
  ghost function Refused(result: Json, records: seq<Json>, policy: Policy, digest: Json -> string): set<nat>
  {
    set i: nat | i < |records| && VerdictOn(result, records[i], policy, digest) != Accepted
  }

  /** The i-th record is found behind the refused ones before it. */
  ghost predicate FoundAt(result: Json, records: seq<Json>, policy: Policy, digest: Json -> string, report: seq<Mismatch>, i: nat)
    requires i < |records|
  {
    var at := |RecordReport(result, records[..i], policy, digest)|;
    at < |report| && report[at] == ForbiddenNormalization(records[i], VerdictOn(result, records[i], policy, digest))
  }

  /** A refused record is found behind the refused records before it, and nothing else is. */
  lemma {:induction false} RecordReportIs(result: Json, records: seq<Json>, policy: Policy, digest: Json -> string)
    ensures |RecordReport(result, records, policy, digest)| == |Refused(result, records, policy, digest)|
    ensures forall i :: i in Refused(result, records, policy, digest) ==>
              FoundAt(result, records, policy, digest, RecordReport(result, records, policy, digest), i)
    decreases |records|
  {
    hide VerdictOn, RecordReport, FoundAt;
    if records == [] {
      NoneRefused(result, policy, digest);
    } else {
      var n := |records| - 1;
      var low := records[..n];
      RecordReportIs(result, low, policy, digest);
      OneMoreRefused(result, records, policy, digest);
      LastFound(result, records, policy, digest);
      forall i | i in Refused(result, low, policy, digest)
        ensures FoundAt(result, records, policy, digest, RecordReport(result, records, policy, digest), i)
      {
        StillFound(result, records, policy, digest, i);
      }
    }
  }

  lemma {:induction false} LastFound(result: Json, records: seq<Json>, policy: Policy, digest: Json -> string)
    requires records != []
    ensures |records| - 1 in Refused(result, records, policy, digest) ==>
              FoundAt(result, records, policy, digest, RecordReport(result, records, policy, digest), |records| - 1)
  {
    hide VerdictOn, RecordReport;
    OneMoreRefused(result, records, policy, digest);
  }

  lemma {:induction false} StillFound(result: Json, records: seq<Json>, policy: Policy, digest: Json -> string, i: nat)
    requires i < |records| - 1
    requires FoundAt(result, records[..|records| - 1], policy, digest, RecordReport(result, records[..|records| - 1], policy, digest), i)
    ensures FoundAt(result, records, policy, digest, RecordReport(result, records, policy, digest), i)
  {
    hide VerdictOn, RecordReport;
    var low := records[..|records| - 1];
    OneMoreRefused(result, records, policy, digest);
    assert low[..i] == records[..i] && low[i] == records[i];
  }

  lemma {:induction false} NoneRefused(result: Json, policy: Policy, digest: Json -> string)
    ensures RecordReport(result, [], policy, digest) == [] && Refused(result, [], policy, digest) == {}
  {
  }

  lemma {:induction false} OneMoreRefused(result: Json, records: seq<Json>, policy: Policy, digest: Json -> string)
    requires records != []
    ensures var n := |records| - 1;
            var verdict := VerdictOn(result, records[n], policy, digest);
            && RecordReport(result, records, policy, digest)
               == RecordReport(result, records[..n], policy, digest) + (if verdict == Accepted then [] else [ForbiddenNormalization(records[n], verdict)])
            && Refused(result, records, policy, digest)
               == Refused(result, records[..n], policy, digest) + (if verdict == Accepted then {} else {n})
            && n !in Refused(result, records[..n], policy, digest)
  {
    hide VerdictOn;
  }

  /** What a report says: the schema errors and refused records of either result, and every place at which their compared parts differ. */
  lemma {:induction false} ReportSays(java: Json, rust: Json, javaErrors: seq<string>, rustErrors: seq<string>, policy: Policy, digest: Json -> string, x: Mismatch)
    requires Compared(java).Some? && RecordsOf(java).Some? && Compared(rust).Some? && RecordsOf(rust).Some?
    ensures x in Report(java, rust, javaErrors, rustErrors, policy, digest) <==>
              match x
              case SchemaMismatch(message) => message in javaErrors || message in rustErrors
              case ForbiddenNormalization(record, verdict) =>
                verdict != Accepted
                && ((record in RecordsOf(java).value && verdict == VerdictOn(java, record, policy, digest))
                    || (record in RecordsOf(rust).value && verdict == VerdictOn(rust, record, policy, digest)))
              case Difference(kind, row) =>
                row in Diff(Entry(Compared(java).value, Compared(rust).value, "")) && kind == MismatchKind(row.pointer)
  {
    hide VerdictOn, Compared, RecordsOf, Diff, MismatchKind, RecordReport;
    SideSays(java, javaErrors, policy, digest, x);
    SideSays(rust, rustErrors, policy, digest, x);
    var rows := Diff(Entry(Compared(java).value, Compared(rust).value, ""));
    assert x in RowReport(rows) <==> x.Difference? && x.row in rows && x.kind == MismatchKind(x.row.pointer) by {
      if x.Difference? && x.row in rows {
        var i :| 0 <= i < |rows| && rows[i] == x.row;
        assert RowReport(rows)[i] == Difference(MismatchKind(x.row.pointer), x.row);
      }
    }
  }

  lemma {:induction false} SideSays(result: Json, errors: seq<string>, policy: Policy, digest: Json -> string, x: Mismatch)
    requires RecordsOf(result).Some?
    ensures x in SideReport(result, errors, policy, digest) <==>
              match x
              case SchemaMismatch(message) => message in errors
              case ForbiddenNormalization(record, verdict) =>
                verdict != Accepted && record in RecordsOf(result).value && verdict == VerdictOn(result, record, policy, digest)
              case Difference(_, _) => false
  {
    hide VerdictOn, RecordsOf;
    RecordSays(result, RecordsOf(result).value, policy, digest, x);
    if x.SchemaMismatch? && x.message in errors {
      var i :| 0 <= i < |errors| && errors[i] == x.message;
      assert SchemaReport(errors)[i] == x;
    }
  }

  lemma {:induction false} RecordSays(result: Json, records: seq<Json>, policy: Policy, digest: Json -> string, x: Mismatch)
    ensures x in RecordReport(result, records, policy, digest) <==>
              x.ForbiddenNormalization? && x.verdict != Accepted && x.record in records && x.verdict == VerdictOn(result, x.record, policy, digest)
    decreases |records|
  {
    hide VerdictOn;
    if records != [] {
      var n := |records| - 1;
      RecordSays(result, records[..n], policy, digest, x);
      assert records == records[..n] + [records[n]];
    }
  }

  // ---- exactly what masking hides -----------------------------------------------------------------------

  /**
    The values agree except at leaves the rewriting touches: containers of the same type with the
    same steps, equal leaves elsewhere.
   */
  ghost predicate AgreeOutside(a: Json, b: Json, base: string, f: Rewriting)
    decreases a
  {
    if Leaf(a) && Leaf(b) then f(Shown(base)).Some? || (SameType(a, b) && LeafEq(a, b))
    else
      && SameType(a, b)
      && (forall i :: 0 <= i < Arity(a) ==>
            Has(b, StepAt(a, i)) && AgreeOutside(ChildAt(a, i), Child(b, StepAt(a, i)), Extend(base, StepAt(a, i)), f))
      && (forall i :: 0 <= i < Arity(b) ==> Has(a, StepAt(b, i)))
  }

  lemma {:induction false} HasOfMask(v: Json, base: string, f: Rewriting, s: Step)
    requires !Leaf(v)
    ensures Has(Mask(v, base, f), s) == Has(v, s)
    ensures Has(v, s) ==> Child(Mask(v, base, f), s) == Mask(Child(v, s), Extend(base, s), f)
  {
    hide Mask;
    MaskContainer(v, base, f);
    PositionOfMask(v, base, f, s, 0);
  }

  /** Masked documents are equal exactly when the originals agree outside the mask. */
  lemma {:induction false} MaskedEqualMeansAgree(a: Json, b: Json, base: string, f: Rewriting)
    requires WellFormed(a) && WellFormed(b) && ReplacesByLeaves(f)
    ensures StructEq(Mask(a, base, f), Mask(b, base, f)) <==> AgreeOutside(a, b, base, f)
    decreases a
  {
    if !Leaf(a) && !Leaf(b) {
      forall i | 0 <= i < Arity(a) && Has(b, StepAt(a, i))
        ensures var c, d, next := ChildAt(a, i), Child(b, StepAt(a, i)), Extend(base, StepAt(a, i));
                StructEq(Mask(c, next, f), Mask(d, next, f)) <==> AgreeOutside(c, d, next, f)
      {
        MaskedEqualMeansAgree(ChildAt(a, i), Child(b, StepAt(a, i)), Extend(base, StepAt(a, i)), f);
      }
      MaskedContainers(a, b, base, f);
    } else {
      MaskedLeaves(a, b, base, f);
    }
  }

  lemma {:induction false} MaskedLeaves(a: Json, b: Json, base: string, f: Rewriting)
    requires (Leaf(a) || Leaf(b)) && ReplacesByLeaves(f)
    ensures StructEq(Mask(a, base, f), Mask(b, base, f)) <==> AgreeOutside(a, b, base, f)
  {
    hide Extend;
    if !Leaf(a) { MaskContainer(a, base, f); }
    if !Leaf(b) { MaskContainer(b, base, f); }
  }

  lemma {:induction false} MaskedContainers(a: Json, b: Json, base: string, f: Rewriting)
    requires !Leaf(a) && !Leaf(b)
    requires forall i :: 0 <= i < Arity(a) && Has(b, StepAt(a, i)) ==>
               var c, d, next := ChildAt(a, i), Child(b, StepAt(a, i)), Extend(base, StepAt(a, i));
               StructEq(Mask(c, next, f), Mask(d, next, f)) <==> AgreeOutside(c, d, next, f)
    ensures StructEq(Mask(a, base, f), Mask(b, base, f)) <==> AgreeOutside(a, b, base, f)
  {
    hide Mask, Extend;
    var x, y := Mask(a, base, f), Mask(b, base, f);
    MaskContainer(a, base, f);
    MaskContainer(b, base, f);
    forall i | 0 <= i < Arity(a)
      ensures Has(y, StepAt(x, i)) <==> Has(b, StepAt(a, i))
      ensures Has(b, StepAt(a, i)) ==>
              Child(y, StepAt(x, i)) == Mask(Child(b, StepAt(a, i)), Extend(base, StepAt(a, i)), f)
    {
      HasOfMask(b, base, f, StepAt(a, i));
    }
    forall i | 0 <= i < Arity(b) ensures Has(x, StepAt(y, i)) <==> Has(a, StepAt(b, i)) {
      HasOfMask(a, base, f, StepAt(b, i));
    }
  }

  /** The two values have the same containers with the same steps. */
  ghost predicate SameShape(a: Json, b: Json)
    decreases a
  {
    if Leaf(a) && Leaf(b) then true
    else
      && SameType(a, b)
      && (forall i :: 0 <= i < Arity(a) ==> Has(b, StepAt(a, i)) && SameShape(ChildAt(a, i), Child(b, StepAt(a, i))))
      && (forall i :: 0 <= i < Arity(b) ==> Has(a, StepAt(b, i)))
  }

  /** Leaves with one pointer are equal, unless the rewriting touches that pointer. */
  ghost predicate LeavesAgree(a: seq<(string, Json)>, b: seq<(string, Json)>, f: Rewriting)
  {
    forall x, y :: x in a && y in b && x.0 == y.0 && f(x.0).None? ==> SameType(x.1, y.1) && LeafEq(x.1, y.1)
  }

  /** Agreement outside the mask, leaf by leaf. */
  lemma {:induction false} AgreementByLeaves(a: Json, b: Json, base: string, f: Rewriting)
    requires WellFormed(a) && WellFormed(b)
    ensures AgreeOutside(a, b, base, f) <==> SameShape(a, b) && LeavesAgree(LeafPointers(a, base), LeafPointers(b, base), f)
    decreases a
  {
    hide Extend;
    if Leaf(a) && Leaf(b) {
      assert (Shown(base), a) in LeafPointers(a, base) && (Shown(base), b) in LeafPointers(b, base);
    } else if SameType(a, b) {
      forall i | 0 <= i < Arity(a) && Has(b, StepAt(a, i))
        ensures var c, d, next := ChildAt(a, i), Child(b, StepAt(a, i)), Extend(base, StepAt(a, i));
                AgreeOutside(c, d, next, f) <==> SameShape(c, d) && LeavesAgree(LeafPointers(c, next), LeafPointers(d, next), f)
      {
        AgreementByLeaves(ChildAt(a, i), Child(b, StepAt(a, i)), Extend(base, StepAt(a, i)), f);
      }
      if SameShape(a, b) { LeavesAgreeByChild(a, b, base, f); }
      AgreementAtContainer(a, b, base, f);
    }
  }

  lemma {:induction false} AgreementAtContainer(a: Json, b: Json, base: string, f: Rewriting)
    requires !Leaf(a) && SameType(a, b)
    requires forall i :: 0 <= i < Arity(a) && Has(b, StepAt(a, i)) ==>
               var c, d, next := ChildAt(a, i), Child(b, StepAt(a, i)), Extend(base, StepAt(a, i));
               AgreeOutside(c, d, next, f) <==> SameShape(c, d) && LeavesAgree(LeafPointers(c, next), LeafPointers(d, next), f)
    requires SameShape(a, b) ==>
               (LeavesAgree(LeafPointers(a, base), LeafPointers(b, base), f) <==>
                forall i :: 0 <= i < Arity(a) ==>
                  LeavesAgree(LeafPointers(ChildAt(a, i), Extend(base, StepAt(a, i))), LeafPointers(Child(b, StepAt(a, i)), Extend(base, StepAt(a, i))), f))
    ensures AgreeOutside(a, b, base, f) <==> SameShape(a, b) && LeavesAgree(LeafPointers(a, base), LeafPointers(b, base), f)
  {
    hide LeafPointers, Extend, LeavesAgree;
  }

  lemma {:induction false} ChildLeavesAgree(a: Json, b: Json, base: string, f: Rewriting, i: nat)
    requires WellFormed(b) && !Leaf(a) && !Leaf(b) && i < Arity(a) && Has(b, StepAt(a, i))
    requires LeavesAgree(LeafPointers(a, base), LeafPointers(b, base), f)
    ensures var next := Extend(base, StepAt(a, i));
            LeavesAgree(LeafPointers(ChildAt(a, i), next), LeafPointers(Child(b, StepAt(a, i)), next), f)
  {
    hide LeafPointers, SameType, LeafEq, Extend;
    var next := Extend(base, StepAt(a, i));
    var at := Position(b, StepAt(a, i)).value;
    forall x, y | x in LeafPointers(ChildAt(a, i), next) && y in LeafPointers(Child(b, StepAt(a, i)), next) && x.0 == y.0 && f(x.0).None?
      ensures SameType(x.1, y.1) && LeafEq(x.1, y.1)
    {
      InParentLeaves(a, base, i, x);
      InParentLeaves(b, base, at, y);
    }
  }

  lemma {:induction false} InParentLeaves(v: Json, base: string, i: nat, x: (string, Json))
    requires !Leaf(v) && i < Arity(v) && x in LeafPointers(ChildAt(v, i), Extend(base, StepAt(v, i)))
    ensures x in LeafPointers(v, base)
  {
    LeavesFromChild(v, base, 0, i, x);
  }

  lemma {:induction false} SharedPointerSharesChild(a: Json, b: Json, base: string, x: (string, Json), y: (string, Json)) returns (i: nat)
    requires WellFormed(a) && WellFormed(b) && !Leaf(a) && !Leaf(b)
    requires forall j :: 0 <= j < Arity(a) ==> Has(b, StepAt(a, j))
    requires x in LeafPointers(a, base) && y in LeafPointers(b, base) && x.0 == y.0
    ensures i < Arity(a)
    ensures x in LeafPointers(ChildAt(a, i), Extend(base, StepAt(a, i)))
    ensures y in LeafPointers(Child(b, StepAt(a, i)), Extend(base, StepAt(a, i)))
  {
    hide Below, Extend;
    i := ChildOfLeaf(a, base, 0, x);
    var k := ChildOfLeaf(b, base, 0, y);
    LeafIsBelow(ChildAt(a, i), Extend(base, StepAt(a, i)), x);
    LeafIsBelow(ChildAt(b, k), Extend(base, StepAt(b, k)), y);
    var at := Position(b, StepAt(a, i)).value;
    assert StepAt(b, at) == StepAt(a, i);
    if k != at {
      ChildPointersDiffer(b, base, at, k, x.0, y.0);
    }
  }

  lemma {:induction false} LeavesAgreeByChild(a: Json, b: Json, base: string, f: Rewriting)
    requires WellFormed(a) && WellFormed(b) && !Leaf(a) && !Leaf(b)
    requires forall j :: 0 <= j < Arity(a) ==> Has(b, StepAt(a, j))
    ensures LeavesAgree(LeafPointers(a, base), LeafPointers(b, base), f) <==>
            forall i :: 0 <= i < Arity(a) ==>
              LeavesAgree(LeafPointers(ChildAt(a, i), Extend(base, StepAt(a, i))), LeafPointers(Child(b, StepAt(a, i)), Extend(base, StepAt(a, i))), f)
  {
    hide LeafPointers, SameType, LeafEq, Extend;
    if LeavesAgree(LeafPointers(a, base), LeafPointers(b, base), f) {
      forall i | 0 <= i < Arity(a)
        ensures LeavesAgree(LeafPointers(ChildAt(a, i), Extend(base, StepAt(a, i))), LeafPointers(Child(b, StepAt(a, i)), Extend(base, StepAt(a, i))), f)
      {
        ChildLeavesAgree(a, b, base, f, i);
      }
    }
    if forall i :: 0 <= i < Arity(a) ==>
         LeavesAgree(LeafPointers(ChildAt(a, i), Extend(base, StepAt(a, i))), LeafPointers(Child(b, StepAt(a, i)), Extend(base, StepAt(a, i))), f)
    {
      forall x, y | x in LeafPointers(a, base) && y in LeafPointers(b, base) && x.0 == y.0 && f(x.0).None?
        ensures SameType(x.1, y.1) && LeafEq(x.1, y.1)
      {
        var i := SharedPointerSharesChild(a, b, base, x, y);
        assert LeavesAgree(LeafPointers(ChildAt(a, i), Extend(base, StepAt(a, i))), LeafPointers(Child(b, StepAt(a, i)), Extend(base, StepAt(a, i))), f);
      }
    }
  }

  // ---- masking and dropping fields commute -----------------------------------------------------------------

  function MaskField(x: Field, base: string, f: Rewriting): Field
  {
    Field(x.key, Mask(x.value, Extend(base, Key(x.key)), f))
  }

  function MaskFields(fields: seq<Field>, base: string, f: Rewriting): seq<Field>
  {
    if fields == [] then [] else [MaskField(fields[0], base, f)] + MaskFields(fields[1..], base, f)
  }

  lemma {:induction false} MaskFieldsAt(fields: seq<Field>, base: string, f: Rewriting)
    ensures |MaskFields(fields, base, f)| == |fields|
    ensures forall i :: 0 <= i < |fields| ==> MaskFields(fields, base, f)[i] == MaskField(fields[i], base, f)
  {
    hide MaskField;
    if fields != [] { MaskFieldsAt(fields[1..], base, f); }
  }

  lemma {:induction false} MaskObject(fields: seq<Field>, base: string, f: Rewriting)
    ensures Mask(Obj(fields), base, f) == Obj(MaskFields(fields, base, f))
  {
    var v, w := Mask(Obj(fields), base, f), Obj(MaskFields(fields, base, f));
    MaskContainer(Obj(fields), base, f);
    MaskFieldsAt(fields, base, f);
    forall i | 0 <= i < |fields| ensures StepAt(w, i) == StepAt(v, i) && ChildAt(w, i) == ChildAt(v, i) {
      assert StepAt(Obj(fields), i) == Key(fields[i].key) && ChildAt(Obj(fields), i) == fields[i].value;
      assert w.fields[i] == MaskField(fields[i], base, f);
    }
    SameChildren(v, w);
  }

  lemma {:induction false} WithoutOfMasked(fields: seq<Field>, keys: set<string>, base: string, f: Rewriting)
    ensures Without(MaskFields(fields, base, f), keys) == MaskFields(Without(fields, keys), base, f)
  {
    if fields != [] {
      WithoutOfMasked(fields[1..], keys, base, f);
      var m := MaskFields(fields, base, f);
      assert m[0] == MaskField(fields[0], base, f) && m[1..] == MaskFields(fields[1..], base, f);
      if fields[0].key in keys {
        assert Without(fields, keys) == Without(fields[1..], keys);
      } else {
        assert Without(fields, keys)[0] == fields[0] && Without(fields, keys)[1..] == Without(fields[1..], keys);
      }
    }
  }

  lemma {:induction false} MaskWithout(fields: seq<Field>, keys: set<string>, base: string, f: Rewriting)
    ensures Mask(Obj(fields), base, f).Obj?
    ensures Without(Mask(Obj(fields), base, f).fields, keys) == Mask(Obj(Without(fields, keys)), base, f).fields
  {
    MaskObject(fields, base, f);
    MaskObject(Without(fields, keys), base, f);
    WithoutOfMasked(fields, keys, base, f);
  }

  lemma {:induction false} MaskWithChild(v: Json, i: nat, c: Json, base: string, f: Rewriting)
    requires i < Arity(v)
    ensures Arity(Mask(v, base, f)) == Arity(v)
    ensures Mask(WithChild(v, i, c), base, f) == WithChild(Mask(v, base, f), i, Mask(c, Extend(base, StepAt(v, i)), f))
  {
    var w := WithChild(v, i, c);
    MaskContainer(v, base, f);
    MaskContainer(w, base, f);
    SameChildren(Mask(w, base, f), WithChild(Mask(v, base, f), i, Mask(c, Extend(base, StepAt(v, i)), f)));
  }

  /** The compared part of a masked result is the masked compared part. */
  lemma {:induction false} ComparedOfMask(v: Json, f: Rewriting)
    requires v.Obj? && Compared(v).Some? && ReplacesByLeaves(f)
    ensures Compared(Mask(v, "", f)) == Some(Mask(Compared(v).value, "", f))
  {
    hide Mask, Extend;
    var m := Mask(v, "", f);
    var kept := Obj(Without(v.fields, IGNORED));
    MaskWithout(v.fields, IGNORED, "", f);
    var keptMask := Obj(Without(m.fields, IGNORED));
    MaskContainer(kept, "", f);
    assert keptMask == Mask(kept, "", f);
    PositionOfMask(kept, "", f, Key("identity"), 0);
    match Position(kept, Key("identity"))
    case None =>
    case Some(i) =>
      var c := ChildAt(kept, i);
      var next := Extend("", StepAt(kept, i));
      MaskWithout(c.fields, UNCOMPARED_IDENTITY, next, f);
      var d := Obj(Without(c.fields, UNCOMPARED_IDENTITY));
      MaskContainer(d, next, f);
      MaskWithChild(kept, i, d, "", f);
  }

  lemma {:induction false} WithoutIgnoresValue(fields: seq<Field>, at: nat, x: Json, keys: set<string>)
    requires at < |fields| && fields[at].key in keys
    ensures Without(fields[at := Field(fields[at].key, x)], keys) == Without(fields, keys)
    decreases |fields|
  {
    var g := fields[at := Field(fields[at].key, x)];
    if at == 0 {
      assert g[1..] == fields[1..];
    } else {
      assert g[1..] == fields[1..][at - 1 := Field(fields[at].key, x)];
      WithoutIgnoresValue(fields[1..], at - 1, x, keys);
    }
  }

  /** The log itself is never compared. */
  lemma {:induction false} ComparedIgnoresLog(doc: Json, records: seq<Json>)
    requires HasLog(doc)
    ensures Compared(Logged(doc, records)) == Compared(doc)
  {
    var at := Position(doc, Key(APPLIED)).value;
    assert StepAt(doc, at) == Key(APPLIED);
    WithoutIgnoresValue(doc.fields, at, Arr(Log(doc) + records), IGNORED);
  }

  /** A successful run shows the comparison the combined masking of what it would have compared. */
  lemma {:induction false} ComparedAfterRun(doc: Json, requested: seq<string>, policy: Policy, digest: Json -> string)
    requires WellFormed(doc) && HasLog(doc) && PolicyOk(policy) && Compared(doc).Some?
    requires ApplyAll(doc, requested, policy, digest).refusal.None?
    ensures Compared(ApplyAll(doc, requested, policy, digest).doc)
         == Some(Mask(Compared(doc).value, "", Combined(requested, policy)))
    decreases |requested|
  {
    hide WellFormed, HasLog, LeafPointers, ApplyRule, Mask, Compared, Logged, Records;
    if requested == [] {
      MaskNothing(Compared(doc).value, "", Combined(requested, policy));
    } else {
      var id := requested[0];
      RuleSucceeds(doc, id, policy, digest);
      var f := RuleRewriting(policy[id]);
      var next := Masked(doc, id, policy[id], digest);
      MaskedKeepsShape(doc, id, policy[id], digest);
      MaskHasLog(doc, f);
      LogInObject(doc);
      ComparedOfMask(doc, f);
      ComparedIgnoresLog(Mask(doc, "", f), Records(LeafPointers(doc, ""), id, policy[id], digest));
      ComparedAfterRun(next, requested[1..], policy, digest);
      MaskTwice(Compared(doc).value, "", f, Combined(requested[1..], policy));
    }
  }

  /**
    Normalisation hides from the comparison exactly what the requested rules allow: two normalised
    results show no difference if and only if the originals, in the compared fields, have the same
    shape and agree at every leaf that no requested rule may touch.
   */
  lemma {:induction false} MaskingHidesExactlyAllowedLeaves(a: Json, b: Json, requested: seq<string>, policy: Policy, digest: Json -> string)
    requires WellFormed(a) && WellFormed(b) && HasLog(a) && HasLog(b) && PolicyOk(policy)
    requires Compared(a).Some? && Compared(b).Some?
    requires ApplyAll(a, requested, policy, digest).refusal.None? && ApplyAll(b, requested, policy, digest).refusal.None?
    ensures var x, y := Compared(ApplyAll(a, requested, policy, digest).doc), Compared(ApplyAll(b, requested, policy, digest).doc);
            var f := Combined(requested, policy);
            && x.Some? && y.Some?
            && (Diff(Entry(x.value, y.value, "")) == [] <==>
                SameShape(Compared(a).value, Compared(b).value)
                && LeavesAgree(LeafPointers(Compared(a).value, ""), LeafPointers(Compared(b).value, ""), f))
  {
    hide WellFormed, HasLog, ApplyAll, Mask, Compared, LeafPointers, Diff, StructEq, AgreeOutside, LeavesAgree, SameShape;
    var f := Combined(requested, policy);
    var p, q := Compared(a).value, Compared(b).value;
    ComparedAfterRun(a, requested, policy, digest);
    ComparedAfterRun(b, requested, policy, digest);
    ComparedWellFormed(a);
    ComparedWellFormed(b);
    CombinedByLeaves(requested, policy);
    MaskWellFormed(p, "", f);
    MaskWellFormed(q, "", f);
    NoDifferenceMeansEqual(Entry(Mask(p, "", f), Mask(q, "", f), ""));
    MaskedEqualMeansAgree(p, q, "", f);
    AgreementByLeaves(p, q, "", f);
  }

  lemma {:induction false} RecordsAreLog(doc: Json)
    requires HasLog(doc)
    ensures RecordsOf(doc) == Some(Log(doc))
  {
  }

  lemma {:induction false} BlamelessAfterRun(doc: Json, requested: seq<string>, policy: Policy, digest: Json -> string)
    requires WellFormed(doc) && HasLog(doc) && Log(doc) == [] && PolicyOk(policy) && AvoidsLog(requested, policy)
    requires ApplyAll(doc, requested, policy, digest).refusal.None?
    ensures Blameless(ApplyAll(doc, requested, policy, digest).doc, [], policy, digest) <==> RecordsWillHold(doc, requested, policy)
  {
    hide WellFormed, ApplyAll, Validate, FieldOf, AvoidsLog, RecordsOf, RecordsWillHold, HasLog, Log;
    var final := ApplyAll(doc, requested, policy, digest).doc;
    WriterMeetsValidator(doc, requested, policy, digest);
    RecordsAreLog(final);
    var log := Log(final);
    if Blameless(final, [], policy, digest) {
      forall i | 0 <= i < |log| ensures Validate(log[i], FieldOf(final, "oracle_class"), final, policy, digest) == Accepted {
        assert log[i] in log;
      }
    }
  }

  /**
    From two raw results to the verdict on them: after both were normalised by the same requested
    rules, `compare` reports a match if and only if their records will hold and the raw results
    agree, in the compared fields, at every leaf no requested rule may touch.
   */
  lemma {:induction false} NormalizedResultsMatch(a: Json, b: Json, requested: seq<string>, policy: Policy, digest: Json -> string)
    requires WellFormed(a) && WellFormed(b) && HasLog(a) && HasLog(b) && Log(a) == [] && Log(b) == []
    requires PolicyOk(policy) && AvoidsLog(requested, policy) && Compared(a).Some? && Compared(b).Some?
    requires ApplyAll(a, requested, policy, digest).refusal.None? && ApplyAll(b, requested, policy, digest).refusal.None?
    ensures var x, y := ApplyAll(a, requested, policy, digest).doc, ApplyAll(b, requested, policy, digest).doc;
            && Compared(x).Some? && Compared(y).Some? && RecordsOf(x).Some? && RecordsOf(y).Some?
            && (Report(x, y, [], [], policy, digest) == [] <==>
                && RecordsWillHold(a, requested, policy) && RecordsWillHold(b, requested, policy)
                && SameShape(Compared(a).value, Compared(b).value)
                && LeavesAgree(LeafPointers(Compared(a).value, ""), LeafPointers(Compared(b).value, ""), Combined(requested, policy)))
  {
    hide WellFormed, HasLog, Log, ApplyAll, Compared, LeafPointers, Diff, StructEq, LeavesAgree, SameShape,
      RecordsOf, Blameless, RecordsWillHold, AvoidsLog, Report, Combined;
    var x, y := ApplyAll(a, requested, policy, digest).doc, ApplyAll(b, requested, policy, digest).doc;
    MaskingHidesExactlyAllowedLeaves(a, b, requested, policy, digest);
    BlamelessAfterRun(a, requested, policy, digest);
    BlamelessAfterRun(b, requested, policy, digest);
    FinalWellFormed(a, requested, policy, digest);
    FinalWellFormed(b, requested, policy, digest);
    RecordsAreLog(x);
    RecordsAreLog(y);
    MatchMeansEqual(x, y, [], [], policy, digest);
    ComparedWellFormed(x);
    ComparedWellFormed(y);
    NoDifferenceMeansEqual(Entry(Compared(x).value, Compared(y).value, ""));
  }
}
