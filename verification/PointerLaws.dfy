/** What the parts of a pointer select, and what storing at a pointer does, said without the walk itself. */
module PointerLaws {
  import opened Outcomes
  import opened Text
  import opened Json
  import opened Pointer

  // ---- the parts of a pointer -------------------------------------------------------------------------

  function Joined(parts: seq<string>): string
  {
    if parts == [] then "" else "/" + parts[0] + Joined(parts[1..])
  }

  /** A pointer made of parts has those parts. */
  lemma {:induction false} PartsOfJoined(parts: seq<string>)
    requires forall i :: 0 <= i < |parts| ==> '/' !in parts[i]
    ensures Parts(Joined(parts)) == parts
  {
    SplitJoined("", parts);
    assert "" + Joined(parts) == Joined(parts);
  }

  lemma {:induction false} SplitJoined(head: string, parts: seq<string>)
    requires '/' !in head && forall i :: 0 <= i < |parts| ==> '/' !in parts[i]
    ensures Split(head + Joined(parts), '/') == [head] + parts
    decreases |parts|
  {
    SplitAfterPrefix(head, Joined(parts), '/');
    if parts == [] {
      assert Split("", '/') == [""] && head + "" == head;
    } else {
      var rest := parts[0] + Joined(parts[1..]);
      assert Joined(parts)[1..] == rest;
      SplitJoined(parts[0], parts[1..]);
      assert [parts[0]] + parts[1..] == parts;
      assert head + "" == head;
    }
  }

  // ---- list indices ---------------------------------------------------------------------------------------

  predicate Blank(s: string) { forall i :: 0 <= i < |s| ==> IsSpace(s[i]) }

  /** Stripping takes the white space around a text and nothing else. */
  lemma {:induction false} StripTakesSpace(left: string, s: string, right: string)
    requires Blank(left) && Blank(right)
    requires s != "" ==> !IsSpace(s[0]) && !IsSpace(s[|s| - 1])
    ensures Strip(left + s + right) == s
  {
    hide IsSpace;
    StripLeft(left, s + right);
    assert left + (s + right) == left + s + right;
    if s == "" {
      StripLeft(right, "");
      assert s + right == right + "";
    } else {
      StripRight(s, right);
    }
  }

  lemma {:induction false} StripLeft(left: string, t: string)
    requires Blank(left)
    ensures Strip(left + t) == Strip(t)
    decreases |left|
  {
    hide IsSpace;
    if left == "" {
      assert left + t == t;
    } else {
      assert (left + t)[0] == left[0] && (left + t)[1..] == left[1..] + t;
      StripLeft(left[1..], t);
    }
  }

  lemma {:induction false} StripRight(s: string, right: string)
    requires Blank(right) && s != "" && !IsSpace(s[0]) && !IsSpace(s[|s| - 1])
    ensures Strip(s + right) == s
    decreases |right|
  {
    hide IsSpace;
    var t := s + right;
    assert t[0] == s[0];
    if right == "" {
      assert t == s;
    } else {
      assert t[|t| - 1] == right[|right| - 1] && t[..|t| - 1] == s + right[..|right| - 1];
      StripRight(s, right[..|right| - 1]);
    }
  }

  /** Digits, first and last one included, with no two underscores together. */
  predicate Grouped(s: string)
  {
    && s != "" && IsDigit(s[0]) && IsDigit(s[|s| - 1])
    && (forall i :: 0 <= i < |s| ==> IsDigit(s[i]) || s[i] == '_')
    && forall i :: 0 < i < |s| ==> IsDigit(s[i - 1]) || IsDigit(s[i])
  }

  /** The number its digits spell, the underscores left out. */
  function Spelled(s: string): int
  {
    if s == "" then 0
    else
      var c := s[|s| - 1];
      if IsDigit(c) then 10 * Spelled(s[..|s| - 1]) + (c as int - '0' as int) else Spelled(s[..|s| - 1])
  }

  lemma {:induction false} MagnitudeIsSpelled(s: string)
    ensures Magnitude(s).Some? <==> Grouped(s)
    ensures Grouped(s) ==> Magnitude(s).value == Spelled(s)
    decreases |s|
  {
    if |s| >= 2 && IsDigit(s[|s| - 1]) {
      var n := |s| - 1;
      var low := if s[n - 1] == '_' then s[..n - 1] else s[..n];
      MagnitudeIsSpelled(low);
      GroupedWithout(s);
      assert s[..n][..n - 1] == s[..n - 1];
    } else if |s| == 1 {
      assert s[..0] == "";
    }
  }

  /** Taking the last digit, and an underscore before it, leaves digits grouped. */
  lemma {:induction false} GroupedWithout(s: string)
    requires |s| >= 2 && IsDigit(s[|s| - 1])
    ensures Grouped(s) <==> Grouped(if s[|s| - 2] == '_' then s[..|s| - 2] else s[..|s| - 1])
  {
    hide IsDigit;
    assert IsDigit('_') == false by { NoDigit(); }
    var low := if s[|s| - 2] == '_' then s[..|s| - 2] else s[..|s| - 1];
    if Grouped(s) {
      assert s[|s| - 2] == '_' ==> |s| > 2 && IsDigit(s[|s| - 3]);
      assert Grouped(low);
    }
    if Grouped(low) {
      forall i | 0 <= i < |s| ensures IsDigit(s[i]) || s[i] == '_' { assert i < |low| ==> s[i] == low[i]; }
      forall i | 0 < i < |s| ensures IsDigit(s[i - 1]) || IsDigit(s[i]) {
        assert i < |low| ==> s[i] == low[i] && s[i - 1] == low[i - 1];
        assert s[|low| - 1] == low[|low| - 1];
      }
    }
  }

  lemma {:induction false} NoDigit()
    ensures !IsDigit('_')
  {
  }

  /** `int(token)`: white space around, a sign or none, and grouped digits. */
  lemma {:induction false} ParseIntReads(left: string, sign: string, digits: string, right: string)
    requires Blank(left) && Blank(right) && sign in {"", "+", "-"} && Grouped(digits)
    ensures ParseInt(left + sign + digits + right) == Some(if sign == "-" then -Spelled(digits) else Spelled(digits))
  {
    hide Magnitude, Strip, Grouped, Spelled;
    var s := sign + digits;
    EndsAreNoSpace(sign, digits);
    StripTakesSpace(left, s, right);
    assert left + s + right == left + sign + digits + right;
    MagnitudeIsSpelled(digits);
    assert sign != "" ==> s[0] == sign[0] && s[1..] == digits;
    assert sign == "" ==> s == digits;
  }

  lemma {:induction false} EndsAreNoSpace(sign: string, digits: string)
    requires sign in {"", "+", "-"} && Grouped(digits)
    ensures var s := sign + digits;
            s != "" && !IsSpace(s[0]) && !IsSpace(s[|s| - 1]) && (sign == "" ==> s[0] != '-' && s[0] != '+')
  {
    var s := sign + digits;
    assert s[|s| - 1] == digits[|digits| - 1];
    assert s[0] == if sign == "" then digits[0] else sign[0];
  }

  /** In a list a part that reads as a number selects from the front, or from the back if it is negative; outside it, nothing. */
  lemma {:induction false} ListIndex(v: Json, left: string, sign: string, digits: string, right: string)
    requires v.Arr? && Blank(left) && Blank(right) && sign in {"", "+", "-"} && Grouped(digits)
    ensures var n, k := |v.items|, Spelled(digits);
            Select(v, left + sign + digits + right) ==
              if sign == "-" && k > 0 then (if k <= n then Some(n - k) else None) else if k < n then Some(k) else None
  {
    hide ParseInt, Grouped, Spelled, Replace;
    var part := left + sign + digits + right;
    forall i | 0 <= i < |part| ensures part[i] != '~' { NoTilde(left, sign, digits, right, i); }
    UnescapePlain(part);
    SpelledIsNatural(digits);
    ParseIntReads(left, sign, digits, right);
  }

  lemma {:induction false} SpelledIsNatural(s: string)
    ensures Spelled(s) >= 0
  {
    if s != "" { SpelledIsNatural(s[..|s| - 1]); }
  }

  lemma {:induction false} NoTilde(left: string, sign: string, digits: string, right: string, i: nat)
    requires Blank(left) && Blank(right) && sign in {"", "+", "-"} && Grouped(digits) && i < |left + sign + digits + right|
    ensures (left + sign + digits + right)[i] != '~'
  {
    var a, b, c := |left|, |left| + |sign|, |left| + |sign| + |digits|;
    var t := left + sign + digits + right;
    assert t[i] == if i < a then left[i] else if i < b then sign[i - a] else if i < c then digits[i - b] else right[i - c];
  }

  // ---- storing ----------------------------------------------------------------------------------------------

  /** What was stored at a pointer is found there. */
  lemma {:induction false} StoredIsFound(v: Json, parts: seq<string>, x: Json)
    requires Store(v, parts, x).Some?
    ensures Walk(Store(v, parts, x).value, parts) == Some(x)
    decreases |parts|
  {
    hide Select;
    var w := Store(v, parts, x).value;
    if |parts| == 1 {
      PutSelects(v, parts[0], x);
      assert parts[1..] == [];
    } else {
      var i := Select(v, parts[0]).value;
      StoredIsFound(ChildAt(v, i), parts[1..], x);
      SelectOfWithChild(v, i, Store(ChildAt(v, i), parts[1..], x).value, parts[0]);
    }
  }

  lemma {:induction false} PutSelects(v: Json, part: string, x: Json)
    requires Put(v, part, x).Some?
    ensures var w := Put(v, part, x).value;
            Select(w, part).Some? && ChildAt(w, Select(w, part).value) == x
  {
    hide ParseInt, Unescape;
    match Select(v, part)
    case Some(i) => SelectOfWithChild(v, i, x, part);
    case None => Appended(v.fields, Field(Unescape(part), x), 0);
  }

  lemma {:induction false} SelectOfWithChild(v: Json, i: nat, c: Json, part: string)
    requires i < Arity(v)
    ensures Select(WithChild(v, i, c), part) == Select(v, part)
  {
    hide ParseInt, Unescape;
    if v.Obj? { SamePosition(v, WithChild(v, i, c), Key(Unescape(part)), 0); }
  }

  lemma {:induction false} SamePosition(v: Json, w: Json, s: Step, i: nat)
    requires i <= Arity(v) == Arity(w) && forall j :: 0 <= j < Arity(v) ==> StepAt(v, j) == StepAt(w, j)
    ensures Position(v, s, i) == Position(w, s, i)
    decreases Arity(v) - i
  {
    if i < Arity(v) && StepAt(v, i) != s { SamePosition(v, w, s, i + 1); }
  }

  lemma {:induction false} Appended(fields: seq<Field>, f: Field, i: nat)
    requires i <= |fields| && forall j :: i <= j < |fields| ==> StepAt(Obj(fields), j) != Key(f.key)
    ensures Position(Obj(fields + [f]), Key(f.key), i) == Some(|fields|)
    decreases |fields| - i
  {
    if i < |fields| {
      assert StepAt(Obj(fields), i) == StepAt(Obj(fields + [f]), i);
      Appended(fields, f, i + 1);
    }
  }

  /**
    Storing fails if and only if there are no parts, the container they lead to is not there, or that is
    no object and has no such child.
   */
  lemma {:induction false} StoreFailsIff(v: Json, parts: seq<string>, x: Json)
    ensures Store(v, parts, x).None? <==>
              || parts == []
              || var at := Walk(v, parts[..|parts| - 1]);
                 at.None? || (!at.value.Obj? && Select(at.value, parts[|parts| - 1]).None?)
    decreases |parts|
  {
    hide Select;
    if |parts| == 1 {
      assert parts[..0] == [];
    } else if |parts| > 1 {
      assert parts[..|parts| - 1][0] == parts[0];
      match Select(v, parts[0])
      case None =>
      case Some(i) =>
        StoreFailsIff(ChildAt(v, i), parts[1..], x);
        assert parts[1..][..|parts| - 2] == parts[..|parts| - 1][1..];
    }
  }

  /** A pointer that parts from the stored one at an existing child finds what it found before. */
  lemma {:induction false} StoreElsewhere(v: Json, parts: seq<string>, x: Json, other: seq<string>)
    requires Store(v, parts, x).Some? && Branches(v, parts, other)
    ensures Walk(Store(v, parts, x).value, other) == Walk(v, other)
    decreases |parts|
  {
    hide Select;
    var i := Select(v, other[0]).value;
    if |parts| == 1 {
      PutKeeps(v, parts[0], x, other[0]);
    } else {
      var k := Select(v, parts[0]).value;
      var c := Store(ChildAt(v, k), parts[1..], x).value;
      SelectOfWithChild(v, k, c, other[0]);
      if i == k { StoreElsewhere(ChildAt(v, k), parts[1..], x, other[1..]); }
    }
  }

  /** The ways of two pointers part: after some common children the other one goes to a child of its own. */
  predicate Branches(v: Json, parts: seq<string>, other: seq<string>)
    decreases |parts|
  {
    && parts != [] && other != [] && Select(v, other[0]).Some?
    && (Select(v, parts[0]) == Select(v, other[0]) ==>
          |parts| > 1 && Branches(ChildAt(v, Select(v, other[0]).value), parts[1..], other[1..]))
  }

  lemma {:induction false} PutKeeps(v: Json, part: string, x: Json, other: string)
    requires Put(v, part, x).Some? && Select(v, other).Some? && Select(v, part) != Select(v, other)
    ensures Select(Put(v, part, x).value, other) == Select(v, other)
    ensures Select(v, other).value < Arity(Put(v, part, x).value)
    ensures ChildAt(Put(v, part, x).value, Select(v, other).value) == ChildAt(v, Select(v, other).value)
  {
    hide ParseInt, Unescape;
    match Select(v, part)
    case Some(i) => SelectOfWithChild(v, i, x, other);
    case None => Behind(v.fields, Field(Unescape(part), x), Key(Unescape(other)), 0);
  }

  lemma {:induction false} Behind(fields: seq<Field>, f: Field, s: Step, i: nat)
    requires i <= |fields| && Position(Obj(fields), s, i).Some?
    ensures Position(Obj(fields + [f]), s, i) == Position(Obj(fields), s, i)
    decreases |fields| - i
  {
    if StepAt(Obj(fields), i) != s { Behind(fields, f, s, i + 1); }
  }
}
