/** The limits of a document, said of the places in it. */
module LimitLaws {
  import opened Outcomes
  import opened Sorting
  import opened Text
  import opened Json
  import opened Limits

  /** Which child to go to, from the whole document on. */
  type Place = seq<nat>

  function At(v: Json, place: Place): Option<Json>
  {
    if place == [] then Some(v)
    else if place[0] >= Arity(v) then None
    else At(ChildAt(v, place[0]), place[1..])
  }

  lemma {:induction false} AtChild(v: Json, i: nat, rest: Place)
    requires i < Arity(v)
    ensures At(v, [i] + rest) == At(ChildAt(v, i), rest)
  {
    assert ([i] + rest)[1..] == rest;
  }

  /** A document is as deep as its longest place. */
  lemma {:induction false} DepthIsLongest(v: Json, d: nat)
    ensures Depth(v) <= d <==> forall place :: At(v, place).Some? ==> |place| < d
    decreases v
  {
    hide At, Depth;
    DepthOfChildren(v, d);
    Whole(v);
    if d > 0 {
      forall i | 0 <= i < Arity(v)
        ensures Depth(ChildAt(v, i)) <= d - 1 <==> forall rest :: At(ChildAt(v, i), rest).Some? ==> |rest| < d - 1
      {
        DepthIsLongest(ChildAt(v, i), d - 1);
      }
      if Depth(v) <= d {
        forall place | At(v, place).Some? ensures |place| < d {
          Descend(v, place);
          assert place != [] ==> |place[1..]| < d - 1;
        }
      }
      if forall place :: At(v, place).Some? ==> |place| < d {
        forall i, rest | 0 <= i < Arity(v) && At(ChildAt(v, i), rest).Some? ensures |rest| < d - 1 {
          AtChild(v, i, rest);
          assert |[i] + rest| < d;
        }
      }
    }
  }

  lemma {:induction false} Whole(v: Json)
    ensures At(v, []) == Some(v)
  {
  }

  lemma {:induction false} Descend(v: Json, place: Place)
    ensures At(v, place).Some? && place != [] ==> place[0] < Arity(v) && At(ChildAt(v, place[0]), place[1..]) == At(v, place)
  {
  }

  lemma {:induction false} DepthOfChildren(v: Json, d: nat)
    ensures Depth(v) <= d <==> d > 0 && forall i :: 0 <= i < Arity(v) ==> Depth(ChildAt(v, i)) <= d - 1
  {
    if d > 0 { DepthFromAtMost(v, 0, d - 1); }
  }

  /** Every string and every key at every place is short enough. */
  lemma {:induction false} TextsAtPlaces(v: Json)
    ensures TextFits(v) <==> forall place :: FitsAt(v, place)
    decreases v
  {
    hide FitsAt, TextFits, OwnTextFits;
    TextOfChildren(v);
    FitsAtChild(v);
    forall i | 0 <= i < Arity(v) ensures TextFits(ChildAt(v, i)) <==> forall rest :: FitsAt(ChildAt(v, i), rest) {
      TextsAtPlaces(ChildAt(v, i));
    }
    if OwnTextFits(v) && forall i :: 0 <= i < Arity(v) ==> forall rest :: FitsAt(ChildAt(v, i), rest) {
      forall place ensures FitsAt(v, place) { FitsByChild(v, place); }
    }
  }

  ghost predicate FitsAt(v: Json, place: Place) { At(v, place).Some? ==> OwnTextFits(At(v, place).value) }

  lemma {:induction false} FitsAtChild(v: Json)
    ensures FitsAt(v, []) <==> OwnTextFits(v)
    ensures forall i, rest :: 0 <= i < Arity(v) && FitsAt(v, [i] + rest) ==> FitsAt(ChildAt(v, i), rest)
  {
    hide At, OwnTextFits;
    Whole(v);
    forall i, rest | 0 <= i < Arity(v) && FitsAt(v, [i] + rest) ensures FitsAt(ChildAt(v, i), rest) { AtChild(v, i, rest); }
  }

  lemma {:induction false} FitsByChild(v: Json, place: Place)
    requires OwnTextFits(v) && forall i :: 0 <= i < Arity(v) ==> forall rest :: FitsAt(ChildAt(v, i), rest)
    ensures FitsAt(v, place)
  {
    hide At, OwnTextFits;
    Whole(v);
    Descend(v, place);
    assert place != [] && place[0] < Arity(v) ==> FitsAt(ChildAt(v, place[0]), place[1..]);
  }

  lemma {:induction false} TextOfChildren(v: Json)
    ensures TextFits(v) <==> OwnTextFits(v) && forall i :: 0 <= i < Arity(v) ==> TextFits(ChildAt(v, i))
  {
  }

  /** The nodes are the places: as many of them, each once. */
  lemma {:induction false} NodesArePlaces(v: Json) returns (places: seq<Place>)
    ensures |places| == Nodes(v) && Distinct(places)
    ensures forall place :: place in places <==> At(v, place).Some?
    decreases v, Arity(v) + 1
  {
    hide At;
    var below := PlacesFrom(v, 0);
    places := [[]] + below;
    Whole(v);
    forall place ensures place in places <==> At(v, place).Some? { Descend(v, place); }
  }

  lemma {:induction false} PlacesFrom(v: Json, i: nat) returns (places: seq<Place>)
    requires i <= Arity(v)
    ensures |places| == NodesFrom(v, i) && Distinct(places)
    ensures forall place :: place in places <==> place != [] && i <= place[0] && At(v, place).Some?
    decreases v, Arity(v) - i
  {
    hide At, Distinct, Nodes;
    if i == Arity(v) {
      places := [];
      assert Distinct(places) by { NoneDistinct(); }
      forall place ensures place !in places && !(place != [] && i <= place[0] && At(v, place).Some?) { Descend(v, place); }
    } else {
      var inner := NodesArePlaces(ChildAt(v, i));
      var here := Under(i, inner);
      var rest := PlacesFrom(v, i + 1);
      places := here + rest;
      BothDistinct(here, rest);
      forall place ensures place in places <==> place != [] && i <= place[0] && At(v, place).Some? {
        Descend(v, place);
        if place != [] && place[0] == i {
          assert place == [i] + place[1..];
          AtChild(v, i, place[1..]);
        }
      }
    }
  }

  lemma {:induction false} NoneDistinct()
    ensures Distinct<Place>([])
  {
  }

  /** The same places, one step further down. */
  lemma {:induction false} Under(i: nat, inner: seq<Place>) returns (here: seq<Place>)
    requires Distinct(inner)
    ensures |here| == |inner| && Distinct(here)
    ensures forall place :: place in here <==> place != [] && place[0] == i && place[1..] in inner
  {
    here := seq(|inner|, k requires 0 <= k < |inner| => [i] + inner[k]);
    forall k | 0 <= k < |inner| ensures here[k] != [] && here[k][0] == i && here[k][1..] == inner[k] {
      assert ([i] + inner[k])[1..] == inner[k];
    }
    forall place | place != [] && place[0] == i && place[1..] in inner ensures place in here {
      var k :| 0 <= k < |inner| && inner[k] == place[1..];
      assert place == [i] + place[1..] && here[k] == place;
    }
    forall j, k | 0 <= j < k < |here| ensures here[j] != here[k] { assert here[j][1..] != here[k][1..]; }
  }

  lemma {:induction false} BothDistinct(here: seq<Place>, rest: seq<Place>)
    requires Distinct(here) && Distinct(rest) && forall place :: place in here ==> place !in rest
    ensures Distinct(here + rest)
  {
    var all := here + rest;
    forall j, k | 0 <= j < k < |all| ensures all[j] != all[k] {
      assert j < |here| ==> all[j] in here;
      assert k >= |here| ==> all[k] in rest;
    }
  }

  /**
    Within the limits: no place is 64 steps down, there are at most 20000 of them, and no string or
    key at any of them takes more than 262144 bytes of UTF-8.
   */
  lemma {:induction false} WithinLimitsMeans(v: Json) returns (places: seq<Place>)
    ensures Distinct(places) && forall place :: place in places <==> At(v, place).Some?
    ensures WithinLimits(v) <==>
              && |places| <= 20000
              && forall place :: place in places ==>
                   && |place| < 64
                   && var x := At(v, place).value;
                      && (x.Str? ==> |Utf8(x.s)| <= 262144)
                      && (x.Obj? ==> forall i :: 0 <= i < |x.fields| ==> |Utf8(x.fields[i].key)| <= 262144)
  {
    hide At, Depth, Nodes, TextFits, Utf8;
    places := NodesArePlaces(v);
    DepthIsLongest(v, 64);
    TextsAtPlaces(v);
    assert forall place :: place in places ==> (FitsAt(v, place) <==> OwnTextFits(At(v, place).value));
  }
}
