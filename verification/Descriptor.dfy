/** The canonical form of a compiled descriptor set: its file blobs, sorted by name, re-encoded. */
module Descriptor {
  import opened Outcomes
  import opened Sorting
  import opened Wire

  datatype DescriptorError = Undecodable | Unnamed

  /** `field_values(data, 1, 2)` on decoded fields: the payloads of length-delimited fields 1. */
  function Blobs(fields: seq<WireField>): seq<bytes>
  {
    if fields == [] then []
    else
      var f := fields[0];
      (if f.number == 1 && f.wire == 2 && f.value.Bytes? then [f.value.b] else []) + Blobs(fields[1..])
  }

  /** The first field 1 of a blob, its name. */
  function NameOf(blob: bytes): Option<bytes>
  {
    match FieldsFrom(blob, 0)
    case Err(_) => None
    case Ok(fields) => if Blobs(fields) == [] then None else Some(Blobs(fields)[0])
  }

  function NameKey(blob: bytes): seq<int>
  {
    match NameOf(blob) case None => [] case Some(name) => name
  }

  function ByName(): (bytes, bytes) -> bool { (a, b) => LexLe(NameKey(a), NameKey(b)) }

  /** One re-encoded blob: key 1, wire type 2, length, payload. */
  function Frame(blob: bytes): bytes { Varint(10) + Varint(|blob|) + blob }

  function Encode(blobs: seq<bytes>): bytes
  {
    if blobs == [] then [] else Frame(blobs[0]) + Encode(blobs[1..])
  }

  predicate AllNamed(blobs: seq<bytes>) { forall i :: 0 <= i < |blobs| ==> NameOf(blobs[i]).Some? }

  /** The re-encoding of what the compiler wrote. */
  function Canonical(data: bytes): Result<bytes, DescriptorError>
  {
    match FieldsFrom(data, 0)
    case Err(_) => Err(Undecodable)
    case Ok(fields) =>
      if !AllNamed(Blobs(fields)) then Err(Unnamed) else Ok(Encode(Sort(Blobs(fields), ByName())))
  }

  /** The values of one field number, of one wire type or of any. */
  function Values(fields: seq<WireField>, number: nat, wire: Option<nat>): seq<Payload>
  {
    if fields == [] then []
    else (if Matches(fields[0], number, wire) then [fields[0].value] else []) + Values(fields[1..], number, wire)
  }

  predicate Matches(f: WireField, number: nat, wire: Option<nat>)
  {
    f.number == number && (wire.None? || f.wire == wire.value)
  }

  lemma {:induction false} ValuesFrom(fields: seq<WireField>, i: nat, number: nat, wire: Option<nat>)
    requires i < |fields|
    ensures Values(fields[i..], number, wire) ==
            (if Matches(fields[i], number, wire) then [fields[i].value] else []) + Values(fields[i + 1..], number, wire)
  {
    hide Matches;
    assert fields[i..][0] == fields[i] && fields[i..][1..] == fields[i + 1..];
  }

  lemma {:induction false} AllValues(fields: seq<WireField>, number: nat, wire: Option<nat>)
    ensures fields[0..] == fields && Values(fields[|fields|..], number, wire) == []
  {
  }

  /** `field_values`. */
  method FieldValues(data: bytes, number: nat, wire: Option<nat>) returns (r: Result<seq<Payload>, WireError>)
    ensures FieldsFrom(data, 0).Err? ==> r == Err(FieldsFrom(data, 0).error)
    ensures FieldsFrom(data, 0).Ok? ==> r == Ok(Values(FieldsFrom(data, 0).value, number, wire))
  {
    hide FieldsFrom, Values, Matches;
    var decoded := Fields(data);
    if decoded.Err? {
      return Err(decoded.error);
    }
    var fields := decoded.value;
    AllValues(fields, number, wire);
    var values: seq<Payload> := [];
    var i := 0;
    while i < |fields|
      invariant 0 <= i <= |fields|
      invariant Values(fields, number, wire) == values + Values(fields[i..], number, wire)
    {
      ValuesFrom(fields, i, number, wire);
      ghost var rest := Values(fields[i + 1..], number, wire);
      if Matches(fields[i], number, wire) {
        assert values + ([fields[i].value] + rest) == (values + [fields[i].value]) + rest;
        values := values + [fields[i].value];
      } else {
        assert [] + rest == rest;
      }
      i := i + 1;
    }
    assert values + [] == values;
    return Ok(values);
  }

  /** The byte strings among some values. */
  function BytesOf(values: seq<Payload>): seq<bytes>
  {
    if values == [] then [] else (if values[0].Bytes? then [values[0].b] else []) + BytesOf(values[1..])
  }

  /** Selecting field 1 of wire type 2 and selecting the blobs is the same. */
  lemma {:induction false} BlobsAreValues(fields: seq<WireField>)
    ensures BytesOf(Values(fields, 1, Some(2))) == Blobs(fields)
  {
    if fields != [] {
      BlobsAreValues(fields[1..]);
      var rest := Values(fields[1..], 1, Some(2));
      if Matches(fields[0], 1, Some(2)) { assert ([fields[0].value] + rest)[1..] == rest; } else { assert [] + rest == rest; }
    }
  }

  method JoinFrames(blobs: seq<bytes>) returns (out: bytes)
    ensures out == Encode(blobs)
  {
    hide Varint;
    out := [];
    var k := 0;
    while k < |blobs|
      invariant 0 <= k <= |blobs|
      invariant Encode(blobs) == out + Encode(blobs[k..])
    {
      assert blobs[k..][0] == blobs[k] && blobs[k..][1..] == blobs[k + 1..];
      var key := WriteVarint(10);
      var size := WriteVarint(|blobs[k]|);
      ghost var rest := Encode(blobs[k + 1..]);
      assert out + (Frame(blobs[k]) + rest) == (out + Frame(blobs[k])) + rest;
      out := out + (key + size + blobs[k]);
      k := k + 1;
    }
    assert out + [] == out;
  }

  /** `normalized_descriptor`, from the compiler's output on. */
  method NormalizedDescriptor(data: bytes) returns (r: Result<bytes, DescriptorError>)
    ensures r == Canonical(data)
  {
    hide FieldsFrom, NameOf, Encode, Blobs, Sort, Values, BytesOf;
    var values := FieldValues(data, 1, Some(2));
    if values.Err? {
      return Err(Undecodable);
    }
    BlobsAreValues(FieldsFrom(data, 0).value);
    var blobs := BytesOf(values.value);
    if !AllNamed(blobs) {
      return Err(Unnamed);
    }
    var out := JoinFrames(Sort(blobs, ByName()));
    return Ok(out);
  }

  // ---- re-encoding is lossless --------------------------------------------------------------------

  predicate Fits(blobs: seq<bytes>) { forall i :: 0 <= i < |blobs| ==> |blobs[i]| < Pow2(70) }

  /** A key of ten and a size that fits make a length-delimited field 1. */
  lemma {:induction false} FieldOne(data: bytes, pos: nat, at: nat, from: nat, n: nat)
    requires ReadVarint(data, pos, 0) == Ok(Read(10, at)) && ReadVarint(data, at, 0) == Ok(Read(n, from))
    requires from + n <= |data|
    ensures ReadField(data, pos) == Ok(Parsed(WireField(1, 2, Bytes(Slice(data, from, from + n))), from + n))
  {
    hide ReadVarint, Slice;
  }

  lemma {:induction false} Regroup(before: bytes, a: bytes, b: bytes, c: bytes, after: bytes)
    ensures before + (a + b + c) + after == before + a + (b + c + after)
    ensures before + (a + b + c) + after == (before + a) + b + (c + after)
    ensures before + (a + b + c) + after == (before + a + b) + c + after
  {
  }

  lemma {:induction false} FrameReads(before: bytes, blob: bytes, after: bytes)
    requires |blob| < Pow2(70)
    ensures var data := before + Frame(blob) + after;
            ReadField(data, |before|) == Ok(Parsed(WireField(1, 2, Bytes(blob)), |before| + |Frame(blob)|))
  {
    hide ReadVarint, Varint, Pow2, Slice, ReadField;
    var data := before + Frame(blob) + after;
    var key, size := Varint(10), Varint(|blob|);
    Regroup(before, key, size, blob, after);
    TenFits();
    VarintRoundTrip(before, 10, size + blob + after, 0);
    VarintRoundTrip(before + key, |blob|, blob + after, 0);
    SliceOut(before + key + size, blob, after);
    FieldOne(data, |before|, |before| + |key|, |before| + |key| + |size|, |blob|);
  }

  lemma {:induction false} TenFits()
    ensures 10 < Pow2(70)
  {
    Pow2Seven(63);
  }

  lemma {:induction false} SliceOut(before: bytes, middle: bytes, after: bytes)
    ensures Slice(before + middle + after, |before|, |before| + |middle|) == middle
  {
  }

  function AsFields(blobs: seq<bytes>): seq<WireField>
  {
    seq(|blobs|, i requires 0 <= i < |blobs| => WireField(1, 2, Bytes(blobs[i])))
  }

  /** Decoding what was encoded gives the blobs back, in order. */
  lemma {:induction false} EncodeDecodes(before: bytes, blobs: seq<bytes>)
    requires Fits(blobs)
    ensures FieldsFrom(before + Encode(blobs), |before|) == Ok(AsFields(blobs))
    decreases |blobs|
  {
    hide ReadField, Frame, Pow2;
    if blobs == [] {
      assert before + [] == before;
    } else {
      var head, rest := Frame(blobs[0]), Encode(blobs[1..]);
      var data := before + Encode(blobs);
      assert data == before + head + rest;
      FrameReads(before, blobs[0], rest);
      assert Fits(blobs[1..]);
      EncodeDecodes(before + head, blobs[1..]);
      assert data == (before + head) + rest && |before + head| == |before| + |head|;
      FrameNonEmpty(blobs[0]);
      assert AsFields(blobs) == [WireField(1, 2, Bytes(blobs[0]))] + AsFields(blobs[1..]);
    }
  }

  lemma {:induction false} FrameNonEmpty(blob: bytes)
    ensures |Frame(blob)| >= 2
  {
  }

  lemma {:induction false} BlobsOfFields(blobs: seq<bytes>)
    ensures Blobs(AsFields(blobs)) == blobs
  {
    if blobs != [] {
      BlobsOfFields(blobs[1..]);
      assert AsFields(blobs)[1..] == AsFields(blobs[1..]);
    }
  }

  /** A decoded length-delimited payload is never too long to be framed again. */
  lemma {:induction false} DecodedBlobsFit(data: bytes, pos: nat)
    requires FieldsFrom(data, pos).Ok?
    ensures Fits(Blobs(FieldsFrom(data, pos).value))
    decreases |data| - pos
  {
    hide ReadField, Pow2;
    if pos < |data| {
      FieldAdvances(data, pos);
      var p := ReadField(data, pos).value;
      DecodedBlobsFit(data, p.next);
      var fields := FieldsFrom(data, pos).value;
      assert fields[0] == p.field && fields[1..] == FieldsFrom(data, p.next).value;
      if p.field.wire == 2 { PayloadFits(data, pos); }
    }
  }

  lemma {:induction false} PayloadFits(data: bytes, pos: nat)
    requires ReadField(data, pos).Ok? && ReadField(data, pos).value.field.wire == 2
    ensures var v := ReadField(data, pos).value.field.value;
            v.Bytes? && |v.b| < Pow2(70)
  {
    hide ReadVarint, Pow2;
    var key := ReadVarint(data, pos, 0).value;
    ReadBounded(data, key.next, 0);
    ReadAdvances(data, key.next, 0);
  }

  // ---- the canonical form ---------------------------------------------------------------------------

  lemma {:induction false} ByNameIsTotal()
    ensures TotalPreorder(ByName())
  {
    var le := ByName();
    forall x, y ensures le(x, y) || le(y, x) { LexTotal(NameKey(x), NameKey(y)); }
    forall x, y, z | le(x, y) && le(y, z) ensures le(x, z) { LexTransitive(NameKey(x), NameKey(y), NameKey(z)); }
  }

  lemma {:induction false} SortedFits(blobs: seq<bytes>)
    requires Fits(blobs)
    ensures Fits(Sort(blobs, ByName()))
    ensures AllNamed(Sort(blobs, ByName())) <==> AllNamed(blobs)
  {
    hide NameOf, Pow2;
    var sorted := Sort(blobs, ByName());
    SortKeeps(blobs, ByName());
    SameElements(blobs, sorted);
    forall i | 0 <= i < |sorted| ensures |sorted[i]| < Pow2(70) {
      assert sorted[i] in blobs;
      var j :| 0 <= j < |blobs| && blobs[j] == sorted[i];
    }
    if AllNamed(blobs) {
      forall i | 0 <= i < |sorted| ensures NameOf(sorted[i]).Some? {
        assert sorted[i] in blobs;
        var j :| 0 <= j < |blobs| && blobs[j] == sorted[i];
      }
    }
    if AllNamed(sorted) {
      forall i | 0 <= i < |blobs| ensures NameOf(blobs[i]).Some? {
        assert blobs[i] in sorted;
        var j :| 0 <= j < |sorted| && sorted[j] == blobs[i];
      }
    }
  }

  /**
    The canonical form decodes to the same file blobs, each as often as before, ordered by name,
    files of one name in their original order.
   */
  lemma {:induction false} CanonicalKeepsFiles(data: bytes, name: seq<int>)
    requires Canonical(data).Ok?
    ensures FieldsFrom(data, 0).Ok? && FieldsFrom(Canonical(data).value, 0).Ok?
    ensures var before, after := Blobs(FieldsFrom(data, 0).value), Blobs(FieldsFrom(Canonical(data).value, 0).value);
            && multiset(after) == multiset(before)
            && SortedBy(after, ByName())
            && Filter(after, b => NameKey(b) == name) == Filter(before, b => NameKey(b) == name)
  {
    hide FieldsFrom, Encode, NameKey;
    var blobs := Blobs(FieldsFrom(data, 0).value);
    var sorted := Sort(blobs, ByName());
    DecodedBlobsFit(data, 0);
    SortedFits(blobs);
    EncodeDecodes([], sorted);
    assert [] + Encode(sorted) == Encode(sorted);
    BlobsOfFields(sorted);
    ByNameIsTotal();
    SortSorts(blobs, ByName());
    var p: bytes -> bool := b => NameKey(b) == name;
    assert RespectsRank(p, ByName()) by {
      forall x, y | p(x) && p(y) ensures ByName()(x, y) { LexTotal(NameKey(x), NameKey(y)); }
    }
    SortStable(blobs, ByName(), p);
  }

  /** Canonicalising again changes nothing. */
  lemma {:induction false} CanonicalIsFixed(data: bytes)
    requires Canonical(data).Ok?
    ensures Canonical(Canonical(data).value) == Canonical(data)
  {
    hide FieldsFrom, Encode, NameKey;
    var blobs := Blobs(FieldsFrom(data, 0).value);
    var sorted := Sort(blobs, ByName());
    DecodedBlobsFit(data, 0);
    SortedFits(blobs);
    EncodeDecodes([], sorted);
    assert [] + Encode(sorted) == Encode(sorted);
    BlobsOfFields(sorted);
    ByNameIsTotal();
    SortSorts(blobs, ByName());
    SortOfSorted(sorted, ByName());
  }

  /** With distinct names, the canonical form does not depend on the order files were written in. */
  lemma {:induction false} CanonicalForgetsOrder(d1: bytes, d2: bytes)
    requires FieldsFrom(d1, 0).Ok? && FieldsFrom(d2, 0).Ok?
    requires var b1, b2 := Blobs(FieldsFrom(d1, 0).value), Blobs(FieldsFrom(d2, 0).value);
             && multiset(b1) == multiset(b2)
             && forall x, y :: x in b1 && y in b1 && NameKey(x) == NameKey(y) ==> x == y
    ensures Canonical(d1) == Canonical(d2)
  {
    hide FieldsFrom, Encode, NameKey, NameOf;
    var b1, b2 := Blobs(FieldsFrom(d1, 0).value), Blobs(FieldsFrom(d2, 0).value);
    assert Separates(b1, ByName()) by {
      forall x, y | x in b1 && y in b1 && ByName()(x, y) && ByName()(y, x) ensures x == y {
        LexAntisymmetric(NameKey(x), NameKey(y));
      }
    }
    ByNameIsTotal();
    SortForgetsOrder(b1, b2, ByName());
    DecodedBlobsFit(d1, 0);
    DecodedBlobsFit(d2, 0);
    SortedFits(b1);
    SortedFits(b2);
  }

  // ---- names and their order ------------------------------------------------------------------------

  /** A length-delimited field holds bytes. */
  lemma {:induction false} DelimitedHoldsBytes(data: bytes, pos: nat, i: nat)
    requires FieldsFrom(data, pos).Ok? && i < |FieldsFrom(data, pos).value|
    requires FieldsFrom(data, pos).value[i].wire == 2
    ensures FieldsFrom(data, pos).value[i].value.Bytes?
    decreases |data| - pos
  {
    hide ReadField;
    FieldAdvances(data, pos);
    var p := ReadField(data, pos).value;
    if i == 0 {
      PayloadFits(data, pos);
    } else {
      DelimitedHoldsBytes(data, p.next, i - 1);
    }
  }

  /** The name of a file is what its first field 1 holds; a file without one, or that does not parse, has none. */
  lemma {:induction false} NameIsFirstField(blob: bytes, name: bytes)
    ensures NameOf(blob) == Some(name) <==>
              && FieldsFrom(blob, 0).Ok?
              && exists i :: 0 <= i < |FieldsFrom(blob, 0).value| && FirstNamed(FieldsFrom(blob, 0).value, i, name)
  {
    hide FieldsFrom, FirstNamed, Blobs;
    if FieldsFrom(blob, 0).Ok? {
      var fields := FieldsFrom(blob, 0).value;
      forall i | 0 <= i < |fields| && fields[i].wire == 2 ensures fields[i].value.Bytes? { DelimitedHoldsBytes(blob, 0, i); }
      FirstBlob(fields, name);
    }
  }

  /** Field i holds the name, and no field before it is a length-delimited field 1. */
  ghost predicate FirstNamed(fields: seq<WireField>, i: nat, name: bytes)
    requires i < |fields|
  {
    fields[i] == WireField(1, 2, Bytes(name)) && forall j :: 0 <= j < i ==> !IsNameField(fields[j])
  }

  lemma {:induction false} FirstBlob(fields: seq<WireField>, name: bytes)
    requires forall i :: 0 <= i < |fields| && fields[i].wire == 2 ==> fields[i].value.Bytes?
    ensures Blobs(fields) != [] && Blobs(fields)[0] == name <==> exists i :: 0 <= i < |fields| && FirstNamed(fields, i, name)
  {
    hide FirstNamed;
    if fields != [] {
      var rest := fields[1..];
      FirstBlob(rest, name);
      NamedFirst(fields, name);
      if !IsNameField(fields[0]) {
        assert Blobs(fields) == Blobs(rest);
        forall i: nat | i < |rest| ensures FirstNamed(rest, i, name) <==> FirstNamed(fields, i + 1, name) { NamedLater(fields, i, name); }
        if i :| 0 <= i < |fields| && FirstNamed(fields, i, name) {
          assert i > 0 && FirstNamed(rest, i - 1, name);
        }
      }
    }
  }

  predicate IsNameField(f: WireField) { f.number == 1 && f.wire == 2 }

  lemma {:induction false} NamedFirst(fields: seq<WireField>, name: bytes)
    requires fields != []
    ensures FirstNamed(fields, 0, name) <==> fields[0] == WireField(1, 2, Bytes(name))
    ensures IsNameField(fields[0]) ==> forall i: nat :: 0 < i < |fields| ==> !FirstNamed(fields, i, name)
  {
  }

  lemma {:induction false} NamedLater(fields: seq<WireField>, i: nat, name: bytes)
    requires i + 1 < |fields| && !IsNameField(fields[0])
    ensures FirstNamed(fields[1..], i, name) <==> FirstNamed(fields, i + 1, name)
  {
    var rest := fields[1..];
    assert forall j :: 0 <= j < |rest| ==> rest[j] == fields[j + 1];
    if FirstNamed(rest, i, name) {
      forall j | 0 <= j < i + 1 ensures !IsNameField(fields[j]) { assert j > 0 ==> fields[j] == rest[j - 1]; }
    }
  }

  /** A file whose bytes begin with its framed name has that name, whatever readable fields follow. */
  lemma {:induction false} FramedName(name: bytes, more: bytes)
    requires |name| < Pow2(70) && FieldsFrom(Frame(name) + more, |Frame(name)|).Ok?
    ensures NameOf(Frame(name) + more) == Some(name)
  {
    hide ReadField, Frame, Pow2, FirstNamed;
    var blob := Frame(name) + more;
    FrameNonEmpty(name);
    FrameReads([], name, more);
    assert [] + Frame(name) + more == blob;
    var fields := FieldsFrom(blob, 0).value;
    assert fields[0] == WireField(1, 2, Bytes(name));
    NamedFirst(fields, name);
    NameIsFirstField(blob, name);
  }

  /** The files of the canonical form stand in the order of their names, compared byte by byte. */
  lemma {:induction false} CanonicalInNameOrder(data: bytes, i: nat, j: nat)
    requires Canonical(data).Ok? && FieldsFrom(Canonical(data).value, 0).Ok?
    requires i < j < |Blobs(FieldsFrom(Canonical(data).value, 0).value)|
    ensures var files := Blobs(FieldsFrom(Canonical(data).value, 0).value);
            NameOf(files[i]).Some? && NameOf(files[j]).Some? && FirstDifference(NameOf(files[i]).value, NameOf(files[j]).value)
  {
    hide FieldsFrom, Encode, NameOf, FirstDifference;
    CanonicalKeepsFiles(data, []);
    var before, files := Blobs(FieldsFrom(data, 0).value), Blobs(FieldsFrom(Canonical(data).value, 0).value);
    SameElements(before, files);
    forall k | 0 <= k < |files| ensures NameOf(files[k]).Some? {
      assert files[k] in before;
      var m :| 0 <= m < |before| && before[m] == files[k];
    }
    assert ByName()(files[i], files[j]);
    LexIsFirstDifference(NameOf(files[i]).value, NameOf(files[j]).value);
  }

  /** The value of a field that was asked for stands behind the values of those before it; there are no others. */
  lemma {:induction false} ValuesInOrder(fields: seq<WireField>, number: nat, wire: Option<nat>)
    ensures |Values(fields, number, wire)| == |Asked(fields, number, wire)|
    ensures forall i :: i in Asked(fields, number, wire) ==>
              |Values(fields[..i], number, wire)| < |Values(fields, number, wire)|
              && Values(fields, number, wire)[|Values(fields[..i], number, wire)|] == fields[i].value
    decreases |fields|
  {
    hide Matches, Values;
    if fields == [] {
      AllValues(fields, number, wire);
    } else {
      var n := |fields| - 1;
      var low := fields[..n];
      ValuesInOrder(low, number, wire);
      ValuesOfMore(low, fields[n], number, wire);
      assert low + [fields[n]] == fields;
      AskedOfMore(fields, number, wire);
      forall i | i in Asked(fields, number, wire)
        ensures |Values(fields[..i], number, wire)| < |Values(fields, number, wire)|
        ensures Values(fields, number, wire)[|Values(fields[..i], number, wire)|] == fields[i].value
      {
        if i < n { assert fields[..i] == low[..i] && i in Asked(low, number, wire); }
      }
    }
  }

  /** The positions of the fields of this number and, if one is given, this wire type. */
  ghost function Asked(fields: seq<WireField>, number: nat, wire: Option<nat>): set<nat>
  {
    set i: nat | i < |fields| && fields[i].number == number && (wire == None || wire == Some(fields[i].wire))
  }

  lemma {:induction false} AskedOfMore(fields: seq<WireField>, number: nat, wire: Option<nat>)
    requires fields != []
    ensures var n := |fields| - 1;
            && Asked(fields, number, wire) == Asked(fields[..n], number, wire) + (if Matches(fields[n], number, wire) then {n} else {})
            && n !in Asked(fields[..n], number, wire)
  {
  }

  lemma {:induction false} ValuesOfMore(fields: seq<WireField>, f: WireField, number: nat, wire: Option<nat>)
    ensures Values(fields + [f], number, wire) == Values(fields, number, wire) + if Matches(f, number, wire) then [f.value] else []
  {
    hide Matches;
    if fields == [] {
      assert [f][1..] == [] && fields + [f] == [f];
    } else {
      ValuesOfMore(fields[1..], f, number, wire);
      assert (fields + [f])[1..] == fields[1..] + [f] && (fields + [f])[0] == fields[0];
      var first: seq<Payload> := if Matches(fields[0], number, wire) then [fields[0].value] else [];
      var last: seq<Payload> := if Matches(f, number, wire) then [f.value] else [];
      assert Values(fields + [f], number, wire) == first + Values(fields[1..] + [f], number, wire);
      assert first + (Values(fields[1..], number, wire) + last) == (first + Values(fields[1..], number, wire)) + last;
    }
  }
}
