/** What the bytes of the wire format stand for, and that every field written by its rules is read back. */
module WireLaws {
  import opened Outcomes
  import opened Wire

  /** The number that the low seven bits of some bytes stand for, the first byte counting least. */
  function GroupSum(groups: bytes): nat
  {
    if groups == [] then 0 else groups[0] % 128 + 128 * GroupSum(groups[1..])
  }

  /** The bytes from pos up to next are one varint: all but the last have the high bit set. */
  predicate IsVarint(data: bytes, pos: nat, next: nat)
  {
    pos < next <= |data| && data[next - 1] < 128 && forall i :: pos <= i < next - 1 ==> data[i] >= 128
  }

  /** A number is written in groups of seven bits, low ones first, without a needless last group. */
  lemma {:induction false} VarintIsBase128(n: nat)
    ensures GroupSum(Varint(n)) == n && IsVarint(Varint(n), 0, |Varint(n)|)
    ensures |Varint(n)| > 1 ==> Varint(n)[|Varint(n)| - 1] != 0
  {
    if n > 127 {
      VarintIsBase128(n / 128);
      var head: byte := n % 128 + 128;
      var rest := Varint(n / 128);
      assert Varint(n) == [head] + rest && Varint(n)[1..] == rest;
      assert forall i :: 0 < i < |Varint(n)| ==> Varint(n)[i] == rest[i - 1];
    }
  }

  /** What is read at a position: one varint of at most ten bytes, and the number it stands for. */
  lemma {:induction false} ReadMeans(data: bytes, pos: nat, shift: nat, next: nat, v: nat)
    requires shift <= 70 && shift % 7 == 0
    ensures ReadVarint(data, pos, shift) == Ok(Read(v, next)) <==>
            IsVarint(data, pos, next) && next - pos <= (70 - shift) / 7 && v == GroupSum(data[pos..next])
    decreases |data| - pos
  {
    if IsVarint(data, pos, next) {
      assert data[pos..next][0] == data[pos] && data[pos..next][1..] == data[pos + 1..next];
    }
    if pos < |data| && shift < 70 {
      if data[pos] < 128 {
        assert IsVarint(data, pos, next) ==> next == pos + 1;
        assert GroupSum(data[pos..pos + 1]) == data[pos] by { assert data[pos..pos + 1] == [data[pos]]; }
      } else {
        ReadMeansMore(data, pos, shift, next, v);
      }
    }
  }

  lemma {:induction false} ReadMeansMore(data: bytes, pos: nat, shift: nat, next: nat, v: nat)
    requires shift < 70 && shift % 7 == 0 && pos < |data| && data[pos] >= 128
    ensures ReadVarint(data, pos, shift) == Ok(Read(v, next)) <==>
            IsVarint(data, pos, next) && next - pos <= (70 - shift) / 7 && v == GroupSum(data[pos..next])
    decreases |data| - pos, 0
  {
    var high := (v - (data[pos] - 128)) / 128;
    assert (70 - shift) / 7 == (70 - (shift + 7)) / 7 + 1;
    if ReadVarint(data, pos, shift) == Ok(Read(v, next)) {
      var rest := ReadVarint(data, pos + 1, shift + 7).value;
      ReadMeans(data, pos + 1, shift + 7, next, rest.value);
      assert data[pos..next][0] == data[pos] && data[pos..next][1..] == data[pos + 1..next];
    }
    if IsVarint(data, pos, next) && next - pos <= (70 - shift) / 7 && v == GroupSum(data[pos..next]) {
      assert next > pos + 1;
      assert data[pos..next][0] == data[pos] && data[pos..next][1..] == data[pos + 1..next];
      ReadMeans(data, pos + 1, shift + 7, next, GroupSum(data[pos + 1..next]));
    }
  }

  // ---- fields ------------------------------------------------------------------------------------------

  /** A field as the format writes it: the key, then the payload, behind its length where that is not fixed. */
  function FieldBytes(f: WireField): bytes
  {
    Varint(8 * f.number + f.wire)
    + match f.value
      case Number(n) => Varint(n)
      case Bytes(b) => if f.wire == 2 then Varint(|b|) + b else b
  }

  function AllBytes(fields: seq<WireField>): bytes
  {
    if fields == [] then [] else FieldBytes(fields[0]) + AllBytes(fields[1..])
  }

  /** A payload of the kind its wire type says, and numbers the reader does not refuse. */
  predicate Writable(f: WireField)
  {
    && f.wire < 8 && 8 * f.number + f.wire < Pow2(70)
    && match f.value
       case Number(n) => f.wire == 0 && n < Pow2(70)
       case Bytes(b) => (f.wire == 1 && |b| == 8) || (f.wire == 5 && |b| == 4) || (f.wire == 2 && |b| < Pow2(70))
  }

  /** The key at the front of a field. */
  lemma {:induction false} KeyReads(before: bytes, number: nat, wire: nat, after: bytes)
    requires wire < 8 && 8 * number + wire < Pow2(70)
    ensures var at := |before| + |Varint(8 * number + wire)|;
            && ReadVarint(before + Varint(8 * number + wire) + after, |before|, 0) == Ok(Read(8 * number + wire, at))
            && (8 * number + wire) / 8 == number && (8 * number + wire) % 8 == wire
  {
    hide ReadVarint, Varint, Pow2;
    VarintRoundTrip(before, 8 * number + wire, after, 0);
  }

  lemma {:induction false} NumberReads(before: bytes, n: nat, after: bytes)
    requires n < Pow2(70)
    ensures ReadVarint(before + Varint(n) + after, |before|, 0) == Ok(Read(n, |before| + |Varint(n)|))
  {
    hide ReadVarint, Varint, Pow2;
    VarintRoundTrip(before, n, after, 0);
  }

  lemma {:induction false} SliceOf(before: bytes, b: bytes, after: bytes)
    ensures Slice(before + b + after, |before|, |before| + |b|) == b
  {
  }

  /** A field is read back, wherever it stands, with exactly its bytes. */
  lemma {:induction false} FieldReads(before: bytes, f: WireField, after: bytes)
    requires Writable(f)
    ensures ReadField(before + FieldBytes(f) + after, |before|) == Ok(Parsed(f, |before| + |FieldBytes(f)|))
  {
    hide ReadVarint, Varint, Pow2, Slice;
    var key := Varint(8 * f.number + f.wire);
    var data := before + FieldBytes(f) + after;
    match f.value
    case Number(n) =>
      assert data == before + key + (Varint(n) + after) == (before + key) + Varint(n) + after;
      KeyReads(before, f.number, f.wire, Varint(n) + after);
      NumberReads(before + key, n, after);
    case Bytes(b) =>
      if f.wire == 2 {
        var size := Varint(|b|);
        assert data == before + key + (size + b + after) == (before + key) + size + (b + after) == (before + key + size) + b + after;
        KeyReads(before, f.number, f.wire, size + b + after);
        NumberReads(before + key, |b|, b + after);
        SliceOf(before + key + size, b, after);
      } else {
        assert data == before + key + (b + after) == (before + key) + b + after;
        KeyReads(before, f.number, f.wire, b + after);
        SliceOf(before + key, b, after);
      }
  }

  /** Any fields written one behind the other are read back as they were. */
  lemma {:induction false} FieldsRead(before: bytes, fields: seq<WireField>)
    requires forall i :: 0 <= i < |fields| ==> Writable(fields[i])
    ensures FieldsFrom(before + AllBytes(fields), |before|) == Ok(fields)
    decreases |fields|
  {
    hide ReadField, FieldBytes, Writable;
    if fields == [] {
      assert before + [] == before;
    } else {
      var head, rest := FieldBytes(fields[0]), AllBytes(fields[1..]);
      var data := before + AllBytes(fields);
      assert data == before + head + rest == (before + head) + rest;
      FieldReads(before, fields[0], rest);
      FieldAdvances(data, |before|);
      FieldsRead(before + head, fields[1..]);
      assert [fields[0]] + fields[1..] == fields;
    }
  }

  /** A group or an unknown wire type is refused, and so is a payload that is not all there; fixed ones are taken as they are. */
  lemma {:induction false} FieldsRefused(before: bytes, number: nat, wire: nat, n: nat, after: bytes)
    requires wire < 8 && 8 * number + wire < Pow2(70) && n < Pow2(70)
    ensures var data := before + Varint(8 * number + wire) + after;
            && (wire in {3, 4, 6, 7} ==> ReadField(data, |before|) == Err(UnsupportedWire))
            && (wire in {1, 5} && |after| < (if wire == 1 then 8 else 4) ==>
                  ReadField(data, |before|).Ok? && ReadField(data, |before|).value.field == WireField(number, wire, Bytes(after)))
    ensures wire == 2 && |after| < n ==>
              ReadField(before + Varint(8 * number + wire) + (Varint(n) + after), |before|) == Err(TruncatedField)
  {
    hide ReadVarint, Varint, Pow2;
    var key := Varint(8 * number + wire);
    KeyReads(before, number, wire, after);
    KeyReads(before, number, wire, Varint(n) + after);
    assert (before + key + after)[|before| + |key|..] == after;
    assert before + key + (Varint(n) + after) == (before + key) + Varint(n) + after;
    NumberReads(before + key, n, after);
    assert Varint(8 * number + wire) != [] by { VarintIsBase128(8 * number + wire); }
  }
}
