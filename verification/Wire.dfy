/**
  The Protocol Buffers wire format as the protocol gate writes and reads it: base-128 varints and
  tagged fields; with a second, independent decoder from the API gate.
 */
module Wire {
  import opened Outcomes

  type byte = b: int | 0 <= b < 256
  type bytes = seq<byte>

  datatype WireError = BadVarint | TruncatedField | UnsupportedWire

  datatype Payload = Number(n: nat) | Bytes(b: bytes)

  datatype WireField = WireField(number: nat, wire: nat, value: Payload)

  function Pow2(n: nat): (p: nat)
    ensures p >= 1
  {
    if n == 0 then 1 else 2 * Pow2(n - 1)
  }

  lemma {:induction false} Pow2Seven(n: nat)
    ensures Pow2(n + 7) == 128 * Pow2(n)
  {
    assert Pow2(n + 7) == 2 * Pow2(n + 6) && Pow2(n + 6) == 2 * Pow2(n + 5) && Pow2(n + 5) == 2 * Pow2(n + 4);
    assert Pow2(n + 4) == 2 * Pow2(n + 3) && Pow2(n + 3) == 2 * Pow2(n + 2) && Pow2(n + 2) == 2 * Pow2(n + 1);
  }

  // ---- varints --------------------------------------------------------------------------------

  /** Low seven bits first, the high bit set on every byte but the last. */
  function Varint(n: nat): (out: bytes)
    ensures |out| >= 1
  {
    if n <= 127 then [n] else [n % 128 + 128] + Varint(n / 128)
  }

  /** `varint`. */
  method WriteVarint(value: nat) returns (out: bytes)
    ensures out == Varint(value)
  {
    var v := value;
    out := [];
    while v > 127
      invariant Varint(value) == out + Varint(v)
    {
      out := out + [v % 128 + 128];
      v := v / 128;
    }
    out := out + [v];
  }

  /** A decoded number and the position after it. */
  datatype Read = Read(value: nat, next: nat)

  /**
    Reads a varint whose first byte is the k-th one already: at most ten bytes in all, since the
    shift must stay below seventy.
   */
  function ReadVarint(data: bytes, pos: nat, shift: nat): Result<Read, WireError>
    decreases |data| - pos
  {
    if pos >= |data| || shift >= 70 then Err(BadVarint)
    else if data[pos] < 128 then Ok(Read(data[pos], pos + 1))
    else
      match ReadVarint(data, pos + 1, shift + 7)
      case Err(e) => Err(e)
      case Ok(rest) => Ok(Read(data[pos] - 128 + 128 * rest.value, rest.next))
  }

  /** A value so far, completed by what is still to be read at the given scale. */
  function Complete(value: nat, scale: nat, rest: Result<Read, WireError>): Result<Read, WireError>
  {
    match rest
    case Err(e) => Err(e)
    case Ok(r) => Ok(Read(value + scale * r.value, r.next))
  }

  lemma {:induction false} LastByte(value: nat, scale: nat, data: bytes, pos: nat, shift: nat)
    requires pos < |data| && shift < 70 && data[pos] < 128
    ensures Complete(value, scale, ReadVarint(data, pos, shift)) == Ok(Read(value + data[pos] * scale, pos + 1))
  {
    assert ReadVarint(data, pos, shift) == Ok(Read(data[pos], pos + 1));
    assert scale * data[pos] == data[pos] * scale;
  }

  lemma {:induction false} LeadingByte(data: bytes, pos: nat, shift: nat)
    requires pos < |data| && shift < 70 && data[pos] >= 128
    ensures ReadVarint(data, pos, shift) == Complete(data[pos] - 128, 128, ReadVarint(data, pos + 1, shift + 7))
  {
  }

  lemma {:induction false} CompleteTwice(value: nat, scale: nat, b: nat, rest: Result<Read, WireError>)
    ensures Complete(value, scale, Complete(b, 128, rest)) == Complete(value + b * scale, 128 * scale, rest)
  {
    if rest.Ok? {
      Distribute(value, scale, b, rest.value.value);
    }
  }

  /**
    `read_varint`: the seven bits of each byte are added at the current shift. Or-ing them in is
    adding, because the value is still below two to that shift.
   */
  method ParseVarint(data: bytes, start: nat) returns (r: Result<Read, WireError>)
    ensures r == ReadVarint(data, start, 0)
  {
    hide ReadVarint, Pow2, Complete;
    var value, shift, pos := 0, 0, start;
    StartRead(data, start);
    while pos < |data| && shift < 70
      invariant start <= pos
      invariant 0 <= value < Pow2(shift)
      invariant Complete(value, Pow2(shift), ReadVarint(data, pos, shift)) == ReadVarint(data, start, 0)
      decreases |data| - pos
    {
      var b := data[pos];
      OneByte(value, data, pos, shift);
      value := value + b % 128 * Pow2(shift);
      pos := pos + 1;
      if b < 128 {
        return Ok(Read(value, pos));
      }
      shift := shift + 7;
    }
    EndRead(value, data, pos, shift);
    return Err(BadVarint);
  }

  /** One byte of a varint: the new value, its bound, and what is still to come. */
  lemma {:induction false} OneByte(value: nat, data: bytes, pos: nat, shift: nat)
    requires pos < |data| && shift < 70 && value < Pow2(shift)
    ensures var next := value + data[pos] % 128 * Pow2(shift);
            && 0 <= next < Pow2(shift + 7)
            && (data[pos] < 128 ==> Complete(value, Pow2(shift), ReadVarint(data, pos, shift)) == Ok(Read(next, pos + 1)))
            && (data[pos] >= 128 ==>
                  Complete(value, Pow2(shift), ReadVarint(data, pos, shift))
                  == Complete(next, Pow2(shift + 7), ReadVarint(data, pos + 1, shift + 7)))
  {
    hide ReadVarint, Pow2, Complete;
    Pow2Seven(shift);
    if data[pos] < 128 {
      LastByte(value, Pow2(shift), data, pos, shift);
    } else {
      LeadingByte(data, pos, shift);
      CompleteTwice(value, Pow2(shift), data[pos] - 128, ReadVarint(data, pos + 1, shift + 7));
    }
    Bound(value, Pow2(shift), data[pos] % 128);
  }

  lemma {:induction false} StartRead(data: bytes, start: nat)
    ensures Pow2(0) == 1 && Complete(0, Pow2(0), ReadVarint(data, start, 0)) == ReadVarint(data, start, 0)
  {
  }

  lemma {:induction false} EndRead(value: nat, data: bytes, pos: nat, shift: nat)
    requires pos >= |data| || shift >= 70
    ensures Complete(value, Pow2(shift), ReadVarint(data, pos, shift)) == Err(BadVarint)
  {
  }

  lemma {:induction false} Distribute(v: nat, p: nat, b: nat, r: nat)
    ensures v + p * (b + 128 * r) == v + b * p + (128 * p) * r
  {
  }

  lemma {:induction false} Bound(v: nat, p: nat, b: nat)
    requires v < p && b <= 127
    ensures v + b * p < 128 * p
  {
    assert b * p <= 127 * p;
  }

  /** A number that fits the remaining shift is read back, with exactly its bytes; a larger one is not. */
  lemma {:induction false} VarintRoundTrip(before: bytes, n: nat, after: bytes, shift: nat)
    requires shift < 70 && shift % 7 == 0
    ensures var data := before + Varint(n) + after;
            ReadVarint(data, |before|, shift) ==
            if n < Pow2(70 - shift) then Ok(Read(n, |before| + |Varint(n)|)) else Err(BadVarint)
    decreases n
  {
    var data := before + Varint(n) + after;
    assert data[|before|] == Varint(n)[0];
    Pow2Seven(63 - shift);
    if n > 127 {
      var head: byte := n % 128 + 128;
      assert data == (before + [head]) + Varint(n / 128) + after;
      if shift == 63 {
        assert Pow2(7) == 128 by { Pow2Seven(0); }
      } else {
        VarintRoundTrip(before + [head], n / 128, after, shift + 7);
        assert n < 128 * Pow2(63 - shift) <==> n / 128 < Pow2(63 - shift);
      }
    }
  }

  /** Every value read fits in seventy bits. */
  lemma {:induction false} ReadBounded(data: bytes, pos: nat, shift: nat)
    requires shift <= 70 && shift % 7 == 0 && ReadVarint(data, pos, shift).Ok?
    ensures var r := ReadVarint(data, pos, shift).value;
            r.value < Pow2(70 - shift) && pos < r.next <= |data|
    decreases |data| - pos
  {
    Pow2Seven(63 - shift);
    if data[pos] >= 128 { ReadBounded(data, pos + 1, shift + 7); }
  }

  /** The bytes read are the shortest encoding exactly when they do not end in a needless zero. */
  lemma {:induction false} ReadIsCanonicalWhen(data: bytes, pos: nat, shift: nat)
    requires ReadVarint(data, pos, shift).Ok?
    ensures var r := ReadVarint(data, pos, shift).value;
            && pos < r.next <= |data|
            && (data[pos..r.next] == Varint(r.value) <==> r.next == pos + 1 || data[r.next - 1] != 0)
            && |Varint(r.value)| <= r.next - pos
    decreases |data| - pos
  {
    var r := ReadVarint(data, pos, shift).value;
    if data[pos] >= 128 {
      ReadIsCanonicalWhen(data, pos + 1, shift + 7);
      var rest := ReadVarint(data, pos + 1, shift + 7).value;
      assert data[pos..r.next] == [data[pos]] + data[pos + 1..r.next];
      assert r.value % 128 == data[pos] - 128 && r.value / 128 == rest.value;
      if rest.value > 0 {
        assert Varint(r.value) == [data[pos]] + Varint(rest.value);
        assert Varint(r.value)[1..] == Varint(rest.value) && data[pos..r.next][1..] == data[pos + 1..r.next];
      } else {
        ZeroReadsZeros(data, pos + 1, shift + 7);
        assert r.value <= 127;
        assert |Varint(r.value)| == 1;
      }
    } else {
      assert data[pos..r.next] == [data[pos]];
    }
  }

  lemma {:induction false} ZeroReadsZeros(data: bytes, pos: nat, shift: nat)
    requires ReadVarint(data, pos, shift).Ok? && ReadVarint(data, pos, shift).value.value == 0
    ensures var next := ReadVarint(data, pos, shift).value.next;
            pos < next <= |data| && data[next - 1] == 0
    decreases |data| - pos
  {
    if data[pos] >= 128 { ZeroReadsZeros(data, pos + 1, shift + 7); }
  }

  // ---- fields -----------------------------------------------------------------------------------

  /** `data[from:to]`: a Python slice stops at the end of the data. */
  function Slice(data: bytes, from: nat, to: nat): bytes
    requires from <= to
  {
    if from >= |data| then [] else if to >= |data| then data[from..] else data[from..to]
  }

  datatype Parsed = Parsed(field: WireField, next: nat)

  /** One field: a key and its payload. Fixed-width payloads are not checked against the end. */
  function ReadField(data: bytes, pos: nat): Result<Parsed, WireError>
  {
    match ReadVarint(data, pos, 0)
    case Err(e) => Err(e)
    case Ok(key) =>
      var number, wire := key.value / 8, key.value % 8;
      if wire == 0 then
        (match ReadVarint(data, key.next, 0)
         case Err(e) => Err(e)
         case Ok(v) => Ok(Parsed(WireField(number, 0, Number(v.value)), v.next)))
      else if wire == 1 then
        Ok(Parsed(WireField(number, 1, Bytes(Slice(data, key.next, key.next + 8))), key.next + 8))
      else if wire == 2 then
        (match ReadVarint(data, key.next, 0)
         case Err(e) => Err(e)
         case Ok(size) =>
           if size.next + size.value > |data| then Err(TruncatedField)
           else Ok(Parsed(WireField(number, 2, Bytes(Slice(data, size.next, size.next + size.value))), size.next + size.value)))
      else if wire == 5 then
        Ok(Parsed(WireField(number, 5, Bytes(Slice(data, key.next, key.next + 4))), key.next + 4))
      else Err(UnsupportedWire)
  }

  lemma {:induction false} ReadAdvances(data: bytes, pos: nat, shift: nat)
    requires ReadVarint(data, pos, shift).Ok?
    ensures pos < ReadVarint(data, pos, shift).value.next <= |data|
    decreases |data| - pos
  {
    if data[pos] >= 128 { ReadAdvances(data, pos + 1, shift + 7); }
  }

  lemma {:induction false} FieldAdvances(data: bytes, pos: nat)
    requires ReadField(data, pos).Ok?
    ensures pos < ReadField(data, pos).value.next
  {
    ReadAdvances(data, pos, 0);
    var key := ReadVarint(data, pos, 0).value;
    if ReadVarint(data, key.next, 0).Ok? { ReadAdvances(data, key.next, 0); }
  }

  function FieldsFrom(data: bytes, pos: nat): Result<seq<WireField>, WireError>
    decreases |data| - pos
  {
    if pos >= |data| then Ok([])
    else
      match ReadField(data, pos)
      case Err(e) => Err(e)
      case Ok(p) =>
        FieldAdvances(data, pos);
        match FieldsFrom(data, p.next)
        case Err(e) => Err(e)
        case Ok(rest) => Ok([p.field] + rest)
  }

  /** One turn of `fields`. */
  method ParseField(data: bytes, start: nat) returns (r: Result<Parsed, WireError>)
    ensures r == ReadField(data, start)
  {
    hide ReadVarint;
    var key := ParseVarint(data, start);
    if key.Err? {
      return Err(key.error);
    }
    var number, wire, pos := key.value.value / 8, key.value.value % 8, key.value.next;
    if wire == 0 {
      var v := ParseVarint(data, pos);
      if v.Err? {
        return Err(v.error);
      }
      return Ok(Parsed(WireField(number, wire, Number(v.value.value)), v.value.next));
    } else if wire == 1 {
      return Ok(Parsed(WireField(number, wire, Bytes(Slice(data, pos, pos + 8))), pos + 8));
    } else if wire == 2 {
      var size := ParseVarint(data, pos);
      if size.Err? {
        return Err(size.error);
      }
      var from, to := size.value.next, size.value.next + size.value.value;
      if to > |data| {
        return Err(TruncatedField);
      }
      return Ok(Parsed(WireField(number, wire, Bytes(Slice(data, from, to))), to));
    } else if wire == 5 {
      return Ok(Parsed(WireField(number, wire, Bytes(Slice(data, pos, pos + 4))), pos + 4));
    } else {
      return Err(UnsupportedWire);
    }
  }

  /** Fields so far, completed by the rest. */
  function Joined(out: seq<WireField>, rest: Result<seq<WireField>, WireError>): Result<seq<WireField>, WireError>
  {
    match rest
    case Err(e) => Err(e)
    case Ok(r) => Ok(out + r)
  }

  lemma {:induction false} JoinedStep(out: seq<WireField>, data: bytes, pos: nat)
    requires pos < |data|
    ensures Joined(out, FieldsFrom(data, pos)) ==
            match ReadField(data, pos)
            case Err(e) => Err(e)
            case Ok(p) => Joined(out + [p.field], FieldsFrom(data, p.next))
  {
    hide ReadField;
    match ReadField(data, pos)
    case Err(e) =>
    case Ok(p) =>
      var rest := FieldsFrom(data, p.next);
      if rest.Ok? { assert out + ([p.field] + rest.value) == (out + [p.field]) + rest.value; }
  }

  lemma {:induction false} JoinedEnds(out: seq<WireField>, data: bytes, pos: nat)
    ensures Joined([], FieldsFrom(data, pos)) == FieldsFrom(data, pos)
    ensures pos >= |data| ==> Joined(out, FieldsFrom(data, pos)) == Ok(out)
  {
    hide ReadField;
    if FieldsFrom(data, pos).Ok? { assert [] + FieldsFrom(data, pos).value == FieldsFrom(data, pos).value; }
    assert out + [] == out;
  }

  /** `fields`, run to the end. */
  method Fields(data: bytes) returns (r: Result<seq<WireField>, WireError>)
    ensures r == FieldsFrom(data, 0)
  {
    hide ReadField, FieldsFrom;
    var pos := 0;
    var out: seq<WireField> := [];
    JoinedEnds([], data, 0);
    while pos < |data|
      invariant Joined(out, FieldsFrom(data, pos)) == FieldsFrom(data, 0)
      decreases |data| - pos
    {
      var p := ParseField(data, pos);
      JoinedStep(out, data, pos);
      if p.Err? {
        return Err(p.error);
      }
      FieldAdvances(data, pos);
      out, pos := out + [p.value.field], p.value.next;
    }
    JoinedEnds(out, data, pos);
    return Ok(out);
  }

  // ---- the second decoder -----------------------------------------------------------------------

  /** The API gate's `varint`: no bound on the length; running off the end raises. */
  function LooseVarint(data: bytes, pos: nat): Option<Read>
    decreases |data| - pos
  {
    if pos >= |data| then None
    else if data[pos] < 128 then Some(Read(data[pos], pos + 1))
    else
      match LooseVarint(data, pos + 1)
      case None => None
      case Some(rest) => Some(Read(data[pos] - 128 + 128 * rest.value, rest.next))
  }

  /** One field as the API gate reads it: a length-delimited payload may be cut short by the end. */
  function LooseField(data: bytes, pos: nat): Option<Parsed>
  {
    match LooseVarint(data, pos)
    case None => None
    case Some(key) =>
      var number, wire := key.value / 8, key.value % 8;
      if wire == 0 then
        (match LooseVarint(data, key.next)
         case None => None
         case Some(v) => Some(Parsed(WireField(number, 0, Number(v.value)), v.next)))
      else if wire == 1 then
        Some(Parsed(WireField(number, 1, Bytes(Slice(data, key.next, key.next + 8))), key.next + 8))
      else if wire == 2 then
        (match LooseVarint(data, key.next)
         case None => None
         case Some(size) =>
           Some(Parsed(WireField(number, 2, Bytes(Slice(data, size.next, size.next + size.value))), size.next + size.value)))
      else if wire == 5 then
        Some(Parsed(WireField(number, 5, Bytes(Slice(data, key.next, key.next + 4))), key.next + 4))
      else None
  }

  lemma {:induction false} LooseAdvances(data: bytes, pos: nat)
    requires LooseVarint(data, pos).Some?
    ensures pos < LooseVarint(data, pos).value.next <= |data|
    decreases |data| - pos
  {
    if data[pos] >= 128 { LooseAdvances(data, pos + 1); }
  }

  lemma {:induction false} LooseFieldAdvances(data: bytes, pos: nat)
    requires LooseField(data, pos).Some?
    ensures pos < LooseField(data, pos).value.next
  {
    LooseAdvances(data, pos);
    var key := LooseVarint(data, pos).value;
    if LooseVarint(data, key.next).Some? { LooseAdvances(data, key.next); }
  }

  function LooseFieldsFrom(data: bytes, pos: nat): Option<seq<WireField>>
    decreases |data| - pos
  {
    if pos >= |data| then Some([])
    else
      match LooseField(data, pos)
      case None => None
      case Some(p) =>
        LooseFieldAdvances(data, pos);
        match LooseFieldsFrom(data, p.next)
        case None => None
        case Some(rest) => Some([p.field] + rest)
  }

  /** The API gate's `varint` loop. */
  method ParseLooseVarint(data: bytes, start: nat) returns (r: Option<Read>)
    ensures r == LooseVarint(data, start)
  {
    hide LooseVarint;
    var value: nat, scale: nat, pos := 0, 1, start;
    LooseStart(data, start);
    while pos < |data|
      invariant start <= pos && value >= 0 && scale >= 1
      invariant LooseComplete(value, scale, LooseVarint(data, pos)) == LooseVarint(data, start)
      decreases |data| - pos
    {
      var b := data[pos];
      LooseStep(value, scale, data, pos);
      value := value + b % 128 * scale;
      pos := pos + 1;
      if b < 128 {
        return Some(Read(value, pos));
      }
      scale := scale * 128;
    }
    LooseEnd(data, pos);
    return None;
  }

  function LooseComplete(value: nat, scale: nat, rest: Option<Read>): Option<Read>
  {
    match rest
    case None => None
    case Some(r) => Some(Read(value + scale * r.value, r.next))
  }

  lemma {:induction false} LooseStart(data: bytes, start: nat)
    ensures LooseComplete(0, 1, LooseVarint(data, start)) == LooseVarint(data, start)
  {
  }

  lemma {:induction false} LooseEnd(data: bytes, pos: nat)
    requires pos >= |data|
    ensures LooseVarint(data, pos) == None
  {
  }

  lemma {:induction false} LooseStep(value: nat, scale: nat, data: bytes, pos: nat)
    requires pos < |data|
    ensures data[pos] < 128 ==> LooseComplete(value, scale, LooseVarint(data, pos)) == Some(Read(value + data[pos] * scale, pos + 1))
    ensures data[pos] >= 128 ==>
              LooseComplete(value, scale, LooseVarint(data, pos))
              == LooseComplete(value + (data[pos] - 128) * scale, scale * 128, LooseVarint(data, pos + 1))
  {
    var rest := LooseVarint(data, pos + 1);
    if data[pos] >= 128 && rest.Some? {
      Distribute(value, scale, data[pos] - 128, rest.value.value);
    }
  }

  /** The API gate's `fields`, run to the end. */
  method LooseFields(data: bytes) returns (r: Option<seq<WireField>>)
    ensures r == LooseFieldsFrom(data, 0)
  {
    hide LooseVarint, LooseFieldsFrom;
    var pos := 0;
    var out: seq<WireField> := [];
    LooseJoinedEnds([], data, 0);
    while pos < |data|
      invariant LooseJoined(out, LooseFieldsFrom(data, pos)) == LooseFieldsFrom(data, 0)
      decreases |data| - pos
    {
      ghost var before := pos;
      LooseJoinedStep(out, data, pos);
      var key := ParseLooseVarint(data, pos);
      if key.None? {
        return None;
      }
      var number, wire := key.value.value / 8, key.value.value % 8;
      pos := key.value.next;
      var value: Payload;
      if wire == 0 {
        var v := ParseLooseVarint(data, pos);
        if v.None? {
          return None;
        }
        value, pos := Number(v.value.value), v.value.next;
      } else if wire == 1 {
        value, pos := Bytes(Slice(data, pos, pos + 8)), pos + 8;
      } else if wire == 2 {
        var size := ParseLooseVarint(data, pos);
        if size.None? {
          return None;
        }
        pos := size.value.next;
        value, pos := Bytes(Slice(data, pos, pos + size.value.value)), pos + size.value.value;
      } else if wire == 5 {
        value, pos := Bytes(Slice(data, pos, pos + 4)), pos + 4;
      } else {
        return None;
      }
      assert LooseField(data, before) == Some(Parsed(WireField(number, wire, value), pos));
      LooseFieldAdvances(data, before);
      out := out + [WireField(number, wire, value)];
    }
    LooseJoinedEnds(out, data, pos);
    return Some(out);
  }

  function LooseJoined(out: seq<WireField>, rest: Option<seq<WireField>>): Option<seq<WireField>>
  {
    match rest
    case None => None
    case Some(r) => Some(out + r)
  }

  lemma {:induction false} LooseJoinedStep(out: seq<WireField>, data: bytes, pos: nat)
    requires pos < |data|
    ensures LooseJoined(out, LooseFieldsFrom(data, pos)) ==
            match LooseField(data, pos)
            case None => None
            case Some(p) => LooseJoined(out + [p.field], LooseFieldsFrom(data, p.next))
  {
    hide LooseField;
    match LooseField(data, pos)
    case None =>
    case Some(p) =>
      var rest := LooseFieldsFrom(data, p.next);
      if rest.Some? { assert out + ([p.field] + rest.value) == (out + [p.field]) + rest.value; }
  }

  lemma {:induction false} LooseJoinedEnds(out: seq<WireField>, data: bytes, pos: nat)
    ensures LooseJoined([], LooseFieldsFrom(data, pos)) == LooseFieldsFrom(data, pos)
    ensures pos >= |data| ==> LooseJoined(out, LooseFieldsFrom(data, pos)) == Some(out)
  {
    hide LooseField;
    if LooseFieldsFrom(data, pos).Some? { assert [] + LooseFieldsFrom(data, pos).value == LooseFieldsFrom(data, pos).value; }
    assert out + [] == out;
  }

  /** The varint at this position takes at most ten bytes. */
  predicate ShortVarint(data: bytes, pos: nat)
  {
    LooseVarint(data, pos).Some? ==> LooseVarint(data, pos).value.next <= pos + 10
  }

  lemma {:induction false} VarintsAgree(data: bytes, pos: nat, shift: nat)
    requires shift <= 70 && shift % 7 == 0
    ensures ReadVarint(data, pos, shift).Ok? <==>
            LooseVarint(data, pos).Some? && LooseVarint(data, pos).value.next <= pos + (70 - shift) / 7
    ensures ReadVarint(data, pos, shift).Ok? ==> LooseVarint(data, pos) == Some(ReadVarint(data, pos, shift).value)
    decreases |data| - pos
  {
    if pos < |data| && data[pos] >= 128 {
      if shift < 70 {
        VarintsAgree(data, pos + 1, shift + 7);
      } else if LooseVarint(data, pos).Some? {
        LooseAdvances(data, pos);
      }
    } else if pos < |data| && shift == 70 {
      LooseAdvances(data, pos);
    }
  }

  /** No varint of the field is overlong, and a length-delimited payload lies within the data. */
  predicate InBounds(data: bytes, pos: nat)
  {
    && ShortVarint(data, pos)
    && (LooseVarint(data, pos).Some? ==>
          var key := LooseVarint(data, pos).value;
          && (key.value % 8 == 0 || key.value % 8 == 2 ==> ShortVarint(data, key.next))
          && (key.value % 8 == 2 && LooseVarint(data, key.next).Some? ==>
                var size := LooseVarint(data, key.next).value; size.next + size.value <= |data|))
  }

  /** Every field the loose decoder visits is in bounds. */
  predicate AllInBounds(data: bytes, pos: nat)
    decreases |data| - pos
  {
    pos < |data| ==>
      && InBounds(data, pos)
      && match LooseField(data, pos)
         case None => true
         case Some(p) => (LooseFieldAdvances(data, pos); AllInBounds(data, p.next))
  }

  lemma {:induction false} FieldDecodersAgree(data: bytes, pos: nat)
    ensures ReadField(data, pos).Ok? <==> LooseField(data, pos).Some? && InBounds(data, pos)
    ensures ReadField(data, pos).Ok? ==> LooseField(data, pos) == Some(ReadField(data, pos).value)
  {
    hide ReadVarint, LooseVarint, Slice;
    VarintsAgree(data, pos, 0);
    if LooseVarint(data, pos).Some? {
      VarintsAgree(data, LooseVarint(data, pos).value.next, 0);
    }
  }

  /**
    The strict decoder accepts exactly the inputs the loose one accepts within bounds, and on those
    both yield the same fields.
   */
  lemma {:induction false} DecodersAgree(data: bytes, pos: nat)
    ensures FieldsFrom(data, pos).Ok? <==> LooseFieldsFrom(data, pos).Some? && AllInBounds(data, pos)
    ensures FieldsFrom(data, pos).Ok? ==> LooseFieldsFrom(data, pos) == Some(FieldsFrom(data, pos).value)
    decreases |data| - pos
  {
    hide ReadField, LooseField, InBounds;
    if pos < |data| {
      FieldDecodersAgree(data, pos);
      if ReadField(data, pos).Ok? {
        FieldAdvances(data, pos);
        DecodersAgree(data, ReadField(data, pos).value.next);
      }
    }
  }

  /** The two do differ: a cut-off payload passes the loose decoder alone. */
  lemma {:induction false} LooseDecoderTakesTruncatedField()
    ensures FieldsFrom([10, 5], 0).Err?
    ensures LooseFieldsFrom([10, 5], 0) == Some([WireField(1, 2, Bytes([]))])
  {
    var data: bytes := [10, 5];
    assert ReadVarint(data, 0, 0) == Ok(Read(10, 1)) && ReadVarint(data, 1, 0) == Ok(Read(5, 2));
    assert LooseVarint(data, 0) == Some(Read(10, 1)) && LooseVarint(data, 1) == Some(Read(5, 2));
    assert LooseField(data, 0) == Some(Parsed(WireField(1, 2, Bytes([])), 7));
    assert LooseFieldsFrom(data, 7) == Some([]);
    assert [WireField(1, 2, Bytes([]))] + [] == [WireField(1, 2, Bytes([]))];
  }
}
