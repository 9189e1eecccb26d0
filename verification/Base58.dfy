/** The Base58 encoding of addresses, and a decoder that shows it loses nothing. */
module Base58 {
  import opened Outcomes
  import opened Wire

  /** Digits and letters without 0, I, O and l. */
  const ALPHABET: string := "123456789" + "ABCDEFGH" + "JKLMN" + "PQRSTUVWXYZ" + "abcdefghijk" + "mnopqrstuvwxyz"

  // ---- positional numerals in any base -------------------------------------------------------------

  /** The digits of n, most significant first, none for zero. */
  function Digits(n: nat, radix: nat): (ds: seq<nat>)
    requires radix >= 2
    ensures forall i :: 0 <= i < |ds| ==> ds[i] < radix
    ensures ds != [] ==> ds[0] > 0
    decreases n
  {
    if n == 0 then []
    else
      DivSmaller(n, radix);
      Digits(n / radix, radix) + [n % radix]
  }

  lemma {:induction false} DivSmaller(n: nat, radix: nat)
    requires n > 0 && radix >= 2
    ensures n / radix < n
    ensures n < radix ==> n / radix == 0 && n % radix == n
    ensures n / radix == 0 ==> n % radix == n
  {
    assert n == radix * (n / radix) + n % radix;
    if n < radix { assert n / radix == 0; }
  }

  function Value(ds: seq<nat>, radix: nat): nat
  {
    if ds == [] then 0 else Value(ds[..|ds| - 1], radix) * radix + ds[|ds| - 1]
  }

  lemma {:induction false} ValueAppend(ds: seq<nat>, d: nat, radix: nat)
    ensures Value(ds + [d], radix) == Value(ds, radix) * radix + d
  {
    assert (ds + [d])[..|ds|] == ds;
  }

  lemma {:induction false} DivMod(n: nat, radix: nat)
    requires radix >= 2
    ensures n / radix * radix + n % radix == n
  {
  }

  lemma {:induction false} ValueOfDigits(n: nat, radix: nat)
    requires radix >= 2
    ensures Value(Digits(n, radix), radix) == n
    decreases n
  {
    hide Value;
    if n > 0 {
      DivSmaller(n, radix);
      ValueOfDigits(n / radix, radix);
      ValueAppend(Digits(n / radix, radix), n % radix, radix);
      DivMod(n, radix);
    } else {
      ValueNothing(radix);
    }
  }

  lemma {:induction false} ValueNothing(radix: nat)
    ensures Value([], radix) == 0
  {
  }

  lemma {:induction false} SmallMultiple(k: int, radix: nat)
    requires -(radix as int) < k * radix < radix
    ensures k == 0
  {
  }

  lemma {:induction false} DivOfSum(v: nat, radix: nat, d: nat)
    requires d < radix
    ensures (v * radix + d) / radix == v && (v * radix + d) % radix == d
  {
    var n := v * radix + d;
    assert n == radix * (n / radix) + n % radix;
    var k := n / radix - v;
    assert k * radix == d - n % radix;
    SmallMultiple(k, radix);
  }

  lemma {:induction false} ValuePositive(ds: seq<nat>, radix: nat)
    requires ds != [] && ds[0] > 0 && radix >= 2
    ensures Value(ds, radix) > 0
    decreases |ds|
  {
    if |ds| > 1 {
      ValuePositive(ds[..|ds| - 1], radix);
      assert Value(ds[..|ds| - 1], radix) * radix > 0;
    } else {
      assert ds[..0] == [];
    }
  }

  /** Digits without leading zeros are determined by their value. */
  lemma {:induction false} DigitsOfValue(ds: seq<nat>, radix: nat)
    requires radix >= 2 && (forall i :: 0 <= i < |ds| ==> ds[i] < radix) && (ds != [] ==> ds[0] > 0)
    ensures Digits(Value(ds, radix), radix) == ds
    decreases |ds|
  {
    if ds != [] {
      var n := |ds| - 1;
      ValuePositive(ds, radix);
      DivOfSum(Value(ds[..n], radix), radix, ds[n]);
      DigitsOfValue(ds[..n], radix);
      assert ds == ds[..n] + [ds[n]];
    }
  }

  function Zeros(n: nat): seq<nat> { seq(n, _ => 0) }

  lemma {:induction false} ZerosWorthNothing(z: nat, radix: nat)
    ensures Value(Zeros(z), radix) == 0
  {
    if z > 0 {
      ZerosWorthNothing(z - 1, radix);
      assert Zeros(z) == Zeros(z - 1) + [0];
      ValueAppend(Zeros(z - 1), 0, radix);
    }
  }

  lemma {:induction false} LeadingZeros(z: nat, ds: seq<nat>, radix: nat)
    ensures Value(Zeros(z) + ds, radix) == Value(ds, radix)
    decreases |ds|
  {
    if ds == [] {
      ZerosWorthNothing(z, radix);
      assert Zeros(z) + [] == Zeros(z);
    } else {
      var n := |ds| - 1;
      LeadingZeros(z, ds[..n], radix);
      assert Zeros(z) + ds == (Zeros(z) + ds[..n]) + [ds[n]];
      ValueAppend(Zeros(z) + ds[..n], ds[n], radix);
    }
  }

  // ---- the alphabet -----------------------------------------------------------------------------------

  /** Position of a character in the alphabet. */
  function DigitOf(c: char, i: nat := 0): (d: Option<nat>)
    requires i <= |ALPHABET|
    ensures d.Some? ==> i <= d.value < |ALPHABET| && ALPHABET[d.value] == c
    decreases |ALPHABET| - i
  {
    if i == |ALPHABET| then None else if ALPHABET[i] == c then Some(i) else DigitOf(c, i + 1)
  }

  /** The alphabet in ranges of consecutive characters. */
  function SpelledOut(d: nat): char
    requires d < 58
  {
    if d < 9 then '1' + d as char
    else if d < 17 then 'A' + (d - 9) as char
    else if d < 22 then 'J' + (d - 17) as char
    else if d < 33 then 'P' + (d - 22) as char
    else if d < 44 then 'a' + (d - 33) as char
    else 'm' + (d - 44) as char
  }

  /** A run of n characters from c on. */
  function RunFrom(c: char, n: nat): string
    requires c as int + n <= 128
  {
    seq(n, i requires 0 <= i < n => c + i as char)
  }

  lemma {:induction false} DigitRun()
    ensures "123456789" == RunFrom('1', 9)
  {
  }

  lemma {:induction false} UpperRuns()
    ensures "ABCDEFGH" == RunFrom('A', 8) && "JKLMN" == RunFrom('J', 5) && "PQRSTUVWXYZ" == RunFrom('P', 11)
  {
  }

  lemma {:induction false} LowerRuns()
    ensures "abcdefghijk" == RunFrom('a', 11) && "mnopqrstuvwxyz" == RunFrom('m', 14)
  {
  }

  lemma {:induction false} AlphabetSpelled(d: nat)
    requires d < 58
    ensures |ALPHABET| == 58 && ALPHABET[d] == SpelledOut(d)
  {
    DigitRun();
    UpperRuns();
    LowerRuns();
    var a, b, c, e, f, g := RunFrom('1', 9), RunFrom('A', 8), RunFrom('J', 5), RunFrom('P', 11), RunFrom('a', 11), RunFrom('m', 14);
    assert ALPHABET == a + b + c + e + f + g;
  }

  lemma {:induction false} AlphabetDistinct(d: nat, e: nat)
    requires d < 58 && e < 58 && d != e
    ensures |ALPHABET| == 58 && ALPHABET[d] != ALPHABET[e]
  {
    hide SpelledOut;
    AlphabetSpelled(d);
    AlphabetSpelled(e);
    SpellingDistinct(d, e);
  }

  lemma {:induction false} SpellingDistinct(d: nat, e: nat)
    requires d < 58 && e < 58 && d != e
    ensures SpelledOut(d) != SpelledOut(e)
  {
  }

  // ---- encoding ---------------------------------------------------------------------------------------

  function CharOf(d: nat): char
    requires d < 58
  {
    AlphabetSpelled(d);
    ALPHABET[d]
  }

  /** Leading zero bytes. */
  function ZeroCount(input: bytes): (z: nat)
    ensures z <= |input|
    ensures forall i :: 0 <= i < z ==> input[i] == 0
    ensures z < |input| ==> input[z] != 0
  {
    if input == [] || input[0] != 0 then 0 else 1 + ZeroCount(input[1..])
  }

  function Chars(ds: seq<nat>): string
    requires forall i :: 0 <= i < |ds| ==> ds[i] < 58
  {
    seq(|ds|, i requires 0 <= i < |ds| => CharOf(ds[i]))
  }

  function Ones(n: nat): string { seq(n, _ => '1') }

  function AsNumbers(input: bytes): seq<nat> { seq(|input|, i requires 0 <= i < |input| => input[i]) }

  /** A '1' for every leading zero byte, then the digits of the big-endian number. */
  function Encode(input: bytes): string
  {
    Ones(ZeroCount(input)) + Chars(Digits(Value(AsNumbers(input), 256), 58))
  }

  function Reverse(s: string): string
  {
    if s == "" then "" else Reverse(s[1..]) + [s[0]]
  }

  lemma {:induction false} ReverseAppend(s: string, c: char)
    ensures Reverse(s + [c]) == [c] + Reverse(s)
  {
    if s == "" {
      assert s + [c] == [c] && [c][1..] == "";
    } else {
      assert (s + [c])[1..] == s[1..] + [c];
      ReverseAppend(s[1..], c);
    }
  }

  lemma {:induction false} CharsAppend(ds: seq<nat>, d: nat)
    requires (forall i :: 0 <= i < |ds| ==> ds[i] < 58) && d < 58
    ensures Chars(ds + [d]) == Chars(ds) + [CharOf(d)]
  {
    hide CharOf;
  }

  /** One division: the digit that goes to the end of the buffer is the last one of the number. */
  lemma {:induction false} OneDivision(n: nat, sb: string)
    requires n > 0
    ensures Chars(Digits(n / 58, 58)) + Reverse(sb + [CharOf(n % 58)]) == Chars(Digits(n, 58)) + Reverse(sb)
    ensures n / 58 < n
  {
    hide CharOf, Chars, Reverse, Digits;
    DigitsStep(n);
    CharsAppend(Digits(n / 58, 58), n % 58);
    ReverseAppend(sb, CharOf(n % 58));
    var high, d, low := Chars(Digits(n / 58, 58)), [CharOf(n % 58)], Reverse(sb);
    assert (high + d) + low == high + (d + low);
  }

  /** The first loop: digits, least significant first. */
  method AppendDigits(value: nat) returns (sb: string)
    ensures Reverse(sb) == Chars(Digits(value, 58))
  {
    hide CharOf, Chars, Digits, Reverse;
    var n := value;
    sb := "";
    StartBuffer(value);
    while n != 0
      invariant n >= 0 && Chars(Digits(n, 58)) + Reverse(sb) == Chars(Digits(value, 58))
      decreases n
    {
      OneDivision(n, sb);
      sb, n := sb + [CharOf(n % 58)], n / 58;
    }
    NoDigits();
  }

  lemma {:induction false} StartBuffer(n: nat)
    ensures Chars(Digits(n, 58)) + Reverse("") == Chars(Digits(n, 58))
  {
  }

  /** `base58`: digits are appended least significant first, then the ones, and all is reversed. */
  method EncodeBase58(input: bytes) returns (s: string)
    ensures s == Encode(input)
  {
    hide Chars, Digits, Value, Reverse;
    var sb := AppendDigits(Value(AsNumbers(input), 256));
    ghost var all := Reverse(sb);
    assert Ones(0) + all == all;
    var i := 0;
    while i < |input| && input[i] == 0
      invariant 0 <= i <= ZeroCount(input)
      invariant Reverse(sb) == Ones(i) + all
    {
      ReverseAppend(sb, '1');
      assert ['1'] + (Ones(i) + all) == Ones(i + 1) + all;
      sb := sb + ['1'];
      i := i + 1;
    }
    s := Reverse(sb);
  }

  lemma {:induction false} DigitsStep(n: nat)
    requires n > 0
    ensures Digits(n, 58) == Digits(n / 58, 58) + [n % 58]
    ensures n / 58 < n
  {
  }

  lemma {:induction false} NoDigits()
    ensures Digits(0, 58) == [] && Chars(Digits(0, 58)) == ""
  {
  }

  // ---- decoding ---------------------------------------------------------------------------------------

  function OneCount(s: string): nat
  {
    if s == "" || s[0] != '1' then 0 else 1 + OneCount(s[1..])
  }

  function DigitsOf(s: string): Option<seq<nat>>
  {
    if s == "" then Some([])
    else
      match (DigitOf(s[|s| - 1]), DigitsOf(s[..|s| - 1]))
      case (Some(d), Some(ds)) => Some(ds + [d])
      case _ => None
  }

  /** Turns ones back into zero bytes and the remaining digits into big-endian bytes. */
  function Decode(s: string): Option<seq<nat>>
  {
    match DigitsOf(s)
    case None => None
    case Some(ds) => Some(Zeros(OneCount(s)) + Digits(Value(ds, 58), 256))
  }

  lemma {:induction false} DigitOfFrom(d: nat, i: nat)
    requires i <= d < 58
    ensures |ALPHABET| == 58 && DigitOf(CharOf(d), i) == Some(d)
    decreases d - i
  {
    AlphabetSpelled(d);
    if i < d {
      AlphabetDistinct(i, d);
      DigitOfFrom(d, i + 1);
    }
  }

  lemma {:induction false} DigitsOfChars(ds: seq<nat>)
    requires forall i :: 0 <= i < |ds| ==> ds[i] < 58
    ensures DigitsOf(Chars(ds)) == Some(ds)
    decreases |ds|
  {
    hide CharOf, DigitOf;
    if ds != [] {
      var n := |ds| - 1;
      DigitsOfChars(ds[..n]);
      DigitOfFrom(ds[n], 0);
      assert Chars(ds)[..n] == Chars(ds[..n]);
      assert ds == ds[..n] + [ds[n]];
    }
  }

  lemma {:induction false} CountsOnes(z: nat, s: string)
    requires s == "" || s[0] != '1'
    ensures OneCount(Ones(z) + s) == z
  {
    if z == 0 {
      assert Ones(0) + s == s;
    } else {
      assert (Ones(z) + s)[1..] == Ones(z - 1) + s;
      CountsOnes(z - 1, s);
    }
  }

  lemma {:induction false} OneIsZero()
    ensures CharOf(0) == '1'
    ensures forall d :: 0 < d < 58 ==> CharOf(d) != '1'
  {
    AlphabetSpelled(0);
    forall d | 0 < d < 58 ensures CharOf(d) != '1' { AlphabetDistinct(0, d); }
  }

  /** The encoding begins with as many ones as there are zero bytes, and its digits give the number. */
  lemma {:induction false} EncodingShape(input: bytes)
    ensures var ds := Digits(Value(AsNumbers(input), 256), 58);
            && OneCount(Encode(input)) == ZeroCount(input)
            && DigitsOf(Encode(input)) == Some(Zeros(ZeroCount(input)) + ds)
  {
    hide CharOf, Digits, Value;
    var z := ZeroCount(input);
    var ds := Digits(Value(AsNumbers(input), 256), 58);
    OneIsZero();
    CountsOnes(z, Chars(ds));
    var padded := Zeros(z) + ds;
    assert Chars(padded) == Ones(z) + Chars(ds);
    DigitsOfChars(padded);
  }

  /** Every byte array, empty and all-zero ones included, is decoded back. */
  lemma {:induction false} RoundTrip(input: bytes)
    ensures Decode(Encode(input)) == Some(AsNumbers(input))
  {
    hide Digits, Value, Encode, DigitsOf, OneCount;
    var z := ZeroCount(input);
    var numbers := AsNumbers(input);
    var rest := numbers[z..];
    var n := Value(numbers, 256);
    EncodingShape(input);
    LeadingZeros(z, Digits(n, 58), 58);
    ValueOfDigits(n, 58);
    assert numbers == Zeros(z) + rest;
    LeadingZeros(z, rest, 256);
    DigitsOfValue(rest, 256);
  }

  /** So no two byte arrays share an encoding. */
  lemma {:induction false} Injective(a: bytes, b: bytes)
    requires Encode(a) == Encode(b)
    ensures a == b
  {
    RoundTrip(a);
    RoundTrip(b);
    assert |a| == |AsNumbers(a)| && |b| == |AsNumbers(b)|;
    forall i | 0 <= i < |a| ensures a[i] == b[i] { assert AsNumbers(a)[i] == a[i] && AsNumbers(b)[i] == b[i]; }
  }
}
