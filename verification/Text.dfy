/**
  The Python string operations the comparator is built from: `replace`, `split`, decimal
  formatting, `int(...)`, and the UTF-8 and UTF-16 encodings of a string.
 */
module Text {
  import opened Outcomes

  /** `s.replace(old, new)`: left to right, non-overlapping. */
  function Replace(s: string, old_: string, new_: string): string
    requires old_ != ""
    decreases |s|
  {
    if |s| < |old_| then s
    else if s[..|old_|] == old_ then new_ + Replace(s[|old_|..], old_, new_)
    else [s[0]] + Replace(s[1..], old_, new_)
  }

  /** The escaping of one object key inside a JSON pointer. */
  function Escape(key: string): string { Replace(Replace(key, "~", "~0"), "/", "~1") }

  /** The unescaping of one pointer part back to an object key. */
  function Unescape(part: string): string { Replace(Replace(part, "~1", "/"), "~0", "~") }

  lemma {:induction false} ReplaceCharConcat(a: string, b: string, c: char, r: string)
    ensures Replace(a + b, [c], r) == Replace(a, [c], r) + Replace(b, [c], r)
  {
    if a == "" {
      assert a + b == b;
    } else {
      assert (a + b)[1..] == a[1..] + b;
      assert a[..1] == [a[0]] && (a + b)[..1] == [a[0]];
      ReplaceCharConcat(a[1..], b, c, r);
    }
  }

  /** What `Escape` does to one character. */
  function EscapeChar(c: char): string
  {
    if c == '~' then "~0" else if c == '/' then "~1" else [c]
  }

  lemma {:induction false} EscapeCons(key: string)
    requires key != ""
    ensures Escape(key) == EscapeChar(key[0]) + Escape(key[1..])
  {
    var c := key[0];
    var head := if c == '~' then "~0" else [c];
    var tail := Replace(key[1..], "~", "~0");
    assert key[..1] == [c];
    assert Replace(key, "~", "~0") == head + tail;
    ReplaceCharConcat(head, tail, '/', "~1");
    assert Replace(head, "/", "~1") == EscapeChar(c) by {
      if c == '~' {
        assert "~0"[..1] == "~" && "~0"[1..] == "0" && "0"[..1] == "0" && "0"[1..] == "";
      } else {
        assert [c][..1] == [c] && [c][1..] == "";
      }
    }
  }

  lemma {:induction false} EscapeHasNoSlash(key: string)
    ensures '/' !in Escape(key)
  {
    if key != "" {
      EscapeCons(key);
      EscapeHasNoSlash(key[1..]);
    }
  }

  /** The first unescaping pass leaves exactly the tildes escaped. */
  lemma {:induction false} UnescapeSlashes(key: string)
    ensures Replace(Escape(key), "~1", "/") == Replace(key, "~", "~0")
  {
    if key != "" {
      EscapeCons(key);
      UnescapeSlashes(key[1..]);
      var e, rest := Escape(key), Escape(key[1..]);
      assert key[..1] == [key[0]];
      if key[0] == '~' {
        assert e[..2] == "~0" && e[1..] == "0" + rest && e[1..][1..] == rest;
        if rest != "" { assert e[1..][..2] == ['0', rest[0]]; }
      } else if key[0] == '/' {
        assert e[..2] == "~1" && e[2..] == rest;
      } else {
        assert e[1..] == rest;
        if rest != "" { assert e[..2] == [key[0], rest[0]]; }
      }
    }
  }

  lemma {:induction false} UnescapeTildes(key: string)
    ensures Replace(Replace(key, "~", "~0"), "~0", "~") == key
  {
    if key != "" {
      UnescapeTildes(key[1..]);
      var once, rest := Replace(key, "~", "~0"), Replace(key[1..], "~", "~0");
      assert key[..1] == [key[0]];
      if key[0] == '~' {
        assert once == "~0" + rest && once[..2] == "~0" && once[2..] == rest;
      } else {
        assert once == [key[0]] + rest && once[1..] == rest;
        if rest != "" { assert once[..2] == [key[0], rest[0]]; }
      }
      assert key == [key[0]] + key[1..];
    }
  }

  /** Escaping loses nothing, whatever mix of '~' and '/' the key holds. */
  lemma {:induction false} UnescapeEscape(key: string)
    ensures Unescape(Escape(key)) == key
  {
    UnescapeSlashes(key);
    UnescapeTildes(key);
  }

  // ---- split ------------------------------------------------------------------------------

  function Split(s: string, sep: char): (parts: seq<string>)
    ensures |parts| >= 1
  {
    if s == "" then [""]
    else
      var rest := Split(s[1..], sep);
      if s[0] == sep then [""] + rest else [[s[0]] + rest[0]] + rest[1..]
  }

  lemma {:induction false} SplitAfterPrefix(part: string, rest: string, sep: char)
    requires sep !in part
    ensures Split(part + rest, sep) == [part + Split(rest, sep)[0]] + Split(rest, sep)[1..]
  {
    if part == "" {
      assert part + rest == rest;
      var parts := Split(rest, sep);
      assert part + parts[0] == parts[0] && parts == [parts[0]] + parts[1..];
    } else {
      assert (part + rest)[1..] == part[1..] + rest;
      SplitAfterPrefix(part[1..], rest, sep);
      assert part + Split(rest, sep)[0] == [part[0]] + (part[1..] + Split(rest, sep)[0]);
    }
  }

  // ---- decimal numbers ----------------------------------------------------------------------

  function Digit(d: nat): char
    requires d < 10
  {
    '0' + d as char
  }

  predicate IsDigit(c: char) { '0' <= c <= '9' }

  /** Decimal formatting of a list index. */
  function Decimal(n: nat): (s: string)
    ensures s != "" && forall i :: 0 <= i < |s| ==> IsDigit(s[i])
  {
    if n < 10 then [Digit(n)] else Decimal(n / 10) + [Digit(n % 10)]
  }

  predicate IsSpace(c: char)
  {
    c == ' ' || '\t' <= c <= '\r' || (0x1c <= c as int <= 0x1f) || c as int == 0x85 || c as int == 0xa0
  }

  function Strip(s: string): string
    decreases |s|
  {
    if s == "" then s
    else if IsSpace(s[0]) then Strip(s[1..])
    else if IsSpace(s[|s| - 1]) then Strip(s[..|s| - 1])
    else s
  }

  /** Digits, with single underscores allowed between them. */
  function Magnitude(s: string): Option<nat>
    decreases |s|
  {
    if s == "" || !IsDigit(s[|s| - 1]) then None
    else
      var d := s[|s| - 1] as int - '0' as int;
      if |s| == 1 then Some(d)
      else
        match Magnitude(if s[|s| - 2] == '_' then s[..|s| - 2] else s[..|s| - 1])
        case None => None
        case Some(high) => Some(10 * high + d)
  }

  /** Python's `int(token)`; None is the ValueError. */
  function ParseInt(token: string): Option<int>
  {
    var s := Strip(token);
    var signed := s != "" && (s[0] == '-' || s[0] == '+');
    match Magnitude(if signed then s[1..] else s)
    case None => None
    case Some(n) => var value: int := n; Some(if signed && s[0] == '-' then -value else value)
  }

  lemma {:induction false} MagnitudeOfDecimal(n: nat)
    ensures Magnitude(Decimal(n)) == Some(n)
  {
    if n >= 10 {
      MagnitudeOfDecimal(n / 10);
      var s := Decimal(n);
      assert s[..|s| - 1] == Decimal(n / 10);
      assert IsDigit(s[|s| - 2]);
    }
  }

  lemma {:induction false} ParseIntOfDecimal(n: nat)
    ensures ParseInt(Decimal(n)) == Some(n)
    ensures '/' !in Decimal(n)
  {
    MagnitudeOfDecimal(n);
    var s := Decimal(n);
    assert IsDigit(s[0]) && IsDigit(s[|s| - 1]);
    assert Strip(s) == s;
  }

  // ---- encodings ------------------------------------------------------------------------------

  /** Code points, the order Python compares strings in. */
  function Codes(s: string): seq<int> { seq(|s|, i requires 0 <= i < |s| => s[i] as int) }

  lemma {:induction false} CodesInjective(s: string, t: string)
    requires Codes(s) == Codes(t)
    ensures s == t
  {
    assert |s| == |Codes(s)| && |t| == |Codes(t)|;
    forall i | 0 <= i < |s| ensures s[i] == t[i] {
      assert Codes(s)[i] == s[i] as int && Codes(t)[i] == t[i] as int;
    }
  }

  function Utf8Char(c: char): (u: seq<int>)
    ensures 1 <= |u| <= 4 && forall i :: 0 <= i < |u| ==> 0 <= u[i] < 256
  {
    var n := c as int;
    if n < 0x80 then [n]
    else if n < 0x800 then [0xc0 + n / 64, 0x80 + n % 64]
    else if n < 0x10000 then [0xe0 + n / 4096, 0x80 + n / 64 % 64, 0x80 + n % 64]
    else [0xf0 + n / 262144, 0x80 + n / 4096 % 64, 0x80 + n / 64 % 64, 0x80 + n % 64]
  }

  function Utf16Char(c: char): (u: seq<int>)
    ensures 1 <= |u| <= 2
  {
    var n := c as int;
    if n < 0x10000 then [n] else [0xd800 + (n - 0x10000) / 1024, 0xdc00 + (n - 0x10000) % 1024]
  }

  function Utf8(s: string): (u: seq<int>)
    ensures forall i :: 0 <= i < |u| ==> 0 <= u[i] < 256
  {
    if s == "" then [] else Utf8Char(s[0]) + Utf8(s[1..])
  }

  function Utf16(s: string): seq<int>
  {
    if s == "" then [] else Utf16Char(s[0]) + Utf16(s[1..])
  }

  /** The code point that a UTF-8 unit group stands for. */
  function Utf8Value(u: seq<int>): int
    requires 1 <= |u| <= 4
  {
    if |u| == 1 then u[0]
    else if |u| == 2 then (u[0] - 0xc0) * 64 + u[1] - 0x80
    else if |u| == 3 then ((u[0] - 0xe0) * 64 + u[1] - 0x80) * 64 + u[2] - 0x80
    else (((u[0] - 0xf0) * 64 + u[1] - 0x80) * 64 + u[2] - 0x80) * 64 + u[3] - 0x80
  }

  lemma {:induction false} Utf8CharValue(c: char)
    ensures Utf8Value(Utf8Char(c)) == c as int
  {
    var n := c as int;
    assert n / 4096 == n / 64 / 64 && n / 262144 == n / 4096 / 64;
  }

  /** The first byte fixes how many bytes the character takes. */
  lemma {:induction false} Utf8CharLength(c: char)
    ensures var b := Utf8Char(c)[0];
            |Utf8Char(c)| == if b < 0xc0 then 1 else if b < 0xe0 then 2 else if b < 0xf0 then 3 else 4
  {
  }

  lemma {:induction false} Utf8CharPrefixFree(c: char, d: char, x: seq<int>, y: seq<int>)
    requires Utf8Char(c) + x == Utf8Char(d) + y
    ensures c == d && x == y
  {
    var u, v := Utf8Char(c), Utf8Char(d);
    assert (u + x)[0] == u[0] && (v + y)[0] == v[0];
    Utf8CharLength(c);
    Utf8CharLength(d);
    assert u == (u + x)[..|u|] && v == (v + y)[..|v|];
    assert (u + x)[|u|..] == x && (v + y)[|v|..] == y;
    Utf8CharValue(c);
    Utf8CharValue(d);
  }

  lemma {:induction false} Utf16CharPrefixFree(c: char, d: char, x: seq<int>, y: seq<int>)
    requires Utf16Char(c) + x == Utf16Char(d) + y
    ensures c == d && x == y
  {
    var u, v := Utf16Char(c), Utf16Char(d);
    assert (u + x)[0] == u[0] && (v + y)[0] == v[0];
    assert |u| == |v|;
    assert forall i :: 0 <= i < |u| ==> (u + x)[i] == u[i];
    assert forall i :: 0 <= i < |v| ==> (v + y)[i] == v[i];
    assert (u + x)[|u|..] == x && (v + y)[|v|..] == y;
  }

  /** One unit is the code point itself; two are a surrogate pair for what lies above 0xffff. */
  lemma {:induction false} Utf16CharValue(c: char)
    ensures var u := Utf16Char(c);
            && (|u| == 1 ==> u[0] == c as int < 0x10000)
            && (|u| == 2 ==> 0xd800 <= u[0] < 0xdc00 && 0xdc00 <= u[1] < 0xe000
                             && 0x10000 + (u[0] - 0xd800) * 1024 + (u[1] - 0xdc00) == c as int)
  {
    var n := c as int - 0x10000;
    assert n >= 0 ==> n == n / 1024 * 1024 + n % 1024;
  }

  /** Distinct strings have distinct UTF-8 encodings. */
  lemma {:induction false} Utf8Injective(s: string, t: string)
    requires Utf8(s) == Utf8(t)
    ensures s == t
  {
    if s != "" && t != "" {
      Utf8CharPrefixFree(s[0], t[0], Utf8(s[1..]), Utf8(t[1..]));
      Utf8Injective(s[1..], t[1..]);
      assert s == [s[0]] + s[1..] && t == [t[0]] + t[1..];
    }
  }

  /** Distinct strings have distinct UTF-16 encodings. */
  lemma {:induction false} Utf16Injective(s: string, t: string)
    requires Utf16(s) == Utf16(t)
    ensures s == t
  {
    if s != "" && t != "" {
      Utf16CharPrefixFree(s[0], t[0], Utf16(s[1..]), Utf16(t[1..]));
      Utf16Injective(s[1..], t[1..]);
      assert s == [s[0]] + s[1..] && t == [t[0]] + t[1..];
    }
  }
}
