/**
  The bytes that are hashed: the length-prefixed serialisation of database rows behind a state
  root, and the tagged framing of a source tree. The hashes themselves are outside the model; what
  is fed to them identifies the content.
 */
module Framing {
  import opened Outcomes
  import opened Sorting
  import opened Text

  type Data = d: seq<int> | forall i :: 0 <= i < |d| ==> 0 <= d[i] < 256

  // ---- length prefixes -------------------------------------------------------------------------

  /** n in k big-endian bytes. */
  function BigEndian(n: nat, k: nat): (out: seq<int>)
    ensures |out| == k
  {
    if k == 0 then [] else BigEndian(n / 256, k - 1) + [n % 256]
  }

  function Pow256(k: nat): nat { if k == 0 then 1 else 256 * Pow256(k - 1) }

  lemma {:induction false} BigEndianInjective(m: nat, n: nat, k: nat)
    requires m < Pow256(k) && n < Pow256(k) && BigEndian(m, k) == BigEndian(n, k)
    ensures m == n
    decreases k
  {
    if k > 0 {
      var a, b := BigEndian(m, k), BigEndian(n, k);
      assert a[..k - 1] == BigEndian(m / 256, k - 1) && b[..k - 1] == BigEndian(n / 256, k - 1);
      assert a[k - 1] == m % 256 && b[k - 1] == n % 256;
      BigEndianInjective(m / 256, n / 256, k - 1);
    }
  }

  /** A value behind its length in k bytes. */
  function Prefixed(d: seq<int>, k: nat): seq<int> { BigEndian(|d|, k) + d }

  /** What follows a length-prefixed value can be told apart from it. */
  lemma {:induction false} PrefixedInjective(a: seq<int>, b: seq<int>, k: nat, x: seq<int>, y: seq<int>)
    requires |a| < Pow256(k) && |b| < Pow256(k)
    requires Prefixed(a, k) + x == Prefixed(b, k) + y
    ensures a == b && x == y
  {
    var p, q := Prefixed(a, k) + x, Prefixed(b, k) + y;
    assert p[..k] == BigEndian(|a|, k) && q[..k] == BigEndian(|b|, k);
    BigEndianInjective(|a|, |b|, k);
    assert p[k..k + |a|] == a && q[k..k + |b|] == b;
    assert p[k + |a|..] == x && q[k + |b|..] == y;
  }

  // ---- database rows -----------------------------------------------------------------------------

  datatype Row = Row(store: string, key: Data, value: Data)

  /** Lengths a Java array can have. */
  predicate RowOk(r: Row)
  {
    |Utf8(r.store)| < 0x8000_0000 && |r.key| < 0x8000_0000 && |r.value| < 0x8000_0000
  }

  predicate RowsOk(rows: seq<Row>) { forall i :: 0 <= i < |rows| ==> RowOk(rows[i]) }

  /** `field`: four shifted and masked bytes, then the value. */
  method Field(out: seq<int>, bytes: Data) returns (r: seq<int>)
    requires |bytes| < 0x8000_0000
    ensures r == out + Prefixed(bytes, 4)
  {
    var n := |bytes|;
    r := out + [n / 0x1000000 % 256, n / 0x10000 % 256, n / 0x100 % 256, n % 256];
    FourBytes(n);
    r := r + bytes;
  }

  lemma {:induction false} FourBytes(n: nat)
    ensures BigEndian(n, 4) == [n / 0x1000000 % 256, n / 0x10000 % 256, n / 0x100 % 256, n % 256]
  {
    assert BigEndian(n / 0x1000000, 1) == [n / 0x1000000 % 256];
    assert n / 0x10000 / 256 == n / 0x1000000 && n / 0x100 / 256 == n / 0x10000;
    assert BigEndian(n / 0x10000, 2) == [n / 0x1000000 % 256, n / 0x10000 % 256];
    assert BigEndian(n / 0x100, 3) == [n / 0x1000000 % 256, n / 0x10000 % 256, n / 0x100 % 256];
  }

  function RowBytes(r: Row): seq<int>
  {
    Prefixed(Utf8(r.store), 4) + Prefixed(r.key, 4) + Prefixed(r.value, 4)
  }

  function Serialize(rows: seq<Row>): seq<int>
  {
    if rows == [] then [] else RowBytes(rows[0]) + Serialize(rows[1..])
  }

  /** `Row.compareTo`: store names by UTF-16 units, then keys as unsigned bytes. */
  function RowOrder(): (Row, Row) -> bool
  {
    (a: Row, b: Row) => if a.store == b.store then LexLe(a.key, b.key) else LexLe(Utf16(a.store), Utf16(b.store))
  }

  /** `compare`: negative, zero or positive as the first key is before, equal to or after the second. */
  method CompareKeys(a: Data, b: Data) returns (c: int)
    ensures c <= 0 <==> LexLe(a, b)
    ensures c == 0 <==> a == b
  {
    var i := 0;
    var n := if |a| < |b| then |a| else |b|;
    assert a[0..] == a && b[0..] == b;
    while i < n
      invariant 0 <= i <= n && a[..i] == b[..i]
      invariant LexLe(a, b) <==> LexLe(a[i..], b[i..])
    {
      assert a[i..][0] == a[i] && b[i..][0] == b[i];
      assert a[i..][1..] == a[i + 1..] && b[i..][1..] == b[i + 1..];
      if a[i] != b[i] {
        return if a[i] < b[i] then -1 else 1;
      }
      i := i + 1;
    }
    assert |a| == |b| ==> a == b by { assert a[..i] == a || i < |a|; assert b[..i] == b || i < |b|; }
    return if |a| < |b| then -1 else if |a| == |b| then 0 else 1;
  }

  /** `Row.compareTo`: the sign of comparing the stores, or of comparing the keys within one store. */
  method CompareRows(a: Row, b: Row) returns (c: int)
    ensures c <= 0 <==> RowOrder()(a, b)
    ensures c == 0 <==> a.store == b.store && a.key == b.key
  {
    if a.store != b.store {
      LexTotal(Utf16(a.store), Utf16(b.store));
      return if LexLe(Utf16(a.store), Utf16(b.store)) then -1 else 1;
    }
    c := CompareKeys(a.key, b.key);
  }

  /** One row: its store, key and value. */
  method WriteRow(out: seq<int>, row: Row) returns (r: seq<int>)
    requires RowOk(row)
    ensures r == out + RowBytes(row)
  {
    hide Prefixed, Utf8;
    r := Field(out, Utf8(row.store));
    r := Field(r, row.key);
    r := Field(r, row.value);
    var a, b, c := Prefixed(Utf8(row.store), 4), Prefixed(row.key, 4), Prefixed(row.value, 4);
    assert ((out + a) + b) + c == out + (a + b + c);
  }

  /** The bytes `root` hashes: a sorted copy of the rows, field by field. */
  method RootBytes(source: seq<Row>) returns (out: seq<int>)
    requires RowsOk(source)
    ensures out == Serialize(Sort(source, RowOrder()))
  {
    hide Sort, RowBytes, RowOk;
    var rows := Sort(source, RowOrder());
    SortedRowsOk(source);
    out := [];
    var i := 0;
    while i < |rows|
      invariant 0 <= i <= |rows|
      invariant Serialize(rows) == out + Serialize(rows[i..])
    {
      assert rows[i..][0] == rows[i] && rows[i..][1..] == rows[i + 1..];
      ghost var rest := Serialize(rows[i + 1..]);
      assert out + (RowBytes(rows[i]) + rest) == (out + RowBytes(rows[i])) + rest;
      out := WriteRow(out, rows[i]);
      i := i + 1;
    }
    assert out + [] == out;
  }

  lemma {:induction false} SortedRowsOk(rows: seq<Row>)
    requires RowsOk(rows)
    ensures RowsOk(Sort(rows, RowOrder()))
  {
    hide RowOk;
    var sorted := Sort(rows, RowOrder());
    SortKeeps(rows, RowOrder());
    SameElements(rows, sorted);
    forall i | 0 <= i < |sorted| ensures RowOk(sorted[i]) {
      assert sorted[i] in rows;
      var j :| 0 <= j < |rows| && rows[j] == sorted[i];
    }
  }

  lemma {:induction false} JavaLengths()
    ensures Pow256(4) == 0x1_0000_0000
  {
    assert Pow256(2) == 65536 && Pow256(3) == 0x100_0000;
  }

  lemma {:induction false} RowBytesInjective(r: Row, s: Row, x: seq<int>, y: seq<int>)
    requires RowOk(r) && RowOk(s) && RowBytes(r) + x == RowBytes(s) + y
    ensures r == s && x == y
  {
    hide Prefixed, Utf8, Pow256;
    JavaLengths();
    var a, b, c := Prefixed(Utf8(r.store), 4), Prefixed(r.key, 4), Prefixed(r.value, 4);
    var d, e, f := Prefixed(Utf8(s.store), 4), Prefixed(s.key, 4), Prefixed(s.value, 4);
    assert RowBytes(r) + x == a + (b + (c + x)) && RowBytes(s) + y == d + (e + (f + y));
    PrefixedInjective(Utf8(r.store), Utf8(s.store), 4, b + (c + x), e + (f + y));
    PrefixedInjective(r.key, s.key, 4, c + x, f + y);
    PrefixedInjective(r.value, s.value, 4, x, y);
    Utf8Injective(r.store, s.store);
  }

  lemma {:induction false} RowBytesLength(r: Row)
    ensures |RowBytes(r)| >= 12
  {
  }

  /** Different row lists give different bytes. */
  lemma {:induction false} SerializeInjective(a: seq<Row>, b: seq<Row>)
    requires RowsOk(a) && RowsOk(b) && Serialize(a) == Serialize(b)
    ensures a == b
    decreases |a|
  {
    hide RowBytes, RowOk;
    if a != [] && b != [] {
      RowBytesInjective(a[0], b[0], Serialize(a[1..]), Serialize(b[1..]));
      SerializeInjective(a[1..], b[1..]);
      assert a == [a[0]] + a[1..] && b == [b[0]] + b[1..];
    } else if a != [] {
      RowBytesLength(a[0]);
    } else if b != [] {
      RowBytesLength(b[0]);
    }
  }

  lemma {:induction false} RowOrderIsTotal()
    ensures TotalPreorder(RowOrder())
  {
    hide Utf16, LexLe;
    var le := RowOrder();
    forall x, y ensures le(x, y) || le(y, x) {
      LexTotal(x.key, y.key);
      LexTotal(Utf16(x.store), Utf16(y.store));
    }
    forall x, y, z | le(x, y) && le(y, z) ensures le(x, z) { RowOrderTransitive(x, y, z); }
  }

  lemma {:induction false} RowOrderTransitive(x: Row, y: Row, z: Row)
    requires RowOrder()(x, y) && RowOrder()(y, z)
    ensures RowOrder()(x, z)
  {
    hide Utf16, LexLe;
    if x.store == z.store {
      if x.store == y.store {
        LexTransitive(x.key, y.key, z.key);
      } else {
        LexAntisymmetric(Utf16(x.store), Utf16(y.store));
        Utf16Injective(x.store, y.store);
      }
    } else if x.store != y.store && y.store != z.store {
      LexTransitive(Utf16(x.store), Utf16(y.store), Utf16(z.store));
    }
  }

  /**
    The rows behind a root: those given, store by store in the order of their UTF-16 units, and the
    keys of one store ascending as unsigned bytes.
   */
  lemma {:induction false} RootRowsInOrder(source: seq<Row>, i: nat, j: nat)
    requires i < j < |Sort(source, RowOrder())|
    ensures var rows := Sort(source, RowOrder());
            && multiset(rows) == multiset(source)
            && (rows[i].store == rows[j].store ==> FirstDifference(rows[i].key, rows[j].key))
            && (rows[i].store != rows[j].store ==>
                  FirstDifference(Utf16(rows[i].store), Utf16(rows[j].store)) && Utf16(rows[i].store) != Utf16(rows[j].store))
  {
    hide Utf16, LexLe, Sort, FirstDifference;
    var rows := Sort(source, RowOrder());
    RowOrderIsTotal();
    SortSorts(source, RowOrder());
    assert RowOrder()(rows[i], rows[j]);
    LexIsFirstDifference(rows[i].key, rows[j].key);
    LexIsFirstDifference(Utf16(rows[i].store), Utf16(rows[j].store));
    if Utf16(rows[i].store) == Utf16(rows[j].store) { Utf16Injective(rows[i].store, rows[j].store); }
  }

  /** No two rows share both store and key. */
  ghost predicate UniqueKeys(rows: seq<Row>)
  {
    forall r, s :: r in rows && s in rows && r.store == s.store && r.key == s.key ==> r == s
  }

  lemma {:induction false} RowOrderSeparates(rows: seq<Row>)
    requires UniqueKeys(rows)
    ensures Separates(rows, RowOrder())
  {
    hide Utf16, LexLe;
    forall r, s | r in rows && s in rows && RowOrder()(r, s) && RowOrder()(s, r) ensures r == s {
      if r.store == s.store {
        LexAntisymmetric(r.key, s.key);
      } else {
        LexAntisymmetric(Utf16(r.store), Utf16(s.store));
        Utf16Injective(r.store, s.store);
      }
    }
  }

  /**
    The bytes behind a state root identify the rows: with unique keys they are equal exactly when
    the same rows were given, in whatever order.
   */
  lemma {:induction false} RootIdentifiesRows(a: seq<Row>, b: seq<Row>)
    requires RowsOk(a) && RowsOk(b) && UniqueKeys(a)
    ensures Serialize(Sort(a, RowOrder())) == Serialize(Sort(b, RowOrder())) <==> multiset(a) == multiset(b)
  {
    hide Serialize, RowOk, Sort;
    SortedRowsOk(a);
    SortedRowsOk(b);
    SortKeeps(a, RowOrder());
    SortKeeps(b, RowOrder());
    if Serialize(Sort(a, RowOrder())) == Serialize(Sort(b, RowOrder())) {
      SerializeInjective(Sort(a, RowOrder()), Sort(b, RowOrder()));
    }
    if multiset(a) == multiset(b) {
      RowOrderIsTotal();
      RowOrderSeparates(a);
      SortForgetsOrder(a, b, RowOrder());
    }
  }

  // ---- source trees ----------------------------------------------------------------------------------

  datatype Content = Missing | Link(target: string) | File(bytes: Data)

  datatype Node = Node(path: string, content: Content)

  /** Lengths `to_bytes` accepts; beyond them it raises. */
  predicate NodeOk(n: Node)
  {
    && |Utf8(n.path)| < Pow256(4)
    && (n.content.Link? ==> |Utf8(n.content.target)| < Pow256(8))
    && (n.content.File? ==> |n.content.bytes| < Pow256(8))
  }

  function ContentBytes(c: Content): seq<int>
  {
    match c
    case Missing => ['M' as int]
    case Link(target) => ['L' as int] + Prefixed(Utf8(target), 8)
    case File(bytes) => ['F' as int] + Prefixed(bytes, 8)
  }

  function NodeBytes(n: Node): seq<int> { Prefixed(Utf8(n.path), 4) + ContentBytes(n.content) }

  function TreeBytes(nodes: seq<Node>): seq<int>
  {
    if nodes == [] then [] else NodeBytes(nodes[0]) + TreeBytes(nodes[1..])
  }

  function PathOrder(): (Node, Node) -> bool { (a: Node, b: Node) => LexLe(Codes(a.path), Codes(b.path)) }

  predicate NodesOk(nodes: seq<Node>) { forall i :: 0 <= i < |nodes| ==> NodeOk(nodes[i]) }

  /** `_tree_digest` up to the hash: feeds the digest path by path, in path order. */
  method TreeDigestInput(candidates: seq<Node>) returns (fed: Option<seq<int>>)
    ensures fed.Some? <==> NodesOk(candidates)
    ensures fed.Some? ==> fed.value == TreeBytes(Sort(candidates, PathOrder()))
  {
    hide Sort, NodeOk, NodeBytes;
    var nodes := Sort(candidates, PathOrder());
    SortedNodesOk(candidates);
    var out: seq<int> := [];
    var i := 0;
    while i < |nodes|
      invariant 0 <= i <= |nodes|
      invariant forall j :: 0 <= j < i ==> NodeOk(nodes[j])
      invariant TreeBytes(nodes) == out + TreeBytes(nodes[i..])
    {
      assert nodes[i..][0] == nodes[i] && nodes[i..][1..] == nodes[i + 1..];
      if !NodeOk(nodes[i]) {
        return None;
      }
      ghost var rest := TreeBytes(nodes[i + 1..]);
      assert out + (NodeBytes(nodes[i]) + rest) == (out + NodeBytes(nodes[i])) + rest;
      out := out + NodeBytes(nodes[i]);
      i := i + 1;
    }
    assert out + [] == out;
    return Some(out);
  }

  lemma {:induction false} SortedNodesOk(nodes: seq<Node>)
    ensures NodesOk(Sort(nodes, PathOrder())) <==> NodesOk(nodes)
  {
    hide NodeOk;
    var sorted := Sort(nodes, PathOrder());
    SortKeeps(nodes, PathOrder());
    SameElements(nodes, sorted);
    if NodesOk(nodes) {
      forall i | 0 <= i < |sorted| ensures NodeOk(sorted[i]) {
        assert sorted[i] in nodes;
        var j :| 0 <= j < |nodes| && nodes[j] == sorted[i];
      }
    }
    if NodesOk(sorted) {
      forall i | 0 <= i < |nodes| ensures NodeOk(nodes[i]) {
        assert nodes[i] in sorted;
        var j :| 0 <= j < |sorted| && sorted[j] == nodes[i];
      }
    }
  }

  lemma {:induction false} ContentBytesInjective(c: Content, d: Content, x: seq<int>, y: seq<int>)
    requires c.Link? ==> |Utf8(c.target)| < Pow256(8)
    requires d.Link? ==> |Utf8(d.target)| < Pow256(8)
    requires c.File? ==> |c.bytes| < Pow256(8)
    requires d.File? ==> |d.bytes| < Pow256(8)
    requires ContentBytes(c) + x == ContentBytes(d) + y
    ensures c == d && x == y
  {
    hide Prefixed, Utf8, Pow256;
    var t, u := ContentBytes(c), ContentBytes(d);
    assert (t + x)[0] == t[0] && (u + y)[0] == u[0];
    assert t == [t[0]] + t[1..] && u == [u[0]] + u[1..];
    assert (t + x)[1..] == t[1..] + x && (u + y)[1..] == u[1..] + y;
    match c
    case Missing =>
    case Link(target) =>
      PrefixedInjective(Utf8(target), Utf8(d.target), 8, x, y);
      Utf8Injective(target, d.target);
    case File(bytes) =>
      PrefixedInjective(bytes, d.bytes, 8, x, y);
  }

  lemma {:induction false} NodeBytesInjective(m: Node, n: Node, x: seq<int>, y: seq<int>)
    requires NodeOk(m) && NodeOk(n) && NodeBytes(m) + x == NodeBytes(n) + y
    ensures m == n && x == y
  {
    hide Prefixed, Utf8, Pow256, ContentBytes;
    var a, b := ContentBytes(m.content), ContentBytes(n.content);
    assert NodeBytes(m) + x == Prefixed(Utf8(m.path), 4) + (a + x);
    assert NodeBytes(n) + y == Prefixed(Utf8(n.path), 4) + (b + y);
    PrefixedInjective(Utf8(m.path), Utf8(n.path), 4, a + x, b + y);
    Utf8Injective(m.path, n.path);
    ContentBytesInjective(m.content, n.content, x, y);
  }

  lemma {:induction false} NodeBytesLength(n: Node)
    ensures |NodeBytes(n)| >= 5
  {
  }

  lemma {:induction false} TreeBytesInjective(a: seq<Node>, b: seq<Node>)
    requires NodesOk(a) && NodesOk(b) && TreeBytes(a) == TreeBytes(b)
    ensures a == b
    decreases |a|
  {
    hide NodeBytes, NodeOk;
    if a != [] && b != [] {
      NodeBytesInjective(a[0], b[0], TreeBytes(a[1..]), TreeBytes(b[1..]));
      TreeBytesInjective(a[1..], b[1..]);
      assert a == [a[0]] + a[1..] && b == [b[0]] + b[1..];
    } else if a != [] {
      NodeBytesLength(a[0]);
    } else if b != [] {
      NodeBytesLength(b[0]);
    }
  }

  lemma {:induction false} PathOrderIsTotal()
    ensures TotalPreorder(PathOrder())
  {
    var le := PathOrder();
    forall x, y ensures le(x, y) || le(y, x) { LexTotal(Codes(x.path), Codes(y.path)); }
    forall x, y, z | le(x, y) && le(y, z) ensures le(x, z) { LexTransitive(Codes(x.path), Codes(y.path), Codes(z.path)); }
  }

  /**
    The framing identifies the tree: with unique paths the bytes are equal exactly when the same
    paths hold the same missing marks, links and files.
   */
  lemma {:induction false} DigestInputIdentifiesTree(a: seq<Node>, b: seq<Node>)
    requires NodesOk(a) && NodesOk(b)
    requires forall m, n :: m in a && n in a && m.path == n.path ==> m == n
    ensures TreeBytes(Sort(a, PathOrder())) == TreeBytes(Sort(b, PathOrder())) <==> multiset(a) == multiset(b)
  {
    hide TreeBytes, NodeOk, Sort;
    SortedNodesOk(a);
    SortedNodesOk(b);
    SortKeeps(a, PathOrder());
    SortKeeps(b, PathOrder());
    if TreeBytes(Sort(a, PathOrder())) == TreeBytes(Sort(b, PathOrder())) {
      TreeBytesInjective(Sort(a, PathOrder()), Sort(b, PathOrder()));
    }
    if multiset(a) == multiset(b) {
      PathOrderIsTotal();
      forall m, n | m in a && n in a && PathOrder()(m, n) && PathOrder()(n, m) ensures m == n {
        LexAntisymmetric(Codes(m.path), Codes(n.path));
        CodesInjective(m.path, n.path);
      }
      SortForgetsOrder(a, b, PathOrder());
    }
  }

  /** The nodes fed to the digest: those given, by the code points of their paths. */
  lemma {:induction false} TreeNodesInOrder(nodes: seq<Node>, i: nat, j: nat)
    requires i < j < |Sort(nodes, PathOrder())|
    ensures var sorted := Sort(nodes, PathOrder());
            multiset(sorted) == multiset(nodes) && FirstDifference(Codes(sorted[i].path), Codes(sorted[j].path))
  {
    hide LexLe, Sort, FirstDifference, Codes;
    var sorted := Sort(nodes, PathOrder());
    PathOrderIsTotal();
    SortSorts(nodes, PathOrder());
    assert PathOrder()(sorted[i], sorted[j]);
    LexIsFirstDifference(Codes(sorted[i].path), Codes(sorted[j].path));
  }

  /** The length prefix read back, byte by byte: the number it stands for. */
  function Value256(bytes: seq<int>): int
  {
    if bytes == [] then 0 else 256 * Value256(bytes[..|bytes| - 1]) + bytes[|bytes| - 1]
  }

  lemma {:induction false} BigEndianValue(n: nat, k: nat)
    requires n < Pow256(k)
    ensures Value256(BigEndian(n, k)) == n && forall i :: 0 <= i < k ==> 0 <= BigEndian(n, k)[i] < 256
    decreases k
  {
    if k > 0 {
      BigEndianValue(n / 256, k - 1);
      var b := BigEndian(n, k);
      assert b[..k - 1] == BigEndian(n / 256, k - 1);
    }
  }

  /** Reading a length and then that many bytes gives a length-prefixed value back, and what follows it. */
  predicate Reads(bytes: seq<int>, k: nat, d: seq<int>, rest: seq<int>)
  {
    && k + |d| <= |bytes|
    && Value256(bytes[..k]) == |d| && bytes[k..k + |d|] == d && bytes[k + |d|..] == rest
  }

  lemma {:induction false} PrefixedReads(d: seq<int>, k: nat, rest: seq<int>)
    requires |d| < Pow256(k)
    ensures Reads(Prefixed(d, k) + rest, k, d, rest)
  {
    BigEndianValue(|d|, k);
    assert (Prefixed(d, k) + rest)[..k] == BigEndian(|d|, k);
  }

  /** A row is read back as the UTF-8 bytes of its store, its key and its value, in this order. */
  lemma {:induction false} RowReads(r: Row, rest: seq<int>)
    requires RowOk(r)
    ensures exists x, y :: Reads(RowBytes(r) + rest, 4, Utf8(r.store), x) && Reads(x, 4, r.key, y) && Reads(y, 4, r.value, rest)
  {
    hide Prefixed, Utf8, Reads, Pow256;
    JavaLengths();
    var a, b, c := Prefixed(Utf8(r.store), 4), Prefixed(r.key, 4), Prefixed(r.value, 4);
    assert RowBytes(r) + rest == a + (b + (c + rest));
    PrefixedReads(Utf8(r.store), 4, b + (c + rest));
    PrefixedReads(r.key, 4, c + rest);
    PrefixedReads(r.value, 4, rest);
  }

  /** A node is read back as its path, a letter for its kind, and what a link points to or a file holds. */
  lemma {:induction false} NodeReads(n: Node, rest: seq<int>)
    requires NodeOk(n)
    ensures exists x ::
              && Reads(NodeBytes(n) + rest, 4, Utf8(n.path), x) && x != []
              && match n.content
                 case Missing => x[0] == 77 && x[1..] == rest
                 case Link(target) => x[0] == 76 && Reads(x[1..], 8, Utf8(target), rest)
                 case File(bytes) => x[0] == 70 && Reads(x[1..], 8, bytes, rest)
  {
    hide Prefixed, Utf8, Reads, Pow256;
    var x := ContentBytes(n.content) + rest;
    assert NodeBytes(n) + rest == Prefixed(Utf8(n.path), 4) + x;
    PrefixedReads(Utf8(n.path), 4, x);
    match n.content
    case Missing =>
      assert x[1..] == rest;
    case Link(target) =>
      assert x[1..] == Prefixed(Utf8(target), 8) + rest;
      PrefixedReads(Utf8(target), 8, rest);
    case File(bytes) =>
      assert x[1..] == Prefixed(bytes, 8) + rest;
      PrefixedReads(bytes, 8, rest);
  }
}
