/** The worklist that collects all descendants of a set of processes. */
module Descendants {
  import opened Sorting

  /** The children each process reports; a process that is gone reports none. */
  type Children = map<int, seq<int>>

  function Kids(children: Children, pid: int): seq<int>
  {
    if pid in children then children[pid] else []
  }

  /** A chain of child edges. */
  ghost predicate IsPath(children: Children, path: seq<int>)
  {
    forall i :: 0 <= i < |path| - 1 ==> path[i + 1] in Kids(children, path[i])
  }

  /** Reached from one of the roots by one or more edges. */
  ghost predicate Reached(children: Children, roots: seq<int>, pid: int)
  {
    exists path :: IsPath(children, path) && |path| >= 2 && path[0] in roots && path[|path| - 1] == pid
  }

  lemma {:induction false} ReachedNext(children: Children, roots: seq<int>, pid: int, child: int)
    requires (pid in roots || Reached(children, roots, pid)) && child in Kids(children, pid)
    ensures Reached(children, roots, child)
  {
    if pid in roots {
      assert IsPath(children, [pid, child]);
    } else {
      var path :| IsPath(children, path) && |path| >= 2 && path[0] in roots && path[|path| - 1] == pid;
      var longer := path + [child];
      assert IsPath(children, longer);
      assert longer[0] in roots && longer[|longer| - 1] == child;
    }
  }

  /** All children of p are inside. */
  ghost predicate ClosedAt(children: Children, p: int, inside: set<int>)
  {
    forall c :: c in Kids(children, p) ==> c in inside
  }

  /** Everything reached from a closed set stays in it. */
  lemma {:induction false} PathStaysInside(children: Children, roots: seq<int>, inside: set<int>, path: seq<int>, k: nat)
    requires forall p :: p in roots || p in inside ==> ClosedAt(children, p, inside)
    requires IsPath(children, path) && 1 <= k < |path| && path[0] in roots
    ensures path[k] in inside
    decreases k
  {
    if k > 1 { PathStaysInside(children, roots, inside, path, k - 1); }
    var parent, child := path[k - 1], path[k];
    assert child in Kids(children, parent) by { assert path[k - 1 + 1] in Kids(children, path[k - 1]); }
    assert ClosedAt(children, parent, inside);
  }

  ghost function Universe(children: Children): set<int>
  {
    set p, c | p in children && c in children[p] :: c
  }

  ghost predicate StrictlyAscending(s: seq<int>)
  {
    forall i, j :: 0 <= i < j < |s| ==> s[i] < s[j]
  }

  function AtMost(): (int, int) -> bool { (a: int, b: int) => a <= b }

  /** The elements of a set, once each, in no particular order. */
  method Elements<T(==)>(s: set<T>) returns (picked: seq<T>)
    ensures Distinct(picked) && forall x :: x in picked <==> x in s
  {
    var rest := s;
    picked := [];
    while rest != {}
      invariant rest <= s && Distinct(picked)
      invariant forall x :: x in picked <==> x in s && x !in rest
      decreases |rest|
    {
      var x :| x in rest;
      rest, picked := rest - {x}, picked + [x];
    }
  }

  /** `sorted` of a set. */
  method SortedElements(s: set<int>) returns (r: seq<int>)
    ensures StrictlyAscending(r) && forall x :: x in r <==> x in s
  {
    var picked := Elements(s);
    r := Sort(picked, AtMost());
    SortSorts(picked, AtMost());
    PermutationDistinct(picked, r);
    SameElements(picked, r);
    forall i, j | 0 <= i < j < |r| ensures r[i] < r[j] { assert AtMost()(r[i], r[j]); }
  }

  /** The children of one process: new ones are recorded and put on the stack. */
  method Visit(pid: int, children: Children, known: set<int>, stack: seq<int>) returns (descendants: set<int>, pending: seq<int>)
    ensures known <= descendants && stack <= pending && ClosedAt(children, pid, descendants)
    ensures forall p :: p in descendants <==> p in known || p in Kids(children, pid)
    ensures forall p :: p in pending <==> p in stack || (p in descendants && p !in known)
    ensures descendants == known ==> pending == stack
  {
    var kids := Kids(children, pid);
    descendants, pending := known, stack;
    var k := 0;
    while k < |kids|
      invariant 0 <= k <= |kids| && known <= descendants && stack <= pending
      invariant forall p :: p in descendants <==> p in known || p in kids[..k]
      invariant forall p :: p in pending <==> p in stack || (p in descendants && p !in known)
      invariant descendants == known ==> pending == stack
    {
      var child := kids[k];
      assert kids[..k + 1] == kids[..k] + [child];
      if child !in descendants {
        descendants := descendants + {child};
        pending := pending + [child];
      }
      k := k + 1;
    }
    assert kids[..k] == kids;
  }

  lemma {:induction false} StrictlyFewer<T>(u: set<T>, known: set<T>, more: set<T>)
    requires known <= more <= u && known != more
    ensures u - more < u - known
  {
    assert exists x :: x in more && x !in known;
  }

  lemma {:induction false} KidsInUniverse(children: Children, pid: int)
    ensures forall c :: c in Kids(children, pid) ==> c in Universe(children)
  {
  }

  /**
    `process_descendants`: terminates on every finite child relation, cyclic ones included, and
    returns in ascending order, once each, exactly the processes reached by one or more edges.
   */
  method ProcessDescendants(pids: seq<int>, children: Children) returns (r: seq<int>)
    ensures StrictlyAscending(r)
    ensures forall p :: p in r <==> Reached(children, pids, p)
  {
    hide Reached, Universe, Kids, StrictlyAscending;
    var descendants: set<int> := {};
    var pending := pids;
    while pending != []
      invariant descendants <= Universe(children)
      invariant forall p :: p in descendants ==> Reached(children, pids, p)
      invariant forall p :: p in pending ==> p in pids || p in descendants
      invariant forall p :: (p in pids || p in descendants) && p !in pending ==> ClosedAt(children, p, descendants)
      decreases Universe(children) - descendants, |pending|
    {
      var pid, below := pending[|pending| - 1], pending[..|pending| - 1];
      assert pending == below + [pid];
      KidsInUniverse(children, pid);
      forall c | c in Kids(children, pid) ensures Reached(children, pids, c) { ReachedNext(children, pids, pid, c); }
      ghost var known := descendants;
      descendants, pending := Visit(pid, children, descendants, below);
      assert descendants <= Universe(children) by {
        forall p | p in descendants ensures p in Universe(children) { if p !in known { assert p in Kids(children, pid); } }
      }
      assert known != descendants ==> Universe(children) - descendants < Universe(children) - known by {
        if known != descendants { StrictlyFewer(Universe(children), known, descendants); }
      }
      forall p | (p in pids || p in descendants) && p !in pending ensures ClosedAt(children, p, descendants) {
        if p != pid { assert ClosedAt(children, p, known); }
      }
    }
    forall p ensures p in descendants <==> Reached(children, pids, p) {
      if Reached(children, pids, p) { Exhausted(children, pids, descendants, p); }
    }
    r := SortedElements(descendants);
  }

  lemma {:induction false} Exhausted(children: Children, roots: seq<int>, inside: set<int>, pid: int)
    requires forall p :: p in roots || p in inside ==> ClosedAt(children, p, inside)
    requires Reached(children, roots, pid)
    ensures pid in inside
  {
    var path :| IsPath(children, path) && |path| >= 2 && path[0] in roots && path[|path| - 1] == pid;
    PathStaysInside(children, roots, inside, path, |path| - 1);
  }
}
