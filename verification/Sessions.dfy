/**
  The node's revoking state: a durable root under a stack of overlay layers, one per session, with
  block checkpoints. Every operation is a step of a state machine; the class further down carries
  the same steps out in place.
 */
module Sessions {
  import opened Outcomes

  /** A key inside a named store, and a stored value. */
  type Key = (string, seq<int>)
  type Value = seq<int>
  type Image = map<Key, Value>

  datatype Overlay = Put(value: Value) | Delete

  type Writes = map<Key, Overlay>

  datatype Layer = Layer(id: nat, values: Writes, committed: bool, abandoned: bool, disableOnExit: bool)

  datatype Point = Point(block: nat, identity: seq<int>)

  datatype Checkpoint = Checkpoint(point: Point, parent: Option<seq<int>>, view: Image)

  datatype State = State(
    root: Image,
    layers: seq<Layer>,
    checkpoints: seq<Checkpoint>,
    enabled: bool,
    active: int,
    nextId: nat,
    pendingOuter: Option<nat>)

  const INITIAL: State := State(map[], [], [], true, 0, 1, None)

  /** A session still being written. */
  predicate Open(l: Layer) { !l.committed && !l.abandoned }

  predicate Settled(l: Layer) { l.committed && !l.abandoned }

  // ---- what a stack of layers looks like from above --------------------------------------------

  /** An image with writes laid over it. */
  function Over(m: Image, w: Writes): Image
  {
    map k | k in m.Keys + w.Keys && (k in w ==> w[k].Put?) :: if k in w then w[k].value else m[k]
  }

  /** The root with the included layers laid over it, bottom first. */
  function Laid(root: Image, layers: seq<Layer>, seen: Layer -> bool): Image
    decreases |layers|
  {
    if layers == [] then root
    else
      var n := |layers| - 1;
      var below := Laid(root, layers[..n], seen);
      if seen(layers[n]) then Over(below, layers[n].values) else below
  }

  /** The captured view of a stack: everything that is not abandoned. */
  function Captured(root: Image, layers: seq<Layer>): Image { Laid(root, layers, (l: Layer) => !l.abandoned) }

  /** The logical head: committed layers only. */
  function Head(s: State): Image { Laid(s.root, s.layers, (l: Layer) => Settled(l)) }

  /** What a session reads for one key: the topmost layer that mentions it, abandoned or not. */
  function Get(root: Image, layers: seq<Layer>, k: Key): Option<Value>
    decreases |layers|
  {
    if layers == [] then (if k in root then Some(root[k]) else None)
    else
      var top := layers[|layers| - 1];
      if k in top.values then (match top.values[k] case Put(v) => Some(v) case Delete => None)
      else Get(root, layers[..|layers| - 1], k)
  }

  // ---- helpers of the steps ----------------------------------------------------------------------

  function IndexOf(layers: seq<Layer>, id: nat, i: nat := 0): (k: Option<nat>)
    requires i <= |layers|
    ensures k.Some? ==> i <= k.value < |layers| && layers[k.value].id == id
    ensures k.None? ==> forall j :: i <= j < |layers| ==> layers[j].id != id
    decreases |layers| - i
  {
    if i == |layers| then None else if layers[i].id == id then Some(i) else IndexOf(layers, id, i + 1)
  }

  function CountOpen(layers: seq<Layer>): nat
  {
    if layers == [] then 0
    else CountOpen(layers[..|layers| - 1]) + if Open(layers[|layers| - 1]) then 1 else 0
  }

  /** Position of the first abandoned layer, the height if there is none. */
  function FirstAbandoned(layers: seq<Layer>, i: nat := 0): (k: nat)
    requires i <= |layers|
    ensures i <= k <= |layers|
    ensures forall j :: i <= j < k ==> !layers[j].abandoned
    ensures k < |layers| ==> layers[k].abandoned
    decreases |layers| - i
  {
    if i == |layers| || layers[i].abandoned then i else FirstAbandoned(layers, i + 1)
  }

  predicate AnyDisables(layers: seq<Layer>) { exists i :: 0 <= i < |layers| && layers[i].disableOnExit }

  predicate AllSettled(layers: seq<Layer>) { forall i :: 0 <= i < |layers| ==> Settled(layers[i]) }

  predicate AnyOpen(layers: seq<Layer>) { exists i :: 0 <= i < |layers| && Open(layers[i]) }

  /** All writes of some layers, later ones winning. */
  function MergedWrites(base: Writes, layers: seq<Layer>): Writes
    decreases |layers|
  {
    if layers == [] then base else MergedWrites(base, layers[..|layers| - 1]) + layers[|layers| - 1].values
  }

  // ---- the steps -------------------------------------------------------------------------------------

  datatype Finish = Commit | Merge | Revoke

  datatype Op =
    | Build(temporarilyEnable: bool)
    | BuildChild(parent: nat)
    | Write(id: nat, key: Key, value: Overlay)
    | End(id: nat, how: Finish)
    | Close(id: nat)
    | CommitWithCheckpoint(id: nat, point: Point)
    | RewindCheckpoint(expected: seq<int>)
    | Pop
    | FlushCommitted
    | Destroy
    | RecordCheckpoint(point: Point)
    | BuildPending
    | ResetPending(id: nat)
    | ReleasePending(id: nat)
    | ForceResetPending
    | SetEnabled(on: bool)

  function PushLayer(s: State, temporarilyEnable: bool): State
  {
    var disable := temporarilyEnable && !s.enabled;
    s.(layers := s.layers + [Layer(s.nextId, map[], false, false, disable)],
       enabled := s.enabled || disable, active := s.active + 1, nextId := s.nextId + 1)
  }

  /** The last part of finishing a session: abandoned layers, and all above them, go. */
  function DropAbandoned(s: State, disable: bool): State
  {
    var k := FirstAbandoned(s.layers);
    var gone := s.layers[k..];
    s.(layers := s.layers[..k], active := s.active - CountOpen(gone),
       enabled := s.enabled && !(disable || AnyDisables(gone)))
  }

  /** A session may be committed or merged once everything above it is settled. */
  predicate MayEnd(s: State, id: nat, how: Finish)
  {
    var i := IndexOf(s.layers, id);
    && i.Some? && Open(s.layers[i.value])
    && (how.Revoke? || AllSettled(s.layers[i.value + 1..]))
    && (how.Merge? ==> i.value > 0)
  }

  function EndSession(s: State, id: nat, how: Finish): State
  {
    if !MayEnd(s, id, how) then s
    else
      var i := IndexOf(s.layers, id).value;
      match how
      case Commit =>
        DropAbandoned(s.(layers := s.layers[i := s.layers[i].(committed := true)], active := s.active - 1),
                      s.layers[i].disableOnExit)
      case Merge =>
        var below := s.layers[i - 1];
        DropAbandoned(s.(layers := s.layers[..i - 1] + [below.(values := MergedWrites(below.values, s.layers[i..]))],
                         active := s.active - 1),
                      AnyDisables(s.layers[i..]))
      case Revoke =>
        DropAbandoned(s.(layers := s.layers[..i], active := s.active - CountOpen(s.layers[i..])),
                      AnyDisables(s.layers[i..]))
  }

  /** Closing a session under one that is still open only marks it. */
  function CloseSession(s: State, id: nat): State
  {
    var i := IndexOf(s.layers, id);
    if i.None? || !Open(s.layers[i.value]) then s
    else if AnyOpen(s.layers[i.value + 1..]) then
      s.(layers := s.layers[i.value := s.layers[i.value].(abandoned := true)], active := s.active - 1)
    else EndSession(s, id, Revoke)
  }

  /** A checkpoint with a new identity, above the last one. */
  predicate FitsStack(checkpoints: seq<Checkpoint>, point: Point)
  {
    && (forall j :: 0 <= j < |checkpoints| ==> checkpoints[j].point.identity != point.identity)
    && (checkpoints != [] ==> checkpoints[|checkpoints| - 1].point.block < point.block)
  }

  predicate MayCheckpoint(s: State, id: nat, point: Point)
  {
    var i := IndexOf(s.layers, id);
    && i.Some? && Open(s.layers[i.value]) && AllSettled(s.layers[i.value + 1..])
    && FitsStack(s.checkpoints, point)
  }

  function LastIdentity(checkpoints: seq<Checkpoint>): Option<seq<int>>
  {
    if checkpoints == [] then None else Some(checkpoints[|checkpoints| - 1].point.identity)
  }

  function Checkpointed(s: State, id: nat, point: Point): State
  {
    if !MayCheckpoint(s, id, point) then s
    else
      var i := IndexOf(s.layers, id).value;
      s.(layers := s.layers[i := s.layers[i].(committed := true)], active := s.active - 1,
         checkpoints := s.checkpoints + [Checkpoint(point, LastIdentity(s.checkpoints), Captured(s.root, s.layers))],
         enabled := s.enabled && !s.layers[i].disableOnExit)
  }

  predicate MayRewind(s: State, expected: seq<int>)
  {
    && s.active == 0 && s.layers != [] && s.checkpoints != []
    && Settled(s.layers[|s.layers| - 1])
    && s.checkpoints[|s.checkpoints| - 1].point.identity == expected
  }

  function Rewound(s: State, expected: seq<int>): State
  {
    if MayRewind(s, expected)
    then s.(layers := s.layers[..|s.layers| - 1], checkpoints := s.checkpoints[..|s.checkpoints| - 1])
    else s
  }

  predicate AllCommitted(layers: seq<Layer>) { forall i :: 0 <= i < |layers| ==> layers[i].committed }

  function Flushed(s: State): State
  {
    if s.active == 0 && AllCommitted(s.layers)
    then s.(root := Over(s.root, MergedWrites(map[], s.layers)), layers := [])
    else s
  }

  predicate MayRecord(s: State, point: Point) { s.active == 0 && AllSettled(s.layers) && FitsStack(s.checkpoints, point) }

  /** A checkpoint of the settled state, without a layer of its own. */
  function Recorded(s: State, point: Point): State
  {
    if !MayRecord(s, point) then s
    else s.(checkpoints := s.checkpoints + [Checkpoint(point, LastIdentity(s.checkpoints), Captured(s.root, s.layers))])
  }

  /** The reserved outer session of pending work may be renewed when nothing above it is open. */
  predicate MayReset(s: State, id: nat)
  {
    var i := IndexOf(s.layers, id);
    && s.pendingOuter == Some(id) && i.Some? && Open(s.layers[i.value]) && !AnyOpen(s.layers[i.value + 1..])
  }

  /** Discards the outer session with everything above it and puts an empty one in its place. */
  function PendingReset(s: State, id: nat): State
  {
    if !MayReset(s, id) then s
    else
      var i := IndexOf(s.layers, id).value;
      s.(layers := s.layers[..i] + [Layer(s.nextId, map[], false, false, AnyDisables(s.layers[i..]))],
         active := s.active - CountOpen(s.layers[i..]) + 1, nextId := s.nextId + 1, pendingOuter := Some(s.nextId))
  }

  /** Discards the outer session in whatever state it is; the count is clipped at zero. */
  function PendingForced(s: State): State
  {
    var i := if s.pendingOuter.Some? then IndexOf(s.layers, s.pendingOuter.value) else None;
    if i.None? then s.(pendingOuter := None)
    else
      var gone := s.layers[i.value..];
      s.(layers := s.layers[..i.value], active := if s.active < CountOpen(gone) then 0 else s.active - CountOpen(gone),
         enabled := s.enabled && !AnyDisables(gone), pendingOuter := None)
  }

  function Step(s: State, op: Op): State
  {
    match op
    case Build(temp) => if s.active != 0 || (!s.enabled && !temp) then s else PushLayer(s, temp)
    case BuildChild(parent) =>
      if s.layers != [] && s.layers[|s.layers| - 1].id == parent && Open(s.layers[|s.layers| - 1])
      then PushLayer(s, true) else s
    case Write(id, key, value) =>
      if s.layers != [] && s.layers[|s.layers| - 1].id == id && Open(s.layers[|s.layers| - 1])
      then var top := s.layers[|s.layers| - 1];
           s.(layers := s.layers[|s.layers| - 1 := top.(values := top.values[key := value])])
      else s
    case End(id, how) => EndSession(s, id, how)
    case Close(id) => CloseSession(s, id)
    case CommitWithCheckpoint(id, point) => Checkpointed(s, id, point)
    case RewindCheckpoint(expected) => Rewound(s, expected)
    case Pop =>
      if s.active == 0 && s.layers != [] && s.layers[|s.layers| - 1].committed
      then s.(layers := s.layers[..|s.layers| - 1]) else s
    case FlushCommitted => Flushed(s)
    case Destroy => if s.active != 0 then s else s.(layers := [])
    case RecordCheckpoint(point) => Recorded(s, point)
    case BuildPending =>
      if s.pendingOuter.Some? || s.active != 0 then s else PushLayer(s, true).(pendingOuter := Some(s.nextId))
    case ResetPending(id) => PendingReset(s, id)
    case ReleasePending(id) => if s.pendingOuter == Some(id) then s.(pendingOuter := None) else s
    case ForceResetPending => PendingForced(s)
    case SetEnabled(on) => if !on && s.active != 0 then s else s.(enabled := on)
  }

  function Run(s: State, ops: seq<Op>): State
    decreases |ops|
  {
    if ops == [] then s else Run(Step(s, ops[0]), ops[1..])
  }

  // ---- the invariant of every run -----------------------------------------------------------------

  ghost predicate Inv(s: State)
  {
    && s.active == CountOpen(s.layers)
    && (forall i, j :: 0 <= i < j < |s.layers| ==> s.layers[i].id < s.layers[j].id)
    && (forall i :: 0 <= i < |s.layers| ==> s.layers[i].id < s.nextId)
    && (forall i :: 0 <= i < |s.layers| ==> !(s.layers[i].committed && s.layers[i].abandoned))
  }

  lemma {:induction false} CountOpenConcat(a: seq<Layer>, b: seq<Layer>)
    ensures CountOpen(a + b) == CountOpen(a) + CountOpen(b)
    decreases |b|
  {
    if b == [] {
      assert a + b == a;
    } else {
      var n := |b| - 1;
      assert (a + b)[..|a| + n] == a + b[..n];
      CountOpenConcat(a, b[..n]);
    }
  }

  lemma {:induction false} CountOpenOne(l: Layer)
    ensures CountOpen([l]) == if Open(l) then 1 else 0
  {
    assert [l][..0] == [];
  }

  lemma {:induction false} CountOpenSplit(layers: seq<Layer>, i: nat)
    requires i < |layers|
    ensures CountOpen(layers) == CountOpen(layers[..i]) + (if Open(layers[i]) then 1 else 0) + CountOpen(layers[i + 1..])
    ensures CountOpen(layers[i..]) == (if Open(layers[i]) then 1 else 0) + CountOpen(layers[i + 1..])
  {
    hide CountOpen;
    assert layers == layers[..i] + layers[i..] && layers[i..] == [layers[i]] + layers[i + 1..];
    CountOpenConcat(layers[..i], layers[i..]);
    CountOpenConcat([layers[i]], layers[i + 1..]);
    CountOpenOne(layers[i]);
  }

  lemma {:induction false} CountOpenUpdate(layers: seq<Layer>, i: nat, l: Layer)
    requires i < |layers|
    ensures CountOpen(layers[i := l]) == CountOpen(layers) - (if Open(layers[i]) then 1 else 0) + (if Open(l) then 1 else 0)
  {
    hide CountOpen;
    var g := layers[i := l];
    CountOpenSplit(layers, i);
    CountOpenSplit(g, i);
    assert g[..i] == layers[..i] && g[i + 1..] == layers[i + 1..];
  }

  lemma {:induction false} NoneOpen(layers: seq<Layer>)
    requires forall i :: 0 <= i < |layers| ==> !Open(layers[i])
    ensures CountOpen(layers) == 0
    decreases |layers|
  {
    if layers != [] { NoneOpen(layers[..|layers| - 1]); }
  }

  /** Keeping a lower part of the stack, and counting its sessions, keeps the invariant. */
  lemma {:induction false} PrefixKeepsInv(s: State, k: nat, enabled: bool)
    requires Inv(s) && k <= |s.layers|
    ensures Inv(s.(layers := s.layers[..k], active := s.active - CountOpen(s.layers[k..]), enabled := enabled))
  {
    hide CountOpen;
    assert s.layers == s.layers[..k] + s.layers[k..];
    CountOpenConcat(s.layers[..k], s.layers[k..]);
  }

  /** Discarding abandoned layers never takes more sessions than there are. */
  lemma {:induction false} DropAbandonedKeepsInv(s: State, disable: bool)
    requires Inv(s)
    ensures Inv(DropAbandoned(s, disable))
  {
    hide CountOpen, Inv, AnyDisables;
    var k := FirstAbandoned(s.layers);
    PrefixKeepsInv(s, k, s.enabled && !(disable || AnyDisables(s.layers[k..])));
  }

  lemma {:induction false} MergeKeepsInv(s: State, i: nat)
    requires Inv(s) && 0 < i < |s.layers| && Open(s.layers[i]) && AllSettled(s.layers[i + 1..])
    ensures var below := s.layers[i - 1];
            Inv(s.(layers := s.layers[..i - 1] + [below.(values := MergedWrites(below.values, s.layers[i..]))], active := s.active - 1))
  {
    hide CountOpen, MergedWrites;
    var below := s.layers[i - 1];
    var merged := below.(values := MergedWrites(below.values, s.layers[i..]));
    CountOpenSplit(s.layers, i - 1);
    CountOpenSplit(s.layers, i);
    assert s.layers[i - 1 + 1..] == s.layers[i..];
    NoneOpen(s.layers[i + 1..]);
    CountOpenConcat(s.layers[..i - 1], [merged]);
    CountOpenOne(merged);
  }

  lemma {:induction false} CommitKeepsInv(s: State, i: nat)
    requires Inv(s) && i < |s.layers| && Open(s.layers[i])
    ensures Inv(s.(layers := s.layers[i := s.layers[i].(committed := true)], active := s.active - 1))
  {
    hide CountOpen;
    CountOpenUpdate(s.layers, i, s.layers[i].(committed := true));
  }

  lemma {:induction false} EndKeepsInv(s: State, id: nat, how: Finish)
    requires Inv(s)
    ensures Inv(EndSession(s, id, how))
  {
    hide CountOpen, MergedWrites, DropAbandoned, Inv, AnyDisables;
    if MayEnd(s, id, how) {
      var i := IndexOf(s.layers, id).value;
      match how
      case Commit =>
        CommitKeepsInv(s, i);
        DropAbandonedKeepsInv(s.(layers := s.layers[i := s.layers[i].(committed := true)], active := s.active - 1), s.layers[i].disableOnExit);
      case Merge =>
        MergeKeepsInv(s, i);
        var below := s.layers[i - 1];
        DropAbandonedKeepsInv(s.(layers := s.layers[..i - 1] + [below.(values := MergedWrites(below.values, s.layers[i..]))], active := s.active - 1),
                              AnyDisables(s.layers[i..]));
      case Revoke =>
        PrefixKeepsInv(s, i, s.enabled);
        DropAbandonedKeepsInv(s.(layers := s.layers[..i], active := s.active - CountOpen(s.layers[i..])), AnyDisables(s.layers[i..]));
    }
  }

  lemma {:induction false} PendingResetKeepsInv(s: State, id: nat)
    requires Inv(s)
    ensures Inv(PendingReset(s, id))
  {
    hide CountOpen, AnyDisables;
    if MayReset(s, id) {
      var i := IndexOf(s.layers, id).value;
      PrefixKeepsInv(s, i, s.enabled);
      var renewed := Layer(s.nextId, map[], false, false, AnyDisables(s.layers[i..]));
      CountOpenConcat(s.layers[..i], [renewed]);
      CountOpenOne(renewed);
    }
  }

  /** The clipping never bites: there are never more open layers than the count says. */
  lemma {:induction false} PendingForcedKeepsInv(s: State)
    requires Inv(s)
    ensures Inv(PendingForced(s))
  {
    hide CountOpen, AnyDisables;
    if s.pendingOuter.Some? && IndexOf(s.layers, s.pendingOuter.value).Some? {
      var i := IndexOf(s.layers, s.pendingOuter.value).value;
      PrefixKeepsInv(s, i, s.enabled && !AnyDisables(s.layers[i..]));
      assert s.layers == s.layers[..i] + s.layers[i..];
      CountOpenConcat(s.layers[..i], s.layers[i..]);
    }
  }

  lemma {:induction false} PushKeepsInv(s: State, temp: bool)
    requires Inv(s)
    ensures Inv(PushLayer(s, temp))
  {
    hide CountOpen;
    var l := Layer(s.nextId, map[], false, false, temp && !s.enabled);
    CountOpenConcat(s.layers, [l]);
    CountOpenOne(l);
  }

  lemma {:induction false} CloseKeepsInv(s: State, id: nat)
    requires Inv(s)
    ensures Inv(CloseSession(s, id))
  {
    hide CountOpen, EndSession;
    var i := IndexOf(s.layers, id);
    if i.Some? && Open(s.layers[i.value]) {
      CountOpenUpdate(s.layers, i.value, s.layers[i.value].(abandoned := true));
      EndKeepsInv(s, id, Revoke);
    }
  }

  lemma {:induction false} CheckpointKeepsInv(s: State, id: nat, point: Point)
    requires Inv(s)
    ensures Inv(Checkpointed(s, id, point))
  {
    hide CountOpen, Captured;
    if MayCheckpoint(s, id, point) {
      var i := IndexOf(s.layers, id).value;
      CountOpenUpdate(s.layers, i, s.layers[i].(committed := true));
    }
  }

  lemma {:induction false} DropTopKeepsInv(s: State)
    requires Inv(s) && s.layers != [] && !Open(s.layers[|s.layers| - 1])
    ensures Inv(s.(layers := s.layers[..|s.layers| - 1]))
  {
  }

  /** Every step keeps the session count exact, so no decrement of it can fail. */
  lemma {:induction false} StepKeepsInv(s: State, op: Op)
    requires Inv(s)
    ensures Inv(Step(s, op))
  {
    hide CountOpen, EndSession, CloseSession, Checkpointed, PushLayer, Over, MergedWrites, PendingReset, PendingForced, Captured;
    match op
    case Build(temp) => PushKeepsInv(s, temp);
    case BuildChild(parent) => PushKeepsInv(s, true);
    case Write(id, key, value) =>
      if s.layers != [] {
        var n := |s.layers| - 1;
        CountOpenUpdate(s.layers, n, s.layers[n].(values := s.layers[n].values[key := value]));
      }
    case End(id, how) => EndKeepsInv(s, id, how);
    case Close(id) => CloseKeepsInv(s, id);
    case CommitWithCheckpoint(id, point) => CheckpointKeepsInv(s, id, point);
    case RewindCheckpoint(expected) => if MayRewind(s, expected) { DropTopKeepsInv(s); }
    case Pop => if s.active == 0 && s.layers != [] && s.layers[|s.layers| - 1].committed { DropTopKeepsInv(s); }
    case FlushCommitted => if s.active == 0 { EmptyInv(s); }
    case Destroy => if s.active == 0 { EmptyInv(s); }
    case RecordCheckpoint(point) =>
    case BuildPending => PushKeepsInv(s, true);
    case ResetPending(id) => PendingResetKeepsInv(s, id);
    case ReleasePending(id) =>
    case ForceResetPending => PendingForcedKeepsInv(s);
    case SetEnabled(on) =>
  }

  lemma {:induction false} EmptyInv(s: State)
    ensures CountOpen([]) == 0
  {
  }

  /** So it holds in every state any run can reach. */
  lemma {:induction false} RunKeepsInv(s: State, ops: seq<Op>)
    requires Inv(s)
    ensures Inv(Run(s, ops))
    decreases |ops|
  {
    hide Inv, Step;
    if ops != [] {
      StepKeepsInv(s, ops[0]);
      RunKeepsInv(Step(s, ops[0]), ops[1..]);
    }
  }
}
