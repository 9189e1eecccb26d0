/** The session manager itself: the steps of the revoking state, carried out on its fields. */
module SessionManager {
  import opened Outcomes
  import opened Sessions

  datatype SessionError = NoActiveSession | ActiveSessions | InvalidDepth | InvalidSession | ConcurrentPending

  datatype CursorError = UncommittedState | IdentityMismatch | UnrelatedCheckpoint

  class Manager {
    var root: Image
    var layers: seq<Layer>
    var checkpoints: seq<Checkpoint>
    var enabled: bool
    var active: int
    var nextId: nat
    var pendingOuter: Option<nat>

    function Snapshot(): State
      reads this
    {
      State(root, layers, checkpoints, enabled, active, nextId, pendingOuter)
    }

    ghost predicate Valid()
      reads this
    {
      Inv(Snapshot())
    }

    constructor ()
      ensures Valid() && Snapshot() == INITIAL
    {
      root, layers, checkpoints, enabled, active, nextId, pendingOuter := map[], [], [], true, 0, 1, None;
    }

    /** `push_layer`. */
    method PushLayer(temporarilyEnable: bool) returns (id: nat)
      modifies this
      ensures id == old(nextId) && Snapshot() == Sessions.PushLayer(old(Snapshot()), temporarilyEnable)
    {
      var disableOnExit := temporarilyEnable && !enabled;
      if disableOnExit {
        enabled := true;
      }
      id := nextId;
      nextId := nextId + 1;
      layers := layers + [Layer(id, map[], false, false, disableOnExit)];
      active := active + 1;
    }

    /** `build_session` and `build_session_enabled`; None is the no-op session of a disabled manager. */
    method BuildSession(temporarilyEnable: bool) returns (r: Result<Option<nat>, SessionError>)
      requires Valid()
      modifies this
      ensures Valid() && Snapshot() == Step(old(Snapshot()), Build(temporarilyEnable))
      ensures r.Err? <==> old(active) != 0
      ensures r.Ok? ==> r.value == if old(enabled) || temporarilyEnable then Some(old(nextId)) else None
    {
      StepKeepsInv(Snapshot(), Build(temporarilyEnable));
      if active != 0 {
        return Err(ActiveSessions);
      }
      if !enabled && !temporarilyEnable {
        return Ok(None);
      }
      var id := PushLayer(temporarilyEnable);
      return Ok(Some(id));
    }

    /** `build_child`. */
    method BuildChildSession(parent: nat) returns (r: Result<nat, SessionError>)
      requires Valid()
      modifies this
      ensures Valid() && Snapshot() == Step(old(Snapshot()), BuildChild(parent))
      ensures r.Ok? <==> |layers| == |old(layers)| + 1
    {
      StepKeepsInv(Snapshot(), BuildChild(parent));
      if layers == [] {
        return Err(InvalidSession);
      }
      var top := layers[|layers| - 1];
      if top.id != parent || top.committed || top.abandoned {
        return Err(InvalidSession);
      }
      var id := PushLayer(true);
      return Ok(id);
    }

    /** `mutate`: only the topmost open session may write. */
    method Mutate(id: nat, key: Key, value: Overlay) returns (ok: bool)
      requires Valid()
      modifies this
      ensures Valid() && Snapshot() == Step(old(Snapshot()), Write(id, key, value))
      ensures ok <==> old(layers) != [] && old(layers)[|old(layers)| - 1].id == id && Open(old(layers)[|old(layers)| - 1])
    {
      StepKeepsInv(Snapshot(), Write(id, key, value));
      if layers == [] || layers[|layers| - 1].id != id || !Open(layers[|layers| - 1]) {
        return false;
      }
      var top := layers[|layers| - 1];
      layers := layers[|layers| - 1 := top.(values := top.values[key := value])];
      return true;
    }

    /** The closing part of `finish`. */
    method DropAbandonedLayers(disable: bool)
      modifies this
      ensures Snapshot() == DropAbandoned(old(Snapshot()), disable)
    {
      var k := FirstAbandoned(layers);
      var gone := layers[k..];
      layers := layers[..k];
      active := active - CountOpen(gone);
      if disable || AnyDisables(gone) {
        enabled := false;
      }
    }

    /** `merge`: the writes of the session and of everything above it, in order, into the layer below. */
    method MergeDown(i: nat)
      requires 0 < i < |layers|
      modifies this
      ensures var s := old(Snapshot());
              var below := s.layers[i - 1];
              Snapshot() == s.(layers := s.layers[..i - 1] + [below.(values := MergedWrites(below.values, s.layers[i..]))])
    {
      var descendants, below := layers[i..], layers[i - 1];
      var values := below.values;
      var k := 0;
      while k < |descendants|
        invariant 0 <= k <= |descendants|
        invariant values == MergedWrites(below.values, descendants[..k])
        invariant Snapshot() == old(Snapshot())
      {
        assert descendants[..k + 1][..k] == descendants[..k];
        values := values + descendants[k].values;
        k := k + 1;
      }
      assert descendants[..k] == descendants;
      layers := layers[..i - 1] + [below.(values := values)];
    }

    /** `commit`, `merge` and `revoke`. */
    method EndWith(id: nat, how: Finish) returns (r: Result<(), SessionError>)
      requires Valid()
      modifies this
      ensures Valid() && Snapshot() == Step(old(Snapshot()), End(id, how))
      ensures r.Ok? <==> MayEnd(old(Snapshot()), id, how)
    {
      hide Inv, CountOpen, MergedWrites, DropAbandoned, AnyDisables;
      ghost var before := Snapshot();
      EndKeepsInv(before, id, how);
      var found := IndexOf(layers, id);
      if found.None? {
        return Err(InvalidSession);
      }
      var i := found.value;
      if layers[i].committed || layers[i].abandoned {
        return Err(InvalidSession);
      }
      if !how.Revoke? && !AllSettled(layers[i + 1..]) {
        return Err(InvalidSession);
      }
      var disable := layers[i].disableOnExit;
      match how {
        case Commit =>
          layers := layers[i := layers[i].(committed := true)];
          active := active - 1;
        case Merge =>
          if i == 0 {
            return Err(InvalidDepth);
          }
          disable := AnyDisables(layers[i..]);
          MergeDown(i);
          active := active - 1;
        case Revoke =>
          var discarded := layers[i..];
          layers := layers[..i];
          disable := AnyDisables(discarded);
          active := active - CountOpen(discarded);
      }
      DropAbandonedLayers(disable);
      return Ok(());
    }

    /** `close`, also run when a session is dropped. */
    method CloseSession(id: nat) returns (r: Result<(), SessionError>)
      requires Valid()
      modifies this
      ensures Valid() && Snapshot() == Step(old(Snapshot()), Close(id))
      ensures r.Ok? <==> MayEnd(old(Snapshot()), id, Revoke) && !AnyOpen(old(layers)[IndexOf(old(layers), id).value + 1..])
    {
      hide Inv, CountOpen, EndSession;
      CloseKeepsInv(Snapshot(), id);
      var found := IndexOf(layers, id);
      if found.None? || !Open(layers[found.value]) {
        return Err(InvalidSession);
      }
      var i := found.value;
      if AnyOpen(layers[i + 1..]) {
        layers := layers[i := layers[i].(abandoned := true)];
        active := active - 1;
        return Err(InvalidSession);
      }
      r := EndWith(id, Revoke);
    }

    /** `commit_with_checkpoint`. */
    method CommitWithCheckpointAt(id: nat, point: Point) returns (r: Result<(), SessionError>)
      requires Valid()
      modifies this
      ensures Valid() && Snapshot() == Step(old(Snapshot()), CommitWithCheckpoint(id, point))
      ensures r.Ok? <==> MayCheckpoint(old(Snapshot()), id, point)
    {
      hide Inv, Captured;
      CheckpointKeepsInv(Snapshot(), id, point);
      if !MayCheckpoint(Snapshot(), id, point) {
        return Err(InvalidSession);
      }
      var i := IndexOf(layers, id).value;
      var parent := LastIdentity(checkpoints);
      var view := Captured(root, layers);
      var disable := layers[i].disableOnExit;
      layers := layers[i := layers[i].(committed := true)];
      active := active - 1;
      checkpoints := checkpoints + [Checkpoint(point, parent, view)];
      if disable {
        enabled := false;
      }
      return Ok(());
    }

    /** `rewind_checkpoint`; Ok(false) is an empty stack. */
    method Rewind(expected: seq<int>) returns (r: Result<bool, SessionError>)
      requires Valid()
      modifies this
      ensures Valid() && Snapshot() == Step(old(Snapshot()), RewindCheckpoint(expected))
      ensures r == Ok(true) <==> MayRewind(old(Snapshot()), expected)
    {
      StepKeepsInv(Snapshot(), RewindCheckpoint(expected));
      if active != 0 {
        return Err(ActiveSessions);
      }
      if layers == [] {
        if checkpoints == [] {
          return Ok(false);
        }
        return Err(InvalidSession);
      }
      if checkpoints == [] {
        return Err(InvalidSession);
      }
      if !Settled(layers[|layers| - 1]) || checkpoints[|checkpoints| - 1].point.identity != expected {
        return Err(InvalidSession);
      }
      layers := layers[..|layers| - 1];
      checkpoints := checkpoints[..|checkpoints| - 1];
      return Ok(true);
    }

    /** `flush_committed`, with the durable batch as one assignment of the root. */
    method Flush() returns (r: Result<nat, SessionError>)
      requires Valid()
      modifies this
      ensures Valid() && Snapshot() == Step(old(Snapshot()), FlushCommitted)
      ensures r.Ok? <==> old(active) == 0 && AllCommitted(old(layers))
    {
      hide Inv, Over;
      StepKeepsInv(Snapshot(), FlushCommitted);
      if active != 0 {
        return Err(ActiveSessions);
      }
      if !AllCommitted(layers) {
        return Err(InvalidSession);
      }
      var merged: Writes := map[];
      var k := 0;
      while k < |layers|
        invariant 0 <= k <= |layers|
        invariant merged == MergedWrites(map[], layers[..k])
        invariant Snapshot() == old(Snapshot())
      {
        assert layers[..k + 1][..k] == layers[..k];
        merged := merged + layers[k].values;
        k := k + 1;
      }
      assert layers[..k] == layers;
      r := Ok(|layers|);
      root := Over(root, merged);
      layers := [];
    }

    /** `pop`; Ok(false) is an empty stack. */
    method PopLayer() returns (r: Result<bool, SessionError>)
      requires Valid()
      modifies this
      ensures Valid() && Snapshot() == Step(old(Snapshot()), Pop)
      ensures r == Ok(true) <==> |layers| < |old(layers)|
    {
      StepKeepsInv(Snapshot(), Pop);
      if active != 0 {
        return Err(ActiveSessions);
      }
      if layers == [] {
        return Ok(false);
      }
      if !layers[|layers| - 1].committed {
        return Err(InvalidSession);
      }
      layers := layers[..|layers| - 1];
      return Ok(true);
    }

    /** `enable` and `disable`. */
    method SetEnabledTo(on: bool) returns (r: Result<(), SessionError>)
      requires Valid()
      modifies this
      ensures Valid() && Snapshot() == Step(old(Snapshot()), SetEnabled(on))
      ensures r.Ok? <==> enabled == on && (on || old(active) == 0)
    {
      StepKeepsInv(Snapshot(), SetEnabled(on));
      if !on && active != 0 {
        return Err(ActiveSessions);
      }
      enabled := on;
      return Ok(());
    }

    /** `destroy`. */
    method DestroyLayers() returns (r: Result<(), SessionError>)
      requires Valid()
      modifies this
      ensures Valid() && Snapshot() == Step(old(Snapshot()), Destroy)
      ensures r.Ok? <==> old(active) == 0
    {
      StepKeepsInv(Snapshot(), Destroy);
      if active != 0 {
        return Err(ActiveSessions);
      }
      layers := [];
      return Ok(());
    }

    /** `record_checkpoint`. */
    method RecordCheckpointAt(point: Point) returns (r: Result<(), CursorError>)
      requires Valid()
      modifies this
      ensures Valid() && Snapshot() == Step(old(Snapshot()), RecordCheckpoint(point))
      ensures r.Ok? <==> MayRecord(old(Snapshot()), point)
    {
      hide Inv, Captured;
      StepKeepsInv(Snapshot(), RecordCheckpoint(point));
      if active != 0 || !AllSettled(layers) {
        return Err(UncommittedState);
      }
      if exists j :: 0 <= j < |checkpoints| && checkpoints[j].point.identity == point.identity {
        return Err(IdentityMismatch);
      }
      if checkpoints != [] && point.block <= checkpoints[|checkpoints| - 1].point.block {
        return Err(UnrelatedCheckpoint);
      }
      checkpoints := checkpoints + [Checkpoint(point, LastIdentity(checkpoints), Captured(root, layers))];
      return Ok(());
    }

    /** `build_pending_outer`. */
    method BuildPendingOuter() returns (r: Result<nat, SessionError>)
      requires Valid()
      modifies this
      ensures Valid() && Snapshot() == Step(old(Snapshot()), BuildPending)
      ensures r.Ok? <==> old(pendingOuter).None? && old(active) == 0
      ensures r.Ok? ==> pendingOuter == Some(r.value)
    {
      hide Inv, CountOpen;
      StepKeepsInv(Snapshot(), BuildPending);
      if pendingOuter.Some? {
        return Err(ConcurrentPending);
      }
      if active != 0 {
        return Err(ActiveSessions);
      }
      var id := PushLayer(true);
      pendingOuter := Some(id);
      return Ok(id);
    }

    /** `reset_pending_outer`; on success the handle continues with the new identifier. */
    method ResetPendingOuter(id: nat) returns (r: Result<nat, SessionError>)
      requires Valid()
      modifies this
      ensures Valid() && Snapshot() == Step(old(Snapshot()), ResetPending(id))
      ensures r.Ok? <==> MayReset(old(Snapshot()), id)
      ensures r.Ok? ==> pendingOuter == Some(r.value)
    {
      hide Inv, CountOpen, AnyDisables;
      PendingResetKeepsInv(Snapshot(), id);
      if pendingOuter != Some(id) {
        return Err(InvalidSession);
      }
      var found := IndexOf(layers, id);
      if found.None? || !Open(layers[found.value]) {
        return Err(InvalidSession);
      }
      var i := found.value;
      if AnyOpen(layers[i + 1..]) {
        return Err(ActiveSessions);
      }
      var discarded := layers[i..];
      layers := layers[..i] + [Layer(nextId, map[], false, false, AnyDisables(discarded))];
      active := active - CountOpen(discarded) + 1;
      pendingOuter := Some(nextId);
      nextId := nextId + 1;
      return Ok(nextId - 1);
    }

    /** `release_pending_outer`. */
    method ReleasePendingOuter(id: nat)
      requires Valid()
      modifies this
      ensures Valid() && Snapshot() == Step(old(Snapshot()), ReleasePending(id))
    {
      if pendingOuter == Some(id) {
        pendingOuter := None;
      }
    }

    /** `force_reset_pending_outer`. */
    method ForceResetPendingOuter()
      requires Valid()
      modifies this
      ensures Valid() && Snapshot() == Step(old(Snapshot()), ForceResetPending)
    {
      hide Inv, CountOpen, AnyDisables;
      PendingForcedKeepsInv(Snapshot());
      var found := if pendingOuter.Some? then IndexOf(layers, pendingOuter.value) else None;
      pendingOuter := None;
      if found.Some? {
        var discarded := layers[found.value..];
        layers := layers[..found.value];
        active := if active < CountOpen(discarded) then 0 else active - CountOpen(discarded);
        if AnyDisables(discarded) {
          enabled := false;
        }
      }
    }
  }
}
