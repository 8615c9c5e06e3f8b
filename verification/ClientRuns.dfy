/** What a run of the client entity manager does, callbacks that re-enter it included, and which runs lose blocks or
    leave stale slots behind (extension/client/cliententitymanager.cpp:283-371, 414-452, 896-930, 983-1041, 1076-1087). */
module ClientRuns {
  import opened Wrappers
  import opened ClientEntities

  // ---------- What callbacks may do ----------

  /** What an operation can see of an entity. `creation` is the runtime class that the entity is being created
      for, and `hooked` says whether its hooks can be installed. */
  datatype Seen = Seen(handleValue: Option<nat>, entIndex: int, networkable: bool, creation: Option<nat>, hooked: bool)

  /** An operation on the manager, with what the callbacks that it makes will do in their turn. */
  datatype Op =
    | Track(entity: nat, seen: Seen, failed: Script, created: Script)
    | Attach(entity: nat, seen: Seen, runtime: nat, failed: Script, created: Script)
    | Release(entity: nat, removed: Script)
    | PostConstruct(entity: nat, constructed: Script)
    | Delete(entity: nat, callbacks: Callbacks)
    | Purge(deletions: Deletions)
    | Shutdown(deletions: Deletions)

  datatype Script = Done | Then(op: Op, rest: Script)

  /** Of one deletion: what the factory's remove callback does, and what the listeners do afterwards. */
  datatype Callbacks = Callbacks(removed: Script, notified: Script)

  datatype Deletions = NoMore | Next(callbacks: Callbacks, rest: Deletions)

  function OpSize(op: Op): nat {
    match op
    case Track(_, _, failed, created) => 1 + ScriptSize(failed) + ScriptSize(created)
    case Attach(_, _, _, failed, created) => 1 + ScriptSize(failed) + ScriptSize(created)
    case Release(_, removed) => 1 + ScriptSize(removed)
    case PostConstruct(_, constructed) => 1 + ScriptSize(constructed)
    case Delete(_, callbacks) => 1 + CallbacksSize(callbacks)
    case Purge(deletions) => 1 + DeletionsSize(deletions)
    case Shutdown(deletions) => 1 + DeletionsSize(deletions)
  }

  function ScriptSize(s: Script): nat {
    match s
    case Done => 0
    case Then(op, rest) => 1 + OpSize(op) + ScriptSize(rest)
  }

  function CallbacksSize(c: Callbacks): nat {
    ScriptSize(c.removed) + ScriptSize(c.notified)
  }

  function DeletionsSize(d: Deletions): nat {
    match d
    case NoMore => 0
    case Next(callbacks, rest) => CallbacksSize(callbacks) + DeletionsSize(rest)
  }

  // ---------- What the operations do ----------

  function Deleting(m: Manager, e: nat): Manager
    requires e in m.entities
  {
    m.(entities := m.entities[e := m.entities[e].(deleting := true)])
  }

  function RemoveNotified(m: Manager, e: nat): Manager
    requires e in m.entities
  {
    m.(entities := m.entities[e := m.entities[e].(removeNotified := true)])
  }

  function PostConstructed(m: Manager, e: nat): Manager
    requires e in m.entities
  {
    m.(entities := m.entities[e := m.entities[e].(postConstructed := true)])
  }

  /** Everything that happens while the manager has called out. */
  function Ran(m: Manager, s: Script): Manager
    decreases ScriptSize(s), 0
  {
    match s
    case Done => m
    case Then(op, rest) => Ran(Executed(m, op), rest)
  }

  function Executed(m: Manager, op: Op): Manager
    decreases OpSize(op), 0
  {
    match op
    case Track(e, seen, failed, created) => Tracked(m, e, seen, failed, created)
    case Attach(e, seen, runtime, failed, created) => AttachedRuntime(m, e, seen, runtime, failed, created)
    case Release(e, removed) => CleanedUp(m, e, removed)
    case PostConstruct(e, constructed) => Constructed(m, e, constructed)
    case Delete(e, callbacks) => Deleted(m, e, callbacks)
    case Purge(deletions) => Purged(m, deletions)
    case Shutdown(deletions) => Stopped(m, deletions)
  }

  predicate Tracks(m: Manager, e: nat, seen: Seen) {
    m.available && !m.purging && e !in m.entities && seen.handleValue.Some? && m.next < -1
  }

  /** `TrackEntity`. */
  function Tracked(m: Manager, e: nat, seen: Seen, failed: Script, created: Script): Manager
    decreases ScriptSize(failed) + ScriptSize(created), 4
  {
    if !Tracks(m, e, seen) then m
    else
      var inserted := Inserted(m, e, seen.handleValue.value, seen.entIndex);
      Ran(if seen.creation.Some? then AttachedTracked(inserted, e, seen, seen.creation.value, failed) else inserted, created)
  }

  predicate MayAttach(m: Manager, e: nat, seen: Seen) {
    && e in m.entities && !m.entities[e].deleting && !m.entities[e].removeNotified
    && m.entities[e].runtime.None? && seen.networkable
  }

  predicate IsAttached(m: Manager, e: nat, runtime: nat) {
    e in m.entities && !m.entities[e].deleting && !m.entities[e].removeNotified && m.entities[e].runtime == Some(runtime)
  }

  /** Lines 988-1013: a record that is on its way out gets no block; one that has a runtime class keeps it. */
  function AttachedTracked(m: Manager, e: nat, seen: Seen, runtime: nat, failed: Script): Manager
    decreases ScriptSize(failed), 3
  {
    if !MayAttach(m, e, seen) then m
    else if seen.hooked then Attached(m, e, runtime, seen.entIndex)
    else CleanedUp(Attached(m, e, runtime, seen.entIndex), e, failed)
  }

  /** `AttachRuntime`: an entity that is not tracked yet is tracked first. */
  function AttachedRuntime(m: Manager, e: nat, seen: Seen, runtime: nat, failed: Script, created: Script): Manager
    decreases ScriptSize(failed) + ScriptSize(created), 5
  {
    AttachedTracked(if e in m.entities then m else Tracked(m, e, seen, failed, created), e, seen, runtime, failed)
  }

  predicate MayConstruct(m: Manager, e: nat) {
    e in m.entities && m.entities[e].runtime.Some? && !m.entities[e].postConstructed && !m.entities[e].deleting
  }

  /** `RunPostConstructor`: once per record. */
  function Constructed(m: Manager, e: nat, constructed: Script): Manager
    decreases ScriptSize(constructed), 1
  {
    if !MayConstruct(m, e) then m else Ran(PostConstructed(m, e), constructed)
  }

  /** Lines 1027-1028: the remove callback of the factory. */
  function CalledRemoved(m: Manager, e: nat, removed: Script): Manager
    requires e in m.entities
    decreases ScriptSize(removed), 1
  {
    if m.entities[e].runtime.Some? && m.entities[e].postConstructed then Ran(m, removed) else m
  }

  /** Lines 1030-1040: callbacks may have deleted the record, or put another in its place. */
  function ReleasedIfSame(m: Manager, e: nat, handleValue: nat): Manager {
    if e in m.entities && m.entities[e].handleValue == handleValue then Released(m, e) else m
  }

  /** `CleanupRuntime`: once per record. */
  function CleanedUp(m: Manager, e: nat, removed: Script): Manager
    decreases ScriptSize(removed), 2
  {
    if e !in m.entities || m.entities[e].removeNotified then m
    else ReleasedIfSame(CalledRemoved(RemoveNotified(m, e), e, removed), e, m.entities[e].handleValue)
  }

  function ErasedIfSame(m: Manager, e: nat, handleValue: nat): Manager {
    if e in m.entities && m.entities[e].handleValue == handleValue then Erased(m, e) else m
  }

  predicate MayDelete(m: Manager, e: nat) {
    m.available && e in m.entities && !m.entities[e].deleting
  }

  /** `OnEntityDeleted`. */
  function Deleted(m: Manager, e: nat, callbacks: Callbacks): Manager
    decreases CallbacksSize(callbacks), 3
  {
    if !MayDelete(m, e) then m
    else ErasedIfSame(Ran(CleanedUp(Deleting(m, e), e, callbacks.removed), callbacks.notified), e, m.entities[e].handleValue)
  }

  function FirstOf(deletions: Deletions): Callbacks {
    if deletions.Next? then deletions.callbacks else Callbacks(Done, Done)
  }

  function RestOf(deletions: Deletions): Deletions {
    if deletions.Next? then deletions.rest else deletions
  }

  function DeletedAll(m: Manager, snapshot: seq<nat>, deletions: Deletions): Manager
    decreases DeletionsSize(deletions), 4, |snapshot|
  {
    if snapshot == [] then m
    else DeletedAll(Deleted(m, snapshot[0], FirstOf(deletions)), snapshot[1..], RestOf(deletions))
  }

  /** `PurgeEntities`. */
  function Purged(m: Manager, deletions: Deletions): Manager
    decreases DeletionsSize(deletions), 5
  {
    if m.purging then m
    else Cleared(DeletedAll(m.(purging := true), m.order, deletions)).(purging := false)
  }

  /** `Shutdown`. */
  function Stopped(m: Manager, deletions: Deletions): Manager
    decreases DeletionsSize(deletions), 6
  {
    Cleared(Purged(m, deletions).(available := false))
  }

  // ---------- Every run keeps the invariant ----------

  lemma StaysPut(m: Manager)
    ensures Evolves(m, m)
  {
  }

  /** Opening and closing the gates changes nothing else. */
  lemma GatesKeepInv(m: Manager, available: bool, purging: bool)
    requires Inv(m)
    ensures var m' := m.(available := available, purging := purging);
            Inv(m') && Evolves(m, m') && Lost(m') == Lost(m) && Stale(m') == Stale(m)
  {
    hide TracksOk, PoolOk, BlocksOk, SlotsOk, Evolves;
    var m' := m.(available := available, purging := purging);
    SameTracksOk(m, m');
    SamePoolOk(m, m');
    SameSlotsOk(m, m');
    assert forall b: nat :: IsHeld(m', b) <==> IsHeld(m, b);
  }

  lemma {:induction false} RanKeepsInv(m: Manager, s: Script)
    requires Inv(m)
    ensures Inv(Ran(m, s)) && Evolves(m, Ran(m, s))
    decreases ScriptSize(s), 0
  {
    hide Inv, Evolves, Executed;
    StaysPut(m);
    if s.Then? {
      ExecutedKeepsInv(m, s.op);
      RanKeepsInv(Executed(m, s.op), s.rest);
      EvolvesOn(m, Executed(m, s.op), Ran(m, s));
    }
  }

  lemma {:induction false} ExecutedKeepsInv(m: Manager, op: Op)
    requires Inv(m)
    ensures Inv(Executed(m, op)) && Evolves(m, Executed(m, op))
    decreases OpSize(op), 0
  {
    hide Inv, Evolves;
    match op {
      case Track(e, seen, failed, created) => TrackedKeepsInv(m, e, seen, failed, created);
      case Attach(e, seen, runtime, failed, created) => AttachedRuntimeKeepsInv(m, e, seen, runtime, failed, created);
      case Release(e, removed) => CleanedUpKeepsInv(m, e, removed);
      case PostConstruct(e, constructed) => ConstructedKeepsInv(m, e, constructed);
      case Delete(e, callbacks) => DeletedKeepsInv(m, e, callbacks);
      case Purge(deletions) => PurgedKeepsInv(m, deletions);
      case Shutdown(deletions) => StoppedKeepsInv(m, deletions);
    }
  }

  lemma {:induction false} TrackedKeepsInv(m: Manager, e: nat, seen: Seen, failed: Script, created: Script)
    requires Inv(m)
    ensures Inv(Tracked(m, e, seen, failed, created)) && Evolves(m, Tracked(m, e, seen, failed, created))
    decreases ScriptSize(failed) + ScriptSize(created), 4
  {
    hide Inv, Evolves, Inserted, AttachedTracked;
    StaysPut(m);
    if Tracks(m, e, seen) {
      var inserted := Inserted(m, e, seen.handleValue.value, seen.entIndex);
      InsertKeepsInv(m, e, seen.handleValue.value, seen.entIndex);
      var attached := if seen.creation.Some? then AttachedTracked(inserted, e, seen, seen.creation.value, failed) else inserted;
      StaysPut(inserted);
      if seen.creation.Some? {
        AttachedTrackedKeepsInv(inserted, e, seen, seen.creation.value, failed);
      }
      RanKeepsInv(attached, created);
      EvolvesOn(inserted, attached, Ran(attached, created));
      EvolvesOn(m, inserted, Ran(attached, created));
    }
  }

  lemma NoRuntimeNoBlock(m: Manager, e: nat)
    requires Inv(m) && e in m.entities && m.entities[e].runtime.None?
    ensures m.entities[e].sidecar.None?
  {
    assert Holds(m, e);
  }

  lemma {:induction false} AttachedTrackedKeepsInv(m: Manager, e: nat, seen: Seen, runtime: nat, failed: Script)
    requires Inv(m)
    ensures Inv(AttachedTracked(m, e, seen, runtime, failed)) && Evolves(m, AttachedTracked(m, e, seen, runtime, failed))
    decreases ScriptSize(failed), 3
  {
    hide Inv, Evolves, Attached, CleanedUp;
    StaysPut(m);
    if MayAttach(m, e, seen) {
      NoRuntimeNoBlock(m, e);
      AttachKeepsInv(m, e, runtime, seen.entIndex);
      var occupied := Attached(m, e, runtime, seen.entIndex);
      CleanedUpKeepsInv(occupied, e, failed);
      EvolvesOn(m, occupied, CleanedUp(occupied, e, failed));
    }
  }

  lemma {:induction false} AttachedRuntimeKeepsInv(m: Manager, e: nat, seen: Seen, runtime: nat, failed: Script, created: Script)
    requires Inv(m)
    ensures var m' := AttachedRuntime(m, e, seen, runtime, failed, created);
            Inv(m') && Evolves(m, m')
    decreases ScriptSize(failed) + ScriptSize(created), 5
  {
    hide Inv, Evolves, Tracked, AttachedTracked;
    StaysPut(m);
    TrackedKeepsInv(m, e, seen, failed, created);
    var tracked := if e in m.entities then m else Tracked(m, e, seen, failed, created);
    AttachedTrackedKeepsInv(tracked, e, seen, runtime, failed);
    EvolvesOn(m, tracked, AttachedTracked(tracked, e, seen, runtime, failed));
  }

  lemma {:induction false} ConstructedKeepsInv(m: Manager, e: nat, constructed: Script)
    requires Inv(m)
    ensures Inv(Constructed(m, e, constructed)) && Evolves(m, Constructed(m, e, constructed))
    decreases ScriptSize(constructed), 1
  {
    hide Inv, Evolves;
    StaysPut(m);
    if MayConstruct(m, e) {
      FlagsKeepInv(m, e, m.entities[e].(postConstructed := true));
      RanKeepsInv(PostConstructed(m, e), constructed);
      EvolvesOn(m, PostConstructed(m, e), Ran(PostConstructed(m, e), constructed));
    }
  }

  /** The post constructor runs at most once in a life: whatever happens afterwards, it does not run for it again. */
  lemma ConstructedOnce(m: Manager, m': Manager, e: nat, constructed: Script, again: Script)
    requires Inv(m) && MayConstruct(m, e)
    requires Inv(m') && Evolves(Constructed(m, e, constructed), m')
    requires e in m'.entities && m'.entities[e].durableRef == m.entities[e].durableRef
    ensures Constructed(m', e, again) == m'
  {
    hide Inv, Evolves, Ran;
    var begun := PostConstructed(m, e);
    FlagsKeepInv(m, e, m.entities[e].(postConstructed := true));
    RanKeepsInv(begun, constructed);
    EvolvesOn(begun, Ran(begun, constructed), m');
    MarkedForLife(begun, m', e);
  }

  /** What is noted of a life stays noted for as long as it goes on. */
  lemma MarkedForLife(m: Manager, m': Manager, e: nat)
    requires Inv(m) && Inv(m') && Evolves(m, m') && e in m.entities && e in m'.entities
    requires m'.entities[e].durableRef == m.entities[e].durableRef
    ensures Marks(m.entities[e], m'.entities[e])
  {
    hide PoolOk, BlocksOk, SlotsOk;
    assert RecordTracked(m, e) && RecordTracked(m', e);
  }

  lemma {:induction false} CleanedUpKeepsInv(m: Manager, e: nat, removed: Script)
    requires Inv(m)
    ensures Inv(CleanedUp(m, e, removed)) && Evolves(m, CleanedUp(m, e, removed))
    decreases ScriptSize(removed), 2
  {
    hide Inv, Evolves, Released, Ran;
    StaysPut(m);
    if e in m.entities && !m.entities[e].removeNotified {
      FlagsKeepInv(m, e, m.entities[e].(removeNotified := true));
      var marked := RemoveNotified(m, e);
      var called := CalledRemoved(marked, e, removed);
      StaysPut(marked);
      RanKeepsInv(marked, removed);
      EvolvesOn(m, marked, called);
      StaysPut(called);
      if e in called.entities {
        ReleaseKeepsInv(called, e);
      }
      EvolvesOn(m, called, ReleasedIfSame(called, e, m.entities[e].handleValue));
    }
  }

  lemma {:induction false} DeletedKeepsInv(m: Manager, e: nat, callbacks: Callbacks)
    requires Inv(m)
    ensures Inv(Deleted(m, e, callbacks)) && Evolves(m, Deleted(m, e, callbacks))
    decreases CallbacksSize(callbacks), 3
  {
    hide Inv, Evolves, Erased, CleanedUp;
    StaysPut(m);
    if MayDelete(m, e) {
      FlagsKeepInv(m, e, m.entities[e].(deleting := true));
      var marked := Deleting(m, e);
      var cleaned := CleanedUp(marked, e, callbacks.removed);
      var notified := Ran(cleaned, callbacks.notified);
      CleanedUpKeepsInv(marked, e, callbacks.removed);
      RanKeepsInv(cleaned, callbacks.notified);
      EvolvesOn(m, marked, cleaned);
      EvolvesOn(m, cleaned, notified);
      StaysPut(notified);
      if e in notified.entities {
        EraseKeepsInv(notified, e);
      }
      EvolvesOn(m, notified, ErasedIfSame(notified, e, m.entities[e].handleValue));
    }
  }

  lemma {:induction false} DeletedAllKeepsInv(m: Manager, snapshot: seq<nat>, deletions: Deletions)
    requires Inv(m)
    ensures Inv(DeletedAll(m, snapshot, deletions)) && Evolves(m, DeletedAll(m, snapshot, deletions))
    decreases DeletionsSize(deletions), 4, |snapshot|
  {
    hide Inv, Evolves, Deleted;
    StaysPut(m);
    if snapshot != [] {
      var next := Deleted(m, snapshot[0], FirstOf(deletions));
      DeletedKeepsInv(m, snapshot[0], FirstOf(deletions));
      DeletedAllKeepsInv(next, snapshot[1..], RestOf(deletions));
      EvolvesOn(m, next, DeletedAll(m, snapshot, deletions));
    }
  }

  lemma {:induction false} PurgedKeepsInv(m: Manager, deletions: Deletions)
    requires Inv(m)
    ensures Inv(Purged(m, deletions)) && Evolves(m, Purged(m, deletions))
    decreases DeletionsSize(deletions), 5
  {
    hide Inv, Evolves, Cleared, DeletedAll;
    StaysPut(m);
    if !m.purging {
      var begun := m.(purging := true);
      GatesKeepInv(m, m.available, true);
      var emptied := DeletedAll(begun, m.order, deletions);
      DeletedAllKeepsInv(begun, m.order, deletions);
      EvolvesOn(m, begun, emptied);
      ClearKeepsInv(emptied);
      EvolvesOn(m, emptied, Cleared(emptied));
      GatesKeepInv(Cleared(emptied), Cleared(emptied).available, false);
      EvolvesOn(m, Cleared(emptied), Purged(m, deletions));
    }
  }

  lemma {:induction false} StoppedKeepsInv(m: Manager, deletions: Deletions)
    requires Inv(m)
    ensures Inv(Stopped(m, deletions)) && Evolves(m, Stopped(m, deletions))
    decreases DeletionsSize(deletions), 6
  {
    hide Inv, Evolves, Cleared, Purged;
    var purged := Purged(m, deletions);
    PurgedKeepsInv(m, deletions);
    GatesKeepInv(purged, false, purged.purging);
    var stopped := purged.(available := false);
    EvolvesOn(m, purged, stopped);
    ClearKeepsInv(stopped);
    EvolvesOn(m, stopped, Cleared(stopped));
  }
}
