/** `CClientEntityManager` at work: callbacks may re-enter it at the points where the code calls out
    (extension/client/cliententitymanager.cpp:283-371, 414-452, 868-875, 896-930, 983-1041, 1076-1087). */
module ClientManager {
  import opened Wrappers
  import opened ClientEntities
  import opened ClientRuns

  // ---------- The manager ----------

  class ClientEntityManager {
    var available: bool
    var purging: bool
    var entities: map<nat, Record>
    var clientTokens: map<int, nat>
    var entityOrder: seq<nat>
    var nextClientToken: int
    var networkSidecars: map<int, Slot>
    var freeSidecars: map<nat, seq<nat>>
    var sidecarBlocks: map<nat, nat>
    var nextBlock: nat
    ghost var issued: map<int, Life>

    constructor ()
      ensures Valid() && Now() == EMPTY && nextClientToken == -0x8000_0000
    {
      available, purging := true, false;
      entities, clientTokens, entityOrder, nextClientToken := map[], map[], [], INT_MIN;
      networkSidecars, freeSidecars, sidecarBlocks, nextBlock := map[], map[], map[], 0;
      issued := map[];
    }

    ghost function Now(): Manager
      reads this
    {
      Manager(available, purging, entities, clientTokens, entityOrder, nextClientToken,
              networkSidecars, freeSidecars, sidecarBlocks, nextBlock, issued)
    }

    ghost predicate Valid()
      reads this
    {
      Inv(Now())
    }

    // ---------- Single steps ----------

    /** Lines 285-306. */
    method Insert(e: nat, handleValue: nat, entIndex: int)
      requires Valid() && e !in entities && nextClientToken < -1
      modifies this
      ensures Valid() && Now() == Inserted(old(Now()), e, handleValue, entIndex) && Evolves(old(Now()), Now())
    {
      hide Inv, Evolves;
      hide Inserted, NewRecord;
      InsertKeepsInv(Now(), e, handleValue, entIndex);
      ghost var after := Inserted(Now(), e, handleValue, entIndex);
      InsertedIs(Now(), e, handleValue, entIndex);
      var durableRef := IssueToken(e, handleValue);
      AddRecord(e, NewRecord(durableRef, handleValue, entIndex), durableRef);
      assert Now() == after;
    }

    /** Line 298. */
    method IssueToken(e: nat, handleValue: nat) returns (durableRef: int)
      modifies this`nextClientToken, this`issued
      ensures durableRef == old(nextClientToken) && nextClientToken == durableRef + 1
      ensures issued == old(issued)[durableRef := Life(e, handleValue)]
    {
      durableRef := nextClientToken;
      nextClientToken := nextClientToken + 1;
      issued := issued[durableRef := Life(e, handleValue)];
    }

    /** Lines 304-306. */
    method AddRecord(e: nat, record: Record, durableRef: int)
      modifies this`entities, this`clientTokens, this`entityOrder
      ensures entities == old(entities)[e := record] && clientTokens == old(clientTokens)[durableRef := e]
      ensures entityOrder == old(entityOrder) + [e]
    {
      entities := entities[e := record];
      clientTokens := clientTokens[durableRef := e];
      entityOrder := entityOrder + [e];
    }

    lemma InsertedIs(m: Manager, e: nat, handleValue: nat, entIndex: int)
      ensures var m' := Inserted(m, e, handleValue, entIndex);
              var r := NewRecord(m.next, handleValue, entIndex);
              && m'.entities == m.entities[e := r] && m'.tokens == m.tokens[m.next := e] && m'.order == m.order + [e]
              && m'.next == m.next + 1 && m'.issued == m.issued[m.next := Life(e, handleValue)]
              && m'.available == m.available && m'.purging == m.purging && m'.slots == m.slots
              && m'.free == m.free && m'.owner == m.owner && m'.nextBlock == m.nextBlock
    {
    }

    /** `AcquireSidecar`. */
    method AcquireSidecar(runtime: nat) returns (block: nat)
      modifies this`freeSidecars, this`sidecarBlocks, this`nextBlock
      ensures (block, Now()) == Acquired(old(Now()), runtime)
    {
      var free := if runtime in freeSidecars then freeSidecars[runtime] else [];
      if |free| != 0 {
        block := free[|free| - 1];
        freeSidecars := freeSidecars[runtime := free[..|free| - 1]];
      } else {
        block := nextBlock;
        nextBlock := nextBlock + 1;
        sidecarBlocks := sidecarBlocks[block := runtime];
      }
    }

    /** `ReleaseSidecar`. */
    method ReleaseSidecar(runtime: nat, sidecar: Option<nat>)
      modifies this`freeSidecars
      ensures freeSidecars == if sidecar.None? then old(freeSidecars)
                              else old(freeSidecars)[runtime := Free(old(Now()), runtime) + [sidecar.value]]
    {
      if sidecar.Some? {
        var free := if runtime in freeSidecars then freeSidecars[runtime] else [];
        freeSidecars := freeSidecars[runtime := free + [sidecar.value]];
      }
    }

    /** Lines 994-1003. */
    method Occupy(e: nat, runtime: nat, entIndex: int)
      requires Valid() && e in entities && entities[e].sidecar.None?
      modifies this
      ensures Valid() && Now() == Attached(old(Now()), e, runtime, entIndex) && Evolves(old(Now()), Now())
    {
      hide Inv, Evolves, Acquired;
      AttachKeepsInv(Now(), e, runtime, entIndex);
      var sidecar := AcquireSidecar(runtime);
      var record := entities[e].(sidecar := Some(sidecar), runtime := Some(runtime));
      if 0 <= entIndex < MAX_EDICTS {
        record := record.(networkSlot := entIndex);
        networkSidecars := networkSidecars[entIndex := Slot(e, sidecar, record.handleValue, record.durableRef)];
      }
      entities := entities[e := record];
    }

    /** `ClearNetworkSlot`. */
    method ClearNetworkSlot(e: nat)
      requires e in entities
      modifies this`networkSidecars, this`entities
      ensures networkSidecars == SlotsWithout(old(Now()), e)
      ensures entities == old(entities)[e := old(entities)[e].(networkSlot := -1)]
    {
      var record := entities[e];
      if record.networkSlot in networkSidecars {
        var slot := networkSidecars[record.networkSlot];
        if slot.entity == e && slot.handleValue == record.handleValue {
          networkSidecars := networkSidecars - {record.networkSlot};
        }
      }
      entities := entities[e := record.(networkSlot := -1)];
    }

    /** Lines 1033-1040. */
    method ReleaseRuntime(e: nat)
      requires Valid() && e in entities
      modifies this
      ensures Valid() && Now() == Released(old(Now()), e) && Evolves(old(Now()), Now())
    {
      hide Inv, Evolves, SlotsWithout, FreeWith;
      ReleaseKeepsInv(Now(), e);
      ghost var was := Now();
      ClearNetworkSlot(e);
      ghost var cleared := Now();
      DropBlock(e);
      ReleasedInSteps(was, cleared, Now(), e);
    }

    method DropBlock(e: nat)
      requires e in entities
      modifies this`freeSidecars, this`entities
      ensures freeSidecars == FreeWith(old(Now()), e)
      ensures entities == old(entities)[e := old(entities)[e].(sidecar := None, runtime := None)]
    {
      var record := entities[e];
      if record.runtime.Some? {
        ReleaseSidecar(record.runtime.value, record.sidecar);
      }
      entities := entities[e := record.(sidecar := None, runtime := None)];
    }

    lemma ReleasedInSteps(was: Manager, cleared: Manager, now: Manager, e: nat)
      requires e in was.entities
      requires cleared == was.(slots := SlotsWithout(was, e), entities := was.entities[e := was.entities[e].(networkSlot := -1)])
      requires now == cleared.(free := FreeWith(cleared, e),
                               entities := cleared.entities[e := cleared.entities[e].(sidecar := None, runtime := None)])
      ensures now == Released(was, e)
    {
      hide SlotsWithout;
      UpdateTwice(was.entities, e, cleared.entities[e], now.entities[e]);
    }

    lemma UpdateTwice<K, V>(m: map<K, V>, k: K, x: V, y: V)
      ensures m[k := x][k := y] == m[k := y]
    {
    }

    /** Lines 448-450. */
    method Erase(e: nat)
      requires Valid() && e in entities
      modifies this
      ensures Valid() && Now() == Erased(old(Now()), e) && Evolves(old(Now()), Now())
    {
      hide Inv, Evolves;
      EraseKeepsInv(Now(), e);
      entityOrder := WithoutAll(entityOrder, e);
      clientTokens := clientTokens - {entities[e].durableRef};
      entities := entities - {e};
    }

    method SetRecord(e: nat, r: Record)
      requires Valid() && e in entities
      requires r == entities[e].(deleting := r.deleting, removeNotified := r.removeNotified, postConstructed := r.postConstructed)
      requires Marks(entities[e], r)
      modifies this`entities
      ensures Valid() && Now() == old(Now()).(entities := old(entities)[e := r]) && Evolves(old(Now()), Now())
    {
      hide Inv, Evolves;
      FlagsKeepInv(Now(), e, r);
      entities := entities[e := r];
    }

    method Clear()
      requires Valid()
      modifies this
      ensures Valid() && Now() == Cleared(old(Now())) && Evolves(old(Now()), Now())
    {
      hide Inv, Evolves;
      ClearKeepsInv(Now());
      entityOrder, entities, clientTokens, networkSidecars := [], map[], map[], map[];
    }

    // ---------- Operations that call out ----------

    /** Everything that happens while the manager has called out. */
    method Run(s: Script)
      requires Valid()
      modifies this
      ensures Valid() && Now() == Ran(old(Now()), s) && Evolves(old(Now()), Now())
      decreases ScriptSize(s), 0
    {
      hide Inv, Evolves, Executed;
      RanKeepsInv(Now(), s);
      match s {
        case Done =>
        case Then(op, rest) =>
          Exec(op);
          Run(rest);
      }
    }

    method Exec(op: Op)
      requires Valid()
      modifies this
      ensures Valid() && Now() == Executed(old(Now()), op) && Evolves(old(Now()), Now())
      decreases OpSize(op), 0
    {
      hide Inv, Evolves, Tracked, AttachedRuntime, CleanedUp, Constructed, Deleted, Purged, Stopped;
      match op {
        case Track(entity, seen, failed, created) => TrackEntity(entity, seen, failed, created);
        case Attach(entity, seen, runtime, failed, created) => var _ := AttachRuntime(entity, seen, runtime, failed, created);
        case Release(entity, removed) => CleanupRuntime(entity, removed);
        case PostConstruct(entity, constructed) => RunPostConstructor(entity, constructed);
        case Delete(entity, callbacks) => OnEntityDeleted(entity, callbacks);
        case Purge(deletions) => PurgeEntities(deletions);
        case Shutdown(deletions) => ShutDown(deletions);
      }
    }

    /** `TrackEntity`: a life begins, under a token never issued before. Classnames are not modelled. */
    method TrackEntity(e: nat, seen: Seen, failed: Script, created: Script)
      requires Valid()
      modifies this
      ensures Valid() && Now() == Tracked(old(Now()), e, seen, failed, created) && Evolves(old(Now()), Now())
      ensures Tracks(old(Now()), e, seen) ==>
                && old(nextClientToken) < nextClientToken && old(nextClientToken) in issued
                && issued[old(nextClientToken)] == Life(e, seen.handleValue.value)
      decreases ScriptSize(failed) + ScriptSize(created), 4
    {
      hide Inv, Inserted, AttachedTracked, Ran;
      TrackedKeepsInv(Now(), e, seen, failed, created);
      if !available || purging || e in entities || seen.handleValue.None? || nextClientToken >= -1 {
        return;
      }
      Insert(e, seen.handleValue.value, seen.entIndex);
      ghost var inserted := Now();
      InsertedIs(old(Now()), e, seen.handleValue.value, seen.entIndex);
      if seen.creation.Some? {
        var _ := AttachTracked(e, seen, seen.creation.value, failed);
      }
      StaysPut(inserted);
      ghost var attached := Now();
      Run(created);
      EvolvesOn(inserted, attached, Now());
    }

    /** `AttachRuntime`: an entity that is not tracked yet is tracked first. */
    method AttachRuntime(e: nat, seen: Seen, runtime: nat, failed: Script, created: Script) returns (ok: bool)
      requires Valid()
      modifies this
      ensures Valid() && Evolves(old(Now()), Now())
      ensures Now() == AttachedRuntime(old(Now()), e, seen, runtime, failed, created)
      ensures var m := if old(e in entities) then old(Now()) else Tracked(old(Now()), e, seen, failed, created);
              ok <==> if MayAttach(m, e, seen) then seen.hooked else IsAttached(m, e, runtime)
      decreases ScriptSize(failed) + ScriptSize(created), 5
    {
      hide Inv, Evolves, Tracked, AttachedTracked;
      AttachedRuntimeKeepsInv(Now(), e, seen, runtime, failed, created);
      if e !in entities {
        TrackEntity(e, seen, failed, created);
      }
      ok := AttachTracked(e, seen, runtime, failed);
    }

    /** Lines 988-1012. A record that is on its way out gets no block; one that has a runtime class keeps it. */
    method AttachTracked(e: nat, seen: Seen, runtime: nat, failed: Script) returns (ok: bool)
      requires Valid()
      modifies this
      ensures Valid() && Now() == AttachedTracked(old(Now()), e, seen, runtime, failed) && Evolves(old(Now()), Now())
      ensures ok <==> if MayAttach(old(Now()), e, seen) then seen.hooked else IsAttached(old(Now()), e, runtime)
      decreases ScriptSize(failed), 3
    {
      hide Inv, Evolves, Attached, CleanedUp;
      AttachedTrackedKeepsInv(Now(), e, seen, runtime, failed);
      if e !in entities || entities[e].deleting || entities[e].removeNotified {
        return false;
      }
      if entities[e].runtime.Some? {
        return entities[e].runtime.value == runtime;
      }
      if !seen.networkable {
        return false;
      }
      NoRuntimeNoBlock(Now(), e);
      Occupy(e, runtime, seen.entIndex);
      if !seen.hooked {
        CleanupRuntime(e, failed);
        return false;
      }
      ok := true;
    }

    /** `RunPostConstructor`: once per record. */
    method RunPostConstructor(e: nat, constructed: Script)
      requires Valid()
      modifies this
      ensures Valid() && Now() == Constructed(old(Now()), e, constructed) && Evolves(old(Now()), Now())
      decreases ScriptSize(constructed), 1
    {
      hide Inv, Evolves, Ran;
      ConstructedKeepsInv(Now(), e, constructed);
      if e !in entities || entities[e].runtime.None? || entities[e].postConstructed || entities[e].deleting {
        return;
      }
      SetRecord(e, entities[e].(postConstructed := true));
      Run(constructed);
    }

    /** `CleanupRuntime`: once per record. After the remove callback the record is looked up again, by entity
        and handle; if it is still there it gives its block back. */
    method CleanupRuntime(e: nat, removed: Script)
      requires Valid()
      modifies this
      ensures Valid() && Now() == CleanedUp(old(Now()), e, removed) && Evolves(old(Now()), Now())
      ensures old(e in entities && !entities[e].removeNotified) ==>
                e !in entities || entities[e].handleValue != old(entities)[e].handleValue || entities[e].sidecar.None?
      decreases ScriptSize(removed), 2
    {
      hide Inv, Evolves, Released, CalledRemoved;
      CleanedUpKeepsInv(Now(), e, removed);
      if e !in entities || entities[e].removeNotified {
        return;
      }
      var handleValue := entities[e].handleValue;
      SetRecord(e, entities[e].(removeNotified := true));
      CallRemoved(e, removed);
      ReleaseIfSame(e, handleValue);
    }

    /** Lines 1027-1028. */
    method CallRemoved(e: nat, removed: Script)
      requires Valid() && e in entities
      modifies this
      ensures Valid() && Now() == CalledRemoved(old(Now()), e, removed)
      decreases ScriptSize(removed), 1
    {
      hide Inv, Evolves, Ran;
      if entities[e].runtime.Some? && entities[e].postConstructed {
        Run(removed);
      }
    }

    /** Lines 1030-1040: callbacks may have deleted the record, or put another in its place. */
    method ReleaseIfSame(e: nat, handleValue: nat)
      requires Valid()
      modifies this
      ensures Valid() && Now() == ReleasedIfSame(old(Now()), e, handleValue)
      ensures e !in entities || entities[e].handleValue != handleValue || entities[e].sidecar.None?
    {
      hide Inv, Evolves, Released;
      if e in entities && entities[e].handleValue == handleValue {
        ReleaseRuntime(e);
        ReleasedHasNone(old(Now()), e);
      }
    }

    lemma ReleasedHasNone(m: Manager, e: nat)
      requires e in m.entities
      ensures e in Released(m, e).entities && Released(m, e).entities[e].sidecar.None?
    {
    }

    /** `OnEntityDeleted`: whatever the callbacks do, the life that was deleted is over afterwards. */
    method OnEntityDeleted(e: nat, callbacks: Callbacks)
      requires Valid()
      modifies this
      ensures Valid() && Now() == Deleted(old(Now()), e, callbacks) && Evolves(old(Now()), Now())
      ensures MayDelete(old(Now()), e) ==> old(entities)[e].durableRef !in clientTokens
      decreases CallbacksSize(callbacks), 3
    {
      hide Inv, Evolves, Erased, CleanedUp, Ran;
      DeletedKeepsInv(Now(), e, callbacks);
      if !available || e !in entities || entities[e].deleting {
        return;
      }
      var handleValue := entities[e].handleValue;
      SetRecord(e, entities[e].(deleting := true));
      ghost var marked := Now();
      CleanupRuntime(e, callbacks.removed);
      ghost var cleaned := Now();
      EvolvesOn(old(Now()), marked, cleaned);
      Run(callbacks.notified);
      ghost var notified := Now();
      EvolvesOn(old(Now()), cleaned, notified);
      LifeIsOver(old(Now()), e);
      if e in entities && entities[e].handleValue == handleValue {
        Erase(e);
        ErasedToken(notified, e, old(entities)[e].durableRef);
      }
    }

    /** If the token of the earlier life is still live, then e is tracked under it, by the same handle. */
    lemma LifeIsOver(m: Manager, e: nat)
      requires Inv(m) && e in m.entities && Inv(Now()) && Evolves(m, Now())
      ensures var t := m.entities[e].durableRef;
              t in clientTokens ==>
                clientTokens[t] == e && e in entities && entities[e].durableRef == t
                && entities[e].handleValue == m.entities[e].handleValue
    {
      assert RecordTracked(m, e);
      var t := m.entities[e].durableRef;
      if t in clientTokens {
        assert RecordTracked(Now(), clientTokens[t]);
      }
    }

    lemma ErasedToken(m: Manager, e: nat, t: int)
      requires Inv(m) && e in m.entities && Now() == Erased(m, e)
      requires t in m.tokens ==> m.entities[e].durableRef == t
      ensures t !in clientTokens
    {
    }

    /** `PurgeEntities`: nothing stays tracked; while it runs nothing new is tracked. */
    method PurgeEntities(deletions: Deletions)
      requires Valid()
      modifies this
      ensures Valid() && Now() == Purged(old(Now()), deletions) && Evolves(old(Now()), Now())
      ensures !old(purging) ==> !purging && entities == map[] && clientTokens == map[] && entityOrder == [] && networkSidecars == map[]
      decreases DeletionsSize(deletions), 5
    {
      hide Inv, Evolves, Deleted;
      PurgedKeepsInv(Now(), deletions);
      if purging {
        return;
      }
      SetPurging(true);
      ghost var begun := Now();
      var rest, i, snapshot := deletions, 0, entityOrder;
      assert snapshot[0..] == snapshot;
      while i < |snapshot|
        invariant 0 <= i <= |snapshot| && Valid()
        invariant DeletionsSize(rest) <= DeletionsSize(deletions)
        invariant DeletedAll(begun, snapshot, deletions) == DeletedAll(Now(), snapshot[i..], rest)
      {
        assert snapshot[i..][0] == snapshot[i] && snapshot[i..][1..] == snapshot[i + 1..];
        OnEntityDeleted(snapshot[i], FirstOf(rest));
        rest, i := RestOf(rest), i + 1;
      }
      Clear();
      SetPurging(false);
    }

    method SetPurging(b: bool)
      requires Valid()
      modifies this`purging
      ensures Valid() && Now() == old(Now()).(purging := b)
    {
      GatesKeepInv(Now(), available, b);
      purging := b;
    }

    /** `Shutdown`. The token counter and the pools outlive it. */
    method ShutDown(deletions: Deletions)
      requires Valid()
      modifies this
      ensures Valid() && Now() == Stopped(old(Now()), deletions) && Evolves(old(Now()), Now())
      ensures !available && entities == map[] && clientTokens == map[] && entityOrder == [] && networkSidecars == map[]
      decreases DeletionsSize(deletions), 6
    {
      hide Inv, Evolves, Purged;
      StoppedKeepsInv(Now(), deletions);
      PurgeEntities(deletions);
      GatesKeepInv(Now(), false, purging);
      available := false;
      Clear();
    }
  }
}
