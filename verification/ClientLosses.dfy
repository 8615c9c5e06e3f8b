/** Which runs of the client entity manager lose blocks or leave stale slots behind: exactly what a
    cleanup, a deletion and a purge lose, whatever their callbacks do, and that orderly runs lose nothing
    (extension/client/cliententitymanager.cpp:414-452, 940-969, 1022-1041, 1076-1087). */
module ClientLosses {
  import opened Wrappers
  import opened ClientEntities
  import opened ClientRuns

  // ---------- Orderly callbacks ----------

  /** No callback purges or shuts down, none deletes unless allowed to, and remove callbacks never may. */
  predicate OrderlyScript(s: Script, mayDelete: bool) {
    match s
    case Done => true
    case Then(op, rest) => OrderlyOp(op, mayDelete) && OrderlyScript(rest, mayDelete)
  }

  predicate OrderlyOp(op: Op, mayDelete: bool) {
    match op
    case Track(_, _, failed, created) => OrderlyScript(failed, false) && OrderlyScript(created, mayDelete)
    case Attach(_, _, _, failed, created) => OrderlyScript(failed, false) && OrderlyScript(created, mayDelete)
    case Release(_, removed) => OrderlyScript(removed, false)
    case PostConstruct(_, constructed) => OrderlyScript(constructed, mayDelete)
    case Delete(_, callbacks) => mayDelete && OrderlyCallbacks(callbacks)
    case Purge(_) => false
    case Shutdown(_) => false
  }

  predicate OrderlyCallbacks(c: Callbacks) {
    OrderlyScript(c.removed, false) && OrderlyScript(c.notified, true)
  }

  predicate OrderlyDeletions(d: Deletions) {
    d.Next? ==> OrderlyCallbacks(d.callbacks) && OrderlyDeletions(d.rest)
  }

  /** A run from outside: it may purge and shut down as well. */
  predicate OrderlyRun(s: Script) {
    match s
    case Done => true
    case Then(Purge(deletions), rest) => OrderlyDeletions(deletions) && OrderlyRun(rest)
    case Then(Shutdown(deletions), rest) => OrderlyDeletions(deletions) && OrderlyRun(rest)
    case Then(op, rest) => OrderlyOp(op, true) && OrderlyRun(rest)
  }

  // ---------- What orderly callbacks keep ----------

  /** The record is on its way out but still holds its block. */
  predicate Endangered(r: Record) {
    (r.deleting || r.removeNotified) && r.sidecar.Some?
  }

  function Unquiet(m: Manager): set<nat> {
    set e | e in m.entities && Endangered(m.entities[e])
  }

  /** Nothing is lost and no slot becomes stale, no further record is endangered, and what is being deleted stays
      until its own deletion takes it. */
  ghost predicate Conserves(m: Manager, m': Manager) {
    && Lost(m') == Lost(m) && Stale(m') <= Stale(m) && Unquiet(m') <= Unquiet(m)
    && m'.purging == m.purging && m'.available == m.available
    && (forall e :: e in m.entities && m.entities[e].deleting ==>
          e in m'.entities && m'.entities[e].deleting && m'.entities[e].handleValue == m.entities[e].handleValue)
    && (m.purging || !m.available ==> m'.entities.Keys <= m.entities.Keys)
  }

  /** No record goes. */
  ghost predicate Stays(m: Manager, m': Manager) {
    forall e :: e in m.entities ==> e in m'.entities && m'.entities[e].handleValue == m.entities[e].handleValue
  }

  lemma ConservesOn(m: Manager, m': Manager, m'': Manager)
    requires Conserves(m, m') && Conserves(m', m'')
    ensures Conserves(m, m'')
    ensures Stays(m, m') && Stays(m', m'') ==> Stays(m, m'')
  {
  }

  lemma InsertConserves(m: Manager, e: nat, handleValue: nat, entIndex: int)
    requires Inv(m) && e !in m.entities && m.available && !m.purging
    ensures Conserves(m, Inserted(m, e, handleValue, entIndex)) && Stays(m, Inserted(m, e, handleValue, entIndex))
  {
    InsertLosesNothing(m, e, handleValue, entIndex);
  }

  lemma AttachConserves(m: Manager, e: nat, seen: Seen, runtime: nat)
    requires Inv(m) && MayAttach(m, e, seen)
    ensures Conserves(m, Attached(m, e, runtime, seen.entIndex)) && Stays(m, Attached(m, e, runtime, seen.entIndex))
  {
    hide Inv;
    NoRuntimeNoBlock(m, e);
    AttachLosesNothing(m, e, runtime, seen.entIndex);
    hide Acquired;
  }

  lemma {:induction false} RanConserves(m: Manager, s: Script, mayDelete: bool)
    requires Inv(m) && OrderlyScript(s, mayDelete) && (mayDelete ==> Unquiet(m) == {})
    ensures Conserves(m, Ran(m, s)) && (!mayDelete ==> Stays(m, Ran(m, s)))
    decreases ScriptSize(s), 0
  {
    hide Inv, Conserves, Stays, Executed, OrderlyOp;
    SelfConserves(m);
    if s.Then? {
      var next := Executed(m, s.op);
      ExecutedConserves(m, s.op, mayDelete);
      ExecutedKeepsInv(m, s.op);
      StillQuiet(m, next);
      RanConserves(next, s.rest, mayDelete);
      ConservesOn(m, next, Ran(m, s));
    }
  }

  lemma SelfConserves(m: Manager)
    ensures Conserves(m, m) && Stays(m, m)
  {
  }

  lemma StillQuiet(m: Manager, m': Manager)
    requires Conserves(m, m')
    ensures Unquiet(m) == {} ==> Unquiet(m') == {}
  {
  }

  lemma {:induction false} ExecutedConserves(m: Manager, op: Op, mayDelete: bool)
    requires Inv(m) && OrderlyOp(op, mayDelete) && (mayDelete ==> Unquiet(m) == {})
    ensures Conserves(m, Executed(m, op)) && (!mayDelete ==> Stays(m, Executed(m, op)))
    decreases OpSize(op), 0
  {
    hide Inv, Conserves, Stays;
    match op {
      case Track(e, seen, failed, created) => TrackedConserves(m, e, seen, failed, created, mayDelete);
      case Attach(e, seen, runtime, failed, created) =>
        AttachedRuntimeConserves(m, e, seen, runtime, failed, created, mayDelete);
      case Release(e, removed) => CleanedUpConserves(m, e, removed);
      case PostConstruct(e, constructed) => ConstructedConserves(m, e, constructed, mayDelete);
      case Delete(e, callbacks) => DeletedConserves(m, e, callbacks);
    }
  }

  lemma {:induction false} TrackedConserves(m: Manager, e: nat, seen: Seen, failed: Script, created: Script, mayDelete: bool)
    requires Inv(m) && OrderlyScript(failed, false) && OrderlyScript(created, mayDelete) && (mayDelete ==> Unquiet(m) == {})
    ensures var m' := Tracked(m, e, seen, failed, created);
            Conserves(m, m') && (!mayDelete ==> Stays(m, m'))
    decreases ScriptSize(failed) + ScriptSize(created), 4
  {
    hide Inv, Conserves, Stays, Inserted, AttachedTracked;
    SelfConserves(m);
    if Tracks(m, e, seen) {
      var inserted := Inserted(m, e, seen.handleValue.value, seen.entIndex);
      InsertKeepsInv(m, e, seen.handleValue.value, seen.entIndex);
      InsertConserves(m, e, seen.handleValue.value, seen.entIndex);
      var attached := if seen.creation.Some? then AttachedTracked(inserted, e, seen, seen.creation.value, failed) else inserted;
      SelfConserves(inserted);
      if seen.creation.Some? {
        AttachedTrackedKeepsInv(inserted, e, seen, seen.creation.value, failed);
        AttachedTrackedConserves(inserted, e, seen, seen.creation.value, failed);
      }
      ConservesOn(m, inserted, attached);
      StillQuiet(m, attached);
      RanConserves(attached, created, mayDelete);
      ConservesOn(m, attached, Ran(attached, created));
    }
  }

  lemma {:induction false} AttachedTrackedConserves(m: Manager, e: nat, seen: Seen, runtime: nat, failed: Script)
    requires Inv(m) && OrderlyScript(failed, false)
    ensures var m' := AttachedTracked(m, e, seen, runtime, failed);
            Conserves(m, m') && Stays(m, m')
    decreases ScriptSize(failed), 3
  {
    hide Inv, Conserves, Stays, Attached, CleanedUp;
    SelfConserves(m);
    if MayAttach(m, e, seen) {
      var occupied := Attached(m, e, runtime, seen.entIndex);
      NoRuntimeNoBlock(m, e);
      AttachKeepsInv(m, e, runtime, seen.entIndex);
      AttachConserves(m, e, seen, runtime);
      CleanedUpConserves(occupied, e, failed);
      ConservesOn(m, occupied, CleanedUp(occupied, e, failed));
    }
  }

  lemma {:induction false} AttachedRuntimeConserves(m: Manager, e: nat, seen: Seen, runtime: nat, failed: Script, created: Script,
                                                    mayDelete: bool)
    requires Inv(m) && OrderlyScript(failed, false) && OrderlyScript(created, mayDelete) && (mayDelete ==> Unquiet(m) == {})
    ensures var m' := AttachedRuntime(m, e, seen, runtime, failed, created);
            Conserves(m, m') && (!mayDelete ==> Stays(m, m'))
    decreases ScriptSize(failed) + ScriptSize(created), 5
  {
    hide Inv, Conserves, Stays, Tracked, AttachedTracked;
    SelfConserves(m);
    TrackedConserves(m, e, seen, failed, created, mayDelete);
    TrackedKeepsInv(m, e, seen, failed, created);
    var tracked := if e in m.entities then m else Tracked(m, e, seen, failed, created);
    AttachedTrackedConserves(tracked, e, seen, runtime, failed);
    ConservesOn(m, tracked, AttachedTracked(tracked, e, seen, runtime, failed));
  }

  lemma {:induction false} ConstructedConserves(m: Manager, e: nat, constructed: Script, mayDelete: bool)
    requires Inv(m) && OrderlyScript(constructed, mayDelete) && (mayDelete ==> Unquiet(m) == {})
    ensures var m' := Constructed(m, e, constructed);
            Conserves(m, m') && (!mayDelete ==> Stays(m, m'))
    decreases ScriptSize(constructed), 1
  {
    hide Inv, Conserves, Stays, PostConstructed;
    SelfConserves(m);
    if MayConstruct(m, e) {
      PostConstructedConserves(m, e);
      StillQuiet(m, PostConstructed(m, e));
      RanConserves(PostConstructed(m, e), constructed, mayDelete);
      ConservesOn(m, PostConstructed(m, e), Ran(PostConstructed(m, e), constructed));
    }
  }

  lemma PostConstructedConserves(m: Manager, e: nat)
    requires Inv(m) && e in m.entities
    ensures var m' := PostConstructed(m, e);
            Inv(m') && Conserves(m, m') && Stays(m, m')
  {
    hide Inv;
    FlagsKeepInv(m, e, m.entities[e].(postConstructed := true));
    FlagsLoseNothing(m, e, m.entities[e].(postConstructed := true));
  }

  /** A cleanup gives the block back, whatever an orderly remove callback does. */
  lemma {:induction false} CleanedUpConserves(m: Manager, e: nat, removed: Script)
    requires Inv(m) && OrderlyScript(removed, false)
    ensures var m' := CleanedUp(m, e, removed);
            Conserves(m, m') && Stays(m, m')
    ensures e in m.entities && !m.entities[e].removeNotified ==>
              e in CleanedUp(m, e, removed).entities && CleanedUp(m, e, removed).entities[e].sidecar.None?
    decreases ScriptSize(removed), 2
  {
    hide Inv, Conserves, Stays, RemoveNotified, ReleasedIfSame;
    SelfConserves(m);
    if e in m.entities && !m.entities[e].removeNotified {
      var marked := RemoveNotified(m, e);
      MarkedKeepsInv(m, e);
      SelfConserves(marked);
      RanConserves(marked, removed, false);
      RanKeepsInv(marked, removed);
      ReleasedConserves(m, e, CalledRemoved(marked, e, removed));
    }
  }

  lemma MarkedKeepsInv(m: Manager, e: nat)
    requires Inv(m) && e in m.entities
    ensures Inv(RemoveNotified(m, e)) && Inv(Deleting(m, e)) && e in RemoveNotified(m, e).entities
  {
    hide Inv;
    FlagsKeepInv(m, e, m.entities[e].(removeNotified := true));
    FlagsKeepInv(m, e, m.entities[e].(deleting := true));
  }

  /** Marking, calling and releasing, taken together. */
  lemma ReleasedConserves(m: Manager, e: nat, called: Manager)
    requires Inv(called) && e in m.entities
    requires Conserves(RemoveNotified(m, e), called) && Stays(RemoveNotified(m, e), called)
    ensures var m' := ReleasedIfSame(called, e, m.entities[e].handleValue);
            Conserves(m, m') && Stays(m, m') && e in m'.entities && m'.entities[e].sidecar.None?
  {
    hide Inv, Released, Lost, Stale;
    ReleasedIs(called, e);
    FlagsLoseNothing(m, e, m.entities[e].(removeNotified := true));
    ReleaseLosesNothing(called, e);
    var marked, m' := RemoveNotified(m, e), ReleasedIfSame(called, e, m.entities[e].handleValue);
    assert e in marked.entities;
    forall d | d in Unquiet(m')
      ensures d in Unquiet(m)
    {
      assert d in Unquiet(called) && d in Unquiet(marked);
    }
    forall d | d in m.entities
      ensures d in m'.entities && m'.entities[d].handleValue == m.entities[d].handleValue
      ensures m.entities[d].deleting ==> m'.entities[d].deleting
    {
      assert d in marked.entities;
    }
  }

  /** A deletion with orderly callbacks returns the block, unless it was endangered before. */
  lemma {:induction false} DeletedConserves(m: Manager, e: nat, callbacks: Callbacks)
    requires Inv(m) && OrderlyCallbacks(callbacks) && Unquiet(m) == {}
    ensures Conserves(m, Deleted(m, e, callbacks))
    ensures MayDelete(m, e) ==> e !in Deleted(m, e, callbacks).entities
    decreases CallbacksSize(callbacks), 3
  {
    hide Inv, Conserves, Stays, CleanedUp, ErasedIfSame;
    SelfConserves(m);
    if MayDelete(m, e) {
      var marked := Deleting(m, e);
      var cleaned := CleanedUp(marked, e, callbacks.removed);
      MarkedKeepsInv(m, e);
      CleanedUpKeepsInv(marked, e, callbacks.removed);
      CleanedUpConserves(marked, e, callbacks.removed);
      QuietAgain(m, e, cleaned);
      RanConserves(cleaned, callbacks.notified, true);
      RanKeepsInv(cleaned, callbacks.notified);
      ConservesOn(marked, cleaned, Ran(cleaned, callbacks.notified));
      StillQuiet(cleaned, Ran(cleaned, callbacks.notified));
      ErasedConserves(m, e, Ran(cleaned, callbacks.notified));
    }
  }

  lemma QuietAgain(m: Manager, e: nat, cleaned: Manager)
    requires e in m.entities && Unquiet(m) == {} && Conserves(Deleting(m, e), cleaned)
    requires !m.entities[e].removeNotified ==> e in cleaned.entities && cleaned.entities[e].sidecar.None?
    ensures Unquiet(cleaned) == {}
  {
    assert forall d :: d in m.entities ==> d !in Unquiet(m);
    assert Unquiet(Deleting(m, e)) <= {e};
  }

  lemma ErasedConserves(m: Manager, e: nat, notified: Manager)
    requires Inv(notified) && e in m.entities && !m.entities[e].deleting && Unquiet(notified) == {}
    requires Conserves(Deleting(m, e), notified)
    ensures var m' := ErasedIfSame(notified, e, m.entities[e].handleValue);
            Conserves(m, m') && e !in m'.entities
  {
    hide Inv;
    FlagsLoseNothing(m, e, m.entities[e].(deleting := true));
    assert e in Deleting(m, e).entities && Deleting(m, e).entities[e].deleting;
    assert e !in Unquiet(notified);
    EraseLosesBlock(notified, e);
    assert Unquiet(Erased(notified, e)) <= Unquiet(notified);
  }

  // ---------- Orderly runs ----------

  lemma {:induction false} DeletedAllConserves(m: Manager, snapshot: seq<nat>, deletions: Deletions)
    requires Inv(m) && OrderlyDeletions(deletions) && Unquiet(m) == {} && m.purging && m.available
    ensures var m' := DeletedAll(m, snapshot, deletions);
            Conserves(m, m') && forall e :: e in snapshot && e in m'.entities ==> m'.entities[e].deleting
    decreases |snapshot|
  {
    hide Inv, Conserves, Deleted, OrderlyCallbacks;
    SelfConserves(m);
    if snapshot != [] {
      var next := Deleted(m, snapshot[0], FirstOf(deletions));
      assert OrderlyCallbacks(Callbacks(Done, Done)) by { hide *; NothingIsOrderly(); }
      DeletedConserves(m, snapshot[0], FirstOf(deletions));
      DeletedKeepsInv(m, snapshot[0], FirstOf(deletions));
      StillQuiet(m, next);
      Kept(m, next);
      DeletedAllConserves(next, snapshot[1..], RestOf(deletions));
      Kept(next, DeletedAll(next, snapshot[1..], RestOf(deletions)));
      ConservesOn(m, next, DeletedAll(m, snapshot, deletions));
    }
  }

  lemma NothingIsOrderly()
    ensures OrderlyCallbacks(Callbacks(Done, Done))
  {
  }

  lemma Kept(m: Manager, m': Manager)
    requires Conserves(m, m')
    ensures m'.purging == m.purging && m'.available == m.available
    ensures m.purging ==> m'.entities.Keys <= m.entities.Keys
    ensures forall e :: e in m.entities && m.entities[e].deleting ==> e in m'.entities && m'.entities[e].deleting
  {
  }

  /** Between operations from outside: nothing is lost, stale or endangered. */
  ghost predicate Sound(m: Manager) {
    && Inv(m) && Lost(m) == {} && Stale(m) == {} && Unquiet(m) == {} && !m.purging
    && (!m.available ==> m.entities == map[])
  }

  lemma PurgedIsSound(m: Manager, deletions: Deletions)
    requires Sound(m) && OrderlyDeletions(deletions)
    ensures Sound(Purged(m, deletions)) && Purged(m, deletions).entities == map[]
  {
    hide Inv, Conserves, DeletedAll, IsHeld, OrderlyDeletions;
    PurgedKeepsInv(m, deletions);
    var begun := m.(purging := true);
    GatesKeepInv(m, m.available, true);
    var emptied := DeletedAll(begun, m.order, deletions);
    DeletedAllKeepsInv(begun, m.order, deletions);
    if m.available {
      assert Unquiet(begun) == {};
      DeletedAllConserves(begun, m.order, deletions);
      Kept(begun, emptied);
      StillQuiet(begun, emptied);
      EverythingTracked(m);
      ConservedLosses(begun, emptied);
    } else {
      NothingToDelete(begun, m.order, deletions);
    }
    NothingHeld(emptied);
    ClearLosesHeld(emptied);
    ClearKeepsInv(emptied);
    GatesKeepInv(Cleared(emptied), Cleared(emptied).available, false);
  }

  lemma EverythingTracked(m: Manager)
    requires Inv(m)
    ensures forall e :: e in m.entities ==> e in m.order
  {
  }

  lemma ConservedLosses(m: Manager, m': Manager)
    requires Conserves(m, m')
    ensures Lost(m') == Lost(m) && Stale(m') <= Stale(m)
  {
  }

  lemma {:induction false} NothingToDelete(m: Manager, snapshot: seq<nat>, deletions: Deletions)
    requires !m.available
    ensures DeletedAll(m, snapshot, deletions) == m
    decreases |snapshot|
  {
    if snapshot != [] {
      NothingToDelete(m, snapshot[1..], RestOf(deletions));
    }
  }

  lemma NothingHeld(m: Manager)
    requires Unquiet(m) == {} && forall e :: e in m.entities ==> m.entities[e].deleting
    ensures forall b: nat :: !IsHeld(m, b)
  {
    assert forall e :: e in m.entities ==> e !in Unquiet(m);
  }

  lemma StoppedIsSound(m: Manager, deletions: Deletions)
    requires Sound(m) && OrderlyDeletions(deletions)
    ensures Sound(Stopped(m, deletions))
  {
    hide Inv, Lost, Stale, Purged, OrderlyDeletions;
    PurgedIsSound(m, deletions);
    StoppedKeepsInv(m, deletions);
    var purged := Purged(m, deletions);
    GatesKeepInv(purged, false, purged.purging);
    ClearLosesHeld(purged.(available := false));
  }

  lemma ExecutedIsSound(m: Manager, op: Op)
    requires Sound(m) && OrderlyOp(op, true)
    ensures Sound(Executed(m, op))
  {
    hide Inv, Lost, Stale, OrderlyOp, Executed;
    ExecutedConserves(m, op, true);
    ExecutedKeepsInv(m, op);
  }

  /** As long as remove callbacks delete nothing and no callback purges or shuts down, no run ever loses a block,
      leaves a stale slot behind or an endangered record. */
  lemma {:induction false} OrderlyRunLosesNothing(m: Manager, s: Script)
    requires Sound(m) && OrderlyRun(s)
    ensures Sound(Ran(m, s))
    decreases s
  {
    hide Sound, OrderlyDeletions, OrderlyOp;
    match s {
      case Done =>
      case Then(op, rest) =>
        match op {
          case Purge(deletions) => PurgedIsSound(m, deletions);
          case Shutdown(deletions) => StoppedIsSound(m, deletions);
          case _ => ExecutedIsSound(m, op);
        }
        OrderlyRunLosesNothing(Executed(m, op), rest);
    }
  }

  lemma EmptyIsSound()
    ensures Sound(EMPTY)
  {
    EmptyOk();
  }

  /** So in such a run the fast slot never answers differently from the map, for an entity that is tracked under
      the handle it goes by. */
  lemma OrderlyLookupsAgree(s: Script, sizes: nat -> nat, objectId: int, e: nat, offset: nat, size: nat)
    requires OrderlyRun(s)
    ensures var m := Ran(EMPTY, s);
            Inv(m) && (e in m.entities ==>
              var fast := NetworkSidecarAddress(m, sizes, objectId, e, Some(m.entities[e].handleValue), offset, size);
              fast.Some? ==> fast == SidecarAddress(m, sizes, e, offset, size))
  {
    hide Ran, OrderlyRun, TracksOk, PoolOk, BlocksOk, Lost, Stale, SidecarAddress;
    EmptyIsSound();
    OrderlyRunLosesNothing(EMPTY, s);
    var m := Ran(EMPTY, s);
    if e in m.entities && NetworkSidecarAddress(m, sizes, objectId, e, Some(m.entities[e].handleValue), offset, size).Some? {
      FastLookupAgrees(m, sizes, objectId, e, offset, size);
    }
  }

  // ---------- What the other runs lose ----------

  /** A deletion without callbacks returns the block of the entity, unless the record has been through its cleanup
      and still holds it: then, and only then, the block is lost. */
  lemma DeletionLoses(m: Manager, e: nat)
    requires Inv(m) && MayDelete(m, e)
    ensures var m' := Deleted(m, e, Callbacks(Done, Done));
            && Lost(m') == Lost(m) + (if m.entities[e].removeNotified then Block(m, e) else {})
            && (forall b :: b in Block(m, e) ==>
                  b in m.owner && (b in Free(m', m.owner[b]) <==> !m.entities[e].removeNotified))
            && (forall d :: d in m.entities && d != e ==> d in m'.entities && m'.entities[d] == m.entities[d])
            && e !in m'.entities && m.entities[e].durableRef !in m'.tokens
            && (!m.entities[e].removeNotified ==> forall s, b :: s in m'.slots && b in Block(m, e) ==> m'.slots[s].sidecar != b)
  {
    hide Inv, Lost, Stale, Released, Erased;
    DeletedKeepsInv(m, e, Callbacks(Done, Done));
    FreeMeansUnreferenced(Deleted(m, e, Callbacks(Done, Done)));
    var marked := Deleting(m, e);
    var cleaned := CleanedUp(marked, e, Done);
    MarkedKeepsInv(m, e);
    CleanedUpKeepsInv(marked, e, Done);
    FlagsLoseNothing(m, e, m.entities[e].(deleting := true));
    UncalledCleanup(marked, e);
    EraseLosesBlock(cleaned, e);
    BlockIsSomewhere(m, e);
    ErasedIs(cleaned, e);
  }

  lemma FreeMeansUnreferenced(m: Manager)
    requires Inv(m)
    ensures forall s, b :: s in m.slots && b in m.owner && b in Free(m, m.owner[b]) ==> m.slots[s].sidecar != b
  {
    assert forall s :: s in m.slots ==> SlotFilled(m, s);
  }

  /** A cleanup whose callback does nothing gives the block back, once per record. */
  lemma UncalledCleanup(m: Manager, e: nat)
    requires Inv(m) && e in m.entities
    ensures var m' := CleanedUp(m, e, Done);
            && Lost(m') == Lost(m) && m'.entities.Keys == m.entities.Keys && m'.owner == m.owner
            && (forall d :: d in m.entities && d != e ==> m'.entities[d] == m.entities[d])
            && m'.entities[e].handleValue == m.entities[e].handleValue
            && m'.entities[e].durableRef == m.entities[e].durableRef
            && if m.entities[e].removeNotified then m' == m
               else m'.entities[e].sidecar.None? && forall b :: b in Block(m, e) ==> b in m.owner && b in Free(m', m.owner[b])
  {
    hide Inv, Lost, Stale, Released;
    MarkedKeepsInv(m, e);
    BlockIsSomewhere(m, e);
    if !m.entities[e].removeNotified {
      var marked := RemoveNotified(m, e);
      FlagsLoseNothing(m, e, m.entities[e].(removeNotified := true));
      assert CalledRemoved(marked, e, Done) == marked;
      ReleaseLosesNothing(marked, e);
      ReleasedIs(marked, e);
    }
  }

  lemma ReleasedIs(m: Manager, e: nat)
    requires e in m.entities
    ensures var m' := Released(m, e);
            && m'.entities == m.entities[e := m.entities[e].(networkSlot := -1, sidecar := None, runtime := None)]
            && m'.tokens == m.tokens && m'.owner == m.owner && m'.available == m.available && m'.purging == m.purging
            && (forall b :: b in Block(m, e) && m.entities[e].runtime.Some? ==> b in Free(m', m.entities[e].runtime.value))
  {
  }

  lemma BlockIsSomewhere(m: Manager, e: nat)
    requires Inv(m) && e in m.entities
    ensures forall b :: b in Block(m, e) ==>
              b in m.owner && m.entities[e].runtime == Some(m.owner[b]) && b !in Free(m, m.owner[b])
  {
    assert Holds(m, e);
  }

  lemma ErasedIs(m: Manager, e: nat)
    requires e in m.entities
    ensures var m' := Erased(m, e);
            && m'.entities == m.entities - {e} && m'.tokens == m.tokens - {m.entities[e].durableRef}
            && m'.free == m.free && m'.owner == m.owner && m'.available == m.available
  {
  }

  // ---------- What any operation loses ----------

  /** A cleanup loses what its remove callback loses, whatever that does: giving the block back loses nothing. */
  lemma AnyCleanupLoses(m: Manager, e: nat, removed: Script)
    requires Inv(m) && e in m.entities && !m.entities[e].removeNotified
    ensures Lost(CleanedUp(m, e, removed)) == Lost(CalledRemoved(RemoveNotified(m, e), e, removed))
  {
    hide Inv, Lost, Stale, Released;
    var marked := RemoveNotified(m, e);
    var called := CalledRemoved(marked, e, removed);
    MarkedKeepsInv(m, e);
    RanKeepsInv(marked, removed);
    if e in called.entities {
      ReleaseLosesNothing(called, e);
    }
  }

  /** A deletion loses what its callbacks lose and then, if they leave the entity tracked under its handle, the
      block that its record holds by that time. */
  lemma AnyDeletionLoses(m: Manager, e: nat, callbacks: Callbacks)
    requires Inv(m) && MayDelete(m, e)
    ensures var n := Ran(CleanedUp(Deleting(m, e), e, callbacks.removed), callbacks.notified);
            Lost(Deleted(m, e, callbacks)) ==
            Lost(n) + if e in n.entities && n.entities[e].handleValue == m.entities[e].handleValue then Block(n, e) else {}
  {
    hide Inv, Lost, Stale, CleanedUp, Ran, Erased;
    var cleaned := CleanedUp(Deleting(m, e), e, callbacks.removed);
    MarkedKeepsInv(m, e);
    CleanedUpKeepsInv(Deleting(m, e), e, callbacks.removed);
    RanKeepsInv(cleaned, callbacks.notified);
    var n := Ran(cleaned, callbacks.notified);
    if e in n.entities {
      EraseLosesBlock(n, e);
    }
  }

  /** A purge loses what its deletions lose, and every block that a record still holds when they are done. */
  lemma AnyPurgeLoses(m: Manager, deletions: Deletions)
    requires Inv(m) && !m.purging
    ensures var n := DeletedAll(m.(purging := true), m.order, deletions);
            && (forall b :: b in Lost(Purged(m, deletions)) <==> b in Lost(n) || IsHeld(n, b))
            && Stale(Purged(m, deletions)) == {}
  {
    hide Inv, Lost, Stale, IsHeld, DeletedAll;
    var begun := m.(purging := true);
    GatesKeepInv(m, m.available, true);
    var n := DeletedAll(begun, m.order, deletions);
    DeletedAllKeepsInv(begun, m.order, deletions);
    ClearLosesHeld(n);
    ClearKeepsInv(n);
    GatesKeepInv(Cleared(n), Cleared(n).available, false);
  }

  /** A remove callback that deletes the very entity being cleaned up: the block is lost exactly when that deletion
      does anything, that is, unless the entity is being deleted already. */
  lemma ReentrantDeletionLoses(m: Manager, e: nat, removed: Script)
    requires Inv(m) && m.available && e in m.entities && !m.entities[e].removeNotified
    requires m.entities[e].runtime.Some? && m.entities[e].postConstructed
    ensures var m' := CleanedUp(m, e, Then(Delete(e, Callbacks(removed, Done)), Done));
            && Lost(m') == Lost(m) + (if m.entities[e].deleting then {} else Block(m, e))
            && (!m.entities[e].deleting ==> e !in m'.entities && m'.slots == m.slots)
  {
    hide Inv, Lost, Stale, Released, Erased;
    var marked := RemoveNotified(m, e);
    var deletion := Delete(e, Callbacks(removed, Done));
    MarkedKeepsInv(m, e);
    FlagsLoseNothing(m, e, m.entities[e].(removeNotified := true));
    assert Ran(marked, Then(deletion, Done)) == Deleted(marked, e, Callbacks(removed, Done)) by {
      OneStep(marked, deletion);
    }
    if m.entities[e].deleting {
      ReleaseLosesNothing(marked, e);
    } else {
      MarkedKeepsInv(marked, e);
      var both := Deleting(marked, e);
      FlagsLoseNothing(marked, e, marked.entities[e].(deleting := true));
      assert CleanedUp(both, e, removed) == both;
      assert Deleted(marked, e, Callbacks(removed, Done)) == Erased(both, e);
      EraseLosesBlock(both, e);
      ErasedIs(both, e);
      ErasedSlots(both, e);
    }
  }

  lemma ErasedSlots(m: Manager, e: nat)
    requires e in m.entities
    ensures Erased(m, e).slots == m.slots
  {
  }

  lemma OneStep(m: Manager, op: Op)
    ensures Ran(m, Then(op, Done)) == Executed(m, op)
  {
    assert Ran(Executed(m, op), Done) == Executed(m, op);
  }

  /** A purge without callbacks loses the blocks of the endangered records, and no others. */
  lemma PurgeLoses(m: Manager)
    requires Inv(m) && m.available && !m.purging
    ensures forall b :: b in Lost(Purged(m, NoMore)) <==> b in Lost(m) || EndangeredBlock(m, b)
  {
    hide Inv, Lost, Stale, DeletedAll, IsHeld, EndangeredBlock;
    var begun := m.(purging := true);
    GatesKeepInv(m, m.available, true);
    var emptied := DeletedAll(begun, m.order, NoMore);
    DeletedAllKeepsInv(begun, m.order, NoMore);
    DeletedAllDooms(begun, m.order);
    SameEndangered(m, begun);
    EverythingTracked(m);
    ClearLosesHeld(emptied);
    ClearKeepsInv(emptied);
    GatesKeepInv(Cleared(emptied), Cleared(emptied).available, false);
    HeldIsEndangered(emptied);
  }

  ghost predicate EndangeredBlock(m: Manager, b: nat) {
    exists e :: e in m.entities && Endangered(m.entities[e]) && m.entities[e].sidecar == Some(b)
  }

  lemma SameEndangered(m: Manager, m': Manager)
    requires m'.entities == m.entities
    ensures forall b: nat :: EndangeredBlock(m', b) <==> EndangeredBlock(m, b)
  {
  }

  lemma HeldIsEndangered(m: Manager)
    requires forall e :: e in m.entities ==> m.entities[e].deleting
    ensures forall b: nat :: IsHeld(m, b) <==> EndangeredBlock(m, b)
  {
    forall b: nat | IsHeld(m, b)
      ensures EndangeredBlock(m, b)
    {
      var e :| e in m.entities && m.entities[e].sidecar == Some(b);
      assert Endangered(m.entities[e]);
    }
  }

  /** Lost or bound to be: deletions without callbacks only move blocks from the second to the first. */
  lemma {:induction false} DeletedAllDooms(m: Manager, snapshot: seq<nat>)
    requires Inv(m) && m.available
    ensures var m' := DeletedAll(m, snapshot, NoMore);
            && (forall b :: b in Lost(m') || EndangeredBlock(m', b) <==> b in Lost(m) || EndangeredBlock(m, b))
            && m'.entities.Keys <= m.entities.Keys
            && (forall e :: e in m'.entities ==> m'.entities[e] == m.entities[e])
            && (forall e :: e in snapshot && e in m'.entities ==> m.entities[e].deleting)
    decreases |snapshot|
  {
    hide Inv, Lost, Stale, Deleted, EndangeredBlock;
    if snapshot != [] {
      var next := Deleted(m, snapshot[0], Callbacks(Done, Done));
      DeletionDooms(m, snapshot[0]);
      DeletedKeepsInv(m, snapshot[0], Callbacks(Done, Done));
      DeletedAllDooms(next, snapshot[1..]);
    }
  }

  lemma DeletionDooms(m: Manager, e: nat)
    requires Inv(m) && m.available
    ensures var m' := Deleted(m, e, Callbacks(Done, Done));
            && (forall b :: b in Lost(m') || EndangeredBlock(m', b) <==> b in Lost(m) || EndangeredBlock(m, b))
            && m'.available && m'.entities.Keys <= m.entities.Keys
            && (forall d :: d in m'.entities ==> m'.entities[d] == m.entities[d])
            && (e in m'.entities ==> m.entities[e].deleting)
  {
    hide Inv, Lost, Stale;
    if MayDelete(m, e) {
      DeletionLoses(m, e);
      var m' := Deleted(m, e, Callbacks(Done, Done));
      DeletionKeys(m, e);
      forall b | EndangeredBlock(m, b)
        ensures b in Lost(m') || EndangeredBlock(m', b)
      {
        var d :| d in m.entities && Endangered(m.entities[d]) && m.entities[d].sidecar == Some(b);
        assert d != e ==> d in m'.entities && Endangered(m'.entities[d]);
      }
      forall b: nat | EndangeredBlock(m', b)
        ensures EndangeredBlock(m, b)
      {
        var d :| d in m'.entities && Endangered(m'.entities[d]) && m'.entities[d].sidecar == Some(b);
        assert d in m.entities && Endangered(m.entities[d]);
      }
    }
  }

  lemma DeletionKeys(m: Manager, e: nat)
    requires MayDelete(m, e)
    ensures var m' := Deleted(m, e, Callbacks(Done, Done));
            m'.entities.Keys <= m.entities.Keys && m'.available == m.available
  {
    hide Released, Erased;
    var marked := Deleting(m, e);
    var cleaned := CleanedUp(marked, e, Done);
    assert Ran(cleaned, Done) == cleaned;
    ReleasedIs(RemoveNotified(marked, e), e);
    if e in cleaned.entities {
      ErasedIs(cleaned, e);
    }
  }

  /** A remove callback that purges loses the same blocks, and with them the one being cleaned up. */
  lemma ReentrantPurgeLoses(m: Manager, e: nat)
    requires Inv(m) && m.available && !m.purging && e in m.entities && !m.entities[e].removeNotified
    requires m.entities[e].runtime.Some? && m.entities[e].postConstructed
    ensures forall b :: b in Lost(CleanedUp(m, e, Then(Purge(NoMore), Done))) <==>
              b in Lost(m) || EndangeredBlock(m, b) || b in Block(m, e)
  {
    hide Inv, Lost, Stale;
    var marked := RemoveNotified(m, e);
    MarkedKeepsInv(m, e);
    FlagsLoseNothing(m, e, m.entities[e].(removeNotified := true));
    PurgeLoses(marked);
    OneStep(marked, Purge(NoMore));
    assert Purged(marked, NoMore).entities == map[];
    assert CleanedUp(m, e, Then(Purge(NoMore), Done)) == Purged(marked, NoMore);
    MarkingEndangers(m, e);
  }

  lemma MarkingEndangers(m: Manager, e: nat)
    requires e in m.entities
    ensures forall b: nat :: EndangeredBlock(RemoveNotified(m, e), b) <==> EndangeredBlock(m, b) || b in Block(m, e)
  {
    var marked := RemoveNotified(m, e);
    forall b: nat
      ensures EndangeredBlock(marked, b) <==> EndangeredBlock(m, b) || b in Block(m, e)
    {
      if EndangeredBlock(m, b) {
        var d :| d in m.entities && Endangered(m.entities[d]) && m.entities[d].sidecar == Some(b);
        assert d in marked.entities && Endangered(marked.entities[d]);
      }
      if b in Block(m, e) {
        assert e in marked.entities && Endangered(marked.entities[e]);
      }
    }
  }

  // ---------- A stale slot ----------

  const HANDLE: nat := 70
  const SEEN := Seen(Some(HANDLE), 5, true, Some(0), true)

  /** Entity 7 is created with a runtime class and cleaned up. Its remove callback deletes it, and tracks it again
      under the same handle and index, without a runtime class. */
  function StaleRun(): Script {
    Then(Track(7, SEEN, Done, Done),
    Then(PostConstruct(7, Done),
    Then(Release(7, Then(Delete(7, Callbacks(Done, Done)),
                    Then(Track(7, SEEN.(creation := None), Done, Done), Done))),
    Done)))
  }

  const CREATED := Attached(Inserted(EMPTY, 7, HANDLE, 5), 7, 0, 5)

  /** When the remove callback begins. */
  function InCallback(): Manager {
    RemoveNotified(PostConstructed(CREATED, 7), 7)
  }

  function StaleEnd(): Manager {
    Released(Inserted(Erased(Deleting(InCallback(), 7), 7), 7, HANDLE, 5), 7)
  }

  lemma StaleRunEnds()
    ensures Ran(EMPTY, StaleRun()) == StaleEnd()
  {
    var m1, m2, m3 := CREATED, PostConstructed(CREATED, 7), Erased(Deleting(InCallback(), 7), 7);
    var deletion, again := Delete(7, Callbacks(Done, Done)), Track(7, SEEN.(creation := None), Done, Done);
    assert Tracked(EMPTY, 7, SEEN, Done, Done) == m1;
    assert Constructed(m1, 7, Done) == m2;
    DeletedInCallback();
    var m4 := Inserted(m3, 7, HANDLE, 5);
    assert Executed(m3, again) == m4;
    hide Inserted, Attached, Acquired, Erased, Released;
    OneStep(m3, again);
    assert Ran(InCallback(), Then(deletion, Then(again, Done))) == m4;
    assert CleanedUp(m2, 7, Then(deletion, Then(again, Done))) == Released(m4, 7);
    OneStep(m2, Release(7, Then(deletion, Then(again, Done))));
  }

  lemma DeletedInCallback()
    ensures var m := InCallback();
            7 in m.entities && Deleted(m, 7, Callbacks(Done, Done)) == Erased(Deleting(m, 7), 7)
  {
    var m := InCallback();
    assert CleanedUp(Deleting(m, 7), 7, Done) == Deleting(m, 7);
    assert Ran(Deleting(m, 7), Done) == Deleting(m, 7);
  }

  /** Afterwards the fast slot answers for the entity, with a lost block, and the map does not. */
  lemma StaleSlotAnswers()
    ensures var m := StaleEnd();
            && 7 in m.entities && m.entities[7].handleValue == HANDLE && m.entities[7].networkSlot == -1
            && NetworkSidecarAddress(m, _ => 8, 5, 7, Some(HANDLE), 0, 4) == Some(Address(0, 0))
            && SidecarAddress(m, _ => 8, 7, 0, 4) == None
            && 0 in Lost(m) && 5 in Stale(m)
    ensures Inv(StaleEnd()) && StaleEnd() == Ran(EMPTY, StaleRun()) && !OrderlyRun(StaleRun())
  {
    hide *;
    StaleRunEnds();
    EmptyOk();
    RanKeepsInv(EMPTY, StaleRun());
    StaleIsDisorderly();
    StaleEndIs();
  }

  lemma StaleIsDisorderly()
    ensures !OrderlyRun(StaleRun())
  {
  }

  lemma StaleEndIs()
    ensures var m := StaleEnd();
            && 7 in m.entities && m.entities[7].handleValue == HANDLE && m.entities[7].networkSlot == -1
            && NetworkSidecarAddress(m, _ => 8, 5, 7, Some(HANDLE), 0, 4) == Some(Address(0, 0))
            && SidecarAddress(m, _ => 8, 7, 0, 4) == None
            && 0 in Lost(m) && 5 in Stale(m)
  {
    hide WithoutAll;
    var m := StaleEnd();
    assert forall e :: e in m.entities ==> e == 7;
    assert !IsHeld(m, 0);
  }

  // ---------- A purge by the listeners of a deletion ----------

  /** Listeners that purge the manager and track the entity again. */
  function PurgeAndTrack(e: nat, seen: Seen): Script {
    Then(Purge(NoMore), Then(Track(e, seen, Done, Done), Done))
  }

  /** No remove callback does anything, and still a block is lost: if the listeners of a deletion purge the manager
      and track the entity again under the same handle, the deletion takes the new record for the one it began
      with, and erases it with its block. The slot that was filled along with it is left behind. */
  lemma PurgingListenersLose(m: Manager, e: nat, seen: Seen)
    requires Inv(m) && MayDelete(m, e) && !m.purging && m.next < -1
    requires seen.handleValue == Some(m.entities[e].handleValue) && seen.networkable && seen.creation.Some? && seen.hooked
    ensures var m' := Deleted(m, e, Callbacks(Done, PurgeAndTrack(e, seen)));
            && m'.entities == map[] && (0 <= seen.entIndex < MAX_EDICTS ==> seen.entIndex in Stale(m'))
            && exists b :: b in Lost(m') && b !in Lost(Purged(CleanedUp(Deleting(m, e), e, Done), NoMore))
  {
    hide Inv, Lost, Released, Erased, Inserted, Attached, Purged;
    var cleaned := CleanedUp(Deleting(m, e), e, Done);
    MarkedKeepsInv(m, e);
    CleanedUpKeepsInv(Deleting(m, e), e, Done);
    SameGates(m, e);
    var purged := Purged(cleaned, NoMore);
    PurgedKeepsInv(cleaned, NoMore);
    PurgedGates(cleaned);
    TrackedAgain(purged, e, seen);
    var n := Tracked(purged, e, seen, Done, Done);
    OneStep(purged, Track(e, seen, Done, Done));
    assert Ran(cleaned, PurgeAndTrack(e, seen)) == n;
    AnyDeletionLoses(m, e, Callbacks(Done, PurgeAndTrack(e, seen)));
    ErasedIs(n, e);
    ErasedSlots(n, e);
    var b := n.entities[e].sidecar.value;
    assert b in Lost(Deleted(m, e, Callbacks(Done, PurgeAndTrack(e, seen))));
  }

  lemma SameGates(m: Manager, e: nat)
    requires e in m.entities
    ensures var m' := CleanedUp(Deleting(m, e), e, Done);
            m'.available == m.available && m'.purging == m.purging && m'.next == m.next
  {
  }

  lemma PurgedGates(m: Manager)
    requires !m.purging && m.available
    ensures var m' := Purged(m, NoMore);
            m'.available && !m'.purging && m'.next == m.next && m'.entities == map[]
  {
    DeletedAllGates(m.(purging := true), m.order);
  }

  lemma {:induction false} DeletedAllGates(m: Manager, snapshot: seq<nat>)
    ensures var m' := DeletedAll(m, snapshot, NoMore);
            m'.available == m.available && m'.purging == m.purging && m'.next == m.next
    decreases |snapshot|
  {
    if snapshot != [] {
      var e := snapshot[0];
      if MayDelete(m, e) {
        SameGates(m, e);
      }
      DeletedAllGates(Deleted(m, e, Callbacks(Done, Done)), snapshot[1..]);
    }
  }

  /** An entity that is tracked afresh, with a runtime class, holds a block that was not lost. */
  lemma TrackedAgain(m: Manager, e: nat, seen: Seen)
    requires Inv(m) && Tracks(m, e, seen) && m.entities == map[]
    requires seen.networkable && seen.creation.Some? && seen.hooked
    ensures var n := Tracked(m, e, seen, Done, Done);
            && n.entities.Keys == {e} && n.entities[e].handleValue == seen.handleValue.value
            && n.entities[e].sidecar.Some? && n.entities[e].sidecar.value !in Lost(m)
            && (0 <= seen.entIndex < MAX_EDICTS ==>
                  seen.entIndex in n.slots && n.slots[seen.entIndex].life == n.entities[e].durableRef)
  {
    hide Inv, Lost, Acquired;
    var inserted := Inserted(m, e, seen.handleValue.value, seen.entIndex);
    InsertKeepsInv(m, e, seen.handleValue.value, seen.entIndex);
    InsertLosesNothing(m, e, seen.handleValue.value, seen.entIndex);
    AttachedIs(inserted, e, seen.creation.value, seen.entIndex);
    AttachLosesNothing(inserted, e, seen.creation.value, seen.entIndex);
    var n := Attached(inserted, e, seen.creation.value, seen.entIndex);
    assert Tracked(m, e, seen, Done, Done) == n;
    HeldIsNotLost(n, e);
  }

  lemma HeldIsNotLost(m: Manager, e: nat)
    requires e in m.entities
    ensures forall b :: b in Block(m, e) ==> b !in Lost(m)
  {
  }

  /** The shortest such run. */
  function PurgingListenersRun(): Script {
    Then(Track(7, SEEN, Done, Done), Then(Delete(7, Callbacks(Done, PurgeAndTrack(7, SEEN))), Done))
  }

  lemma FirstTracked()
    ensures var m := Tracked(EMPTY, 7, SEEN, Done, Done);
            MayDelete(m, 7) && !m.purging && m.next < -1 && Some(m.entities[7].handleValue) == SEEN.handleValue
    ensures SEEN.networkable && SEEN.creation.Some? && SEEN.hooked && 0 <= SEEN.entIndex < MAX_EDICTS
  {
    hide Acquired;
  }

  lemma PurgingListenersRunLoses()
    ensures var m := Ran(EMPTY, PurgingListenersRun());
            Inv(m) && m.entities == map[] && Lost(m) != {} && 5 in Stale(m)
  {
    hide Inv, Lost, Stale, Tracked, Deleted, PurgeAndTrack;
    FirstTracked();
    EmptyOk();
    RanKeepsInv(EMPTY, PurgingListenersRun());
    var m := Tracked(EMPTY, 7, SEEN, Done, Done);
    TrackedKeepsInv(EMPTY, 7, SEEN, Done, Done);
    PurgingListenersLose(m, 7, SEEN);
    OneStep(m, Delete(7, Callbacks(Done, PurgeAndTrack(7, SEEN))));
  }
}
