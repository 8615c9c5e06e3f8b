/** What the client entity manager knows, as a value: tracked entities, reference tokens, the fast slots and
    the sidecar pools (extension/client/cliententitymanager.cpp:283-371, 414-497, 868-875, 896-930, 940-1041, 1076-1087;
    extension/sourcesdk/cbasenpcclientclass.h:32-51). Entities, blocks and runtime classes are numbered. */
module ClientEntities {
  import opened OpenList
  import opened Wrappers

  const MAX_EDICTS := 2048
  const INT_MIN := -0x8000_0000

  /** One stretch of time during which an entity is tracked. */
  datatype Life = Life(entity: nat, handleValue: nat)

  datatype Record = Record(
    durableRef: int, clientRef: int, handleValue: nat,
    runtime: Option<nat>, sidecar: Option<nat>, networkSlot: int,
    deleting: bool, removeNotified: bool, postConstructed: bool)

  /** `life` is the token of the life that filled the slot; it is history, not something the code stores. */
  datatype Slot = Slot(entity: nat, sidecar: nat, handleValue: nat, life: int)

  /** An empty slot is absent from `slots`. `owner` tells which runtime class allocated a block, `nextBlock` is
      the number of the next one, and `issued` is the history of tokens. */
  datatype Manager = Manager(
    available: bool, purging: bool,
    entities: map<nat, Record>, tokens: map<int, nat>, order: seq<nat>, next: int,
    slots: map<int, Slot>, free: map<nat, seq<nat>>, owner: map<nat, nat>, nextBlock: nat, issued: map<int, Life>)

  // ---------- What every state satisfies ----------

  /** Tracked entities, live tokens and the order list are in bijection; a token belongs to one life. */
  ghost predicate TracksOk(m: Manager) {
    && (forall e :: e in m.entities ==> RecordTracked(m, e))
    && (forall t :: t in m.tokens ==> m.tokens[t] in m.entities && m.entities[m.tokens[t]].durableRef == t)
    && Distinct(m.order) && (forall e :: e in m.order <==> e in m.entities)
    && (forall t :: t in m.issued ==> INT_MIN <= t < m.next)
    && INT_MIN <= m.next <= -1
  }

  ghost predicate RecordTracked(m: Manager, e: nat)
    requires e in m.entities
  {
    var r := m.entities[e];
    && r.durableRef in m.tokens && m.tokens[r.durableRef] == e
    && r.durableRef in m.issued && m.issued[r.durableRef] == Life(e, r.handleValue)
    && (r.clientRef == r.durableRef || 0 <= r.clientRef < MAX_EDICTS)
  }

  function Free(m: Manager, runtime: nat): seq<nat> {
    if runtime in m.free then m.free[runtime] else []
  }

  /** No block is held by two records, nor by a record and the free list. */
  ghost predicate PoolOk(m: Manager) {
    && (forall e {:trigger Holds(m, e)} :: e in m.entities ==> Holds(m, e))
    && (forall d, e :: d in m.entities && e in m.entities && d != e && m.entities[d].sidecar.Some? ==>
          m.entities[d].sidecar != m.entities[e].sidecar)
    && (forall r {:trigger FreeOk(m, r)} :: r in m.free ==> FreeOk(m, r))
  }

  ghost predicate Holds(m: Manager, e: nat)
    requires e in m.entities
  {
    var r := m.entities[e];
    r.sidecar.Some? ==>
      && r.runtime.Some? && r.sidecar.value in m.owner && m.owner[r.sidecar.value] == r.runtime.value
      && r.sidecar.value !in Free(m, r.runtime.value)
  }

  ghost predicate FreeOk(m: Manager, r: nat)
    requires r in m.free
  {
    Distinct(m.free[r]) && forall b :: b in m.free[r] ==> b in m.owner && m.owner[b] == r
  }

  /** Blocks are numbered as they are allocated. */
  ghost predicate BlocksOk(m: Manager) {
    forall b :: b in m.owner ==> b < m.nextBlock
  }

  /** No block on a free list is referenced by a slot, and a slot that references the block of a tracked
      entity was filled in the life of that entity. */
  ghost predicate SlotsOk(m: Manager) {
    && (forall s {:trigger SlotFilled(m, s)} :: s in m.slots ==> SlotFilled(m, s))
    && (forall s, e {:trigger SlotMatches(m, s, e)} :: s in m.slots && e in m.entities ==> SlotMatches(m, s, e))
  }

  ghost predicate SlotFilled(m: Manager, s: int)
    requires s in m.slots
  {
    var slot := m.slots[s];
    && 0 <= s < MAX_EDICTS
    && slot.sidecar in m.owner && slot.sidecar !in Free(m, m.owner[slot.sidecar])
    && slot.life in m.issued && m.issued[slot.life] == Life(slot.entity, slot.handleValue)
  }

  ghost predicate SlotMatches(m: Manager, s: int, e: nat)
    requires s in m.slots && e in m.entities
  {
    var slot, r := m.slots[s], m.entities[e];
    && (r.sidecar == Some(slot.sidecar) ==> slot.life == r.durableRef)
    && (slot.life == r.durableRef ==> r.sidecar == Some(slot.sidecar) && r.networkSlot == s)
    && (r.networkSlot == s && slot.entity == e && slot.handleValue == r.handleValue ==> slot.life == r.durableRef)
  }

  ghost predicate Inv(m: Manager) {
    TracksOk(m) && PoolOk(m) && BlocksOk(m) && SlotsOk(m)
  }

  // ---------- How states evolve ----------

  /** What has been noted in a record stays noted. */
  ghost predicate Marks(r: Record, r': Record) {
    (r.deleting ==> r'.deleting) && (r.removeNotified ==> r'.removeNotified) && (r.postConstructed ==> r'.postConstructed)
  }

  ghost predicate MarksStay(m: Manager, m': Manager) {
    forall t {:trigger t in m'.tokens} :: t in m.tokens && t in m'.tokens && t < m.next && m.tokens[t] in m.entities ==>
      m.tokens[t] in m'.entities && Marks(m.entities[m.tokens[t]], m'.entities[m.tokens[t]])
  }

  /** Tokens are issued in strictly increasing order and keep their meaning; a token that is not live stays
      dead; what has been noted of a life stays noted; and blocks keep their owners. */
  ghost predicate Evolves(m: Manager, m': Manager) {
    && m.next <= m'.next
    && (forall t :: t in m.issued ==> t in m'.issued && m'.issued[t] == m.issued[t])
    && (forall t :: t in m'.issued && t !in m.issued ==> m.next <= t)
    && (forall t :: t in m'.tokens && t < m.next ==> t in m.tokens && m'.tokens[t] == m.tokens[t])
    && MarksStay(m, m')
    && (forall b :: b in m.owner ==> b in m'.owner && m'.owner[b] == m.owner[b])
  }

  lemma EvolvesOn(m: Manager, m': Manager, m'': Manager)
    requires Evolves(m, m') && Evolves(m', m'')
    ensures Evolves(m, m'')
  {
  }

  /** Nothing about tracking has changed. */
  ghost predicate SameTracks(m: Manager, m': Manager) {
    && m'.tokens == m.tokens && m'.order == m.order && m'.next == m.next && m'.issued == m.issued
    && m'.entities.Keys == m.entities.Keys
    && (forall e {:trigger m'.entities[e]} :: e in m.entities ==>
          && m'.entities[e].durableRef == m.entities[e].durableRef && m'.entities[e].clientRef == m.entities[e].clientRef
          && m'.entities[e].handleValue == m.entities[e].handleValue && Marks(m.entities[e], m'.entities[e]))
  }

  lemma SameTracksOk(m: Manager, m': Manager)
    requires TracksOk(m) && SameTracks(m, m')
    ensures TracksOk(m')
    ensures (forall b :: b in m.owner ==> b in m'.owner && m'.owner[b] == m.owner[b]) ==> Evolves(m, m')
  {
    forall e | e in m'.entities
      ensures RecordTracked(m', e)
    {
      assert RecordTracked(m, e);
    }
  }

  /** No record has gained a block. */
  ghost predicate SamePool(m: Manager, m': Manager) {
    && m'.free == m.free && m'.owner == m.owner && m'.nextBlock == m.nextBlock
    && (forall e {:trigger m'.entities[e]} :: e in m'.entities ==>
          m'.entities[e].sidecar.None? || (e in m.entities && m'.entities[e].sidecar == m.entities[e].sidecar
                                           && m'.entities[e].runtime == m.entities[e].runtime))
  }

  lemma SamePoolOk(m: Manager, m': Manager)
    requires PoolOk(m) && SamePool(m, m')
    ensures PoolOk(m') && (BlocksOk(m) ==> BlocksOk(m'))
  {
    forall e | e in m'.entities
      ensures Holds(m', e)
    {
      assert e in m.entities ==> Holds(m, e);
    }
    forall r | r in m'.free
      ensures FreeOk(m', r)
    {
      assert FreeOk(m, r);
    }
  }

  lemma SameSlotsOk(m: Manager, m': Manager)
    requires SlotsOk(m) && m'.free == m.free && m'.owner == m.owner && m'.slots == m.slots
    requires forall t :: t in m.issued ==> t in m'.issued && m'.issued[t] == m.issued[t]
    requires forall s, e {:trigger SlotMatches(m', s, e)} :: s in m.slots && e in m'.entities ==>
               (e in m.entities && m'.entities[e].durableRef == m.entities[e].durableRef
                && m'.entities[e].handleValue == m.entities[e].handleValue
                && m'.entities[e].networkSlot == m.entities[e].networkSlot && m'.entities[e].sidecar == m.entities[e].sidecar)
               || SlotMatches(m', s, e)
    ensures SlotsOk(m')
  {
    forall s | s in m'.slots
      ensures SlotFilled(m', s)
    {
      assert SlotFilled(m, s);
    }
    forall s, e | s in m'.slots && e in m'.entities
      ensures SlotMatches(m', s, e)
    {
      assert e in m.entities ==> SlotMatches(m, s, e);
    }
  }

  // ---------- The steps ----------

  /** A networked entity goes by its index, any other by its token (line 299). */
  function NewRecord(durableRef: int, handleValue: nat, entIndex: int): Record {
    Record(durableRef, if 0 <= entIndex < MAX_EDICTS then entIndex else durableRef, handleValue,
           None, None, -1, false, false, false)
  }

  /** Lines 297-306: a new record with the next token. */
  function Inserted(m: Manager, e: nat, handleValue: nat, entIndex: int): Manager {
    var r := NewRecord(m.next, handleValue, entIndex);
    m.(entities := m.entities[e := r], tokens := m.tokens[m.next := e], order := m.order + [e], next := m.next + 1,
       issued := m.issued[m.next := Life(e, handleValue)])
  }

  lemma InsertKeepsInv(m: Manager, e: nat, handleValue: nat, entIndex: int)
    requires Inv(m) && e !in m.entities && m.next < -1
    ensures Inv(Inserted(m, e, handleValue, entIndex)) && Evolves(m, Inserted(m, e, handleValue, entIndex))
  {
    hide PoolOk, SlotsOk, Inserted;
    InsertKeepsTracks(m, e, handleValue, entIndex);
    InsertKeepsRest(m, e, handleValue, entIndex);
  }

  lemma InsertKeepsTracks(m: Manager, e: nat, handleValue: nat, entIndex: int)
    requires TracksOk(m) && e !in m.entities && m.next < -1
    ensures TracksOk(Inserted(m, e, handleValue, entIndex)) && Evolves(m, Inserted(m, e, handleValue, entIndex))
  {
    hide Evolves;
    var m' := Inserted(m, e, handleValue, entIndex);
    InsertEvolves(m, e, handleValue, entIndex);
    forall t | t in m.tokens
      ensures t in m.issued
    {
      assert RecordTracked(m, m.tokens[t]);
    }
    forall d | d in m'.entities
      ensures RecordTracked(m', d)
    {
      assert d != e ==> RecordTracked(m, d);
    }
  }

  lemma InsertEvolves(m: Manager, e: nat, handleValue: nat, entIndex: int)
    requires TracksOk(m) && e !in m.entities
    ensures Evolves(m, Inserted(m, e, handleValue, entIndex))
  {
    hide MarksStay;
    InsertKeepsMarks(m, e, handleValue, entIndex);
  }

  lemma InsertKeepsMarks(m: Manager, e: nat, handleValue: nat, entIndex: int)
    requires TracksOk(m) && e !in m.entities
    ensures MarksStay(m, Inserted(m, e, handleValue, entIndex))
  {
  }

  lemma InsertKeepsRest(m: Manager, e: nat, handleValue: nat, entIndex: int)
    requires TracksOk(m) && PoolOk(m) && BlocksOk(m) && SlotsOk(m) && e !in m.entities
    ensures PoolOk(Inserted(m, e, handleValue, entIndex)) && BlocksOk(Inserted(m, e, handleValue, entIndex))
    ensures SlotsOk(Inserted(m, e, handleValue, entIndex))
  {
    var m' := Inserted(m, e, handleValue, entIndex);
    SamePoolOk(m, m');
    forall s | s in m.slots
      ensures SlotMatches(m', s, e)
    {
      assert SlotFilled(m, s);
    }
    SameSlotsOk(m, m');
  }

  /** A life that has just begun goes by its index if that is one of a networked entity, and else by its token, and the
      reference resolves to it as long as the client list knows the entity under this handle. */
  lemma NewRefResolves(m: Manager, e: nat, handleValue: nat, entIndex: int, list: ClientList)
    requires Inv(m) && e !in m.entities && m.next < -1 && m.available
    requires if 0 <= entIndex < 2048 then entIndex in list.byIndex && list.byIndex[entIndex] == Life(e, handleValue)
             else handleValue in list.byHandle && list.byHandle[handleValue] == e
    ensures var m', clientRef := Inserted(m, e, handleValue, entIndex), if 0 <= entIndex < 2048 then entIndex else m.next;
            m'.entities[e].clientRef == clientRef && Resolve(m', Some(list), clientRef) == Some(e)
  {
    assert INT_MIN <= m.next < -1;
  }

  /** `AcquireSidecar`: the last free block, or a fresh one. */
  function Acquired(m: Manager, runtime: nat): (nat, Manager) {
    var free := Free(m, runtime);
    if free == [] then (m.nextBlock, m.(owner := m.owner[m.nextBlock := runtime], nextBlock := m.nextBlock + 1))
    else (free[|free| - 1], m.(free := m.free[runtime := free[..|free| - 1]]))
  }

  /** Lines 994-1003: the entity gets a block, and the fast slot of its index refers to it. */
  function Attached(m: Manager, e: nat, runtime: nat, entIndex: int): Manager
    requires e in m.entities
  {
    var (b, m1) := Acquired(m, runtime);
    var r, indexed := m.entities[e], 0 <= entIndex < MAX_EDICTS;
    m.(owner := m1.owner, free := m1.free, nextBlock := m1.nextBlock,
       entities := m.entities[e := r.(sidecar := Some(b), runtime := Some(runtime),
                                      networkSlot := if indexed then entIndex else r.networkSlot)],
       slots := if indexed then m.slots[entIndex := Slot(e, b, r.handleValue, r.durableRef)] else m.slots)
  }

  /** What acquiring means: nothing refers to the block. */
  lemma AcquiredIsUnused(m: Manager, runtime: nat)
    requires PoolOk(m) && SlotsOk(m) && BlocksOk(m)
    ensures var (b, m1) := Acquired(m, runtime);
            && (forall d :: d in m.entities ==> m.entities[d].sidecar != Some(b))
            && (forall s :: s in m.slots ==> m.slots[s].sidecar != b)
  {
    var (b, m1) := Acquired(m, runtime);
    if Free(m, runtime) != [] {
      assert FreeOk(m, runtime) && b in Free(m, runtime);
    }
    forall d | d in m.entities
      ensures m.entities[d].sidecar != Some(b)
    {
      assert Holds(m, d);
    }
    forall s | s in m.slots
      ensures m.slots[s].sidecar != b
    {
      assert SlotFilled(m, s);
    }
  }

  /** The block leaves the free list and belongs to the class; other free lists are as they were. */
  lemma AcquiredIsOwned(m: Manager, runtime: nat)
    requires (forall r :: r in m.free ==> FreeOk(m, r)) && BlocksOk(m)
    ensures var (b, m1) := Acquired(m, runtime);
            && b in m1.owner && m1.owner[b] == runtime && b !in Free(m1, runtime) && BlocksOk(m1)
            && (forall r :: r in m1.free ==> FreeOk(m1, r))
            && (forall r, x :: x in Free(m1, r) ==> x in Free(m, r))
            && (forall x :: x in m.owner ==> x in m1.owner && m1.owner[x] == m.owner[x])
  {
    var (b, m1) := Acquired(m, runtime);
    if Free(m, runtime) != [] {
      assert FreeOk(m, runtime) && b in Free(m, runtime);
    }
    forall r | r in m1.free
      ensures FreeOk(m1, r)
    {
      assert FreeOk(m, r);
    }
  }

  lemma AttachKeepsInv(m: Manager, e: nat, runtime: nat, entIndex: int)
    requires Inv(m) && e in m.entities && m.entities[e].sidecar.None?
    ensures Inv(Attached(m, e, runtime, entIndex)) && Evolves(m, Attached(m, e, runtime, entIndex))
  {
    hide Evolves, Acquired, Attached;
    var (b, m1) := Acquired(m, runtime);
    var m' := Attached(m, e, runtime, entIndex);
    AcquiredIsUnused(m, runtime);
    AcquiredIsOwned(m, runtime);
    AttachedIs(m, e, runtime, entIndex);
    SameTracksOk(m, m');
    assert Free(m', runtime) == Free(m1, runtime);
    forall r | r in m'.free
      ensures FreeOk(m', r)
    {
      assert FreeOk(m1, r);
    }
    forall r, x | x in Free(m', r)
      ensures x in Free(m, r)
    {
      assert x in Free(m1, r);
    }
    AttachKeepsPool(m, m', e, runtime, b);
    AttachKeepsSlots(m, m', e, runtime, b, entIndex);
  }

  /** What the step does, field by field. */
  lemma AttachedIs(m: Manager, e: nat, runtime: nat, entIndex: int)
    requires e in m.entities
    ensures var (b, m1) := Acquired(m, runtime);
            var m' := Attached(m, e, runtime, entIndex);
            && SameTracks(m, m') && m'.owner == m1.owner && m'.free == m1.free && m'.nextBlock == m1.nextBlock
            && (forall d :: d in m.entities && d != e ==> m'.entities[d] == m.entities[d])
            && m'.entities[e].sidecar == Some(b) && m'.entities[e].runtime == Some(runtime)
            && (if 0 <= entIndex < MAX_EDICTS
                then m'.slots == m.slots[entIndex := Slot(e, b, m.entities[e].handleValue, m.entities[e].durableRef)]
                     && m'.entities[e].networkSlot == entIndex
                else m'.slots == m.slots && m'.entities[e].networkSlot == m.entities[e].networkSlot)
  {
  }

  lemma AttachKeepsPool(m: Manager, m': Manager, e: nat, runtime: nat, b: nat)
    requires PoolOk(m) && e in m.entities && m'.entities.Keys == m.entities.Keys
    requires forall d :: d in m.entities && d != e ==> m'.entities[d] == m.entities[d]
    requires m'.entities[e].sidecar == Some(b) && m'.entities[e].runtime == Some(runtime)
    requires forall d :: d in m.entities ==> m.entities[d].sidecar != Some(b)
    requires b in m'.owner && m'.owner[b] == runtime && b !in Free(m', runtime)
    requires (forall r :: r in m'.free ==> FreeOk(m', r)) && (forall r, x :: x in Free(m', r) ==> x in Free(m, r))
    requires forall x :: x in m.owner ==> x in m'.owner && m'.owner[x] == m.owner[x]
    ensures PoolOk(m')
  {
    forall d | d in m'.entities
      ensures Holds(m', d)
    {
      assert Holds(m, d);
    }
  }

  lemma AttachKeepsSlots(m: Manager, m': Manager, e: nat, runtime: nat, b: nat, entIndex: int)
    requires TracksOk(m) && SlotsOk(m) && e in m.entities && SameTracks(m, m') && m.entities[e].sidecar.None?
    requires forall d :: d in m.entities && d != e ==> m'.entities[d] == m.entities[d]
    requires m'.entities[e].sidecar == Some(b)
    requires (forall d :: d in m.entities ==> m.entities[d].sidecar != Some(b)) && (forall s :: s in m.slots ==> m.slots[s].sidecar != b)
    requires b in m'.owner && m'.owner[b] == runtime && b !in Free(m', runtime)
    requires forall r, x :: x in Free(m', r) ==> x in Free(m, r)
    requires forall x :: x in m.owner ==> x in m'.owner && m'.owner[x] == m.owner[x]
    requires if 0 <= entIndex < MAX_EDICTS
             then m'.slots == m.slots[entIndex := Slot(e, b, m.entities[e].handleValue, m.entities[e].durableRef)]
                  && m'.entities[e].networkSlot == entIndex
             else m'.slots == m.slots && m'.entities[e].networkSlot == m.entities[e].networkSlot
    ensures SlotsOk(m')
  {
    assert RecordTracked(m, e);
    forall s | s in m'.slots
      ensures SlotFilled(m', s)
    {
      assert s in m.slots ==> SlotFilled(m, s);
    }
    forall s, d | s in m'.slots && d in m'.entities
      ensures SlotMatches(m', s, d)
    {
      assert RecordTracked(m, d);
      assert s in m.slots ==> SlotMatches(m, s, d) && SlotMatches(m, s, e);
    }
  }

  /** The slots after `ClearNetworkSlot`: only a slot that still refers to this entity under this handle is
      emptied. */
  function SlotsWithout(m: Manager, e: nat): map<int, Slot>
    requires e in m.entities
  {
    var r := m.entities[e];
    if r.networkSlot in m.slots && m.slots[r.networkSlot].entity == e && m.slots[r.networkSlot].handleValue == r.handleValue
    then m.slots - {r.networkSlot} else m.slots
  }

  /** The free lists after `ReleaseSidecar`. */
  function FreeWith(m: Manager, e: nat): map<nat, seq<nat>>
    requires e in m.entities
  {
    var r := m.entities[e];
    if r.runtime.Some? && r.sidecar.Some?
    then m.free[r.runtime.value := Free(m, r.runtime.value) + [r.sidecar.value]] else m.free
  }

  /** Lines 1033-1040: the slot is cleared, and the block goes back to its pool. */
  function Released(m: Manager, e: nat): Manager
    requires e in m.entities
  {
    m.(slots := SlotsWithout(m, e), free := FreeWith(m, e),
       entities := m.entities[e := m.entities[e].(networkSlot := -1, sidecar := None, runtime := None)])
  }

  lemma ReleaseKeepsInv(m: Manager, e: nat)
    requires Inv(m) && e in m.entities
    ensures Inv(Released(m, e)) && Evolves(m, Released(m, e))
  {
    hide Evolves, SlotsWithout, FreeWith;
    var m' := Released(m, e);
    SameTracksOk(m, m');
    ReleaseKeepsPool(m, m', e);
    ReleaseKeepsSlots(m, m', e);
  }

  lemma ReleaseKeepsPool(m: Manager, m': Manager, e: nat)
    requires PoolOk(m) && e in m.entities && m'.entities.Keys == m.entities.Keys && m'.owner == m.owner
    requires (forall d :: d in m.entities && d != e ==> m'.entities[d] == m.entities[d]) && m'.entities[e].sidecar.None?
    requires m'.free == FreeWith(m, e)
    ensures PoolOk(m')
  {
    assert Holds(m, e);
    forall d | d in m'.entities
      ensures Holds(m', d)
    {
      assert Holds(m, d);
    }
    forall x | x in m'.free
      ensures FreeOk(m', x)
    {
      assert x in m.free ==> FreeOk(m, x);
    }
  }

  /** Every slot that refers to the released block is emptied, because it stems from this very life. */
  lemma ReleaseKeepsSlots(m: Manager, m': Manager, e: nat)
    requires Inv(m) && e in m.entities && SameTracks(m, m') && m'.owner == m.owner
    requires forall d :: d in m.entities && d != e ==> m'.entities[d] == m.entities[d]
    requires m'.entities[e].sidecar.None? && m'.entities[e].networkSlot == -1
    requires m'.slots == SlotsWithout(m, e)
    requires m'.free == FreeWith(m, e)
    ensures SlotsOk(m')
  {
    var r := m.entities[e];
    assert RecordTracked(m, e) && Holds(m, e);
    forall s | s in m'.slots
      ensures SlotFilled(m', s) && m'.slots[s].life != r.durableRef
    {
      assert SlotMatches(m, s, e) && SlotFilled(m, s);
    }
    forall s, d | s in m'.slots && d in m'.entities
      ensures SlotMatches(m', s, d)
    {
      assert SlotMatches(m, s, d);
    }
  }

  function WithoutAll<T(==)>(s: seq<T>, x: T): seq<T> {
    if s == [] then [] else (if s[0] == x then [] else [s[0]]) + WithoutAll(s[1..], x)
  }

  lemma {:induction false} WithoutAllExact<T>(s: seq<T>, x: T)
    ensures forall y :: y in WithoutAll(s, x) ==> y in s && y != x
    ensures forall y :: y in s && y != x ==> y in WithoutAll(s, x)
    ensures Distinct(s) ==> Distinct(WithoutAll(s, x))
  {
    if s != [] {
      assert s == [s[0]] + s[1..];
      WithoutAllExact(s[1..], x);
      if Distinct(s) && s[0] != x {
        assert Distinct(s[1..]) && s[0] !in s[1..];
        var r := WithoutAll(s[1..], x);
        forall i, j | 0 <= i < j < |WithoutAll(s, x)|
          ensures WithoutAll(s, x)[i] != WithoutAll(s, x)[j]
        {
          assert r[j - 1] in r;
        }
      }
    }
  }

  /** Lines 448-450: the record, its token and its place in the order go. A block it still holds is lost. */
  function Erased(m: Manager, e: nat): Manager
    requires e in m.entities
  {
    m.(order := WithoutAll(m.order, e), tokens := m.tokens - {m.entities[e].durableRef}, entities := m.entities - {e})
  }

  lemma EraseKeepsInv(m: Manager, e: nat)
    requires Inv(m) && e in m.entities
    ensures Inv(Erased(m, e)) && Evolves(m, Erased(m, e))
  {
    hide TracksOk, PoolOk, SlotsOk, Evolves, Erased;
    EraseKeepsTracks(m, e);
    EraseKeepsRest(m, e);
  }

  lemma EraseKeepsTracks(m: Manager, e: nat)
    requires TracksOk(m) && e in m.entities
    ensures TracksOk(Erased(m, e)) && Evolves(m, Erased(m, e))
  {
    hide MarksStay;
    var m' := Erased(m, e);
    WithoutAllExact(m.order, e);
    EraseKeepsMarks(m, e);
    forall d | d in m'.entities
      ensures RecordTracked(m', d)
    {
      assert RecordTracked(m, d) && RecordTracked(m, e);
    }
  }

  lemma EraseKeepsMarks(m: Manager, e: nat)
    requires TracksOk(m) && e in m.entities
    ensures MarksStay(m, Erased(m, e))
  {
    assert RecordTracked(m, e);
  }

  lemma EraseKeepsRest(m: Manager, e: nat)
    requires PoolOk(m) && BlocksOk(m) && SlotsOk(m) && e in m.entities
    ensures PoolOk(Erased(m, e)) && BlocksOk(Erased(m, e)) && SlotsOk(Erased(m, e))
  {
    var m' := Erased(m, e);
    forall d | d in m'.entities
      ensures Holds(m', d)
    {
      assert Holds(m, d);
    }
    forall s | s in m'.slots
      ensures SlotFilled(m', s)
    {
      assert SlotFilled(m, s);
    }
    forall s, d | s in m'.slots && d in m'.entities
      ensures SlotMatches(m', s, d)
    {
      assert SlotMatches(m, s, d);
    }
    forall r | r in m'.free
      ensures FreeOk(m', r)
    {
      assert FreeOk(m, r);
    }
  }

  /** Lines 1083-1085: everything tracked goes at once. Pools and the token counter stay. */
  function Cleared(m: Manager): Manager {
    m.(order := [], entities := map[], tokens := map[], slots := map[])
  }

  lemma ClearKeepsInv(m: Manager)
    requires Inv(m)
    ensures Inv(Cleared(m)) && Evolves(m, Cleared(m))
  {
    forall r | r in m.free
      ensures FreeOk(Cleared(m), r)
    {
      assert FreeOk(m, r);
    }
  }

  /** Setting flags of a record changes nothing else. */
  lemma FlagsKeepInv(m: Manager, e: nat, r: Record)
    requires Inv(m) && e in m.entities
    requires r == m.entities[e].(deleting := r.deleting, removeNotified := r.removeNotified, postConstructed := r.postConstructed)
    requires Marks(m.entities[e], r)
    ensures Inv(m.(entities := m.entities[e := r])) && Evolves(m, m.(entities := m.entities[e := r]))
  {
    hide TracksOk, PoolOk, SlotsOk, Evolves;
    var m' := m.(entities := m.entities[e := r]);
    SameTracksOk(m, m');
    SamePoolOk(m, m');
    SameSlotsOk(m, m');
  }

  // ---------- Where blocks are ----------

  ghost predicate IsHeld(m: Manager, b: nat) {
    exists e :: e in m.entities && m.entities[e].sidecar == Some(b)
  }

  /** The blocks that are neither held by a record nor free: nothing will ever use them again. */
  ghost function Lost(m: Manager): set<nat> {
    set b | b in m.owner && b !in Free(m, m.owner[b]) && !IsHeld(m, b)
  }

  /** The block of a record, if it has one. */
  function Block(m: Manager, e: nat): set<nat>
    requires e in m.entities
  {
    if m.entities[e].sidecar.Some? then {m.entities[e].sidecar.value} else {}
  }

  /** The slots that were filled in a life that is over. */
  function Stale(m: Manager): set<int> {
    set s | s in m.slots && m.slots[s].life !in m.tokens
  }

  lemma InsertLosesNothing(m: Manager, e: nat, handleValue: nat, entIndex: int)
    requires Inv(m) && e !in m.entities
    ensures var m' := Inserted(m, e, handleValue, entIndex);
            Lost(m') == Lost(m) && Stale(m') <= Stale(m)
  {
    var m' := Inserted(m, e, handleValue, entIndex);
    forall b | b in m.owner
      ensures IsHeld(m', b) <==> IsHeld(m, b)
    {
      if IsHeld(m, b) {
        var d :| d in m.entities && m.entities[d].sidecar == Some(b);
        assert d in m'.entities && m'.entities[d].sidecar == Some(b);
      }
    }
  }

  lemma AttachLosesNothing(m: Manager, e: nat, runtime: nat, entIndex: int)
    requires Inv(m) && e in m.entities && m.entities[e].sidecar.None?
    ensures var m' := Attached(m, e, runtime, entIndex);
            Lost(m') == Lost(m) && Stale(m') <= Stale(m)
  {
    hide Acquired, Attached;
    var (b, m1) := Acquired(m, runtime);
    var m' := Attached(m, e, runtime, entIndex);
    AttachedIs(m, e, runtime, entIndex);
    AcquiredIsTaken(m, runtime);
    assert RecordTracked(m, e) && m'.entities[e].sidecar == Some(b);
    forall x: nat | x != b
      ensures IsHeld(m', x) <==> IsHeld(m, x)
    {
      if IsHeld(m, x) {
        var d :| d in m.entities && m.entities[d].sidecar == Some(x);
        assert d in m'.entities && m'.entities[d].sidecar == Some(x);
      }
    }
    assert forall x :: x in Free(m', m1.owner[b]) <==> x in Free(m1, m1.owner[b]);
    assert IsHeld(m', b);
  }

  /** Acquiring takes the one block out of the free lists, or off the end of all blocks. */
  lemma AcquiredIsTaken(m: Manager, runtime: nat)
    requires PoolOk(m) && BlocksOk(m)
    ensures var (b, m1) := Acquired(m, runtime);
            && b in m1.owner && m1.owner.Keys == m.owner.Keys + {b}
            && (forall x :: x in m.owner ==> m1.owner[x] == m.owner[x])
            && (forall x :: x in m.owner && x != b ==> (x in Free(m1, m.owner[x]) <==> x in Free(m, m.owner[x])))
            && (b in m.owner ==> b in Free(m, m.owner[b]))
  {
    var (b, m1) := Acquired(m, runtime);
    if Free(m, runtime) != [] {
      assert FreeOk(m, runtime) && b in Free(m, runtime);
      assert Free(m, runtime) == Free(m1, runtime) + [b];
    }
  }

  lemma ReleaseLosesNothing(m: Manager, e: nat)
    requires Inv(m) && e in m.entities
    ensures Lost(Released(m, e)) == Lost(m) && Stale(Released(m, e)) <= Stale(m)
  {
    var m' := Released(m, e);
    assert Holds(m, e);
    forall b | b in m.owner
      ensures b in Free(m', m'.owner[b]) || IsHeld(m', b) <==> b in Free(m, m.owner[b]) || IsHeld(m, b)
    {
      if IsHeld(m, b) {
        var d :| d in m.entities && m.entities[d].sidecar == Some(b);
        if d != e {
          assert m'.entities[d].sidecar == Some(b);
        }
      }
    }
  }

  /** Erasing a record loses its block if it still holds one, and nothing else. */
  lemma EraseLosesBlock(m: Manager, e: nat)
    requires Inv(m) && e in m.entities
    ensures Lost(Erased(m, e)) == Lost(m) + Block(m, e)
    ensures m.entities[e].sidecar.None? ==> Stale(Erased(m, e)) <= Stale(m)
  {
    var m' := Erased(m, e);
    assert Holds(m, e);
    forall b | b in m.owner
      ensures IsHeld(m, b) <==> IsHeld(m', b) || b in Block(m, e)
    {
      if IsHeld(m, b) {
        var d :| d in m.entities && m.entities[d].sidecar == Some(b);
        assert d != e ==> d in m'.entities && m'.entities[d].sidecar == Some(b);
      }
    }
    forall s | s in Stale(m') && m.entities[e].sidecar.None?
      ensures s in Stale(m)
    {
      assert SlotMatches(m, s, e);
    }
  }

  /** Clearing everything loses every block that a record still holds, and nothing else. */
  lemma ClearLosesHeld(m: Manager)
    requires Inv(m)
    ensures forall b :: b in Lost(Cleared(m)) <==> b in Lost(m) || IsHeld(m, b)
    ensures Stale(Cleared(m)) == {}
  {
    hide TracksOk, SlotsOk, BlocksOk;
    forall b | IsHeld(m, b)
      ensures b in Lost(Cleared(m))
    {
      var e :| e in m.entities && m.entities[e].sidecar == Some(b);
      assert Holds(m, e);
    }
  }

  lemma FlagsLoseNothing(m: Manager, e: nat, r: Record)
    requires e in m.entities
    requires r == m.entities[e].(deleting := r.deleting, removeNotified := r.removeNotified, postConstructed := r.postConstructed)
    ensures var m' := m.(entities := m.entities[e := r]);
            Lost(m') == Lost(m) && Stale(m') == Stale(m)
  {
    var m' := m.(entities := m.entities[e := r]);
    forall b: nat
      ensures IsHeld(m', b) <==> IsHeld(m, b)
    {
      if IsHeld(m, b) {
        var d :| d in m.entities && m.entities[d].sidecar == Some(b);
        assert d in m'.entities && m'.entities[d].sidecar == Some(b);
      }
    }
  }

  // ---------- References ----------

  /** What the client entity list says: the entity and its handle by index, and the entity by handle. */
  datatype ClientList = ClientList(byIndex: map<int, Life>, byHandle: map<nat, nat>)

  /** `ResolveRecord`. */
  function Resolve(m: Manager, list: Option<ClientList>, clientRef: int): Option<nat> {
    if !m.available || list.None? || clientRef == -1 then None
    else if 0 <= clientRef < MAX_EDICTS then
      if clientRef !in list.value.byIndex then None
      else
        var Life(e, handleValue) := list.value.byIndex[clientRef];
        if e !in m.entities || m.entities[e].clientRef != clientRef || m.entities[e].handleValue != handleValue then None
        else Some(e)
    else if clientRef !in m.tokens then None
    else
      var e := m.tokens[clientRef];
      if e !in m.entities || m.entities[e].durableRef != clientRef then None
      else if m.entities[e].handleValue !in list.value.byHandle || list.value.byHandle[m.entities[e].handleValue] != e then None
      else Some(e)
  }

  /** A reference that is no index resolves to the entity of the life that it was issued for, which is
      tracked under that reference and still goes by the same handle. */
  lemma DurableRefMeansItsLife(m: Manager, list: Option<ClientList>, clientRef: int)
    requires Inv(m) && Resolve(m, list, clientRef).Some? && !(0 <= clientRef < MAX_EDICTS)
    ensures var e := Resolve(m, list, clientRef).value;
            && clientRef in m.issued && e == m.issued[clientRef].entity
            && e in m.entities && m.entities[e].durableRef == clientRef
            && list.value.byHandle[m.issued[clientRef].handleValue] == e
  {
    assert RecordTracked(m, m.tokens[clientRef]);
  }

  /** However the manager evolves, a reference handed out before resolves later only if it has been live all
      along; once dead it never resolves again. */
  lemma DurableRefNeverRevives(m: Manager, m': Manager, list: Option<ClientList>, clientRef: int)
    requires Inv(m) && Evolves(m, m') && clientRef < m.next && !(0 <= clientRef < MAX_EDICTS)
    requires Resolve(m', list, clientRef).Some?
    ensures clientRef in m.tokens && m.tokens[clientRef] == Resolve(m', list, clientRef).value
  {
  }

  /** A reference resolves to an entity if and only if the entity is tracked and goes by it: by its index if that is
      where the client list has it under the handle it was tracked by, else by its token if the list has it under
      that handle. */
  lemma ResolvesIff(m: Manager, list: Option<ClientList>, clientRef: int, e: nat)
    requires Inv(m)
    ensures Resolve(m, list, clientRef) == Some(e) <==>
              && m.available && list.Some? && clientRef != -1 && e in m.entities
              && var r := m.entities[e];
                 if 0 <= clientRef < 2048 then
                   r.clientRef == clientRef && clientRef in list.value.byIndex
                   && list.value.byIndex[clientRef] == Life(e, r.handleValue)
                 else
                   r.durableRef == clientRef && r.handleValue in list.value.byHandle && list.value.byHandle[r.handleValue] == e
  {
    if e in m.entities {
      assert RecordTracked(m, e);
    }
  }

  // ---------- Sidecar lookup ----------

  /** A place in a block. */
  datatype Address = Address(block: nat, offset: nat)

  predicate InBlock(offset: nat, size: nat, sidecarSize: nat) {
    offset <= sidecarSize && size <= sidecarSize - offset
  }

  /** `GetSidecarAddress`: by the map. */
  function SidecarAddress(m: Manager, sizes: nat -> nat, e: nat, offset: nat, size: nat): Option<Address> {
    if !m.available || e !in m.entities || m.entities[e].sidecar.None? || m.entities[e].runtime.None?
      || !InBlock(offset, size, sizes(m.entities[e].runtime.value))
    then None
    else Some(Address(m.entities[e].sidecar.value, offset))
  }

  /** An address is handed out if and only if the entity has a block and the value lies in it. */
  lemma AddressIff(m: Manager, sizes: nat -> nat, e: nat, offset: nat, size: nat, at: Address)
    ensures SidecarAddress(m, sizes, e, offset, size) == Some(at) <==>
              && m.available && e in m.entities && m.entities[e].runtime.Some?
              && m.entities[e].sidecar == Some(at.block) && at.offset == offset
              && offset + size <= sizes(m.entities[e].runtime.value)
  {
  }

  /** `GetNetworkSidecarAddress`: by the fast slot. `handle` is what the object goes by at the moment. */
  function NetworkSidecarAddress(m: Manager, sizes: nat -> nat, objectId: int, entity: nat, handle: Option<nat>,
                                 offset: nat, size: nat): Option<Address>
    requires SlotsOk(m)
  {
    if !m.available || objectId < 0 || MAX_EDICTS <= objectId || objectId !in m.slots then None
    else
      assert SlotFilled(m, objectId);
      var slot := m.slots[objectId];
      if slot.entity != entity || !InBlock(offset, size, sizes(m.owner[slot.sidecar])) || handle != Some(slot.handleValue)
      then None
      else Some(Address(slot.sidecar, offset))
  }

  /** When the fast slot answers for an entity that is tracked under the handle it goes by, it agrees with the
      map exactly if it is the slot that the record of the entity names. */
  lemma FastLookupAgreesIff(m: Manager, sizes: nat -> nat, objectId: int, e: nat, offset: nat, size: nat)
    requires Inv(m) && e in m.entities
    requires NetworkSidecarAddress(m, sizes, objectId, e, Some(m.entities[e].handleValue), offset, size).Some?
    ensures NetworkSidecarAddress(m, sizes, objectId, e, Some(m.entities[e].handleValue), offset, size) ==
            SidecarAddress(m, sizes, e, offset, size)
            <==> m.entities[e].networkSlot == objectId
  {
    assert SlotFilled(m, objectId) && SlotMatches(m, objectId, e) && Holds(m, e);
  }

  /** As long as the fast slot of an entity is the one that was filled in its life, the slot answers like the map. */
  lemma FastLookupAnswers(m: Manager, sizes: nat -> nat, e: nat, offset: nat, size: nat)
    requires Inv(m) && e in m.entities
    requires m.entities[e].networkSlot in m.slots && m.slots[m.entities[e].networkSlot].life == m.entities[e].durableRef
    ensures NetworkSidecarAddress(m, sizes, m.entities[e].networkSlot, e, Some(m.entities[e].handleValue), offset, size) ==
            SidecarAddress(m, sizes, e, offset, size)
  {
    var objectId := m.entities[e].networkSlot;
    assert SlotFilled(m, objectId) && SlotMatches(m, objectId, e) && Holds(m, e) && RecordTracked(m, e);
  }

  /** The fast slot answers nobody but the entity and the handle that it was filled for, and within the block. */
  lemma FastAddressIsOwn(m: Manager, sizes: nat -> nat, objectId: int, entity: nat, handle: Option<nat>, offset: nat, size: nat)
    requires Inv(m) && NetworkSidecarAddress(m, sizes, objectId, entity, handle, offset, size).Some?
    ensures m.available && objectId in m.slots && m.slots[objectId].life in m.issued
    ensures handle.Some? && m.issued[m.slots[objectId].life] == Life(entity, handle.value)
    ensures var at := NetworkSidecarAddress(m, sizes, objectId, entity, handle, offset, size).value;
            at.block in m.owner && at.offset == offset && offset + size <= sizes(m.owner[at.block])
  {
    assert SlotFilled(m, objectId);
  }

  /** No entity has ever been tracked twice under the same handle. */
  ghost predicate HandlesUnique(m: Manager) {
    forall s, t :: s in m.issued && t in m.issued && m.issued[s] == m.issued[t] ==> s == t
  }

  /** Then the fast slot never answers differently from the map, for an entity that is tracked under the
      handle it goes by. */
  lemma FastLookupAgrees(m: Manager, sizes: nat -> nat, objectId: int, e: nat, offset: nat, size: nat)
    requires Inv(m) && (HandlesUnique(m) || Stale(m) == {}) && e in m.entities
    requires NetworkSidecarAddress(m, sizes, objectId, e, Some(m.entities[e].handleValue), offset, size).Some?
    ensures NetworkSidecarAddress(m, sizes, objectId, e, Some(m.entities[e].handleValue), offset, size) ==
            SidecarAddress(m, sizes, e, offset, size)
  {
    FastLookupAgreesIff(m, sizes, objectId, e, offset, size);
    assert SlotFilled(m, objectId) && SlotMatches(m, objectId, e) && RecordTracked(m, e);
    assert objectId !in Stale(m) || HandlesUnique(m);
  }

  const EMPTY := Manager(true, false, map[], map[], [], INT_MIN, map[], map[], map[], 0, map[])

  lemma EmptyOk()
    ensures Inv(EMPTY) && Lost(EMPTY) == {} && Stale(EMPTY) == {}
  {
  }
}
