/** The animation layers of an entity: a vector of at most 15 slots whose orders spell out a sequence
    sorted by priority (extension/sourcesdk/baseanimatingoverlay.cpp:22-185, 350-593). */
module Layers {
  import opened OpenList

  const MAX_OVERLAYS := 15
  const ACT_INVALID := -1

  /** The bits of `m_fFlags`. */
  datatype Flag = Active | Autokill | KillMe | DontRestore | CheckAccess | Dying

  datatype AnimationLayer = AnimationLayer(flags: set<Flag>, activity: int, sequence: int, priority: int, order: int) {
    predicate IsActive() {
      Active in flags
    }

    predicate IsKillMe() {
      KillMe in flags
    }

    predicate IsDying() {
      Dying in flags
    }

    /** A slot that may be handed out. */
    predicate IsOpen() {
      !IsActive() && !IsDying()
    }

    /** A gesture that is playing and not about to be removed. */
    predicate IsLive() {
      IsActive() && !IsKillMe() && activity != ACT_INVALID
    }
  }

  /** `CAnimationLayer::Init`. */
  const INITIAL := AnimationLayer({}, ACT_INVALID, 0, 0, MAX_OVERLAYS)

  // ---------- The sequence that the orders spell out ----------

  /** The active slots in order are exactly s; every other slot has the order that stands for none. */
  ghost predicate Ranked(layers: seq<AnimationLayer>, s: seq<nat>) {
    && (forall k {:trigger s[k]} :: 0 <= k < |s| ==> RanksAt(layers, s, k))
    && (forall i {:trigger SlotOk(layers, s, i)} :: 0 <= i < |layers| ==> SlotOk(layers, s, i))
  }

  ghost predicate RanksAt(layers: seq<AnimationLayer>, s: seq<nat>, k: nat)
    requires k < |s|
  {
    s[k] < |layers| && layers[s[k]].IsActive() && layers[s[k]].order == k
  }

  ghost predicate SlotOk(layers: seq<AnimationLayer>, s: seq<nat>, i: nat)
    requires i < |layers|
  {
    if layers[i].IsActive() then 0 <= layers[i].order < |s| && s[layers[i].order] == i
    else layers[i].order == MAX_OVERLAYS
  }

  /** Priorities do not decrease along the sequence. */
  ghost predicate ByPriority(layers: seq<AnimationLayer>, s: seq<nat>)
    requires forall k :: 0 <= k < |s| ==> s[k] < |layers|
  {
    forall j, k :: 0 <= j < k < |s| ==> layers[s[j]].priority <= layers[s[k]].priority
  }

  /** Position p comes after all layers of at most this priority, and before all others. */
  ghost predicate After(layers: seq<AnimationLayer>, s: seq<nat>, p: int, priority: int)
    requires forall k :: 0 <= k < |s| ==> s[k] < |layers|
  {
    && 0 <= p <= |s|
    && (forall k :: 0 <= k < p ==> layers[s[k]].priority <= priority)
    && (forall k :: p <= k < |s| ==> priority < layers[s[k]].priority)
  }

  /** Slots that are not in use carry no activity, and no activity is played live by two layers. */
  ghost predicate GesturesOk(layers: seq<AnimationLayer>) {
    && (forall i :: 0 <= i < |layers| && !layers[i].IsActive() ==> layers[i].activity == ACT_INVALID)
    && (forall i, j :: 0 <= i < j < |layers| && layers[i].IsLive() && layers[j].IsLive() ==>
          layers[i].activity != layers[j].activity)
  }

  /** s' is s without slot i, which stood at position p. */
  ghost predicate TakenOut(s: seq<nat>, s': seq<nat>, p: int, i: int) {
    0 <= p < |s| && s[p] == i && s' == Without(s, p)
  }

  /** s' is s with slot i behind all layers of at most this priority. */
  ghost predicate PutIn(layers: seq<AnimationLayer>, s: seq<nat>, s': seq<nat>, p: int, i: int, priority: int) {
    && 0 <= i && (forall k :: 0 <= k < |s| ==> s[k] < |layers|)
    && After(layers, s, p, priority) && s' == InsertAt(s, p, i)
  }

  /** s' is s with slot i moved from one position to behind all other layers of at most this priority. */
  ghost predicate Shifted(layers: seq<AnimationLayer>, s: seq<nat>, s': seq<nat>, from: int, to: int, i: int, priority: int) {
    0 <= from < |s| && s[from] == i && PutIn(layers, Without(s, from), s', to, i, priority)
  }

  predicate Precedes(l: AnimationLayer, priority: int) {
    l.IsActive() && l.priority <= priority
  }

  /** p is one more than the highest order among the first n layers, without slot i, of at most this
      priority; 0 if there are none. */
  ghost predicate IsNewOrder(layers: seq<AnimationLayer>, n: int, i: int, priority: int, p: int) {
    && 0 <= p && n <= |layers|
    && (forall j :: 0 <= j < n && j != i && Precedes(layers[j], priority) ==> layers[j].order < p)
    && (p == 0 || exists j :: 0 <= j < n && j != i && Precedes(layers[j], priority) && layers[j].order + 1 == p)
  }

  ghost predicate SameButOrder(l: AnimationLayer, m: AnimationLayer) {
    l.(order := m.order) == m
  }

  /** The same slots up to their orders, except slot i, and perhaps fresh slots at the end. */
  ghost predicate OthersKept(layers: seq<AnimationLayer>, layers': seq<AnimationLayer>, i: int) {
    && |layers| <= |layers'|
    && (forall j :: 0 <= j < |layers| && j != i ==> SameButOrder(layers'[j], layers[j]))
    && (forall j :: |layers| <= j < |layers'| && j != i ==> layers'[j] == INITIAL)
  }

  /** There are never more active layers than slots. */
  lemma RankedIsShort(layers: seq<AnimationLayer>, s: seq<nat>)
    requires Ranked(layers, s)
    ensures |s| <= |layers| && Distinct(s)
    ensures (exists i :: 0 <= i < |layers| && !layers[i].IsActive()) ==> |s| < |layers|
  {
    forall j, k | 0 <= j < k < |s|
      ensures s[j] != s[k]
    {
      assert RanksAt(layers, s, j) && RanksAt(layers, s, k);
    }
    Pigeonhole(s, |layers|);
    if i :| 0 <= i < |layers| && !layers[i].IsActive() {
      var t := s + [i];
      Pigeonhole(t, |layers|);
    }
  }

  /** The new order is where the sequence splits. */
  lemma NewOrderSplits(layers: seq<AnimationLayer>, s: seq<nat>, i: int, p: int, priority: int)
    requires Ranked(layers, s) && ByPriority(layers, s) && (0 <= i < |layers| ==> !layers[i].IsActive())
    requires IsNewOrder(layers, |layers|, i, priority, p)
    ensures After(layers, s, p, priority)
  {
    if p != 0 {
      var j :| 0 <= j < |layers| && j != i && Precedes(layers[j], priority) && layers[j].order + 1 == p;
      assert SlotOk(layers, s, j) && s[p - 1] == j;
    }
    forall k | p <= k < |s|
      ensures priority < layers[s[k]].priority
    {
      assert RanksAt(layers, s, k);
    }
  }

  // ---------- Removal ----------

  /** What both shift loops do to a slot behind the removed order. */
  function Closed(l: AnimationLayer, order: int): AnimationLayer {
    if l.IsActive() && l.order > order then l.(order := l.order - 1) else l
  }

  /** After closing the gap left by slot i, the orders of the other active slots spell the sequence without it. */
  lemma ClosingSpellsWithout(layers: seq<AnimationLayer>, layers': seq<AnimationLayer>, s: seq<nat>, i: nat, l: AnimationLayer)
    requires Ranked(layers, s) && i < |layers| && layers[i].IsActive()
    requires |layers'| == |layers| && layers'[i] == l && !l.IsActive() && l.order == MAX_OVERLAYS
    requires forall j :: 0 <= j < |layers| && j != i ==> layers'[j] == Closed(layers[j], layers[i].order)
    ensures SlotOk(layers, s, i)
    ensures Ranked(layers', Without(s, layers[i].order))
    ensures ByPriority(layers, s) ==> ByPriority(layers', Without(s, layers[i].order))
  {
    assert SlotOk(layers, s, i);
    var p := layers[i].order;
    var r := Without(s, p);
    WithoutContents(s, p);
    forall k | 0 <= k < |r|
      ensures RanksAt(layers', r, k)
    {
      assert RanksAt(layers, s, if k < p then k else k + 1);
    }
    forall j | 0 <= j < |layers'|
      ensures SlotOk(layers', r, j)
    {
      assert SlotOk(layers, s, j);
    }
    if ByPriority(layers, s) {
      forall j, k | 0 <= j < k < |r|
        ensures layers'[r[j]].priority <= layers'[r[k]].priority
      {
        assert RanksAt(layers', r, j) && RanksAt(layers', r, k);
      }
    }
  }

  // ---------- Insertion ----------

  /** What both shift loops do to a slot from the new order on. */
  function Opened(l: AnimationLayer, order: int): AnimationLayer {
    if l.IsActive() && l.order >= order then l.(order := l.order + 1) else l
  }

  /** After opening a gap at p and putting slot i there, the orders spell the sequence with i inserted at p. */
  lemma OpeningSpellsInsert(layers: seq<AnimationLayer>, layers': seq<AnimationLayer>, s: seq<nat>, i: nat, p: nat)
    requires Ranked(layers, s) && i < |layers| && !layers[i].IsActive() && p <= |s|
    requires |layers'| == |layers| && layers'[i].IsActive() && layers'[i].order == p
    requires forall j :: 0 <= j < |layers| && j != i ==> layers'[j] == Opened(layers[j], p)
    ensures Ranked(layers', InsertAt(s, p, i))
    ensures ByPriority(layers, s) && After(layers, s, p, layers'[i].priority) ==> ByPriority(layers', InsertAt(s, p, i))
  {
    var r := InsertAt(s, p, i);
    InsertContents(s, p, i);
    forall k | 0 <= k < |r|
      ensures RanksAt(layers', r, k)
    {
      assert k < p ==> RanksAt(layers, s, k);
      assert p < k ==> RanksAt(layers, s, k - 1);
    }
    forall j | 0 <= j < |layers'|
      ensures SlotOk(layers', r, j)
    {
      assert SlotOk(layers, s, j);
    }
    if ByPriority(layers, s) && After(layers, s, p, layers'[i].priority) {
      forall j, k | 0 <= j < k < |r|
        ensures layers'[r[j]].priority <= layers'[r[k]].priority
      {
        InsertedPriority(layers, layers', s, i, p, j);
        InsertedPriority(layers, layers', s, i, p, k);
      }
    }
  }

  lemma InsertedPriority(layers: seq<AnimationLayer>, layers': seq<AnimationLayer>, s: seq<nat>, i: nat, p: nat, k: nat)
    requires Ranked(layers, s) && i < |layers| && !layers[i].IsActive() && p <= |s| && k <= |s|
    requires |layers'| == |layers|
    requires forall j :: 0 <= j < |layers| && j != i ==> layers'[j] == Opened(layers[j], p)
    ensures k == p ==> InsertAt(s, p, i)[k] == i
    ensures k < p ==> InsertAt(s, p, i)[k] == s[k] && RanksAt(layers, s, k) && layers'[s[k]].priority == layers[s[k]].priority
    ensures p < k ==> InsertAt(s, p, i)[k] == s[k - 1] && RanksAt(layers, s, k - 1)
                      && layers'[s[k - 1]].priority == layers[s[k - 1]].priority
  {
    InsertContents(s, p, i);
    assert k < p ==> RanksAt(layers, s, k);
    assert p < k ==> RanksAt(layers, s, k - 1);
  }

  lemma NewOrderSkips(layers: seq<AnimationLayer>, layers': seq<AnimationLayer>, i: int, priority: int, p: int)
    requires IsNewOrder(layers, |layers|, i, priority, p) && |layers'| == |layers|
    requires forall j :: 0 <= j < |layers| && j != i ==> layers'[j] == layers[j]
    ensures IsNewOrder(layers', |layers|, i, priority, p)
  {
    if p != 0 {
      var j :| 0 <= j < |layers| && j != i && Precedes(layers[j], priority) && layers[j].order + 1 == p;
      assert Precedes(layers'[j], priority) && layers'[j].order + 1 == p;
    }
  }

  /** Closing the gap that slot i leaves and opening one at its new order spells the sequence with it moved. */
  lemma ShiftSpells(was: seq<AnimationLayer>, closed: seq<AnimationLayer>, layers: seq<AnimationLayer>, s: seq<nat>,
                    i: nat, p: int, priority: int) returns (s': seq<nat>)
    requires Ranked(was, s) && ByPriority(was, s) && i < |was| == |closed| == |layers| && was[i].IsActive()
    requires closed[i] == INITIAL && layers[i] == was[i].(order := p, priority := priority)
    requires forall j :: 0 <= j < |was| && j != i ==> closed[j] == Closed(was[j], was[i].order)
    requires forall j :: 0 <= j < |was| && j != i ==> layers[j] == Opened(closed[j], p)
    requires IsNewOrder(closed, |closed|, i, priority, p)
    ensures Ranked(layers, s') && ByPriority(layers, s') && Shifted(was, s, s', was[i].order, p, i, priority)
  {
    ClosingSpellsWithout(was, closed, s, i, INITIAL);
    var rest := Without(s, was[i].order);
    NewOrderSplits(closed, rest, i, p, priority);
    OpeningSpellsInsert(closed, layers, rest, i, p);
    SamePriorities(was, closed, rest, i, p, priority);
    s' := InsertAt(rest, p, i);
  }

  lemma ShiftKeepsOthers(was: seq<AnimationLayer>, closed: seq<AnimationLayer>, layers: seq<AnimationLayer>, i: nat, p: int,
                         priority: int)
    requires i < |was| == |closed| == |layers| && layers[i] == was[i].(order := p, priority := priority)
    requires forall j :: 0 <= j < |was| && j != i ==> closed[j] == Closed(was[j], was[i].order)
    requires forall j :: 0 <= j < |was| && j != i ==> layers[j] == Opened(closed[j], p)
    ensures OthersKept(was, layers, i) && SameButOrder(layers[i], was[i].(priority := priority))
    ensures GesturesOk(was) ==> GesturesOk(layers)
  {
    assert forall j :: 0 <= j < |was| ==> layers[j].IsLive() == was[j].IsLive() && layers[j].activity == was[j].activity;
  }

  lemma SamePriorities(was: seq<AnimationLayer>, closed: seq<AnimationLayer>, s: seq<nat>, i: nat, p: int, priority: int)
    requires Ranked(closed, s) && i < |closed| && !closed[i].IsActive()
    requires forall j :: 0 <= j < |was| && j < |closed| && j != i ==> closed[j].priority == was[j].priority
    requires forall j :: |was| <= j < |closed| ==> !closed[j].IsActive()
    requires After(closed, s, p, priority)
    ensures (forall k :: 0 <= k < |s| ==> s[k] < |was|) && After(was, s, p, priority)
  {
    forall k | 0 <= k < |s|
      ensures s[k] < |was| && was[s[k]].priority == closed[s[k]].priority
    {
      assert RanksAt(closed, s, k);
    }
  }

  ghost predicate SpareSlot(layers: seq<AnimationLayer>, i: int) {
    exists j :: 0 <= j < |layers| && j != i && layers[j].IsOpen()
  }

  /** Neither in use nor on its way out. */
  ghost predicate IsFree(layers: seq<AnimationLayer>, i: int) {
    0 <= i < |layers| && Active !in layers[i].flags && Dying !in layers[i].flags
  }

  /** Slot i is the first free one, or behind all others if none is free, and there are n slots now: two more if none
      was free, one more if no other was, as far as 15 slots allow. */
  ghost predicate TakesFirst(was: seq<AnimationLayer>, n: int, i: int) {
    && 0 <= i <= |was| && (i < |was| ==> IsFree(was, i))
    && (forall j :: 0 <= j < i ==> !IsFree(was, j))
    && n == if i == |was| then (if |was| <= 13 then |was| + 2 else 15)
            else if |was| < 15 && forall j :: i < j < |was| ==> !IsFree(was, j) then |was| + 1
            else |was|
  }

  /** Slot i, which was open or did not exist, is now an active layer behind all others of at most its
      priority; nothing else has changed but the orders. A spare slot is left, or all 15 slots exist. */
  ghost predicate Allocated(was: seq<AnimationLayer>, s: seq<nat>, layers: seq<AnimationLayer>, s': seq<nat>, i: int, priority: int) {
    && 0 <= i < |layers| && OthersKept(was, layers, i)
    && (i < |was| ==> was[i].IsOpen())
    && TakesFirst(was, |layers|, i)
    && layers[i].IsActive() && layers[i].priority == priority
    && PutIn(was, s, s', layers[i].order, i, priority)
    && (|layers| == MAX_OVERLAYS || SpareSlot(layers, i))
  }

  lemma AllocatedStays(was: seq<AnimationLayer>, s: seq<nat>, layers: seq<AnimationLayer>, s': seq<nat>, i: int, priority: int,
                       l: AnimationLayer)
    requires Allocated(was, s, layers, s', i, priority)
    requires l.IsActive() && l.priority == priority && l.order == layers[i].order
    ensures Allocated(was, s, layers[i := l], s', i, priority)
  {
    if SpareSlot(layers, i) {
      var j :| 0 <= j < |layers| && j != i && layers[j].IsOpen();
      assert layers[i := l][j].IsOpen();
    }
  }

  lemma SpareStays(layers: seq<AnimationLayer>, layers': seq<AnimationLayer>, i: int)
    requires SpareSlot(layers, i) && OthersKept(layers, layers', i)
    ensures SpareSlot(layers', i)
  {
    var j :| 0 <= j < |layers| && j != i && layers[j].IsOpen();
    assert SameButOrder(layers'[j], layers[j]);
  }

  // ---------- The entity ----------

  class AnimatingOverlay {
    var layers: seq<AnimationLayer>
    ghost var ordered: seq<nat>

    constructor ()
      ensures Valid() && layers == []
    {
      layers, ordered := [], [];
    }

    /** The active layers spell `ordered`, sorted by priority, and no gesture is played twice. */
    ghost predicate Valid()
      reads this
    {
      && |layers| <= MAX_OVERLAYS
      && Ranked(layers, ordered) && ByPriority(layers, ordered) && GesturesOk(layers)
    }

    predicate IsValidLayer(i: int)
      reads this
    {
      0 <= i < |layers| && layers[i].IsActive()
    }

    /** No slot may be handed out, and none may be added. */
    ghost predicate NoRoom()
      reads this
    {
      (forall i :: 0 <= i < |layers| ==> !layers[i].IsOpen()) && MAX_OVERLAYS <= |layers|
    }

    /** `FastRemoveLayer`: the layer leaves the sequence; the order of the others stays. */
    method FastRemoveLayer(i: int)
      requires Valid()
      modifies this
      ensures Valid()
      ensures if !old(IsValidLayer(i)) then layers == old(layers) && ordered == old(ordered)
              else
                && TakenOut(old(ordered), ordered, old(layers)[i].order, i)
                && |layers| == |old(layers)| && layers[i] == INITIAL && OthersKept(old(layers), layers, i)
    {
      if !IsValidLayer(i) {
        return;
      }
      ghost var was := layers;
      assert SlotOk(was, ordered, i);
      CloseGap(layers[i].order);
      layers := layers[i := INITIAL];
      ClosingSpellsWithout(was, layers, ordered, i, INITIAL);
      ordered := Without(ordered, was[i].order);
      assert forall j :: 0 <= j < |was| && layers[j].IsLive() ==> was[j].IsLive() && layers[j].activity == was[j].activity;
    }

    /** Lines 376-382 and 457-466: every layer ordered behind the gap moves up. */
    method CloseGap(order: int)
      modifies this`layers
      ensures |layers| == |old(layers)| && forall j :: 0 <= j < |layers| ==> layers[j] == Closed(old(layers)[j], order)
    {
      var j := 0;
      while j < |layers|
        invariant 0 <= j <= |layers| == |old(layers)|
        invariant forall k :: 0 <= k < j ==> layers[k] == Closed(old(layers)[k], order)
        invariant forall k :: j <= k < |layers| ==> layers[k] == old(layers)[k]
      {
        if layers[j].IsActive() && layers[j].order > order {
          layers := layers[j := layers[j].(order := layers[j].order - 1)];
        }
        j := j + 1;
      }
    }

    /** `SetLayerPriority`: the layer moves behind the layers of at most its new priority; the order of the
        others stays. Setting the priority it has already changes nothing. */
    method SetLayerPriority(i: int, priority: int)
      requires Valid()
      modifies this
      ensures Valid()
      ensures if !old(IsValidLayer(i)) || old(layers)[i].priority == priority
              then layers == old(layers) && ordered == old(ordered)
              else
                && |layers| == |old(layers)| && OthersKept(old(layers), layers, i)
                && Shifted(old(layers), old(ordered), ordered, old(layers)[i].order, layers[i].order, i, priority)
                && SameButOrder(layers[i], old(layers)[i].(priority := priority))
    {
      if !IsValidLayer(i) {
        return;
      }
      if layers[i].priority == priority {
        return;
      }
      hide Ranked, ByPriority, IsNewOrder, Shifted, GesturesOk, OthersKept, SameButOrder;
      ghost var was := layers;
      CloseGap(layers[i].order);
      ghost var closed := layers[i := INITIAL];
      var newOrder := HighestOrder(i, priority);
      NewOrderSkips(layers, closed, i, priority, newOrder);
      OpenGap(i, newOrder);
      layers := layers[i := layers[i].(order := newOrder, priority := priority)];
      ordered := ShiftSpells(was, closed, layers, ordered, i, newOrder, priority);
      ShiftKeepsOthers(was, closed, layers, i, newOrder, priority);
    }

    /** Lines 468-478. */
    method HighestOrder(i: int, priority: int) returns (newOrder: int)
      ensures IsNewOrder(layers, |layers|, i, priority, newOrder)
    {
      newOrder := 0;
      for j := 0 to |layers|
        invariant IsNewOrder(layers, j, i, priority, newOrder)
      {
        if j != i && layers[j].IsActive() {
          if layers[j].priority <= priority {
            newOrder := if newOrder < layers[j].order + 1 then layers[j].order + 1 else newOrder;
          }
        }
      }
    }

    /** Lines 480-489. */
    method OpenGap(i: int, newOrder: int)
      requires 0 <= i < |layers|
      modifies this`layers
      ensures |layers| == |old(layers)| && layers[i] == old(layers)[i]
      ensures forall j :: 0 <= j < |layers| && j != i ==> layers[j] == Opened(old(layers)[j], newOrder)
    {
      var j := 0;
      while j < |layers|
        invariant 0 <= j <= |layers| == |old(layers)| && layers[i] == old(layers)[i]
        invariant forall k :: 0 <= k < j && k != i ==> layers[k] == Opened(old(layers)[k], newOrder)
        invariant forall k :: j <= k < |layers| ==> layers[k] == old(layers)[k]
      {
        if j != i && layers[j].IsActive() {
          if layers[j].order >= newOrder {
            layers := layers[j := layers[j].(order := layers[j].order + 1)];
          }
        }
        j := j + 1;
      }
    }

    /** `AllocateLayer`: the layer is inserted behind all layers of at most its priority. It fails exactly
        when all 15 slots are in use or dying. Otherwise a spare slot is left, or all 15 slots exist. */
    method AllocateLayer(priority: int) returns (i: int)
      requires Valid()
      modifies this
      ensures Valid()
      ensures i == -1 <==> old(NoRoom())
      ensures i == -1 ==> layers == old(layers) && ordered == old(ordered)
      ensures i != -1 ==> Allocated(old(layers), old(ordered), layers, ordered, i, priority)
      ensures i != -1 ==> layers[i].flags == {Active} && layers[i].activity == ACT_INVALID
    {
      hide TakesFirst, GesturesOk;
      var newOrder;
      i, newOrder := FindSlot(priority);
      if i == -1 {
        return;
      }
      ghost var grown := layers;
      assert forall k :: 0 <= k < |old(layers)| ==> grown[k] == old(layers)[k];
      Occupy(i, newOrder, priority);
      SamePriorities(old(layers), grown, old(ordered), i, layers[i].order, priority);
      if SpareSlot(grown, i) {
        SpareStays(grown, layers, i);
      }
      forall k | |old(layers)| <= k < |layers| && k != i
        ensures layers[k] == INITIAL
      {
        assert SlotOk(layers, ordered, k);
      }
    }

    /** Lines 502-549: pick an open slot, and add slots where needed. */
    method FindSlot(priority: int) returns (i: int, newOrder: int)
      requires Valid()
      modifies this`layers
      ensures Valid() && |old(layers)| <= |layers|
      ensures i == -1 <==> old(NoRoom())
      ensures i == -1 ==> layers == old(layers)
      ensures layers[..|old(layers)|] == old(layers) && forall j :: |old(layers)| <= j < |layers| ==> layers[j] == INITIAL
      ensures i != -1 ==> 0 <= i < |layers| && layers[i].IsOpen() && (|layers| == MAX_OVERLAYS || SpareSlot(layers, i))
      ensures i != -1 ==> TakesFirst(old(layers), |layers|, i)
      ensures IsNewOrder(old(layers), |old(layers)|, -1, priority, newOrder)
    {
      hide Ranked, ByPriority, GesturesOk, TakesFirst, IsNewOrder;
      var openLayer, numOpen;
      newOrder, openLayer, numOpen := FindOpen(priority);
      if openLayer == -1 {
        if |layers| >= MAX_OVERLAYS {
          return -1, newOrder;
        }
        openLayer := |layers|;
        AddToTail();
      }
      if numOpen == 0 {
        if |layers| < MAX_OVERLAYS {
          AddToTail();
          assert layers[|layers| - 1].IsOpen();
        }
      } else {
        assert exists j :: openLayer < j < |layers| && layers[j].IsOpen();
      }
      i := openLayer;
      FirstIsTaken(old(layers), |layers|, i, numOpen);
    }

    lemma FirstIsTaken(was: seq<AnimationLayer>, n: int, i: int, numOpen: int)
      requires |was| <= MAX_OVERLAYS && 0 <= i <= |was| && (i == |was| ==> |was| < MAX_OVERLAYS && numOpen == 0)
      requires forall j :: 0 <= j < i ==> !was[j].IsOpen()
      requires i < |was| ==> was[i].IsOpen() && (numOpen == 0 <==> forall j :: i < j < |was| ==> !was[j].IsOpen())
      requires var first := if i == |was| then |was| + 1 else |was|;
               n == if numOpen == 0 && first < MAX_OVERLAYS then first + 1 else first
      ensures TakesFirst(was, n, i)
    {
      assert forall j {:trigger was[j].IsOpen()} {:trigger IsFree(was, j)} :: 0 <= j < |was| ==> (was[j].IsOpen() <==> IsFree(was, j));
    }

    /** Lines 551-562. */
    method Occupy(i: int, newOrder: int, priority: int)
      requires Valid() && 0 <= i < |layers| && layers[i].IsOpen()
      requires IsNewOrder(layers, |layers|, -1, priority, newOrder)
      modifies this
      ensures Valid() && |layers| == |old(layers)| && OthersKept(old(layers), layers, i)
      ensures layers[i].flags == {Active} && layers[i].priority == priority && layers[i].activity == ACT_INVALID
      ensures PutIn(old(layers), old(ordered), ordered, layers[i].order, i, priority)
    {
      ghost var was := layers;
      NewOrderSplits(layers, ordered, -1, newOrder, priority);
      RankedIsShort(layers, ordered);
      OpenGapBelowMax(newOrder);
      layers := layers[i := layers[i].(flags := {Active}, order := newOrder, priority := priority)];
      OpeningSpellsInsert(was, layers, ordered, i, newOrder);
      ordered := InsertAt(ordered, newOrder, i);
      assert forall j :: 0 <= j < |was| && layers[j].IsLive() ==> was[j].IsLive() && layers[j].activity == was[j].activity;
    }

    /** Lines 504-536. */
    method FindOpen(priority: int) returns (newOrder: int, openLayer: int, numOpen: int)
      ensures IsNewOrder(layers, |layers|, -1, priority, newOrder)
      ensures openLayer == -1 ==> numOpen == 0 && forall j :: 0 <= j < |layers| ==> !layers[j].IsOpen()
      ensures openLayer != -1 ==> 0 <= openLayer < |layers| && layers[openLayer].IsOpen()
      ensures openLayer != -1 ==> forall j :: 0 <= j < openLayer ==> !layers[j].IsOpen()
      ensures numOpen == 0 <==> openLayer == -1 || forall j :: openLayer < j < |layers| ==> !layers[j].IsOpen()
    {
      newOrder, openLayer, numOpen := 0, -1, 0;
      for j := 0 to |layers|
        invariant IsNewOrder(layers, j, -1, priority, newOrder)
        invariant openLayer == -1 ==> numOpen == 0 && forall k :: 0 <= k < j ==> !layers[k].IsOpen()
        invariant openLayer != -1 ==> 0 <= openLayer < j && layers[openLayer].IsOpen()
        invariant openLayer != -1 ==> forall k :: 0 <= k < openLayer ==> !layers[k].IsOpen()
        invariant 0 <= numOpen && (numOpen == 0 <==> openLayer == -1 || forall k :: openLayer < k < j ==> !layers[k].IsOpen())
      {
        if layers[j].IsActive() {
          if layers[j].priority <= priority {
            newOrder := if newOrder < layers[j].order + 1 then layers[j].order + 1 else newOrder;
          }
        } else if layers[j].IsDying() {
          // skip
        } else if openLayer == -1 {
          openLayer := j;
        } else {
          numOpen := numOpen + 1;
        }
      }
    }

    /** `AddToTail` followed by `Init`. */
    method AddToTail()
      requires Valid() && |layers| < MAX_OVERLAYS
      modifies this`layers
      ensures Valid() && layers == old(layers) + [INITIAL]
    {
      layers := layers + [INITIAL];
      forall k | 0 <= k < |ordered|
        ensures RanksAt(layers, ordered, k)
      {
        assert RanksAt(old(layers), ordered, k);
      }
      forall j | 0 <= j < |layers|
        ensures SlotOk(layers, ordered, j)
      {
        assert j < |old(layers)| ==> SlotOk(old(layers), ordered, j);
      }
    }

    /** Lines 551-557. */
    method OpenGapBelowMax(newOrder: int)
      requires Valid() && 0 <= newOrder && |ordered| < MAX_OVERLAYS
      modifies this`layers
      ensures |layers| == |old(layers)|
      ensures forall j :: 0 <= j < |layers| ==> layers[j] == Opened(old(layers)[j], newOrder)
    {
      var j := 0;
      while j < |layers|
        invariant 0 <= j <= |layers| == |old(layers)|
        invariant forall k :: 0 <= k < j ==> layers[k] == Opened(old(layers)[k], newOrder)
        invariant forall k :: j <= k < |layers| ==> layers[k] == old(layers)[k]
      {
        assert SlotOk(old(layers), ordered, j);
        if layers[j].order >= newOrder && layers[j].order < MAX_OVERLAYS {
          layers := layers[j := layers[j].(order := layers[j].order + 1)];
        }
        j := j + 1;
      }
    }

    // ---------- Gestures ----------

    /** Changing what a layer plays, or marking it for removal, leaves the sequence alone. */
    method SetLayer(i: int, l: AnimationLayer)
      requires Valid() && IsValidLayer(i) && l.IsActive() && l.order == layers[i].order && l.priority == layers[i].priority
      requires l.IsLive() ==> forall j :: 0 <= j < |layers| && j != i && layers[j].IsLive() ==> layers[j].activity != l.activity
      modifies this`layers
      ensures Valid() && layers == old(layers)[i := l]
    {
      layers := layers[i := l];
      forall k | 0 <= k < |ordered|
        ensures RanksAt(layers, ordered, k)
      {
        assert RanksAt(old(layers), ordered, k);
      }
      forall j | 0 <= j < |layers|
        ensures SlotOk(layers, ordered, j)
      {
        assert SlotOk(old(layers), ordered, j);
      }
    }

    /** `AddLayeredSequence`. */
    method AddLayeredSequence(sequence: int, priority: int) returns (i: int)
      requires Valid()
      modifies this
      ensures Valid()
      ensures i == -1 <==> old(NoRoom())
      ensures i == -1 ==> layers == old(layers) && ordered == old(ordered)
      ensures i != -1 ==> Allocated(old(layers), old(ordered), layers, ordered, i, priority)
      ensures i != -1 ==>
                layers[i].flags == {Active} && layers[i].activity == ACT_INVALID && layers[i].sequence == sequence
    {
      hide PutIn, Ranked, ByPriority;
      i := AllocateLayer(priority);
      if IsValidLayer(i) {
        var l := layers[i].(activity := ACT_INVALID, sequence := sequence);
        AllocatedStays(old(layers), old(ordered), layers, ordered, i, priority, l);
        SetLayer(i, l);
      }
    }

    /** `AddGestureSequence`: a layer of priority 0. */
    method AddGestureSequence(sequence: int, autokill: bool) returns (i: int)
      requires Valid()
      modifies this
      ensures Valid()
      ensures i == -1 <==> old(NoRoom())
      ensures i == -1 ==> layers == old(layers) && ordered == old(ordered)
      ensures i != -1 ==> Allocated(old(layers), old(ordered), layers, ordered, i, 0)
      ensures i != -1 ==>
                && layers[i].flags == (if autokill then {Active, Autokill} else {Active})
                && layers[i].activity == ACT_INVALID && layers[i].sequence == sequence
    {
      hide PutIn, Ranked, ByPriority;
      i := AddLayeredSequence(sequence, 0);
      if IsValidLayer(i) {
        var flags := layers[i].flags;
        var l := layers[i].(flags := if autokill then flags + {Autokill} else flags - {Autokill});
        AllocatedStays(old(layers), old(ordered), layers, ordered, i, 0, l);
        SetLayer(i, l);
      }
    }

    /** `FindGestureLayer`: the one layer that plays the activity live, or -1. */
    method FindGestureLayer(activity: int) returns (i: int)
      requires Valid()
      ensures i == -1 <==> !IsPlaying(activity)
      ensures i != -1 ==> 0 <= i < |layers| && layers[i].IsLive() && layers[i].activity == activity
      ensures forall j :: 0 <= j < |layers| && layers[j].IsLive() && layers[j].activity == activity ==> j == i
    {
      i := 0;
      while i < |layers|
        invariant 0 <= i <= |layers|
        invariant forall j :: 0 <= j < i ==> !(layers[j].IsLive() && layers[j].activity == activity)
      {
        var layer := layers[i];
        if layer.IsActive() && !layer.IsKillMe() && layer.activity != ACT_INVALID && layer.activity == activity {
          return;
        }
        i := i + 1;
      }
      i := -1;
    }

    ghost predicate IsPlaying(activity: int)
      reads this`layers
    {
      exists i :: 0 <= i < |layers| && layers[i].IsLive() && layers[i].activity == activity
    }

    /** `AddGesture`: `sequence` is what the model selects for the activity. The layer that is returned is
        from then on the one that plays the activity. */
    method AddGesture(activity: int, sequence: int, autokill: bool) returns (i: int)
      requires Valid()
      modifies this
      ensures Valid()
      ensures i == -1 <==> !old(IsPlaying(activity)) && (sequence <= 0 || old(NoRoom()))
      ensures i == -1 || old(IsPlaying(activity)) ==> layers == old(layers) && ordered == old(ordered)
      ensures i != -1 ==> 0 <= i < |layers| && layers[i].IsActive() && layers[i].activity == activity
      ensures i != -1 && activity != ACT_INVALID ==>
                forall j :: 0 <= j < |layers| ==> (layers[j].IsLive() && layers[j].activity == activity <==> j == i)
      ensures i != -1 && !old(IsPlaying(activity)) ==>
                && Allocated(old(layers), old(ordered), layers, ordered, i, 0)
                && layers[i].flags == (if autokill then {Active, Autokill} else {Active}) && layers[i].sequence == sequence
    {
      hide PutIn, Ranked, ByPriority;
      i := FindGestureLayer(activity);
      if i != -1 {
        return;
      }
      if sequence <= 0 {
        return -1;
      }
      i := AddGestureSequence(sequence, autokill);
      if i != -1 {
        assert forall j :: 0 <= j < |layers| && j != i && layers[j].IsLive() ==>
          j < |old(layers)| && old(layers)[j].IsLive() && layers[j].activity == old(layers)[j].activity;
        var l := layers[i].(activity := activity);
        AllocatedStays(old(layers), old(ordered), layers, ordered, i, 0, l);
        SetLayer(i, l);
      }
    }

    /** `RemoveLayer`: the layer is marked for removal and keeps its place until it has faded out. */
    method RemoveLayer(i: int)
      requires Valid()
      modifies this`layers
      ensures Valid()
      ensures layers == if !old(IsValidLayer(i)) then old(layers)
                        else old(layers)[i := old(layers)[i].(flags := old(layers)[i].flags + {KillMe})]
    {
      if IsValidLayer(i) {
        SetLayer(i, layers[i].(flags := layers[i].flags + {KillMe}));
      }
    }

    /** `RemoveGesture`: afterwards the activity is not playing. */
    method RemoveGesture(activity: int)
      requires Valid()
      modifies this`layers
      ensures Valid() && !IsPlaying(activity)
      ensures !old(IsPlaying(activity)) ==> layers == old(layers)
      ensures |layers| == |old(layers)|
      ensures forall j :: 0 <= j < |layers| && layers[j] != old(layers)[j] ==>
                old(layers)[j].activity == activity && layers[j] == old(layers)[j].(flags := old(layers)[j].flags + {KillMe})
    {
      var i := FindGestureLayer(activity);
      if i == -1 {
        return;
      }
      RemoveLayer(i);
    }

    /** `RemoveAllGestures` marks every active layer. */
    method RemoveAllGestures()
      requires Valid()
      modifies this`layers
      ensures Valid() && |layers| == |old(layers)|
      ensures forall j :: 0 <= j < |layers| ==>
                layers[j] == if old(layers)[j].IsActive() then old(layers)[j].(flags := old(layers)[j].flags + {KillMe})
                             else old(layers)[j]
    {
      hide Ranked, ByPriority, GesturesOk;
      var i := 0;
      while i < |layers|
        invariant 0 <= i <= |layers| == |old(layers)| && Valid()
        invariant forall j :: 0 <= j < i ==>
                    layers[j] == if old(layers)[j].IsActive() then old(layers)[j].(flags := old(layers)[j].flags + {KillMe})
                                 else old(layers)[j]
        invariant forall j :: i <= j < |layers| ==> layers[j] == old(layers)[j]
      {
        RemoveLayer(i);
        i := i + 1;
      }
    }

    /** `Dying` and `Dead` on a slot that is not in use. */
    method SetDying(i: nat, dying: bool)
      requires Valid() && i < |layers| && !layers[i].IsActive()
      modifies this`layers
      ensures Valid()
      ensures layers == old(layers)[i := old(layers)[i].(flags := if dying then old(layers)[i].flags + {Dying}
                                                                 else old(layers)[i].flags - {Dying})]
    {
      layers := layers[i := layers[i].(flags := if dying then layers[i].flags + {Dying} else layers[i].flags - {Dying})];
      forall k | 0 <= k < |ordered|
        ensures RanksAt(layers, ordered, k)
      {
        assert RanksAt(old(layers), ordered, k);
      }
      forall j | 0 <= j < |layers|
        ensures SlotOk(layers, ordered, j)
      {
        assert SlotOk(old(layers), ordered, j);
      }
    }
  }
}
