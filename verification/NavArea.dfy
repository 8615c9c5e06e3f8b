/** Nav areas with the per-area search fields, and the linked open list threaded through them
    (extension/sourcesdk/nav_area.h:156-199, 524-572; extension/sourcesdk/nav_area.cpp:12-14, 640-823). */
module NavAreas {
  import opened OpenList

  newtype uint32 = x: int | 0 <= x < 0x1_0000_0000

  datatype Traverse =
    | GoNorth | GoEast | GoSouth | GoWest
    | GoLadderUp | GoLadderDown | GoElevatorUp | GoElevatorDown
    | NumTraverseTypes

  class NavArea {
    const id: nat
    var marker: uint32
    var totalCost: real
    var costSoFar: real
    var nextOpen: NavArea?
    var prevOpen: NavArea?
    var openMarker: uint32
    var parent: NavArea?
    var parentHow: Traverse
    var pathLengthSoFar: real

    constructor (id: nat)
      ensures this.id == id && marker == 0 && openMarker == 0
    {
      this.id := id;
      marker, openMarker := 0, 0;
      totalCost, costSoFar, pathLengthSoFar := 0.0, 0.0, 0.0;
      nextOpen, prevOpen, parent := null, null, null;
      parentHow := NumTraverseTypes;
    }
  }

  /** `MakeNewMarker`: a 32-bit counter that skips zero when it wraps. */
  function NextMarker(m: uint32): (r: uint32)
    ensures r != 0
  {
    if m == 0xFFFF_FFFF then 1 else m + 1
  }

  /** The marker after n more searches. */
  ghost function MarkerAfter(m: uint32, n: nat): uint32 {
    if n == 0 then m else NextMarker(MarkerAfter(m, n - 1))
  }

  /** The counter runs through all markers but zero: one that has been used comes back after 2^32 - 1 searches, and
      not before. */
  lemma MarkerComesBack(m: uint32, n: nat)
    requires m != 0
    ensures MarkerAfter(m, n) == m <==> n % 0xFFFF_FFFF == 0
  {
    MarkersCount(m, n);
  }

  lemma {:induction false} MarkersCount(m: uint32, n: nat)
    requires m != 0
    ensures MarkerAfter(m, n) as int == 1 + (m as int - 1 + n) % 0xFFFF_FFFF
  {
    if 0 < n {
      MarkersCount(m, n - 1);
    }
  }

  function At(s: seq<NavArea>, k: int): NavArea? {
    if 0 <= k < |s| then s[k] else null
  }

  lemma SwappedContents<T>(s: seq<T>, r: seq<T>, k: nat)
    requires 0 < k < |s| && Distinct(s) && r == s[k - 1 := s[k]][k := s[k - 1]]
    ensures |r| == |s| && Distinct(r)
    ensures r[k - 1] == s[k] && r[k] == s[k - 1] && forall j :: 0 <= j < |s| && j != k - 1 && j != k ==> r[j] == s[j]
  {
  }

  /** p splits the list into areas at most as dear as c, then areas starting with a dearer one. */
  ghost predicate Splits(s: seq<NavArea>, p: nat, c: real)
    reads s`totalCost
  {
    && p <= |s|
    && (forall i :: 0 <= i < p ==> s[i].totalCost <= c)
    && (p < |s| ==> c < s[p].totalCost)
  }

  /** The static members of `CNavArea`. `open` is the list that the links stand for. */
  class SearchLists {
    const areas: set<NavArea>
    var masterMarker: uint32
    var openList: NavArea?
    var openListTail: NavArea?
    ghost var open: seq<NavArea>

    constructor (areas: set<NavArea>)
      requires forall a :: a in areas ==> a.openMarker != 1
      ensures this.areas == areas && masterMarker == 1 && open == []
      ensures ListOk() && TailOk()
    {
      this.areas := areas;
      masterMarker := 1;
      openList, openListTail := null, null;
      open := [];
    }

    /** The links spell out `open`, front to back and back to front, and an area is on the list exactly
        when its marker is the master marker. Nothing is said about the tail pointer. */
    ghost predicate ListOk()
      reads this, areas`openMarker, areas`nextOpen, areas`prevOpen
    {
      && masterMarker != 0
      && Linked(open)
      && (forall a :: a in areas ==> (a.openMarker == masterMarker <==> a in open))
    }

    ghost predicate Linked(s: seq<NavArea>)
      reads this`openList, areas`nextOpen, areas`prevOpen
    {
      && Distinct(s)
      && openList == At(s, 0)
      && (forall k :: 0 <= k < |s| ==> s[k] in areas)
      && (forall k {:trigger s[k].nextOpen} :: 0 <= k < |s| ==> s[k].nextOpen == At(s, k + 1))
      && (forall k {:trigger s[k].prevOpen} :: 0 <= k < |s| ==> s[k].prevOpen == At(s, k - 1))
    }

    /** The tail pointer designates the last area of the list. */
    ghost predicate TailOk()
      reads this
    {
      openListTail == At(open, |open| - 1)
    }

    /** `CNavArea::IsOpen`. */
    predicate IsOpen(a: NavArea)
      reads this`masterMarker, a`openMarker
    {
      a.openMarker == masterMarker
    }

    /** `CNavArea::IsClosed`: marked, and not on the open list. */
    predicate IsClosed(a: NavArea)
      reads this`masterMarker, a`openMarker, a`marker
    {
      a.marker == masterMarker && !IsOpen(a)
    }

    /** `CNavArea::AddToClosedList`. */
    method AddToClosedList(a: NavArea)
      modifies a`marker
      ensures a.marker == masterMarker
    {
      a.marker := masterMarker;
    }

    /** `CNavArea::ClearSearchLists`. No stored marker equals the fresh one (no reuse after 2^32 searches). */
    method ClearSearchLists()
      requires forall a :: a in areas ==>
        a.openMarker != NextMarker(masterMarker) && a.marker != NextMarker(masterMarker)
      modifies this
      ensures masterMarker == NextMarker(old(masterMarker)) && open == []
      ensures ListOk() && TailOk()
      ensures forall a :: a in areas ==> !IsOpen(a) && !IsClosed(a)
    {
      masterMarker := NextMarker(masterMarker);
      openList, openListTail := null, null;
      open := [];
    }

    /** `CNavArea::AddToOpenList`: in front of the first strictly dearer area. The tail pointer becomes
        right when the area goes last, and otherwise stays as right or wrong as it was. */
    method AddToOpenList(a: NavArea) returns (ghost p: nat)
      requires ListOk() && a in areas
      modifies this`openList, this`openListTail, this`open, a`openMarker, areas`nextOpen, areas`prevOpen
      ensures ListOk()
      ensures if old(IsOpen(a)) then open == old(open)
              else Splits(old(open), p, a.totalCost) && Inserted(open, old(open), p, a)
      ensures TailOk() <==> old(TailOk()) || (!old(IsOpen(a)) && p == |old(open)|)
    {
      p := 0;
      if !IsOpen(a) {
        a.openMarker := masterMarker;
        if openList == null {
          LinkOnly(a);
        } else {
          p := InsertOrdered(a);
        }
      }
    }

    /** Lines 655-662: the area becomes the whole list. */
    method LinkOnly(a: NavArea)
      requires a in areas
      modifies this`openList, this`openListTail, this`open, a`nextOpen, a`prevOpen
      ensures open == [a] && Linked(open) && openListTail == a
    {
      openList, openListTail := a, a;
      a.prevOpen, a.nextOpen := null, null;
      open := [a];
    }

    /** Lines 665-702: insert into a non-empty list in ascending cost order. */
    method InsertOrdered(a: NavArea) returns (ghost p: nat)
      requires Linked(open) && a in areas && a !in open && open != []
      modifies this`openList, this`openListTail, this`open, areas`nextOpen, areas`prevOpen
      ensures Splits(old(open), p, a.totalCost) && Inserted(open, old(open), p, a)
      ensures Linked(open) && (forall b :: b in open <==> b in old(open) || b == a)
      ensures TailOk() <==> old(TailOk()) || p == |old(open)|
    {
      hide Linked, Distinct, InsertAt;
      DistinctOpen();
      var area, last;
      area, last, p := FindSpot(a);
      ghost var r := InsertAt(open, p, a);
      InsertContents(open, p, a);
      if area != null {
        LinkBefore(a, area, p, r);
      } else {
        LinkLast(a, last, r);
      }
      assert r[|r| - 1] == if p == |open| then a else open[|open| - 1];
      open := r;
    }

    /** Lines 665-674: the first strictly dearer area, and the one before it. */
    method FindSpot(a: NavArea) returns (area: NavArea?, last: NavArea?, ghost k: nat)
      requires Linked(open)
      ensures Splits(open, k, a.totalCost)
      ensures area == At(open, k) && last == At(open, k - 1)
    {
      area, last, k := openList, null, 0;
      while area != null && !(a.totalCost < area.totalCost)
        invariant 0 <= k <= |open|
        invariant area == At(open, k) && last == At(open, k - 1)
        invariant forall i :: 0 <= i < k ==> open[i].totalCost <= a.totalCost
        decreases |open| - k
      {
        last := area;
        area := area.nextOpen;
        k := k + 1;
      }
    }

    /** Lines 675-691. */
    method LinkBefore(a: NavArea, area: NavArea, ghost k: nat, ghost r: seq<NavArea>)
      requires Linked(open) && a in areas && k < |open| && area == open[k]
      requires Inserted(r, open, k, a) && Distinct(r)
      modifies this`openList, areas`nextOpen, areas`prevOpen
      ensures Linked(r)
    {
      a.prevOpen := area.prevOpen;
      if a.prevOpen != null {
        a.prevOpen.nextOpen := a;
      } else {
        openList := a;
      }
      a.nextOpen := area;
      area.prevOpen := a;
      assert r[k] == a && r[k + 1] == area && (0 < k ==> r[k - 1] == old(area.prevOpen));
      forall i | 0 <= i < |r|
        ensures r[i] in areas && r[i].nextOpen == At(r, i + 1) && r[i].prevOpen == At(r, i - 1)
      {
        assert i < k ==> r[i] == open[i];
        assert k < i ==> r[i] == open[i - 1];
      }
    }

    /** Lines 692-702. */
    method LinkLast(a: NavArea, last: NavArea, ghost r: seq<NavArea>)
      requires Linked(open) && a in areas && open != [] && last == open[|open| - 1]
      requires Inserted(r, open, |open|, a) && Distinct(r)
      modifies this`openListTail, areas`nextOpen, areas`prevOpen
      ensures Linked(r) && openListTail == a
    {
      last.nextOpen := a;
      a.prevOpen := last;
      a.nextOpen := null;
      openListTail := a;
    }

    /** `CNavArea::AddToOpenListTail` trusts the tail pointer. */
    method AddToOpenListTail(a: NavArea)
      requires ListOk() && TailOk() && a in areas
      modifies this`openList, this`openListTail, this`open, a`openMarker, areas`nextOpen, areas`prevOpen
      ensures ListOk() && TailOk()
      ensures open == if old(IsOpen(a)) then old(open) else old(open) + [a]
    {
      if !IsOpen(a) {
        a.openMarker := masterMarker;
        if openList == null {
          LinkOnly(a);
        } else {
          ghost var r := open + [a];
          LinkLast(a, openListTail, r);
          open := r;
        }
      }
    }

    /** `CNavArea::RemoveFromOpenList` for an area at position k of the list, or one whose marker is zero: then
        nothing happens. Taking out the last area repairs the tail pointer; otherwise it stays as it was. The
        removed area keeps its own links. */
    method RemoveFromOpenList(a: NavArea, ghost k: nat)
      requires ListOk() && (a.openMarker == 0 || (k < |open| && a == open[k]))
      modifies this`openList, this`openListTail, this`open, a`openMarker, areas`nextOpen, areas`prevOpen
      ensures ListOk() && a !in open && a.openMarker == 0
      ensures old(a.openMarker) == 0 ==> open == old(open) && (TailOk() <==> old(TailOk()))
      ensures old(a.openMarker) != 0 ==>
                open == Without(old(open), k) && (TailOk() <==> old(TailOk()) || k == |old(open)| - 1)
    {
      if a.openMarker != 0 {
        RemoveListed(a, k);
      }
    }

    lemma DistinctOpen()
      requires Linked(open)
      ensures Distinct(open) && openList == At(open, 0) && forall i :: 0 <= i < |open| ==> open[i] in areas
    {
    }

    /** Lines 747-767. */
    method RemoveListed(a: NavArea, ghost k: nat)
      requires ListOk() && k < |open| && a == open[k]
      modifies this`openList, this`openListTail, this`open, a`openMarker, areas`nextOpen, areas`prevOpen
      ensures ListOk() && open == Without(old(open), k) && a !in open && a.openMarker == 0
      ensures TailOk() <==> old(TailOk()) || k == |old(open)| - 1
    {
      hide Linked, Distinct, Without;
      DistinctOpen();
      WithoutContents(open, k);
      Unlink(a, k);
      a.openMarker := 0;
      open := Without(open, k);
    }

    /** Lines 748-764. */
    method Unlink(a: NavArea, ghost k: nat)
      requires Linked(open) && k < |open| && a == open[k]
      modifies this`openList, this`openListTail, areas`nextOpen, areas`prevOpen
      ensures Linked(Without(open, k))
      ensures openListTail == if k == |open| - 1 then At(open, k - 1) else old(openListTail)
    {
      if a.prevOpen != null {
        a.prevOpen.nextOpen := a.nextOpen;
      } else {
        openList := a.nextOpen;
      }
      if a.nextOpen != null {
        a.nextOpen.prevOpen := a.prevOpen;
      } else {
        openListTail := a.prevOpen;
      }
      WithoutContents(open, k);
    }

    /** `CNavArea::PopOpenList`. */
    method PopOpenList() returns (a: NavArea?)
      requires ListOk()
      modifies this`openList, this`openListTail, this`open, areas`openMarker, areas`nextOpen, areas`prevOpen
      ensures ListOk()
      ensures a == At(old(open), 0)
      ensures a != null ==> open == old(open)[1..] && a.openMarker == 0 && a.prevOpen == null && a.nextOpen == null
      ensures a == null ==> open == old(open)
      ensures TailOk() <==> old(TailOk()) || |old(open)| == 1
    {
      hide Linked, Without;
      DistinctOpen();
      a := openList;
      if a != null {
        RemoveFromOpenList(a, 0);
        WithoutFirst(old(open));
        ForgetLinks(a);
      }
    }

    static lemma WithoutFirst(s: seq<NavArea>)
      requires s != []
      ensures Without(s, 0) == s[1..]
    {
    }

    /** The links of an area that is not on the list do not matter. */
    method ForgetLinks(a: NavArea)
      requires ListOk() && a !in open
      modifies a`nextOpen, a`prevOpen
      ensures ListOk() && a.prevOpen == null && a.nextOpen == null
    {
      assert forall i :: 0 <= i < |open| ==> open[i] != a;
      a.prevOpen, a.nextOpen := null, null;
    }

    /** `CNavArea::UpdateOnOpenList`: the area at position k bubbles up past strictly dearer ones to q.
        Lines 800-807 set the tail pointer to the moved area, not to the one it swapped with, when the area
        was last: the tail survives exactly when the area was not last, or nothing dearer was in front of it. */
    method UpdateOnOpenList(a: NavArea, ghost k: nat) returns (ghost q: nat)
      requires ListOk() && k < |open| && a == open[k]
      modifies this`openList, this`openListTail, this`open, areas`nextOpen, areas`prevOpen
      ensures ListOk()
      ensures q <= k && Moved(open, old(open), q, k)
      ensures forall i :: q <= i < k ==> a.totalCost < old(open)[i].totalCost
      ensures 0 < q ==> old(open)[q - 1].totalCost <= a.totalCost
      ensures TailOk() <==>
                old(TailOk()) && (k < |old(open)| - 1 || k == 0 || old(open)[k - 1].totalCost <= a.totalCost)
    {
      hide Linked, Moved, Distinct;
      DistinctOpen();
      ghost var was, tail := open, openListTail;
      q := BubbleUp(a, k);
      MovedContents(open, was, q, k);
      TailSurvives(open, was, q, k, tail);
      assert q < k ==> a.totalCost < was[k - 1].totalCost;
    }

    /** The tail pointer of the loop against the last area of the list. */
    static lemma TailSurvives(r: seq<NavArea>, s: seq<NavArea>, q: nat, k: nat, tail: NavArea?)
      requires q <= k < |s| && Moved(r, s, q, k) && Distinct(s)
      ensures |r| == |s|
      ensures (if q < k == |s| - 1 then s[k] else tail) == At(r, |r| - 1) <==>
                tail == At(s, |s| - 1) && !(q < k == |s| - 1)
    {
      hide Moved;
      MovedLast(r, s, q, k);
    }

    /** Lines 778-807: the loop. */
    method BubbleUp(a: NavArea, ghost k: nat) returns (ghost q: nat)
      requires Linked(open) && k < |open| && a == open[k]
      modifies this`openList, this`openListTail, this`open, areas`nextOpen, areas`prevOpen
      ensures Linked(open) && q <= k && Moved(open, old(open), q, k)
      ensures forall i :: q <= i < k ==> a.totalCost < old(open)[i].totalCost
      ensures 0 < q ==> old(open)[q - 1].totalCost <= a.totalCost
      ensures openListTail == if q < k == |old(open)| - 1 then a else old(openListTail)
    {
      ghost var was := open;
      q := k;
      while a.prevOpen != null && a.totalCost < a.prevOpen.totalCost
        invariant q <= k && Moved(open, was, q, k) && Linked(open)
        invariant forall i :: q <= i < k ==> a.totalCost < was[i].totalCost
        invariant openListTail == if q < k == |was| - 1 then a else old(openListTail)
        decreases q
      {
        assert a == open[q];
        SwapMoves(open, was, q, k);
        SwapWithPrevious(a, q);
        q := q - 1;
      }
      assert 0 < q ==> open[q - 1] == was[q - 1];
    }

    /** Lines 780-807: one turn of the loop. */
    method SwapWithPrevious(a: NavArea, ghost k: nat)
      requires Linked(open) && 0 < k < |open| && a == open[k]
      modifies this`openList, this`openListTail, this`open, areas`nextOpen, areas`prevOpen
      ensures open == old(open)[k - 1 := a][k := old(open)[k - 1]] && Linked(open)
      ensures openListTail == if k == |open| - 1 then a else old(openListTail)
    {
      ghost var s := open;
      Exchange(a, k);
      hide Exchanged, Linked;
      open := s[k - 1 := s[k]][k := s[k - 1]];
      SwappedLinked(s, open, k);
    }

    /** Lines 781-798 and 800-807: the writes. */
    method Exchange(a: NavArea, ghost k: nat)
      requires Linked(open) && 0 < k < |open| && a == open[k]
      modifies this`openList, this`openListTail, areas`nextOpen, areas`prevOpen
      ensures Exchanged(open, k) && openListTail == if k == |open| - 1 then a else old(openListTail)
      ensures Distinct(open) && forall i :: 0 <= i < |open| ==> open[i] in areas
    {
      var other := a.prevOpen;
      var before := other.prevOpen;
      var after := a.nextOpen;
      a.nextOpen := other;
      a.prevOpen := before;
      other.prevOpen := a;
      other.nextOpen := after;
      if before != null {
        before.nextOpen := a;
      } else {
        openList := a;
      }
      if after != null {
        after.prevOpen := other;
      } else {
        openListTail := a;
      }
    }

    /** The links of two neighbours, k - 1 and k, and of those around them have been exchanged. */
    ghost predicate Exchanged(s: seq<NavArea>, k: nat)
      requires 0 < k < |s|
      reads areas, s, this`openList
    {
      && (forall i {:trigger s[i].nextOpen} :: 0 <= i < |s| ==>
            s[i].nextOpen ==
            if i == k then s[k - 1] else if i == k - 1 then At(s, k + 1) else if i == k - 2 then s[k] else At(s, i + 1))
      && (forall i {:trigger s[i].prevOpen} :: 0 <= i < |s| ==>
            s[i].prevOpen ==
            if i == k then At(s, k - 2) else if i == k - 1 then s[k] else if i == k + 1 then s[k - 1] else At(s, i - 1))
      && openList == (if k == 1 then s[k] else s[0])
    }

    lemma SwappedLinked(s: seq<NavArea>, r: seq<NavArea>, k: nat)
      requires 0 < k < |s| && Distinct(s) && (forall i :: 0 <= i < |s| ==> s[i] in areas)
      requires r == s[k - 1 := s[k]][k := s[k - 1]] && Exchanged(s, k)
      ensures Linked(r)
    {
      SwappedContents(s, r, k);
      forall i | 0 <= i < |r|
        ensures r[i] in areas && r[i].nextOpen == At(r, i + 1) && r[i].prevOpen == At(r, i - 1)
      {
        assert r[i] == s[if i == k then k - 1 else if i == k - 1 then k else i];
      }
    }
  }

  /** A concrete list whose tail pointer goes wrong: the second of two areas gets cheaper than the first. */
  method TailGoesWrong() returns (lists: SearchLists)
    ensures fresh(lists) && lists.ListOk() && |lists.open| == 2 && !lists.TailOk()
  {
    var a := new NavArea(0);
    var b := new NavArea(1);
    lists := new SearchLists({a, b});
    a.totalCost, b.totalCost := 1.0, 2.0;
    var _ := lists.AddToOpenList(a);
    var _ := lists.AddToOpenList(b);
    b.totalCost := 0.0;
    var _ := lists.UpdateOnOpenList(b, 1);
  }
}
