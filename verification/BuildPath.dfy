/** `NavAreaBuildPath` on the nav areas themselves (extension/sourcesdk/nav_mesh.cpp:147-467). */
module BuildPaths {
  import opened OpenList
  import opened NavAreas
  import opened NavGraphs
  import opened AStar
  import opened AStarTheorems
  import opened PathCosts
  import opened SearchRuns
  import opened Wrappers

  // ---------- The list order after a relaxation ----------

  /** The estimates along a list of reached areas. */
  ghost function Estimates(p: Problem, cost: map<nat, real>, s: seq<nat>): (t: seq<real>)
    requires forall i :: 0 <= i < |s| ==> s[i] in cost && s[i] < |p.h|
    ensures |t| == |s| && forall i :: 0 <= i < |s| ==> t[i] == Total(p, cost, s[i])
  {
    seq(|s|, i requires 0 <= i < |s| => Total(p, cost, s[i]))
  }

  /** A newly reached area, inserted where it splits the list. */
  lemma InsertKeepsOpenOk(p: Problem, s: State, s': State, k: nat, v: nat)
    requires OpenOk(p, s) && v < |p.h| && v in s'.cost && k <= |s.open| && Inserted(s'.open, s.open, k, v)
    requires forall i :: 0 <= i < |s.open| ==>
      s.open[i] in s.cost && s.open[i] < |p.h| && s.open[i] in s'.cost && s'.cost[s.open[i]] == s.cost[s.open[i]]
    requires forall i :: 0 <= i < k ==> Total(p, s'.cost, s.open[i]) <= Total(p, s'.cost, v)
    requires k < |s.open| ==> Total(p, s'.cost, v) < Total(p, s'.cost, s.open[k])
    ensures OpenOk(p, s')
  {
    hide Inserted;
    var t := Estimates(p, s'.cost, s.open);
    assert forall i :: 0 <= i < |t| ==> t[i] == Total(p, s.cost, s.open[i]);
    InsertedEstimates(p, s'.cost, s.open, s'.open, k, v);
    InsertedIsSorted(Estimates(p, s'.cost, s'.open), t, k, Total(p, s'.cost, v));
    var r := Estimates(p, s'.cost, s'.open);
    assert forall i, j :: 0 <= i < j < |r| ==> r[i] <= r[j];
  }

  lemma InsertedEstimates(p: Problem, cost: map<nat, real>, s: seq<nat>, r: seq<nat>, k: nat, v: nat)
    requires forall i :: 0 <= i < |s| ==> s[i] in cost && s[i] < |p.h|
    requires k <= |s| && Inserted(r, s, k, v) && v in cost && v < |p.h|
    ensures forall v :: v in r ==> v in cost && v < |p.h|
    ensures forall i :: 0 <= i < |r| ==> r[i] in cost && r[i] < |p.h|
    ensures Inserted(Estimates(p, cost, r), Estimates(p, cost, s), k, Total(p, cost, v))
  {
    InsertedContents(r, s, k, v);
    assert forall i :: 0 <= i < |r| ==> r[i] in r;
  }

  /** An open area that got cheaper, moved up past the dearer ones. */
  lemma MoveKeepsOpenOk(p: Problem, s: State, s': State, q: nat, k: nat)
    requires OpenOk(p, s) && Distinct(s.open) && q <= k < |s.open| && s.open[k] != p.start && Moved(s'.open, s.open, q, k)
    requires forall i :: 0 <= i < |s.open| ==>
      && s.open[i] in s.cost && s.open[i] < |p.h| && s.open[i] in s'.cost
      && s'.cost[s.open[i]] <= s.cost[s.open[i]]
      && (if i == k then s'.cost[s.open[i]] < s.cost[s.open[i]] else s'.cost[s.open[i]] == s.cost[s.open[i]])
    requires forall i :: q <= i < k ==> Total(p, s'.cost, s.open[k]) < Total(p, s'.cost, s.open[i])
    requires 0 < q ==> Total(p, s'.cost, s.open[q - 1]) <= Total(p, s'.cost, s.open[k])
    ensures OpenOk(p, s')
  {
    hide Moved, Without, InsertAt, InsertPos, Estimates;
    OneEstimateLess(p, s, s'.cost, k);
    MovedEstimates(p, s'.cost, s.open, s'.open, q, k);
    MovedIsSorted(Estimates(p, s'.cost, s'.open), Estimates(p, s'.cost, s.open), q, k);
    SortedIsOpenOk(p, s');
  }

  lemma OneEstimateLess(p: Problem, s: State, cost: map<nat, real>, k: nat)
    requires OpenOk(p, s) && Distinct(s.open) && k < |s.open| && s.open[k] != p.start
    requires forall i :: 0 <= i < |s.open| ==>
      && s.open[i] in s.cost && s.open[i] < |p.h| && s.open[i] in cost
      && (if i == k then cost[s.open[i]] < s.cost[s.open[i]] else cost[s.open[i]] == s.cost[s.open[i]])
    ensures var t := Estimates(p, cost, s.open);
            && (forall i, j :: 0 <= i < j < |t| && j != k && i != k ==> t[i] <= t[j])
            && (k + 1 < |t| ==> t[k] < t[k + 1])
  {
    var t := Estimates(p, cost, s.open);
    forall i, j | 0 <= i < j < |t| && j != k
      ensures t[i] <= t[j] && (i == k ==> t[i] < t[j])
    {
      assert t[i] <= Total(p, s.cost, s.open[i]) <= Total(p, s.cost, s.open[j]) == t[j];
    }
  }

  lemma SortedIsOpenOk(p: Problem, s: State)
    requires forall i :: 0 <= i < |s.open| ==> s.open[i] in s.cost && s.open[i] < |p.h|
    requires Sorted(Estimates(p, s.cost, s.open))
    ensures OpenOk(p, s)
  {
    var r := Estimates(p, s.cost, s.open);
    assert forall i, j :: 0 <= i < j < |r| ==> r[i] <= r[j];
  }

  lemma MovedEstimates(p: Problem, cost: map<nat, real>, s: seq<nat>, r: seq<nat>, q: nat, k: nat)
    requires forall i :: 0 <= i < |s| ==> s[i] in cost && s[i] < |p.h|
    requires q <= k < |s| && Moved(r, s, q, k)
    ensures forall v :: v in r ==> v in cost && v < |p.h|
    ensures forall i :: 0 <= i < |r| ==> r[i] in cost && r[i] < |p.h|
    ensures Moved(Estimates(p, cost, r), Estimates(p, cost, s), q, k)
  {
    MovedContents(r, s, q, k);
    assert forall i :: 0 <= i < |r| ==> r[i] in r;
  }

  /** The areas of the list, by id. */
  ghost predicate Names(table: seq<NavArea>, ids: seq<nat>, list: seq<NavArea>) {
    |list| == |ids| && forall k :: 0 <= k < |ids| ==> ids[k] < |table| && list[k] == table[ids[k]]
  }

  lemma NamesInserted(table: seq<NavArea>, ids: seq<nat>, list: seq<NavArea>, list': seq<NavArea>, k: nat, v: nat)
    requires Names(table, ids, list) && k <= |ids| && v < |table| && Inserted(list', list, k, table[v])
    ensures Names(table, InsertAt(ids, k, v), list')
  {
    InsertContents(ids, k, v);
  }

  lemma NamesMoved(table: seq<NavArea>, ids: seq<nat>, list: seq<NavArea>, list': seq<NavArea>, q: nat, k: nat)
    requires Names(table, ids, list) && q <= k < |ids| && Moved(list', list, q, k)
    ensures Names(table, MoveUp(ids, q, k), list')
  {
    MoveUpContents(ids, q, k);
  }

  class PathFinder {
    const mesh: seq<AreaLinks>
    const table: seq<NavArea>
    const lists: SearchLists

    constructor (mesh: seq<AreaLinks>, table: seq<NavArea>, lists: SearchLists)
      ensures this.mesh == mesh && this.table == table && this.lists == lists
    {
      this.mesh, this.table, this.lists := mesh, table, lists;
    }

    /** The areas of the mesh by id, and the open list that runs through them. */
    ghost predicate Wired() {
      && |table| == |mesh|
      && (forall i :: 0 <= i < |table| ==> table[i].id == i)
      && lists.areas == (set a | a in table)
      && WellFormed(mesh)
    }

    /** The problem is one of this mesh. */
    ghost predicate Poses(p: Problem) {
      && Wired() && ProblemOk(p) && |p.links| == |mesh|
      && (forall u :: 0 <= u < |mesh| ==> p.links[u] == Neighbors(mesh, mesh[u]))
    }

    /** The linked list is the open list of the search state. */
    ghost predicate ListAgrees(open: seq<nat>)
      requires Wired()
      reads lists, table`openMarker, table`nextOpen, table`prevOpen
    {
      lists.ListOk() && Names(table, open, lists.open)
    }

    ghost predicate CostsAgree(p: Problem, cost: map<nat, real>)
      requires Poses(p)
      reads table`costSoFar, table`totalCost
    {
      forall i :: i in cost && i < |table| ==>
        table[i].costSoFar == cost[i] && table[i].totalCost == Total(p, cost, i)
    }

    ghost predicate MarksAgree(marked: set<nat>)
      reads table`marker, lists`masterMarker
    {
      forall i :: 0 <= i < |table| ==> (table[i].marker == lists.masterMarker <==> i in marked)
    }

    ghost predicate ParentsAgree(start: nat, parent: map<nat, Edge>)
      reads table`parent, table`parentHow
    {
      && start < |table| && table[start].parent == null
      && (forall i :: i in parent && i < |table| ==>
            parent[i].from < |table| && table[i].parent == table[parent[i].from] && table[i].parentHow == parent[i].link.how)
    }

    ghost predicate LengthsAgree(p: Problem, length: map<nat, real>)
      reads table`pathLengthSoFar
    {
      p.maxPathLength > 0.0 ==> forall i :: i in length && i < |table| ==> table[i].pathLengthSoFar == length[i]
    }

    /** The areas are in the state that the search is in. */
    ghost predicate Agrees(p: Problem, s: State)
      requires Poses(p)
      reads this, lists, table
    {
      && Known(p, s) && ListAgrees(s.open)
      && CostsAgree(p, s.cost) && MarksAgree(s.marked) && ParentsAgree(p.start, s.parent) && LengthsAgree(p, s.length)
    }

    /** The closest area so far, and how far it is from the goal. */
    ghost predicate Tracks(p: Problem, s: State, closest: NavArea, closestDist: real) {
      s.closest < |table| && s.closest < |p.h| && closest == table[s.closest] && closestDist == p.h[s.closest]
    }

    lemma OpenMeansListed(open: seq<nat>, v: nat)
      requires Wired() && ListAgrees(open) && v < |table|
      ensures lists.IsOpen(table[v]) <==> v in open
    {
      assert table[v] in lists.areas;
      if table[v] in lists.open {
        var k :| 0 <= k < |lists.open| && lists.open[k] == table[v];
        assert open[k] == table[open[k]].id == v;
      }
      if v in open {
        var k :| 0 <= k < |open| && open[k] == v;
        assert lists.open[k] == table[v];
      }
    }

    /** Lines 434-459: `newArea` is reached at cost c over e; the list is put back in order. */
    method Improve(p: Problem, ghost s: State, ghost e: Edge, c: real, area: NavArea, newArea: NavArea, how: Traverse)
      returns (ghost s': State)
      requires Poses(p) && Agrees(p, s) && OpenOk(p, s)
      requires e.from in s.cost && e.from < |table| && area == table[e.from]
      requires e.link.to < |table| && newArea == table[e.link.to] && e.link.to !in {e.from, p.start} && how == e.link.how
      requires e.link.to in s.cost ==> c < s.cost[e.link.to]
      requires p.maxPathLength > 0.0 ==> e.link.to in s.length
      modifies lists, table
      ensures Improves(p, s, e, c, s') && s'.length == s.length
      ensures Agrees(p, s')
    {
      hide CostsAgree, MarksAgree, ParentsAgree, LengthsAgree, ListAgrees, OpenOk, Distinct, WellFormed, Known, Improves;
      KnownParts(p, s);
      ghost var v := e.link.to;
      assert newArea.id == v;
      SetCosts(p, s.cost, newArea, c);
      ghost var open := Reorder(p, s, s.cost[v := c], newArea);
      SetParent(p, s, e, area, newArea, how);
      ReachedImproves(p, s, e, c, open);
      s' := Reached(p, s, e, c, open);
    }

    lemma KnownParts(p: Problem, s: State)
      requires ProblemOk(p) && Known(p, s)
      ensures Distinct(s.open) && s.walk.Keys == s.cost.Keys && s.closest < |p.h|
    {
    }

    /** The state after e.link.to has been reached over e. */
    static ghost function Reached(p: Problem, s: State, e: Edge, c: real, open: seq<nat>): State
      requires e.from in s.walk && e.link.to < |p.h| && s.closest < |p.h|
    {
      var v := e.link.to;
      State(s.cost[v := c], s.parent[v := e], s.walk[v := s.walk[e.from] + [e]], open, s.marked, s.length,
            if p.h[v] < p.h[s.closest] then v else s.closest)
    }

    static lemma ReachedImproves(p: Problem, s: State, e: Edge, c: real, open: seq<nat>)
      requires ProblemOk(p) && Known(p, s) && e.from in s.walk && s.closest < |p.h|
      requires e.link.to < |p.links| && e.link.to != p.start && (p.maxPathLength > 0.0 ==> e.link.to in s.length)
      requires (forall x :: x in open <==> x in s.open || x == e.link.to) && Distinct(open)
      requires OpenOk(p, s.(cost := s.cost[e.link.to := c], open := open))
      ensures Improves(p, s, e, c, Reached(p, s, e, c, open)) && Known(p, Reached(p, s, e, c, open))
    {
      hide OpenOk, Distinct;
      SameOpenOk(p, s.(cost := s.cost[e.link.to := c], open := open), Reached(p, s, e, c, open));
    }

    static lemma SameOpenOk(p: Problem, s: State, s': State)
      requires OpenOk(p, s) && s'.cost == s.cost && s'.open == s.open
      ensures OpenOk(p, s')
    {
    }

    /** Lines 441-442. */
    method SetCosts(p: Problem, ghost cost: map<nat, real>, a: NavArea, c: real)
      requires Poses(p) && CostsAgree(p, cost) && a.id < |table| && a == table[a.id] && a.id != p.start
      modifies a`costSoFar, a`totalCost
      ensures CostsAgree(p, cost[a.id := c])
    {
      a.costSoFar := c;
      a.totalCost := c + p.h[a.id];
      assert forall i :: 0 <= i < |table| && table[i] == a ==> i == a.id;
    }

    /** Line 459. */
    method SetParent(p: Problem, ghost s: State, ghost e: Edge, area: NavArea, a: NavArea, how: Traverse)
      requires Wired() && ParentsAgree(p.start, s.parent) && how == e.link.how
      requires e.from < |table| && area == table[e.from] && e.link.to < |table| && a == table[e.link.to]
      requires e.link.to != p.start
      modifies a`parent, a`parentHow
      ensures ParentsAgree(p.start, s.parent[e.link.to := e])
    {
      a.parent, a.parentHow := area, how;
      assert forall i :: 0 <= i < |table| && table[i] == a ==> i == a.id;
    }

    /** Lines 449-457. */
    method Reorder(p: Problem, ghost s: State, ghost cost: map<nat, real>, a: NavArea) returns (ghost open: seq<nat>)
      requires Poses(p) && OpenOk(p, s) && Distinct(s.open) && ListAgrees(s.open)
      requires a.id < |table| && a == table[a.id] && a.id != p.start && CostsAgree(p, cost)
      requires cost.Keys == s.cost.Keys + {a.id} && (forall i :: i in s.cost && i != a.id ==> cost[i] == s.cost[i])
      requires a.id in s.cost ==> cost[a.id] < s.cost[a.id]
      modifies lists`openList, lists`openListTail, lists`open, table`nextOpen, table`prevOpen, a`openMarker
      ensures ListAgrees(open)
      ensures (forall x :: x in open <==> x in s.open || x == a.id) && Distinct(open)
      ensures OpenOk(p, s.(cost := cost, open := open))
    {
      OpenMeansListed(s.open, a.id);
      if lists.IsOpen(a) {
        open := RaiseOnList(p, s, cost, a);
      } else {
        open := PutOnList(p, s, cost, a);
      }
    }

    method RaiseOnList(p: Problem, ghost s: State, ghost cost: map<nat, real>, a: NavArea) returns (ghost open: seq<nat>)
      requires Poses(p) && OpenOk(p, s) && Distinct(s.open) && ListAgrees(s.open)
      requires a.id < |table| && a == table[a.id] && a.id in s.open && a.id != p.start && CostsAgree(p, cost)
      requires cost.Keys == s.cost.Keys && (forall i :: i in s.cost && i != a.id ==> cost[i] == s.cost[i])
      requires cost[a.id] < s.cost[a.id]
      modifies lists`openList, lists`openListTail, lists`open, table`nextOpen, table`prevOpen
      ensures ListAgrees(open)
      ensures (forall x :: x in open <==> x in s.open) && Distinct(open)
      ensures OpenOk(p, s.(cost := cost, open := open))
    {
      hide SearchLists.ListOk, MoveUp, Moved, Distinct, WellFormed, OpenOk;
      ghost var list := lists.open;
      ghost var k :| 0 <= k < |s.open| && s.open[k] == a.id;
      ghost var q := lists.UpdateOnOpenList(a, k);
      open := MoveUp(s.open, q, k);
      MoveUpContents(s.open, q, k);
      NamesMoved(table, s.open, list, lists.open, q, k);
      MovedInOrder(p, s, cost, list, q, k);
    }

    method PutOnList(p: Problem, ghost s: State, ghost cost: map<nat, real>, a: NavArea) returns (ghost open: seq<nat>)
      requires Poses(p) && OpenOk(p, s) && Distinct(s.open) && ListAgrees(s.open) && !lists.IsOpen(a)
      requires a.id < |table| && a == table[a.id] && a.id !in s.open && CostsAgree(p, cost) && a.id in cost
      requires forall i :: i in s.cost && i != a.id ==> i in cost && cost[i] == s.cost[i]
      modifies lists`openList, lists`openListTail, lists`open, table`nextOpen, table`prevOpen, a`openMarker
      ensures ListAgrees(open)
      ensures (forall x :: x in open <==> x in s.open || x == a.id) && Distinct(open) && |open| == |s.open| + 1
      ensures OpenOk(p, s.(cost := cost, open := open))
    {
      hide SearchLists.ListOk;
      ghost var list := lists.open;
      ghost var k := lists.AddToOpenList(a);
      open := InsertAt(s.open, k, a.id);
      InsertContents(s.open, k, a.id);
      NamesInserted(table, s.open, list, lists.open, k, a.id);
      InsertedInOrder(p, s, cost, list, k, a);
    }

    lemma InsertedInOrder(p: Problem, s: State, cost: map<nat, real>, list: seq<NavArea>, k: nat, a: NavArea)
      requires Poses(p) && OpenOk(p, s) && Names(table, s.open, list)
      requires a.id < |table| && a == table[a.id] && a.id !in s.open && a.id in cost && CostsAgree(p, cost)
      requires forall i :: i in s.cost && i != a.id ==> i in cost && cost[i] == s.cost[i]
      requires Splits(list, k, a.totalCost)
      ensures OpenOk(p, s.(cost := cost, open := InsertAt(s.open, k, a.id)))
    {
      hide InsertAt, Inserted, Distinct, WellFormed;
      var s' := s.(cost := cost, open := InsertAt(s.open, k, a.id));
      InsertContents(s.open, k, a.id);
      assert forall i :: 0 <= i < |s.open| ==> s.open[i] in s.open && list[i] == table[s.open[i]];
      InsertKeepsOpenOk(p, s, s', k, a.id);
    }

    lemma MovedInOrder(p: Problem, s: State, cost: map<nat, real>, list: seq<NavArea>, q: nat, k: nat)
      requires Poses(p) && OpenOk(p, s) && Names(table, s.open, list) && Distinct(s.open)
      requires q <= k < |s.open| && s.open[k] != p.start && CostsAgree(p, cost)
      requires forall i :: i in s.cost ==>
        i in cost && if i == s.open[k] then cost[i] < s.cost[i] else cost[i] == s.cost[i]
      requires forall i :: q <= i < k ==> list[k].totalCost < list[i].totalCost
      requires 0 < q ==> list[q - 1].totalCost <= list[k].totalCost
      ensures OpenOk(p, s.(cost := cost, open := MoveUp(s.open, q, k)))
    {
      hide MoveUp, Moved, Distinct, WellFormed, ProblemOk;
      var s' := s.(cost := cost, open := MoveUp(s.open, q, k));
      MoveUpContents(s.open, q, k);
      assert forall i :: 0 <= i < |s.open| ==> s.open[i] in s.open && list[i] == table[s.open[i]];
      MoveKeepsOpenOk(p, s, s', q, k);
    }

    /** What the fields of the expanded area and of its neighbour say about the state. */
    lemma ReadFields(p: Problem, s: State, e: Edge)
      requires Poses(p) && Agrees(p, s) && TreeOk(p, s) && IsEdge(p, e) && e.from in s.cost
      ensures e.from < |table| && e.link.to < |table|
      ensures table[e.from].id == e.from && table[e.link.to].id == e.link.to
      ensures table[e.from].costSoFar == s.cost[e.from]
      ensures table[e.link.to] == table[e.from].parent <==> e.from in s.parent && s.parent[e.from].from == e.link.to
      ensures table[e.link.to] == table[e.from] <==> e.link.to == e.from
      ensures p.maxPathLength > 0.0 ==> e.from in s.length && table[e.from].pathLengthSoFar == s.length[e.from]
    {
      assert e.from in s.parent || e.from == p.start;
    }

    lemma ReadMarks(p: Problem, s: State, v: nat)
      requires Poses(p) && Agrees(p, s) && v < |table|
      ensures lists.IsOpen(table[v]) || lists.IsClosed(table[v]) <==> v in s.open || v in s.marked
      ensures v in s.cost ==> table[v].costSoFar == s.cost[v]
    {
      OpenMeansListed(s.open, v);
    }

    /** Line 420. */
    method SetLength(p: Problem, ghost s: State, a: NavArea, length: real) returns (ghost s': State)
      requires Poses(p) && Agrees(p, s) && a.id < |table| && a == table[a.id]
      modifies a`pathLengthSoFar
      ensures s' == s.(length := s.length[a.id := length]) && Agrees(p, s')
    {
      hide CostsAgree, MarksAgree, ParentsAgree, ListAgrees, WellFormed;
      a.pathLengthSoFar := length;
      s' := s.(length := s.length[a.id := length]);
      assert forall i :: 0 <= i < |table| && table[i] == a ==> i == a.id;
    }

    /** Lines 377-460: consider one neighbour of the area being expanded. */
    method Relax(p: Problem, ghost s: State, e: Edge, area: NavArea, newArea: NavArea, closest: NavArea, closestDist: real)
      returns (ghost s': State, closest': NavArea, closestDist': real)
      requires Poses(p) && Agrees(p, s) && Expanding(p, s, e.from) && IsEdge(p, e)
      requires e.from < |table| && e.link.to < |table| && area == table[e.from] && newArea == table[e.link.to]
      requires Tracks(p, s, closest, closestDist)
      modifies lists, table
      ensures Agrees(p, s') && Relaxes(p, s, e, s')
      ensures Tracks(p, s', closest', closestDist')
    {
      hide Agrees, WalksOk, Settled, ClosestOk, Distinct, WellFormed, OpenOk;
      s', closest', closestDist' := s, closest, closestDist;
      ReadFields(p, s, e);
      if newArea == area.parent || newArea == area || p.blocked[newArea.id] {
        return;
      }
      var newCostSoFar := NAN_COST;
      match p.functor(e, area.costSoFar) {
        case NotANumber =>
        case Number(c) => newCostSoFar := c;
      }
      if newCostSoFar < 0.0 {
        return;
      }
      newCostSoFar := Max(newCostSoFar, MinNewCost(area.costSoFar));
      assert Step(p, e, s.cost[e.from]) == Some(newCostSoFar);
      if p.maxPathLength > 0.0 {
        var newLengthSoFar := area.pathLengthSoFar + p.distance(newArea.id, area.id);
        if newLengthSoFar > p.maxPathLength {
          return;
        }
        s' := SetLength(p, s, newArea, newLengthSoFar);
      }
      assert s' == s.(length := NewLength(p, s, e));
      ReadMarks(p, s', e.link.to);
      if (lists.IsOpen(newArea) || lists.IsClosed(newArea)) && newArea.costSoFar <= newCostSoFar {
        return;
      }
      assert Accepted(p, s, e) == Some(newCostSoFar);
      AcceptedIsNews(p, s, e);
      SameOpenOk(p, s, s');
      if p.h[newArea.id] < closestDist {
        closest', closestDist' := newArea, p.h[newArea.id];
      }
      s' := Improve(p, s', e, newCostSoFar, area, newArea, e.link.how);
    }

    /** Lines 224-461: relax every neighbour of the area, each exactly once, in the flattened order. */
    method Expand(p: Problem, ghost s: State, area: NavArea, closest: NavArea, closestDist: real)
      returns (ghost s': State, closest': NavArea, closestDist': real)
      requires Poses(p) && Agrees(p, s) && area.id < |table| && area == table[area.id] && Expanding(p, s, area.id)
      requires Tracks(p, s, closest, closestDist)
      modifies lists, table
      ensures Agrees(p, s') && Expanded(p, s, s', area.id, |p.links[area.id]|)
      ensures Tracks(p, s', closest', closestDist')
    {
      assert Known(p, s);
      hide Agrees, Expanding, Expanded, Tracks, Pending;
      FirstPending(p, area.id);
      ghost var k := 0;
      var cursor, more := FIRST, true;
      s', closest', closestDist' := s, closest, closestDist;
      ExpandNone(p, s, area.id);
      while more
        invariant k <= |p.links[area.id]| && Pending(p, area.id, cursor, k) && (!more ==> k == |p.links[area.id]|)
        invariant Known(p, s) && Agrees(p, s') && Expanded(p, s, s', area.id, k) && Tracks(p, s', closest', closestDist')
        decreases |p.links[area.id]| - k, more
      {
        more, cursor, k, s', closest', closestDist' := RelaxNext(p, s, s', cursor, k, area, closest', closestDist');
      }
    }

    /** The cursor stands in front of connection k of area u. */
    ghost predicate Pending(p: Problem, u: nat, cursor: Cursor, k: nat)
      requires Poses(p) && u < |p.links| && k <= |p.links[u]|
    {
      CursorOk(mesh, mesh[u], cursor) && Rest(mesh, mesh[u], cursor) == p.links[u][k..]
    }

    lemma FirstPending(p: Problem, u: nat)
      requires Poses(p) && u < |p.links|
      ensures Pending(p, u, FIRST, 0)
    {
    }

    method RelaxNext(p: Problem, ghost s: State, ghost t: State, cursor: Cursor, ghost k: nat, area: NavArea,
                     closest: NavArea, closestDist: real)
      returns (more: bool, cursor': Cursor, ghost k': nat, ghost s': State, closest': NavArea, closestDist': real)
      requires Poses(p) && Known(p, s) && Agrees(p, t) && area.id < |table| && area == table[area.id]
      requires k <= |p.links[area.id]| && Pending(p, area.id, cursor, k)
      requires Expanded(p, s, t, area.id, k) && Tracks(p, t, closest, closestDist)
      modifies lists, table
      ensures more ==> k' == k + 1 <= |p.links[area.id]|
      ensures !more ==> k' == k == |p.links[area.id]|
      ensures Pending(p, area.id, cursor', k')
      ensures Agrees(p, s') && Expanded(p, s, s', area.id, k') && Tracks(p, s', closest', closestDist')
    {
      hide Agrees, Expanding, Relaxes, Relaxed, Remaining, TreeCovers, Monotone, Satisfied;
      s', closest', closestDist', k' := t, closest, closestDist, k;
      var next;
      next, cursor' := NextNeighbor(mesh, mesh[area.id], cursor);
      more := next.Some?;
      if more {
        var e := Edge(area.id, next.value);
        assert next.value == p.links[area.id][k];
        s', closest', closestDist' := Relax(p, t, e, area, table[e.link.to], closest, closestDist);
        ExpandOne(p, s, t, e, s', k);
        k' := k + 1;
      }
    }

    /** Lines 199-212: take the head off the list. */
    method Pop(p: Problem, ghost s: State) returns (area: NavArea, ghost s': State)
      requires Poses(p) && Agrees(p, s) && s.open != []
      modifies lists`openList, lists`openListTail, lists`open, table`openMarker, table`nextOpen, table`prevOpen
      ensures s.open[0] < |table| && area == table[s.open[0]]
      ensures s' == s.(open := s.open[1..]) && Agrees(p, s')
    {
      hide CostsAgree, MarksAgree, ParentsAgree, LengthsAgree, SearchLists.ListOk;
      assert lists.open[0] == table[s.open[0]];
      area := lists.PopOpenList();
      s' := s.(open := s.open[1..]);
      PopKeepsKnown(p, s, s');
    }

    /** Line 464. */
    method Close(p: Problem, ghost s: State, area: NavArea) returns (ghost s': State)
      requires Poses(p) && Agrees(p, s) && area.id < |table| && area == table[area.id] && area.id in s.cost
      modifies area`marker
      ensures s' == s.(marked := s.marked + {area.id}) && Agrees(p, s')
    {
      hide CostsAgree, ParentsAgree, LengthsAgree, ListAgrees;
      lists.AddToClosedList(area);
      s' := s.(marked := s.marked + {area.id});
      assert forall i :: 0 <= i < |table| && table[i] == area ==> i == area.id;
    }

    /** Lines 197-465: one turn of the main loop. */
    method Turn(p: Problem, ghost s: State, closest: NavArea, closestDist: real)
      returns (outcome: Outcome, ghost s': State, closest': NavArea, closestDist': real)
      requires Poses(p) && Agrees(p, s) && Searching(p, s) && s.open != [] && Tracks(p, s, closest, closestDist)
      modifies lists, table
      ensures Agrees(p, s') && TurnOk(p, s, outcome, s') && (lists.openList == null <==> s'.open == [])
      ensures outcome.Found? ==> closest' == table[s.open[0]]
      ensures !outcome.Found? ==> Tracks(p, s', closest', closestDist')
    {
      hide Agrees, Expanded, Expanding, Searching, ComesTo, NoTargetClosed, TreeCovers, Monotone;
      var area;
      closest', closestDist' := closest, closestDist;
      TurnPops(p, s);
      area, s' := Pop(p, s);
      EmptyMeansNull(p, s');
      if p.blocked[area.id] {
        return Blocked, s', closest, closestDist;
      }
      if p.target[area.id] {
        return Found, s', area, closestDist;
      }
      ghost var popped := s';
      s', closest', closestDist' := Expand(p, popped, area, closest, closestDist);
      TurnCloses(p, s, popped, s');
      s' := Close(p, s', area);
      EmptyMeansNull(p, s');
      outcome := Closed;
    }

    lemma EmptyMeansNull(p: Problem, s: State)
      requires Poses(p) && Agrees(p, s)
      ensures lists.openList == null <==> s.open == []
    {
    }

    /** Lines 179-467. No stored marker equals the fresh master marker. */
    method Search(p: Problem, startArea: NavArea) returns (found: bool, closest: NavArea, ghost s: State)
      requires Poses(p) && startArea == table[p.start] && startArea.parent == null
      requires forall a :: a in table ==>
        a.openMarker != NextMarker(lists.masterMarker) && a.marker != NextMarker(lists.masterMarker)
      modifies lists, table
      ensures found ==>
                && Searching(p, s) && s.open != [] && s.open[0] < |table| && p.target[s.open[0]]
                && closest == table[s.open[0]] && Agrees(p, s.(open := s.open[1..]))
      ensures !found ==>
                && Inv(p, s, if p.blocked[p.start] then {p.start} else {}) && NoTargetClosed(p, s) && s.open == []
                && (!p.blocked[p.start] ==> ComesTo(p, s))
                && Agrees(p, s) && s.closest < |table| && closest == table[s.closest]
    {
      s := Start(p, startArea);
      closest := startArea;
      var closestDist, outcome := p.h[p.start], Closed;
      hide Agrees, Inv, Searching, LoopOk, TurnOk, Remaining;
      StartLoop(p, s);
      while lists.openList != null
        invariant Agrees(p, s) && Tracks(p, s, closest, closestDist) && LoopOk(p, s, outcome)
        invariant lists.openList == null <==> s.open == []
        decreases Remaining(p, s), |s.open|
      {
        ghost var before := s;
        LoopSearches(p, s, outcome);
        outcome, s, closest, closestDist := Turn(p, s, closest, closestDist);
        if outcome.Found? {
          TurnFinds(p, before, s);
          return true, closest, before;
        }
        TurnLoops(p, before, outcome, s);
      }
      LoopEnds(p, s, outcome);
      found := false;
    }

    /** Lines 179-194: clear the lists and open the start. */
    method Start(p: Problem, startArea: NavArea) returns (ghost s: State)
      requires Poses(p) && startArea == table[p.start] && startArea.parent == null
      requires forall a :: a in table ==>
        a.openMarker != NextMarker(lists.masterMarker) && a.marker != NextMarker(lists.masterMarker)
      modifies lists, table
      ensures s == Initial(p) && Agrees(p, s) && Searching(p, s)
      ensures lists.openList != null
    {
      hide Searching, OpenOk, CostsAgree, MarksAgree, ParentsAgree, LengthsAgree, ListAgrees, WellFormed;
      s := Initial(p);
      StartSearches(p);
      Clear(p, startArea);
      ghost var open := PutOnList(p, s.(open := []), s.cost, startArea);
      assert |open| == 1 && open[0] in open && open == [p.start];
      EmptyMeansNull(p, s);
    }

    method Clear(p: Problem, startArea: NavArea)
      requires Poses(p) && startArea == table[p.start] && startArea.parent == null
      requires forall a :: a in table ==>
        a.openMarker != NextMarker(lists.masterMarker) && a.marker != NextMarker(lists.masterMarker)
      modifies lists, startArea`totalCost, startArea`costSoFar, startArea`pathLengthSoFar
      ensures ListAgrees([]) && !lists.IsOpen(startArea)
      ensures var s := Initial(p);
              CostsAgree(p, s.cost) && MarksAgree({}) && ParentsAgree(p.start, s.parent) && LengthsAgree(p, s.length)
    {
      lists.ClearSearchLists();
      startArea.totalCost := p.h[startArea.id];
      startArea.costSoFar := p.startCost;
      startArea.pathLengthSoFar := 0.0;
      assert forall i :: 0 <= i < |table| ==> table[i] in lists.areas;
    }

    /** `NavAreaBuildPath`. Null areas stand for null pointers; `hasGoalPos` says whether `goalPos` is given.
        When a search is run, `s` is the state it ended in: with the target still at the head of its list
        when it was found. */
    method NavAreaBuildPath(startArea: NavArea?, goalArea: NavArea?, hasGoalPos: bool, q: Query, maxPathLength: real)
      returns (found: bool, closest: NavArea?, ghost s: State)
      requires Wired() && QueryOk(q, |mesh|)
      requires startArea != null ==> startArea in table
      requires goalArea != null ==> goalArea in table
      requires forall a :: a in table ==>
        a.openMarker != NextMarker(lists.masterMarker) && a.marker != NextMarker(lists.masterMarker)
      modifies lists, table
      ensures FitsQuery(startArea, goalArea, hasGoalPos, q, found, closest, s)
      ensures Decided(startArea, goalArea, hasGoalPos, q).Some? ==>
                found == Decided(startArea, goalArea, hasGoalPos, q).value && closest == startArea
      ensures Decided(startArea, goalArea, hasGoalPos, q).None? ==>
                && startArea != null && closest != null && startArea.id < |mesh|
                && var p := Posed(startArea.id, Goal(goalArea, q), hasGoalPos, q, maxPathLength);
                && p.start == startArea.id && p.startCost == q.initialCost && p.maxPathLength == maxPathLength
                && p.blocked == q.blocked && p.functor == q.functor && p.distance == q.distance
                && Answers(Posed(startArea.id, Goal(goalArea, q), hasGoalPos, q, maxPathLength), found, s, closest)
    {
      hide Wired, Answers, FitsQuery;
      closest, found := startArea, false;
      s := State(map[], map[], map[], [], {}, map[], 0);
      if startArea == null {
        DecidedFits(startArea, goalArea, hasGoalPos, q, s);
        return;
      }
      InTable(startArea, goalArea);
      DecidedFits(startArea, goalArea, hasGoalPos, q, s);
      startArea.parent := null;
      ghost var goal, given := Goal(goalArea, q), goalArea;
      var goalArea := goalArea;
      if goalArea != null && q.blocked[goalArea.id] {
        goalArea := null;
      }
      if goalArea == null && !hasGoalPos {
        return;
      }
      if startArea == goalArea {
        found := true;
        return;
      }
      var p := Posed(startArea.id, if goalArea == null then None else Some(goalArea.id), hasGoalPos, q, maxPathLength);
      if q.initialCost < 0.0 {
        lists.ClearSearchLists();
        startArea.totalCost := p.h[startArea.id];
        return;
      }
      PosedIsPosed(startArea.id, goal, hasGoalPos, q, maxPathLength);
      found, closest, s := FindPath(p, startArea);
      AnswerFits(startArea, given, hasGoalPos, q, maxPathLength, found, closest, s);
    }

    /** The answer in terms of what was asked. A goal area that is blocked counts for nothing. What is found is the
        goal area, or else an area with the goal position in it, and when nothing is found no area that was reached
        is closer to the goal than the one that is handed out. */
    ghost predicate FitsQuery(startArea: NavArea?, goalArea: NavArea?, hasGoalPos: bool, q: Query, found: bool, closest: NavArea?, s: State)
    {
      var free := goalArea != null && goalArea.id < |q.blocked| && !q.blocked[goalArea.id];
      && (startArea == null || (!free && !hasGoalPos) ==> !found && closest == startArea)
      && (startArea != null && free && startArea == goalArea ==> found && closest == startArea)
      && (found && free ==> closest == goalArea)
      && (found && !free ==>
            hasGoalPos && closest != null && closest.id < |q.containsGoalPos| && q.containsGoalPos[closest.id])
      && (!found && closest != null ==> forall u :: u in s.cost ==> AsClose(goalArea, hasGoalPos, q, closest.id, u))
    }

    /** x is as close to the goal as u: to the position if one is given, else to the centre of the area. */
    ghost predicate AsClose(goalArea: NavArea?, hasGoalPos: bool, q: Query, x: nat, u: nat) {
      if hasGoalPos then
        x < |q.goalPosDistance| && u < |q.goalPosDistance| && q.goalPosDistance[x] <= q.goalPosDistance[u]
      else
        goalArea != null && q.distance(x, goalArea.id) <= q.distance(u, goalArea.id)
    }

    lemma DecidedFits(startArea: NavArea?, goalArea: NavArea?, hasGoalPos: bool, q: Query, s: State)
      requires Wired() && QueryOk(q, |mesh|) && s.cost == map[]
      requires startArea != null ==> startArea in table
      requires goalArea != null ==> goalArea in table
      ensures goalArea != null ==> goalArea.id < |q.blocked|
      ensures Decided(startArea, goalArea, hasGoalPos, q).Some? ==>
                FitsQuery(startArea, goalArea, hasGoalPos, q, Decided(startArea, goalArea, hasGoalPos, q).value, startArea, s)
    {
    }

    lemma AnswerFits(startArea: NavArea, goalArea: NavArea?, hasGoalPos: bool, q: Query, maxPathLength: real,
                     found: bool, closest: NavArea, s: State)
      requires Wired() && QueryOk(q, |mesh|) && startArea in table && startArea.id < |mesh|
      requires goalArea != null ==> goalArea in table && goalArea.id < |q.blocked|
      requires Decided(startArea, goalArea, hasGoalPos, q).None?
      requires Answers(Posed(startArea.id, Goal(goalArea, q), hasGoalPos, q, maxPathLength), found, s, closest)
      ensures FitsQuery(startArea, goalArea, hasGoalPos, q, found, closest, s)
    {
      hide Agrees, Searching, TreeOk, Exhausted, Monotone, Consistent, FixedDeadEnds, Shortest, DefaultPriced;
    }

    lemma InTable(startArea: NavArea, goalArea: NavArea?)
      requires Wired() && startArea in table && (goalArea != null ==> goalArea in table)
      ensures startArea.id < |mesh| && startArea == table[startArea.id]
      ensures goalArea != null ==> goalArea.id < |mesh| && (startArea == goalArea <==> startArea.id == goalArea.id)
      ensures |table| == |mesh| && lists.areas == (set a | a in table)
    {
    }

    method FindPath(p: Problem, startArea: NavArea) returns (found: bool, closest: NavArea, ghost s: State)
      requires Poses(p) && startArea == table[p.start] && startArea.parent == null
      requires forall a :: a in table ==>
        a.openMarker != NextMarker(lists.masterMarker) && a.marker != NextMarker(lists.masterMarker)
      modifies lists, table
      ensures Answers(p, found, s, closest)
    {
      found, closest, s := Search(p, startArea);
      if found {
        FoundIsOk(p, s, closest);
      } else {
        NotFoundIsOk(p, s, closest);
      }
    }

    ghost predicate Answers(p: Problem, found: bool, s: State, closest: NavArea)
      reads this, lists, table
    {
      Poses(p) && if found then FoundOk(p, s, closest) else NotFoundOk(p, s, closest)
    }

    /** Lines 158-187: the answer when no search is needed. */
    ghost function Decided(startArea: NavArea?, goalArea: NavArea?, hasGoalPos: bool, q: Query): Option<bool>
      requires goalArea != null ==> goalArea.id < |q.blocked|
    {
      if startArea == null then Some(false)
      else if Goal(goalArea, q).None? && !hasGoalPos then Some(false)
      else if Goal(goalArea, q) == Some(startArea.id) then Some(true)
      else if q.initialCost < 0.0 then Some(false)
      else None
    }

    ghost function Goal(goalArea: NavArea?, q: Query): Option<nat>
      requires goalArea != null ==> goalArea.id < |q.blocked|
    {
      if goalArea == null || q.blocked[goalArea.id] then None else Some(goalArea.id)
    }

    /** The problem that a query poses on this mesh. Only its proofs look at `links`. */
    function Posed(start: nat, goal: Option<nat>, hasGoalPos: bool, q: Query, maxPathLength: real): Problem
      requires Wired() && QueryOk(q, |mesh|)
    {
      Problem(
        seq(|mesh|, u requires 0 <= u < |mesh| => Neighbors(mesh, mesh[u])),
        q.blocked,
        seq(|mesh|, u requires 0 <= u < |mesh| => if goal.Some? then u == goal.value else q.containsGoalPos[u]),
        seq(|mesh|, u requires 0 <= u < |mesh| =>
          if hasGoalPos || goal.None? then q.goalPosDistance[u] else q.distance(u, goal.value)),
        q.functor, q.distance, maxPathLength, start, q.initialCost)
    }

    lemma PosedIsPosed(start: nat, goal: Option<nat>, hasGoalPos: bool, q: Query, maxPathLength: real)
      requires Wired() && QueryOk(q, |mesh|) && start < |mesh| && 0.0 <= q.initialCost
      ensures Poses(Posed(start, goal, hasGoalPos, q, maxPathLength))
    {
      forall u | 0 <= u < |mesh|
        ensures forall l :: l in Neighbors(mesh, mesh[u]) ==> l.to < |mesh|
      {
        NeighborsInMesh(mesh, mesh[u]);
      }
    }

    /** A target was found: the fields hold a least-cost walk to it, read back along the parents. With the default
        cost it is a shortest one, lengths weighted by what the areas are for. */
    ghost predicate FoundOk(p: Problem, s: State, closest: NavArea)
      requires Poses(p)
      reads this, lists, table
    {
      && Searching(p, s) && s.open != [] && s.open[0] < |table|
      && closest == table[s.open[0]] && p.target[s.open[0]]
      && Agrees(p, s.(open := s.open[1..])) && closest.costSoFar == s.cost[s.open[0]]
      && IsWalk(p, ParentWalk(p, s, s.open[0])) && End(p, ParentWalk(p, s, s.open[0])) == s.open[0]
      && (Monotone(p) && Consistent(p) && p.maxPathLength <= 0.0 ==>
            && WalkCost(p, ParentWalk(p, s, s.open[0])) == Some(closest.costSoFar)
            && LeastCost(p, s.open[0], closest.costSoFar))
      && (forall attributes: nat -> bv32 ::
            DefaultPriced(p, attributes) && Monotone(p) && Consistent(p) && p.maxPathLength <= 0.0 ==>
              Shortest(p, attributes, ParentWalk(p, s, s.open[0])))
    }

    /** No target was found, by a run that ended for want of areas to expand. Nothing that was reached is closer to
        the goal than `closest`, and the stored parents lead from there back to the start. With no length
        limit, unless the start itself is blocked: no reached area is a target or has a connection left to
        relax; and there is no walk to a target, unless what a walk cost so far decides where it ends. */
    ghost predicate NotFoundOk(p: Problem, s: State, closest: NavArea)
      requires Poses(p)
      reads this, lists, table
    {
      && Known(p, s) && TreeOk(p, s) && Agrees(p, s) && ClosestOk(p, s) && closest == table[s.closest]
      && IsWalk(p, ParentWalk(p, s, s.closest)) && End(p, ParentWalk(p, s, s.closest)) == s.closest
      && (!p.blocked[p.start] ==> ComesTo(p, s) && s.open == [])
      && (p.maxPathLength <= 0.0 && !p.blocked[p.start] ==> Exhausted(p, s))
      && (p.maxPathLength <= 0.0 && !p.blocked[p.start] && (Monotone(p) || FixedDeadEnds(p)) ==> NoWalkToTarget(p))
    }

    lemma FoundIsOk(p: Problem, s: State, closest: NavArea)
      requires Poses(p) && Searching(p, s) && s.open != [] && s.open[0] < |table| && p.target[s.open[0]]
      requires closest == table[s.open[0]] && Agrees(p, s.(open := s.open[1..]))
      ensures FoundOk(p, s, closest)
    {
      ParentWalkIsSimple(p, s, s.open[0]);
      assert CostsAgree(p, s.cost);
      if Monotone(p) && Consistent(p) && p.maxPathLength <= 0.0 {
        FoundPathIsOptimal(p, s);
        HeadIsLeast(p, s);
        forall attributes: nat -> bv32 | DefaultPriced(p, attributes)
          ensures Shortest(p, attributes, ParentWalk(p, s, s.open[0]))
        {
          LeastCostIsShortest(p, attributes, ParentWalk(p, s, s.open[0]), s.cost[s.open[0]]);
        }
      }
    }

    lemma NotFoundIsOk(p: Problem, s: State, closest: NavArea)
      requires Poses(p) && Inv(p, s, if p.blocked[p.start] then {p.start} else {}) && NoTargetClosed(p, s) && s.open == []
      requires !p.blocked[p.start] ==> ComesTo(p, s)
      requires Agrees(p, s) && s.closest < |table| && closest == table[s.closest]
      ensures NotFoundOk(p, s, closest)
    {
      ParentWalkIsSimple(p, s, s.closest);
      if p.maxPathLength <= 0.0 && !p.blocked[p.start] {
        EmptyMeansExhausted(p, s);
        if Monotone(p) || FixedDeadEnds(p) {
          ExhaustedMeansNoWalk(p, s);
        }
      }
    }
  }

  /** What a caller of the search passes in. */
  datatype Query = Query(
    blocked: seq<bool>, containsGoalPos: seq<bool>, goalPosDistance: seq<real>,
    distance: (nat, nat) -> real, functor: (Edge, real) -> CostResult, initialCost: real)

  ghost predicate QueryOk(q: Query, n: nat) {
    |q.blocked| == |q.containsGoalPos| == |q.goalPosDistance| == n
  }

  lemma HeadIsLeast(p: Problem, s: State)
    requires ProblemOk(p) && Inv(p, s, {}) && NoTargetClosed(p, s)
    requires Monotone(p) && Consistent(p) && p.maxPathLength <= 0.0
    requires s.open != [] && p.target[s.open[0]]
    ensures LeastCost(p, s.open[0], s.cost[s.open[0]])
  {
    forall w | IsWalk(p, w) && WalkCost(p, w).Some? && End(p, w) == s.open[0]
      ensures s.cost[s.open[0]] <= WalkCost(p, w).value
    {
      PoppedTargetIsOptimal(p, s, w);
    }
  }

  /** Everything reached has been searched to the end, without a target among it. */
  ghost predicate Exhausted(p: Problem, s: State)
    requires ProblemOk(p) && Known(p, s)
  {
    forall u {:trigger AllSatisfied(p, s, u)} :: u in s.cost ==>
      u < |p.links| && u < |p.target| && !p.target[u] && AllSatisfied(p, s, u)
  }

  lemma EmptyMeansExhausted(p: Problem, s: State)
    requires ProblemOk(p) && Inv(p, s, {}) && NoTargetClosed(p, s) && s.open == [] && p.maxPathLength <= 0.0
    ensures Exhausted(p, s)
  {
    hide AllSatisfied, WalksOk, TreeOk, OpenOk, ClosestOk;
  }

  lemma ExhaustedMeansNoWalk(p: Problem, s: State)
    requires ProblemOk(p) && Inv(p, s, {}) && NoTargetClosed(p, s) && s.open == []
    requires p.maxPathLength <= 0.0 && (Monotone(p) || FixedDeadEnds(p))
    ensures NoWalkToTarget(p)
  {
    forall w | IsWalk(p, w) && WalkCost(p, w).Some? && End(p, w) < |p.target|
      ensures !p.target[End(p, w)]
    {
      ExhaustedReachesAll(p, s, w);
    }
  }

  datatype Outcome = Found | Blocked | Closed

  lemma PopKeepsKnown(p: Problem, s: State, s': State)
    requires ProblemOk(p) && Known(p, s) && s.open != [] && s' == s.(open := s.open[1..])
    ensures Known(p, s')
  {
    assert s.open == [s.open[0]] + s'.open;
  }

  /** The invariant at the top of the main loop. A blocked start is alone on the list until it is dropped. */
  ghost predicate Searching(p: Problem, s: State)
    requires ProblemOk(p)
  {
    && Inv(p, s, {}) && NoTargetClosed(p, s)
    && (Monotone(p) ==> TreeCovers(p, s))
    && (if p.blocked[p.start] then s.open == [p.start] else ComesTo(p, s))
  }

  lemma StartSearches(p: Problem)
    requires ProblemOk(p)
    ensures Searching(p, Initial(p)) && Known(p, Initial(p)) && OpenOk(p, Initial(p).(open := []))
  {
    hide ComesTo;
    InitialInv(p);
    StartsThere(p);
  }

  /** How one turn of the main loop may end. */
  ghost predicate TurnOk(p: Problem, s: State, outcome: Outcome, s': State)
    requires ProblemOk(p) && s.open != [] && s.open[0] < |p.links|
  {
    match outcome
    case Found => p.target[s.open[0]] && !p.blocked[s.open[0]] && s' == s.(open := s.open[1..])
    case Blocked => p.blocked[p.start] && s' == s.(open := []) && Inv(p, s', {p.start})
    case Closed =>
      && !p.blocked[p.start] && Searching(p, s')
      && (Remaining(p, s') < Remaining(p, s) || (Remaining(p, s') == Remaining(p, s) && |s'.open| < |s.open|))
  }

  /** The invariant of the main loop; only a blocked start ends it other than by an empty list or a target. */
  ghost predicate LoopOk(p: Problem, s: State, outcome: Outcome)
    requires ProblemOk(p)
  {
    NoTargetClosed(p, s) &&
    match outcome
    case Found => false
    case Blocked => p.blocked[p.start] && s.open == [] && Inv(p, s, {p.start})
    case Closed => Searching(p, s) && (p.blocked[p.start] ==> s.open != [])
  }

  lemma StartLoop(p: Problem, s: State)
    requires ProblemOk(p) && Searching(p, s)
    ensures LoopOk(p, s, Closed)
  {
  }

  lemma LoopSearches(p: Problem, s: State, outcome: Outcome)
    requires ProblemOk(p) && LoopOk(p, s, outcome) && s.open != []
    ensures Searching(p, s) && s.open[0] < |p.links|
  {
  }

  lemma TurnFinds(p: Problem, s: State, s': State)
    requires ProblemOk(p) && s.open != [] && s.open[0] < |p.links| && TurnOk(p, s, Found, s')
    ensures s' == s.(open := s.open[1..]) && p.target[s.open[0]]
  {
  }

  lemma TurnLoops(p: Problem, s: State, outcome: Outcome, s': State)
    requires ProblemOk(p) && NoTargetClosed(p, s) && s.open != [] && s.open[0] < |p.links|
    requires TurnOk(p, s, outcome, s') && !outcome.Found?
    ensures LoopOk(p, s', outcome)
    ensures Remaining(p, s') < Remaining(p, s) || (Remaining(p, s') == Remaining(p, s) && |s'.open| < |s.open|)
  {
    if outcome.Blocked? {
      SameRemaining(p, s, s');
    }
  }

  lemma LoopEnds(p: Problem, s: State, outcome: Outcome)
    requires ProblemOk(p) && LoopOk(p, s, outcome) && s.open == []
    ensures Inv(p, s, if p.blocked[p.start] then {p.start} else {}) && NoTargetClosed(p, s)
    ensures !p.blocked[p.start] ==> ComesTo(p, s)
  {
    hide ComesTo;
  }

  lemma TurnPops(p: Problem, s: State)
    requires ProblemOk(p) && Searching(p, s) && s.open != []
    ensures Known(p, s) && s.open[0] < |p.links|
    ensures p.blocked[s.open[0]] ==> TurnOk(p, s, Blocked, s.(open := s.open[1..]))
    ensures p.blocked[p.start] ==> p.blocked[s.open[0]]
    ensures !p.blocked[s.open[0]] ==> Expanding(p, s.(open := s.open[1..]), s.open[0])
    ensures NoTargetClosed(p, s) && (Monotone(p) ==> TreeCovers(p, s)) && (!p.blocked[s.open[0]] ==> ComesTo(p, s))
  {
    PopKeepsInv(p, s);
  }

  lemma TurnCloses(p: Problem, s: State, popped: State, t: State)
    requires ProblemOk(p) && Known(p, s) && s.open != [] && popped == s.(open := s.open[1..]) && Known(p, popped)
    requires ComesTo(p, s) && NoTargetClosed(p, s) && (Monotone(p) ==> TreeCovers(p, s))
    requires s.open[0] < |p.links| && !p.blocked[s.open[0]] && !p.target[s.open[0]] && !p.blocked[p.start]
    requires Expanded(p, popped, t, s.open[0], |p.links[s.open[0]]|)
    ensures s.open[0] in t.cost && TurnOk(p, s, Closed, t.(marked := t.marked + {s.open[0]}))
  {
    hide Satisfied, AllSatisfied, Relaxed, Expands, ComesTo, Expanding, Remaining, TreeCovers, Monotone;
    var u := s.open[0];
    var s' := t.(marked := t.marked + {u});
    StaysKnown(p, t, s', u);
    if p.maxPathLength <= 0.0 {
      EachSatisfied(p, t, u);
    }
    CloseKeepsInv(p, t, u);
    TurnComesOn(p, s, popped, t);
    TargetStaysOpen(p, s, t, u);
    SameRemaining(p, s, popped);
    SameRemaining(p, t, s');
    if Monotone(p) {
      SameTreeCovers(p, s, popped);
      SameTreeCovers(p, t, s');
    }
  }

  lemma StaysKnown(p: Problem, t: State, s': State, u: nat)
    requires ProblemOk(p) && Expanding(p, t, u) && s' == t.(marked := t.marked + {u})
    ensures u in t.cost && Known(p, t) && Known(p, s') && s'.open == t.open
  {
  }

  lemma TargetStaysOpen(p: Problem, s: State, t: State, u: nat)
    requires ProblemOk(p) && NoTargetClosed(p, s) && t.marked == s.marked && u < |p.target| && !p.target[u]
    ensures NoTargetClosed(p, t.(marked := t.marked + {u}))
  {
  }

  lemma TurnComesOn(p: Problem, s: State, popped: State, t: State)
    requires ProblemOk(p) && ComesTo(p, s) && s.open != [] && popped == s.(open := s.open[1..])
    requires s.open[0] < |p.links| && !p.blocked[s.open[0]] && !p.target[s.open[0]]
    requires Relaxed(p, popped, t, s.open[0], |p.links[s.open[0]]|)
    ensures ComesTo(p, t.(marked := t.marked + {s.open[0]}))
  {
    hide ComesTo, Relaxed;
    var s' := WithClosed(t, s.open[0]);
    assert Expands(p, s, s');
    ComesOn(p, s, s');
  }

  lemma SameRemaining(p: Problem, s: State, t: State)
    requires ProblemOk(p) && s.cost == t.cost
    ensures Remaining(p, s) == Remaining(p, t)
  {
    assert forall w :: Promising(p, s, w) <==> Promising(p, t, w);
  }

  lemma SameTreeCovers(p: Problem, s: State, t: State)
    requires ProblemOk(p) && Known(p, s) && Known(p, t) && TreeCovers(p, s)
    requires s.cost == t.cost && s.parent == t.parent
    ensures TreeCovers(p, t)
  {
    assert forall v :: v in t.parent ==> Covers(p, s, v, s.parent[v]);
  }

  /** What expanding u has kept once its first k connections have been relaxed: the invariant, and less
      left to find unless nothing changed. */
  ghost predicate Expanded(p: Problem, s: State, s': State, u: nat, k: nat)
    requires ProblemOk(p) && Known(p, s) && u < |p.links| && k <= |p.links[u]|
  {
    && Expanding(p, s', u) && Relaxed(p, s, s', u, k)
    && s'.marked == s.marked
    && (Remaining(p, s') < Remaining(p, s) || (Remaining(p, s') == Remaining(p, s) && s'.open == s.open))
    && (Monotone(p) && TreeCovers(p, s) ==> TreeCovers(p, s'))
    && (p.maxPathLength <= 0.0 ==> forall i :: 0 <= i < k ==> Satisfied(p, s', Edge(u, p.links[u][i])))
  }

  lemma ExpandNone(p: Problem, s: State, u: nat)
    requires ProblemOk(p) && Expanding(p, s, u) && u < |p.links|
    ensures Expanded(p, s, s, u, 0)
  {
    NoneRelaxed(p, s, u);
  }

  lemma ExpandOne(p: Problem, s: State, t: State, e: Edge, s': State, k: nat)
    requires ProblemOk(p) && Known(p, s) && e.from < |p.links| && k < |p.links[e.from]| && Expanded(p, s, t, e.from, k)
    requires e.link == p.links[e.from][k] && Relaxes(p, t, e, s')
    ensures Expanded(p, s, s', e.from, k + 1)
  {
    hide Satisfied, Remaining, Monotone, TreeCovers, Relaxes, Relaxed, Accepted, WalksOk, TreeOk, OpenOk, Settled, Covered;
    RelaxKeepsInv(p, t, e, s');
    RelaxShrinksRemaining(p, t, e, s');
    assert RelaxesNext(p, t, e.from, k, s');
    RelaxedOn(p, s, t, s', e.from, k);
    if Monotone(p) && TreeCovers(p, s) {
      RelaxKeepsTreeCovers(p, t, e, s');
    }
    if p.maxPathLength <= 0.0 {
      StillSatisfied(p, t, s', e.from, k);
    }
  }
}
