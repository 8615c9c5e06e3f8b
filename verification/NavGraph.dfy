/** The connections of the nav areas, the cost functor and the cost of one relaxation
    (extension/sourcesdk/nav_mesh.cpp:224-409; extension/natives/nav.cpp:170-214). */
module NavGraphs {
  import opened NavAreas
  import opened Wrappers

  /** `NavConnect`: a floor connection and its stored length. */
  datatype Connect = Connect(area: nat, length: real)

  datatype Ladder = Ladder(
    topForward: Option<nat>, topLeft: Option<nat>, topRight: Option<nat>, topBehind: Option<nat>,
    bottom: Option<nat>, length: real)

  /** What an area stores about its neighbours; `z` is the height of its centre. */
  datatype AreaLinks = AreaLinks(
    connect: seq<seq<Connect>>, laddersUp: seq<Ladder>, laddersDown: seq<Ladder>,
    elevator: Option<nat>, elevatorAreas: seq<nat>, z: real)

  /** One step out of an area, as the search hands it to the cost functor. */
  datatype Link = Link(to: nat, how: Traverse, ladder: Option<Ladder>, elevator: Option<nat>, length: real)

  datatype Edge = Edge(from: nat, link: Link)

  // ---------- The neighbours of an area, in search order ----------

  const NUM_DIRECTIONS := 4

  function DirHow(d: nat): Traverse
    requires d < NUM_DIRECTIONS
  {
    [GoNorth, GoEast, GoSouth, GoWest][d]
  }

  function FloorLink(a: AreaLinks, d: nat, i: nat): Link
    requires |a.connect| == NUM_DIRECTIONS && d < NUM_DIRECTIONS && i < |a.connect[d]|
  {
    Link(a.connect[d][i].area, DirHow(d), None, None, a.connect[d][i].length)
  }

  /** The top of a ladder by exit: ahead, left, right. The area behind is never an exit. */
  function TopArea(l: Ladder, exit: nat): Option<nat> {
    if exit == 0 then l.topForward else if exit == 1 then l.topLeft else if exit == 2 then l.topRight else None
  }

  function LadderLink(l: Ladder, to: Option<nat>, how: Traverse): seq<Link> {
    if to.None? then [] else [Link(to.value, how, Some(l), None, -1.0)]
  }

  function ElevatorLink(g: seq<AreaLinks>, a: AreaLinks, i: nat): Link
    requires i < |a.elevatorAreas| && a.elevatorAreas[i] < |g|
  {
    Link(a.elevatorAreas[i],
         if g[a.elevatorAreas[i]].z > a.z then GoElevatorUp else GoElevatorDown,
         None, a.elevator, -1.0)
  }

  /** All connections lead to areas of the mesh. */
  ghost predicate WellFormed(g: seq<AreaLinks>) {
    forall u :: 0 <= u < |g| ==> AreaOk(g, g[u])
  }

  ghost predicate AreaOk(g: seq<AreaLinks>, a: AreaLinks) {
    && |a.connect| == NUM_DIRECTIONS
    && (forall d, i :: 0 <= d < NUM_DIRECTIONS && 0 <= i < |a.connect[d]| ==> a.connect[d][i].area < |g|)
    && (forall i, x :: 0 <= i < |a.laddersUp| && TopArea(a.laddersUp[i], x).Some? ==> TopArea(a.laddersUp[i], x).value < |g|)
    && (forall i :: 0 <= i < |a.laddersDown| && a.laddersDown[i].bottom.Some? ==> a.laddersDown[i].bottom.value < |g|)
    && (forall i :: 0 <= i < |a.elevatorAreas| ==> a.elevatorAreas[i] < |g|)
  }

  /** The neighbours still to come when the search stands at elevator area i, at down ladder i, at exit x
      of up ladder i, or at connection i of floor direction d. */
  function FromElevator(g: seq<AreaLinks>, a: AreaLinks, i: nat): seq<Link>
    requires AreaOk(g, a)
    decreases |a.elevatorAreas| - i
  {
    if a.elevator.None? || |a.elevatorAreas| <= i then [] else [ElevatorLink(g, a, i)] + FromElevator(g, a, i + 1)
  }

  function FromDown(g: seq<AreaLinks>, a: AreaLinks, i: nat): seq<Link>
    requires AreaOk(g, a)
    decreases |a.laddersDown| - i
  {
    if |a.laddersDown| <= i then FromElevator(g, a, 0)
    else LadderLink(a.laddersDown[i], a.laddersDown[i].bottom, GoLadderDown) + FromDown(g, a, i + 1)
  }

  function FromUp(g: seq<AreaLinks>, a: AreaLinks, i: nat, x: nat): seq<Link>
    requires AreaOk(g, a)
    decreases |a.laddersUp| - i, 3 - x
  {
    if |a.laddersUp| <= i then FromDown(g, a, 0)
    else if 3 <= x then FromUp(g, a, i + 1, 0)
    else LadderLink(a.laddersUp[i], TopArea(a.laddersUp[i], x), GoLadderUp) + FromUp(g, a, i, x + 1)
  }

  function FromFloor(g: seq<AreaLinks>, a: AreaLinks, d: nat, i: nat): seq<Link>
    requires AreaOk(g, a)
    decreases NUM_DIRECTIONS - d, if d < NUM_DIRECTIONS then |a.connect[d]| - i else 0
  {
    if NUM_DIRECTIONS <= d then FromUp(g, a, 0, 0)
    else if |a.connect[d]| <= i then FromFloor(g, a, d + 1, 0)
    else [FloorLink(a, d, i)] + FromFloor(g, a, d, i + 1)
  }

  /** The neighbours of an area in the order in which the search meets them. */
  function Neighbors(g: seq<AreaLinks>, a: AreaLinks): seq<Link>
    requires AreaOk(g, a)
  {
    FromFloor(g, a, 0, 0)
  }

  /** Every neighbour is an area of the mesh. */
  lemma NeighborsInMesh(g: seq<AreaLinks>, a: AreaLinks)
    requires AreaOk(g, a)
    ensures forall l :: l in Neighbors(g, a) ==> l.to < |g|
  {
    FloorsInMesh(g, a, 0, 0);
  }

  lemma {:induction false} FloorsInMesh(g: seq<AreaLinks>, a: AreaLinks, d: nat, i: nat)
    requires AreaOk(g, a)
    ensures forall l :: l in FromFloor(g, a, d, i) ==> l.to < |g|
    decreases NUM_DIRECTIONS - d, if d < NUM_DIRECTIONS then |a.connect[d]| - i else 0
  {
    if NUM_DIRECTIONS <= d {
      UpsInMesh(g, a, 0, 0);
    } else if |a.connect[d]| <= i {
      FloorsInMesh(g, a, d + 1, 0);
    } else {
      FloorsInMesh(g, a, d, i + 1);
    }
  }

  lemma {:induction false} UpsInMesh(g: seq<AreaLinks>, a: AreaLinks, i: nat, x: nat)
    requires AreaOk(g, a)
    ensures forall l :: l in FromUp(g, a, i, x) ==> l.to < |g|
    decreases |a.laddersUp| - i, 3 - x
  {
    if |a.laddersUp| <= i {
      DownsInMesh(g, a, 0);
    } else if 3 <= x {
      UpsInMesh(g, a, i + 1, 0);
    } else {
      UpsInMesh(g, a, i, x + 1);
    }
  }

  lemma {:induction false} DownsInMesh(g: seq<AreaLinks>, a: AreaLinks, i: nat)
    requires AreaOk(g, a)
    ensures forall l :: l in FromDown(g, a, i) ==> l.to < |g|
    decreases |a.laddersDown| - i
  {
    if |a.laddersDown| <= i {
      ElevatorsInMesh(g, a, 0);
    } else {
      DownsInMesh(g, a, i + 1);
    }
  }

  lemma {:induction false} ElevatorsInMesh(g: seq<AreaLinks>, a: AreaLinks, i: nat)
    requires AreaOk(g, a)
    ensures forall l :: l in FromElevator(g, a, i) ==> l.to < |g|
    decreases |a.elevatorAreas| - i
  {
    if i < |a.elevatorAreas| {
      ElevatorsInMesh(g, a, i + 1);
    }
  }

  // ---------- The same list, flattened ----------

  ghost function Floors(a: AreaLinks, d: nat): seq<Link>
    requires |a.connect| == NUM_DIRECTIONS && d < NUM_DIRECTIONS
  {
    seq(|a.connect[d]|, i requires 0 <= i < |a.connect[d]| => FloorLink(a, d, i))
  }

  /** The exits at the top of a ladder, without the area behind it. */
  ghost function Exits(l: Ladder): seq<Link> {
    LadderLink(l, l.topForward, GoLadderUp) + LadderLink(l, l.topLeft, GoLadderUp) + LadderLink(l, l.topRight, GoLadderUp)
  }

  ghost function AllExits(ladders: seq<Ladder>): seq<Link> {
    if ladders == [] then [] else Exits(ladders[0]) + AllExits(ladders[1..])
  }

  ghost function AllBottoms(ladders: seq<Ladder>): seq<Link> {
    if ladders == [] then [] else LadderLink(ladders[0], ladders[0].bottom, GoLadderDown) + AllBottoms(ladders[1..])
  }

  ghost function Elevators(g: seq<AreaLinks>, a: AreaLinks): seq<Link>
    requires AreaOk(g, a)
  {
    if a.elevator.None? then []
    else seq(|a.elevatorAreas|, i requires 0 <= i < |a.elevatorAreas| => ElevatorLink(g, a, i))
  }

  /** How the links lead on: floors by compass direction with their stored lengths, ladders up and down with the ladder,
      and the elevator up to areas that are higher and down to all others. */
  lemma LinksLeadOn(g: seq<AreaLinks>, a: AreaLinks)
    requires AreaOk(g, a)
    ensures forall i :: 0 <= i < |a.connect[0]| ==> Floors(a, 0)[i] == Link(a.connect[0][i].area, GoNorth, None, None, a.connect[0][i].length)
    ensures forall i :: 0 <= i < |a.connect[1]| ==> Floors(a, 1)[i] == Link(a.connect[1][i].area, GoEast, None, None, a.connect[1][i].length)
    ensures forall i :: 0 <= i < |a.connect[2]| ==> Floors(a, 2)[i] == Link(a.connect[2][i].area, GoSouth, None, None, a.connect[2][i].length)
    ensures forall i :: 0 <= i < |a.connect[3]| ==> Floors(a, 3)[i] == Link(a.connect[3][i].area, GoWest, None, None, a.connect[3][i].length)
    ensures forall i :: 0 <= i < |Elevators(g, a)| ==>
              var l, to := Elevators(g, a)[i], a.elevatorAreas[i];
              && l.to == to && l.elevator == a.elevator && l.ladder == None && l.length == -1.0
              && (a.z < g[to].z ==> l.how == GoElevatorUp) && (g[to].z <= a.z ==> l.how == GoElevatorDown)
    ensures forall l :: l in AllExits(a.laddersUp) ==> l.how == GoLadderUp && ByLadder(l, a.laddersUp)
    ensures forall l :: l in AllBottoms(a.laddersDown) ==>
              l.how == GoLadderDown && ByLadder(l, a.laddersDown) && l.ladder.value.bottom == Some(l.to)
  {
    ExitsLeadUp(a.laddersUp);
    BottomsLeadDown(a.laddersDown);
  }

  /** A ladder is taken, and the link itself has no length. */
  ghost predicate ByLadder(l: Link, ladders: seq<Ladder>) {
    l.ladder.Some? && l.ladder.value in ladders && l.elevator == None && l.length == -1.0
  }

  lemma {:induction false} ExitsLeadUp(ladders: seq<Ladder>)
    ensures forall l :: l in AllExits(ladders) ==> l.how == GoLadderUp && ByLadder(l, ladders)
  {
    if ladders != [] {
      ExitsLeadUp(ladders[1..]);
    }
  }

  lemma {:induction false} BottomsLeadDown(ladders: seq<Ladder>)
    ensures forall l :: l in AllBottoms(ladders) ==>
              l.how == GoLadderDown && ByLadder(l, ladders) && l.ladder.value.bottom == Some(l.to)
  {
    if ladders != [] {
      BottomsLeadDown(ladders[1..]);
    }
  }

  /** The search meets exactly the flattened neighbour list: floors by direction, then every exit of every
      ladder up, the bottoms of the ladders down, and the areas on the elevator. */
  lemma NeighborsAreFlattened(g: seq<AreaLinks>, a: AreaLinks)
    requires AreaOk(g, a)
    ensures Neighbors(g, a) ==
            Floors(a, 0) + Floors(a, 1) + Floors(a, 2) + Floors(a, 3)
            + AllExits(a.laddersUp) + AllBottoms(a.laddersDown) + Elevators(g, a)
  {
    hide FromFloor, FromUp, FromDown, FromElevator, Floors, AllExits, AllBottoms, Elevators, AreaOk;
    FloorsFirst(g, a);
    FromFloorFlat(g, a, 0, 0);
    FromFloorFlat(g, a, 1, 0);
    FromFloorFlat(g, a, 2, 0);
    FromFloorFlat(g, a, 3, 0);
    FromUpFlat(g, a, 0);
    FromDownFlat(g, a, 0);
    FromElevatorFlat(g, a, 0);
    assert a.laddersUp[0..] == a.laddersUp && a.laddersDown[0..] == a.laddersDown;
    Reassociate(Floors(a, 0), Floors(a, 1), Floors(a, 2), Floors(a, 3),
                AllExits(a.laddersUp), AllBottoms(a.laddersDown), Elevators(g, a));
  }

  lemma FloorsFirst(g: seq<AreaLinks>, a: AreaLinks)
    requires AreaOk(g, a)
    ensures FromFloor(g, a, 4, 0) == FromUp(g, a, 0, 0) && |a.connect| == 4
    ensures a.elevator.None? ==> Elevators(g, a) == []
  {
    hide FromUp;
  }

  lemma Reassociate<T>(s0: seq<T>, s1: seq<T>, s2: seq<T>, s3: seq<T>, u: seq<T>, d: seq<T>, e: seq<T>)
    ensures s0[0..] + (s1[0..] + (s2[0..] + (s3[0..] + (u + (d + e))))) == s0 + s1 + s2 + s3 + u + d + e
    ensures e[0..] == e
  {
  }

  lemma {:induction false} FromFloorFlat(g: seq<AreaLinks>, a: AreaLinks, d: nat, i: nat)
    requires AreaOk(g, a) && d < NUM_DIRECTIONS && i <= |a.connect[d]|
    ensures FromFloor(g, a, d, i) == Floors(a, d)[i..] + FromFloor(g, a, d + 1, 0)
    decreases |a.connect[d]| - i
  {
    if i < |a.connect[d]| {
      FromFloorFlat(g, a, d, i + 1);
      assert Floors(a, d)[i..] == [FloorLink(a, d, i)] + Floors(a, d)[i + 1..];
    }
  }

  lemma {:induction false} FromUpFlat(g: seq<AreaLinks>, a: AreaLinks, i: nat)
    requires AreaOk(g, a) && i <= |a.laddersUp|
    ensures FromUp(g, a, i, 0) == AllExits(a.laddersUp[i..]) + FromDown(g, a, 0)
    decreases |a.laddersUp| - i
  {
    hide *;
    if i < |a.laddersUp| {
      FromUpFlat(g, a, i + 1);
      FromUpOne(g, a, i);
      AllExitsStep(a.laddersUp, i);
    } else {
      FromUpNone(g, a);
    }
  }

  lemma FromUpNone(g: seq<AreaLinks>, a: AreaLinks)
    requires AreaOk(g, a)
    ensures FromUp(g, a, |a.laddersUp|, 0) == AllExits(a.laddersUp[|a.laddersUp|..]) + FromDown(g, a, 0)
  {
    hide FromDown, Exits, AreaOk;
  }

  lemma AllExitsStep(ladders: seq<Ladder>, i: nat)
    requires i < |ladders|
    ensures AllExits(ladders[i..]) == Exits(ladders[i]) + AllExits(ladders[i + 1..])
  {
    assert ladders[i..][1..] == ladders[i + 1..];
  }

  lemma FromUpOne(g: seq<AreaLinks>, a: AreaLinks, i: nat)
    requires AreaOk(g, a) && i < |a.laddersUp|
    ensures FromUp(g, a, i, 0) == Exits(a.laddersUp[i]) + FromUp(g, a, i + 1, 0)
  {
    var l := a.laddersUp[i];
    assert FromUp(g, a, i, 3) == FromUp(g, a, i + 1, 0);
    assert FromUp(g, a, i, 2) == LadderLink(l, l.topRight, GoLadderUp) + FromUp(g, a, i + 1, 0);
    assert FromUp(g, a, i, 1) == LadderLink(l, l.topLeft, GoLadderUp) + FromUp(g, a, i, 2);
  }

  lemma {:induction false} FromDownFlat(g: seq<AreaLinks>, a: AreaLinks, i: nat)
    requires AreaOk(g, a) && i <= |a.laddersDown|
    ensures FromDown(g, a, i) == AllBottoms(a.laddersDown[i..]) + FromElevator(g, a, 0)
    decreases |a.laddersDown| - i
  {
    if i < |a.laddersDown| {
      FromDownFlat(g, a, i + 1);
      assert a.laddersDown[i..][1..] == a.laddersDown[i + 1..];
    }
  }

  lemma {:induction false} FromElevatorFlat(g: seq<AreaLinks>, a: AreaLinks, i: nat)
    requires AreaOk(g, a) && i <= |a.elevatorAreas|
    ensures FromElevator(g, a, i) == if a.elevator.None? then [] else Elevators(g, a)[i..]
    decreases |a.elevatorAreas| - i
  {
    if i < |a.elevatorAreas| {
      hide AreaOk, ElevatorLink;
      FromElevatorFlat(g, a, i + 1);
      if a.elevator.Some? {
        DropStep(Elevators(g, a), i);
      }
    }
  }

  lemma DropStep<T>(s: seq<T>, i: nat)
    requires i < |s|
    ensures s[i..] == [s[i]] + s[i + 1..]
  {
  }

  // ---------- The enumeration state machine ----------

  datatype SearchType = SearchFloor | SearchLadders | SearchElevators

  /** The loop variables of lines 229-238. */
  datatype Cursor = Cursor(searchWhere: SearchType, searchIndex: nat, dir: nat, ladderUp: bool, ladderTopDir: nat)

  const FIRST := Cursor(SearchFloor, 0, 0, true, 0)

  ghost predicate CursorOk(g: seq<AreaLinks>, a: AreaLinks, c: Cursor) {
    && AreaOk(g, a)
    && (c.searchWhere.SearchFloor? ==> c.dir < NUM_DIRECTIONS && c.ladderUp && c.ladderTopDir == 0)
    && c.ladderTopDir <= 3
    && (c.searchWhere.SearchLadders? && c.ladderUp && |a.laddersUp| <= c.searchIndex ==> c.ladderTopDir == 0)
  }

  /** The neighbours not handed out yet. */
  ghost function Rest(g: seq<AreaLinks>, a: AreaLinks, c: Cursor): seq<Link>
    requires CursorOk(g, a, c)
  {
    match c.searchWhere
    case SearchFloor => FromFloor(g, a, c.dir, c.searchIndex)
    case SearchLadders =>
      if c.ladderUp then FromUp(g, a, c.searchIndex, c.ladderTopDir) else FromDown(g, a, c.searchIndex)
    case SearchElevators => FromElevator(g, a, c.searchIndex)
  }

  function Opt<T>(r: Option<T>): seq<T> {
    if r.None? then [] else [r.value]
  }

  /** Lines 242-374: run the state machine up to the next neighbour. */
  method NextNeighbor(g: seq<AreaLinks>, a: AreaLinks, start: Cursor) returns (r: Option<Link>, c: Cursor)
    requires CursorOk(g, a, start)
    ensures CursorOk(g, a, c)
    ensures Rest(g, a, start) == Opt(r) + Rest(g, a, c)
    ensures r.None? ==> Rest(g, a, start) == []
  {
    c := start;
    while true
      invariant CursorOk(g, a, c) && Rest(g, a, c) == Rest(g, a, start)
      decreases if c.searchWhere.SearchFloor? then 3 else if c.searchWhere.SearchElevators? then 0 else if c.ladderUp then 2 else 1,
                NUM_DIRECTIONS - c.dir,
                |a.laddersUp| + |a.laddersDown| - c.searchIndex,
                3 - c.ladderTopDir
    {
      if c.searchWhere.SearchFloor? {
        r, c := FloorTurn(g, a, c);
      } else if c.searchWhere.SearchLadders? {
        r, c := LadderTurn(g, a, c);
      } else if a.elevator.None? || |a.elevatorAreas| <= c.searchIndex {
        return None, c;
      } else {
        return Some(ElevatorLink(g, a, c.searchIndex)), c.(searchIndex := c.searchIndex + 1);
      }
      if r.Some? {
        return;
      }
    }
  }

  /** Lines 252-288: one turn of the loop among the floor connections. */
  method FloorTurn(g: seq<AreaLinks>, a: AreaLinks, c: Cursor) returns (r: Option<Link>, c': Cursor)
    requires CursorOk(g, a, c) && c.searchWhere.SearchFloor?
    ensures CursorOk(g, a, c')
    ensures Rest(g, a, c) == Opt(r) + Rest(g, a, c')
    ensures r.None? ==> c'.searchWhere.SearchLadders? || (c'.searchWhere.SearchFloor? && c.dir < c'.dir)
    ensures c'.searchWhere.SearchLadders? ==> c'.ladderUp
  {
    if |a.connect[c.dir]| <= c.searchIndex {
      r, c' := None, c.(dir := c.dir + 1, searchIndex := 0);
      if c'.dir == NUM_DIRECTIONS {
        c' := c'.(searchWhere := SearchLadders, ladderTopDir := 0);
        assert FromFloor(g, a, NUM_DIRECTIONS, 0) == FromUp(g, a, 0, 0);
      }
    } else {
      r, c' := Some(FloorLink(a, c.dir, c.searchIndex)), c.(searchIndex := c.searchIndex + 1);
    }
  }

  /** Lines 289-349: one turn of the loop among the ladders. */
  method LadderTurn(g: seq<AreaLinks>, a: AreaLinks, c: Cursor) returns (r: Option<Link>, c': Cursor)
    requires CursorOk(g, a, c) && c.searchWhere.SearchLadders?
    ensures CursorOk(g, a, c') && c'.dir == c.dir
    ensures Rest(g, a, c) == Opt(r) + Rest(g, a, c')
    ensures r.None? ==>
              || c'.searchWhere.SearchElevators?
              || (c'.searchWhere.SearchLadders? && c.ladderUp && !c'.ladderUp)
              || (c'.searchWhere.SearchLadders? && c'.ladderUp == c.ladderUp
                  && c.searchIndex < |a.laddersUp| + |a.laddersDown|
                  && (c.searchIndex < c'.searchIndex
                      || (c.searchIndex == c'.searchIndex && c.ladderTopDir < c'.ladderTopDir)))
  {
    r := None;
    var ladders := if c.ladderUp then a.laddersUp else a.laddersDown;
    if |ladders| <= c.searchIndex {
      c' := if c.ladderUp then c.(ladderUp := false, searchIndex := 0)
            else c.(searchWhere := SearchElevators, searchIndex := 0);
      return;
    }
    var ladder := ladders[c.searchIndex];
    var newArea, how;
    if c.ladderUp {
      if c.ladderTopDir == 3 {
        c' := c.(searchIndex := c.searchIndex + 1, ladderTopDir := 0);
        return;
      }
      newArea, how := TopArea(ladder, c.ladderTopDir), GoLadderUp;
      c' := c.(ladderTopDir := c.ladderTopDir + 1);
    } else {
      newArea, how := ladder.bottom, GoLadderDown;
      c' := c.(searchIndex := c.searchIndex + 1);
    }
    r := if newArea.None? then None else Some(Link(newArea.value, how, Some(ladder), None, -1.0));
    assert Rest(g, a, c) == LadderLink(ladder, newArea, how) + Rest(g, a, c');
  }
}
