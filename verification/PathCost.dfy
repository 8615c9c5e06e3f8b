/** The default step cost of a path search (extension/natives/nav.cpp:165-214), and what it takes for the
    search to be exact with it. */
module PathCosts {
  import opened NavGraphs
  import opened AStar
  import opened AStarTheorems
  import opened Wrappers

  const NAV_MESH_CROUCH: bv32 := 0x0000_0001
  const NAV_MESH_JUMP: bv32 := 0x0000_0002
  const CROUCH_PENALTY := 20.0
  const JUMP_PENALTY := 5.0

  /** The distance travelled over e: the ladder, else the stored length, else from centre to centre. */
  function Travel(distance: (nat, nat) -> real, e: Edge): real {
    if e.link.ladder.Some? then e.link.ladder.value.length
    else if e.link.length > 0.0 then e.link.length
    else distance(e.link.to, e.from)
  }

  /** What is travelled: a ladder's own length whatever else is stored, a positive length, or the way between centres. */
  lemma TravelIs(distance: (nat, nat) -> real, e: Edge)
    ensures e.link.ladder.Some? ==> Travel(distance, e) == e.link.ladder.value.length
    ensures e.link.ladder.None? && 0.0 < e.link.length ==> Travel(distance, e) == e.link.length
    ensures e.link.ladder.None? && e.link.length <= 0.0 ==> Travel(distance, e) == distance(e.link.to, e.from)
  {
  }

  /** `SMPathCost::operator()` for an area that is not the first one, without a plugin function. */
  function DefaultCost(attributes: bv32, distance: (nat, nat) -> real, e: Edge, g: real): real {
    var dist := Travel(distance, e);
    var cost := dist + g;
    var cost := if attributes & NAV_MESH_CROUCH != 0 then cost + CROUCH_PENALTY * dist else cost;
    if attributes & NAV_MESH_JUMP != 0 then cost + JUMP_PENALTY * dist else cost
  }

  /** The problem is priced by the default functor. The first area costs nothing. */
  ghost predicate DefaultPriced(p: Problem, attributes: nat -> bv32) {
    && p.startCost == 0.0
    && forall e, g :: p.functor(e, g) == Number(DefaultCost(attributes(e.link.to), p.distance, e, g))
  }

  /** How many times the travelled distance a step into such an area costs. */
  function Factor(attributes: bv32): (r: real)
    ensures 1.0 <= r <= 26.0
  {
    1.0 + (if attributes & NAV_MESH_CROUCH != 0 then CROUCH_PENALTY else 0.0)
        + (if attributes & NAV_MESH_JUMP != 0 then JUMP_PENALTY else 0.0)
  }

  lemma DefaultCostIsLinear(attributes: bv32, distance: (nat, nat) -> real, e: Edge, g: real)
    ensures DefaultCost(attributes, distance, e, g) == g + Factor(attributes) * Travel(distance, e)
    ensures 0.0 <= Travel(distance, e) ==> Travel(distance, e) <= Factor(attributes) * Travel(distance, e)
    ensures Travel(distance, e) < 0.0 ==> Factor(attributes) * Travel(distance, e) < 0.0
  {
  }

  /** The factors in numbers: bit 0 of the attributes marks areas to crouch in, bit 1 those to jump in. */
  lemma FactorTable(attributes: bv32)
    ensures attributes & 3 == 0 ==> Factor(attributes) == 1.0
    ensures attributes & 3 == 1 ==> Factor(attributes) == 21.0
    ensures attributes & 3 == 2 ==> Factor(attributes) == 6.0
    ensures attributes & 3 == 3 ==> Factor(attributes) == 26.0
  {
    assert attributes & 3 == 0 || attributes & 3 == 1 ==> attributes & 2 == 0;
    assert attributes & 3 == 0 || attributes & 3 == 2 ==> attributes & 1 == 0;
    assert attributes & 3 == 1 || attributes & 3 == 3 ==> attributes & 1 != 0;
    assert attributes & 3 == 2 || attributes & 3 == 3 ==> attributes & 2 != 0;
  }

  /** What one connection adds. */
  ghost function Weighted(p: Problem, attributes: nat -> bv32, e: Edge): real {
    Factor(attributes(e.link.to)) * Travel(p.distance, e)
  }

  /** How long a walk is, each connection as long as it is travelled and weighted by the area that it leads to. */
  ghost function WeightedLength(p: Problem, attributes: nat -> bv32, w: seq<Edge>): real {
    if w == [] then 0.0
    else WeightedLength(p, attributes, w[..|w| - 1]) + Weighted(p, attributes, w[|w| - 1])
  }

  /** Every connection of the walk is long enough, against the length up to there, to count in full. */
  ghost predicate CountsInFull(p: Problem, attributes: nat -> bv32, w: seq<Edge>) {
    w != [] ==>
      var before := w[..|w| - 1];
      && CountsInFull(p, attributes, before)
      && 0.00001 * (1.0 + WeightedLength(p, attributes, before)) <= Weighted(p, attributes, w[|w| - 1])
  }

  /** With the default cost such a walk costs its weighted length, and no walk costs less than that. */
  lemma {:induction false} WalkCostIsLength(p: Problem, attributes: nat -> bv32, w: seq<Edge>)
    requires DefaultPriced(p, attributes)
    ensures WalkCost(p, w).Some? ==> WeightedLength(p, attributes, w) <= WalkCost(p, w).value
    ensures CountsInFull(p, attributes, w) ==>
              WalkCost(p, w) == Some(WeightedLength(p, attributes, w)) && 0.0 <= WeightedLength(p, attributes, w)
  {
    hide Step, Weighted, DefaultPriced;
    if w == [] {
      FreeStart(p, attributes);
    } else {
      WalkCostIsLength(p, attributes, w[..|w| - 1]);
      if WalkCost(p, w[..|w| - 1]).Some? {
        PricedStep(p, attributes, w[|w| - 1], WalkCost(p, w[..|w| - 1]).value);
      }
    }
  }

  lemma FreeStart(p: Problem, attributes: nat -> bv32)
    requires DefaultPriced(p, attributes)
    ensures p.startCost == 0.0
  {
  }

  lemma PricedStep(p: Problem, attributes: nat -> bv32, e: Edge, g: real)
    requires DefaultPriced(p, attributes)
    ensures Step(p, e, g).Some? ==> g + Weighted(p, attributes, e) <= Step(p, e, g).value
    ensures 0.0 <= g && 0.00001 * (1.0 + g) <= Weighted(p, attributes, e) ==>
              Step(p, e, g) == Some(g + Weighted(p, attributes, e))
  {
    DefaultCostIsLinear(attributes(e.link.to), p.distance, e, g);
  }

  /** No walk to the same area whose connections count in full is shorter than this one. */
  ghost predicate Shortest(p: Problem, attributes: nat -> bv32, path: seq<Edge>)
    requires ProblemOk(p)
  {
    forall w :: IsWalk(p, w) && End(p, w) == End(p, path) && CountsInFull(p, attributes, w) ==>
      WeightedLength(p, attributes, path) <= WeightedLength(p, attributes, w)
  }

  /** With the default cost, a walk of least cost is a shortest one. */
  lemma LeastCostIsShortest(p: Problem, attributes: nat -> bv32, path: seq<Edge>, c: real)
    requires ProblemOk(p) && DefaultPriced(p, attributes) && WalkCost(p, path) == Some(c) && LeastCost(p, End(p, path), c)
    ensures Shortest(p, attributes, path)
  {
    hide CountsInFull;
    WalkCostIsLength(p, attributes, path);
    forall w | IsWalk(p, w) && End(p, w) == End(p, path) && CountsInFull(p, attributes, w)
      ensures WeightedLength(p, attributes, path) <= WeightedLength(p, attributes, w)
    {
      WalkCostIsLength(p, attributes, w);
    }
  }

  /** With the default cost, steps are monotone exactly when no connection has a negative length. */
  lemma MonotoneIffNoNegativeLength(p: Problem, attributes: nat -> bv32)
    requires DefaultPriced(p, attributes)
    ensures Monotone(p) <==> forall e :: IsEdge(p, e) ==> 0.0 <= Travel(p.distance, e)
  {
    if forall e :: IsEdge(p, e) ==> 0.0 <= Travel(p.distance, e) {
      forall e, g, g' | IsEdge(p, e) && 0.0 <= g <= g' && Step(p, e, g').Some?
        ensures Step(p, e, g).Some? && Step(p, e, g).value <= Step(p, e, g').value
      {
        DefaultCostIsLinear(attributes(e.link.to), p.distance, e, g);
        DefaultCostIsLinear(attributes(e.link.to), p.distance, e, g');
      }
    } else {
      var e :| IsEdge(p, e) && Travel(p.distance, e) < 0.0;
      var loss := -(Factor(attributes(e.link.to)) * Travel(p.distance, e));
      DefaultCostIsLinear(attributes(e.link.to), p.distance, e, 0.0);
      DefaultCostIsLinear(attributes(e.link.to), p.distance, e, loss);
      assert Step(p, e, 0.0).None? && Step(p, e, loss).Some?;
    }
  }

  /** The drop in the heuristic over an edge is paid for by its length, or is negligible. */
  ghost predicate PaysFor(p: Problem, attributes: nat -> bv32, e: Edge)
    requires ProblemOk(p) && IsEdge(p, e)
  {
    var drop := p.h[e.from] - p.h[e.link.to];
    drop <= Factor(attributes(e.link.to)) * Travel(p.distance, e) || drop <= 0.00001
  }

  /** With the default cost and no negative lengths, the heuristic is consistent exactly when every
      connection pays for its drop. */
  lemma ConsistentIffLengthsPay(p: Problem, attributes: nat -> bv32)
    requires ProblemOk(p) && DefaultPriced(p, attributes) && Monotone(p)
    ensures Consistent(p) <==> forall e :: IsEdge(p, e) ==> PaysFor(p, attributes, e)
  {
    MonotoneIffNoNegativeLength(p, attributes);
    forall e, g | IsEdge(p, e) && 0.0 <= g
      ensures Step(p, e, g) == Some(Max(g + Factor(attributes(e.link.to)) * Travel(p.distance, e), MinNewCost(g)))
    {
      DefaultCostIsLinear(attributes(e.link.to), p.distance, e, g);
    }
    if Consistent(p) {
      forall e | IsEdge(p, e)
        ensures PaysFor(p, attributes, e)
      {
        assert Step(p, e, 0.0).Some?;
      }
    }
  }

  /** Straight-line heuristics are consistent when no connection is shorter than the straight line. */
  lemma StraightLinesAreConsistent(p: Problem, attributes: nat -> bv32, goal: nat)
    requires ProblemOk(p) && DefaultPriced(p, attributes) && goal < |p.h|
    requires forall u, v :: 0.0 <= p.distance(u, v)
    requires forall u, v, w :: p.distance(u, w) <= p.distance(v, u) + p.distance(v, w)
    requires forall u :: 0 <= u < |p.h| ==> p.h[u] == p.distance(u, goal)
    requires forall e :: IsEdge(p, e) ==> p.distance(e.link.to, e.from) <= Travel(p.distance, e)
    ensures Monotone(p) && Consistent(p)
  {
    MonotoneIffNoNegativeLength(p, attributes);
    forall e | IsEdge(p, e)
      ensures PaysFor(p, attributes, e)
    {
      DefaultCostIsLinear(attributes(e.link.to), p.distance, e, 0.0);
    }
    ConsistentIffLengthsPay(p, attributes);
  }
}
