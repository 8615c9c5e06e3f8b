/** One A* search as a transition system on values: what a relaxation does
    (extension/sourcesdk/nav_mesh.cpp:377-459), and what a walk through the mesh costs. */
module AStar {
  import opened OpenList
  import opened NavGraphs
  import opened Wrappers

  /** What a cost functor returns. */
  datatype CostResult = NotANumber | Number(value: real)

  /** Everything that is fixed during one search. `target` holds of the areas that end the search. */
  datatype Problem = Problem(
    links: seq<seq<Link>>, blocked: seq<bool>, target: seq<bool>, h: seq<real>,
    functor: (Edge, real) -> CostResult, distance: (nat, nat) -> real, maxPathLength: real,
    start: nat, startCost: real)

  ghost predicate ProblemOk(p: Problem) {
    && |p.blocked| == |p.target| == |p.h| == |p.links|
    && (forall u, i :: 0 <= u < |p.links| && 0 <= i < |p.links[u]| ==> p.links[u][i].to < |p.links|)
    && p.start < |p.links|
    && 0.0 <= p.startCost
  }

  ghost predicate IsEdge(p: Problem, e: Edge) {
    e.from < |p.links| && e.link in p.links[e.from]
  }

  /** Both ends of the edge may be walked on. */
  ghost predicate Usable(p: Problem, e: Edge)
    requires ProblemOk(p)
  {
    IsEdge(p, e) && e.link.to < |p.links| && !p.blocked[e.from] && !p.blocked[e.link.to]
  }

  const NAN_COST := 1000000000000000000000000000000.0

  function MinNewCost(g: real): real {
    g * 1.00001 + 0.00001
  }

  function Max(x: real, y: real): real {
    if x > y then x else y
  }

  /** The cost of arriving over e from an area that cost g, or None for a dead end (lines 388-409). */
  function Step(p: Problem, e: Edge, g: real): (r: Option<real>)
    ensures r.Some? ==> MinNewCost(g) <= r.value
  {
    match p.functor(e, g)
    case NotANumber => Some(Max(NAN_COST, MinNewCost(g)))
    case Number(c) => if c < 0.0 then None else Some(Max(c, MinNewCost(g)))
  }

  /** What a step costs, in numbers: what the functor answers, but at least a hundred-thousandth and a bit more than
      the way up to there; a negative answer is a dead end, and no number is a usable step that is very dear. */
  lemma StepIsFloored(p: Problem, e: Edge, g: real)
    requires 0.0 <= g
    ensures match p.functor(e, g)
            case NotANumber =>
              Step(p, e, g).Some? && 1000000000000000000000000000000.0 <= Step(p, e, g).value
              && (g <= 999980000000000000000000000000.0 ==> Step(p, e, g).value == 1000000000000000000000000000000.0)
            case Number(c) =>
              && (c < 0.0 <==> Step(p, e, g).None?)
              && (0.00001 * (1.0 + g) <= c - g ==> Step(p, e, g) == Some(c))
              && (0.0 <= c && c - g < 0.00001 * (1.0 + g) ==> Step(p, e, g) == Some(g + 0.00001 * (1.0 + g)))
  {
  }

  lemma StepIncreases(p: Problem, e: Edge, g: real)
    requires 0.0 <= g && Step(p, e, g).Some?
    ensures g < Step(p, e, g).value
  {
  }

  // ---------- Walks ----------

  ghost function Node(p: Problem, w: seq<Edge>, i: nat): nat
    requires i <= |w|
  {
    if i == 0 then p.start else w[i - 1].link.to
  }

  ghost function End(p: Problem, w: seq<Edge>): nat {
    Node(p, w, |w|)
  }

  /** A walk over usable edges from the start. */
  ghost predicate IsWalk(p: Problem, w: seq<Edge>)
    requires ProblemOk(p)
  {
    && (forall i {:trigger Usable(p, w[i])} :: 0 <= i < |w| ==> Usable(p, w[i]))
    && (forall i {:trigger w[i].from} :: 0 <= i < |w| ==> w[i].from == Node(p, w, i))
  }

  ghost predicate Simple(p: Problem, w: seq<Edge>) {
    forall i, j :: 0 <= i < j <= |w| ==> Node(p, w, i) != Node(p, w, j)
  }

  /** The cost of a walk: relax its edges one after the other. */
  ghost function WalkCost(p: Problem, w: seq<Edge>): Option<real> {
    if w == [] then Some(p.startCost)
    else
      match WalkCost(p, w[..|w| - 1])
      case None => None
      case Some(g) => Step(p, w[|w| - 1], g)
  }

  lemma {:induction false} WalkCostGrows(p: Problem, w: seq<Edge>, i: nat)
    requires 0.0 <= p.startCost && i <= |w| && WalkCost(p, w).Some?
    ensures WalkCost(p, w[..i]).Some? && p.startCost <= WalkCost(p, w[..i]).value <= WalkCost(p, w).value
  {
    if i == |w| {
      assert w[..i] == w;
      if w != [] {
        WalkCostGrows(p, w[..|w| - 1], |w| - 1);
        assert w[..|w| - 1][..|w| - 1] == w[..|w| - 1];
      }
    } else {
      WalkCostGrows(p, w[..|w| - 1], i);
      assert w[..|w| - 1][..i] == w[..i];
    }
  }

  // ---------- Search states ----------

  /** `cost` holds the areas reached so far. `walk` records the walk that each cost came from; it is
      history, not something the code stores. */
  datatype State = State(
    cost: map<nat, real>, parent: map<nat, Edge>, walk: map<nat, seq<Edge>>,
    open: seq<nat>, marked: set<nat>, length: map<nat, real>, closest: nat)

  /** The estimate an area is listed under. The start keeps its bare heuristic (line 183). */
  function Total(p: Problem, cost: map<nat, real>, v: nat): real
    requires v in cost && v < |p.h|
  {
    if v == p.start then p.h[v] else cost[v] + p.h[v]
  }

  function Initial(p: Problem): State
  {
    State(map[p.start := p.startCost], map[], map[p.start := []], [p.start], {}, map[p.start := 0.0], p.start)
  }

  /** The new cost of e.link.to if the search accepts it over e, None if line 379-427 skips it. */
  function Accepted(p: Problem, s: State, e: Edge): Option<real>
    requires e.from in s.cost && e.link.to < |p.blocked|
    requires p.maxPathLength > 0.0 ==> e.from in s.length
    requires forall v :: v in s.open || v in s.marked ==> v in s.cost
  {
    var v := e.link.to;
    if e.from in s.parent && s.parent[e.from].from == v then None
    else if v == e.from || p.blocked[v] then None
    else
      match Step(p, e, s.cost[e.from])
      case None => None
      case Some(c) =>
        if p.maxPathLength > 0.0 && s.length[e.from] + p.distance(v, e.from) > p.maxPathLength then None
        else if (v in s.open || v in s.marked) && s.cost[v] <= c then None
        else Some(c)
  }

  /** Lines 411-421: the stored length changes even when the route is then rejected as worse. */
  function NewLength(p: Problem, s: State, e: Edge): map<nat, real>
    requires e.from in s.cost && e.link.to < |p.blocked|
    requires p.maxPathLength > 0.0 ==> e.from in s.length
  {
    var v := e.link.to;
    if e.from in s.parent && s.parent[e.from].from == v then s.length
    else if v == e.from || p.blocked[v] || Step(p, e, s.cost[e.from]).None? || p.maxPathLength <= 0.0 then s.length
    else
      var newLength := s.length[e.from] + p.distance(v, e.from);
      if newLength > p.maxPathLength then s.length else s.length[v := newLength]
  }

  /** Lines 431-459: v is reached, or reached again, at cost c over e. The list keeps its order. */
  ghost predicate Improves(p: Problem, s: State, e: Edge, c: real, s': State)
    requires e.from in s.walk && e.link.to < |p.h| && s.closest < |p.h|
  {
    var v := e.link.to;
    && s'.cost == s.cost[v := c]
    && s'.parent == s.parent[v := e]
    && s'.walk == s.walk[v := s.walk[e.from] + [e]]
    && (forall x :: x in s'.open <==> x in s.open || x == v)
    && Distinct(s'.open)
    && OpenOk(p, s')
    && s'.marked == s.marked
    && s'.closest == if p.h[v] < p.h[s.closest] then v else s.closest
  }

  /** What one relaxation may do. */
  ghost predicate Relaxes(p: Problem, s: State, e: Edge, s': State)
    requires ProblemOk(p) && Known(p, s) && IsEdge(p, e) && e.from in s.cost
  {
    && s'.length == NewLength(p, s, e)
    && match Accepted(p, s, e)
       case None => s' == s.(length := s'.length)
       case Some(c) => Improves(p, s, e, c, s')
  }

  // ---------- What every state satisfies ----------

  ghost predicate Known(p: Problem, s: State)
    requires ProblemOk(p)
  {
    && p.start in s.cost
    && (forall v :: v in s.cost ==> v < |p.links|)
    && s.parent.Keys == s.cost.Keys - {p.start}
    && s.walk.Keys == s.cost.Keys
    && (forall v :: v in s.open ==> v in s.cost)
    && Distinct(s.open)
    && s.marked <= s.cost.Keys
    && (p.maxPathLength > 0.0 ==> s.cost.Keys <= s.length.Keys)
    && s.closest in s.cost
  }

  /** The open list is ordered by estimate. */
  ghost predicate OpenOk(p: Problem, s: State) {
    && (forall v :: v in s.open ==> v in s.cost && v < |p.h|)
    && (forall i, j :: 0 <= i < j < |s.open| ==> Total(p, s.cost, s.open[i]) <= Total(p, s.cost, s.open[j]))
  }

  /** Every reached area but the start hangs on a reached parent that is strictly cheaper, by a real
      connection between unblocked areas. */
  ghost predicate TreeOk(p: Problem, s: State)
    requires ProblemOk(p) && Known(p, s)
  {
    && s.cost[p.start] == p.startCost
    && (forall v {:trigger HangsOn(p, s, v, s.parent[v])} :: v in s.parent ==> HangsOn(p, s, v, s.parent[v]))
  }

  ghost predicate HangsOn(p: Problem, s: State, v: nat, e: Edge)
    requires ProblemOk(p) && v in s.cost
  {
    Usable(p, e) && e.link.to == v && e.from in s.cost && p.startCost <= s.cost[e.from] < s.cost[v]
  }

  /** Every cost is the cost of a simple walk from the start, all of whose areas have been reached, at no
      more than they cost on that walk. */
  ghost predicate WalksOk(p: Problem, s: State)
    requires ProblemOk(p) && Known(p, s)
  {
    forall v {:trigger WalkOk(p, s.cost, v, s.walk[v])} :: v in s.cost ==> WalkOk(p, s.cost, v, s.walk[v])
  }

  ghost predicate WalkOk(p: Problem, cost: map<nat, real>, v: nat, w: seq<Edge>)
    requires ProblemOk(p) && v in cost
  {
    && IsWalk(p, w) && Simple(p, w) && End(p, w) == v
    && WalkCost(p, w) == Some(cost[v])
    && (forall i {:trigger NodeReached(p, cost, w, i)} :: 0 <= i <= |w| ==> NodeReached(p, cost, w, i))
  }

  ghost predicate NodeReached(p: Problem, cost: map<nat, real>, w: seq<Edge>, i: nat)
    requires i <= |w|
  {
    && Node(p, w, i) in cost
    && WalkCost(p, w[..i]).Some?
    && cost[Node(p, w, i)] <= WalkCost(p, w[..i]).value
  }

  /** e needs no relaxing: it is unusable, or its end is already at most as dear as over e. */
  ghost predicate Satisfied(p: Problem, s: State, e: Edge)
    requires ProblemOk(p) && e.from in s.cost
  {
    Usable(p, e) && Step(p, e, s.cost[e.from]).Some? ==>
      e.link.to in s.cost && s.cost[e.link.to] <= Step(p, e, s.cost[e.from]).value
  }

  /** Every reached area is open, closed or busy. */
  ghost predicate Covered(s: State, busy: set<nat>) {
    forall v :: v in s.cost ==> v in s.open || v in s.marked || v in busy
  }

  /** With no length limit, every area that is closed and not busy has all its connections satisfied. */
  ghost predicate Settled(p: Problem, s: State, busy: set<nat>)
    requires ProblemOk(p) && Known(p, s)
  {
    p.maxPathLength <= 0.0 ==>
      forall u {:trigger AllSatisfied(p, s, u)} :: u in s.marked && u !in s.open && u !in busy ==> AllSatisfied(p, s, u)
  }

  ghost predicate AllSatisfied(p: Problem, s: State, u: nat)
    requires ProblemOk(p) && u in s.cost && u < |p.links|
  {
    forall l {:trigger Satisfied(p, s, Edge(u, l))} :: l in p.links[u] ==> Satisfied(p, s, Edge(u, l))
  }

  ghost predicate ClosestOk(p: Problem, s: State)
    requires ProblemOk(p) && Known(p, s)
  {
    forall v :: v in s.cost ==> p.h[s.closest] <= p.h[v]
  }

  /** The invariant of the search while the areas in `busy` are being expanded. */
  ghost predicate Inv(p: Problem, s: State, busy: set<nat>)
    requires ProblemOk(p)
  {
    && Known(p, s) && OpenOk(p, s) && TreeOk(p, s) && WalksOk(p, s)
    && Covered(s, busy) && Settled(p, s, busy) && ClosestOk(p, s)
  }

  lemma InitialInv(p: Problem)
    requires ProblemOk(p)
    ensures Inv(p, Initial(p), {})
  {
    var s := Initial(p);
    assert WalkCost(p, []) == Some(p.startCost);
    var w: seq<Edge> := [];
    assert w[..0] == w && NodeReached(p, s.cost, w, 0);
    assert WalkOk(p, s.cost, p.start, w);
  }

  // ---------- Relaxing keeps the invariant ----------

  /** An area that is being expanded neither sits on the open list nor gets any cheaper. */
  ghost predicate Expanding(p: Problem, s: State, u: nat)
    requires ProblemOk(p)
  {
    Inv(p, s, {u}) && u in s.cost && u !in s.open && !p.blocked[u]
  }

  /** What an accepted relaxation over e means: a reached area gets strictly cheaper, and never the start
      or the area being expanded. */
  lemma AcceptedIsNews(p: Problem, s: State, e: Edge)
    requires ProblemOk(p) && Known(p, s) && TreeOk(p, s) && Covered(s, {e.from})
    requires IsEdge(p, e) && e.from in s.cost && !p.blocked[e.from] && Accepted(p, s, e).Some?
    ensures var c, v := Accepted(p, s, e).value, e.link.to;
            && Step(p, e, s.cost[e.from]) == Some(c) && Usable(p, e)
            && p.startCost <= s.cost[e.from] < c
            && v != e.from && v != p.start
            && (v in s.cost ==> c < s.cost[v])
  {
    CostAtLeastStart(p, s, e.from);
    StepIncreases(p, e, s.cost[e.from]);
  }

  lemma CostAtLeastStart(p: Problem, s: State, v: nat)
    requires ProblemOk(p) && Known(p, s) && TreeOk(p, s) && v in s.cost
    ensures p.startCost <= s.cost[v]
  {
    if v != p.start {
      assert HangsOn(p, s, v, s.parent[v]);
    }
  }

  ghost predicate Cheaper(cost: map<nat, real>, cost': map<nat, real>) {
    forall v :: v in cost ==> v in cost' && cost'[v] <= cost[v]
  }

  lemma WalkOkStays(p: Problem, cost: map<nat, real>, cost': map<nat, real>, v: nat, w: seq<Edge>)
    requires ProblemOk(p) && v in cost && WalkOk(p, cost, v, w)
    requires Cheaper(cost, cost') && cost'[v] == cost[v]
    ensures WalkOk(p, cost', v, w)
  {
    forall i | 0 <= i <= |w|
      ensures NodeReached(p, cost', w, i)
    {
      assert NodeReached(p, cost, w, i);
    }
  }

  /** A walk continued over e to news is a simple walk: whatever lies on it is cheaper than the news. */
  lemma WalkOkExtends(p: Problem, cost: map<nat, real>, w: seq<Edge>, e: Edge, c: real)
    requires ProblemOk(p) && Usable(p, e) && e.from in cost && WalkOk(p, cost, e.from, w)
    requires Step(p, e, cost[e.from]) == Some(c) && cost[e.from] < c
    requires e.link.to in cost ==> c < cost[e.link.to]
    ensures WalkOk(p, cost[e.link.to := c], e.link.to, w + [e])
  {
    hide IsWalk, Simple, Node, NodeReached, Step;
    var w', cost' := w + [e], cost[e.link.to := c];
    NewsReached(p, cost, w, e, c);
    forall i | 0 <= i <= |w'|
      ensures NodeReached(p, cost', w', i) && (i <= |w| ==> Node(p, w, i) != e.link.to)
    {
      if i <= |w| {
        NodeStaysReached(p, cost, w, e, c, i);
      }
    }
    AppendWalk(p, w, e);
  }

  /** What the news is dearer than is not the news, and is reached as before. */
  lemma NodeStaysReached(p: Problem, cost: map<nat, real>, w: seq<Edge>, e: Edge, c: real, i: nat)
    requires ProblemOk(p) && e.from in cost && WalkOk(p, cost, e.from, w) && i <= |w| && cost[e.from] < c
    requires e.link.to in cost ==> c < cost[e.link.to]
    ensures Node(p, w, i) != e.link.to && NodeReached(p, cost[e.link.to := c], w + [e], i)
  {
    hide IsWalk, Simple, WalkCost;
    NodeBelow(p, cost, e.from, w, i);
    assert (w + [e])[..i] == w[..i];
  }

  lemma NewsReached(p: Problem, cost: map<nat, real>, w: seq<Edge>, e: Edge, c: real)
    requires e.from in cost && WalkCost(p, w) == Some(cost[e.from]) && Step(p, e, cost[e.from]) == Some(c)
    ensures WalkCost(p, w + [e]) == Some(c) && NodeReached(p, cost[e.link.to := c], w + [e], |w + [e]|)
  {
    hide Step;
    var w' := w + [e];
    assert w'[..|w'| - 1] == w && w'[..|w'|] == w';
  }

  lemma AppendWalk(p: Problem, w: seq<Edge>, e: Edge)
    requires ProblemOk(p) && IsWalk(p, w) && Usable(p, e) && e.from == End(p, w)
    ensures IsWalk(p, w + [e]) && End(p, w + [e]) == e.link.to
    ensures Simple(p, w) && (forall i :: 0 <= i <= |w| ==> Node(p, w, i) != e.link.to) ==> Simple(p, w + [e])
  {
    var w' := w + [e];
    assert forall i :: 0 <= i <= |w| ==> Node(p, w', i) == Node(p, w, i);
  }

  lemma NodeBelow(p: Problem, cost: map<nat, real>, u: nat, w: seq<Edge>, i: nat)
    requires ProblemOk(p) && u in cost && WalkOk(p, cost, u, w) && i <= |w|
    ensures NodeReached(p, cost, w, i) && cost[Node(p, w, i)] <= cost[u]
  {
    assert NodeReached(p, cost, w, i);
    WalkCostGrows(p, w, i);
  }

  lemma ImproveKeepsKnown(p: Problem, s: State, e: Edge, c: real, s': State)
    requires ProblemOk(p) && Known(p, s) && IsEdge(p, e) && e.from in s.cost && e.link.to != p.start
    requires Improves(p, s, e, c, s')
    requires p.maxPathLength > 0.0 ==> s'.length.Keys == s.length.Keys + {e.link.to}
    ensures Known(p, s')
  {
  }

  lemma ImproveKeepsTree(p: Problem, s: State, e: Edge, c: real, s': State)
    requires ProblemOk(p) && Known(p, s) && TreeOk(p, s) && Known(p, s')
    requires Usable(p, e) && e.from in s.cost && Improves(p, s, e, c, s')
    requires p.startCost <= s.cost[e.from] < c && e.link.to !in {e.from, p.start}
    requires e.link.to in s.cost ==> c < s.cost[e.link.to]
    ensures TreeOk(p, s') && Cheaper(s.cost, s'.cost)
  {
    forall v | v in s'.parent
      ensures HangsOn(p, s', v, s'.parent[v])
    {
      if v != e.link.to {
        assert HangsOn(p, s, v, s.parent[v]);
      }
    }
  }

  lemma ImproveKeepsWalks(p: Problem, s: State, e: Edge, c: real, s': State)
    requires ProblemOk(p) && Known(p, s) && WalksOk(p, s) && Known(p, s')
    requires Usable(p, e) && e.from in s.cost && Improves(p, s, e, c, s')
    requires Step(p, e, s.cost[e.from]) == Some(c) && s.cost[e.from] < c
    requires e.link.to in s.cost ==> c < s.cost[e.link.to]
    ensures WalksOk(p, s')
  {
    forall v | v in s'.cost
      ensures WalkOk(p, s'.cost, v, s'.walk[v])
    {
      if v == e.link.to {
        WalkOkExtends(p, s.cost, s.walk[e.from], e, c);
      } else {
        WalkOkStays(p, s.cost, s'.cost, v, s.walk[v]);
      }
    }
  }

  lemma AllSatisfiedStays(p: Problem, s: State, s': State, u: nat)
    requires ProblemOk(p) && u in s.cost && u < |p.links| && AllSatisfied(p, s, u)
    requires Cheaper(s.cost, s'.cost) && s'.cost[u] == s.cost[u]
    ensures AllSatisfied(p, s', u)
  {
    forall l | l in p.links[u]
      ensures Satisfied(p, s', Edge(u, l))
    {
      assert Satisfied(p, s, Edge(u, l));
    }
  }

  lemma ImproveKeepsSettled(p: Problem, s: State, e: Edge, c: real, s': State)
    requires ProblemOk(p) && Known(p, s) && Settled(p, s, {e.from}) && Known(p, s') && Cheaper(s.cost, s'.cost)
    requires IsEdge(p, e) && e.from in s.cost && Improves(p, s, e, c, s')
    ensures Settled(p, s', {e.from})
  {
    forall u | p.maxPathLength <= 0.0 && u in s'.marked && u !in s'.open && u !in {e.from}
      ensures AllSatisfied(p, s', u)
    {
      AllSatisfiedStays(p, s, s', u);
    }
  }

  /** One relaxation from the area being expanded keeps the invariant, never makes an area dearer, leaves
      the expanded area alone and, with no length limit, satisfies the edge. */
  lemma RelaxKeepsInv(p: Problem, s: State, e: Edge, s': State)
    requires ProblemOk(p) && Expanding(p, s, e.from) && IsEdge(p, e) && Relaxes(p, s, e, s')
    ensures Expanding(p, s', e.from) && Cheaper(s.cost, s'.cost) && s'.cost[e.from] == s.cost[e.from]
    ensures p.maxPathLength <= 0.0 ==> Satisfied(p, s', e)
  {
    match Accepted(p, s, e)
    case Some(c) =>
      ImproveKeepsInv(p, s, e, c, s');
    case None =>
      SkipKeepsInv(p, s, e, s');
      if p.maxPathLength <= 0.0 {
        SkippedIsSatisfied(p, s, e);
      }
  }

  lemma ImproveKeepsInv(p: Problem, s: State, e: Edge, c: real, s': State)
    requires ProblemOk(p) && Inv(p, s, {e.from}) && e.from in s.cost && e.from !in s.open && !p.blocked[e.from]
    requires IsEdge(p, e) && Accepted(p, s, e) == Some(c) && s'.length == NewLength(p, s, e) && Improves(p, s, e, c, s')
    ensures Inv(p, s', {e.from}) && Cheaper(s.cost, s'.cost) && s'.cost[e.from] == s.cost[e.from]
    ensures e.from !in s'.open && Satisfied(p, s', e)
  {
    AcceptedIsNews(p, s, e);
    ImproveKeepsKnown(p, s, e, c, s');
    ImproveKeepsTree(p, s, e, c, s');
    ImproveKeepsWalks(p, s, e, c, s');
    ImproveKeepsSettled(p, s, e, c, s');
  }

  lemma SkipKeepsInv(p: Problem, s: State, e: Edge, s': State)
    requires ProblemOk(p) && Inv(p, s, {e.from}) && s' == s.(length := s'.length)
    requires s.length.Keys <= s'.length.Keys
    ensures Inv(p, s', {e.from})
  {
    forall v | v in s'.parent
      ensures HangsOn(p, s', v, s'.parent[v])
    {
      assert HangsOn(p, s, v, s.parent[v]);
    }
    forall u | p.maxPathLength <= 0.0 && u in s'.marked && u !in s'.open && u !in {e.from}
      ensures AllSatisfied(p, s', u)
    {
      AllSatisfiedStays(p, s, s', u);
    }
  }

  /** Not stepping back to the parent or to itself loses nothing: both are cheaper than any step there. */
  lemma SkippedIsSatisfied(p: Problem, s: State, e: Edge)
    requires ProblemOk(p) && Known(p, s) && TreeOk(p, s) && Covered(s, {e.from})
    requires IsEdge(p, e) && e.from in s.cost && Accepted(p, s, e).None?
    requires p.maxPathLength <= 0.0
    ensures Satisfied(p, s, e)
  {
    CostAtLeastStart(p, s, e.from);
    if Step(p, e, s.cost[e.from]).Some? {
      StepIncreases(p, e, s.cost[e.from]);
      if e.from in s.parent {
        assert HangsOn(p, s, e.from, s.parent[e.from]);
      }
    }
  }
}
