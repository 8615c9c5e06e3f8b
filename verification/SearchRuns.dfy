/** The runs of the main loop of `NavAreaBuildPath` (extension/sourcesdk/nav_mesh.cpp:179-467) as sequences of
    states, and what it takes for a run that finds nothing to be right. */
module SearchRuns {
  import opened NavAreas
  import opened NavGraphs
  import opened AStar
  import opened AStarTheorems
  import opened Wrappers

  // ---------- Runs ----------

  /** s' may come of relaxing the first k connections of u, one after the other. */
  ghost predicate Relaxed(p: Problem, s: State, s': State, u: nat, k: nat)
    requires ProblemOk(p)
  {
    u < |p.links| && k <= |p.links[u]| && exists chain :: IsChain(p, chain, u, k) && chain[0] == s && chain[k] == s'
  }

  ghost predicate IsChain(p: Problem, chain: seq<State>, u: nat, k: nat)
    requires ProblemOk(p) && u < |p.links| && k <= |p.links[u]|
  {
    |chain| == k + 1 && forall i :: 0 <= i < k ==> LinkAt(p, chain, u, i)
  }

  ghost predicate LinkAt(p: Problem, chain: seq<State>, u: nat, i: int)
    requires ProblemOk(p) && u < |p.links| && 0 <= i < |chain| - 1 <= |p.links[u]|
  {
    RelaxesNext(p, chain[i], u, i, chain[i + 1])
  }

  ghost predicate RelaxesNext(p: Problem, t: State, u: nat, i: nat, s': State)
    requires ProblemOk(p) && u < |p.links| && i < |p.links[u]|
  {
    Known(p, t) && u in t.cost && Relaxes(p, t, Edge(u, p.links[u][i]), s')
  }

  /** One turn that expands and closes the head of the open list. */
  ghost predicate Expands(p: Problem, s: State, s': State)
    requires ProblemOk(p)
  {
    && s.open != [] && s.open[0] < |p.links| && !p.blocked[s.open[0]] && !p.target[s.open[0]]
    && exists t :: Relaxed(p, s.(open := s.open[1..]), t, s.open[0], |p.links[s.open[0]]|) && s' == WithClosed(t, s.open[0])
  }

  function WithClosed(s: State, u: nat): State {
    s.(marked := s.marked + {u})
  }

  ghost predicate IsRun(p: Problem, run: seq<State>)
    requires ProblemOk(p)
  {
    run != [] && run[0] == Initial(p) && forall i :: 0 < i < |run| ==> TurnAt(p, run, i)
  }

  ghost predicate TurnAt(p: Problem, run: seq<State>, i: int)
    requires ProblemOk(p) && 0 < i < |run|
  {
    Expands(p, run[i - 1], run[i])
  }

  /** A run with nothing left to expand: the search has failed. */
  ghost predicate EndsRun(p: Problem, run: seq<State>)
    requires ProblemOk(p)
  {
    IsRun(p, run) && run[|run| - 1].open == []
  }

  /** A state that the main loop may come to. */
  ghost predicate ComesTo(p: Problem, s: State)
    requires ProblemOk(p)
  {
    exists run :: IsRun(p, run) && run[|run| - 1] == s
  }

  lemma StartsThere(p: Problem)
    requires ProblemOk(p)
    ensures ComesTo(p, Initial(p))
  {
    assert IsRun(p, [Initial(p)]);
  }

  lemma ComesOn(p: Problem, s: State, s': State)
    requires ProblemOk(p) && ComesTo(p, s) && Expands(p, s, s')
    ensures ComesTo(p, s')
  {
    hide Expands;
    var run :| IsRun(p, run) && run[|run| - 1] == s;
    var on := run + [s'];
    forall i | 0 < i < |on|
      ensures TurnAt(p, on, i)
    {
      assert i < |run| ==> TurnAt(p, run, i) && on[i] == run[i];
    }
    assert IsRun(p, on);
  }

  lemma RelaxedOn(p: Problem, s: State, t: State, s': State, u: nat, k: nat)
    requires ProblemOk(p) && u < |p.links| && k < |p.links[u]| && Relaxed(p, s, t, u, k) && RelaxesNext(p, t, u, k, s')
    ensures Relaxed(p, s, s', u, k + 1)
  {
    hide RelaxesNext;
    var chain :| IsChain(p, chain, u, k) && chain[0] == s && chain[k] == t;
    var on := chain + [s'];
    forall i | 0 <= i < k + 1
      ensures LinkAt(p, on, u, i)
    {
      assert i < k ==> LinkAt(p, chain, u, i);
    }
    assert IsChain(p, on, u, k + 1);
  }

  lemma NoneRelaxed(p: Problem, s: State, u: nat)
    requires ProblemOk(p) && u < |p.links|
    ensures Relaxed(p, s, s, u, 0)
  {
    assert IsChain(p, [s], u, 0);
  }

  lemma RelaxedBack(p: Problem, s: State, s': State, u: nat, k: nat) returns (t: State)
    requires ProblemOk(p) && 0 < k && Relaxed(p, s, s', u, k)
    ensures Relaxed(p, s, t, u, k - 1) && RelaxesNext(p, t, u, k - 1, s')
  {
    hide RelaxesNext;
    var chain :| IsChain(p, chain, u, k) && chain[0] == s && chain[k] == s';
    var before := chain[..k];
    t := chain[k - 1];
    assert LinkAt(p, chain, u, k - 1);
    forall i | 0 <= i < k - 1
      ensures LinkAt(p, before, u, i)
    {
      assert LinkAt(p, chain, u, i);
    }
    assert IsChain(p, before, u, k - 1);
  }

  // ---------- Every run keeps the invariant ----------

  lemma StillSatisfied(p: Problem, t: State, s': State, u: nat, k: nat)
    requires ProblemOk(p) && u < |p.links| && k < |p.links[u]|
    requires u in t.cost && Cheaper(t.cost, s'.cost) && s'.cost[u] == t.cost[u]
    requires forall i :: 0 <= i < k ==> Satisfied(p, t, Edge(u, p.links[u][i]))
    requires Satisfied(p, s', Edge(u, p.links[u][k]))
    ensures forall i :: 0 <= i < k + 1 ==> Satisfied(p, s', Edge(u, p.links[u][i]))
  {
    forall i | 0 <= i < k + 1
      ensures Satisfied(p, s', Edge(u, p.links[u][i]))
    {
      assert i < k ==> Satisfied(p, t, Edge(u, p.links[u][i]));
    }
  }

  lemma {:induction false} RelaxedKeepsInv(p: Problem, s: State, s': State, u: nat, k: nat)
    requires ProblemOk(p) && p.maxPathLength <= 0.0 && Expanding(p, s, u) && Relaxed(p, s, s', u, k)
    ensures Expanding(p, s', u) && s'.marked == s.marked
    ensures forall i :: 0 <= i < k ==> Satisfied(p, s', Edge(u, p.links[u][i]))
    decreases k
  {
    hide Expanding, Satisfied, Relaxes, Relaxed;
    if k == 0 {
      NothingRelaxed(p, s, s', u);
    } else {
      var t := RelaxedBack(p, s, s', u, k);
      RelaxedIsOfArea(p, s, s', u, k);
      RelaxedKeepsInv(p, s, t, u, k - 1);
      RelaxKeepsInv(p, t, Edge(u, p.links[u][k - 1]), s');
      SameMarked(p, t, Edge(u, p.links[u][k - 1]), s');
      StillSatisfied(p, t, s', u, k - 1);
    }
  }

  lemma NothingRelaxed(p: Problem, s: State, s': State, u: nat)
    requires ProblemOk(p) && Relaxed(p, s, s', u, 0)
    ensures s' == s
  {
  }

  lemma RelaxedIsOfArea(p: Problem, s: State, s': State, u: nat, k: nat)
    requires ProblemOk(p) && Relaxed(p, s, s', u, k)
    ensures u < |p.links| && k <= |p.links[u]|
  {
  }

  lemma SameMarked(p: Problem, s: State, e: Edge, s': State)
    requires ProblemOk(p) && Known(p, s) && IsEdge(p, e) && e.from in s.cost && Relaxes(p, s, e, s')
    ensures s'.marked == s.marked
  {
  }

  lemma ExpandsKeepsInv(p: Problem, s: State, s': State)
    requires ProblemOk(p) && p.maxPathLength <= 0.0 && Inv(p, s, {}) && NoTargetClosed(p, s) && Expands(p, s, s')
    ensures Inv(p, s', {}) && NoTargetClosed(p, s')
  {
    hide Inv, Relaxed, NoTargetClosed;
    var u := s.open[0];
    var t :| Relaxed(p, s.(open := s.open[1..]), t, u, |p.links[u]|) && s' == WithClosed(t, u);
    PopKeepsInv(p, s);
    RelaxedThenClosed(p, s.(open := s.open[1..]), t, u);
    CloseNoTarget(p, s, s', u);
  }

  lemma RelaxedThenClosed(p: Problem, s: State, t: State, u: nat)
    requires ProblemOk(p) && p.maxPathLength <= 0.0 && u < |p.links|
    requires Expanding(p, s, u) && Relaxed(p, s, t, u, |p.links[u]|)
    ensures Inv(p, WithClosed(t, u), {}) && t.marked == s.marked
  {
    hide Inv, Relaxed, Satisfied;
    RelaxedKeepsInv(p, s, t, u, |p.links[u]|);
    EachSatisfied(p, t, u);
    CloseKeepsInv(p, t, u);
  }

  lemma CloseNoTarget(p: Problem, s: State, s': State, u: nat)
    requires ProblemOk(p) && NoTargetClosed(p, s) && u < |p.target| && !p.target[u] && s'.marked == s.marked + {u}
    ensures NoTargetClosed(p, s')
  {
  }

  lemma EachSatisfied(p: Problem, t: State, u: nat)
    requires ProblemOk(p) && Expanding(p, t, u) && u < |p.links|
    requires forall i :: 0 <= i < |p.links[u]| ==> Satisfied(p, t, Edge(u, p.links[u][i]))
    ensures AllSatisfied(p, t, u)
  {
    forall l | l in p.links[u]
      ensures Satisfied(p, t, Edge(u, l))
    {
      var i :| 0 <= i < |p.links[u]| && p.links[u][i] == l;
      assert Satisfied(p, t, Edge(u, p.links[u][i]));
    }
  }

  lemma {:induction false} RunKeepsInv(p: Problem, run: seq<State>)
    requires ProblemOk(p) && p.maxPathLength <= 0.0 && IsRun(p, run)
    ensures Inv(p, run[|run| - 1], {}) && NoTargetClosed(p, run[|run| - 1])
    decreases |run|
  {
    hide Inv, NoTargetClosed, Expands;
    InitialInv(p);
    if |run| == 1 {
      NothingClosed(p);
    } else {
      var before := run[..|run| - 1];
      assert TurnAt(p, run, |run| - 1);
      forall i | 0 < i < |before|
        ensures TurnAt(p, before, i)
      {
        assert TurnAt(p, run, i);
      }
      RunKeepsInv(p, before);
      ExpandsKeepsInv(p, run[|run| - 2], run[|run| - 1]);
    }
  }

  lemma NothingClosed(p: Problem)
    requires ProblemOk(p)
    ensures NoTargetClosed(p, Initial(p))
  {
  }

  ghost predicate NoWalkToTarget(p: Problem)
    requires ProblemOk(p)
  {
    forall w :: IsWalk(p, w) && WalkCost(p, w).Some? && End(p, w) < |p.target| ==> !p.target[End(p, w)]
  }

  // ---------- Dead ends that depend on the cost so far ----------

  /** A connection that is a dead end at the cost stored for an area, but not at the cost of some walk there, leads
      to an area that has been reached all the same. */
  ghost predicate DeadEndsHarmless(p: Problem, s: State)
    requires ProblemOk(p)
  {
    forall w, e ::
      IsWalk(p, w) && WalkCost(p, w).Some? && Usable(p, e) && e.from == End(p, w) && e.from in s.cost &&
      Step(p, e, WalkCost(p, w).value).Some? && Step(p, e, s.cost[e.from]).None? ==>
        e.link.to in s.cost
  }

  /** For any functor: when the open list is empty, everything that any walk reaches has been reached if and only
      if such dead ends are harmless. */
  lemma ExhaustedReachesAllIff(p: Problem, s: State)
    requires ProblemOk(p) && Inv(p, s, {}) && s.open == [] && p.maxPathLength <= 0.0
    ensures (forall w :: IsWalk(p, w) && WalkCost(p, w).Some? ==> End(p, w) in s.cost) <==> DeadEndsHarmless(p, s)
  {
    hide Inv;
    if DeadEndsHarmless(p, s) {
      forall w | IsWalk(p, w) && WalkCost(p, w).Some?
        ensures End(p, w) in s.cost
      {
        HarmlessReaches(p, s, w);
      }
    } else {
      var w, e :|
        IsWalk(p, w) && WalkCost(p, w).Some? && Usable(p, e) && e.from == End(p, w) && e.from in s.cost &&
        Step(p, e, WalkCost(p, w).value).Some? && Step(p, e, s.cost[e.from]).None? && e.link.to !in s.cost;
      AppendWalk(p, w, e);
      assert (w + [e])[..|w|] == w;
      assert WalkCost(p, w + [e]).Some?;
    }
  }

  lemma {:induction false} HarmlessReaches(p: Problem, s: State, w: seq<Edge>)
    requires ProblemOk(p) && Inv(p, s, {}) && s.open == [] && p.maxPathLength <= 0.0 && DeadEndsHarmless(p, s)
    requires IsWalk(p, w) && WalkCost(p, w).Some?
    ensures End(p, w) in s.cost
  {
    hide IsWalk, WalkCost, OpenOk, TreeOk, WalksOk, ClosestOk;
    if w != [] {
      var e, before := w[|w| - 1], w[..|w| - 1];
      LastStep(p, w);
      HarmlessReaches(p, s, before);
      assert AllSatisfied(p, s, e.from) && Satisfied(p, s, e);
    }
  }

  lemma LastStep(p: Problem, w: seq<Edge>)
    requires ProblemOk(p) && IsWalk(p, w) && WalkCost(p, w).Some? && w != []
    ensures var e, before := w[|w| - 1], w[..|w| - 1];
            && IsWalk(p, before) && WalkCost(p, before).Some? && End(p, before) == e.from && Usable(p, e)
            && Step(p, e, WalkCost(p, before).value).Some? && End(p, w) == e.link.to
  {
    hide Step;
    PrefixWalk(p, w, |w| - 1);
    assert Usable(p, w[|w| - 1]);
  }

  // ---------- Where completeness fails ----------

  function To(v: nat): Link {
    Link(v, GoNorth, None, None, 1.0)
  }

  /** Area 1 is reached from the start at cost a, or by way of area 2 at cost b. From area 1 one gets to the target
      if the functor lets through what arrives at area 1 at its cost. */
  function FourAreas(alive: real -> bool, a: real, b: real): Problem {
    Problem(
      [[To(1), To(2)], [To(3)], [To(1)], []],
      [false, false, false, false], [false, false, false, true], [0.0, 0.0, 0.0, 0.0],
      (e: Edge, g: real) =>
        if e.from == 1 then Number(if alive(g) then g else -1.0)
        else if e.from == 2 then Number(b)
        else if e.link.to == 1 then Number(a)
        else Number(0.0),
      (_, _) => 1.0, 0.0, 0, 0.0)
  }

  /** The least cost of area 2. */
  const SHORT := MinNewCost(0.0)

  ghost predicate InFamily(a: real, b: real) {
    SHORT < a < b && MinNewCost(SHORT) <= b
  }

  lemma FourSteps(alive: real -> bool, a: real, b: real)
    requires InFamily(a, b)
    ensures var p := FourAreas(alive, a, b);
            && Step(p, Edge(0, To(1)), 0.0) == Some(a) && Step(p, Edge(0, To(2)), 0.0) == Some(SHORT)
            && Step(p, Edge(2, To(1)), SHORT) == Some(b)
            && forall g :: 0.0 <= g ==> (Step(p, Edge(1, To(3)), g).Some? <==> alive(g))
  {
  }

  /** Expanding the start, then area 2, then area 1: every area but the target is reached, area 1 at cost a. */
  function FourStates(alive: real -> bool, a: real, b: real): seq<State> {
    var p := FourAreas(alive, a, b);
    var e1, e2 := Edge(0, To(1)), Edge(0, To(2));
    var s := State(map[0 := 0.0, 1 := a, 2 := SHORT], map[1 := e1, 2 := e2], map[0 := [], 1 := [e1], 2 := [e2]],
                   [2, 1], {0}, map[0 := 0.0], 0);
    [Initial(p), s, s.(open := [1], marked := {0, 2}), s.(open := [], marked := {0, 1, 2})]
  }

  lemma FourStatesAreRun(alive: real -> bool, a: real, b: real)
    requires InFamily(a, b) && !alive(a)
    ensures EndsRun(FourAreas(alive, a, b), FourStates(alive, a, b))
  {
    hide Expands, IsRun;
    var p, run := FourAreas(alive, a, b), FourStates(alive, a, b);
    StartExpands(alive, a, b);
    SecondExpands(alive, a, b);
    FirstExpands(alive, a, b);
    RunOfFour(p, run);
  }

  lemma RunOfFour(p: Problem, run: seq<State>)
    requires ProblemOk(p) && |run| == 4 && run[0] == Initial(p)
    requires Expands(p, run[0], run[1]) && Expands(p, run[1], run[2]) && Expands(p, run[2], run[3])
    ensures IsRun(p, run)
  {
    hide Expands;
    forall i | 0 < i < |run|
      ensures TurnAt(p, run, i)
    {
      assert i == 1 || i == 2 || i == 3;
    }
  }

  /** After the first connection of the start. */
  function HalfExpanded(a: real): State {
    var e1 := Edge(0, To(1));
    State(map[0 := 0.0, 1 := a], map[1 := e1], map[0 := [], 1 := [e1]], [1], {}, map[0 := 0.0], 0)
  }

  lemma FirstRelaxes(alive: real -> bool, a: real, b: real)
    requires InFamily(a, b)
    ensures RelaxesNext(FourAreas(alive, a, b), Initial(FourAreas(alive, a, b)).(open := []), 0, 0, HalfExpanded(a))
  {
    var p, e1, t := FourAreas(alive, a, b), Edge(0, To(1)), HalfExpanded(a);
    FourSteps(alive, a, b);
    var popped := Initial(p).(open := []);
    assert p.links[0][0] == To(1);
    assert Accepted(p, popped, e1) == Some(a);
    assert popped.cost == map[0 := 0.0] && popped.parent == map[] && popped.walk == map[0 := []];
    assert popped.walk[0] + [e1] == [e1];
    assert t.cost == popped.cost[1 := a] && t.parent == popped.parent[1 := e1] && t.walk == popped.walk[1 := [e1]];
    assert Improves(p, popped, e1, a, t);
  }

  lemma SecondRelaxes(alive: real -> bool, a: real, b: real)
    requires InFamily(a, b)
    ensures RelaxesNext(FourAreas(alive, a, b), HalfExpanded(a), 0, 1, FourStates(alive, a, b)[1].(marked := {}))
  {
    var p, e2, t := FourAreas(alive, a, b), Edge(0, To(2)), HalfExpanded(a);
    var t' := FourStates(alive, a, b)[1].(marked := {});
    FourSteps(alive, a, b);
    assert p.links[0][1] == To(2);
    assert Accepted(p, t, e2) == Some(SHORT);
    assert t.walk[0] + [e2] == [e2];
    assert t'.cost == t.cost[2 := SHORT] && t'.parent == t.parent[2 := e2] && t'.walk == t.walk[2 := [e2]];
    assert Improves(p, t, e2, SHORT, t');
  }

  lemma StartExpands(alive: real -> bool, a: real, b: real)
    requires InFamily(a, b)
    ensures Expands(FourAreas(alive, a, b), FourStates(alive, a, b)[0], FourStates(alive, a, b)[1])
  {
    hide RelaxesNext;
    var p, run := FourAreas(alive, a, b), FourStates(alive, a, b);
    var popped, t' := Initial(p).(open := []), run[1].(marked := {});
    assert run[0].open[1..] == [];
    FirstRelaxes(alive, a, b);
    SecondRelaxes(alive, a, b);
    NoneRelaxed(p, popped, 0);
    RelaxedOn(p, popped, popped, HalfExpanded(a), 0, 0);
    RelaxedOn(p, popped, HalfExpanded(a), t', 0, 1);
    assert run[1] == WithClosed(t', 0);
  }

  lemma SecondExpands(alive: real -> bool, a: real, b: real)
    requires InFamily(a, b)
    ensures Expands(FourAreas(alive, a, b), FourStates(alive, a, b)[1], FourStates(alive, a, b)[2])
  {
    var p, run := FourAreas(alive, a, b), FourStates(alive, a, b);
    FourSteps(alive, a, b);
    var popped := run[1].(open := [1]);
    assert run[1].open[1..] == [1];
    assert p.links[2][0] == To(1);
    assert RelaxesNext(p, popped, 2, 0, popped);
    NoneRelaxed(p, popped, 2);
    RelaxedOn(p, popped, popped, popped, 2, 0);
    assert run[2] == WithClosed(popped, 2);
  }

  lemma FirstExpands(alive: real -> bool, a: real, b: real)
    requires InFamily(a, b) && !alive(a)
    ensures Expands(FourAreas(alive, a, b), FourStates(alive, a, b)[2], FourStates(alive, a, b)[3])
  {
    var p, run := FourAreas(alive, a, b), FourStates(alive, a, b);
    FourSteps(alive, a, b);
    var popped := run[2].(open := []);
    assert run[2].open[1..] == [];
    assert p.links[1][0] == To(3);
    assert RelaxesNext(p, popped, 1, 0, popped);
    NoneRelaxed(p, popped, 1);
    RelaxedOn(p, popped, popped, popped, 1, 0);
    assert run[3] == WithClosed(popped, 1);
  }

  lemma DetourIsWalk(alive: real -> bool, a: real, b: real)
    requires InFamily(a, b) && alive(b)
    ensures !NoWalkToTarget(FourAreas(alive, a, b))
  {
    var p := FourAreas(alive, a, b);
    FourSteps(alive, a, b);
    var w1 := [Edge(0, To(2))];
    var w2 := w1 + [Edge(2, To(1))];
    var w3 := w2 + [Edge(1, To(3))];
    assert w1[..0] == [] && w2[..1] == w1 && w3[..2] == w2;
    assert WalkCost(p, []) == Some(0.0);
    assert WalkCost(p, w1) == Some(SHORT);
    assert WalkCost(p, w2) == Some(b);
    assert WalkCost(p, w3).Some?;
    assert Usable(p, w3[0]) && Usable(p, w3[1]) && Usable(p, w3[2]);
    assert IsWalk(p, w3) && End(p, w3) == 3;
  }

  /** Area 1 is entered straight from the start, or by way of area 2, and the target from area 1. */
  lemma {:induction false} OnlyWalks(alive: real -> bool, a: real, b: real, w: seq<Edge>)
    requires InFamily(a, b)
    requires IsWalk(FourAreas(alive, a, b), w) && WalkCost(FourAreas(alive, a, b), w).Some?
    ensures var p := FourAreas(alive, a, b);
            && (End(p, w) == 0 ==> WalkCost(p, w) == Some(0.0))
            && (End(p, w) == 2 ==> WalkCost(p, w) == Some(SHORT))
            && (End(p, w) == 1 ==> WalkCost(p, w) == Some(a) || WalkCost(p, w) == Some(b))
            && (End(p, w) == 3 ==> alive(a) || alive(b))
  {
    var p := FourAreas(alive, a, b);
    FourSteps(alive, a, b);
    if w != [] {
      var e, before := w[|w| - 1], w[..|w| - 1];
      PrefixWalk(p, w, |w| - 1);
      OnlyWalks(alive, a, b, before);
      assert Usable(p, e) && e.from == End(p, before);
      FourEdges(alive, a, b, e);
    }
  }

  lemma FourEdges(alive: real -> bool, a: real, b: real, e: Edge)
    requires IsEdge(FourAreas(alive, a, b), e)
    ensures e in {Edge(0, To(1)), Edge(0, To(2)), Edge(1, To(3)), Edge(2, To(1))}
  {
  }

  /** With nothing left to expand, area 1 has been reached at cost a; and if the target is let through there, it
      has been reached and closed. */
  lemma TargetIsReached(alive: real -> bool, a: real, b: real, s: State)
    requires InFamily(a, b) && alive(a) && Inv(FourAreas(alive, a, b), s, {}) && s.open == []
    ensures 3 in s.marked
  {
    hide OpenOk, ClosestOk;
    var p := FourAreas(alive, a, b);
    FourSteps(alive, a, b);
    assert s.cost[0] == 0.0 && 0 in s.marked;
    assert AllSatisfied(p, s, 0);
    assert Usable(p, Edge(0, To(1))) && Satisfied(p, s, Edge(0, To(1)));
    assert s.cost[1] <= a;
    assert WalkOk(p, s.cost, 1, s.walk[1]);
    OnlyWalks(alive, a, b, s.walk[1]);
    assert s.cost[1] == a && 1 in s.marked;
    assert AllSatisfied(p, s, 1);
    assert Usable(p, Edge(1, To(3))) && Satisfied(p, s, Edge(1, To(3)));
  }

  /** Such a run never ends without the target. */
  lemma NeverEnds(alive: real -> bool, a: real, b: real, run: seq<State>)
    requires InFamily(a, b) && alive(a)
    ensures !EndsRun(FourAreas(alive, a, b), run)
  {
    hide Inv;
    var p := FourAreas(alive, a, b);
    if EndsRun(p, run) {
      RunKeepsInv(p, run);
      TargetIsReached(alive, a, b, run[|run| - 1]);
      assert false;
    }
  }

  /** Completeness on this family: whenever a run has nothing left to expand there is no walk to the target, if and
      only if what is let through at some cost is let through at any lower one. */
  lemma CompleteIffDownwardOpen(alive: real -> bool)
    ensures (forall a, b, run: seq<State> {:trigger EndsRun(FourAreas(alive, a, b), run)} ::
               InFamily(a, b) && EndsRun(FourAreas(alive, a, b), run) ==> NoWalkToTarget(FourAreas(alive, a, b)))
            <==> (forall a, b :: InFamily(a, b) && alive(b) ==> alive(a))
  {
    hide EndsRun, InFamily, NoWalkToTarget, FourStates;
    forall a, b | InFamily(a, b) && alive(b) && !alive(a)
      ensures EndsRun(FourAreas(alive, a, b), FourStates(alive, a, b)) && !NoWalkToTarget(FourAreas(alive, a, b))
    {
      FourStatesAreRun(alive, a, b);
      DetourIsWalk(alive, a, b);
    }
    if forall a, b :: InFamily(a, b) && alive(b) ==> alive(a) {
      forall a, b, run: seq<State> | InFamily(a, b) && EndsRun(FourAreas(alive, a, b), run)
        ensures NoWalkToTarget(FourAreas(alive, a, b))
      {
        if alive(a) {
          NeverEnds(alive, a, b, run);
        } else {
          NoneLetThrough(alive, a, b);
        }
      }
    }
  }

  lemma NoneLetThrough(alive: real -> bool, a: real, b: real)
    requires InFamily(a, b) && !alive(a) && !alive(b)
    ensures NoWalkToTarget(FourAreas(alive, a, b))
  {
    var p := FourAreas(alive, a, b);
    forall w | IsWalk(p, w) && WalkCost(p, w).Some? && End(p, w) < |p.target|
      ensures !p.target[End(p, w)]
    {
      OnlyWalks(alive, a, b, w);
    }
  }

  // ---------- Where optimality fails ----------

  /** Area 1 is reached from the start at cost a, the target from the start at cost c or from area 1 for b more.
      The heuristic takes the target to be x away from area 1. */
  function ThreeAreas(a: real, b: real, c: real, x: real): Problem {
    Problem(
      [[To(1), To(2)], [To(2)], []],
      [false, false, false], [false, false, true], [0.0, x, 0.0],
      (e: Edge, g: real) => Number(if e.from == 1 then g + b else if e.link.to == 1 then a else c),
      (_, _) => 1.0, 0.0, 0, 0.0)
  }

  ghost predicate Priced(a: real, b: real, c: real) {
    SHORT <= a && SHORT <= c && MinNewCost(a) <= a + b
  }

  lemma ThreeSteps(a: real, b: real, c: real, x: real)
    requires Priced(a, b, c)
    ensures var p := ThreeAreas(a, b, c, x);
            && Step(p, Edge(0, To(1)), 0.0) == Some(a) && Step(p, Edge(0, To(2)), 0.0) == Some(c)
            && Step(p, Edge(1, To(2)), a) == Some(a + b)
  {
  }

  lemma ThreeEdges(a: real, b: real, c: real, x: real, e: Edge)
    requires IsEdge(ThreeAreas(a, b, c, x), e)
    ensures e in {Edge(0, To(1)), Edge(0, To(2)), Edge(1, To(2))}
  {
  }

  /** On these meshes the heuristic is consistent exactly if it does not overestimate the last step. */
  lemma ConsistentIffNoOverestimate(a: real, b: real, c: real, x: real)
    requires Priced(a, b, c) && 0.0 <= x
    ensures Consistent(ThreeAreas(a, b, c, x)) <==> x <= b
    ensures Monotone(ThreeAreas(a, b, c, x))
  {
    var p := ThreeAreas(a, b, c, x);
    forall e, g | IsEdge(p, e) && 0.0 <= g && x <= b
      ensures g + p.h[e.from] - p.h[e.link.to] <= Step(p, e, g).value
    {
      ThreeEdges(a, b, c, x, e);
    }
    if Consistent(p) {
      ThreeSteps(a, b, c, x);
      assert IsEdge(p, Edge(1, To(2)));
    }
  }

  /** Every run that comes to the target has found the least cost of it. */
  ghost predicate AlwaysOptimal(p: Problem)
    requires ProblemOk(p)
  {
    forall s :: ComesTo(p, s) && s.open != [] && s.open[0] < |p.target| && p.target[s.open[0]] && s.open[0] in s.cost ==>
      LeastCost(p, s.open[0], s.cost[s.open[0]])
  }

  /** Expanding the start. */
  function ThreeStates(a: real, b: real, c: real, x: real): seq<State> {
    var e1, e2 := Edge(0, To(1)), Edge(0, To(2));
    [Initial(ThreeAreas(a, b, c, x)),
     State(map[0 := 0.0, 1 := a, 2 := c], map[1 := e1, 2 := e2], map[0 := [], 1 := [e1], 2 := [e2]],
           [2, 1], {0}, map[0 := 0.0], 0)]
  }

  lemma DearRelaxes(a: real, b: real, c: real, x: real)
    requires Priced(a, b, c) && 0.0 <= x
    ensures var p := ThreeAreas(a, b, c, x);
            RelaxesNext(p, Initial(p).(open := []), 0, 0, HalfExpanded(a))
  {
    var p, e1, t := ThreeAreas(a, b, c, x), Edge(0, To(1)), HalfExpanded(a);
    ThreeSteps(a, b, c, x);
    var popped := Initial(p).(open := []);
    assert p.links[0][0] == To(1);
    assert Accepted(p, popped, e1) == Some(a);
    assert popped.walk[0] + [e1] == [e1];
    assert t.cost == popped.cost[1 := a] && t.parent == popped.parent[1 := e1] && t.walk == popped.walk[1 := [e1]];
    assert Improves(p, popped, e1, a, t);
  }

  lemma TargetRelaxes(a: real, b: real, c: real, x: real)
    requires Priced(a, b, c) && c <= a + x
    ensures RelaxesNext(ThreeAreas(a, b, c, x), HalfExpanded(a), 0, 1, ThreeStates(a, b, c, x)[1].(marked := {}))
  {
    var p, e2, t := ThreeAreas(a, b, c, x), Edge(0, To(2)), HalfExpanded(a);
    var t' := ThreeStates(a, b, c, x)[1].(marked := {});
    ThreeSteps(a, b, c, x);
    assert p.links[0][1] == To(2);
    assert Accepted(p, t, e2) == Some(c);
    assert t.walk[0] + [e2] == [e2];
    assert t'.cost == t.cost[2 := c] && t'.parent == t.parent[2 := e2] && t'.walk == t.walk[2 := [e2]];
    assert Improves(p, t, e2, c, t');
  }

  /** One turn puts the target at the head of the list. */
  lemma ComesToTarget(a: real, b: real, c: real, x: real)
    requires Priced(a, b, c) && c <= a + x && 0.0 <= x
    ensures ComesTo(ThreeAreas(a, b, c, x), ThreeStates(a, b, c, x)[1])
  {
    hide RelaxesNext, ComesTo, Relaxed;
    var p, states := ThreeAreas(a, b, c, x), ThreeStates(a, b, c, x);
    var popped, t := Initial(p).(open := []), states[1].(marked := {});
    assert states[0].open[1..] == [];
    DearRelaxes(a, b, c, x);
    TargetRelaxes(a, b, c, x);
    NoneRelaxed(p, popped, 0);
    RelaxedOn(p, popped, popped, HalfExpanded(a), 0, 0);
    RelaxedOn(p, popped, HalfExpanded(a), t, 0, 1);
    assert states[1] == WithClosed(t, 0);
    StartsThere(p);
    ComesOn(p, states[0], states[1]);
  }

  lemma CheaperByOne(a: real, b: real, c: real, x: real)
    requires Priced(a, b, c) && a + b < c
    ensures !LeastCost(ThreeAreas(a, b, c, x), 2, c)
  {
    var p := ThreeAreas(a, b, c, x);
    ThreeSteps(a, b, c, x);
    var w1 := [Edge(0, To(1))];
    var w2 := w1 + [Edge(1, To(2))];
    assert w1[..0] == [] && w2[..1] == w1;
    assert WalkCost(p, []) == Some(0.0);
    assert WalkCost(p, w1) == Some(a);
    assert Usable(p, w2[0]) && Usable(p, w2[1]);
    assert IsWalk(p, w2) && End(p, w2) == 2 && WalkCost(p, w2) == Some(a + b);
  }

  lemma ConsistentIsOptimal(p: Problem)
    requires ProblemOk(p) && Monotone(p) && Consistent(p) && p.maxPathLength <= 0.0
    ensures AlwaysOptimal(p)
  {
    hide Inv, Monotone, Consistent, NoTargetClosed;
    forall s | ComesTo(p, s) && s.open != [] && s.open[0] < |p.target| && p.target[s.open[0]] && s.open[0] in s.cost
      ensures LeastCost(p, s.open[0], s.cost[s.open[0]])
    {
      var run :| IsRun(p, run) && run[|run| - 1] == s;
      RunKeepsInv(p, run);
      forall w | IsWalk(p, w) && WalkCost(p, w).Some? && End(p, w) == s.open[0]
        ensures s.cost[s.open[0]] <= WalkCost(p, w).value
      {
        PoppedTargetIsOptimal(p, s, w);
      }
    }
  }

  /** Optimality on this family: whatever the first two steps cost, a run that comes to the target has found its
      least cost, if and only if the heuristic does not overestimate the last step. */
  lemma OptimalIffNoOverestimate(b: real, x: real)
    requires 0.0 <= x && MinNewCost(SHORT) <= SHORT + b
    ensures (forall a, c :: Priced(a, b, c) ==> AlwaysOptimal(ThreeAreas(a, b, c, x))) <==> x <= b
  {
    hide AlwaysOptimal, Consistent, Monotone, ComesTo, LeastCost;
    if x <= b {
      forall a, c | Priced(a, b, c)
        ensures AlwaysOptimal(ThreeAreas(a, b, c, x))
      {
        ConsistentIffNoOverestimate(a, b, c, x);
        ConsistentIsOptimal(ThreeAreas(a, b, c, x));
      }
    } else {
      Misled(SHORT, b, SHORT + x, x);
    }
  }

  lemma Misled(a: real, b: real, c: real, x: real)
    requires Priced(a, b, c) && a + b < c <= a + x && 0.0 <= x
    ensures !AlwaysOptimal(ThreeAreas(a, b, c, x))
  {
    hide ComesTo, LeastCost;
    ComesToTarget(a, b, c, x);
    CheaperByOne(a, b, c, x);
    var s := ThreeStates(a, b, c, x)[1];
    assert s.open[0] == 2 && s.cost[2] == c;
  }
}
