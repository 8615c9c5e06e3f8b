/** Chains of base factories, on a plain map from each factory to its base. */
module FactoryAncestry {
  import opened Wrappers

  /** The n-th base of g, if the chain is that long. */
  function Ancestor<T>(parents: map<T, T>, g: T, n: nat): Option<T> {
    if n == 0 then Some(g) else if g in parents then Ancestor(parents, parents[g], n - 1) else None
  }

  /** f is g or one of the factories that g derives from. */
  ghost predicate Descends<T>(parents: map<T, T>, g: T, f: T) {
    exists n: nat :: Ancestor(parents, g, n) == Some(f)
  }

  /** Every base ranks strictly below what derives from it. */
  ghost predicate Ranks<T>(parents: map<T, T>, rank: map<T, int>) {
    forall g :: g in parents ==> g in rank && parents[g] in rank && rank[parents[g]] < rank[g]
  }

  lemma StepDescends<T>(parents: map<T, T>, g: T, f: T)
    ensures Descends(parents, g, f) <==> g == f || (g in parents && Descends(parents, parents[g], f))
  {
    assert Ancestor(parents, g, 0) == Some(g);
    if g in parents && Descends(parents, parents[g], f) {
      var n: nat :| Ancestor(parents, parents[g], n) == Some(f);
      assert Ancestor(parents, g, n + 1) == Some(f);
    }
    if g != f && Descends(parents, g, f) {
      var n: nat :| Ancestor(parents, g, n) == Some(f);
      assert Ancestor(parents, parents[g], n - 1) == Some(f);
    }
  }

  lemma {:induction false} AncestorAdds<T>(parents: map<T, T>, g: T, m: nat, n: nat)
    requires Ancestor(parents, g, m).Some?
    ensures Ancestor(parents, g, m + n) == Ancestor(parents, Ancestor(parents, g, m).value, n)
  {
    if 0 < m {
      AncestorAdds(parents, parents[g], m - 1, n);
    }
  }

  lemma DescendsTransitive<T>(parents: map<T, T>, g: T, f: T, e: T)
    requires Descends(parents, g, f) && Descends(parents, f, e)
    ensures Descends(parents, g, e)
  {
    var m: nat :| Ancestor(parents, g, m) == Some(f);
    var n: nat :| Ancestor(parents, f, n) == Some(e);
    AncestorAdds(parents, g, m, n);
  }

  /** Whatever descends properly from f descends from one of its children. */
  lemma DescendsFromChild<T>(parents: map<T, T>, g: T, f: T) returns (c: T)
    requires Descends(parents, g, f) && g != f
    ensures c in parents && parents[c] == f && Descends(parents, g, c)
  {
    var n: nat :| Ancestor(parents, g, n) == Some(f);
    c := LastBefore(parents, g, f, n);
  }

  lemma {:induction false} LastBefore<T>(parents: map<T, T>, g: T, f: T, n: nat) returns (c: T)
    requires 0 < n && Ancestor(parents, g, n) == Some(f)
    ensures c in parents && parents[c] == f && Ancestor(parents, g, n - 1) == Some(c)
  {
    if n == 1 {
      c := g;
      assert Ancestor(parents, parents[g], 0) == Some(f);
    } else {
      c := LastBefore(parents, parents[g], f, n - 1);
    }
  }

  /** Ranks fall along the chain, so there are no cycles. */
  lemma RankFalls<T>(parents: map<T, T>, rank: map<T, int>, g: T, f: T)
    requires Ranks(parents, rank) && Descends(parents, g, f)
    ensures g == f || (g in rank && f in rank && rank[f] < rank[g])
  {
    var n: nat :| Ancestor(parents, g, n) == Some(f);
    RankFallsBy(parents, rank, g, n);
  }

  lemma {:induction false} RankFallsBy<T>(parents: map<T, T>, rank: map<T, int>, g: T, n: nat)
    requires Ranks(parents, rank) && Ancestor(parents, g, n).Some?
    ensures var f := Ancestor(parents, g, n).value;
            if n == 0 then g == f else g in rank && f in rank && rank[f] < rank[g]
  {
    if 0 < n {
      RankFallsBy(parents, rank, parents[g], n - 1);
    }
  }

  lemma NoCycle<T>(parents: map<T, T>, rank: map<T, int>, g: T)
    requires Ranks(parents, rank) && g in parents
    ensures !Descends(parents, parents[g], g)
  {
    if Descends(parents, parents[g], g) {
      RankFalls(parents, rank, parents[g], g);
    }
  }

  /** Taking out a set that contains every descendant of its members changes no other chain. */
  lemma RestrictKeeps<T>(parents: map<T, T>, gone: set<T>, g: T, f: T)
    requires forall x :: x in parents && parents[x] in gone ==> x in gone
    requires g !in gone
    ensures Descends(parents - gone, g, f) <==> Descends(parents, g, f)
  {
    if Descends(parents - gone, g, f) {
      var n: nat :| Ancestor(parents - gone, g, n) == Some(f);
      RestrictKeepsAncestor(parents, gone, g, n);
    }
    if Descends(parents, g, f) {
      var n: nat :| Ancestor(parents, g, n) == Some(f);
      RestrictKeepsAncestor(parents, gone, g, n);
    }
  }

  lemma {:induction false} RestrictKeepsAncestor<T>(parents: map<T, T>, gone: set<T>, g: T, n: nat)
    requires forall x :: x in parents && parents[x] in gone ==> x in gone
    requires g !in gone
    ensures Ancestor(parents - gone, g, n) == Ancestor(parents, g, n)
  {
    if 0 < n && g in parents {
      RestrictKeepsAncestor(parents, gone, parents[g], n - 1);
    }
  }
}
