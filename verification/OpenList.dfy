/** What the open-list operations do to the sequence the list stands for
    (extension/sourcesdk/nav_area.cpp:640-808). Positions depend only on the costs along the list. */
module OpenList {

  ghost predicate Distinct<T>(s: seq<T>) {
    forall i, j :: 0 <= i < j < |s| ==> s[i] != s[j]
  }

  /** Non-decreasing along the list. */
  ghost predicate Sorted(costs: seq<real>) {
    forall i, j :: 0 <= i < j < |costs| ==> costs[i] <= costs[j]
  }

  /** Index of the first entry that costs strictly more than c, or the end of the list. */
  function InsertPos(costs: seq<real>, c: real): (p: nat)
    ensures p <= |costs|
    ensures forall i :: 0 <= i < p ==> costs[i] <= c
    ensures p < |costs| ==> c < costs[p]
  {
    if costs == [] || c < costs[0] then 0 else 1 + InsertPos(costs[1..], c)
  }

  function InsertAt<T>(s: seq<T>, p: nat, x: T): seq<T>
    requires p <= |s|
  {
    s[..p] + [x] + s[p..]
  }

  function Without<T>(s: seq<T>, k: nat): seq<T>
    requires k < |s|
  {
    s[..k] + s[k + 1..]
  }

  /** Move the entry at k forwards to position q, shifting the ones in between back by one. */
  function MoveUp<T>(s: seq<T>, q: nat, k: nat): (r: seq<T>)
    requires q <= k < |s|
    ensures |r| == |s|
  {
    s[..q] + [s[k]] + s[q..k] + s[k + 1..]
  }

  /** r is s with x inserted at p, said index by index. */
  ghost predicate Inserted<T>(r: seq<T>, s: seq<T>, p: nat, x: T)
    requires p <= |s|
  {
    && |r| == |s| + 1
    && r[p] == x
    && (forall i :: 0 <= i < p ==> r[i] == s[i])
    && (forall i :: p < i < |r| ==> r[i] == s[i - 1])
  }

  lemma InsertContents<T>(s: seq<T>, p: nat, x: T)
    requires p <= |s|
    ensures var r := InsertAt(s, p, x);
            && Inserted(r, s, p, x)
            && (forall y :: y in r <==> y in s || y == x)
            && (Distinct(s) && x !in s ==> Distinct(r))
  {
    InsertedContents(InsertAt(s, p, x), s, p, x);
  }

  lemma InsertedContents<T>(r: seq<T>, s: seq<T>, p: nat, x: T)
    requires p <= |s| && Inserted(r, s, p, x)
    ensures forall y :: y in r <==> y in s || y == x
    ensures Distinct(s) && x !in s ==> Distinct(r)
  {
    forall y | y in s
      ensures y in r
    {
      var i :| 0 <= i < |s| && s[i] == y;
      assert r[if i < p then i else i + 1] == y;
    }
  }

  lemma WithoutContents<T>(s: seq<T>, k: nat)
    requires k < |s|
    ensures var r := Without(s, k);
            && |r| == |s| - 1
            && (forall i :: 0 <= i < k ==> r[i] == s[i])
            && (forall i :: k <= i < |r| ==> r[i] == s[i + 1])
            && (Distinct(s) ==> Distinct(r) && (forall y :: y in r <==> y in s && y != s[k]))
  {
    var r := Without(s, k);
    assert forall i :: 0 <= i < |s| && i != k ==> s[i] == r[if i < k then i else i - 1];
  }

  /** Distinct numbers below n are at most n. */
  lemma {:induction false} Pigeonhole(s: seq<nat>, n: nat)
    requires Distinct(s) && forall i :: 0 <= i < |s| ==> s[i] < n
    ensures |s| <= n
  {
    assert |s| == 0 || s[0] < n;
    if 0 < n && n - 1 in s {
      var k :| 0 <= k < |s| && s[k] == n - 1;
      WithoutContents(s, k);
      Pigeonhole(Without(s, k), n - 1);
    } else if 0 < n {
      forall i | 0 <= i < |s|
        ensures s[i] < n - 1
      {
        assert s[i] in s;
      }
      Pigeonhole(s, n - 1);
    }
  }

  lemma InsertKeepsSorted(costs: seq<real>, c: real)
    requires Sorted(costs)
    ensures Sorted(InsertAt(costs, InsertPos(costs, c), c))
  {
    var p := InsertPos(costs, c);
    var r := InsertAt(costs, p, c);
    InsertContents(costs, p, c);
    hide InsertAt;
    assert forall j :: p <= j < |costs| ==> c < costs[j];
    forall i, j | 0 <= i < j < |r|
      ensures r[i] <= r[j]
    {
      assert i == p || r[i] == costs[if i < p then i else i - 1];
      assert j == p || r[j] == costs[if j < p then j else j - 1];
    }
  }

  /** The insertion point is the only place that splits the list this way, sorted or not. */
  lemma InsertPosUnique(costs: seq<real>, c: real, p: nat)
    requires p <= |costs|
    requires forall i :: 0 <= i < p ==> costs[i] <= c
    requires p < |costs| ==> c < costs[p]
    ensures InsertPos(costs, c) == p
  {
    var q := InsertPos(costs, c);
    assert !(q < p);
    assert !(p < q);
  }

  /** r is s with the entry at k moved forwards to q, said index by index. */
  ghost predicate Moved<T>(r: seq<T>, s: seq<T>, q: nat, k: nat)
    requires q <= k < |s|
  {
    && |r| == |s|
    && r[q] == s[k]
    && (forall i :: 0 <= i < q ==> r[i] == s[i])
    && (forall i :: q < i <= k ==> r[i] == s[i - 1])
    && (forall i :: k < i < |s| ==> r[i] == s[i])
  }

  /** One swap with the predecessor moves the entry one place further. */
  lemma SwapMoves<T>(r: seq<T>, s: seq<T>, q: nat, k: nat)
    requires 0 < q <= k < |s| && Moved(r, s, q, k)
    ensures Moved(r[q - 1 := r[q]][q := r[q - 1]], s, q - 1, k)
  {
  }

  lemma MovedContents<T>(r: seq<T>, s: seq<T>, q: nat, k: nat)
    requires q <= k < |s| && Moved(r, s, q, k)
    ensures (forall y :: y in r <==> y in s)
    ensures Distinct(s) ==> Distinct(r)
  {
    forall y | y in s
      ensures y in r
    {
      var i :| 0 <= i < |s| && s[i] == y;
      assert r[if i < q || k < i then i else if i == k then q else i + 1] == y;
    }
  }

  lemma MovedLast<T>(r: seq<T>, s: seq<T>, q: nat, k: nat)
    requires q <= k < |s| && Moved(r, s, q, k)
    ensures |r| == |s| && r[|r| - 1] == if q < k == |s| - 1 then s[k - 1] else s[|s| - 1]
  {
  }

  lemma MoveUpContents<T>(s: seq<T>, q: nat, k: nat)
    requires q <= k < |s|
    ensures var r := MoveUp(s, q, k);
            && Moved(r, s, q, k)
            && (forall y :: y in r <==> y in s)
            && (Distinct(s) ==> Distinct(r))
  {
    var r := MoveUp(s, q, k);
    MovedContents(r, s, q, k);
  }

  lemma MoveUpIsReinsert<T>(s: seq<T>, q: nat, k: nat)
    requires q <= k < |s|
    ensures MoveUp(s, q, k) == InsertAt(Without(s, k), q, s[k])
    ensures multiset(MoveUp(s, q, k)) == multiset(s)
  {
    assert s == s[..q] + s[q..k] + [s[k]] + s[k + 1..];
  }

  /** Decrease-key: an entry got cheaper, with the rest still in order and everything behind it strictly
      dearer. Where `UpdateOnOpenList` stops is where taking the entry out and inserting it afresh would
      put it, and the list is in order again. */
  lemma BubbleIsReinsert(costs: seq<real>, q: nat, k: nat)
    requires q <= k < |costs| && Sorted(Without(costs, k))
    requires k + 1 < |costs| ==> costs[k] < costs[k + 1]
    requires forall i :: q <= i < k ==> costs[k] < costs[i]
    requires 0 < q ==> costs[q - 1] <= costs[k]
    ensures q == InsertPos(Without(costs, k), costs[k])
    ensures MoveUp(costs, q, k) == InsertAt(Without(costs, k), q, costs[k])
    ensures Sorted(MoveUp(costs, q, k))
  {
    var c, rest := costs[k], Without(costs, k);
    forall i | 0 <= i < q
      ensures rest[i] <= c
    {
      assert rest[i] <= rest[q - 1];
    }
    assert q < k ==> rest[q] == costs[q];
    InsertPosUnique(rest, c, q);
    InsertKeepsSorted(rest, c);
    MoveUpIsReinsert(costs, q, k);
  }

  /** However an entry was put where an ordered list splits, that is its insertion point, and the list stays in
      order. */
  lemma InsertedIsSorted(r: seq<real>, s: seq<real>, k: nat, c: real)
    requires Sorted(s) && k <= |s| && Inserted(r, s, k, c)
    requires forall i :: 0 <= i < k ==> s[i] <= c
    requires k < |s| ==> c < s[k]
    ensures k == InsertPos(s, c) && r == InsertAt(s, k, c) && Sorted(r)
  {
    InsertPosUnique(s, c, k);
    InsertKeepsSorted(s, c);
    InsertContents(s, k, c);
    assert forall i :: 0 <= i < |r| ==> r[i] == InsertAt(s, k, c)[i];
  }

  lemma MovedIsMoveUp<T>(r: seq<T>, s: seq<T>, q: nat, k: nat)
    requires q <= k < |s| && Moved(r, s, q, k)
    ensures r == MoveUp(s, q, k)
  {
    MoveUpContents(s, q, k);
    assert forall i :: 0 <= i < |r| ==> r[i] == MoveUp(s, q, k)[i];
  }

  /** However the one entry that got cheaper was moved up past the dearer ones only, the outcome is that of taking
      it out and inserting it afresh, and the list is in order again. */
  lemma MovedIsSorted(r: seq<real>, s: seq<real>, q: nat, k: nat)
    requires q <= k < |s| && Moved(r, s, q, k)
    requires forall i, j :: 0 <= i < j < |s| && j != k && i != k ==> s[i] <= s[j]
    requires k + 1 < |s| ==> s[k] < s[k + 1]
    requires forall i :: q <= i < k ==> s[k] < s[i]
    requires 0 < q ==> s[q - 1] <= s[k]
    ensures q == InsertPos(Without(s, k), s[k]) && r == InsertAt(Without(s, k), q, s[k]) && Sorted(r)
  {
    BubbleIsReinsert(s, q, k);
    MovedIsMoveUp(r, s, q, k);
  }
}
