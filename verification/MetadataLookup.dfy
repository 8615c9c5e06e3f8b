/** The bounded depth-first lookup of a property by name, in server data maps and in client receive tables
    (extension/shared/datamaplookup.h:11-44; extension/sourcesdk/cbasenpcclientlookup.h:43-82). The two differ
    in that data maps have a base map, and skip fields without a name instead of descending into them. */
module MetadataLookup {
  import opened Wrappers

  const MAX_DEPTH := 64
  const MAX_VISITS := 65536
  const INT_MAX := 0x7FFF_FFFF

  /** `child` is the embedded data map, or the table of a data table property. */
  datatype Field = Field(name: Option<string>, local: int, child: Option<nat>)

  /** `count` is what the structure claims; `fields` is None for a null pointer. */
  datatype Node = Node(count: int, fields: Option<seq<Field>>, base: Option<nat>)

  /** The structures by number. They may refer to one another in cycles. */
  datatype Graph = Graph(node: nat -> Node, server: bool)

  /** A non-null field pointer points to as many fields as are claimed. */
  ghost predicate GraphOk(g: Graph) {
    forall m :: var n := g.node(m); n.fields.Some? ==> n.count <= |n.fields.value|
  }

  /** The fields of a node are looked at. */
  predicate Readable(n: Node) {
    0 <= n.count <= MAX_VISITS && (n.count != 0 ==> n.fields.Some?)
  }

  /** The field is passed over: it has a negative offset, one that overflows, or, in a data map, no name. */
  predicate Skipped(g: Graph, f: Field, offset: int) {
    f.local < 0 || offset > INT_MAX - f.local || (g.server && f.name.None?)
  }

  /** A field that was found, and its offset from the start of the outermost structure. */
  datatype Hit = Hit(owner: nat, index: nat, actualOffset: int)

  // ---------- The lookup as a function ----------

  function Search(g: Graph, m: Option<nat>, name: string, offset: int, path: seq<nat>, remaining: nat): (Option<Hit>, nat)
    requires GraphOk(g)
    decreases MAX_DEPTH - |path|, 1, 0
  {
    if m.None? || MAX_DEPTH <= |path| || (g.server && remaining == 0) then (None, remaining)
    else if m.value in path || !Readable(g.node(m.value)) then (None, remaining)
    else
      var (hit, r) := SearchFields(g, m.value, name, offset, path + [m.value], 0, remaining);
      if hit.None? && g.server then Search(g, g.node(m.value).base, name, offset, path + [m.value], r) else (hit, r)
  }

  function SearchFields(g: Graph, m: nat, name: string, offset: int, path: seq<nat>, i: nat, remaining: nat): (Option<Hit>, nat)
    requires GraphOk(g) && Readable(g.node(m)) && |path| <= MAX_DEPTH
    decreases MAX_DEPTH - |path|, 2, g.node(m).count - i
  {
    if g.node(m).count <= i || remaining == 0 then (None, remaining)
    else
      var f := g.node(m).fields.value[i];
      if Skipped(g, f, offset) then SearchFields(g, m, name, offset, path, i + 1, remaining - 1)
      else if f.name == Some(name) then (Some(Hit(m, i, offset + f.local)), remaining - 1)
      else
        var (hit, r) := Search(g, f.child, name, offset + f.local, path, remaining - 1);
        if hit.Some? then (hit, r) else SearchFields(g, m, name, offset, path, i + 1, r)
  }

  // ---------- The lookup as it runs ----------

  /** `FindRecursive` and `FindPropRecursive`: they halt on every graph, and share one path and one budget. */
  method FindRecursive(g: Graph, m: Option<nat>, name: string, offset: int, path: array<nat>, depth: nat, remaining: nat)
    returns (found: Option<Hit>, left: nat)
    requires GraphOk(g) && path.Length == MAX_DEPTH && depth <= MAX_DEPTH
    modifies path
    ensures (found, left) == Search(g, m, name, offset, old(path[..depth]), remaining)
    ensures path[..depth] == old(path[..depth])
    decreases MAX_DEPTH - depth
  {
    found, left := None, remaining;
    if m.None? || MAX_DEPTH <= depth || (g.server && remaining == 0) {
      return;
    }
    for i := 0 to depth
      invariant forall j :: 0 <= j < i ==> path[j] != m.value
    {
      if path[i] == m.value {
        return;
      }
    }
    assert m.value !in path[..depth];
    ghost var before := path[..depth];
    path[depth] := m.value;
    assert path[..depth + 1] == before + [m.value];
    var node := g.node(m.value);
    if !Readable(node) {
      return;
    }
    var i := 0;
    while i < node.count && left != 0
      invariant 0 <= i <= node.count && path[..depth + 1] == before + [m.value] && found.None?
      invariant SearchFields(g, m.value, name, offset, before + [m.value], 0, remaining) ==
                SearchFields(g, m.value, name, offset, before + [m.value], i, left)
    {
      left := left - 1;
      var field := node.fields.value[i];
      if !Skipped(g, field, offset) {
        if field.name == Some(name) {
          found := Some(Hit(m.value, i, offset + field.local));
          assert path[..depth] == path[..depth + 1][..depth];
          return;
        }
        found, left := FindRecursive(g, field.child, name, offset + field.local, path, depth + 1, left);
        if found.Some? {
          assert path[..depth] == path[..depth + 1][..depth];
          return;
        }
      }
      i := i + 1;
    }
    if g.server {
      found, left := FindRecursive(g, node.base, name, offset, path, depth + 1, left);
    }
    assert path[..depth] == path[..depth + 1][..depth];
  }

  /** `Find` and `FindProp`. A null name is None. */
  method Find(g: Graph, m: Option<nat>, name: Option<string>) returns (found: Option<Hit>, actualOffset: int)
    requires GraphOk(g)
    ensures found == if name.None? || name.value == "" then None else Search(g, m, name.value, 0, [], MAX_VISITS).0
    ensures actualOffset == if found.None? then -1 else found.value.actualOffset
  {
    actualOffset := -1;
    if name.None? || name.value == "" {
      return None, -1;
    }
    var path := new nat[MAX_DEPTH];
    assert path[..0] == [];
    var left;
    found, left := FindRecursive(g, m, name.value, 0, path, 0, MAX_VISITS);
    if found.Some? {
      actualOffset := found.value.actualOffset;
    }
  }

  // ---------- What a hit means ----------

  /** One step of a route: into a field's child, or to the base. */
  datatype Step = Down(index: nat) | Up

  /** The structure has such a field: it claims no more than 65536 fields, and has them. */
  ghost predicate Has(n: Node, i: nat) {
    i < n.count <= 65536 && n.fields.Some? && n.count <= |n.fields.value|
  }

  /** The field has no negative offset, begins within 2^31 bytes, and in a data map has a name. */
  ghost predicate Counts(g: Graph, f: Field, offset: int) {
    0 <= f.local && offset + f.local <= 0x7FFF_FFFF && (g.server ==> f.name.Some?)
  }

  /** Follow a route from a structure that begins at the offset: where it leads, and at what offset. Only fields that
      count lead on, and only data maps have bases, which begin where they do. */
  ghost function Follow(g: Graph, m: nat, offset: int, route: seq<Step>): Option<(nat, int)>
    decreases |route|
  {
    if route == [] then Some((m, offset))
    else
      match route[0]
      case Up =>
        if !g.server || !Claims(g.node(m)) || g.node(m).base.None? then None
        else Follow(g, g.node(m).base.value, offset, route[1..])
      case Down(i) =>
        if !Has(g.node(m), i) then None
        else
          var f := g.node(m).fields.value[i];
          if f.child.None? || !Counts(g, f, offset) then None
          else Follow(g, f.child.value, offset + f.local, route[1..])
  }

  /** What the structure claims makes sense. */
  ghost predicate Claims(n: Node) {
    n.count == 0 || (0 < n.count <= 65536 && n.fields.Some?)
  }

  /** The sum of the offsets along a route. */
  function RouteOffset(g: Graph, m: nat, route: seq<Step>): int
    requires GraphOk(g)
    decreases |route|
  {
    if route == [] || !Readable(g.node(m)) then 0
    else
      match route[0]
      case Up => if g.node(m).base.None? then 0 else RouteOffset(g, g.node(m).base.value, route[1..])
      case Down(i) =>
        if g.node(m).count <= i then 0
        else
          var f := g.node(m).fields.value[i];
          f.local + if f.child.None? then 0 else RouteOffset(g, f.child.value, route[1..])
  }

  lemma {:induction false} FollowAdds(g: Graph, m: nat, offset: int, route: seq<Step>)
    requires GraphOk(g) && Follow(g, m, offset, route).Some?
    ensures Follow(g, m, offset, route).value.1 == offset + RouteOffset(g, m, route)
    decreases |route|
  {
    if route != [] {
      match route[0]
      case Up => FollowAdds(g, g.node(m).base.value, offset, route[1..]);
      case Down(i) =>
        var f := g.node(m).fields.value[i];
        FollowAdds(g, f.child.value, offset + f.local, route[1..]);
    }
  }

  /** The route leads to the structure of the hit, whose field has the name and lies at the sum of all offsets. */
  ghost predicate HitOk(g: Graph, m: nat, name: string, offset: int, route: seq<Step>, h: Hit)
    requires GraphOk(g)
  {
    && Follow(g, m, offset, route).Some? && Follow(g, m, offset, route).value.0 == h.owner
    && Has(g.node(h.owner), h.index)
    && var f := g.node(h.owner).fields.value[h.index];
    && f.name == Some(name) && 0 <= f.local
    && h.actualOffset == offset + RouteOffset(g, m, route) + f.local <= INT_MAX
  }

  lemma {:induction false} SearchHit(g: Graph, m: Option<nat>, name: string, offset: int, path: seq<nat>, remaining: nat)
    returns (route: seq<Step>)
    requires GraphOk(g) && Search(g, m, name, offset, path, remaining).0.Some?
    ensures m.Some? && HitOk(g, m.value, name, offset, route, Search(g, m, name, offset, path, remaining).0.value)
    decreases MAX_DEPTH - |path|, 1, 0
  {
    var (hit, r) := SearchFields(g, m.value, name, offset, path + [m.value], 0, remaining);
    if hit.Some? {
      route := FieldsHit(g, m.value, name, offset, path + [m.value], 0, remaining);
    } else {
      var rest := SearchHit(g, g.node(m.value).base, name, offset, path + [m.value], r);
      route := [Up] + rest;
      assert route[1..] == rest;
    }
  }

  lemma {:induction false} FieldsHit(g: Graph, m: nat, name: string, offset: int, path: seq<nat>, i: nat, remaining: nat)
    returns (route: seq<Step>)
    requires GraphOk(g) && Readable(g.node(m)) && |path| <= MAX_DEPTH
    requires SearchFields(g, m, name, offset, path, i, remaining).0.Some?
    ensures HitOk(g, m, name, offset, route, SearchFields(g, m, name, offset, path, i, remaining).0.value)
    decreases MAX_DEPTH - |path|, 2, g.node(m).count - i
  {
    var f := g.node(m).fields.value[i];
    if Skipped(g, f, offset) {
      route := FieldsHit(g, m, name, offset, path, i + 1, remaining - 1);
    } else if f.name == Some(name) {
      route := [];
    } else {
      var (hit, r) := Search(g, f.child, name, offset + f.local, path, remaining - 1);
      if hit.Some? {
        var rest := SearchHit(g, f.child, name, offset + f.local, path, remaining - 1);
        route := [Down(i)] + rest;
        assert route[1..] == rest;
      } else {
        route := FieldsHit(g, m, name, offset, path, i + 1, r);
      }
    }
  }

  // ---------- Without cycles: the first match in preorder ----------

  /** Ranks that fall along every reference. */
  ghost predicate Ranked(g: Graph, rank: nat -> nat)
    requires GraphOk(g)
  {
    && (forall m :: g.server && g.node(m).base.Some? ==> rank(g.node(m).base.value) < rank(m))
    && (forall m, i :: Readable(g.node(m)) && 0 <= i < g.node(m).count && g.node(m).fields.value[i].child.Some? ==>
          rank(g.node(m).fields.value[i].child.value) < rank(m))
  }

  /** A field that is met, and its offset if it is not passed over. */
  datatype Entry = Entry(owner: nat, index: nat, name: Option<string>, total: Option<int>)

  /** All fields in preorder: each field, what is embedded in it, the next one, and the base at the end. */
  ghost function Flatten(g: Graph, rank: nat -> nat, m: Option<nat>, offset: int): seq<Entry>
    requires GraphOk(g) && Ranked(g, rank)
    decreases if m.Some? then rank(m.value) + 1 else 0, 1, 0
  {
    if m.None? || !Readable(g.node(m.value)) then []
    else
      FlattenFields(g, rank, m.value, offset, 0)
      + if g.server then Flatten(g, rank, g.node(m.value).base, offset) else []
  }

  ghost function FlattenFields(g: Graph, rank: nat -> nat, m: nat, offset: int, i: nat): seq<Entry>
    requires GraphOk(g) && Ranked(g, rank) && Readable(g.node(m))
    decreases rank(m) + 1, 0, g.node(m).count - i
  {
    if g.node(m).count <= i then []
    else
      var f := g.node(m).fields.value[i];
      if Skipped(g, f, offset) then [Entry(m, i, f.name, None)] + FlattenFields(g, rank, m, offset, i + 1)
      else
        [Entry(m, i, f.name, Some(offset + f.local))] + Flatten(g, rank, f.child, offset + f.local)
        + FlattenFields(g, rank, m, offset, i + 1)
  }

  /** The first entry of the name among those that the budget allows to look at, and the budget left. */
  function FirstMatch(s: seq<Entry>, name: string, budget: nat): (Option<Hit>, nat) {
    if s == [] || budget == 0 then (None, budget)
    else if s[0].total.Some? && s[0].name == Some(name) then (Some(Hit(s[0].owner, s[0].index, s[0].total.value)), budget - 1)
    else FirstMatch(s[1..], name, budget - 1)
  }

  lemma {:induction false} FirstMatchConcat(s: seq<Entry>, t: seq<Entry>, name: string, budget: nat)
    ensures var (hit, r) := FirstMatch(s, name, budget);
            FirstMatch(s + t, name, budget) == if hit.Some? then (hit, r) else FirstMatch(t, name, r)
  {
    if s == [] {
      assert s + t == t;
    } else if budget != 0 {
      FirstMatchConcat(s[1..], t, name, budget - 1);
      assert (s + t)[1..] == s[1..] + t;
    }
  }

  /** Where references do not lead in circles and not deeper than 64, the lookup finds the first match in
      preorder within its budget. */
  lemma {:induction false} SearchIsFirstMatch(g: Graph, rank: nat -> nat, m: Option<nat>, name: string, offset: int,
                                              path: seq<nat>, budget: nat)
    requires GraphOk(g) && Ranked(g, rank)
    requires m.Some? ==> rank(m.value) + |path| < MAX_DEPTH && forall p :: p in path ==> rank(m.value) < rank(p)
    ensures Search(g, m, name, offset, path, budget) == FirstMatch(Flatten(g, rank, m, offset), name, budget)
    decreases if m.Some? then rank(m.value) + 1 else 0, 1, 0
  {
    if m.Some? && (!g.server || budget != 0) && Readable(g.node(m.value)) {
      var path' := path + [m.value];
      FieldsAreFirstMatch(g, rank, m.value, name, offset, path', 0, budget);
      var (hit, r) := SearchFields(g, m.value, name, offset, path', 0, budget);
      if g.server {
        FirstMatchConcat(FlattenFields(g, rank, m.value, offset, 0), Flatten(g, rank, g.node(m.value).base, offset), name, budget);
        if hit.None? {
          SearchIsFirstMatch(g, rank, g.node(m.value).base, name, offset, path', r);
        }
      } else {
        assert FlattenFields(g, rank, m.value, offset, 0) + [] == FlattenFields(g, rank, m.value, offset, 0);
      }
    }
  }

  /** Nothing is missed: under the same conditions, and with a budget for all fields, the lookup finds something if and
      only if some route leads to a field of the name. */
  lemma FoundIffReachable(g: Graph, rank: nat -> nat, m: nat, name: string, offset: int, budget: nat)
    requires GraphOk(g) && Ranked(g, rank) && rank(m) < 64
    requires |Flatten(g, rank, Some(m), offset)| <= budget
    ensures Search(g, Some(m), name, offset, [], budget).0.Some? <==> exists route, h :: HitOk(g, m, name, offset, route, h)
  {
    hide Search, Flatten, HitOk;
    if Search(g, Some(m), name, offset, [], budget).0.Some? {
      var route := SearchHit(g, Some(m), name, offset, [], budget);
    }
    if route, h :| HitOk(g, m, name, offset, route, h) {
      FlattenHas(g, rank, m, name, offset, route, h);
      SearchIsFirstMatch(g, rank, Some(m), name, offset, [], budget);
      MatchIsFound(Flatten(g, rank, Some(m), offset), EntryOf(name, h), name, budget);
    }
  }

  ghost function EntryOf(name: string, h: Hit): Entry {
    Entry(h.owner, h.index, Some(name), Some(h.actualOffset))
  }

  lemma {:induction false} MatchIsFound(s: seq<Entry>, e: Entry, name: string, budget: nat)
    requires e in s && e.total.Some? && e.name == Some(name) && |s| <= budget
    ensures FirstMatch(s, name, budget).0.Some?
  {
    if s[0] != e {
      MatchIsFound(s[1..], e, name, budget - 1);
    }
  }

  lemma {:induction false} FlattenHas(g: Graph, rank: nat -> nat, m: nat, name: string, offset: int, route: seq<Step>, h: Hit)
    requires GraphOk(g) && Ranked(g, rank) && HitOk(g, m, name, offset, route, h)
    ensures EntryOf(name, h) in Flatten(g, rank, Some(m), offset)
    decreases |route|
  {
    FollowAdds(g, m, offset, route);
    if route == [] {
      FieldsHave(g, rank, m, offset, 0, h.index);
    } else {
      match route[0]
      case Up =>
        FlattenHas(g, rank, g.node(m).base.value, name, offset, route[1..], h);
      case Down(i) =>
        var f := g.node(m).fields.value[i];
        FlattenHas(g, rank, f.child.value, name, offset + f.local, route[1..], h);
        FieldsHave(g, rank, m, offset, 0, i);
    }
  }

  lemma {:induction false} FieldsHave(g: Graph, rank: nat -> nat, m: nat, offset: int, j: nat, i: nat)
    requires GraphOk(g) && Ranked(g, rank) && j <= i && Has(g.node(m), i) && Counts(g, g.node(m).fields.value[i], offset)
    ensures var f, s := g.node(m).fields.value[i], FlattenFields(g, rank, m, offset, j);
            && Entry(m, i, f.name, Some(offset + f.local)) in s
            && forall e :: e in Flatten(g, rank, f.child, offset + f.local) ==> e in s
    decreases i - j
  {
    hide Flatten, Ranked;
    if j < i {
      FieldsHave(g, rank, m, offset, j + 1, i);
    }
  }

  lemma FirstMatchPasses(e: Entry, s: seq<Entry>, name: string, budget: nat)
    requires budget != 0 && (e.total.None? || e.name != Some(name))
    ensures FirstMatch([e] + s, name, budget) == FirstMatch(s, name, budget - 1)
  {
    assert ([e] + s)[1..] == s;
  }

  lemma FirstMatchTakes(e: Entry, s: seq<Entry>, name: string, budget: nat)
    requires budget != 0 && e.total.Some? && e.name == Some(name)
    ensures FirstMatch([e] + s, name, budget) == (Some(Hit(e.owner, e.index, e.total.value)), budget - 1)
  {
  }

  lemma {:induction false} FieldsAreFirstMatch(g: Graph, rank: nat -> nat, m: nat, name: string, offset: int,
                                               path: seq<nat>, i: nat, budget: nat)
    requires GraphOk(g) && Ranked(g, rank) && Readable(g.node(m))
    requires rank(m) + |path| <= MAX_DEPTH && forall p :: p in path ==> rank(m) <= rank(p)
    ensures SearchFields(g, m, name, offset, path, i, budget) == FirstMatch(FlattenFields(g, rank, m, offset, i), name, budget)
    decreases rank(m) + 1, 0, g.node(m).count - i, 0
  {
    hide FirstMatch, Flatten, Search, Ranked;
    NoneToMatch(FlattenFields(g, rank, m, offset, i), name, budget);
    if i < g.node(m).count && budget != 0 {
      var f := g.node(m).fields.value[i];
      var rest := FlattenFields(g, rank, m, offset, i + 1);
      if Skipped(g, f, offset) {
        FieldsAreFirstMatch(g, rank, m, name, offset, path, i + 1, budget - 1);
        FirstMatchPasses(Entry(m, i, f.name, None), rest, name, budget);
      } else {
        var e, inner := Entry(m, i, f.name, Some(offset + f.local)), Flatten(g, rank, f.child, offset + f.local);
        Associate([e], inner, rest);
        if f.name == Some(name) {
          FirstMatchTakes(e, inner + rest, name, budget);
        } else {
          FirstMatchPasses(e, inner + rest, name, budget);
          ChildThenRest(g, rank, m, name, offset, path, i, budget - 1);
        }
      }
    }
  }

  lemma NoneToMatch(s: seq<Entry>, name: string, budget: nat)
    ensures s == [] || budget == 0 ==> FirstMatch(s, name, budget) == (None, budget)
  {
  }

  lemma Associate<T>(s: seq<T>, t: seq<T>, u: seq<T>)
    ensures s + t + u == s + (t + u)
  {
  }

  /** Past a field that is not the one: its child, then the fields after it. */
  lemma {:induction false} ChildThenRest(g: Graph, rank: nat -> nat, m: nat, name: string, offset: int,
                                         path: seq<nat>, i: nat, budget: nat)
    requires GraphOk(g) && Ranked(g, rank) && Readable(g.node(m)) && i < g.node(m).count
    requires rank(m) + |path| <= MAX_DEPTH && forall p :: p in path ==> rank(m) <= rank(p)
    ensures var f := g.node(m).fields.value[i];
            var (hit, r) := Search(g, f.child, name, offset + f.local, path, budget);
            FirstMatch(Flatten(g, rank, f.child, offset + f.local) + FlattenFields(g, rank, m, offset, i + 1), name, budget) ==
            if hit.Some? then (hit, r) else SearchFields(g, m, name, offset, path, i + 1, r)
    decreases rank(m) + 1, 0, g.node(m).count - i - 1, 1
  {
    hide FirstMatch, Flatten, FlattenFields, SearchFields;
    var f := g.node(m).fields.value[i];
    SearchIsFirstMatch(g, rank, f.child, name, offset + f.local, path, budget);
    FirstMatchConcat(Flatten(g, rank, f.child, offset + f.local), FlattenFields(g, rank, m, offset, i + 1), name, budget);
    var (hit, r) := Search(g, f.child, name, offset + f.local, path, budget);
    if hit.None? {
      FieldsAreFirstMatch(g, rank, m, name, offset, path, i + 1, r);
    }
  }
}
