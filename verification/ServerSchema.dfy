/** Preparing the server's network classes: a memoised depth-first build over the declared bases, the sorted
    union with the stock classes, and the relinked class list (extension/sourcesdk/cbasenpcserverclass.cpp:347-595).
    A name stands for its place in the case-insensitive order of names. */
module ServerSchema {
  import opened OpenList
  import opened Wrappers
  import opened FactoryAncestry

  /** A networked field, and where it ends in the entity. */
  datatype Field = Field(name: int, end: nat)

  /** The declaration of a custom class by a factory. The entity is what the allocation base makes it, `baseSize`,
      followed by the factory's own data, which may have been described for some `dataStart`. `otherOk` stands for
      the remaining checks. */
  datatype Decl = Decl(name: int, base: int, table: int, factory: nat, baseSize: nat, dataSize: nat, dataStart: Option<nat>,
                       fields: seq<Field>, otherOk: bool)

  function EntitySize(c: Decl): nat {
    c.baseSize + c.dataSize
  }

  function FieldEnds(c: Decl): seq<nat> {
    seq(|c.fields|, i requires 0 <= i < |c.fields| => c.fields[i].end)
  }

  function FieldNames(c: Decl): seq<int> {
    seq(|c.fields|, i requires 0 <= i < |c.fields| => c.fields[i].name)
  }

  /** The allocation base has a size, and the factory's data start behind it. */
  predicate DataBehindBase(c: Decl) {
    c.baseSize != 0 && (c.dataStart.Some? ==> c.dataStart.value == c.baseSize)
  }

  /** What classes are built against: the stock classes, the property names in their tables, the allocation base of
      every factory that has one of ours, and the name under which a table holds the table of its base. */
  datatype World = World(stock: seq<int>, stockProps: map<int, set<int>>, allocation: map<nat, nat>, baseclass: int)

  function StockProps(w: World, name: int): set<int> {
    if name in w.stockProps then w.stockProps[name] else {}
  }

  class ServerClass {
    const name: int
    var next: ServerClass?

    constructor (name: int)
      ensures this.name == name && next == null
    {
      this.name := name;
      next := null;
    }
  }

  /** A finished class, the entity size that its networked fields need, and the property names in its table. */
  datatype FinalClass = FinalClass(decl: Decl, required: nat, props: set<int>)

  /** What a class inherits. */
  datatype Parent = Parent(required: nat, props: set<int>)

  datatype Error = Cycle | BadDeclaration | MissingBase | DuplicateName | TooMany | Unavailable | Failed | Reentrant

  type Declarations = map<int, Decl>

  ghost predicate DeclarationsOk(d: Declarations) {
    forall n :: n in d ==> d[n].name == n
  }

  /** The custom base of each class that has one. */
  function CustomBases(d: Declarations): map<int, int> {
    map n | n in d && d[n].base in d :: d[n].base
  }

  ghost predicate Cyclic(d: Declarations) {
    exists n :: n in CustomBases(d) && Descends(CustomBases(d), CustomBases(d)[n], n)
  }

  /** A declared base that is neither declared itself nor stock. */
  ghost predicate Baseless(d: Declarations, w: World) {
    exists n :: n in d && d[n].base !in d && d[n].base !in w.stock
  }

  /** A networked field of the class, or of a declared class that it derives from, ends here. */
  ghost predicate EndsAt(d: Declarations, name: int, end: nat) {
    exists a :: a in d && Descends(CustomBases(d), name, a) && end in FieldEnds(d[a])
  }

  lemma EndsAtStep(d: Declarations, name: int, end: nat)
    requires name in d
    ensures EndsAt(d, name, end) <==> end in FieldEnds(d[name]) || (d[name].base in d && EndsAt(d, d[name].base, end))
  {
    forall a
      ensures Descends(CustomBases(d), name, a) <==>
                name == a || (d[name].base in d && Descends(CustomBases(d), d[name].base, a))
    {
      StepDescends(CustomBases(d), name, a);
    }
  }

  /** The table of the class holds a property of this name, or the table of its base does, and so on. */
  ghost predicate Named(d: Declarations, w: World, name: int, x: int) {
    exists a :: a in d && Descends(CustomBases(d), name, a) && NamedBy(d, w, a, x)
  }

  ghost predicate NamedBy(d: Declarations, w: World, a: int, x: int)
    requires a in d
  {
    || x in FieldNames(d[a]) || x == w.baseclass
    || (d[a].base !in d && d[a].base in w.stockProps && x in w.stockProps[d[a].base])
  }

  /** The name comes with the base. */
  ghost predicate Inherits(d: Declarations, w: World, name: int, x: int)
    requires name in d
  {
    if d[name].base in d then Named(d, w, d[name].base, x) else x in StockProps(w, d[name].base)
  }

  lemma NamedStep(d: Declarations, w: World, name: int, x: int)
    requires name in d
    ensures Named(d, w, name, x) <==> x in FieldNames(d[name]) || x == w.baseclass || Inherits(d, w, name, x)
  {
    hide NamedBy;
    forall a
      ensures Descends(CustomBases(d), name, a) <==>
                name == a || (d[name].base in d && Descends(CustomBases(d), d[name].base, a))
    {
      StepDescends(CustomBases(d), name, a);
    }
    NamedHere(d, w, name, x);
    assert Named(d, w, name, x) <==> NamedBy(d, w, name, x) || (d[name].base in d && Named(d, w, d[name].base, x));
  }

  lemma NamedHere(d: Declarations, w: World, name: int, x: int)
    requires name in d
    ensures NamedBy(d, w, name, x) || (d[name].base in d && Named(d, w, d[name].base, x)) <==>
              x in FieldNames(d[name]) || x == w.baseclass || Inherits(d, w, name, x)
  {
  }

  /** Two fields of the class share a name, or a field has a name that the class inherits. */
  ghost predicate Recurs(d: Declarations, w: World, name: int)
    requires name in d
  {
    !Distinct(FieldNames(d[name])) || exists x :: x in FieldNames(d[name]) && Inherits(d, w, name, x)
  }

  /** The allocation bases lead from the factory into a circle. */
  ghost predicate AllocatesInCircle(allocation: map<nat, nat>, factory: nat) {
    exists g :: g in allocation && Descends(allocation, factory, g) && Descends(allocation, allocation[g], g)
  }

  /** The factory of the custom base is an allocation ancestor. */
  ghost predicate BaseIsAncestor(d: Declarations, w: World, name: int)
    requires name in d && d[name].base in d
  {
    Descends(w.allocation, d[name].factory, d[d[name].base].factory)
  }

  /** The declaration is no good in itself, its factory is allocated in a circle, its data do not start behind the
      allocation base, a field name recurs, its entity does not hold all fields that it has or inherits, or it
      inherits fields from a class that is no allocation ancestor. */
  ghost predicate Misfit(d: Declarations, w: World, name: int)
    requires name in d
  {
    || !d[name].otherOk || d[name].baseSize == 0 || d[name].dataStart !in {None, Some(d[name].baseSize)}
    || AllocatesInCircle(w.allocation, d[name].factory) || Recurs(d, w, name)
    || (exists end: nat :: EndsAt(d, name, end) && d[name].baseSize + d[name].dataSize < end)
    || (d[name].base in d && !BaseIsAncestor(d, w, name) && exists end: nat :: EndsAt(d, d[name].base, end) && 0 < end)
  }

  ghost predicate AnyMisfit(d: Declarations, w: World) {
    exists n :: n in d && Misfit(d, w, n)
  }

  /** No field that the class has or inherits ends later; some field ends there, if it is not 0. */
  ghost predicate LastEnd(d: Declarations, name: int, required: nat) {
    (forall end: nat :: EndsAt(d, name, end) ==> end <= required) && (required == 0 || EndsAt(d, name, required))
  }

  /** Exactly the property names in the table of the class. */
  ghost predicate PropsOf(d: Declarations, w: World, name: int, props: set<int>) {
    forall x :: x in props <==> Named(d, w, name, x)
  }

  /** What the base of a class says about it. */
  ghost predicate BaseNeeds(d: Declarations, w: World, name: int, parent: Parent)
    requires name in d
  {
    if d[name].base in d
    then
      && LastEnd(d, d[name].base, parent.required) && PropsOf(d, w, d[name].base, parent.props)
      && (parent.required == 0 || BaseIsAncestor(d, w, name))
    else parent.required == 0 && parent.props == StockProps(w, d[name].base)
  }

  lemma LastEndStep(d: Declarations, w: World, name: int, parent: Parent)
    requires name in d && BaseNeeds(d, w, name, parent)
    ensures LastEnd(d, name, MaxOf(FieldEnds(d[name]), parent.required))
    ensures forall i :: 0 <= i < |FieldEnds(d[name])| ==> EndsAt(d, name, FieldEnds(d[name])[i])
    ensures 0 < parent.required ==> EndsAt(d, name, parent.required)
  {
    hide EndsAt, Named, FieldEnds;
    forall end: nat
      ensures EndsAt(d, name, end) <==> end in FieldEnds(d[name]) || (d[name].base in d && EndsAt(d, d[name].base, end))
    {
      EndsAtStep(d, name, end);
    }
  }

  /** A class holds the property names that it inherits, those of its fields, and that of its base's table. */
  function WithFields(c: Decl, w: World, parent: Parent): set<int> {
    parent.props + {w.baseclass} + set f | f in c.fields :: f.name
  }

  lemma PropsStep(d: Declarations, w: World, name: int, parent: Parent)
    requires name in d && BaseNeeds(d, w, name, parent)
    ensures PropsOf(d, w, name, WithFields(d[name], w, parent))
    ensures forall x :: Inherits(d, w, name, x) <==> x in parent.props
  {
    hide Named, EndsAt, StockProps;
    forall x
      ensures x in WithFields(d[name], w, parent) <==> Named(d, w, name, x)
    {
      NamedStep(d, w, name, x);
      FieldNamed(d[name], x);
    }
  }

  lemma FieldNamed(c: Decl, x: int)
    ensures x in FieldNames(c) <==> exists f :: f in c.fields && f.name == x
  {
    if x in FieldNames(c) {
      var i :| 0 <= i < |FieldNames(c)| && FieldNames(c)[i] == x;
      assert c.fields[i] in c.fields;
    }
    if f :| f in c.fields && f.name == x {
      var i :| 0 <= i < |c.fields| && c.fields[i] == f;
      assert FieldNames(c)[i] == x;
    }
  }

  /** The checks of lines 420-446. */
  ghost predicate Fits(c: Decl, parent: Parent) {
    && c.otherOk && DataBehindBase(c) && Distinct(FieldNames(c))
    && (forall x :: x in FieldNames(c) ==> x !in parent.props)
    && MaxOf(FieldEnds(c), parent.required) <= EntitySize(c)
  }

  /** A class whose allocation bases make no circle passes these checks exactly if it is no misfit. */
  lemma FitsIff(d: Declarations, w: World, name: int, parent: Parent)
    requires name in d && BaseNeeds(d, w, name, parent) && !AllocatesInCircle(w.allocation, d[name].factory)
    ensures Fits(d[name], parent) <==> !Misfit(d, w, name)
  {
    hide EndsAt, Inherits, Named, AllocatesInCircle, BaseIsAncestor, Distinct, FieldNames, FieldEnds;
    LastEndStep(d, w, name, parent);
    PropsStep(d, w, name, parent);
  }

  function MaxOf(s: seq<nat>, m: nat): (r: nat)
    ensures m <= r && (forall i :: 0 <= i < |s| ==> s[i] <= r) && (r == m || r in s)
  {
    if s == [] then m else
      var r := MaxOf(s[..|s| - 1], m);
      if r < s[|s| - 1] then s[|s| - 1] else r
  }

  // ---------- What every state of the build satisfies ----------

  /** The state of a run: 1 marks a class on the stack, 2 one that is done. */
  datatype Run = Run(visit: map<int, int>, built: map<int, FinalClass>, classes: seq<FinalClass>)

  /** Classes are built once each, under their own name, and after their base. */
  ghost predicate RunOk(d: Declarations, w: World, r: Run) {
    && DeclarationsOk(d)
    && (forall n :: n in r.visit ==> n in d && (r.visit[n] == 1 || r.visit[n] == 2))
    && (forall n :: n in r.built <==> n in r.visit && r.visit[n] == 2)
    && (forall n :: n in r.built ==> r.built[n] in r.classes && r.built[n].decl.name == n)
    && (forall k {:trigger ClassOk(d, w, r.classes, k)} :: 0 <= k < |r.classes| ==> ClassOk(d, w, r.classes, k))
    && (forall k {:trigger r.classes[k]} :: 0 <= k < |r.classes| ==>
          r.classes[k].decl.name in r.built && r.built[r.classes[k].decl.name] == r.classes[k])
    && (forall j, k :: 0 <= j < k < |r.classes| ==> r.classes[j].decl.name != r.classes[k].decl.name)
  }

  ghost predicate ClassOk(d: Declarations, w: World, list: seq<FinalClass>, k: nat)
    requires k < |list|
  {
    var c := list[k];
    c.decl.name in d && c.decl == d[c.decl.name] && BaseFirst(d, w, list, k) && RequiredOk(d, w, c)
  }

  /** The base is a stock class, or a custom one that was built before. */
  ghost predicate BaseFirst(d: Declarations, w: World, list: seq<FinalClass>, k: nat)
    requires k < |list|
  {
    if list[k].decl.base in d then exists j :: 0 <= j < k && list[j].decl.name == list[k].decl.base
    else list[k].decl.base in w.stock
  }

  /** The required size is where the last field ends that the class has or inherits, the names are those in its
      table, and the declaration is no misfit. */
  ghost predicate RequiredOk(d: Declarations, w: World, c: FinalClass) {
    c.decl.name in d && LastEnd(d, c.decl.name, c.required) && PropsOf(d, w, c.decl.name, c.props) && !Misfit(d, w, c.decl.name)
  }

  lemma ClassOkStays(d: Declarations, w: World, list: seq<FinalClass>, c: FinalClass, k: nat)
    requires k < |list| && ClassOk(d, w, list, k)
    ensures ClassOk(d, w, list + [c], k)
  {
    var r := list + [c];
    if list[k].decl.base in d {
      var j :| 0 <= j < k && list[j].decl.name == list[k].decl.base;
      assert r[j].decl.name == r[k].decl.base;
    }
  }

  /** A class goes on the stack. */
  function Entered(r: Run, name: int): Run {
    r.(visit := r.visit[name := 1])
  }

  lemma EnterKeepsOk(d: Declarations, w: World, r: Run, name: int)
    requires RunOk(d, w, r) && name in d && name !in r.visit
    ensures RunOk(d, w, Entered(r, name))
  {
  }

  /** A class is done. */
  function Finished(r: Run, c: FinalClass): Run {
    Run(r.visit[c.decl.name := 2], r.built[c.decl.name := c], r.classes + [c])
  }

  lemma FinishKeepsOk(d: Declarations, w: World, r: Run, c: FinalClass, parent: Parent)
    requires RunOk(d, w, r) && c.decl.name in r.visit && r.visit[c.decl.name] == 1 && c.decl == d[c.decl.name]
    requires Fits(c.decl, parent) && !AllocatesInCircle(w.allocation, c.decl.factory)
    requires c.required == MaxOf(FieldEnds(c.decl), parent.required) && c.props == WithFields(c.decl, w, parent)
    requires BaseNeeds(d, w, c.decl.name, parent)
    requires if c.decl.base in d then c.decl.base in r.built
             else c.decl.base in w.stock
    ensures RunOk(d, w, Finished(r, c))
  {
    hide RequiredOk, BaseFirst, BaseNeeds, Fits, WithFields, FieldEnds, AllocatesInCircle;
    var list := r.classes + [c];
    forall k | 0 <= k < |list|
      ensures ClassOk(d, w, list, k)
    {
      if k < |r.classes| {
        ClassOkStays(d, w, r.classes, c, k);
      } else {
        LastIsOk(d, w, r, c, parent);
      }
    }
  }

  lemma LastIsOk(d: Declarations, w: World, r: Run, c: FinalClass, parent: Parent)
    requires RunOk(d, w, r) && c.decl.name in d && c.decl == d[c.decl.name]
    requires Fits(c.decl, parent) && !AllocatesInCircle(w.allocation, c.decl.factory)
    requires c.required == MaxOf(FieldEnds(c.decl), parent.required) && c.props == WithFields(c.decl, w, parent)
    requires BaseNeeds(d, w, c.decl.name, parent)
    requires if c.decl.base in d then c.decl.base in r.built
             else c.decl.base in w.stock
    ensures ClassOk(d, w, r.classes + [c], |r.classes|)
  {
    hide BaseNeeds, LastEnd, PropsOf, Misfit, Fits, WithFields, FieldEnds, AllocatesInCircle;
    LastEndStep(d, w, c.decl.name, parent);
    PropsStep(d, w, c.decl.name, parent);
    FitsIff(d, w, c.decl.name, parent);
    if c.decl.base in d {
      var j :| 0 <= j < |r.classes| && r.classes[j] == r.built[c.decl.base];
      assert (r.classes + [c])[j].decl.name == c.decl.base;
    }
  }

  /** Everything being built leads, base by base, to this class. */
  ghost predicate StackAbove(d: Declarations, visit: map<int, int>, name: int) {
    forall s :: s in visit && visit[s] == 1 ==> s in CustomBases(d) && Descends(CustomBases(d), CustomBases(d)[s], name)
  }

  /** Going on to the base of a class that has just been put on the stack. */
  lemma BaseStack(d: Declarations, visit: map<int, int>, name: int)
    requires name in CustomBases(d) && StackAbove(d, visit, name)
    ensures StackAbove(d, visit[name := 1], d[name].base)
  {
    var bases, base := CustomBases(d), d[name].base;
    StepDescends(bases, base, base);
    StepDescends(bases, name, base);
    forall s | s in visit && visit[s] == 1 && s != name
      ensures Descends(bases, bases[s], base)
    {
      DescendsTransitive(bases, bases[s], name, base);
    }
  }

  /** The same classes are on the stack. */
  ghost predicate SameStack(v: map<int, int>, v': map<int, int>) {
    && (forall s :: s in v ==> s in v')
    && (forall s :: s in v' && v'[s] == 1 <==> s in v && v[s] == 1)
  }

  /** Once everything is built, the order of building ranks the classes, so the bases have no circles. */
  lemma BuiltIsAcyclic(d: Declarations, w: World, r: Run)
    requires RunOk(d, w, r) && forall n :: n in d ==> n in r.built
    ensures !Cyclic(d)
  {
    var bases := CustomBases(d);
    var rank := map n | n in d :: Position(d, w, r, n);
    forall n | n in bases
      ensures n in rank && bases[n] in rank && rank[bases[n]] < rank[n]
    {
      var k := Position(d, w, r, n);
      assert ClassOk(d, w, r.classes, k);
      var j :| 0 <= j < k && r.classes[j].decl.name == bases[n];
      assert Position(d, w, r, bases[n]) == j;
    }
    forall n | n in bases
      ensures !Descends(bases, bases[n], n)
    {
      NoCycle(bases, rank, n);
    }
  }

  lemma BuiltHasBases(d: Declarations, w: World, r: Run)
    requires RunOk(d, w, r) && forall n :: n in d ==> n in r.built
    ensures !Baseless(d, w)
  {
    forall n | n in d
      ensures d[n].base in d || d[n].base in w.stock
    {
      var k := Position(d, w, r, n);
      assert ClassOk(d, w, r.classes, k);
    }
  }

  lemma BuiltFits(d: Declarations, w: World, r: Run)
    requires RunOk(d, w, r) && forall n :: n in d ==> n in r.built
    ensures !AnyMisfit(d, w)
  {
    hide Misfit, LastEnd, PropsOf, BaseFirst;
    forall n | n in d
      ensures !Misfit(d, w, n)
    {
      var k := Position(d, w, r, n);
      assert ClassOk(d, w, r.classes, k);
    }
  }

  /** What is wrong with the declarations when the build fails like this. */
  ghost predicate Explains(d: Declarations, w: World, e: Error) {
    (e.Cycle? && Cyclic(d)) || (e.MissingBase? && Baseless(d, w)) || (e.BadDeclaration? && AnyMisfit(d, w))
  }

  /** Nothing is wrong with the declarations. */
  ghost predicate Buildable(d: Declarations, w: World) {
    !Cyclic(d) && !Baseless(d, w) && !AnyMisfit(d, w)
  }

  ghost function Position(d: Declarations, w: World, r: Run, name: int): (k: int)
    requires RunOk(d, w, r) && name in r.built
    ensures 0 <= k < |r.classes| && r.classes[k].decl.name == name
  {
    var k :| 0 <= k < |r.classes| && r.classes[k].decl.name == name;
    k
  }

  // ---------- The build ----------

  class SchemaBuild {
    const declarations: Declarations
    const world: World
    var visit: map<int, int>
    var built: map<int, FinalClass>
    var classes: seq<FinalClass>

    constructor (declarations: Declarations, world: World)
      requires DeclarationsOk(declarations)
      ensures this.declarations == declarations && this.world == world
      ensures Valid() && Now() == Run(map[], map[], [])
    {
      this.declarations, this.world := declarations, world;
      visit, built, classes := map[], map[], [];
    }

    ghost function Now(): Run
      reads this
    {
      Run(visit, built, classes)
    }

    ghost predicate Valid()
      reads this
    {
      RunOk(declarations, world, Now())
    }

    /** `build`. A class met on the stack is a circle of bases; one that is done is not built again. */
    method BuildClass(name: int) returns (r: Result<FinalClass, Error>)
      requires Valid() && name in declarations && StackAbove(declarations, visit, name)
      modifies this
      ensures Valid() && old(classes) <= classes
      ensures r.Ok? ==> name in built && built[name] == r.value && SameStack(old(visit), visit)
      ensures r.Err? ==> Explains(declarations, world, r.error)
      decreases |declarations.Keys - visit.Keys|, 0
    {
      hide RunOk, StackAbove, Cyclic, SameStack;
      VisitIs(name);
      if name in visit {
        if visit[name] == 2 {
          return Ok(built[name]);
        }
        StackIsCycle(declarations, visit, name);
        return Err(Cycle);
      }
      ghost var outer := visit;
      EnterKeepsOk(declarations, world, Now(), name);
      visit := visit[name := 1];
      FewerLeft(declarations.Keys, outer, name);
      var ancestors := AllocationAncestors(world.allocation, declarations[name].factory);
      if ancestors.None? {
        assert Misfit(declarations, world, name);
        return Err(BadDeclaration);
      }
      var parent := BuildBase(name, ancestors.value, outer);
      if parent.Err? {
        return Err(parent.error);
      }
      r := Finish(name, parent.value, outer);
    }

    /** Lines 407-419: the base of a class on the stack, and what the class inherits from it. */
    method BuildBase(name: int, ancestors: set<nat>, ghost outer: map<int, int>) returns (r: Result<Parent, Error>)
      requires Valid() && name in declarations && name !in outer && visit == outer[name := 1]
      requires StackAbove(declarations, outer, name)
      requires forall a :: a in ancestors <==> Descends(world.allocation, declarations[name].factory, a)
      modifies this
      ensures Valid() && old(classes) <= classes
      ensures r.Ok? ==>
                && SameStack(outer[name := 1], visit) && BaseNeeds(declarations, world, name, r.value)
                && if declarations[name].base in declarations
                   then declarations[name].base in built
                   else declarations[name].base in world.stock
      ensures r.Err? ==> Explains(declarations, world, r.error)
      decreases |declarations.Keys - visit.Keys|, 1
    {
      hide RunOk, StackAbove, Cyclic, SameStack;
      var d := declarations[name];
      if d.base !in declarations {
        StackStays(visit);
        return if d.base in world.stock then Ok(Parent(0, StockProps(world, d.base))) else Err(MissingBase);
      }
      BaseStack(declarations, outer, name);
      var parent := BuildClass(d.base);
      if parent.Err? {
        return Err(parent.error);
      }
      BuiltLastEnd(d.base);
      if parent.value.required != 0 && declarations[d.base].factory !in ancestors {
        assert Misfit(declarations, world, name);
        return Err(BadDeclaration);
      }
      r := Ok(Parent(parent.value.required, parent.value.props));
    }

    lemma BuiltLastEnd(name: int)
      requires Valid() && name in built
      ensures name in declarations && LastEnd(declarations, name, built[name].required)
      ensures PropsOf(declarations, world, name, built[name].props)
    {
      hide LastEnd, PropsOf, Misfit, BaseFirst;
      var k :| 0 <= k < |classes| && classes[k] == built[name];
      assert ClassOk(declarations, world, classes, k);
    }

    lemma VisitIs(name: int)
      requires Valid()
      ensures DeclarationsOk(declarations)
      ensures name in visit ==> visit[name] == 1 || (visit[name] == 2 && name in built)
      ensures forall s :: s in visit ==> s in declarations
      ensures SameStack(visit, visit)
    {
    }

    lemma StackStays(v: map<int, int>)
      ensures SameStack(v, v)
    {
    }

    /** Lines 420-456: the checks of the layout, and the finished class. */
    method Finish(name: int, parent: Parent, ghost outer: map<int, int>) returns (r: Result<FinalClass, Error>)
      requires Valid() && name in declarations && name !in outer && SameStack(outer[name := 1], visit)
      requires if declarations[name].base in declarations
               then declarations[name].base in built
               else declarations[name].base in world.stock
      requires BaseNeeds(declarations, world, name, parent) && !AllocatesInCircle(world.allocation, declarations[name].factory)
      modifies this
      ensures Valid() && old(classes) <= classes && (r.Err? ==> r.error == BadDeclaration && AnyMisfit(declarations, world))
      ensures r.Ok? ==> name in built && built[name] == r.value && SameStack(outer, visit)
    {
      hide RunOk, LastEnd, BaseNeeds, EndsAt, SameStack, Misfit, Fits, FieldEnds, WithFields, AllocatesInCircle;
      VisitIs(name);
      var d := declarations[name];
      FitsIff(declarations, world, name, parent);
      var required := LastFieldEnd(d, parent);
      if required.None? {
        return Err(BadDeclaration);
      }
      var c := FinalClass(d, required.value, WithFields(d, world, parent));
      IsOnTop(outer, name);
      FinishKeepsOk(declarations, world, Now(), c, parent);
      OffTheStack(outer, visit, name);
      classes := classes + [c];
      built := built[name := c];
      visit := visit[name := 2];
      r := Ok(c);
    }

    /** The checks of lines 420-446; None if one fails. */
    method LastFieldEnd(d: Decl, parent: Parent) returns (required: Option<nat>)
      ensures required == if Fits(d, parent) then Some(MaxOf(FieldEnds(d), parent.required)) else None
    {
      ghost var ends, names := FieldEnds(d), FieldNames(d);
      hide Fits, Distinct;
      FitsInParts(d, parent);
      if !d.otherOk || EntitySize(d) < parent.required || !DataBehindBase(d) {
        return None;
      }
      var end, taken := parent.required, parent.props;
      NoneTaken(names, parent.props);
      for n := 0 to |d.fields|
        invariant end == MaxOf(ends[..n], parent.required) <= EntitySize(d)
        invariant Taken(names, n, parent.props, taken)
      {
        var f := d.fields[n];
        assert names[n] == f.name && ends[n] == f.end;
        if f.name in taken {
          Retaken(names, n, parent.props, taken);
          return None;
        }
        if f.end > EntitySize(d) {
          return None;
        }
        assert ends[..n + 1][..n] == ends[..n];
        end := if end < f.end then f.end else end;
        TakeNext(names, n, parent.props, taken);
        taken := taken + {f.name};
      }
      assert ends[..|d.fields|] == ends && names[..|d.fields|] == names;
      required := Some(end);
    }

    static lemma FitsInParts(c: Decl, parent: Parent)
      ensures Fits(c, parent) <==>
                && c.otherOk && DataBehindBase(c)
                && Taken(FieldNames(c), |c.fields|, parent.props, parent.props + set x | x in FieldNames(c))
                && MaxOf(FieldEnds(c), parent.required) <= EntitySize(c)
    {
      var names := FieldNames(c);
      assert names[..|c.fields|] == names;
    }

    /** The first n names differ from each other and from those that were there before. */
    static ghost predicate Taken(names: seq<int>, n: nat, props: set<int>, taken: set<int>)
      requires n <= |names|
    {
      && Distinct(names[..n]) && (forall x :: x in names[..n] ==> x !in props)
      && (forall x :: x in taken <==> x in props || x in names[..n])
    }

    static lemma NoneTaken(names: seq<int>, props: set<int>)
      ensures Taken(names, 0, props, props)
    {
    }

    static lemma TakeNext(names: seq<int>, n: nat, props: set<int>, taken: set<int>)
      requires n < |names| && Taken(names, n, props, taken) && names[n] !in taken
      ensures Taken(names, n + 1, props, taken + {names[n]})
    {
      var more := names[..n + 1];
      assert more == names[..n] + [names[n]];
      forall i, j | 0 <= i < j < |more|
        ensures more[i] != more[j]
      {
        assert j == n ==> more[i] in names[..n];
        assert j < n ==> more[j] == names[..n][j] && more[i] == names[..n][i];
      }
    }

    static lemma Retaken(names: seq<int>, n: nat, props: set<int>, taken: set<int>)
      requires n < |names| && Taken(names, n, props, taken) && names[n] in taken
      ensures forall all: set<int> :: !Taken(names, |names|, props, all)
    {
      var full, x := names[..|names|], names[n];
      assert full == names && full[n] == x;
      assert x in taken && x in full;
      if x in names[..n] {
        var i :| 0 <= i < n && names[..n][i] == x;
        assert full[i] == full[n] && !Distinct(full);
      } else {
        assert x in props;
      }
    }

    lemma IsOnTop(outer: map<int, int>, name: int)
      requires Valid() && SameStack(outer[name := 1], visit)
      ensures name in visit && visit[name] == 1
    {
    }

    /** Line 458: build every declared class. */
    method BuildAll(order: seq<int>) returns (r: Result<bool, Error>)
      requires Valid() && Now() == Run(map[], map[], []) && (forall n :: n in order <==> n in declarations)
      modifies this
      ensures Valid()
      ensures r.Ok? ==>
                && Buildable(declarations, world)
                && forall n :: n in declarations ==> n in built
      ensures r.Err? ==> Explains(declarations, world, r.error)
    {
      hide RunOk, Cyclic;
      StackStays(visit);
      ghost var empty := visit;
      for i := 0 to |order|
        invariant Valid() && SameStack(empty, visit)
        invariant forall j :: 0 <= j < i ==> order[j] in built
      {
        assert order[i] in order;
        ghost var was := Now();
        NothingOnStack(declarations, visit, order[i]);
        var c := BuildClass(order[i]);
        if c.Err? {
          return Err(c.error);
        }
        StillBuilt(was);
        StackStaysOn(empty, was.visit, visit);
        assert forall j :: 0 <= j < i ==> order[j] in was.built.Keys;
      }
      assert forall n :: n in declarations ==> n in order;
      BuiltIsAcyclic(declarations, world, Now());
      BuiltHasBases(declarations, world, Now());
      BuiltFits(declarations, world, Now());
      r := Ok(true);
    }

    lemma StillBuilt(was: Run)
      requires RunOk(declarations, world, was) && Valid() && was.classes <= classes
      ensures was.built.Keys <= built.Keys
    {
      forall n | n in was.built
        ensures n in built
      {
        var k :| 0 <= k < |was.classes| && was.classes[k] == was.built[n];
        assert classes[k].decl.name == n;
      }
    }
  }

  // ---------- Allocation ancestors ----------

  /** One of the first n + 1 factories of the chain. */
  ghost predicate MetBy(allocation: map<nat, nat>, factory: nat, n: nat, a: nat) {
    exists i: nat :: i <= n && Ancestor(allocation, factory, i) == Some(a)
  }

  ghost predicate Met(allocation: map<nat, nat>, factory: nat, n: nat, ancestors: set<nat>) {
    forall a :: a in ancestors <==> MetBy(allocation, factory, n, a)
  }

  /** Lines 403-406: a factory and its allocation bases, or None if they lead into a circle. */
  method AllocationAncestors(allocation: map<nat, nat>, factory: nat) returns (r: Option<set<nat>>)
    ensures r.None? <==> AllocatesInCircle(allocation, factory)
    ensures r.Some? ==> forall a :: a in r.value <==> Descends(allocation, factory, a)
  {
    hide *;
    var ancestors, cur := {factory}, factory;
    ghost var n: nat, behind := 0, {};
    MetFirst(allocation, factory);
    while cur in allocation
      invariant Ancestor(allocation, factory, n) == Some(cur) && Met(allocation, factory, n, ancestors)
      invariant ancestors == behind + {cur} && cur !in behind
      decreases |allocation.Keys - behind|
    {
      NextAncestor(allocation, factory, n);
      MetNext(allocation, factory, n, ancestors, allocation[cur]);
      assert allocation.Keys - behind == (allocation.Keys - (behind + {cur})) + {cur};
      if allocation[cur] in ancestors {
        return None;
      }
      behind := behind + {cur};
      cur := allocation[cur];
      ancestors := ancestors + {cur};
      n := n + 1;
    }
    EndOfChain(allocation, factory, n);
    MetAll(allocation, factory, n, ancestors);
    r := Some(ancestors);
  }

  lemma MetFirst(allocation: map<nat, nat>, factory: nat)
    ensures Ancestor(allocation, factory, 0) == Some(factory) && Met(allocation, factory, 0, {factory})
  {
    assert Ancestor(allocation, factory, 0) == Some(factory);
  }

  lemma MetNext(allocation: map<nat, nat>, factory: nat, n: nat, ancestors: set<nat>, next: nat)
    requires Met(allocation, factory, n, ancestors) && Ancestor(allocation, factory, n + 1) == Some(next)
    ensures Met(allocation, factory, n + 1, ancestors + {next})
    ensures next in ancestors ==> AllocatesInCircle(allocation, factory)
  {
    hide AllocatesInCircle;
    forall a
      ensures a in ancestors + {next} <==> MetBy(allocation, factory, n + 1, a)
    {
      if MetBy(allocation, factory, n + 1, a) && a != next {
        var i: nat :| i <= n + 1 && Ancestor(allocation, factory, i) == Some(a);
        assert i <= n;
      }
    }
    if next in ancestors {
      assert MetBy(allocation, factory, n, next);
      MetAgain(allocation, factory, n, next);
    }
  }

  lemma MetAll(allocation: map<nat, nat>, factory: nat, n: nat, ancestors: set<nat>)
    requires Met(allocation, factory, n, ancestors)
    requires forall i: nat :: n < i ==> Ancestor(allocation, factory, i).None?
    ensures forall a :: a in ancestors <==> Descends(allocation, factory, a)
  {
    forall a: nat
      ensures MetBy(allocation, factory, n, a) <==> Descends(allocation, factory, a)
    {
      if Descends(allocation, factory, a) {
        var i: nat :| Ancestor(allocation, factory, i) == Some(a);
        assert i <= n;
      }
    }
  }

  /** A chain that comes back to where it has been runs in a circle. */
  lemma MetAgain(allocation: map<nat, nat>, factory: nat, n: nat, cur: nat)
    requires Ancestor(allocation, factory, n + 1) == Some(cur) && MetBy(allocation, factory, n, cur)
    ensures AllocatesInCircle(allocation, factory)
  {
    var i: nat :| i <= n && Ancestor(allocation, factory, i) == Some(cur);
    AncestorAdds(allocation, factory, i, n + 1 - i);
    assert Ancestor(allocation, cur, n + 1 - i) == Some(cur);
    assert Ancestor(allocation, allocation[cur], n - i) == Some(cur);
  }

  /** A chain that comes to an end runs in no circle. */
  lemma EndOfChain(allocation: map<nat, nat>, factory: nat, n: nat)
    requires Ancestor(allocation, factory, n).Some? && Ancestor(allocation, factory, n).value !in allocation
    ensures !AllocatesInCircle(allocation, factory)
    ensures forall i: nat :: n < i ==> Ancestor(allocation, factory, i).None?
  {
    forall i: nat | n < i
      ensures Ancestor(allocation, factory, i).None?
    {
      AncestorAdds(allocation, factory, n, i - n);
    }
    if AllocatesInCircle(allocation, factory) {
      var g :| g in allocation && Descends(allocation, factory, g) && Descends(allocation, allocation[g], g);
      var j: nat :| Ancestor(allocation, factory, j) == Some(g);
      var m: nat :| Ancestor(allocation, allocation[g], m) == Some(g);
      assert Ancestor(allocation, g, m + 1) == Some(g);
      RunsOn(allocation, g, m + 1, n + 1);
      AncestorAdds(allocation, factory, j, n + 1);
      assert false;
    }
  }

  lemma {:induction false} RunsOn(allocation: map<nat, nat>, g: nat, m: nat, i: nat)
    requires 0 < m && Ancestor(allocation, g, m) == Some(g)
    ensures Ancestor(allocation, g, i).Some?
    decreases i
  {
    if m <= i {
      RunsOn(allocation, g, m, i - m);
      AncestorAdds(allocation, g, m, i - m);
    } else {
      Shorter(allocation, g, i, m);
    }
  }

  lemma {:induction false} Shorter(allocation: map<nat, nat>, g: nat, i: nat, m: nat)
    requires i <= m && Ancestor(allocation, g, m).Some?
    ensures Ancestor(allocation, g, i).Some?
    decreases i
  {
    if 0 < i {
      Shorter(allocation, allocation[g], i - 1, m - 1);
    }
  }

  lemma NextAncestor(allocation: map<nat, nat>, factory: nat, n: nat)
    requires Ancestor(allocation, factory, n).Some?
    ensures var a := Ancestor(allocation, factory, n).value;
            Ancestor(allocation, factory, n + 1) == if a in allocation then Some(allocation[a]) else None
  {
    AncestorAdds(allocation, factory, n, 1);
    var a := Ancestor(allocation, factory, n).value;
    assert a in allocation ==> Ancestor(allocation, allocation[a], 0) == Some(allocation[a]);
  }

  lemma OffTheStack(outer: map<int, int>, visit: map<int, int>, name: int)
    requires name !in outer && SameStack(outer[name := 1], visit)
    ensures SameStack(outer, visit[name := 2])
  {
  }

  lemma NothingOnStack(d: Declarations, visit: map<int, int>, name: int)
    requires SameStack(map[], visit)
    ensures StackAbove(d, visit, name)
  {
  }

  lemma StackStaysOn(v: map<int, int>, v': map<int, int>, v'': map<int, int>)
    requires SameStack(v, v') && SameStack(v', v'')
    ensures SameStack(v, v'')
  {
  }

  lemma StackIsCycle(d: Declarations, visit: map<int, int>, name: int)
    requires StackAbove(d, visit, name) && name in visit && visit[name] == 1
    ensures Cyclic(d)
  {
  }

  lemma FewerLeft(all: set<int>, visit: map<int, int>, name: int)
    requires name in all && name !in visit
    ensures |all - visit[name := 1].Keys| < |all - visit.Keys|
  {
    assert all - visit.Keys == (all - visit[name := 1].Keys) + {name};
  }
}
