/** `Prepare`, `Publish` and `Commit` of the server class manager
    (extension/sourcesdk/cbasenpcserverclass.cpp:347-595). Of send tables only names are,
    and bit patches are not part of this model. */
module SchemaManager {
  import opened OpenList
  import opened Wrappers
  import opened ServerSchema

  /** What the manager looks at in a factory. */
  datatype Factory = Factory(installed: bool, hasFields: bool, decl: Option<Decl>)

  /** Strictly by name, so without duplicates. */
  ghost predicate ByName(s: seq<ServerClass>) {
    forall i, j :: 0 <= i < j < |s| ==> s[i].name < s[j].name
  }

  /** Sorting by name; all names differ. */
  method SortByName(s: seq<ServerClass>) returns (t: seq<ServerClass>)
    requires forall i, j :: 0 <= i < j < |s| ==> s[i].name != s[j].name
    ensures ByName(t) && |t| == |s|
    ensures (forall c :: c in t ==> c in s) && (forall c :: c in s ==> c in t)
  {
    t := [];
    for i := 0 to |s|
      invariant ByName(t) && |t| == i
      invariant (forall c :: c in t ==> c in s[..i]) && (forall c :: c in s[..i] ==> c in t)
    {
      var p := 0;
      while p < |t| && t[p].name < s[i].name
        invariant 0 <= p <= |t| && forall k :: 0 <= k < p ==> t[k].name < s[i].name
      {
        p := p + 1;
      }
      forall k | 0 <= k < |t|
        ensures t[k].name != s[i].name
      {
        assert t[k] in s[..i];
      }
      ghost var was := t;
      t := InsertAt(t, p, s[i]);
      InsertContents(was, p, s[i]);
      assert s[..i + 1] == s[..i] + [s[i]];
    }
    assert s[..|s|] == s;
  }

  class ServerClassManager {
    const maxServerClasses: nat
    const stock: seq<ServerClass>
    const stockTables: set<int>
    const stockProps: map<int, set<int>>
    const baseclass: int
    var attempted: bool
    var failed: bool
    var prepared: bool
    var published: bool
    var finalized: bool
    var classes: seq<FinalClass>
    var combined: seq<ServerClass>
    var head: ServerClass?

    constructor (stock: seq<ServerClass>, stockTables: set<int>, stockProps: map<int, set<int>>, baseclass: int,
                 maxServerClasses: nat)
      ensures Valid() && this.stock == stock && this.maxServerClasses == maxServerClasses
      ensures this.stockTables == stockTables && this.stockProps == stockProps && this.baseclass == baseclass
      ensures !attempted && !failed && !prepared && !published && !finalized && combined == []
    {
      this.stock, this.maxServerClasses := stock, maxServerClasses;
      this.stockTables, this.stockProps, this.baseclass := stockTables, stockProps, baseclass;
      attempted, failed, prepared, published, finalized := false, false, false, false, false;
      classes, combined, head := [], [], null;
    }

    /** Once published, the class list that starts at `head` is the combined list; nothing is prepared before
        the first attempt. */
    ghost predicate Valid()
      reads this, combined
    {
      && ByName(combined) && (published ==> combined != [] && Spells(head, combined, 0))
      && (!attempted ==> combined == [] && !prepared && !published)
    }

    /** The pointers spell the list from position i on. */
    ghost predicate Spells(from: ServerClass?, s: seq<ServerClass>, i: nat)
      requires i <= |s|
      reads s
      decreases |s| - i
    {
      if i == |s| then from == null else from == s[i] && Spells(s[i].next, s, i + 1)
    }

    /** Exactly what the installed factories declare. */
    static ghost predicate Declares(factories: seq<Factory>, d: Declarations) {
      && (forall n :: n in d ==> exists i :: 0 <= i < |factories| && factories[i].installed && factories[i].decl == Some(d[n]))
      && (forall i :: 0 <= i < |factories| && factories[i].installed && factories[i].decl.Some? ==>
            factories[i].decl.value.name in d && d[factories[i].decl.value.name] == factories[i].decl.value)
    }

    /** No two classes, stock or declared, share a name. */
    ghost predicate NamesApart(d: Declarations) {
      && (forall i, j :: 0 <= i < j < |stock| ==> stock[i].name != stock[j].name)
      && (forall i :: 0 <= i < |stock| ==> stock[i].name !in d)
    }

    /** Two classes have the same name: two stock ones, a stock and a declared one, or two declared ones. */
    ghost predicate Clash(factories: seq<Factory>) {
      || (exists i, j :: 0 <= i < j < |stock| && stock[i].name == stock[j].name)
      || (exists i, j :: 0 <= i < |stock| && 0 <= j < |factories| && Declared(factories[j], stock[i].name))
      || (exists i, j :: 0 <= i < j < |factories| && SameName(factories[i], factories[j]))
    }

    static ghost predicate Declared(f: Factory, name: int) {
      f.installed && f.decl.Some? && f.decl.value.name == name
    }

    static ghost predicate SameName(f: Factory, g: Factory) {
      f.decl.Some? && Declared(f, f.decl.value.name) && Declared(g, f.decl.value.name)
    }

    /** An installed factory has network fields but declares no class. */
    static ghost predicate Undeclared(f: Factory) {
      f.installed && f.decl.None? && f.hasFields
    }

    /** A declared table has the name of a stock one, or of another declared one. */
    ghost predicate TableClash(factories: seq<Factory>) {
      || (exists i :: 0 <= i < |factories| && DeclaresStockTable(factories[i]))
      || (exists i, j :: 0 <= i < j < |factories| && SameTable(factories[i], factories[j]))
    }

    static ghost predicate DeclaresTable(f: Factory, table: int) {
      f.installed && f.decl.Some? && f.decl.value.table == table
    }

    ghost predicate DeclaresStockTable(f: Factory) {
      f.decl.Some? && DeclaresTable(f, f.decl.value.table) && f.decl.value.table in stockTables
    }

    static ghost predicate SameTable(f: Factory, g: Factory) {
      f.decl.Some? && DeclaresTable(f, f.decl.value.table) && DeclaresTable(g, f.decl.value.table)
    }

    ghost predicate Collectable(factories: seq<Factory>) {
      !Clash(factories) && !TableClash(factories) && forall i :: 0 <= i < |factories| ==> !Undeclared(factories[i])
    }

    /** Lines 362-366: the names of the stock classes, if they differ. */
    method StockClassNames() returns (r: Option<set<int>>)
      ensures r.None? <==> exists i, j :: 0 <= i < j < |stock| && stock[i].name == stock[j].name
      ensures r.Some? ==> forall n :: n in r.value <==> exists j :: 0 <= j < |stock| && stock[j].name == n
      ensures r.Some? ==> forall i :: 0 <= i < |stock| ==> stock[i].name in r.value
    {
      var classNames: set<int> := {};
      for i := 0 to |stock|
        invariant forall n :: n in classNames <==> exists j :: 0 <= j < i && stock[j].name == n
        invariant forall j, k :: 0 <= j < k < i ==> stock[j].name != stock[k].name
      {
        if stock[i].name in classNames {
          return None;
        }
        classNames := classNames + {stock[i].name};
      }
      assert forall i :: 0 <= i < |stock| ==> stock[i].name in classNames;
      r := Some(classNames);
    }

    /** Lines 357-380: the declarations of the installed factories, and their names in the order found. */
    method Collect(factories: seq<Factory>) returns (r: Result<Declarations, Error>, names: seq<int>)
      ensures r.Ok? ==>
                && DeclarationsOk(r.value) && Distinct(names) && (forall n :: n in names <==> n in r.value)
                && NamesApart(r.value) && Declares(factories, r.value)
      ensures r.Ok? <==> Collectable(factories)
      ensures r.Err? ==> r.error == DuplicateName || r.error == BadDeclaration
    {
      var found := StockClassNames();
      var classNames: set<int>, d: Declarations, tables: set<int> := {}, map[], {};
      names := [];
      if found.None? {
        return Err(DuplicateName), names;
      }
      classNames := found.value;
      ghost var stockNames := classNames;
      hide *;
      for i := 0 to |factories|
        invariant NamesSoFar(factories, i, stockNames, classNames, d, names)
        invariant TablesSoFar(factories, i, tables)
      {
        var factory := factories[i];
        NextNames(factories, i, stockNames, classNames, d, names);
        NextTables(factories, i, tables);
        if !factory.installed || (factory.decl.None? && !factory.hasFields) {
          continue;
        }
        if factory.decl.None? {
          return Err(BadDeclaration), names;
        }
        var decl := factory.decl.value;
        if decl.name in classNames {
          NameIsTaken(factories, i, stockNames, classNames, d, names);
          return Err(DuplicateName), names;
        }
        if decl.table in stockTables || decl.table in tables {
          return Err(DuplicateName), names;
        }
        classNames := classNames + {decl.name};
        tables := tables + {decl.table};
        d := d[decl.name := decl];
        names := names + [decl.name];
      }
      AllCollected(factories, stockNames, classNames, d, names, tables);
      r := Ok(d);
    }

    /** What the first i factories declare has been collected, and no two names of classes are the same. */
    ghost predicate NamesSoFar(factories: seq<Factory>, i: nat, stockNames: set<int>, classNames: set<int>, d: Declarations,
                               names: seq<int>)
      requires i <= |factories|
    {
      && DeclarationsOk(d) && Distinct(names) && (forall n :: n in names <==> n in d)
      && classNames == stockNames + d.Keys && stockNames !! d.Keys
      && (forall j :: 0 <= j < i ==> !Undeclared(factories[j]))
      && (forall j, k :: 0 <= j < k < i ==> !SameName(factories[j], factories[k]))
      && (forall n :: n in d ==> exists j :: 0 <= j < i && factories[j].installed && factories[j].decl == Some(d[n]))
      && (forall j :: 0 <= j < i && factories[j].installed && factories[j].decl.Some? ==>
            factories[j].decl.value.name in d && d[factories[j].decl.value.name] == factories[j].decl.value)
    }

    /** No table of the first i factories has the name of a stock table or of another one. */
    ghost predicate TablesSoFar(factories: seq<Factory>, i: nat, tables: set<int>)
      requires i <= |factories|
    {
      && (forall t :: t in tables <==> exists j :: 0 <= j < i && DeclaresTable(factories[j], t))
      && (forall j :: 0 <= j < i ==> !DeclaresStockTable(factories[j]))
      && (forall j, k :: 0 <= j < k < i ==> !SameTable(factories[j], factories[k]))
    }

    lemma NextNames(factories: seq<Factory>, i: nat, stockNames: set<int>, classNames: set<int>, d: Declarations, names: seq<int>)
      requires i < |factories| && NamesSoFar(factories, i, stockNames, classNames, d, names)
      ensures var f := factories[i];
              if !f.installed || (f.decl.None? && !f.hasFields)
              then NamesSoFar(factories, i + 1, stockNames, classNames, d, names)
              else if f.decl.None? then !Collectable(factories)
              else
                var c := f.decl.value;
                c.name !in classNames ==>
                  NamesSoFar(factories, i + 1, stockNames, classNames + {c.name}, d[c.name := c], names + [c.name])
    {
      var f := factories[i];
      if f.installed && f.decl.None? && f.hasFields {
        assert Undeclared(f);
      } else if f.installed && f.decl.Some? && f.decl.value.name !in classNames {
        TakeName(factories, i, stockNames, classNames, d, names);
      }
    }

    lemma TakeName(factories: seq<Factory>, i: nat, stockNames: set<int>, classNames: set<int>, d: Declarations, names: seq<int>)
      requires i < |factories| && NamesSoFar(factories, i, stockNames, classNames, d, names)
      requires factories[i].installed && factories[i].decl.Some? && factories[i].decl.value.name !in classNames
      ensures var c := factories[i].decl.value;
              NamesSoFar(factories, i + 1, stockNames, classNames + {c.name}, d[c.name := c], names + [c.name])
    {
      hide Distinct;
      var c := factories[i].decl.value;
      assert c.name !in names;
      AppendDistinct(names, c.name);
      forall j | 0 <= j < i
        ensures !SameName(factories[j], factories[i])
      {
      }
    }

    static lemma AppendDistinct(s: seq<int>, x: int)
      requires Distinct(s) && x !in s
      ensures Distinct(s + [x])
    {
    }

    lemma NextTables(factories: seq<Factory>, i: nat, tables: set<int>)
      requires i < |factories| && TablesSoFar(factories, i, tables)
      ensures var f := factories[i];
              if !f.installed || f.decl.None? then TablesSoFar(factories, i + 1, tables)
              else
                var t := f.decl.value.table;
                if t in stockTables || t in tables then !Collectable(factories)
                else TablesSoFar(factories, i + 1, tables + {t})
    {
      var f := factories[i];
      if f.installed && f.decl.Some? {
        var t := f.decl.value.table;
        assert DeclaresTable(f, t);
        if t in tables {
          var j :| 0 <= j < i && DeclaresTable(factories[j], t);
          assert SameTable(factories[j], f);
        } else if t in stockTables {
          assert DeclaresStockTable(f);
        }
      }
    }

    lemma AllCollected(factories: seq<Factory>, stockNames: set<int>, classNames: set<int>, d: Declarations, names: seq<int>,
                       tables: set<int>)
      requires NamesSoFar(factories, |factories|, stockNames, classNames, d, names)
      requires TablesSoFar(factories, |factories|, tables)
      requires forall n :: n in stockNames <==> exists j :: 0 <= j < |stock| && stock[j].name == n
      requires forall i :: 0 <= i < |stock| ==> stock[i].name in stockNames
      requires forall j, k :: 0 <= j < k < |stock| ==> stock[j].name != stock[k].name
      ensures DeclarationsOk(d) && Distinct(names) && (forall n :: n in names <==> n in d)
      ensures NamesApart(d) && Declares(factories, d) && Collectable(factories)
    {
      hide Distinct, TableClash;
      NoTableClash(factories, tables);
    }

    lemma NoTableClash(factories: seq<Factory>, tables: set<int>)
      requires TablesSoFar(factories, |factories|, tables)
      ensures !TableClash(factories)
    {
    }

    lemma NameIsTaken(factories: seq<Factory>, i: nat, stockNames: set<int>, classNames: set<int>, d: Declarations,
                      names: seq<int>)
      requires i < |factories| && NamesSoFar(factories, i, stockNames, classNames, d, names)
      requires factories[i].installed && factories[i].decl.Some? && factories[i].decl.value.name in classNames
      requires forall n :: n in stockNames <==> exists j :: 0 <= j < |stock| && stock[j].name == n
      ensures !Collectable(factories)
    {
      var n := factories[i].decl.value.name;
      if n in stockNames {
        var j :| 0 <= j < |stock| && stock[j].name == n;
        assert Declared(factories[i], stock[j].name);
      } else {
        var j :| 0 <= j < i && factories[j].installed && factories[j].decl == Some(d[n]);
        assert SameName(factories[j], factories[i]);
      }
    }

    function StockNames(): (s: seq<int>)
      ensures |s| == |stock| && forall i :: 0 <= i < |s| ==> s[i] == stock[i].name
    {
      seq(|stock|, i requires 0 <= i < |stock| => stock[i].name)
    }

    /** What the declared classes are built against. */
    ghost function Against(allocation: map<nat, nat>): World {
      World(StockNames(), stockProps, allocation, baseclass)
    }

    /** The combined list holds every stock class and one class for each declaration, and nothing else. */
    ghost predicate Union(d: Declarations)
      reads this`combined
    {
      && (forall c :: c in stock ==> c in combined)
      && (forall n :: n in d ==> exists i :: 0 <= i < |combined| && combined[i].name == n && combined[i] !in stock)
      && (forall c :: c in combined ==> c in stock || c.name in d)
    }

    /** Every declared class has been built once, after its base, and its fields fit into its entity. */
    ghost predicate BuiltOnce(d: Declarations, allocation: map<nat, nat>)
      reads this`classes
    {
      && (forall k :: 0 <= k < |classes| ==> ClassOk(d, Against(allocation), classes, k))
      && (forall j, k :: 0 <= j < k < |classes| ==> classes[j].decl.name != classes[k].decl.name)
      && (forall n :: n in d ==> exists k :: 0 <= k < |classes| && classes[k].decl.name == n)
    }

    /** `Prepare`. It succeeds exactly when no name of a class or table occurs twice, no factory has fields without
        a class and, if anything needs to be done, there is room, the declared bases lead to no circle, none is
        missing, and no declaration is a misfit. Then each class was built once, after
        its base, and the combined list is the strictly sorted union of the stock classes and the declared
        ones. A second call repeats the failure, or reports re-entrance. */
    method Prepare(factories: seq<Factory>, allocation: map<nat, nat>, patched: bool, forceRebuild: bool, available: bool)
      returns (r: Result<bool, Error>, ghost d: Declarations)
      requires Valid()
      modifies this
      ensures Valid() && published == old(published) && finalized == old(finalized)
      ensures old(failed || finalized || attempted) ==>
                && combined == old(combined) && classes == old(classes) && failed == old(failed) && prepared == old(prepared)
                && r == (if old(failed) then Err(Failed) else if old(finalized) then Ok(true) else Err(Reentrant))
      ensures !old(failed || finalized || attempted) ==> attempted && (r.Ok? <==> prepared) && (r.Err? <==> failed)
      ensures !old(failed || finalized || attempted) && r.Ok? ==>
                && NamesApart(d) && Declares(factories, d)
                && if d == map[] && !patched && !forceRebuild then combined == []
                   else Buildable(d, Against(allocation)) && BuiltOnce(d, allocation) && Union(d)
      ensures !old(failed || finalized || attempted) ==>
                (Collectable(factories) ==> Declares(factories, d)) &&
                (r.Ok? <==>
                  && Collectable(factories)
                  && ((d == map[] && !patched && !forceRebuild)
                      || (available && |stock| + |d| <= maxServerClasses && Buildable(d, Against(allocation)))))
      ensures !old(failed || finalized || attempted) && r.Err? ==> combined == [] && classes == []
    {
      d := map[];
      if failed {
        return Err(Failed), d;
      }
      if finalized {
        return Ok(true), d;
      }
      if attempted {
        return Err(Reentrant), d;
      }
      attempted := true;
      var collected, names := Collect(factories);
      if collected.Err? {
        Fail();
        return Err(collected.error), d;
      }
      d := collected.value;
      if |collected.value| == 0 && !patched && !forceRebuild {
        prepared := true;
        return Ok(true), d;
      }
      if !available {
        Fail();
        return Err(Unavailable), d;
      }
      if |stock| + |collected.value| > maxServerClasses {
        Fail();
        return Err(TooMany), d;
      }
      r := Combine(collected.value, allocation, names);
    }

    /** The handler at the end. */
    method Fail()
      requires attempted && !published
      modifies this`failed, this`classes, this`combined
      ensures Valid() && failed && classes == [] && combined == []
    {
      failed := true;
      classes, combined := [], [];
    }

    /** Lines 458 and 484-487: build, then sort. */
    method Combine(d: Declarations, allocation: map<nat, nat>, names: seq<int>) returns (r: Result<bool, Error>)
      requires Valid() && attempted && !published && !failed && !prepared && NamesApart(d) && DeclarationsOk(d)
      requires Distinct(names) && forall n :: n in names <==> n in d
      modifies this`failed, this`prepared, this`classes, this`combined
      ensures Valid() && (r.Ok? <==> prepared) && (r.Err? <==> failed)
      ensures r.Ok? <==> Buildable(d, Against(allocation))
      ensures r.Ok? ==> BuiltOnce(d, allocation) && Union(d)
      ensures r.Err? ==> combined == [] && classes == []
    {
      hide Buildable, BuiltOnce, Union, NamesApart, DeclarationsOk;
      var customs := NewClasses(names);
      r := Build(d, allocation, names, customs);
      if r.Err? {
        Fail();
        return;
      }
      AllNamesDiffer(d, names, customs);
      combined := SortByName(stock + customs);
      IsUnion(d, names, customs);
      prepared := true;
    }

    /** Line 458: the classes are built in the order of their names. */
    method Build(d: Declarations, allocation: map<nat, nat>, names: seq<int>, customs: seq<ServerClass>)
      returns (r: Result<bool, Error>)
      requires DeclarationsOk(d) && Distinct(names) && (forall n :: n in names <==> n in d)
      requires |customs| == |names| && forall i :: 0 <= i < |names| ==> customs[i].name == names[i]
      modifies this`classes
      ensures r.Ok? <==> Buildable(d, Against(allocation))
      ensures r.Ok? ==> BuiltOnce(d, allocation)
    {
      var sorted := SortByName(customs);
      var order := seq(|sorted|, i requires 0 <= i < |sorted| => sorted[i].name);
      SameNames(names, customs, sorted, order);
      hide RunOk, Cyclic, Baseless, AnyMisfit, BuiltOnce, DeclarationsOk;
      var build := new SchemaBuild(d, World(StockNames(), stockProps, allocation, baseclass));
      r := build.BuildAll(order);
      if r.Ok? {
        classes := build.classes;
        BuiltIsOnce(d, allocation, build.Now());
      }
    }

    lemma AllNamesDiffer(d: Declarations, names: seq<int>, customs: seq<ServerClass>)
      requires NamesApart(d) && Distinct(names) && forall n :: n in names <==> n in d
      requires |customs| == |names| && forall i :: 0 <= i < |names| ==> customs[i].name == names[i]
      ensures forall i, j :: 0 <= i < j < |stock + customs| ==> (stock + customs)[i].name != (stock + customs)[j].name
    {
      var s := stock + customs;
      forall i, j | 0 <= i < j < |s|
        ensures s[i].name != s[j].name
      {
        if i < |stock| <= j {
          assert names[j - |stock|] in d;
        }
      }
    }

    lemma IsUnion(d: Declarations, names: seq<int>, customs: seq<ServerClass>)
      requires (forall n :: n in names <==> n in d) && (forall i :: 0 <= i < |customs| ==> customs[i] !in stock)
      requires |customs| == |names| && forall i :: 0 <= i < |names| ==> customs[i].name == names[i]
      requires forall c :: c in combined ==> c in stock + customs
      requires forall c :: c in stock + customs ==> c in combined
      ensures Union(d)
    {
      forall n | n in d
        ensures exists i :: 0 <= i < |combined| && combined[i].name == n && combined[i] !in stock
      {
        var i :| 0 <= i < |names| && names[i] == n;
        assert customs[i] in stock + customs;
        var j :| 0 <= j < |combined| && combined[j] == customs[i];
      }
      forall c | c in combined && c !in stock
        ensures c.name in d
      {
        var i :| 0 <= i < |customs| && customs[i] == c;
        assert names[i] in names;
      }
    }

    method NewClasses(names: seq<int>) returns (customs: seq<ServerClass>)
      ensures |customs| == |names|
      ensures forall i :: 0 <= i < |names| ==> customs[i].name == names[i] && fresh(customs[i])
    {
      customs := [];
      for i := 0 to |names|
        invariant |customs| == i
        invariant forall j :: 0 <= j < i ==> customs[j].name == names[j] && fresh(customs[j])
      {
        var c := new ServerClass(names[i]);
        customs := customs + [c];
      }
    }

    lemma SameNames(names: seq<int>, customs: seq<ServerClass>, sorted: seq<ServerClass>, order: seq<int>)
      requires |customs| == |names| && forall i :: 0 <= i < |names| ==> customs[i].name == names[i]
      requires |order| == |sorted| && forall i :: 0 <= i < |order| ==> order[i] == sorted[i].name
      requires (forall c :: c in sorted ==> c in customs) && (forall c :: c in customs ==> c in sorted)
      ensures forall n :: n in order <==> n in names
    {
      forall n | n in order
        ensures n in names
      {
        var i :| 0 <= i < |order| && order[i] == n;
        assert sorted[i] in customs;
      }
      forall n | n in names
        ensures n in order
      {
        var i :| 0 <= i < |names| && names[i] == n;
        assert customs[i] in sorted;
        var j :| 0 <= j < |sorted| && sorted[j] == customs[i];
        assert order[j] == n;
      }
    }

    lemma BuiltIsOnce(d: Declarations, allocation: map<nat, nat>, r: Run)
      requires RunOk(d, Against(allocation), r) && (forall n :: n in d ==> n in r.built) && classes == r.classes
      ensures BuiltOnce(d, allocation)
    {
      forall n | n in d
        ensures exists k :: 0 <= k < |classes| && classes[k].decl.name == n
      {
        var k :| 0 <= k < |classes| && classes[k] == r.built[n];
      }
    }

    // ---------- Publishing ----------

    /** `Publish`: the combined classes are chained in order, and the head is the first of them. */
    method Publish() returns (r: Result<bool, Error>)
      requires Valid()
      modifies this`head, this`published, combined`next
      ensures Valid() && (r.Ok? <==> prepared && !failed)
      ensures r.Ok? ==> (published <==> combined != [])
      ensures r.Err? ==> published == old(published)
    {
      if !prepared || failed {
        return Err(Failed);
      }
      if |combined| == 0 || published {
        return Ok(true);
      }
      Relink();
      Chained(0);
      head := combined[0];
      published := true;
      r := Ok(true);
    }

    /** Line 519. */
    method Relink()
      requires ByName(combined)
      modifies combined`next
      ensures forall j {:trigger combined[j].next} :: 0 <= j < |combined| ==>
                combined[j].next == if j + 1 < |combined| then combined[j + 1] else null
    {
      var i := 0;
      while i < |combined|
        invariant 0 <= i <= |combined|
        invariant forall j {:trigger combined[j].next} :: 0 <= j < i ==>
                    combined[j].next == if j + 1 < |combined| then combined[j + 1] else null
      {
        assert forall j :: 0 <= j < i ==> combined[j].name < combined[i].name;
        combined[i].next := if i + 1 < |combined| then combined[i + 1] else null;
        i := i + 1;
      }
    }

    lemma {:induction false} Chained(i: nat)
      requires i <= |combined|
      requires forall j {:trigger combined[j].next} :: 0 <= j < |combined| ==>
                 combined[j].next == if j + 1 < |combined| then combined[j + 1] else null
      ensures Spells(if i < |combined| then combined[i] else null, combined, i)
      decreases |combined| - i
    {
      if i < |combined| {
        assert combined[i].next == if i + 1 < |combined| then combined[i + 1] else null;
        Chained(i + 1);
      }
    }

    /** Lines 575-582: the public list is walked against the combined one. */
    method CheckWalk() returns (ok: bool)
      ensures ok <==> Spells(head, combined, 0)
    {
      var actual := head;
      var i := 0;
      while i < |combined|
        invariant 0 <= i <= |combined| && (Spells(head, combined, 0) <==> Spells(actual, combined, i))
      {
        if actual != combined[i] {
          return false;
        }
        actual := combined[i].next;
        i := i + 1;
      }
      ok := actual == null;
    }

    /** `Commit`; `initialized` is what the engine answers to the new tables. Once published, the walk check
        cannot fail. */
    method Commit(initialized: bool) returns (r: Result<bool, Error>)
      requires Valid()
      modifies this`finalized, this`failed
      ensures Valid()
      ensures r.Ok? <==> old(prepared && !failed && (finalized || combined == [] || (published && initialized)))
      ensures r.Ok? ==> finalized && failed == old(failed)
      ensures failed && !old(failed) ==> published && !initialized
    {
      if !prepared || failed {
        return Err(Failed);
      }
      if finalized {
        return Ok(true);
      }
      if |combined| == 0 {
        finalized := true;
        return Ok(true);
      }
      if !published {
        return Err(Failed);
      }
      if !initialized {
        failed := true;
        return Err(Failed);
      }
      var ok := CheckWalk();
      failed, finalized := !ok, ok;
      r := if ok then Ok(true) else Err(Failed);
    }
  }
}
