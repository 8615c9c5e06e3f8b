/** Plugin entity factories and the forest that installing them builds (extension/pluginentityfactory.cpp:281-324,
    442-509, 763-909). Callbacks into plugins and the removal of entities are not part of this model. */
module FactoryForest {
  import opened OpenList
  import opened Wrappers
  import opened FactoryAncestry

  /** `m_Derive`. */
  datatype Derive =
    | NoDerive
    | FromBaseClass
    | FromNPC
    | FromClassname(classname: string)
    | FromHandle(handle: nat)
    | FromConfig

  /** An `IEntityFactory` pointer: null, a factory of the game, or one of ours. */
  datatype Base = NoBase | GameBase(id: nat) | PluginBase(factory: PluginEntityFactory)

  class PluginEntityFactory {
    const plugin: nat
    const classname: string
    var derive: Derive
    var isAbstract: bool
    var installed: bool
    var baseFactory: Base
    var derivedFactories: seq<PluginEntityFactory>
    ghost var stamp: int

    constructor (plugin: nat, classname: string)
      ensures this.plugin == plugin && this.classname == classname && derive == NoDerive && !isAbstract
      ensures !installed && baseFactory == NoBase && derivedFactories == []
    {
      this.plugin, this.classname := plugin, classname;
      derive, isAbstract, installed, baseFactory, derivedFactories := NoDerive, false, false, NoBase, [];
      stamp := 0;
    }

    /** `IsBaseFactoryRequired`. */
    predicate IsBaseFactoryRequired()
      reads this`derive
    {
      derive.FromNPC? || derive.FromClassname? || derive.FromHandle?
    }
  }

  /** `FindAndRemove`: the first occurrence goes, the others keep their order. */
  function RemoveFirst<T(==)>(s: seq<T>, x: T): seq<T> {
    if s == [] then [] else if s[0] == x then s[1..] else [s[0]] + RemoveFirst(s[1..], x)
  }

  lemma {:induction false} RemoveFirstExact<T>(s: seq<T>, x: T)
    requires Distinct(s)
    ensures Distinct(RemoveFirst(s, x))
    ensures forall y :: y in RemoveFirst(s, x) ==> y in s && y != x
    ensures forall y :: y in s && y != x ==> y in RemoveFirst(s, x)
    ensures |RemoveFirst(s, x)| == if x in s then |s| - 1 else |s|
  {
    if s != [] {
      var rest := s[1..];
      assert s == [s[0]] + rest;
      RemoveFirstExact(rest, x);
      assert s[0] !in rest;
      if s[0] != x {
        forall i, j | 0 <= i < j < |RemoveFirst(s, x)|
          ensures RemoveFirst(s, x)[i] != RemoveFirst(s, x)[j]
        {
          assert RemoveFirst(rest, x)[j - 1] in RemoveFirst(rest, x);
        }
      }
    }
  }

  /** The lists differ at most in f, which the second one holds just when asked. */
  ghost predicate SameBut<T>(s: seq<T>, t: seq<T>, f: T, with: bool) {
    && Distinct(t) && (f in t <==> with)
    && (forall c :: c in t && c != f ==> c in s)
    && (forall c :: c in s && c != f ==> c in t)
    && (s == [] && !with ==> t == [])
  }

  lemma SameButExact<T>(s: seq<T>, f: T, with: bool, was: bool)
    requires Distinct(s) && (f in s <==> was)
    ensures SameBut(s, (if was then RemoveFirst(s, f) else s) + if with then [f] else [], f, with)
  {
    RemoveFirstExact(s, f);
  }

  lemma OneLess<T>(s: seq<T>, t: seq<T>, x: T)
    requires Distinct(s) && Distinct(t) && x in s
    requires forall y :: y in t ==> y in s && y != x
    requires forall y :: y in s && y != x ==> y in t
    ensures |t| == |s| - 1
  {
    DistinctSize(s);
    DistinctSize(t);
    assert (set y | y in t) == (set y | y in s) - {x};
  }

  lemma {:induction false} DistinctSize<T>(s: seq<T>)
    requires Distinct(s)
    ensures |set y | y in s| == |s|
  {
    if s != [] {
      var n := |s| - 1;
      DistinctSize(s[..n]);
      assert s == s[..n] + [s[n]];
      assert (set y | y in s) == (set y | y in s[..n]) + {s[n]};
    }
  }

  // ---------- The forest as a value ----------

  /** The installed factories with their bases. */
  type Bases = map<PluginEntityFactory, Base>

  ghost function Parents(bases: Bases): map<PluginEntityFactory, PluginEntityFactory> {
    map f | f in bases && bases[f].PluginBase? :: bases[f].factory
  }

  /** f and every installed factory that derives from it. */
  ghost function Below(bases: Bases, f: PluginEntityFactory): set<PluginEntityFactory> {
    set g | g in bases && Descends(Parents(bases), g, f)
  }

  ghost function Dropped(names: map<string, PluginEntityFactory>, gone: set<PluginEntityFactory>): map<string, PluginEntityFactory> {
    map n | n in names && names[n] !in gone :: names[n]
  }

  /** The set holds every installed factory that derives from a member. */
  ghost predicate ClosedBelow(bases: Bases, gone: set<PluginEntityFactory>) {
    forall g :: g in Parents(bases) && Parents(bases)[g] in gone ==> g in gone
  }

  lemma {:induction false} ClosedHoldsDescendants(bases: Bases, gone: set<PluginEntityFactory>, g: PluginEntityFactory,
                                                  f: PluginEntityFactory, n: nat)
    requires ClosedBelow(bases, gone) && f in gone && Ancestor(Parents(bases), g, n) == Some(f)
    ensures g in gone
  {
    if 0 < n {
      ClosedHoldsDescendants(bases, gone, Parents(bases)[g], f, n - 1);
    }
  }

  lemma ParentsWithout(bases: Bases, gone: set<PluginEntityFactory>)
    ensures Parents(bases - gone) == Parents(bases) - gone
  {
  }

  /** Uninstalling below c, when a closed set is gone already, leaves exactly what is below neither. */
  lemma BelowRest(bases: Bases, gone: set<PluginEntityFactory>, c: PluginEntityFactory)
    requires ClosedBelow(bases, gone)
    ensures Below(bases - gone, c) == Below(bases, c) - gone
    ensures ClosedBelow(bases, gone + Below(bases, c))
    ensures bases - gone - Below(bases - gone, c) == bases - (gone + Below(bases, c))
  {
    ParentsWithout(bases, gone);
    forall g | g in bases && g !in gone
      ensures Descends(Parents(bases - gone), g, c) <==> Descends(Parents(bases), g, c)
    {
      RestrictKeeps(Parents(bases), gone, g, c);
    }
    forall g | g in Parents(bases) && Parents(bases)[g] in Below(bases, c)
      ensures g in Below(bases, c)
    {
      StepDescends(Parents(bases), g, c);
    }
  }

  /** Once a closed set of proper descendants holds all children of f, it is all of them. */
  lemma ChildrenCover(bases: Bases, gone: set<PluginEntityFactory>, f: PluginEntityFactory)
    requires f in bases && ClosedBelow(bases, gone)
    requires forall g :: g in gone ==> g in Below(bases, f)
    requires forall c :: c in Parents(bases) && Parents(bases)[c] == f ==> c in gone
    ensures Below(bases, f) == gone + {f}
  {
    StepDescends(Parents(bases), f, f);
    forall g | g in Below(bases, f) && g != f
      ensures g in gone
    {
      var c := DescendsFromChild(Parents(bases), g, f);
      var n: nat :| Ancestor(Parents(bases), g, n) == Some(c);
      ClosedHoldsDescendants(bases, gone, g, c, n);
    }
  }

  // ---------- The registry ----------

  class PluginEntityFactories {
    var factories: seq<PluginEntityFactory>
    var pluginFactories: map<string, PluginEntityFactory>
    var gameFactories: map<string, nat>
    var handles: map<nat, PluginEntityFactory>
    ghost var pending: set<PluginEntityFactory>
    ghost var clock: int

    constructor (gameFactories: map<string, nat>)
      ensures Valid() && factories == [] && pending == {} && this.gameFactories == gameFactories
    {
      factories, pluginFactories, handles := [], map[], map[];
      this.gameFactories := gameFactories;
      pending, clock := {}, 0;
    }

    /** Base and derived links are inverse to each other and join installed factories only; a base was
        installed before what derives from it; and the names are those of the installed factories that are
        not abstract. Factories in `pending` are half uninstalled: their names are gone already. */
    ghost predicate Valid()
      reads this, factories
    {
      && (forall f {:trigger FactoryOk(f)} :: f in factories ==> FactoryOk(f))
      && (forall n {:trigger NameOk(n)} :: n in pluginFactories ==> NameOk(n))
      && (forall f {:trigger Named(f)} :: f in factories ==> Named(f))
      && (forall f :: f in pending ==> f in factories && f.installed)
      && (forall h :: h in handles ==> handles[h] in factories)
      && 0 <= clock
    }

    ghost predicate FactoryOk(f: PluginEntityFactory)
      reads this`factories, this`clock, f, factories
    {
      && (f.installed || (f.baseFactory == NoBase && f.derivedFactories == []))
      && (f.baseFactory.PluginBase? ==>
            var b := f.baseFactory.factory;
            b in factories && b.installed && b.stamp < f.stamp && f in b.derivedFactories)
      && (forall c {:trigger c in f.derivedFactories} :: c in f.derivedFactories ==>
            c in factories && c.installed && c.baseFactory == PluginBase(f))
      && Distinct(f.derivedFactories)
      && (f.installed ==> 0 <= f.stamp < clock)
    }

    ghost predicate NameOk(n: string)
      requires n in pluginFactories
      reads this, factories
    {
      var f := pluginFactories[n];
      f in factories && f.installed && !f.isAbstract && f.classname == n && f !in pending
    }

    ghost predicate Named(f: PluginEntityFactory)
      reads this, f
    {
      f.installed && !f.isAbstract && f !in pending ==>
        f.classname in pluginFactories && pluginFactories[f.classname] == f
    }

    ghost function InstalledBases(): Bases
      reads this`factories, factories`installed, factories`baseFactory
    {
      map f | f in factories && f.installed :: f.baseFactory
    }

    ghost function Stamps(): map<PluginEntityFactory, int>
      reads this`factories, factories`stamp
    {
      map f | f in factories :: f.stamp
    }

    lemma BasesRank()
      requires Valid()
      ensures Ranks(Parents(InstalledBases()), Stamps())
    {
      forall g | g in Parents(InstalledBases())
        ensures g in Stamps() && Parents(InstalledBases())[g] in Stamps() && Stamps()[Parents(InstalledBases())[g]] < Stamps()[g]
      {
        assert FactoryOk(g);
      }
    }

    /** The forest has no cycles. */
    lemma Acyclic(f: PluginEntityFactory)
      requires Valid() && f in Parents(InstalledBases())
      ensures !Descends(Parents(InstalledBases()), Parents(InstalledBases())[f], f)
    {
      BasesRank();
      NoCycle(Parents(InstalledBases()), Stamps(), f);
    }

    // ---------- Lookup ----------

    /** `FindFactory`: our factories hide those of the game. */
    function FindFactory(classname: string): Base
      reads this
    {
      if classname in pluginFactories then PluginBase(pluginFactories[classname])
      else FindGameFactory(classname)
    }

    function FindGameFactory(classname: string): Base
      reads this
    {
      if classname in gameFactories then GameBase(gameFactories[classname]) else NoBase
    }

    /** The factory that creates base NPCs belongs to the game side. */
    const BASE_NPC_FACTORY := GameBase(0)

    /** `FindBaseFactory`. */
    function FindBaseFactory(f: PluginEntityFactory): Base
      reads this, f, handles.Values
    {
      match f.derive
      case FromNPC => BASE_NPC_FACTORY
      case FromClassname(classname) =>
        var factory := FindFactory(classname);
        if factory == PluginBase(f) then FindGameFactory(classname) else factory
      case FromHandle(handle) =>
        if handle in handles && handles[handle].installed then PluginBase(handles[handle]) else NoBase
      case _ => NoBase
    }

    /** A base that is found for a factory that is not installed is another factory, and is installed. */
    lemma FoundBaseIsInstalled(f: PluginEntityFactory)
      requires Valid() && f in factories && !f.installed
      ensures var b := FindBaseFactory(f);
              b.PluginBase? ==> b.factory in factories && b.factory.installed && b.factory != f
    {
      if f.derive.FromClassname? && f.derive.classname in pluginFactories {
        assert NameOk(f.derive.classname);
      }
    }

    /** This factory goes by this name. */
    ghost predicate GoesBy(g: PluginEntityFactory, name: string)
      reads this`pending, g
    {
      g.installed && !g.isAbstract && g !in pending && g.classname == name
    }

    /** What f derives from: the factory of the game for NPCs; of a name, the other installed factory that goes by it,
        and the game's only if there is none; of a handle, its factory if that is installed. */
    ghost predicate IsBaseFor(f: PluginEntityFactory, base: Base)
      reads this, f, factories, handles.Values
    {
      match f.derive
      case FromNPC => base == GameBase(0)
      case FromClassname(name) =>
        && (forall g :: g in factories && g != f && GoesBy(g, name) ==> base == PluginBase(g))
        && ((forall g :: g in factories && g != f ==> !GoesBy(g, name)) ==>
              && (name in gameFactories ==> base == GameBase(gameFactories[name]))
              && (name !in gameFactories ==> base == NoBase))
      case FromHandle(handle) =>
        && (handle in handles && handles[handle].installed ==> base == PluginBase(handles[handle]))
        && (handle in handles && !handles[handle].installed ==> base == NoBase)
        && (handle !in handles ==> base == NoBase)
      case _ => base == NoBase
    }

    /** It derives from something that is not there. */
    ghost predicate LacksBase(f: PluginEntityFactory)
      reads this, f, factories, handles.Values
    {
      (f.derive.FromNPC? || f.derive.FromClassname? || f.derive.FromHandle?) && IsBaseFor(f, NoBase)
    }

    ghost predicate NameTaken(f: PluginEntityFactory)
      reads this, f, factories
    {
      !f.isAbstract && exists g :: g in factories && GoesBy(g, f.classname)
    }

    /** The base that is found is the only one that fits. */
    lemma BaseIsFound(f: PluginEntityFactory)
      requires Valid() && f in factories && !f.installed
      ensures forall base :: IsBaseFor(f, base) <==> base == FindBaseFactory(f)
      ensures MayInstall(f) <==> !LacksBase(f) && !NameTaken(f)
    {
      ValidNames(f);
      if !f.isAbstract && f.classname in pluginFactories {
        assert GoesBy(pluginFactories[f.classname], f.classname);
      }
      if f.derive.FromClassname? {
        var name := f.derive.classname;
        if name in pluginFactories {
          assert GoesBy(pluginFactories[name], name);
        }
      }
    }

    // ---------- Linking ----------

    /** `SetBaseFactory`: unlink from the old base, then link to the new one at the end of its list. */
    method SetBaseFactory(f: PluginEntityFactory, base: Base)
      requires f in factories
      modifies f`baseFactory, factories`derivedFactories
      ensures f.baseFactory == base
      ensures base == old(f.baseFactory) ==> forall g :: g in factories ==> g.derivedFactories == old(g.derivedFactories)
      ensures base != old(f.baseFactory) ==> forall g :: g in factories ==>
                g.derivedFactories == (if old(f.baseFactory) == PluginBase(g) then RemoveFirst(old(g.derivedFactories), f)
                                       else old(g.derivedFactories))
                                      + (if base == PluginBase(g) then [f] else [])
    {
      var previous := f.baseFactory;
      if previous == base {
        return;
      }
      f.baseFactory := base;
      if previous.PluginBase? && previous.factory in factories {
        previous.factory.derivedFactories := RemoveFirst(previous.factory.derivedFactories, f);
      }
      if base.PluginBase? && base.factory in factories {
        base.factory.derivedFactories := base.factory.derivedFactories + [f];
      }
    }

    /** The same for a factory that is linked to its base only. */
    method Relink(f: PluginEntityFactory, base: Base)
      requires f in factories && base != f.baseFactory
      requires forall g :: g in factories ==> Linked(g, f)
      modifies f`baseFactory, factories`derivedFactories
      ensures f.baseFactory == base
      ensures forall g {:trigger g.derivedFactories} :: g in factories ==>
                SameBut(old(g.derivedFactories), g.derivedFactories, f, base == PluginBase(g))
    {
      ghost var was := f.baseFactory;
      SetBaseFactory(f, base);
      forall g | g in factories
        ensures SameBut(old(g.derivedFactories), g.derivedFactories, f, base == PluginBase(g))
      {
        assert old(Linked(g, f));
        SameButExact(old(g.derivedFactories), f, base == PluginBase(g), was == PluginBase(g));
      }
    }

    ghost predicate Linked(g: PluginEntityFactory, f: PluginEntityFactory)
      reads g`derivedFactories, f`baseFactory
    {
      Distinct(g.derivedFactories) && (f in g.derivedFactories <==> f.baseFactory == PluginBase(g))
    }

    lemma AllLinked(f: PluginEntityFactory)
      requires f in factories && forall g :: g in factories ==> FactoryOk(g)
      ensures forall g :: g in factories ==> Linked(g, f)
    {
      assert FactoryOk(f);
      forall g | g in factories
        ensures Linked(g, f)
      {
        assert FactoryOk(g);
      }
    }

    /** `RemovePluginFactory`. */
    method RemovePluginFactory(f: PluginEntityFactory)
      modifies this`pluginFactories
      ensures pluginFactories == Dropped(old(pluginFactories), {f})
    {
      pluginFactories := map n | n in pluginFactories && pluginFactories[n] != f :: pluginFactories[n];
    }

    /** `Install`: fails, with no effect, if a required base is not there or the name is taken. */
    method Install(f: PluginEntityFactory) returns (ok: bool)
      requires Valid() && f in factories && f !in pending
      modifies this`pluginFactories, this`clock, f`installed, f`baseFactory, f`stamp, factories`derivedFactories
      ensures Valid()
      ensures ok <==> old(f.installed) || old(MayInstall(f))
      ensures ok <==> old(f.installed) || old(!LacksBase(f) && !NameTaken(f))
      ensures old(f.installed) || !ok ==>
                InstalledBases() == old(InstalledBases()) && pluginFactories == old(pluginFactories)
      ensures !old(f.installed) && ok ==>
                && InstalledBases() == old(InstalledBases())[f := old(FindBaseFactory(f))]
                && pluginFactories == if f.isAbstract then old(pluginFactories) else old(pluginFactories)[f.classname := f]
      ensures !old(f.installed) && ok ==> var base := InstalledBases()[f]; old(IsBaseFor(f, base))
    {
      if f.installed {
        return true;
      }
      var base := FindBaseFactory(f);
      FoundBaseIsInstalled(f);
      BaseIsFound(f);
      ValidNames(f);
      if base.NoBase? && f.IsBaseFactoryRequired() {
        return false;
      }
      if !f.isAbstract {
        if f.classname in pluginFactories {
          return false;
        }
        pluginFactories := pluginFactories[f.classname := f];
      }
      Link(f, base, old(pluginFactories));
      ok := true;
    }

    lemma ValidNames(f: PluginEntityFactory)
      requires Valid() && f in factories && !f.installed
      ensures NamesOk(pluginFactories, f)
    {
      forall g | g in factories && g.installed && !g.isAbstract && g !in pending
        ensures g.classname in pluginFactories && pluginFactories[g.classname] == g
      {
        assert Named(g);
      }
      forall n | n in pluginFactories
        ensures NameOk(n)
      {
      }
    }

    /** Lines 788-790. */
    method Link(f: PluginEntityFactory, base: Base, ghost names: map<string, PluginEntityFactory>)
      requires f in factories && !f.installed && f !in pending && (base.PluginBase? ==> BaseFits(base.factory, f))
      requires (forall g :: g in factories ==> FactoryOk(g)) && (forall g :: g in pending ==> g in factories && g.installed)
      requires NamesOk(names, f) && pluginFactories == if f.isAbstract then names else names[f.classname := f]
      requires !f.isAbstract ==> f.classname !in names
      requires (forall h :: h in handles ==> handles[h] in factories) && 0 <= clock
      modifies this`clock, f`installed, f`baseFactory, f`stamp, factories`derivedFactories
      ensures Valid() && InstalledBases() == old(InstalledBases())[f := base]
    {
      hide FactoryOk;
      Attach(f, base);
      assert forall g :: g in factories && g != f ==> g.installed == old(g.installed);
      assert forall n :: n in names ==> names[n] != f;
    }

    method Attach(f: PluginEntityFactory, base: Base)
      requires f in factories && !f.installed && (base.PluginBase? ==> BaseFits(base.factory, f))
      requires (forall g :: g in factories ==> FactoryOk(g)) && 0 <= clock
      modifies this`clock, f`installed, f`baseFactory, f`stamp, factories`derivedFactories
      ensures forall g :: g in factories ==> FactoryOk(g)
      ensures f.installed && clock == old(clock) + 1 && InstalledBases() == old(InstalledBases())[f := base]
    {
      hide Linked, Distinct;
      assert FactoryOk(f);
      AllLinked(f);
      if base != NoBase {
        Relink(f, base);
      }
      f.installed := true;
      f.stamp := clock;
      clock := clock + 1;
      assert forall g :: g in factories && g != f ==>
        g.installed == old(g.installed) && g.baseFactory == old(g.baseFactory) && g.stamp == old(g.stamp);
      forall g | g in factories
        ensures FactoryOk(g)
      {
        assert old(FactoryOk(g));
      }
    }

    ghost predicate BaseFits(b: PluginEntityFactory, f: PluginEntityFactory)
      reads this`factories, b`installed
    {
      b in factories && b.installed && b != f
    }

    /** The names are those of the installed factories, of which f is none. */
    ghost predicate NamesOk(names: map<string, PluginEntityFactory>, f: PluginEntityFactory)
      reads this`factories, this`pending, factories`installed, factories`isAbstract
    {
      && (forall n :: n in names ==>
            names[n] in factories && names[n].installed && !names[n].isAbstract && names[n].classname == n && names[n] !in pending)
      && (forall g {:trigger g.classname} :: g in factories && g.installed && !g.isAbstract && g !in pending ==>
            g.classname in names && names[g.classname] == g)
    }

    ghost predicate MayInstall(f: PluginEntityFactory)
      reads this, f, handles.Values
    {
      && (FindBaseFactory(f).NoBase? ==> !f.IsBaseFactoryRequired())
      && (f.isAbstract || f.classname !in pluginFactories)
    }

    /** `Uninstall`: exactly f and what derives from it are uninstalled, and lose their names. */
    method Uninstall(f: PluginEntityFactory)
      requires Valid() && f in factories && f !in pending && PendingAbove(InstalledBases(), f)
      modifies this`pluginFactories, this`pending, factories`installed, factories`baseFactory, factories`derivedFactories
      ensures Valid() && pending == old(pending)
      ensures InstalledBases() == old(InstalledBases()) - Below(old(InstalledBases()), f)
      ensures pluginFactories == Dropped(old(pluginFactories), Below(old(InstalledBases()), f))
      decreases if f.installed then 1 + clock - f.stamp else 0
    {
      hide *;
      if !f.installed {
        NothingBelow(f);
        return;
      }
      ghost var bases, names, above, gone := InstalledBases(), pluginFactories, pending, {};
      BasesRank();
      BeginUninstall(f);
      NothingGone(bases, names, f);
      var i := |f.derivedFactories| - 1;
      while i >= 0
        invariant -1 <= i && |f.derivedFactories| == i + 1
        invariant Valid() && f.installed && pending == above + {f} && PendingAbove(InstalledBases(), f)
        invariant Partly(bases, names, gone, f, InstalledBases(), pluginFactories) && Ranks(Parents(bases), Stamps())
      {
        var child := f.derivedFactories[i];
        ChildMayGo(f, child);
        ghost var list, rest, restNames := f.derivedFactories, InstalledBases(), pluginFactories;
        Uninstall(child);
        ChildIsGone(rest, list, f, child);
        BelowChild(bases, names, gone, f, rest, restNames, list, child);
        gone := gone + Below(bases, child);
        i := i - 1;
      }
      AllChildrenGone(bases, names, gone, f);
      EndUninstall(f);
    }

    /** What is half uninstalled lies above what is uninstalled next. */
    ghost predicate PendingAbove(bases: Bases, f: PluginEntityFactory)
      reads this`pending
    {
      forall p :: p in pending && p != f ==> !Descends(Parents(bases), p, f)
    }

    /** The uninstall of f has come to where the factories in `gone` are uninstalled. */
    static ghost predicate Partly(bases: Bases, names: map<string, PluginEntityFactory>, gone: set<PluginEntityFactory>,
                                  f: PluginEntityFactory, now: Bases, nowNames: map<string, PluginEntityFactory>)
    {
      && now == bases - gone && nowNames == Dropped(names, gone + {f})
      && ClosedBelow(bases, gone) && gone <= Below(bases, f) && f !in gone && f in bases
    }

    lemma NothingBelow(f: PluginEntityFactory)
      requires Valid() && f in factories && !f.installed
      ensures InstalledBases() == InstalledBases() - Below(InstalledBases(), f)
      ensures pluginFactories == Dropped(pluginFactories, Below(InstalledBases(), f))
    {
      var bases := InstalledBases();
      forall g | g in bases
        ensures g !in Below(bases, f)
      {
        if Descends(Parents(bases), g, f) {
          var c := DescendsFromChild(Parents(bases), g, f);
          assert FactoryOk(c);
        }
      }
    }

    lemma NothingGone(bases: Bases, names: map<string, PluginEntityFactory>, f: PluginEntityFactory)
      requires Valid() && f in factories && f.installed
      requires InstalledBases() == bases && pluginFactories == Dropped(names, {f})
      ensures Partly(bases, names, {}, f, InstalledBases(), pluginFactories)
    {
      assert {} + {f} == {f};
      assert bases - {} == bases;
    }

    /** The children of f have gone one by one; the next one may go. */
    lemma ChildMayGo(f: PluginEntityFactory, child: PluginEntityFactory)
      requires Valid() && f in factories && f.installed && f in pending && PendingAbove(InstalledBases(), f)
      requires child in f.derivedFactories
      ensures child in factories && child.installed && child !in pending && f.stamp < child.stamp < clock && f.stamp < clock
      ensures PendingAbove(InstalledBases(), child)
      ensures Siblings(InstalledBases(), f.derivedFactories, f)
    {
      var parents := Parents(InstalledBases());
      assert FactoryOk(f) && FactoryOk(child);
      BasesRank();
      StepDescends(parents, child, f);
      StepDescends(parents, f, f);
      forall p | p in pending
        ensures !Descends(parents, p, child)
      {
        if Descends(parents, p, child) {
          if p == f {
            RankFalls(parents, Stamps(), f, child);
          } else {
            DescendsTransitive(parents, p, child, f);
          }
        }
      }
      forall c | c in InstalledBases() && InstalledBases()[c] == PluginBase(f)
        ensures c in f.derivedFactories
      {
        assert FactoryOk(c);
      }
    }

    /** The list holds exactly the factories based on f, each once. */
    ghost predicate Siblings(bases: Bases, list: seq<PluginEntityFactory>, f: PluginEntityFactory)
      reads this`factories, factories`stamp
    {
      && Ranks(Parents(bases), Stamps()) && f in bases && Distinct(list)
      && (forall c :: c in list ==> c in bases && bases[c] == PluginBase(f))
      && (forall c :: c in bases && bases[c] == PluginBase(f) ==> c in list)
    }

    lemma SiblingStays(bases: Bases, list: seq<PluginEntityFactory>, f: PluginEntityFactory, child: PluginEntityFactory,
                       d: PluginEntityFactory)
      requires Siblings(bases, list, f) && child in list && (d == f || (d in list && d != child))
      ensures d !in Below(bases, child)
    {
      var parents := Parents(bases);
      if Descends(parents, d, child) {
        StepDescends(parents, d, child);
        RankFalls(parents, Stamps(), f, child);
      }
    }

    /** Uninstalling one child has shortened the list by that child alone. */
    lemma ChildIsGone(bases: Bases, list: seq<PluginEntityFactory>, f: PluginEntityFactory, child: PluginEntityFactory)
      requires Valid() && f in factories && Siblings(bases, list, f) && child in list
      requires InstalledBases() == bases - Below(bases, child)
      requires PendingAbove(bases, f)
      ensures f.installed && |f.derivedFactories| == |list| - 1 && PendingAbove(InstalledBases(), f)
    {
      SiblingStays(bases, list, f, child, f);
      assert f in InstalledBases() && FactoryOk(f);
      forall c | c in list && c != child
        ensures c in f.derivedFactories
      {
        SiblingStays(bases, list, f, child, c);
        assert c in InstalledBases() && FactoryOk(c);
      }
      StepDescends(Parents(bases), child, child);
      forall c | c in f.derivedFactories
        ensures c in list && c != child
      {
        assert c in InstalledBases() && InstalledBases()[c] == PluginBase(f);
      }
      OneLess(list, f.derivedFactories, child);
      BelowRest(bases, {}, child);
      assert bases - {} == bases && {} + Below(bases, child) == Below(bases, child);
      ParentsWithout(bases, Below(bases, child));
      forall p | p in pending && p != f
        ensures !Descends(Parents(InstalledBases()), p, f)
      {
        RestrictKeeps(Parents(bases), Below(bases, child), p, f);
      }
    }

    lemma BelowChild(bases: Bases, names: map<string, PluginEntityFactory>, gone: set<PluginEntityFactory>,
                     f: PluginEntityFactory, rest: Bases, restNames: map<string, PluginEntityFactory>,
                     list: seq<PluginEntityFactory>, child: PluginEntityFactory)
      requires Ranks(Parents(bases), Stamps()) && Partly(bases, names, gone, f, rest, restNames)
      requires Siblings(rest, list, f) && child in list
      requires InstalledBases() == rest - Below(rest, child) && pluginFactories == Dropped(restNames, Below(rest, child))
      ensures Partly(bases, names, gone + Below(bases, child), f, InstalledBases(), pluginFactories)
    {
      var parents := Parents(bases);
      BelowRest(bases, gone, child);
      StepDescends(parents, child, f);
      StepDescends(parents, f, f);
      forall g | g in Below(bases, child)
        ensures g in Below(bases, f) && g != f
      {
        DescendsTransitive(parents, g, child, f);
        if g == f {
          RankFalls(parents, Stamps(), f, child);
        }
      }
    }

    lemma AllChildrenGone(bases: Bases, names: map<string, PluginEntityFactory>, gone: set<PluginEntityFactory>,
                          f: PluginEntityFactory)
      requires Valid() && |f.derivedFactories| == 0
      requires Partly(bases, names, gone, f, InstalledBases(), pluginFactories)
      ensures InstalledBases() - {f} == bases - Below(bases, f)
      ensures pluginFactories == Dropped(names, Below(bases, f))
    {
      forall c | c in Parents(bases) && Parents(bases)[c] == f
        ensures c in gone
      {
        assert c !in gone ==> c in InstalledBases() && FactoryOk(c);
      }
      ChildrenCover(bases, gone, f);
    }

    /** Before any names are given back: f's own name goes first (lines 806-809). */
    method BeginUninstall(f: PluginEntityFactory)
      requires Valid() && f in factories && f.installed && f !in pending && PendingAbove(InstalledBases(), f)
      modifies this`pluginFactories, this`pending
      ensures Valid() && pending == old(pending) + {f} && pluginFactories == Dropped(old(pluginFactories), {f})
      ensures PendingAbove(InstalledBases(), f)
    {
      hide FactoryOk;
      if !f.isAbstract {
        RemovePluginFactory(f);
      }
      pending := pending + {f};
      forall n | n in pluginFactories
        ensures NameOk(n) && pluginFactories[n] != f
      {
        assert old(NameOk(n));
      }
      forall g | g in factories
        ensures Named(g)
      {
        assert old(Named(g));
      }
    }

    /** Lines 826-828, once nothing derives from f any more. */
    method EndUninstall(f: PluginEntityFactory)
      requires Valid() && f in factories && f.installed && f in pending && |f.derivedFactories| == 0
      modifies this`pending, f`installed, f`baseFactory, factories`derivedFactories
      ensures Valid() && pending == old(pending) - {f}
      ensures InstalledBases() == old(InstalledBases()) - {f}
    {
      hide FactoryOk;
      Detach(f);
      pending := pending - {f};
      forall n | n in pluginFactories
        ensures NameOk(n)
      {
        assert old(NameOk(n));
      }
      forall g | g in factories
        ensures Named(g)
      {
        assert old(Named(g));
      }
    }

    method Detach(f: PluginEntityFactory)
      requires (forall g :: g in factories ==> FactoryOk(g)) && f in factories && f.installed && |f.derivedFactories| == 0
      modifies f`installed, f`baseFactory, factories`derivedFactories
      ensures forall g :: g in factories ==> FactoryOk(g)
      ensures InstalledBases() == old(InstalledBases()) - {f}
    {
      hide Distinct, InstalledBases;
      ghost var bases := InstalledBases();
      BasesAre();
      LeaveBase(f);
      f.installed := false;
      assert forall g :: g in factories && g != f ==> g.installed == old(g.installed) && g.baseFactory == old(g.baseFactory);
      forall g | g in factories
        ensures FactoryOk(g)
      {
        assert old(FactoryOk(g));
        if g != f && g.baseFactory.PluginBase? {
          var b := g.baseFactory.factory;
          assert b != f && SameBut(old(b.derivedFactories), b.derivedFactories, f, false);
        }
      }
      OneBaseLess(f, bases);
    }

    lemma BasesAre()
      ensures forall g :: g in factories && g.installed ==> g in InstalledBases()
      ensures forall g :: g in InstalledBases() ==> g in factories && g.installed && InstalledBases()[g] == g.baseFactory
    {
    }

    lemma OneBaseLess(f: PluginEntityFactory, bases: Bases)
      requires forall g :: g in factories && g.installed ==> g in bases && g != f
      requires forall g :: g in bases && g != f ==> g in factories && g.installed && bases[g] == g.baseFactory
      ensures InstalledBases() == bases - {f}
    {
    }

    /** `SetBaseFactory(nullptr)`. */
    method LeaveBase(f: PluginEntityFactory)
      requires (forall g :: g in factories ==> FactoryOk(g)) && f in factories
      modifies f`baseFactory, factories`derivedFactories
      ensures f.baseFactory == NoBase
      ensures forall g {:trigger g.derivedFactories} :: g in factories ==>
                SameBut(old(g.derivedFactories), g.derivedFactories, f, false)
    {
      hide FactoryOk;
      AllLinked(f);
      if f.baseFactory != NoBase {
        Relink(f, NoBase);
      } else {
        forall g | g in factories
          ensures SameBut(g.derivedFactories, g.derivedFactories, f, false)
        {
          assert Linked(g, f);
        }
      }
    }

    // ---------- Plugins and handles ----------

    /** Everything that is installed and belongs to the plugin, or derives from something that does. */
    ghost function OwnedBy(bases: Bases, plugin: nat): set<PluginEntityFactory> {
      set g | g in bases && exists a :: a in bases && a.plugin == plugin && Descends(Parents(bases), g, a)
    }

    /** Lines 463-475: climb to the topmost base of the same plugin. */
    method Topmost(f: PluginEntityFactory) returns (t: PluginEntityFactory)
      requires Valid() && f in factories && f.installed
      ensures t in InstalledBases() && t.plugin == f.plugin && Descends(Parents(InstalledBases()), f, t)
    {
      t := f;
      assert FactoryOk(f);
      StepDescends(Parents(InstalledBases()), f, f);
      while t.baseFactory.PluginBase? && t.baseFactory.factory.plugin == f.plugin
        invariant t in factories && t.installed && t.plugin == f.plugin && 0 <= t.stamp
        invariant Descends(Parents(InstalledBases()), f, t)
        decreases t.stamp
      {
        var base := t.baseFactory.factory;
        assert FactoryOk(t) && FactoryOk(base);
        StepDescends(Parents(InstalledBases()), base, base);
        StepDescends(Parents(InstalledBases()), t, base);
        DescendsTransitive(Parents(InstalledBases()), f, t, base);
        t := base;
      }
    }

    /** Lines 450-481. */
    method FactoriesToUninstall(plugin: nat) returns (list: seq<PluginEntityFactory>)
      requires Valid()
      ensures forall t :: t in list ==> t in InstalledBases() && t.plugin == plugin
      ensures forall f :: f in InstalledBases() && f.plugin == plugin ==> Covered(InstalledBases(), list, f)
    {
      list := [];
      for i := 0 to |factories|
        invariant forall t :: t in list ==> t in InstalledBases() && t.plugin == plugin
        invariant forall j :: 0 <= j < i && factories[j].installed && factories[j].plugin == plugin ==>
                    Covered(InstalledBases(), list, factories[j])
      {
        var f := factories[i];
        if f.installed && f.plugin == plugin {
          assert FactoryOk(f);
          var t := Topmost(f);
          ghost var before := list;
          if t !in list {
            list := list + [t];
          }
          assert t in list;
          forall j | 0 <= j < i && factories[j].installed && factories[j].plugin == plugin
            ensures Covered(InstalledBases(), list, factories[j])
          {
            CoveredStays(InstalledBases(), before, list, factories[j]);
          }
        }
      }
    }

    ghost predicate Covered(bases: Bases, list: seq<PluginEntityFactory>, f: PluginEntityFactory) {
      exists t :: t in list && Descends(Parents(bases), f, t)
    }

    lemma CoveredStays(bases: Bases, list: seq<PluginEntityFactory>, list': seq<PluginEntityFactory>, f: PluginEntityFactory)
      requires Covered(bases, list, f) && list <= list'
      ensures Covered(bases, list', f)
    {
      var t :| t in list && Descends(Parents(bases), f, t);
      assert t in list';
    }

    /** `OnPluginUnloaded`: afterwards nothing is installed that belongs to the plugin, or that derives from
        something that does; and nothing else has been uninstalled. */
    method OnPluginUnloaded(plugin: nat)
      requires Valid() && pending == {}
      modifies this`pluginFactories, this`pending, factories`installed, factories`baseFactory, factories`derivedFactories
      ensures Valid() && pending == {}
      ensures InstalledBases() == old(InstalledBases()) - OwnedBy(old(InstalledBases()), plugin)
      ensures pluginFactories == Dropped(old(pluginFactories), OwnedBy(old(InstalledBases()), plugin))
      ensures forall f :: f in factories && f.installed ==> f.plugin != plugin
    {
      hide *;
      ghost var bases, names, gone := InstalledBases(), pluginFactories, {};
      var list := FactoriesToUninstall(plugin);
      NoneGone();
      ListedAreKnown(list);
      for i := 0 to |list|
        invariant Valid() && pending == {}
        invariant Gone(bases, names, gone, InstalledBases(), pluginFactories)
        invariant forall j :: 0 <= j < i ==> Below(bases, list[j]) <= gone
        invariant forall g :: g in gone ==> exists j :: 0 <= j < i && g in Below(bases, list[j])
      {
        ghost var rest, restNames := InstalledBases(), pluginFactories;
        assert list[i] in list;
        NothingPending(list[i]);
        Uninstall(list[i]);
        GoneBelow(bases, names, gone, rest, restNames, list[i]);
        gone := gone + Below(bases, list[i]);
      }
      ListedIsOwned(bases, list, gone, plugin);
      AllGone(bases, names, gone);
      StillOthers(bases, plugin);
    }

    /** The factories in `gone` have been uninstalled. */
    static ghost predicate Gone(bases: Bases, names: map<string, PluginEntityFactory>, gone: set<PluginEntityFactory>,
                                now: Bases, nowNames: map<string, PluginEntityFactory>)
    {
      now == bases - gone && nowNames == Dropped(names, gone) && ClosedBelow(bases, gone)
    }

    lemma NoneGone()
      ensures Gone(InstalledBases(), pluginFactories, {}, InstalledBases(), pluginFactories)
    {
      assert InstalledBases() - {} == InstalledBases();
    }

    lemma ListedAreKnown(list: seq<PluginEntityFactory>)
      requires forall t :: t in list ==> t in InstalledBases()
      ensures forall t :: t in list ==> t in factories
    {
    }

    lemma NothingPending(f: PluginEntityFactory)
      requires pending == {}
      ensures PendingAbove(InstalledBases(), f)
    {
    }

    lemma AllGone(bases: Bases, names: map<string, PluginEntityFactory>, gone: set<PluginEntityFactory>)
      requires Gone(bases, names, gone, InstalledBases(), pluginFactories)
      ensures InstalledBases() == bases - gone && pluginFactories == Dropped(names, gone)
    {
    }

    lemma GoneBelow(bases: Bases, names: map<string, PluginEntityFactory>, gone: set<PluginEntityFactory>,
                    rest: Bases, restNames: map<string, PluginEntityFactory>, f: PluginEntityFactory)
      requires Gone(bases, names, gone, rest, restNames)
      requires InstalledBases() == rest - Below(rest, f) && pluginFactories == Dropped(restNames, Below(rest, f))
      ensures Gone(bases, names, gone + Below(bases, f), InstalledBases(), pluginFactories)
    {
      BelowRest(bases, gone, f);
    }

    lemma ListedIsOwned(bases: Bases, list: seq<PluginEntityFactory>, gone: set<PluginEntityFactory>, plugin: nat)
      requires forall t :: t in list ==> t in bases && t.plugin == plugin
      requires forall f :: f in bases && f.plugin == plugin ==> Covered(bases, list, f)
      requires forall j :: 0 <= j < |list| ==> Below(bases, list[j]) <= gone
      requires forall g :: g in gone ==> exists j :: 0 <= j < |list| && g in Below(bases, list[j])
      ensures gone == OwnedBy(bases, plugin)
    {
      forall g | g in gone
        ensures g in OwnedBy(bases, plugin)
      {
        var j :| 0 <= j < |list| && g in Below(bases, list[j]);
        assert list[j] in list;
      }
      forall g | g in OwnedBy(bases, plugin)
        ensures g in gone
      {
        var a :| a in bases && a.plugin == plugin && Descends(Parents(bases), g, a);
        assert Covered(bases, list, a);
        var t :| t in list && Descends(Parents(bases), a, t);
        DescendsTransitive(Parents(bases), g, a, t);
        var j :| 0 <= j < |list| && list[j] == t;
        assert g in Below(bases, list[j]);
      }
    }

    lemma StillOthers(bases: Bases, plugin: nat)
      requires InstalledBases() == bases - OwnedBy(bases, plugin)
      ensures forall f :: f in factories && f.installed ==> f.plugin != plugin
    {
      forall f | f in factories && f.installed
        ensures f.plugin != plugin
      {
        assert f in InstalledBases();
        StepDescends(Parents(bases), f, f);
      }
    }

    /** `OnHandleDestroy`: the factory is uninstalled, with all that derives from it, and forgotten. */
    method OnHandleDestroy(f: PluginEntityFactory)
      requires Valid() && pending == {} && f in factories && Distinct(factories)
      modifies this`factories, this`handles, this`pluginFactories, this`pending
      modifies factories`installed, factories`baseFactory, factories`derivedFactories
      ensures Valid() && pending == {} && factories == RemoveFirst(old(factories), f) && Distinct(factories)
      ensures InstalledBases() == old(InstalledBases()) - Below(old(InstalledBases()), f)
      ensures !f.installed && f !in factories && f !in handles.Values
    {
      hide Below;
      ghost var bases := InstalledBases();
      Uninstall(f);
      assert !f.installed by {
        GoneItself(bases, f);
      }
      Forget(f);
    }

    lemma GoneItself(bases: Bases, f: PluginEntityFactory)
      requires f in factories && InstalledBases() == bases - Below(bases, f)
      ensures !f.installed
    {
      StepDescends(Parents(bases), f, f);
      assert f.installed ==> f in InstalledBases();
    }

    /** `OnFactoryDestroyed`, and the handle goes. */
    method Forget(f: PluginEntityFactory)
      requires Valid() && f in factories && !f.installed && Distinct(factories)
      modifies this`factories, this`handles
      ensures Valid() && factories == RemoveFirst(old(factories), f) && Distinct(factories)
      ensures InstalledBases() == old(InstalledBases()) && f !in factories && f !in handles.Values
    {
      hide FactoryOk, Distinct, RemoveFirst;
      NotNamed(f);
      handles := map h | h in handles && handles[h] != f :: handles[h];
      RemoveFactory(f);
      forall n | n in pluginFactories
        ensures NameOk(n)
      {
        assert old(NameOk(n));
      }
      forall g | g in factories
        ensures Named(g)
      {
        assert old(Named(g));
      }
    }

    /** A factory that is not installed has no name. */
    lemma NotNamed(f: PluginEntityFactory)
      requires Valid() && !f.installed
      ensures forall n :: n in pluginFactories ==> pluginFactories[n] != f
    {
      forall n | n in pluginFactories
        ensures pluginFactories[n] != f
      {
        assert NameOk(n);
      }
    }

    method RemoveFactory(f: PluginEntityFactory)
      requires (forall g :: g in factories ==> FactoryOk(g)) && Distinct(factories) && !f.installed
      modifies this`factories
      ensures factories == RemoveFirst(old(factories), f) && Distinct(factories)
      ensures forall g :: g in factories ==> g in old(factories) && g != f && FactoryOk(g)
      ensures forall g :: g in old(factories) && g != f ==> g in factories
    {
      hide Distinct;
      RemoveFirstExact(factories, f);
      factories := RemoveFirst(factories, f);
      forall g | g in factories
        ensures FactoryOk(g)
      {
        assert old(FactoryOk(g));
      }
    }

    /** `OnFactoryCreated`: a new factory joins uninstalled. */
    method OnFactoryCreated(f: PluginEntityFactory, handle: nat)
      requires Valid() && Distinct(factories) && f !in factories && handle !in handles
      requires !f.installed && f.baseFactory == NoBase && f.derivedFactories == []
      modifies this`factories, this`handles
      ensures Valid() && Distinct(factories) && factories == old(factories) + [f] && handles == old(handles)[handle := f]
      ensures InstalledBases() == old(InstalledBases())
    {
      factories := factories + [f];
      handles := handles[handle := f];
      forall g | g in factories
        ensures FactoryOk(g) && Named(g)
      {
        assert g != f ==> old(FactoryOk(g)) && old(Named(g));
      }
      forall n | n in pluginFactories
        ensures NameOk(n)
      {
        assert old(NameOk(n));
      }
    }

    /** The natives change `m_Derive` and `m_bIsAbstract` of factories that are not installed only. */
    method Redefine(f: PluginEntityFactory, derive: Derive, isAbstract: bool)
      requires Valid() && f in factories && !f.installed
      modifies f`derive, f`isAbstract
      ensures Valid() && InstalledBases() == old(InstalledBases())
      ensures f.derive == derive && f.isAbstract == isAbstract
    {
      f.derive, f.isAbstract := derive, isAbstract;
      forall n | n in pluginFactories
        ensures NameOk(n)
      {
        assert old(NameOk(n));
      }
      forall g | g in factories
        ensures FactoryOk(g) && Named(g)
      {
        assert old(FactoryOk(g)) && old(Named(g));
      }
    }
  }
}
