/** Plugin code that runs in the middle of an uninstall: `OnFactoryUninstall` calls out while the bases of what has
    just been uninstalled are still installed, and so does the removal of entities
    (extension/pluginentityfactory.cpp:763-843, 877-909). A run is a sequence of what plugins do and of turns of
    the extension. */
module FactoryCallbacks {
  import opened OpenList
  import opened Wrappers
  import opened FactoryAncestry
  import opened FactoryForest

  // ---------- The registry ----------

  datatype Info = Info(plugin: nat, classname: string, derive: Derive, isAbstract: bool)

  /** What is known of the factories, by number. `base` and `derived` are the links among our own factories. The
      stamps record when a factory was installed last; they are history, not something the code stores. */
  datatype Registry = Registry(
    info: map<nat, Info>, game: set<string>, names: map<string, nat>, installed: set<nat>,
    base: map<nat, nat>, derived: map<nat, seq<nat>>, stamp: map<nat, int>, clock: int)

  datatype Found = Nothing | Game | Ours(factory: nat)

  /** `m_DerivedFactories`. */
  function ListOf(r: Registry, f: nat): seq<nat> {
    if f in r.derived then r.derived[f] else []
  }

  /** `FindBaseFactory`; a handle is the number of a factory. */
  function FoundBase(r: Registry, f: nat): Found
    requires f in r.info
  {
    match r.info[f].derive
    case FromNPC => Game
    case FromClassname(classname) =>
      if classname in r.names && r.names[classname] != f then Ours(r.names[classname])
      else if classname in r.game then Game else Nothing
    case FromHandle(handle) => if handle in r.installed then Ours(handle) else Nothing
    case _ => Nothing
  }

  predicate BaseRequired(derive: Derive) {
    derive.FromNPC? || derive.FromClassname? || derive.FromHandle?
  }

  /** When the native and `Install` let it through. */
  predicate MayInstall(r: Registry, f: nat) {
    && f in r.info && f !in r.installed && !r.info[f].derive.NoDerive?
    && (r.info[f].isAbstract || r.info[f].classname !in r.names)
    && (BaseRequired(r.info[f].derive) ==> !FoundBase(r, f).Nothing?)
  }

  /** The registry says of each factory, by its place in the list, what the fields of the real ones say. Places serve
      as handles. */
  ghost predicate Represents(r: Registry, o: PluginEntityFactories)
    reads o, o.factories
  {
    && (forall i: nat :: i in r.info <==> i < |o.factories|)
    && (forall i: nat :: i < |o.factories| ==>
          var f := o.factories[i];
          && r.info[i] == Info(f.plugin, f.classname, f.derive, f.isAbstract) && (i in r.installed <==> f.installed)
          && i in o.handles && o.handles[i] == f)
    && (forall i: nat :: i in o.handles || i in r.installed ==> i < |o.factories|)
    && r.game == o.gameFactories.Keys && r.names.Keys == o.pluginFactories.Keys
    && (forall n :: n in r.names ==> r.names[n] < |o.factories| && o.factories[r.names[n]] == o.pluginFactories[n])
    && Distinct(o.factories)
  }

  /** The registry installs a factory on the base that the real one is installed on, and in the same cases. */
  lemma FindsSameBase(r: Registry, o: PluginEntityFactories, i: nat)
    requires o.Valid() && Represents(r, o) && i in r.info && !o.factories[i].installed
    ensures var f := o.factories[i];
            match FoundBase(r, i)
            case Nothing => o.IsBaseFor(f, NoBase)
            case Game => exists id :: o.IsBaseFor(f, GameBase(id))
            case Ours(b) => b < |o.factories| && o.IsBaseFor(f, PluginBase(o.factories[b]))
    ensures MayInstall(r, i) <==> !o.factories[i].derive.NoDerive? && !o.LacksBase(o.factories[i]) && !o.NameTaken(o.factories[i])
  {
    hide PluginEntityFactories.Valid, PluginEntityFactories.IsBaseFor, PluginEntityFactories.LacksBase,
      PluginEntityFactories.NameTaken;
    o.BaseIsFound(o.factories[i]);
    SameFound(r, o, i);
  }

  lemma SameFound(r: Registry, o: PluginEntityFactories, i: nat)
    requires Represents(r, o) && i in r.info && !o.factories[i].installed
    ensures var base := o.FindBaseFactory(o.factories[i]);
            match FoundBase(r, i)
            case Nothing => base == NoBase
            case Game => base.GameBase? && base == GameBase(base.id)
            case Ours(b) => b < |o.factories| && base == PluginBase(o.factories[b])
    ensures MayInstall(r, i) <==> !o.factories[i].derive.NoDerive? && o.MayInstall(o.factories[i])
  {
    assert r.info[i] == Info(o.factories[i].plugin, o.factories[i].classname, o.factories[i].derive, o.factories[i].isAbstract);
  }

  /** `Install`. */
  function Installed(r: Registry, f: nat): Registry
    requires f in r.info
  {
    var r' := r.(names := if r.info[f].isAbstract then r.names else r.names[r.info[f].classname := f],
                 installed := r.installed + {f}, stamp := r.stamp[f := r.clock], clock := r.clock + 1);
    match FoundBase(r, f)
    case Ours(b) => r'.(base := r.base[f := b], derived := r.derived[b := ListOf(r, b) + [f]])
    case _ => r'
  }

  /** `SetBaseFactory(nullptr)`. */
  function Unlinked(r: Registry, f: nat): Registry {
    if f !in r.base then r
    else r.(base := r.base - {f}, derived := r.derived[r.base[f] := RemoveFirst(ListOf(r, r.base[f]), f)])
  }

  // ---------- Runs ----------

  /** Where an uninstall stands: before the child with this index, removing entities, or done but for its
      notification. */
  datatype Phase = Children(next: int) | Removing | Notified

  datatype Frame = Frame(factory: nat, phase: Phase)

  /** The uninstalls in progress, the innermost one last. */
  datatype Machine = Machine(reg: Registry, stack: seq<Frame>)

  datatype Event = Install(factory: nat) | Uninstall(factory: nat) | Turn

  /** The frame is that of a factory which is still installed, and about to go. */
  predicate IsBusy(frame: Frame) {
    !frame.phase.Notified?
  }

  /** Plugin code runs outside of any uninstall, while entities are removed, and when it is notified. */
  predicate PluginRuns(m: Machine) {
    m.stack == [] || !Top(m).phase.Children?
  }

  function Top(m: Machine): Frame
    requires m.stack != []
  {
    m.stack[|m.stack| - 1]
  }

  function WithTop(m: Machine, phase: Phase): Machine
    requires m.stack != []
  {
    m.(stack := m.stack[|m.stack| - 1 := Top(m).(phase := phase)])
  }

  /** `Uninstall` begins: the name goes, and the loop starts at the last child. */
  function Begun(m: Machine, f: nat): Machine {
    Machine(m.reg.(names := map n | n in m.reg.names && m.reg.names[n] != f :: m.reg.names[n]),
            m.stack + [Frame(f, Children(|ListOf(m.reg, f)| - 1))])
  }

  /** The factory leaves its base and is no longer installed. */
  function Closed(m: Machine): Machine
    requires m.stack != []
  {
    var f := Top(m).factory;
    var r := Unlinked(m.reg, f);
    WithTop(m.(reg := r.(installed := r.installed - {f})), Notified)
  }

  /** The loop would read past the end of the list of children. */
  predicate Overruns(m: Machine) {
    m.stack != [] && Top(m).phase.Children? && Top(m).phase.next >= |ListOf(m.reg, Top(m).factory)|
  }

  function TurnOf(m: Machine): Machine {
    if m.stack == [] then m
    else
      match Top(m).phase
      case Children(i) =>
        if i < 0 then WithTop(m, Removing)
        else if Overruns(m) then m
        else
          var child := ListOf(m.reg, Top(m).factory)[i];
          var m' := WithTop(m, Children(i - 1));
          if child in m.reg.installed then Begun(m', child) else m'
      case Removing => Closed(m)
      case Notified => m.(stack := m.stack[..|m.stack| - 1])
  }

  function After(m: Machine, event: Event): Machine {
    match event
    case Install(f) => if PluginRuns(m) && MayInstall(m.reg, f) then m.(reg := Installed(m.reg, f)) else m
    case Uninstall(f) => if PluginRuns(m) && f in m.reg.installed then Begun(m, f) else m
    case Turn => TurnOf(m)
  }

  function Run(m: Machine, events: seq<Event>): Machine
    decreases |events|
  {
    if events == [] then m else Run(After(m, events[0]), events[1..])
  }

  // ---------- What every run keeps ----------

  /** Base and derived links are inverse to each other, and belong to installed factories. */
  ghost predicate LinksOk(r: Registry) {
    && r.base.Keys <= r.installed
    && (forall c :: c in r.base ==> c in ListOf(r, r.base[c]))
    && (forall b: nat, c :: c in ListOf(r, b) ==> c in r.base && r.base[c] == b)
    && (forall b: nat :: Distinct(ListOf(r, b)))
  }

  /** The factories whose base is gone. */
  function Dangling(r: Registry): set<nat> {
    set c | c in r.base && r.base[c] !in r.installed
  }

  lemma InstallKeepsLinks(r: Registry, f: nat)
    requires LinksOk(r) && MayInstall(r, f)
    ensures LinksOk(Installed(r, f))
  {
    hide Distinct, ListOf, Installed, FoundBase;
    var r' := Installed(r, f);
    InstalledLists(r, f);
    InstalledIs(r, f);
    forall d: nat
      ensures Distinct(ListOf(r', d))
      ensures forall c :: c in ListOf(r', d) <==> (c in ListOf(r, d) || (c == f && FoundBase(r, f) == Ours(d)))
    {
      assert f !in ListOf(r, d);
      AppendDistinct(ListOf(r, d), f);
    }
    forall c | c in r'.base
      ensures c in ListOf(r', r'.base[c])
    {
      assert c != f ==> c in ListOf(r, r.base[c]);
    }
  }

  lemma AppendDistinct<T>(s: seq<T>, x: T)
    requires Distinct(s) && x !in s
    ensures Distinct(s + [x])
  {
  }

  lemma InstalledLists(r: Registry, f: nat)
    requires f in r.info
    ensures forall d: nat :: ListOf(Installed(r, f), d) == if FoundBase(r, f) == Ours(d) then ListOf(r, d) + [f] else ListOf(r, d)
    ensures Installed(r, f).base == match FoundBase(r, f) { case Ours(b) => r.base[f := b] case _ => r.base }
  {
  }

  /** Installing leaves a factory without a base if the one that it found has gone, and gives a base back to what
      the factory still lists from before. */
  lemma InstallLeaves(r: Registry, f: nat)
    requires LinksOk(r) && MayInstall(r, f)
    ensures Dangling(Installed(r, f)) ==
              Dangling(r) - (set c | c in ListOf(r, f))
              + match FoundBase(r, f) { case Ours(b) => if b in r.installed then {} else {f} case _ => {} }
  {
    hide Distinct, Installed, FoundBase;
    InstalledLists(r, f);
    InstalledIs(r, f);
    FoundIsOther(r, f);
    assert forall c :: c in ListOf(r, f) <==> c in r.base && r.base[c] == f;
  }

  lemma InstalledIs(r: Registry, f: nat)
    requires f in r.info
    ensures Installed(r, f).installed == r.installed + {f} && Installed(r, f).info == r.info
  {
  }

  lemma FoundIsOther(r: Registry, f: nat)
    requires f in r.info && f !in r.installed
    ensures FoundBase(r, f) != Ours(f)
  {
  }

  lemma ClosedLists(m: Machine)
    requires m.stack != []
    ensures var f, r, r' := Top(m).factory, m.reg, Closed(m).reg;
            && r'.base == r.base - {f} && r'.installed == r.installed - {f}
            && forall d: nat :: ListOf(r', d) ==
                 if f in r.base && r.base[f] == d then RemoveFirst(ListOf(r, d), f) else ListOf(r, d)
  {
    var f, r := Top(m).factory, m.reg;
    if f !in r.base {
      assert r.base - {f} == r.base;
    }
  }

  lemma ClosedMembers(m: Machine, d: nat)
    requires LinksOk(m.reg) && m.stack != []
    ensures var f, r, list := Top(m).factory, m.reg, ListOf(Closed(m).reg, d);
            Distinct(list) && forall c :: c in list <==> c in r.base && r.base[c] == d && c != f
  {
    hide Closed, ListOf, Distinct;
    ClosedLists(m);
    var list := ListOf(m.reg, d);
    assert Distinct(list) && forall c :: c in list <==> c in m.reg.base && m.reg.base[c] == d;
    RemoveFirstExact(list, Top(m).factory);
  }

  lemma CloseKeepsLinks(m: Machine)
    requires LinksOk(m.reg) && m.stack != []
    ensures LinksOk(Closed(m).reg)
  {
    hide Closed, ListOf, Distinct, RemoveFirst;
    ClosedLists(m);
    forall d: nat
      ensures var list := ListOf(Closed(m).reg, d);
              Distinct(list) && forall c :: c in list <==> c in m.reg.base && m.reg.base[c] == d && c != Top(m).factory
    {
      ClosedMembers(m, d);
    }
  }

  /** When a factory closes, exactly what it still lists is left without a base. */
  lemma CloseLeaves(m: Machine)
    requires LinksOk(m.reg) && m.stack != []
    ensures Dangling(Closed(m).reg) == Dangling(m.reg) + (set c | c in ListOf(m.reg, Top(m).factory)) - {Top(m).factory}
  {
    hide Closed, ListOf, Distinct, RemoveFirst;
    ClosedLists(m);
    assert forall c :: c in ListOf(m.reg, Top(m).factory) <==> c in m.reg.base && m.reg.base[c] == Top(m).factory;
  }

  lemma {:induction false} RunKeepsLinks(m: Machine, events: seq<Event>)
    requires LinksOk(m.reg)
    ensures LinksOk(Run(m, events).reg)
    decreases |events|
  {
    hide LinksOk;
    if events != [] {
      EventKeepsLinks(m, events[0]);
      RunKeepsLinks(After(m, events[0]), events[1..]);
    }
  }

  lemma EventKeepsLinks(m: Machine, event: Event)
    requires LinksOk(m.reg)
    ensures LinksOk(After(m, event).reg)
  {
    hide LinksOk, Installed, Closed;
    BeginKeepsLinks(m);
    match event {
      case Install(f) =>
        if MayInstall(m.reg, f) {
          InstallKeepsLinks(m.reg, f);
        }
      case Uninstall(_) =>
      case Turn =>
        if m.stack != [] {
          CloseKeepsLinks(m);
          if Top(m).phase.Children? {
            BeginKeepsLinks(WithTop(m, Children(Top(m).phase.next - 1)));
          }
        }
    }
  }

  lemma BeginKeepsLinks(m: Machine)
    requires LinksOk(m.reg)
    ensures forall f: nat :: LinksOk(Begun(m, f).reg)
  {
    forall f: nat
      ensures LinksOk(Begun(m, f).reg)
    {
      assert forall d: nat :: ListOf(Begun(m, f).reg, d) == ListOf(m.reg, d);
    }
  }

  // ---------- Sound states ----------

  predicate Busy(m: Machine, k: nat) {
    k < |m.stack| && IsBusy(m.stack[k])
  }

  ghost predicate InProgress(m: Machine, f: nat) {
    exists k: nat :: Busy(m, k) && m.stack[k].factory == f
  }

  /** How many children the loop of a frame still has to meet, the one that is being uninstalled included. */
  function Expected(m: Machine, k: nat): int
    requires Busy(m, k)
  {
    match m.stack[k].phase
    case Children(i) => i + 1 + if Busy(m, k + 1) then 1 else 0
    case _ => 0
  }

  /** The children that a factory lists beyond those that its loop still meets: they will be left behind. */
  function Spare(m: Machine, k: nat): int
    requires Busy(m, k)
  {
    |ListOf(m.reg, m.stack[k].factory)| - Expected(m, k)
  }

  /** A factory in progress is installed and lists at least what its loop expects; the child that is being
      uninstalled is the last of these. */
  ghost predicate FrameOk(m: Machine, k: nat) {
    Busy(m, k) ==>
      var f := m.stack[k].factory;
      && f in m.reg.installed && 0 <= Spare(m, k)
      && (m.stack[k].phase.Children? ==> -1 <= m.stack[k].phase.next)
      && (m.stack[k].phase.Children? && Busy(m, k + 1) ==>
            ListOf(m.reg, f)[m.stack[k].phase.next + 1] == m.stack[k + 1].factory)
  }

  /** No outer factory derives from an inner one, and an inner one derives directly from an outer one only if
      the loop of that one has come to it. */
  ghost predicate PairOk(m: Machine, j: nat, k: nat) {
    j < k && Busy(m, j) && Busy(m, k) ==>
      && !Descends(m.reg.base, m.stack[j].factory, m.stack[k].factory)
      && (m.stack[k].factory in m.reg.base && m.reg.base[m.stack[k].factory] == m.stack[j].factory ==>
            j == k - 1 && m.stack[j].phase.Children?)
  }

  /** No base is gone, every base was installed before what derives from it, and the names belong to installed
      factories that are not in progress. */
  ghost predicate RegistryOk(m: Machine) {
    && LinksOk(m.reg)
    && (forall c :: c in m.reg.base ==> m.reg.base[c] in m.reg.installed)
    && (forall f :: f in m.reg.installed ==> f in m.reg.stamp && m.reg.stamp[f] < m.reg.clock)
    && Ranks(m.reg.base, m.reg.stamp)
    && (forall n :: n in m.reg.names ==> m.reg.names[n] in m.reg.installed && !InProgress(m, m.reg.names[n]))
  }

  ghost predicate Sound(m: Machine) {
    RegistryOk(m) && (forall k: nat :: FrameOk(m, k)) && (forall j: nat, k: nat :: PairOk(m, j, k))
  }

  /** The next turn closes a factory that still lists others. */
  predicate Leaves(m: Machine) {
    m.stack != [] && Top(m).phase.Removing? && ListOf(m.reg, Top(m).factory) != []
  }

  /** A sound state is one without overruns, dangling factories or circles of bases. */
  lemma SoundIsSafe(m: Machine)
    requires Sound(m)
    ensures !Overruns(m) && Dangling(m.reg) == {}
    ensures forall f :: f in m.reg.base ==> !Descends(m.reg.base, m.reg.base[f], f)
  {
    if m.stack != [] {
      assert FrameOk(m, |m.stack| - 1);
    }
    forall f | f in m.reg.base
      ensures !Descends(m.reg.base, m.reg.base[f], f)
    {
      NoCycle(m.reg.base, m.reg.stamp, f);
    }
  }

  // ---------- What plugins and turns keep ----------

  /** A factory that nothing derives from may gain or lose its base: no other chain changes. */
  lemma LeafKeeps(parents: map<nat, nat>, f: nat, b: nat)
    requires forall c :: c in parents ==> parents[c] != f
    requires f != b
    ensures forall x, y :: x != f ==> (Descends(parents - {f}, x, y) <==> Descends(parents, x, y))
    ensures forall x, y :: x != f ==> (Descends(parents[f := b], x, y) <==> Descends(parents - {f}, x, y))
  {
    forall x, y | x != f
      ensures Descends(parents - {f}, x, y) <==> Descends(parents, x, y)
      ensures Descends(parents[f := b], x, y) <==> Descends(parents - {f}, x, y)
    {
      RestrictKeeps(parents, {f}, x, y);
      RestrictKeeps(parents[f := b], {f}, x, y);
      assert parents[f := b] - {f} == parents - {f};
    }
  }

  lemma NothingListed(m: Machine, f: nat)
    requires RegistryOk(m) && f !in m.reg.installed
    ensures ListOf(m.reg, f) == [] && f !in m.reg.base && forall c :: c in m.reg.base ==> m.reg.base[c] != f
  {
    LinkedAreInstalled(m);
    ListedMeansInstalled(m, f);
  }

  lemma ListedMeansInstalled(m: Machine, f: nat)
    requires RegistryOk(m)
    ensures ListOf(m.reg, f) != [] ==> f in m.reg.installed
  {
    if ListOf(m.reg, f) != [] {
      var c := ListOf(m.reg, f)[0];
      assert c in ListOf(m.reg, f);
      assert c in m.reg.base && m.reg.base[c] == f;
    }
  }

  lemma FoundIsInstalled(m: Machine, f: nat)
    requires RegistryOk(m) && f in m.reg.info && FoundBase(m.reg, f).Ours?
    ensures FoundBase(m.reg, f).factory in m.reg.installed
  {
  }

  lemma BusyIsInstalled(m: Machine, k: nat)
    requires Sound(m) && Busy(m, k)
    ensures m.stack[k].factory in m.reg.installed
  {
    assert FrameOk(m, k);
  }

  function InstalledIn(m: Machine, f: nat): Machine
    requires f in m.reg.info
  {
    m.(reg := Installed(m.reg, f))
  }

  /** Installing keeps a sound state sound. What it finds as its base lists one more. */
  lemma InstallKeepsSound(m: Machine, f: nat)
    requires Sound(m) && MayInstall(m.reg, f)
    ensures Sound(InstalledIn(m, f))
    ensures forall k: nat :: Busy(m, k) ==>
              Spare(InstalledIn(m, f), k) ==
              Spare(m, k) + if FoundBase(m.reg, f) == Ours(m.stack[k].factory) then 1 else 0
  {
    hide Sound, RegistryOk, FrameOk, PairOk, Installed, FoundBase;
    var m' := InstalledIn(m, f);
    SoundParts(m);
    NothingListed(m, f);
    FoundIsOther(m.reg, f);
    InstalledLists(m.reg, f);
    InstalledIs(m.reg, f);
    InstallKeepsRegistry(m, f);
    forall k: nat
      ensures FrameOk(m', k)
      ensures Busy(m, k) ==>
                Spare(m', k) == Spare(m, k) + if FoundBase(m.reg, f) == Ours(m.stack[k].factory) then 1 else 0
    {
      InstallKeepsFrame(m, f, k);
    }
    forall j: nat, k: nat
      ensures PairOk(m', j, k)
    {
      InstallKeepsPair(m, f, j, k);
    }
    PartsSound(m');
  }

  lemma SoundParts(m: Machine)
    requires Sound(m)
    ensures RegistryOk(m) && (forall k: nat :: FrameOk(m, k)) && (forall j: nat, k: nat :: PairOk(m, j, k))
  {
  }

  lemma PartsSound(m: Machine)
    requires RegistryOk(m) && (forall k: nat :: FrameOk(m, k)) && (forall j: nat, k: nat :: PairOk(m, j, k))
    ensures Sound(m)
  {
  }

  lemma InstallKeepsRegistry(m: Machine, f: nat)
    requires Sound(m) && MayInstall(m.reg, f)
    ensures RegistryOk(InstalledIn(m, f))
  {
    hide FrameOk, PairOk, LinksOk;
    ProgressIsInstalled(m, f);
    hide InProgress;
    InstallKeepsLinks(m.reg, f);
    NothingListed(m, f);
    InstalledLists(m.reg, f);
    if FoundBase(m.reg, f).Ours? {
      FoundIsInstalled(m, f);
    }
    LinkedAreInstalled(m);
  }

  lemma ProgressIsInstalled(m: Machine, f: nat)
    requires Sound(m) && f in m.reg.info
    ensures forall g :: InProgress(InstalledIn(m, f), g) ==> InProgress(m, g) && g in m.reg.installed
  {
    hide Sound, Installed;
    var m' := InstalledIn(m, f);
    forall g | InProgress(m', g)
      ensures InProgress(m, g) && g in m.reg.installed
    {
      var k: nat :| Busy(m', k) && m'.stack[k].factory == g;
      assert Busy(m, k);
      BusyIsInstalled(m, k);
    }
  }

  lemma LinkedAreInstalled(m: Machine)
    requires RegistryOk(m)
    ensures forall c :: c in m.reg.base ==> c in m.reg.installed
  {
  }

  lemma InstallKeepsFrame(m: Machine, f: nat, k: nat)
    requires FrameOk(m, k) && f in m.reg.info
    ensures FrameOk(InstalledIn(m, f), k)
    ensures Busy(m, k) ==>
              Spare(InstalledIn(m, f), k) ==
              Spare(m, k) + if FoundBase(m.reg, f) == Ours(m.stack[k].factory) then 1 else 0
  {
    hide Installed, FoundBase;
    InstalledLists(m.reg, f);
    InstalledIs(m.reg, f);
  }

  lemma InstallKeepsPair(m: Machine, f: nat, j: nat, k: nat)
    requires Sound(m) && MayInstall(m.reg, f)
    ensures PairOk(InstalledIn(m, f), j, k)
  {
    hide Installed, FoundBase, RegistryOk, FrameOk;
    SoundParts(m);
    assert PairOk(m, j, k);
    NothingListed(m, f);
    FoundIsOther(m.reg, f);
    InstalledLists(m.reg, f);
    if j < k && Busy(m, j) && Busy(m, k) {
      BusyIsInstalled(m, j);
      BusyIsInstalled(m, k);
      match FoundBase(m.reg, f)
      case Ours(b) =>
        LeafKeeps(m.reg.base, f, b);
        assert m.reg.base - {f} == m.reg.base;
      case _ =>
    }
  }

  // ---------- Beginning ----------

  /** Nothing in progress derives from g, or is its base. */
  ghost predicate Clear(m: Machine, g: nat) {
    && (forall k: nat :: Busy(m, k) ==> !Descends(m.reg.base, m.stack[k].factory, g))
    && (g in m.reg.base ==> !InProgress(m, m.reg.base[g]))
  }

  /** An uninstall that plugin code begins keeps a sound state sound, if nothing in progress derives from the
      factory or is its base. */
  lemma BeginKeepsSound(m: Machine, g: nat)
    requires Sound(m) && PluginRuns(m) && g in m.reg.installed && Clear(m, g)
    ensures Sound(Begun(m, g))
    ensures forall k: nat :: Busy(Begun(m, g), k) ==> Spare(Begun(m, g), k) == if Busy(m, k) then Spare(m, k) else 0
  {
    hide Sound, RegistryOk, FrameOk, PairOk;
    var m' := Begun(m, g);
    SoundParts(m);
    BeginKeepsRegistry(m, g);
    forall k: nat
      ensures FrameOk(m', k) && (Busy(m', k) ==> Spare(m', k) == if Busy(m, k) then Spare(m, k) else 0)
    {
      BeginKeepsFrame(m, g, k);
    }
    forall j: nat, k: nat
      ensures PairOk(m', j, k)
    {
      assert PairOk(m, j, k);
      BeginKeepsPair(m, g, j, k);
    }
    PartsSound(m');
  }

  lemma BeginKeepsRegistry(m: Machine, g: nat)
    requires RegistryOk(m)
    ensures RegistryOk(Begun(m, g))
  {
    hide LinksOk;
    BeginKeepsLinks(m);
    forall f | InProgress(Begun(m, g), f) && f != g
      ensures InProgress(m, f)
    {
      var k: nat :| Busy(Begun(m, g), k) && Begun(m, g).stack[k].factory == f;
      assert Busy(m, k);
    }
  }

  lemma BeginKeepsFrame(m: Machine, g: nat, k: nat)
    requires FrameOk(m, k) && PluginRuns(m) && g in m.reg.installed
    ensures FrameOk(Begun(m, g), k)
    ensures Busy(Begun(m, g), k) ==> Spare(Begun(m, g), k) == if Busy(m, k) then Spare(m, k) else 0
  {
  }

  lemma BeginKeepsPair(m: Machine, g: nat, j: nat, k: nat)
    requires PairOk(m, j, k) && Clear(m, g)
    ensures PairOk(Begun(m, g), j, k)
  {
    var m' := Begun(m, g);
    if j < k && Busy(m', j) && Busy(m', k) && k == |m.stack| {
      assert Busy(m, j) && InProgress(m, m.stack[j].factory);
    }
  }

  // ---------- Turns ----------

  /** The loop comes to a child: its own uninstall begins. */
  function Came(m: Machine): Machine
    requires m.stack != [] && Top(m).phase.Children? && 0 <= Top(m).phase.next < |ListOf(m.reg, Top(m).factory)|
  {
    var i := Top(m).phase.next;
    Begun(WithTop(m, Children(i - 1)), ListOf(m.reg, Top(m).factory)[i])
  }

  lemma CameKeepsSound(m: Machine)
    requires Sound(m) && m.stack != [] && Top(m).phase.Children? && 0 <= Top(m).phase.next
    ensures !Overruns(m) && TurnOf(m) == Came(m) && Sound(Came(m))
    ensures forall k: nat :: Busy(Came(m), k) ==> Spare(Came(m), k) == if Busy(m, k) then Spare(m, k) else 0
  {
    hide Sound, RegistryOk, FrameOk, PairOk;
    SoundParts(m);
    SoundIsSafe(m);
    var t, m' := |m.stack| - 1, Came(m);
    var f, child := Top(m).factory, ListOf(m.reg, Top(m).factory)[Top(m).phase.next];
    ListedChild(m, f, child);
    CameKeepsRegistry(m);
    forall k: nat
      ensures FrameOk(m', k) && (Busy(m', k) ==> Spare(m', k) == if Busy(m, k) then Spare(m, k) else 0)
    {
      CameKeepsFrame(m, child, k);
    }
    forall j: nat, k: nat
      ensures PairOk(m', j, k)
    {
      CameKeepsPair(m, child, j, k);
    }
    PartsSound(m');
  }

  lemma ListedChild(m: Machine, f: nat, child: nat)
    requires RegistryOk(m) && child in ListOf(m.reg, f)
    ensures child in m.reg.installed && child in m.reg.base && m.reg.base[child] == f
  {
  }

  lemma CameKeepsRegistry(m: Machine)
    requires RegistryOk(m) && m.stack != [] && Top(m).phase.Children?
    requires 0 <= Top(m).phase.next < |ListOf(m.reg, Top(m).factory)|
    ensures RegistryOk(Came(m))
  {
    hide LinksOk;
    var m1 := WithTop(m, Children(Top(m).phase.next - 1));
    forall f | InProgress(m1, f)
      ensures InProgress(m, f)
    {
      var k: nat :| Busy(m1, k) && m1.stack[k].factory == f;
      assert Busy(m, k) && m.stack[k].factory == f;
    }
    assert RegistryOk(m1);
    BeginKeepsRegistry(m1, ListOf(m.reg, Top(m).factory)[Top(m).phase.next]);
  }

  lemma CameKeepsFrame(m: Machine, child: nat, k: nat)
    requires FrameOk(m, k) && m.stack != [] && Top(m).phase.Children?
    requires 0 <= Top(m).phase.next < |ListOf(m.reg, Top(m).factory)|
    requires child == ListOf(m.reg, Top(m).factory)[Top(m).phase.next] && child in m.reg.installed
    ensures FrameOk(Came(m), k)
    ensures Busy(Came(m), k) ==> Spare(Came(m), k) == if Busy(m, k) then Spare(m, k) else 0
  {
    var m', t := Came(m), |m.stack| - 1;
    assert m'.stack[t] == Frame(Top(m).factory, Children(Top(m).phase.next - 1));
    assert m'.stack[t + 1] == Frame(child, Children(|ListOf(m.reg, child)| - 1));
    assert forall i :: 0 <= i < t ==> m'.stack[i] == m.stack[i];
    if k < t {
      assert Busy(m', k + 1) == Busy(m, k + 1);
    }
  }

  lemma CameKeepsPair(m: Machine, child: nat, j: nat, k: nat)
    requires Sound(m) && m.stack != [] && Top(m).phase.Children?
    requires 0 <= Top(m).phase.next < |ListOf(m.reg, Top(m).factory)|
    requires child == ListOf(m.reg, Top(m).factory)[Top(m).phase.next]
    requires child in m.reg.base && m.reg.base[child] == Top(m).factory
    ensures PairOk(Came(m), j, k)
  {
    hide Sound, FrameOk;
    SoundParts(m);
    assert PairOk(m, j, k) && PairOk(m, j, |m.stack| - 1);
    var m', t := Came(m), |m.stack| - 1;
    assert m'.stack[t + 1].factory == child;
    assert forall i :: 0 <= i <= t ==> m'.stack[i].factory == m.stack[i].factory && IsBusy(m'.stack[i]) == IsBusy(m.stack[i]);
    if k == t + 1 && j <= t && Busy(m, j) {
      StepDescends(m.reg.base, child, Top(m).factory);
      StepDescends(m.reg.base, Top(m).factory, Top(m).factory);
      if Descends(m.reg.base, m.stack[j].factory, child) {
        if j == t {
          RankFalls(m.reg.base, m.reg.stamp, Top(m).factory, child);
        } else {
          DescendsTransitive(m.reg.base, m.stack[j].factory, child, Top(m).factory);
        }
      }
    }
  }

  /** The loop is done. */
  lemma DoneKeepsSound(m: Machine)
    requires Sound(m) && m.stack != [] && Top(m).phase.Children? && Top(m).phase.next < 0
    ensures Sound(WithTop(m, Removing))
    ensures forall k: nat :: Busy(m, k) ==> Spare(WithTop(m, Removing), k) == Spare(m, k)
  {
    hide RegistryOk;
    var m', t := WithTop(m, Removing), |m.stack| - 1;
    assert FrameOk(m, t);
    SameFactories(m, m');
    forall k: nat
      ensures FrameOk(m', k) && (Busy(m, k) ==> Spare(m', k) == Spare(m, k))
    {
      assert FrameOk(m, k) && Busy(m', k + 1) == Busy(m, k + 1);
    }
    forall j: nat, k: nat
      ensures PairOk(m', j, k)
    {
      assert PairOk(m, j, k);
    }
  }

  /** The same factories are in progress. */
  lemma SameFactories(m: Machine, m': Machine)
    requires RegistryOk(m) && m'.reg == m.reg && |m'.stack| == |m.stack|
    requires forall k :: 0 <= k < |m.stack| ==>
               m'.stack[k].factory == m.stack[k].factory && IsBusy(m'.stack[k]) == IsBusy(m.stack[k])
    ensures RegistryOk(m')
  {
    forall f | InProgress(m', f)
      ensures InProgress(m, f)
    {
      var k: nat :| Busy(m', k) && m'.stack[k].factory == f;
      assert Busy(m, k);
    }
  }

  /** A factory that lists nothing any more closes. */
  lemma CloseKeepsSound(m: Machine)
    requires Sound(m) && m.stack != [] && Top(m).phase.Removing? && !Leaves(m)
    ensures Sound(Closed(m))
    ensures forall k: nat :: Busy(Closed(m), k) ==> Busy(m, k) && Spare(Closed(m), k) == Spare(m, k)
  {
    hide Sound, RegistryOk, FrameOk, PairOk, Closed;
    var m' := Closed(m);
    SoundParts(m);
    CloseKeepsRegistry(m);
    ClosedStack(m);
    forall k: nat
      ensures FrameOk(m', k) && (Busy(m', k) ==> Busy(m, k) && Spare(m', k) == Spare(m, k))
    {
      CloseKeepsFrame(m, k);
    }
    forall j: nat, k: nat
      ensures PairOk(m', j, k)
    {
      CloseKeepsPair(m, j, k);
    }
    PartsSound(m');
  }

  lemma ClosedStack(m: Machine)
    requires m.stack != []
    ensures Closed(m).stack == m.stack[|m.stack| - 1 := Frame(Top(m).factory, Notified)]
    ensures Closed(m).reg.stamp == m.reg.stamp && Closed(m).reg.clock == m.reg.clock && Closed(m).reg.names == m.reg.names
  {
  }

  lemma CloseKeepsRegistry(m: Machine)
    requires RegistryOk(m) && m.stack != [] && Top(m).phase.Removing? && !Leaves(m)
    ensures RegistryOk(Closed(m))
  {
    hide LinksOk, Closed;
    var m', f := Closed(m), Top(m).factory;
    CloseKeepsLinks(m);
    ClosedLists(m);
    ClosedStack(m);
    NobodysBase(m, f);
    assert Busy(m, |m.stack| - 1) && InProgress(m, f);
    forall g | InProgress(m', g)
      ensures InProgress(m, g)
    {
      var k: nat :| Busy(m', k) && m'.stack[k].factory == g;
      assert Busy(m, k);
    }
  }

  lemma NobodysBase(m: Machine, f: nat)
    requires RegistryOk(m) && ListOf(m.reg, f) == []
    ensures forall c :: c in m.reg.base ==> m.reg.base[c] != f
  {
  }

  lemma CloseKeepsFrame(m: Machine, k: nat)
    requires Sound(m) && m.stack != [] && Top(m).phase.Removing? && !Leaves(m)
    ensures FrameOk(Closed(m), k)
    ensures Busy(Closed(m), k) ==> Busy(m, k) && Spare(Closed(m), k) == Spare(m, k)
  {
    hide RegistryOk, Closed, RemoveFirst;
    var m', t, f := Closed(m), |m.stack| - 1, Top(m).factory;
    ClosedStack(m);
    ClosedLists(m);
    if Busy(m', k) {
      var g := m.stack[k].factory;
      assert k < t && FrameOk(m, k) && PairOk(m, k, t);
      assert Busy(m, k) && Busy(m, t) && m'.stack[k] == m.stack[k];
      OthersStay(m, k);
      if f in m.reg.base && m.reg.base[f] == g {
        assert k == t - 1 && m.stack[k].phase.Children?;
        var n := m.stack[k].phase.next + 1;
        ListIsDistinct(m, g);
        RemoveAt(ListOf(m.reg, g), n);
      } else if k == t - 1 && m.stack[k].phase.Children? {
        ListedChild(m, g, ListOf(m.reg, g)[m.stack[k].phase.next + 1]);
        assert false;
      } else if k + 1 < t {
        assert m'.stack[k + 1] == m.stack[k + 1];
      }
    }
  }

  /** Another factory in progress stays installed. */
  lemma OthersStay(m: Machine, k: nat)
    requires Sound(m) && m.stack != [] && Busy(m, k) && k < |m.stack| - 1 && Busy(m, |m.stack| - 1)
    ensures m.stack[k].factory in m.reg.installed && m.stack[k].factory != Top(m).factory
  {
    BusyIsInstalled(m, k);
    assert PairOk(m, k, |m.stack| - 1);
    StepDescends(m.reg.base, m.stack[k].factory, m.stack[k].factory);
  }

  lemma ListIsDistinct(m: Machine, f: nat)
    requires RegistryOk(m)
    ensures Distinct(ListOf(m.reg, f))
  {
  }

  /** Removing the entry at n leaves what is in front of it where it is. */
  lemma {:induction false} RemoveAt(s: seq<nat>, n: nat)
    requires Distinct(s) && n < |s|
    ensures RemoveFirst(s, s[n]) == s[..n] + s[n + 1..]
  {
    if 0 < n {
      assert s[0] != s[n] && s[1..][n - 1] == s[n];
      RemoveAt(s[1..], n - 1);
      assert [s[0]] + s[1..][..n - 1] == s[..n] && s[1..][n..] == s[n + 1..];
    }
  }

  lemma CloseKeepsPair(m: Machine, j: nat, k: nat)
    requires Sound(m) && m.stack != [] && Top(m).phase.Removing? && !Leaves(m)
    ensures PairOk(Closed(m), j, k)
  {
    hide RegistryOk, FrameOk, Closed;
    var m', t, f := Closed(m), |m.stack| - 1, Top(m).factory;
    ClosedStack(m);
    ClosedLists(m);
    if j < k && Busy(m', j) && Busy(m', k) {
      assert k < t && m'.stack[j] == m.stack[j] && m'.stack[k] == m.stack[k];
      assert Busy(m, j) && Busy(m, k) && Busy(m, t) && PairOk(m, j, k);
      OthersStay(m, j);
      OthersStay(m, k);
      NobodysBase(m, f);
      LeafKeeps(m.reg.base, f, f + 1);
    }
  }

  /** The notification is over. */
  lemma PopKeepsSound(m: Machine)
    requires Sound(m) && m.stack != [] && Top(m).phase.Notified?
    ensures Sound(m.(stack := m.stack[..|m.stack| - 1]))
    ensures var m' := m.(stack := m.stack[..|m.stack| - 1]);
            forall k: nat :: Busy(m', k) ==> Busy(m, k) && Spare(m', k) == Spare(m, k)
  {
    var m' := m.(stack := m.stack[..|m.stack| - 1]);
    forall f | InProgress(m', f)
      ensures InProgress(m, f)
    {
      var k: nat :| Busy(m', k) && m'.stack[k].factory == f;
      assert Busy(m, k);
    }
    forall k: nat
      ensures FrameOk(m', k) && (Busy(m', k) ==> Busy(m, k) && Spare(m', k) == Spare(m, k))
    {
      assert FrameOk(m, k) && Busy(m', k + 1) == Busy(m, k + 1);
    }
    forall j: nat, k: nat
      ensures PairOk(m', j, k)
    {
      assert PairOk(m, j, k);
    }
  }

  // ---------- Whole runs ----------

  /** An uninstall by plugin code keeps clear of what is in progress. */
  ghost predicate Careful(m: Machine, event: Event) {
    event.Uninstall? && PluginRuns(m) && event.factory in m.reg.installed ==> Clear(m, event.factory)
  }

  /** Plugin code installs a factory on a base that is in progress. */
  ghost predicate OnBusy(m: Machine, event: Event) {
    && event.Install? && PluginRuns(m) && MayInstall(m.reg, event.factory)
    && FoundBase(m.reg, event.factory).Ours? && InProgress(m, FoundBase(m.reg, event.factory).factory)
  }

  ghost predicate LeavesBehind(m: Machine, event: Event) {
    event.Turn? && Leaves(m)
  }

  /** Nothing that is in progress lists more than its loop will meet. */
  ghost predicate Neat(m: Machine) {
    forall k: nat :: Busy(m, k) ==> Spare(m, k) == 0
  }

  /** As long as nothing is left behind, a state stays sound, whatever is installed meanwhile. */
  lemma EventKeepsSound(m: Machine, event: Event)
    requires Sound(m) && Careful(m, event) && !LeavesBehind(m, event)
    ensures Sound(After(m, event))
    ensures forall k: nat :: Busy(After(m, event), k) && Busy(m, k) ==>
              Spare(After(m, event), k) ==
              Spare(m, k) + if OnBusy(m, event) && FoundBase(m.reg, event.factory) == Ours(m.stack[k].factory) then 1 else 0
    ensures forall k: nat :: Busy(After(m, event), k) && !Busy(m, k) ==> Spare(After(m, event), k) == 0
  {
    hide Sound, Installed, FoundBase, Begun, Closed, Spare, Clear;
    match event {
      case Install(f) =>
        if PluginRuns(m) && MayInstall(m.reg, f) {
          InstallKeepsSound(m, f);
          OnBusyIff(m, f);
        }
      case Uninstall(g) =>
        if PluginRuns(m) && g in m.reg.installed {
          BeginKeepsSound(m, g);
        }
      case Turn => TurnKeepsSound(m);
    }
  }

  lemma OnBusyIff(m: Machine, f: nat)
    requires PluginRuns(m) && MayInstall(m.reg, f)
    ensures forall k: nat :: Busy(m, k) && FoundBase(m.reg, f) == Ours(m.stack[k].factory) ==> OnBusy(m, Install(f))
  {
  }

  lemma TurnKeepsSound(m: Machine)
    requires Sound(m) && !Leaves(m)
    ensures Sound(TurnOf(m))
    ensures forall k: nat :: Busy(TurnOf(m), k) ==> Spare(TurnOf(m), k) == if Busy(m, k) then Spare(m, k) else 0
  {
    hide Sound, Closed, Spare;
    if m.stack != [] {
      match Top(m).phase
      case Children(i) =>
        if i < 0 {
          DoneKeepsSound(m);
        } else {
          CameKeepsSound(m);
        }
      case Removing => CloseKeepsSound(m);
      case Notified => PopKeepsSound(m);
    }
  }

  ghost predicate CarefulRun(m: Machine, events: seq<Event>)
    decreases |events|
  {
    events != [] ==> Careful(m, events[0]) && CarefulRun(After(m, events[0]), events[1..])
  }

  /** No factory closes while it lists others. */
  ghost predicate NoneLeft(m: Machine, events: seq<Event>)
    decreases |events|
  {
    events != [] ==> !LeavesBehind(m, events[0]) && NoneLeft(After(m, events[0]), events[1..])
  }

  ghost predicate NoneOnBusy(m: Machine, events: seq<Event>)
    decreases |events|
  {
    events != [] ==> !OnBusy(m, events[0]) && NoneOnBusy(After(m, events[0]), events[1..])
  }

  lemma NeatLeavesNothing(m: Machine, event: Event)
    requires Sound(m) && Neat(m)
    ensures !LeavesBehind(m, event)
  {
    if m.stack != [] {
      var t: nat := |m.stack| - 1;
      assert Top(m).phase.Removing? ==> Busy(m, t) && Spare(m, t) == 0;
    }
  }

  /** As long as plugins install on nothing that is in progress, every state is sound and nothing is left behind. */
  lemma {:induction false} QuietRunIsSound(m: Machine, events: seq<Event>)
    requires Sound(m) && Neat(m) && CarefulRun(m, events) && NoneOnBusy(m, events)
    ensures NoneLeft(m, events) && Sound(Run(m, events)) && Neat(Run(m, events))
    decreases |events|
  {
    hide Sound, Careful, OnBusy, LeavesBehind, After, Spare;
    if events != [] {
      NeatLeavesNothing(m, events[0]);
      EventKeepsSound(m, events[0]);
      QuietRunIsSound(After(m, events[0]), events[1..]);
    }
  }

  /** A frame whose factory lists too much is left in the end. */
  lemma {:induction false} SpareIsLeft(m: Machine, events: seq<Event>, k: nat)
    requires Sound(m) && CarefulRun(m, events) && Busy(m, k) && 0 < Spare(m, k) && Run(m, events).stack == []
    ensures !NoneLeft(m, events)
    decreases |events|
  {
    hide Sound, Careful, OnBusy, LeavesBehind, After, Spare;
    if events != [] && !LeavesBehind(m, events[0]) {
      EventKeepsSound(m, events[0]);
      StaysBusy(m, events[0], k);
      SpareIsLeft(After(m, events[0]), events[1..], k);
    }
  }

  lemma StaysBusy(m: Machine, event: Event, k: nat)
    requires Sound(m) && Busy(m, k) && 0 < Spare(m, k) && !LeavesBehind(m, event)
    ensures Busy(After(m, event), k)
  {
  }

  /** In a run of careful uninstalls that come to their end, nothing is left behind if and only if plugin code
      never installs a factory on a base that is in progress. */
  lemma {:induction false} NoneLeftIff(m: Machine, events: seq<Event>)
    requires Sound(m) && Neat(m) && CarefulRun(m, events) && Run(m, events).stack == []
    ensures NoneLeft(m, events) <==> NoneOnBusy(m, events)
    decreases |events|
  {
    hide Sound, Careful, OnBusy, LeavesBehind, After, Spare;
    if events != [] {
      NeatLeavesNothing(m, events[0]);
      EventKeepsSound(m, events[0]);
      if OnBusy(m, events[0]) {
        var k := BusyBase(m, events[0]);
        StaysBusyOnInstall(m, events[0], k);
        SpareIsLeft(After(m, events[0]), events[1..], k);
      } else {
        NoneLeftIff(After(m, events[0]), events[1..]);
      }
    }
  }

  lemma BusyBase(m: Machine, event: Event) returns (k: nat)
    requires OnBusy(m, event)
    ensures event.Install? && MayInstall(m.reg, event.factory)
    ensures Busy(m, k) && FoundBase(m.reg, event.factory) == Ours(m.stack[k].factory)
  {
    k :| Busy(m, k) && m.stack[k].factory == FoundBase(m.reg, event.factory).factory;
  }

  lemma StaysBusyOnInstall(m: Machine, event: Event, k: nat)
    requires event.Install? && Busy(m, k)
    ensures Busy(After(m, event), k)
  {
  }

  // ---------- Plugin code that uninstalls a sibling ----------

  /** A child has been uninstalled and its listeners run. The loop over the children of f has some left, all of
      which f still lists, and g is one of them, with no children of its own. */
  ghost predicate AmongChildren(m: Machine, f: nat, i: nat, g: nat) {
    && LinksOk(m.reg) && 2 <= |m.stack| && Top(m).phase.Notified? && m.stack[|m.stack| - 2] == Frame(f, Children(i))
    && |ListOf(m.reg, f)| == i + 1 && g in ListOf(m.reg, f) && ListOf(m.reg, g) == []
  }

  /** If the listeners do nothing but uninstall g, the loop then reads past the end of the list. */
  lemma SiblingOverruns(m: Machine, f: nat, i: nat, g: nat)
    requires AmongChildren(m, f, i, g)
    ensures Overruns(Run(m, [Uninstall(g), Turn, Turn, Turn, Turn]))
  {
    hide Closed, Begun, Run, TurnOf, After, ListOf, LinksOk, Overruns;
    SiblingBegins(m, f, i, g);
    var m1 := Begun(m, g);
    var m2 := WithTop(m1, Removing);
    var m3 := Closed(m2);
    var m4, m5 := m3.(stack := m.stack), m3.(stack := m.stack[..|m.stack| - 1]);
    SiblingCloses(m, f, i, g);
    SiblingIsOver(m, f, i, m3);
    FiveSteps(m, g, m1, m2, m3, m4, m5);
  }

  lemma SiblingCloses(m: Machine, f: nat, i: nat, g: nat)
    requires AmongChildren(m, f, i, g)
    ensures var m2 := WithTop(Begun(m, g), Removing);
            && Top(m2).phase.Removing? && Closed(m2).stack == m.stack + [Frame(g, Notified)] && |ListOf(Closed(m2).reg, f)| == i
  {
    hide Closed, Begun, ListOf, RemoveFirst, LinksOk;
    SiblingBegins(m, f, i, g);
    var m2 := WithTop(Begun(m, g), Removing);
    ClosedStack(m2);
    ClosedLists(m2);
    RemoveFirstExact(ListOf(m.reg, f), g);
  }

  /** Two notifications end, and the loop is at its next turn. */
  lemma SiblingIsOver(m: Machine, f: nat, i: nat, m3: Machine)
    requires 2 <= |m.stack| && Top(m).phase.Notified? && m.stack[|m.stack| - 2] == Frame(f, Children(i))
    requires |m3.stack| == |m.stack| + 1 && m3.stack[..|m.stack|] == m.stack && Top(m3).phase.Notified?
    requires |ListOf(m3.reg, f)| == i
    ensures TurnOf(m3) == m3.(stack := m.stack)
    ensures TurnOf(m3.(stack := m.stack)) == m3.(stack := m.stack[..|m.stack| - 1])
    ensures Overruns(m3.(stack := m.stack[..|m.stack| - 1]))
  {
  }

  lemma SiblingBegins(m: Machine, f: nat, i: nat, g: nat)
    requires AmongChildren(m, f, i, g)
    ensures g in m.reg.installed && g in m.reg.base && m.reg.base[g] == f && Distinct(ListOf(m.reg, f))
    ensures Begun(m, g).stack == m.stack + [Frame(g, Children(-1))]
    ensures ListOf(Begun(m, g).reg, f) == ListOf(m.reg, f) && Begun(m, g).reg.base == m.reg.base
    ensures After(m, Uninstall(g)) == Begun(m, g) && TurnOf(Begun(m, g)) == WithTop(Begun(m, g), Removing)
    ensures TurnOf(WithTop(Begun(m, g), Removing)) == Closed(WithTop(Begun(m, g), Removing))
  {
    hide Closed;
  }

  lemma FiveSteps(m: Machine, g: nat, m1: Machine, m2: Machine, m3: Machine, m4: Machine, m5: Machine)
    requires After(m, Uninstall(g)) == m1 && TurnOf(m1) == m2 && TurnOf(m2) == m3 && TurnOf(m3) == m4 && TurnOf(m4) == m5
    ensures Run(m, [Uninstall(g), Turn, Turn, Turn, Turn]) == m5
  {
    var states := [m, m1, m2, m3, m4, m5];
    var events := [Uninstall(g), Turn, Turn, Turn, Turn];
    hide TurnOf, Run;
    forall i | 0 <= i < |events|
      ensures After(states[i], events[i]) == states[i + 1]
    {
    }
    RunByStates(states, events);
  }

  // ---------- Plugin code that installs a child again ----------

  const CHILD := Info(5, "child", FromHandle(0), false)

  /** Factories 0 and 1 of one plugin are installed, and 1 derives from 0. If a factory of the game has the name of
      factory 1, factory 0 derives from that. */
  function TwoFactories(derive: Derive): Machine {
    Machine(Registry(map[0 := Info(5, "base", derive, true), 1 := CHILD], {"child"}, map["child" := 1], {0, 1},
                     map[1 := 0], map[0 := [1]], map[0 := 0, 1 := 1], 2), [])
  }

  /** The plugin uninstalls factory 0. When it is notified that 1 has been uninstalled, it installs 1 again. */
  const AGAIN: seq<Event> := [Uninstall(0), Turn, Turn, Turn, Install(1), Turn, Turn, Turn, Turn]

  lemma TwoFactoriesAreSound(derive: Derive)
    ensures Sound(TwoFactories(derive)) && Neat(TwoFactories(derive))
  {
    hide RegistryOk, Begun;
    TwoFactoriesAreOk(derive);
  }

  lemma TwoFactoriesAreOk(derive: Derive)
    ensures RegistryOk(TwoFactories(derive))
  {
    hide LinksOk, Descends;
    var m := TwoFactories(derive);
    TwoFactoriesAreLinked(derive);
    assert forall f :: !InProgress(m, f);
  }

  lemma TwoFactoriesAreLinked(derive: Derive)
    ensures LinksOk(TwoFactories(derive).reg)
  {
    var r := TwoFactories(derive).reg;
    assert forall b: nat :: ListOf(r, b) == if b == 0 then [1] else [];
  }

  function TwoLeft(derive: Derive, names: map<string, nat>, installed: set<nat>, list: seq<nat>, stamp: map<nat, int>,
                   clock: int): Registry
  {
    Registry(map[0 := Info(5, "base", derive, true), 1 := CHILD], {"child"}, names, installed,
             if list == [] then map[] else map[1 := 0], map[0 := list], stamp, clock)
  }

  /** The states of this run. */
  function AgainStates(derive: Derive): seq<Machine> {
    var was := map[0 := 0, 1 := 1];
    var whole, begun := TwoLeft(derive, map["child" := 1], {0, 1}, [1], was, 2), TwoLeft(derive, map[], {0, 1}, [1], was, 2);
    var alone := TwoLeft(derive, map[], {0}, [], was, 2);
    var again := TwoLeft(derive, map["child" := 1], {0, 1}, [1], was[1 := 2], 3);
    var left := again.(installed := {1});
    var loop := Frame(0, Children(-1));
    [Machine(whole, []), Machine(whole, [Frame(0, Children(0))]), Machine(begun, [loop, Frame(1, Children(-1))]),
     Machine(begun, [loop, Frame(1, Removing)]), Machine(alone, [loop, Frame(1, Notified)]),
     Machine(again, [loop, Frame(1, Notified)]), Machine(again, [loop]), Machine(again, [Frame(0, Removing)]),
     Machine(left, [Frame(0, Notified)]), Machine(left, [])]
  }

  lemma AgainSteps(derive: Derive, i: nat)
    requires i < 9
    ensures After(AgainStates(derive)[i], AGAIN[i]) == AgainStates(derive)[i + 1]
  {
    hide *;
    match i {
      case 0 => BaseBegins(derive);
      case 1 => ChildBegins(derive);
      case 3 => ChildCloses(derive);
      case 4 => ChildIsInstalled(derive);
      case 7 => BaseCloses(derive);
      case _ => LoopsAndPops(derive, i);
    }
  }

  lemma BaseBegins(derive: Derive)
    ensures After(AgainStates(derive)[0], AGAIN[0]) == AgainStates(derive)[1]
  {
    assert Begun(AgainStates(derive)[0], 0) == AgainStates(derive)[1];
  }

  lemma ChildBegins(derive: Derive)
    ensures After(AgainStates(derive)[1], AGAIN[1]) == AgainStates(derive)[2]
  {
    var m, m' := AgainStates(derive)[1], AgainStates(derive)[2];
    ChildIsMet(derive);
    hide Installed, Closed, Begun, ListOf;
    assert TurnOf(m) == m';
  }

  lemma ChildIsMet(derive: Derive)
    ensures var m := AgainStates(derive)[1];
            ListOf(m.reg, 0) == [1] && Begun(WithTop(m, Children(-1)), 1) == AgainStates(derive)[2]
  {
    hide Installed, Closed, Unlinked;
    var m := AgainStates(derive)[1];
    assert WithTop(m, Children(-1)).stack == [Frame(0, Children(-1))];
  }

  lemma LoopsAndPops(derive: Derive, i: nat)
    requires i in {2, 5, 6, 8}
    ensures After(AgainStates(derive)[i], AGAIN[i]) == AgainStates(derive)[i + 1]
  {
    hide Installed, Closed, Begun;
  }

  lemma ChildCloses(derive: Derive)
    ensures After(AgainStates(derive)[3], AGAIN[3]) == AgainStates(derive)[4]
  {
    hide Installed, Begun;
    var m := AgainStates(derive)[3];
    assert RemoveFirst([1], 1) == [];
    assert Unlinked(m.reg, 1) == m.reg.(base := map[], derived := map[0 := []]);
    assert Closed(m) == AgainStates(derive)[4];
  }

  lemma ChildIsInstalled(derive: Derive)
    ensures After(AgainStates(derive)[4], AGAIN[4]) == AgainStates(derive)[5]
  {
    ChildMayInstall(derive);
    hide Installed, Closed, Begun, MayInstall;
  }

  lemma ChildMayInstall(derive: Derive)
    ensures var r := AgainStates(derive)[4].reg;
            MayInstall(r, 1) && Installed(r, 1) == AgainStates(derive)[5].reg
  {
    hide Closed, Begun, Unlinked;
    var r, r' := AgainStates(derive)[4].reg, AgainStates(derive)[5].reg;
    ChildFindsBase(derive);
    hide FoundBase;
    assert Installed(r, 1).base == r'.base && Installed(r, 1).derived == r'.derived;
  }

  lemma ChildFindsBase(derive: Derive)
    ensures var r := AgainStates(derive)[4].reg;
            FoundBase(r, 1) == Ours(0) && ListOf(r, 0) + [1] == [1] && MayInstall(r, 1)
  {
    hide Closed, Begun, Unlinked, Installed;
  }

  lemma BaseCloses(derive: Derive)
    ensures After(AgainStates(derive)[7], AGAIN[7]) == AgainStates(derive)[8]
  {
    hide Installed, Begun;
    var m := AgainStates(derive)[7];
    assert Unlinked(m.reg, 0) == m.reg;
    assert Closed(m) == AgainStates(derive)[8];
  }

  lemma {:induction false} RunByStates(states: seq<Machine>, events: seq<Event>)
    requires |states| == |events| + 1
    requires forall i :: 0 <= i < |events| ==> After(states[i], events[i]) == states[i + 1]
    ensures Run(states[0], events) == states[|events|]
    decreases |events|
  {
    hide After;
    if events != [] {
      RunByStates(states[1..], events[1..]);
    }
  }

  lemma AgainEnds(derive: Derive)
    ensures Run(TwoFactories(derive), AGAIN) == AgainStates(derive)[|AGAIN|]
  {
    hide After;
    forall i | 0 <= i < |AGAIN|
      ensures After(AgainStates(derive)[i], AGAIN[i]) == AgainStates(derive)[i + 1]
    {
      AgainSteps(derive, i);
    }
    RunByStates(AgainStates(derive), AGAIN);
  }

  /** The child is left installed, on a base that is not. Both belong to one plugin: if this was its unload, that
      leaves a factory of the plugin behind. */
  lemma ChildIsLeft(derive: Derive)
    ensures var m := Run(TwoFactories(derive), AGAIN);
            && m.stack == [] && m.reg.installed == {1} && m.reg.base == map[1 := 0] && Dangling(m.reg) == {1}
            && m.reg.info == TwoFactories(derive).reg.info
  {
    hide Run;
    AgainEnds(derive);
  }

  /** Worse: if factory 0 derives by name, it now finds the very child that derives from it, and installing it
      closes a circle of bases. */
  lemma CircleOfBases()
    ensures var m := After(Run(TwoFactories(FromClassname("child")), AGAIN), Install(0));
            0 in m.reg.base && m.reg.base[0] == 1 && 1 in m.reg.base && m.reg.base[1] == 0
  {
    hide Run;
    AgainEnds(FromClassname("child"));
    var r := AgainStates(FromClassname("child"))[|AGAIN|].reg;
    assert FoundBase(r, 0) == Ours(1) && MayInstall(r, 0);
  }
}
