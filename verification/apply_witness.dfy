/**
 Runs of one addon on a small server. They show that the assumptions of the theorems in ApplyHistory can
 be met together, and that the failures described there do happen, for every kind of object that has a
 clean name and is not one of those pruning always looks at.
 */
module ApplyWitness {
  import opened Sequences
  import opened Strings
  import opened Inventory
  import opened Manifests
  import opened ApiServers
  import opened ApplySpec
  import opened ApplyHistory

  const CM := Gvk(CONFIG_MAP, "v1")
  const NS := Gvk(NAMESPACE, "v1")
  const SELECTOR: Selector := map["kubeone.io/addon" := "demo"]
  const KEY := Key("kube-system", "demo-inventory")
  const POLICY := Policy([CM, NS], {"kube-system"}, "kubeone")
  const OPTIONS := Options(Some(SELECTOR), [], Some(KEY), false)
  const LABELLED := Live(SELECTOR, false, map[])
  const LEFTOVER := Ref(CONFIG_MAP, "kube-system", "old")

  /** Not one of the kinds that pruning treats specially here. */
  predicate Ordinary(kind: GroupKind)
  {
    kind != CONFIG_MAP && kind != NAMESPACE && kind != CRD
  }

  predicate Plain(kind: GroupKind)
  {
    Clean(kind) && Ordinary(kind)
  }

  /** A server of three kinds. */
  function Holding(kind: GroupKind, scope: set<GroupKind>, objects: map<Ref, Live>): Server
  {
    Server(objects, {CM, NS, Gvk(kind, "v1")}, map[CONFIG_MAP := "v1", NAMESPACE := "v1", kind := "v1"], scope)
  }

  lemma HoldingIsValid(kind: GroupKind, scope: set<GroupKind>, objects: map<Ref, Live>)
    requires CONFIG_MAP in scope && forall r | r in objects :: r.gk == CONFIG_MAP || r.gk == kind
    ensures Valid(Holding(kind, scope, objects))
  {
  }

  function Inventoried(text: string): Live
  {
    Live(map[MANAGED_BY := "kubeone"], false, map[GROUP_KINDS_KEY := text])
  }

  lemma InventoryIsUnlabelled(text: string)
    ensures !Matches(SELECTOR, Inventoried(text).labels)
  {
    assert "kubeone.io/addon" in SELECTOR && "kubeone.io/addon" !in Inventoried(text).labels;
  }

  lemma PolicyIsSound()
    ensures SoundPolicy(POLICY)
  {
    assert CM in POLICY.defaults && NS in POLICY.defaults;
  }

  // ----- inventory texts -----

  lemma NoKindText()
    ensures IsInventoryText("", {}) && Recorded("") == {}
  {
    var none: seq<string> := [];
    assert Sorted(none) && Distinct(none) && ListsKinds(none, {}) && "" == Join(none, '\n');
  }

  lemma OneKindText(gk: GroupKind)
    ensures IsInventoryText(Show(gk), {gk})
    ensures Clean(gk) ==> Recorded(Show(gk)) == {gk}
  {
    var lines := [Show(gk)];
    assert Sorted(lines) && Distinct(lines) && ListsKinds(lines, {gk}) && Show(gk) == Join(lines, '\n');
    if Clean(gk) { CleanKindsReadBack(Show(gk), {gk}); }
  }

  lemma Writes(s: Server, s': Server, text: string, kinds: set<GroupKind>)
    requires CONFIG_MAP in s.namespaced && IsInventoryText(text, kinds)
    requires s' == s.(objects := s.objects[InventoryRef(KEY) := Inventoried(text)])
    requires InventoryRef(KEY) in s.objects ==> exists t :: s.objects[InventoryRef(KEY)] == Inventoried(t)
    ensures InventoryWritten("kubeone", s, s', KEY, kinds)
  {
    assert Upserted(s, s', InventoryManifest("kubeone", KEY, text));
  }

  // ----- the types looked through -----

  lemma ListsTypes(s: Server, objs: seq<Manifest>, previous: set<GroupKind>, unmapped: set<GroupKind>, gvks: seq<Gvk>)
    requires gvks == POLICY.defaults + ObjectGvks(objs) && DistinctKinds(gvks) && CRD !in GvkKinds(gvks)
    requires previous <= unmapped
    ensures IsPruneList(POLICY, s, objs, previous, unmapped, OPTIONS, gvks)
  {
    assert GvkKinds(OPTIONS.pruneTypes) == {};
    forall g ensures g in gvks <==> FirstOf(gvks, g.gk) == Some(g) {
      if g in gvks { FirstIsOnly(gvks, g); }
    }
  }

  lemma {:induction false} FirstIsOnly(gvks: seq<Gvk>, g: Gvk)
    requires DistinctKinds(gvks) && g in gvks
    ensures FirstOf(gvks, g.gk) == Some(g)
  {
    if gvks[0] != g { FirstIsOnly(gvks[1..], g); }
  }

  // ----- a run that applies one object and prunes another one -----

  function Object(kind: GroupKind): Manifest
  {
    Manifest(Gvk(kind, "v1"), "kube-system", "new", SELECTOR, map[])
  }

  /** A run that applies the object of `kind` and prunes `stale`; the server holds `started` at first. */
  datatype Demo = Demo(kind: GroupKind, scope: set<GroupKind>, started: map<Ref, Live>, stale: Ref)
  {
    function Stored(): Ref { Canonical(scope, Object(kind)) }
    function Types(): seq<Gvk> { [CM, NS, Gvk(kind, "v1")] }
    function Before(): Server { Holding(kind, scope, started) }
    function Prepared(): Server
    {
      Holding(kind, scope, started[InventoryRef(KEY) := Inventoried(Show(kind))])
    }
    function Applied(): Server { Prepared().(objects := Prepared().objects[Stored() := LABELLED]) }
    function After(): Server { Applied().(objects := Applied().objects - {stale}) }
    function Run(): ApplySpec.Run { ApplySpec.Run(true, Prepared(), Applied(), After(), {}, {}, Types()) }
    function Result(): ApplySpec.Result { ApplySpec.Result([Declared(scope, Object(kind))], [], [stale]) }

    ghost predicate Fits()
    {
      && Ordinary(kind) && CONFIG_MAP in scope
      && (forall r | r in started :: r.gk == CONFIG_MAP)
      && InventoryRef(KEY) !in started && stale != InventoryRef(KEY)
      && Doomed(POLICY, Run(), [Object(kind)], OPTIONS) == {stale}
    }
  }

  lemma OneObjectOrder(m: Manifest, scope: set<GroupKind>)
    ensures InApplyOrder([m]) == [m] && DeclaredAll(scope, InApplyOrder([m])) == [Declared(scope, m)]
  {
    OneObjectPhase(m, 0);
    OneObjectPhase(m, 1);
    OneObjectPhase(m, 2);
  }

  lemma OneObjectPhase(m: Manifest, p: nat)
    ensures Phase([m], p) == if ApplyPriority(m) == p then [m] else []
  {
    assert [m][..0] == [] && Phase([], p) == [];
  }

  /** Creating an object that is not there yet. */
  lemma Creates(s: Server, s': Server, m: Manifest)
    requires m.namespace != "" && Canonical(s.namespaced, m) !in s.objects
    requires s' == s.(objects := s.objects[Canonical(s.namespaced, m) := Live(m.labels, false, m.data)])
    ensures Settled(s, s', [m]) && AllWritten(s', [m], [m])
  {
    assert m in [m] && Defaulted(s.namespaced, m) == m;
    assert Upserted(s, s', m);
    UpsertSettles(s, s', m, [m]);
  }

  lemma KindOf(m: Manifest)
    ensures Kinds([m]) == {m.gvk.gk}
  {
    assert m in [m];
  }

  lemma DemoPrepares(d: Demo)
    requires d.Fits()
    ensures Prepared(POLICY, d.Before(), d.Prepared(), [Object(d.kind)], OPTIONS, {}, false)
  {
    OneKindText(d.kind);
    Writes(d.Before(), d.Prepared(), Show(d.kind), {d.kind});
    KindOf(Object(d.kind));
    assert RecordedKinds(d.Before(), KEY) + {d.kind} == {d.kind};
  }

  lemma DemoIsValid(d: Demo)
    requires d.Fits()
    ensures Valid(d.Before()) && Valid(d.Applied()) && Valid(d.After())
  {
    HoldingIsValid(d.kind, d.scope, d.Before().objects);
    HoldingIsValid(d.kind, d.scope, d.Applied().objects);
    HoldingIsValid(d.kind, d.scope, d.After().objects);
  }

  lemma DemoApplies(d: Demo)
    requires d.Fits()
    ensures Settled(d.Prepared(), d.Applied(), [Object(d.kind)])
    ensures FullyApplied(d.Run(), [Object(d.kind)], OPTIONS, d.Result())
  {
    var m := Object(d.kind);
    assert d.Stored().gk == d.kind && d.Stored() !in d.Prepared().objects;
    Creates(d.Prepared(), d.Applied(), m);
    OneObjectOrder(m, d.scope);
  }

  lemma DemoTypes(d: Demo)
    requires Ordinary(d.kind)
    ensures IsPruneList(POLICY, d.Applied(), [Object(d.kind)], {}, {}, OPTIONS, d.Types())
    ensures Reached(d.Applied(), d.Types()) == {CONFIG_MAP, NAMESPACE, d.kind}
  {
    var t := d.Types();
    assert t == POLICY.defaults + ObjectGvks([Object(d.kind)]);
    assert t[0] in t && t[1] in t && t[2] in t;
    ListsTypes(d.Applied(), [Object(d.kind)], {}, {}, t);
  }

  lemma DemoPrunes(d: Demo)
    requires d.Fits()
    ensures FullyPruned(POLICY, d.Run(), [Object(d.kind)], OPTIONS, d.Result())
    ensures PruneStage(POLICY, d.Run(), [Object(d.kind)], OPTIONS, d.Result())
  {
    DemoApplies(d);
    DemoTypes(d);
    var members := Members([d.stale]);
    assert [d.stale][0] in [d.stale] && members == {d.stale};
    assert Thinned(d.Applied(), d.After(), {d.stale}) && Gone(d.After(), d.stale);
  }

  lemma DemoFinishes(d: Demo)
    requires d.Fits()
    ensures InventoryWritten("kubeone", d.After(), d.After(), KEY, Kinds([Object(d.kind)]))
  {
    OneKindText(d.kind);
    KindOf(Object(d.kind));
    var s := d.After();
    assert s.objects == s.objects[InventoryRef(KEY) := Inventoried(Show(d.kind))];
    Writes(s, s, Show(d.kind), {d.kind});
  }

  lemma DemoReports(d: Demo)
    ensures Members(d.Result().migrated) <= Members(d.Result().applied) <= Spared(d.scope, [Object(d.kind)], None)
  {
    var m := Object(d.kind);
    assert m in [m];
    var members := Members(d.Result().applied);
    assert forall r :: r in members <==> r == Declared(d.scope, m);
  }

  lemma DemoRuns(d: Demo)
    requires d.Fits()
    ensures ApplyRun(POLICY, d.Before(), d.Run(), d.After(), [Object(d.kind)], OPTIONS, d.Result(), false)
    ensures Valid(d.Before()) && Valid(d.After())
  {
    var objs := [Object(d.kind)];
    DemoIsValid(d);
    assert Prepared(POLICY, d.Before(), d.Run().prepared, objs, OPTIONS, {}, false) by { DemoPrepares(d); }
    assert Settled(d.Run().prepared, d.Run().applied, objs) && FullyApplied(d.Run(), objs, OPTIONS, d.Result()) by {
      DemoApplies(d);
    }
    assert FullyPruned(POLICY, d.Run(), objs, OPTIONS, d.Result())
           && PruneStage(POLICY, d.Run(), objs, OPTIONS, d.Result()) by {
      DemoPrunes(d);
    }
    assert FinalStage(POLICY, d.Run(), d.After(), objs, OPTIONS, d.Result(), false) by { DemoFinishes(d); }
    DemoReports(d);
  }

  /** The runs are used as the theorems ask: clean names, an untouched inventory, truthful discovery. */
  lemma DemoIsWellUsed(d: Demo)
    requires d.Fits() && Clean(d.kind)
    ensures WellUsed(POLICY, d.Before(), d.Run(), [Object(d.kind)], OPTIONS, SELECTOR, KEY)
    ensures Labelled([Object(d.kind)], SELECTOR)
  {
    var m := Object(d.kind);
    assert m.labels == SELECTOR && Clean(m.gvk.gk) && Canonical(d.scope, m).gk != CONFIG_MAP;
    assert Orderly(d.scope, [m], KEY);
    DemoDiscovers(d);
  }

  lemma DemoDiscovers(d: Demo)
    ensures HonestDiscovery(POLICY, d.Run(), OPTIONS)
  {
    assert CM in d.Applied().served && NS in d.Applied().served;
  }

  lemma DemoStartsCovered(d: Demo)
    requires d.Fits()
    ensures SoundPolicy(POLICY) && Invariant(POLICY, d.Before(), SELECTOR, KEY)
  {
    PolicyIsSound();
    DemoIsValid(d);
    assert RecordedKinds(d.Before(), KEY) == {};
  }

  // ----- the assumptions of the theorems hold together -----

  function Pruning(kind: GroupKind): Demo
  {
    Demo(kind, {CONFIG_MAP, kind}, map[LEFTOVER := LABELLED], LEFTOVER)
  }

  lemma SparedByDemo(d: Demo)
    ensures Spared(d.scope, [Object(d.kind)], OPTIONS.inventory)
            == {Declared(d.scope, Object(d.kind)), InventoryRef(KEY)}
  {
    var m := Object(d.kind);
    assert m in [m];
  }

  lemma PruningFits(kind: GroupKind)
    requires Ordinary(kind)
    ensures Pruning(kind).Fits()
  {
    var d := Pruning(kind);
    DemoTypes(d);
    SparedByDemo(d);
    InventoryIsUnlabelled(Show(kind));
    assert !IsProtected(POLICY, LEFTOVER);
  }

  lemma PruningSwaps(kind: GroupKind)
    requires Ordinary(kind)
    ensures var d := Pruning(kind);
            && WellScoped(d.scope, [Object(kind)])
            && Owned(d.Before(), SELECTOR, LEFTOVER) && Gone(d.After(), LEFTOVER)
            && Owned(d.After(), SELECTOR, d.Stored())
  {
    var d := Pruning(kind);
    assert d.Stored().gk == kind && d.Stored() != LEFTOVER;
    assert d.After().objects[d.Stored()] == LABELLED;
  }

  /** A run that meets every assumption of the theorems, applies an object and prunes a leftover. */
  lemma PruningRunExists(kind: GroupKind)
    requires Plain(kind)
    ensures var d, objs := Pruning(kind), [Object(kind)];
            && SoundPolicy(POLICY) && Invariant(POLICY, d.Before(), SELECTOR, KEY)
            && ApplyRun(POLICY, d.Before(), d.Run(), d.After(), objs, OPTIONS, d.Result(), false)
            && WellUsed(POLICY, d.Before(), d.Run(), objs, OPTIONS, SELECTOR, KEY)
            && WellScoped(d.scope, objs) && Labelled(objs, SELECTOR)
            && Owned(d.Before(), SELECTOR, LEFTOVER) && Gone(d.After(), LEFTOVER)
            && Owned(d.After(), SELECTOR, d.Stored())
  {
    PruningFits(kind);
    DemoRuns(Pruning(kind));
    DemoStartsCovered(Pruning(kind));
    DemoIsWellUsed(Pruning(kind));
    PruningSwaps(kind);
  }

  // ----- an Apply that deletes what it has just applied -----

  /** The kind is cluster-scoped, and the object carries a namespace. */
  function SelfPruning(kind: GroupKind): Demo
  {
    Demo(kind, {CONFIG_MAP}, map[], Ref(kind, "", "new"))
  }

  lemma SelfPruningFits(kind: GroupKind)
    requires Ordinary(kind)
    ensures SelfPruning(kind).Fits()
  {
    var d := SelfPruning(kind);
    DemoTypes(d);
    SparedByDemo(d);
    InventoryIsUnlabelled(Show(kind));
    assert Declared(d.scope, Object(kind)).namespace == "kube-system";
    assert !IsProtected(POLICY, d.stale);
  }

  /** The object is applied, reported as applied, and pruned, in one successful run. */
  lemma SelfPruningRunExists(kind: GroupKind)
    requires Plain(kind)
    ensures var d, objs := SelfPruning(kind), [Object(kind)];
            && SoundPolicy(POLICY) && Invariant(POLICY, d.Before(), SELECTOR, KEY)
            && ApplyRun(POLICY, d.Before(), d.Run(), d.After(), objs, OPTIONS, d.Result(), false)
            && WellUsed(POLICY, d.Before(), d.Run(), objs, OPTIONS, SELECTOR, KEY) && Labelled(objs, SELECTOR)
            && SelfPruned(POLICY, d.scope, objs, OPTIONS, Object(kind))
            && d.Stored() in d.Result().pruned && Alive(d.Applied(), d.Stored()) && d.Stored() !in d.After().objects
  {
    var d := SelfPruning(kind);
    SelfPruningFits(kind);
    DemoRuns(d);
    DemoStartsCovered(d);
    DemoIsWellUsed(d);
    assert Object(kind) in [Object(kind)] && d.stale in d.Result().pruned;
    ReportedPrunedIsSelfPruned(
      POLICY, d.Before(), d.Run(), d.After(), [Object(kind)], OPTIONS, d.Result(), false, Object(kind));
  }

  /** ClusterRoles are among these kinds. */
  lemma ClusterRoleIsPlain(gk: GroupKind)
    requires gk.group == "rbac.authorization.k8s.io" && gk.kind == "ClusterRole"
    ensures Plain(gk)
  {
    CleanKind(gk);
  }

  /** A kind of a named group is clean if both names are plain. */
  lemma CleanKind(gk: GroupKind)
    requires gk.group != "" && gk.kind != "" && '.' !in gk.kind && '\n' !in gk.kind && '\n' !in gk.group
    requires !IsSpace(gk.kind[0]) && !IsSpace(gk.group[|gk.group| - 1])
    ensures Clean(gk)
  {
    var name := gk.kind + "." + gk.group;
    assert name[0] == gk.kind[0] && name[|name| - 1] == gk.group[|gk.group| - 1];
    TrimKeeps(name, IsSpace);
  }

  // ----- leftovers that are forgotten -----

  function Leftover(kind: GroupKind): Ref
  {
    Ref(kind, "kube-system", "gear")
  }

  /** The addon has an object of the kind, which its inventory records as `text`. */
  function Remembering(kind: GroupKind, text: string): Server
  {
    Holding(kind, {CONFIG_MAP, kind}, map[Leftover(kind) := LABELLED, InventoryRef(KEY) := Inventoried(text)])
  }

  function Skipping(kind: GroupKind): Run
  {
    var s := Remembering(kind, Show(kind));
    Run(true, s, s, s, {kind}, {kind}, [CM, NS])
  }

  const NOTHING := Result([], [], [])

  lemma KindRecorded(kind: GroupKind)
    requires Plain(kind)
    ensures Valid(Remembering(kind, Show(kind))) && RecordedKinds(Remembering(kind, Show(kind)), KEY) == {kind}
    ensures SoundPolicy(POLICY) && Invariant(POLICY, Remembering(kind, Show(kind)), SELECTOR, KEY)
  {
    OneKindText(kind);
    HoldingIsValid(kind, {CONFIG_MAP, kind}, Remembering(kind, Show(kind)).objects);
    RecordedIsCovered(Remembering(kind, Show(kind)), kind);
  }

  lemma RecordedIsCovered(s: Server, kind: GroupKind)
    requires Valid(s) && RecordedKinds(s, KEY) == {kind} && Clean(kind)
    requires forall r | r in s.objects :: r.gk == CONFIG_MAP || r.gk == kind
    ensures SoundPolicy(POLICY) && Invariant(POLICY, s, SELECTOR, KEY)
  {
    PolicyIsSound();
  }

  lemma SkippingPrepares(kind: GroupKind)
    requires Plain(kind)
    ensures var s := Remembering(kind, Show(kind)); Prepared(POLICY, s, s, [], OPTIONS, {kind}, false)
  {
    var s := Remembering(kind, Show(kind));
    KindRecorded(kind);
    OneKindText(kind);
    assert RecordedKinds(s, KEY) + Kinds([]) == {kind};
    assert s.objects == s.objects[InventoryRef(KEY) := Inventoried(Show(kind))];
    Writes(s, s, Show(kind), {kind});
  }

  lemma SkippingPrunesNothing(kind: GroupKind)
    requires Ordinary(kind)
    ensures FullyApplied(Skipping(kind), [], OPTIONS, NOTHING)
            && FullyPruned(POLICY, Skipping(kind), [], OPTIONS, NOTHING)
    ensures PruneStage(POLICY, Skipping(kind), [], OPTIONS, NOTHING)
  {
    var s := Remembering(kind, Show(kind));
    assert POLICY.defaults + ObjectGvks([]) == [CM, NS];
    ListsTypes(s, [], {kind}, {kind}, [CM, NS]);
    InventoryIsUnlabelled(Show(kind));
    assert kind !in Reached(s, [CM, NS]);
    assert Doomed(POLICY, Skipping(kind), [], OPTIONS) == {} == Members(NOTHING.pruned);
    assert DeclaredAll(s.namespaced, InApplyOrder([])) == [];
  }

  lemma SkippingFinishes(kind: GroupKind)
    ensures InventoryWritten("kubeone", Remembering(kind, Show(kind)), Remembering(kind, ""), KEY, Kinds([]))
  {
    var s, s' := Remembering(kind, Show(kind)), Remembering(kind, "");
    NoKindText();
    assert Kinds([]) == {};
    assert s'.objects == s.objects[InventoryRef(KEY) := Inventoried("")];
    Writes(s, s', "", {});
  }

  lemma SkippingRuns(kind: GroupKind)
    requires Plain(kind)
    ensures ApplyRun(POLICY, Remembering(kind, Show(kind)), Skipping(kind), Remembering(kind, ""), [], OPTIONS,
                     NOTHING, false)
  {
    var s, s' := Remembering(kind, Show(kind)), Remembering(kind, "");
    assert Valid(s) by { KindRecorded(kind); }
    SkippingPrepares(kind);
    SkippingPrunesNothing(kind);
    assert FinalStage(POLICY, Skipping(kind), s', [], OPTIONS, NOTHING, false) by { SkippingFinishes(kind); }
    SettledRefl(s, []);
  }

  /** The lookup of a recorded kind fails, the run succeeds, and the object is left without being recorded. */
  lemma SkippingRunExists(kind: GroupKind)
    requires Plain(kind)
    ensures var s, s' := Remembering(kind, Show(kind)), Remembering(kind, "");
            && SoundPolicy(POLICY) && Invariant(POLICY, s, SELECTOR, KEY) && Orderly(s.namespaced, [], KEY)
            && ApplyRun(POLICY, s, Skipping(kind), s', [], OPTIONS, NOTHING, false)
            && !SkipsNoLeftover(POLICY, s, Skipping(kind), [], OPTIONS, SELECTOR)
            && Owned(s', SELECTOR, Leftover(kind)) && !Covered(POLICY, s', SELECTOR, KEY)
  {
    KindRecorded(kind);
    SkippingRuns(kind);
    SkippingIsLost(kind);
  }

  lemma SkippingIsLost(kind: GroupKind)
    requires Plain(kind)
    ensures !SkipsNoLeftover(POLICY, Remembering(kind, Show(kind)), Skipping(kind), [], OPTIONS, SELECTOR)
    ensures Owned(Remembering(kind, ""), SELECTOR, Leftover(kind))
            && !Covered(POLICY, Remembering(kind, ""), SELECTOR, KEY)
  {
    NoKindText();
    assert RecordedKinds(Remembering(kind, ""), KEY) == {};
    KindIsNotKnown(kind);
    assert Owned(Remembering(kind, Show(kind)), SELECTOR, Leftover(kind));
    assert Owned(Remembering(kind, ""), SELECTOR, Leftover(kind));
    assert !Looked(Skipping(kind), OPTIONS, kind);
  }

  lemma KindIsNotKnown(kind: GroupKind)
    requires Ordinary(kind)
    ensures kind !in Kinds([]) + AlwaysKnown(POLICY)
  {
  }

  // ----- a Delete that forgets -----

  const DELETED := Manifest(CM, "kube-system", "new", SELECTOR, map[])

  /** Next to the object of the kind there is the one that the manifest still names. */
  function Installed(kind: GroupKind): Server
  {
    var s := Remembering(kind, Show(kind));
    s.(objects := s.objects[RefOf(DELETED) := LABELLED])
  }

  function Uninstalled(kind: GroupKind): Server
  {
    var s := Remembering(kind, Show(kind));
    s.(objects := s.objects - {InventoryRef(KEY)})
  }

  lemma InstalledIsCovered(kind: GroupKind)
    requires Plain(kind)
    ensures SoundPolicy(POLICY) && Invariant(POLICY, Installed(kind), SELECTOR, KEY)
  {
    HoldingIsValid(kind, {CONFIG_MAP, kind}, Installed(kind).objects);
    assert RecordedKinds(Installed(kind), KEY) == {kind} by {
      assert Find(Installed(kind), InventoryRef(KEY)) == Find(Remembering(kind, Show(kind)), InventoryRef(KEY));
      KindRecorded(kind);
    }
    RecordedIsCovered(Installed(kind), kind);
  }

  lemma DeletesTheRest(kind: GroupKind)
    requires Ordinary(kind)
    ensures DeleteTargets(Installed(kind), [DELETED], Some(SELECTOR)) == {RefOf(DELETED)}
    ensures Thinned(Installed(kind), Remembering(kind, Show(kind)), {RefOf(DELETED)})
    ensures Gone(Remembering(kind, Show(kind)), RefOf(DELETED))
  {
    var s := Installed(kind);
    assert DELETED in [DELETED] && DELETED.gvk in s.served && Canonical(s.namespaced, DELETED) == RefOf(DELETED);
    assert RefOf(DELETED) !in Remembering(kind, Show(kind)).objects;
  }

  lemma UninstalledIsUncovered(kind: GroupKind)
    requires Ordinary(kind)
    ensures Owned(Uninstalled(kind), SELECTOR, Leftover(kind)) && !Covered(POLICY, Uninstalled(kind), SELECTOR, KEY)
  {
    KindIsNotKnown(kind);
    assert RecordedKinds(Uninstalled(kind), KEY) == {};
    assert Uninstalled(kind).objects[Leftover(kind)] == LABELLED;
  }

  lemma DeleteForgets(kind: GroupKind)
    requires Ordinary(kind)
    ensures DeleteTargets(Installed(kind), [DELETED], Some(SELECTOR)) == {RefOf(DELETED)}
    ensures DeleteRun(Installed(kind), Remembering(kind, Show(kind)), Uninstalled(kind), [DELETED], Some(SELECTOR),
                      Some(KEY), false)
  {
    DeletesTheRest(kind);
  }

  /** A Delete of a manifest that no longer names the object removes the inventory and leaves the object. */
  lemma ForgettingDeleteExists(kind: GroupKind)
    requires Plain(kind)
    ensures SoundPolicy(POLICY) && Invariant(POLICY, Installed(kind), SELECTOR, KEY)
    ensures DeleteTargets(Installed(kind), [DELETED], Some(SELECTOR)) == {RefOf(DELETED)}
    ensures DeleteRun(Installed(kind), Remembering(kind, Show(kind)), Uninstalled(kind), [DELETED], Some(SELECTOR),
                      Some(KEY), false)
    ensures Owned(Uninstalled(kind), SELECTOR, Leftover(kind)) && !Covered(POLICY, Uninstalled(kind), SELECTOR, KEY)
  {
    InstalledIsCovered(kind);
    UninstalledIsUncovered(kind);
    DeleteForgets(kind);
  }
}
