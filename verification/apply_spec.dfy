/**
 What one Apply may do to the API server (pkg/nativeclient/applier.go, inventory.go), as relations
 between server states. The Applier's methods are proved against these; the theorems about whole
 histories of Apply calls are proved from them.
 */
module ApplySpec {
  import opened Sequences
  import opened Strings
  import opened Inventory
  import opened Manifests
  import opened ApiServers

  datatype Key = Key(namespace: string, name: string)

  datatype Options = Options(
    selector: Option<Selector>, pruneTypes: seq<Gvk>, inventory: Option<Key>, dryRun: bool)

  datatype Result = Result(applied: seq<Ref>, migrated: seq<Ref>, pruned: seq<Ref>)

  /** The types pruned by default, the namespaces never pruned, and the field manager's name. */
  datatype Policy = Policy(defaults: seq<Gvk>, protectedNames: set<string>, manager: string)

  const GROUP_KINDS_KEY := "groupKinds"
  const MANAGED_BY := "app.kubernetes.io/managed-by"

  function Kinds(objs: seq<Manifest>): set<GroupKind>
  {
    set m | m in objs :: m.gvk.gk
  }

  function GvkKinds(gvks: seq<Gvk>): set<GroupKind>
  {
    set g | g in gvks :: g.gk
  }

  function ObjectGvks(objs: seq<Manifest>): seq<Gvk>
  {
    seq(|objs|, i requires 0 <= i < |objs| => objs[i].gvk)
  }

  /** A namespaced object without a namespace goes to "default". */
  function Defaulted(scope: set<GroupKind>, m: Manifest): Manifest
  {
    if m.namespace == "" && m.gvk.gk in scope then m.(namespace := "default") else m
  }

  /** The reference Apply remembers for an object it applied. */
  function Declared(scope: set<GroupKind>, m: Manifest): Ref
  {
    RefOf(Defaulted(scope, m))
  }

  /** The reference under which the server stores that object. */
  function Canonical(scope: set<GroupKind>, m: Manifest): Ref
  {
    Identity(scope, Defaulted(scope, m))
  }

  function DeclaredAll(scope: set<GroupKind>, objs: seq<Manifest>): seq<Ref>
  {
    seq(|objs|, i requires 0 <= i < |objs| => Declared(scope, objs[i]))
  }

  function InventoryRef(key: Key): Ref
  {
    Ref(CONFIG_MAP, key.namespace, key.name)
  }

  /** The applied set that pruning spares. */
  function Spared(scope: set<GroupKind>, objs: seq<Manifest>, inventory: Option<Key>): set<Ref>
  {
    (set m | m in objs :: Declared(scope, m)) + (if inventory.Some? then {InventoryRef(inventory.value)} else {})
  }

  /** The kinds the inventory ConfigMap records; none when it is missing. */
  function RecordedKinds(s: Server, key: Key): set<GroupKind>
  {
    var r := InventoryRef(key);
    if r in s.objects && GROUP_KINDS_KEY in s.objects[r].data
    then Recorded(s.objects[r].data[GROUP_KINDS_KEY]) else {}
  }

  function InventoryManifest(manager: string, key: Key, text: string): Manifest
  {
    Manifest(Gvk(CONFIG_MAP, "v1"), key.namespace, key.name,
             map[MANAGED_BY := manager], map[GROUP_KINDS_KEY := text])
  }

  ghost predicate InventoryWritten(manager: string, s: Server, s': Server, key: Key, kinds: set<GroupKind>)
  {
    exists text :: IsInventoryText(text, kinds) && Upserted(s, s', InventoryManifest(manager, key, text))
  }

  // ----- applying -----

  /** The live object at `r` carries the labels and the data of the manifest object `m` stored there. */
  ghost predicate Wrote(s: Server, m: Manifest, r: Ref)
  {
    && Canonical(s.namespaced, m) == r && r in s.objects
    && Matches(m.labels, s.objects[r].labels) && Matches(m.data, s.objects[r].data)
  }

  ghost predicate WrittenBySome(s: Server, objs: seq<Manifest>, r: Ref)
  {
    exists m :: m in objs && Wrote(s, m, r)
  }

  /**
   Between `a` and `b` only objects of the manifest were created or changed, none was removed or
   became terminating, and the server serves at least what it served.
   */
  ghost predicate Settled(a: Server, b: Server, objs: seq<Manifest>)
  {
    && a.namespaced == b.namespaced && a.served <= b.served && a.preferred.Keys <= b.preferred.Keys
    && (forall r | r in a.objects :: r in b.objects && b.objects[r].terminating == a.objects[r].terminating)
    && (forall r | r in b.objects :: Find(a, r) == Some(b.objects[r]) || WrittenBySome(b, objs, r))
    && (forall r | r in b.objects && r !in a.objects :: !b.objects[r].terminating)
  }

  ghost predicate AllWritten(s: Server, done: seq<Manifest>, objs: seq<Manifest>)
  {
    forall m | m in done :: WrittenBySome(s, objs, Canonical(s.namespaced, m))
  }

  lemma SettledRefl(a: Server, objs: seq<Manifest>)
    ensures Settled(a, a, objs)
  {
  }

  lemma WrittenStays(b: Server, c: Server, objs: seq<Manifest>, r: Ref)
    requires Settled(b, c, objs) && WrittenBySome(b, objs, r)
    ensures WrittenBySome(c, objs, r)
  {
    var m :| m in objs && Wrote(b, m, r);
    assert r in c.objects;
    if Find(b, r) == Some(c.objects[r]) {
      assert Wrote(c, m, r);
    }
  }

  lemma SettledTransitive(a: Server, b: Server, c: Server, objs: seq<Manifest>)
    requires Settled(a, b, objs) && Settled(b, c, objs)
    ensures Settled(a, c, objs)
  {
    forall r | r in c.objects ensures Find(a, r) == Some(c.objects[r]) || WrittenBySome(c, objs, r) {
      if Find(b, r) == Some(c.objects[r]) && WrittenBySome(b, objs, r) {
        WrittenStays(b, c, objs, r);
      }
    }
  }

  lemma AllWrittenStays(b: Server, c: Server, done: seq<Manifest>, objs: seq<Manifest>)
    requires Settled(b, c, objs) && AllWritten(b, done, objs)
    ensures AllWritten(c, done, objs)
  {
    forall m | m in done ensures WrittenBySome(c, objs, Canonical(c.namespaced, m)) {
      WrittenStays(b, c, objs, Canonical(b.namespaced, m));
    }
  }

  lemma UpsertSettles(a: Server, b: Server, m: Manifest, objs: seq<Manifest>)
    requires m in objs && Upserted(a, b, Defaulted(a.namespaced, m))
    ensures Settled(a, b, objs)
    ensures WrittenBySome(b, objs, Canonical(b.namespaced, m))
  {
    var r := Canonical(a.namespaced, m);
    assert Wrote(b, m, r);
  }

  /**
   Every type of the manifest is served when its turn comes: that of the CRDs from the start, the others once
   the CRDs are established, which a dry run does not do.
   */
  ghost predicate Servable(s: Server, objs: seq<Manifest>, dryRun: bool, established: map<GroupKind, string>)
  {
    var later := if !dryRun && CRD in Kinds(objs) then Establish(s, established) else s;
    forall m | m in objs :: m.gvk in if m.gvk.gk == CRD then s.served else later.served
  }

  /** The inventory ConfigMap can be written. */
  predicate InventoryServable(s: Server, inventory: Option<Key>)
  {
    inventory.Some? ==> Gvk(CONFIG_MAP, "v1") in s.served && inventory.value.namespace != ""
  }

  // ----- pruning -----

  function FirstOf(gvks: seq<Gvk>, gk: GroupKind): (r: Option<Gvk>)
    ensures r.Some? ==> r.value in gvks && r.value.gk == gk
    ensures r.None? <==> gk !in GvkKinds(gvks)
  {
    if gvks == [] then None
    else if gvks[0].gk == gk then Some(gvks[0])
    else FirstOf(gvks[1..], gk)
  }

  /**
   The type under which a kind is looked through for stale objects. Requested types win, CRDs are
   looked at only when requested, and a recorded kind is looked up at the server, which may fail.
   */
  function PruneTypeOf(
    policy: Policy, s: Server, objs: seq<Manifest>, previous: set<GroupKind>, unmapped: set<GroupKind>,
    opts: Options, gk: GroupKind): Option<Gvk>
  {
    if gk in GvkKinds(opts.pruneTypes) then FirstOf(opts.pruneTypes, gk)
    else if gk == CRD then None
    else if gk in GvkKinds(policy.defaults + ObjectGvks(objs)) then FirstOf(policy.defaults + ObjectGvks(objs), gk)
    else if gk in previous && gk !in unmapped && gk in s.preferred then Some(Gvk(gk, s.preferred[gk]))
    else None
  }

  /** The list of types to look through holds each kind once, under its prune type. */
  ghost predicate IsPruneList(
    policy: Policy, s: Server, objs: seq<Manifest>, previous: set<GroupKind>, unmapped: set<GroupKind>,
    opts: Options, gvks: seq<Gvk>)
  {
    && (forall g :: g in gvks <==> PruneTypeOf(policy, s, objs, previous, unmapped, opts, g.gk) == Some(g))
    && DistinctKinds(gvks)
  }

  ghost predicate DistinctKinds(gvks: seq<Gvk>)
  {
    forall i, j | 0 <= i < j < |gvks| :: gvks[i].gk != gvks[j].gk
  }

  /** The kinds among `gvks` that the server really lists; a type it does not serve is skipped. */
  function Reached(s: Server, gvks: seq<Gvk>): set<GroupKind>
  {
    set g | g in gvks && g in s.served :: g.gk
  }

  predicate IsProtected(policy: Policy, r: Ref)
  {
    r.gk == NAMESPACE && r.name in policy.protectedNames
  }

  /** The objects pruning deletes: live, selected, of a reached kind, neither spared nor protected. */
  function Stale(policy: Policy, s: Server, reached: set<GroupKind>, spared: set<Ref>, sel: Selector): set<Ref>
  {
    set r | r in s.objects && r.gk in reached && Matches(sel, s.objects[r].labels)
            && !s.objects[r].terminating && r !in spared && !IsProtected(policy, r)
  }

  ghost predicate Gone(s: Server, r: Ref)
  {
    r in s.objects ==> s.objects[r].terminating
  }

  /** `s'` is `s` with some of the `doomed` objects removed or marked for deletion. */
  ghost predicate Thinned(s: Server, s': Server, doomed: set<Ref>)
  {
    && s'.served == s.served && s'.preferred == s.preferred && s'.namespaced == s.namespaced
    && (forall r | r in s'.objects ::
          && r in s.objects
          && (s'.objects[r] == s.objects[r]
              || (r in doomed && s'.objects[r] == s.objects[r].(terminating := true))))
    && (forall r | r in s.objects :: r in s'.objects || r in doomed)
  }

  // ----- one Apply -----

  /** The states an Apply went through, and what it learned on the way; `began` once the inventory was ready. */
  datatype Run = Run(
    began: bool, prepared: Server, applied: Server, pruned: Server, previous: set<GroupKind>, unmapped: set<GroupKind>,
    gvks: seq<Gvk>)

  /** Before anything is applied, the inventory is unchanged or holds the old and the new kinds. */
  ghost predicate Prepared(
    policy: Policy, s: Server, s': Server, objs: seq<Manifest>, opts: Options, previous: set<GroupKind>, failed: bool)
  {
    match opts.inventory
    case None => s' == s && previous == {} && !failed
    case Some(key) =>
      && (s' == s
          || (!opts.dryRun && InventoryWritten(policy.manager, s, s', key, RecordedKinds(s, key) + Kinds(objs))))
      && (!failed ==> previous == RecordedKinds(s, key))
      && (!failed && !opts.dryRun ==>
            InventoryWritten(policy.manager, s, s', key, RecordedKinds(s, key) + Kinds(objs)))
  }

  ghost function Doomed(policy: Policy, run: Run, objs: seq<Manifest>, opts: Options): set<Ref>
  {
    if opts.selector.None? then {}
    else Stale(policy, run.applied, Reached(run.applied, run.gvks),
               Spared(run.applied.namespaced, objs, opts.inventory), opts.selector.value)
  }

  ghost predicate FullyApplied(run: Run, objs: seq<Manifest>, opts: Options, result: Result)
  {
    && result.applied == DeclaredAll(run.applied.namespaced, InApplyOrder(objs))
    && (forall m | m in objs :: m.gvk in run.applied.served)
    && (!opts.dryRun ==> AllWritten(run.applied, objs, objs))
  }

  ghost predicate FullyPruned(policy: Policy, run: Run, objs: seq<Manifest>, opts: Options, result: Result)
  {
    && Members(result.pruned) == Doomed(policy, run, objs, opts)
    && (!opts.dryRun ==> forall r | r in Doomed(policy, run, objs, opts) :: Gone(run.pruned, r))
    && (opts.selector.Some? ==>
          IsPruneList(policy, run.applied, objs, run.previous, run.unmapped, opts, run.gvks))
  }

  /** Pruning starts only after every object was applied; only it deletes. */
  ghost predicate PruneStage(policy: Policy, run: Run, objs: seq<Manifest>, opts: Options, result: Result)
  {
    && Thinned(run.applied, run.pruned, Doomed(policy, run, objs, opts))
    && Members(result.pruned) <= Doomed(policy, run, objs, opts)
    && (!opts.dryRun ==> forall r | r in result.pruned :: Gone(run.pruned, r))
    && (run.pruned != run.applied || result.pruned != [] ==>
          FullyApplied(run, objs, opts, result) && opts.selector.Some?
          && IsPruneList(policy, run.applied, objs, run.previous, run.unmapped, opts, run.gvks))
  }

  /** The inventory drops the old kinds only after everything was applied and pruned. */
  ghost predicate FinalStage(
    policy: Policy, run: Run, s': Server, objs: seq<Manifest>, opts: Options, result: Result, failed: bool)
  {
    && (!failed ==> FullyApplied(run, objs, opts, result) && FullyPruned(policy, run, objs, opts, result))
    && (s' == run.pruned
        || (&& opts.inventory.Some? && opts.selector.Some? && !opts.dryRun
            && FullyApplied(run, objs, opts, result) && FullyPruned(policy, run, objs, opts, result)
            && InventoryWritten(policy.manager, run.pruned, s', opts.inventory.value, Kinds(objs))))
    && (!failed && opts.inventory.Some? && opts.selector.Some? && !opts.dryRun ==>
          InventoryWritten(policy.manager, run.pruned, s', opts.inventory.value, Kinds(objs)))
  }

  /** Everything one call of Apply may have done, whether or not it failed somewhere. */
  ghost predicate ApplyRun(
    policy: Policy, s: Server, run: Run, s': Server, objs: seq<Manifest>, opts: Options, result: Result, failed: bool)
  {
    && Prepared(policy, s, run.prepared, objs, opts, run.previous, !run.began)
    && (!run.began ==> failed && run.applied == run.prepared && run.pruned == run.prepared && s' == run.prepared)
    && Settled(run.prepared, run.applied, objs) && Valid(run.applied)
    && PruneStage(policy, run, objs, opts, result)
    && FinalStage(policy, run, s', objs, opts, result, failed)
    && Members(result.migrated) <= Members(result.applied) <= Spared(s.namespaced, objs, None)
    && (opts.dryRun ==> s' == s && result.migrated == [] && run.prepared == s && run.applied == s && run.pruned == s)
  }

  // ----- Delete -----

  /** The objects a Delete of the manifest removes: served, live and, with a selector, matching it. */
  function DeleteTargets(s: Server, objs: seq<Manifest>, selector: Option<Selector>): set<Ref>
  {
    set m | && m in objs && m.gvk in s.served && Canonical(s.namespaced, m) in s.objects
            && (selector.Some? ==> Matches(selector.value, s.objects[Canonical(s.namespaced, m)].labels))
          :: Canonical(s.namespaced, m)
  }

  /** A Delete removes only its targets; the inventory goes last, once all of them are gone. */
  ghost predicate DeleteRun(
    s: Server, mid: Server, s': Server, objs: seq<Manifest>, selector: Option<Selector>, inventory: Option<Key>,
    failed: bool)
  {
    var targets := DeleteTargets(s, objs, selector);
    && Thinned(s, mid, targets)
    && (s' != mid || !failed ==> forall r | r in targets :: Gone(mid, r))
    && (s' == mid || (inventory.Some? && Deleted(mid, s', InventoryRef(inventory.value))))
    && (!failed && inventory.Some? ==> Deleted(mid, s', InventoryRef(inventory.value)))
  }
}
