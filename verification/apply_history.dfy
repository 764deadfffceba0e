/**
 Theorems about histories of Apply calls for one addon: the crash safety that prepareInventory is
 written for, what a successful Apply leaves behind, and what no Apply ever deletes.
 */
module ApplyHistory {
  import opened Sequences
  import opened Strings
  import opened Inventory
  import opened Manifests
  import opened ApiServers
  import opened ApplySpec
  import Appliers

  /** A live object of the addon: selected and not on its way out. */
  ghost predicate Owned(s: Server, sel: Selector, r: Ref)
  {
    r in s.objects && Matches(sel, s.objects[r].labels) && !s.objects[r].terminating
  }

  /** The kinds pruning looks through whatever the inventory says, plus the CRDs it leaves alone. */
  ghost function AlwaysKnown(policy: Policy): set<GroupKind>
  {
    GvkKinds(policy.defaults) + {CRD}
  }

  /** The next Apply will look through the kind of every object of the addon. */
  ghost predicate Covered(policy: Policy, s: Server, sel: Selector, key: Key)
  {
    forall r | Owned(s, sel, r) :: r.gk in RecordedKinds(s, key) + AlwaysKnown(policy)
  }

  ghost predicate Invariant(policy: Policy, s: Server, sel: Selector, key: Key)
  {
    Valid(s) && Covered(policy, s, sel, key) && forall gk | gk in RecordedKinds(s, key) :: Clean(gk)
  }

  ghost predicate SoundPolicy(policy: Policy)
  {
    CONFIG_MAP in GvkKinds(policy.defaults) && NAMESPACE in GvkKinds(policy.defaults)
  }

  lemma DefaultPolicyIsSound()
    ensures SoundPolicy(Appliers.DEFAULT_POLICY)
  {
    var defaults := Appliers.DEFAULT_PRUNE_TYPES;
    assert defaults[0].gk == CONFIG_MAP && defaults[1].gk == NAMESPACE;
    assert defaults[0] in defaults && defaults[1] in defaults;
  }

  /** A requested type is served, or no version of its kind is. */
  ghost predicate Reachable(s: Server, gvks: seq<Gvk>)
  {
    forall g | g in gvks :: g in s.served || g.gk !in s.preferred
  }

  /** The manifest names its kinds readably and leaves the inventory ConfigMap to the Applier. */
  ghost predicate Orderly(scope: set<GroupKind>, objs: seq<Manifest>, key: Key)
  {
    && (forall m | m in objs :: Clean(m.gvk.gk))
    && (forall m | m in objs :: Canonical(scope, m) != InventoryRef(key))
  }

  /** Discovery answered truthfully: a type that was not found is not served. */
  ghost predicate HonestDiscovery(policy: Policy, run: Run, opts: Options)
  {
    && Reachable(run.applied, opts.pruneTypes) && Reachable(run.applied, policy.defaults)
    && (forall gk | gk in run.unmapped :: gk !in run.applied.preferred)
  }

  // ----- writing the inventory -----

  lemma WritingRecords(manager: string, s: Server, s': Server, key: Key, kinds: set<GroupKind>)
    requires Valid(s) && InventoryWritten(manager, s, s', key, kinds)
    requires forall gk | gk in kinds :: Clean(gk)
    ensures RecordedKinds(s', key) == kinds
    ensures forall r | r != InventoryRef(key) :: Find(s', r) == Find(s, r)
  {
    var text :| IsInventoryText(text, kinds) && Upserted(s, s', InventoryManifest(manager, key, text));
    InventoryRoundTrip(text, kinds);
    var m := InventoryManifest(manager, key, text);
    assert Identity(s.namespaced, m) == InventoryRef(key);
    assert GROUP_KINDS_KEY in m.data;
  }

  lemma PreparedRecords(
    policy: Policy, s: Server, s': Server, objs: seq<Manifest>, opts: Options, previous: set<GroupKind>, failed: bool,
    sel: Selector, key: Key)
    requires Invariant(policy, s, sel, key) && SoundPolicy(policy)
    requires opts.inventory == Some(key) && !opts.dryRun && Orderly(s.namespaced, objs, key)
    requires Prepared(policy, s, s', objs, opts, previous, failed)
    ensures forall r | r != InventoryRef(key) :: Find(s', r) == Find(s, r)
    ensures RecordedKinds(s, key) <= RecordedKinds(s', key) <= RecordedKinds(s, key) + Kinds(objs)
    ensures !failed ==> RecordedKinds(s', key) == previous + Kinds(objs) && previous == RecordedKinds(s, key)
    ensures s'.namespaced == s.namespaced
    ensures Covered(policy, s', sel, key)
    ensures forall gk | gk in RecordedKinds(s', key) :: Clean(gk)
  {
    if s' != s || !failed {
      WritingRecords(policy.manager, s, s', key, RecordedKinds(s, key) + Kinds(objs));
    }
    forall r | Owned(s', sel, r) ensures r.gk in RecordedKinds(s', key) + AlwaysKnown(policy) {
      if r != InventoryRef(key) {
        assert Find(s', r) == Find(s, r);
        assert Owned(s, sel, r);
      }
    }
  }

  // ----- the stages keep the invariant -----

  lemma InventoryUntouched(a: Server, b: Server, objs: seq<Manifest>, key: Key)
    requires Settled(a, b, objs) && Orderly(a.namespaced, objs, key)
    ensures Find(b, InventoryRef(key)) == Find(a, InventoryRef(key))
    ensures RecordedKinds(b, key) == RecordedKinds(a, key)
  {
    var r := InventoryRef(key);
    assert !WrittenBySome(b, objs, r);
  }

  lemma AppliedCovered(policy: Policy, a: Server, b: Server, objs: seq<Manifest>, sel: Selector, key: Key)
    requires Settled(a, b, objs) && Orderly(a.namespaced, objs, key) && Covered(policy, a, sel, key)
    requires Kinds(objs) <= RecordedKinds(a, key)
    ensures Covered(policy, b, sel, key) && RecordedKinds(b, key) == RecordedKinds(a, key)
  {
    InventoryUntouched(a, b, objs, key);
    forall r | Owned(b, sel, r) ensures r.gk in RecordedKinds(b, key) + AlwaysKnown(policy) {
      if WrittenBySome(b, objs, r) {
        var m :| m in objs && Wrote(b, m, r);
        assert r.gk in Kinds(objs);
      } else {
        assert Owned(a, sel, r);
      }
    }
  }

  lemma ThinnedCovered(policy: Policy, a: Server, b: Server, doomed: set<Ref>, sel: Selector, key: Key)
    requires Thinned(a, b, doomed) && InventoryRef(key) !in doomed && Covered(policy, a, sel, key)
    ensures Covered(policy, b, sel, key) && RecordedKinds(b, key) == RecordedKinds(a, key)
    ensures forall r | Owned(b, sel, r) :: Owned(a, sel, r)
  {
  }

  /** Pruning reaches every kind of a covered object, except CRDs nobody asked for. */
  lemma CoveredIsReached(policy: Policy, run: Run, objs: seq<Manifest>, opts: Options, r: Ref)
    requires Valid(run.applied) && HonestDiscovery(policy, run, opts)
    requires IsPruneList(policy, run.applied, objs, run.previous, run.unmapped, opts, run.gvks)
    requires forall m | m in objs :: m.gvk in run.applied.served
    requires r in run.applied.objects
    requires r.gk in run.previous + Kinds(objs) + AlwaysKnown(policy)
    ensures r.gk in Reached(run.applied, run.gvks) <==> r.gk != CRD || CRD in GvkKinds(opts.pruneTypes)
  {
    var s := run.applied;
    var t := PruneTypeOf(policy, s, objs, run.previous, run.unmapped, opts, r.gk);
    assert r.gk in s.preferred;
    var others := policy.defaults + ObjectGvks(objs);
    forall g | g in others ensures g in s.served || g.gk !in s.preferred {
      if g !in policy.defaults {
        var i :| 0 <= i < |objs| && ObjectGvks(objs)[i] == g;
        assert objs[i] in objs;
      }
    }
    OtherKinds(policy, objs);
    if r.gk != CRD || CRD in GvkKinds(opts.pruneTypes) {
      assert t.Some? && t.value.gk == r.gk && t.value in s.served;
      assert t.value in run.gvks;
    } else {
      forall g | g in run.gvks ensures g.gk != CRD {
        assert PruneTypeOf(policy, s, objs, run.previous, run.unmapped, opts, g.gk) == Some(g);
      }
    }
  }

  /** What is left of the addon once everything stale is gone. */
  ghost predicate Kept(policy: Policy, scope: set<GroupKind>, objs: seq<Manifest>, opts: Options, r: Ref)
  {
    || r in Spared(scope, objs, opts.inventory)
    || IsProtected(policy, r)
    || (r.gk == CRD && CRD !in GvkKinds(opts.pruneTypes))
  }

  lemma PrunedLeavesKept(
    policy: Policy, run: Run, objs: seq<Manifest>, opts: Options, result: Result, sel: Selector, key: Key)
    requires Valid(run.applied) && HonestDiscovery(policy, run, opts)
    requires opts.selector == Some(sel) && !opts.dryRun && forall m | m in objs :: m.gvk in run.applied.served
    requires FullyPruned(policy, run, objs, opts, result)
    requires Thinned(run.applied, run.pruned, Doomed(policy, run, objs, opts))
    requires Covered(policy, run.applied, sel, key) && RecordedKinds(run.applied, key) == run.previous + Kinds(objs)
    ensures forall r | Owned(run.pruned, sel, r) :: Kept(policy, run.applied.namespaced, objs, opts, r)
  {
    forall r | Owned(run.pruned, sel, r) ensures Kept(policy, run.applied.namespaced, objs, opts, r) {
      assert Owned(run.applied, sel, r);
      assert !Gone(run.pruned, r);
      CoveredIsReached(policy, run, objs, opts, r);
    }
  }

  /** The conditions on one Apply of the addon under which its inventory stays trustworthy. */
  ghost predicate WellUsed(
    policy: Policy, s: Server, run: Run, objs: seq<Manifest>, opts: Options, sel: Selector, key: Key)
  {
    && opts.inventory == Some(key) && (opts.selector.Some? ==> opts.selector.value == sel)
    && Orderly(s.namespaced, objs, key) && HonestDiscovery(policy, run, opts)
  }

  lemma InventorySpared(policy: Policy, run: Run, objs: seq<Manifest>, opts: Options, key: Key)
    requires opts.inventory == Some(key)
    ensures InventoryRef(key) !in Doomed(policy, run, objs, opts)
  {
  }

  /** One Apply, failing anywhere or not, keeps the inventory covering everything that may be left over. */
  lemma ApplyKeepsInvariant(
    policy: Policy, s: Server, run: Run, s': Server, objs: seq<Manifest>, opts: Options, result: Result, failed: bool,
    sel: Selector, key: Key)
    requires SoundPolicy(policy) && Invariant(policy, s, sel, key) && Valid(s')
    requires ApplyRun(policy, s, run, s', objs, opts, result, failed)
    requires WellUsed(policy, s, run, objs, opts, sel, key)
    ensures Invariant(policy, s', sel, key)
  {
    if !opts.dryRun {
      PreparedRecords(policy, s, run.prepared, objs, opts, run.previous, !run.began, sel, key);
      if run.began {
        AppliedCovered(policy, run.prepared, run.applied, objs, sel, key);
        InventorySpared(policy, run, objs, opts, key);
        ThinnedCovered(policy, run.applied, run.pruned, Doomed(policy, run, objs, opts), sel, key);
        if s' != run.pruned {
          FinalKeepsInvariant(policy, run, s', objs, opts, result, sel, key);
        }
      }
    }
  }

  /** Whatever is kept has a kind that the new inventory records or that pruning always looks at. */
  lemma KeptKinds(policy: Policy, scope: set<GroupKind>, objs: seq<Manifest>, opts: Options, r: Ref)
    requires SoundPolicy(policy) && Kept(policy, scope, objs, opts, r)
    ensures r.gk in Kinds(objs) + AlwaysKnown(policy)
  {
  }

  lemma WritingKeepsOthers(
    policy: Policy, s: Server, s': Server, key: Key, kinds: set<GroupKind>, sel: Selector, r: Ref)
    requires Valid(s) && InventoryWritten(policy.manager, s, s', key, kinds)
    requires forall gk | gk in kinds :: Clean(gk)
    requires Owned(s', sel, r) && r != InventoryRef(key)
    ensures Owned(s, sel, r)
  {
    WritingRecords(policy.manager, s, s', key, kinds);
    assert Find(s', r) == Find(s, r);
  }

  lemma ThinnedValid(s: Server, s': Server, doomed: set<Ref>)
    requires Valid(s) && Thinned(s, s', doomed)
    ensures Valid(s')
  {
  }

  lemma FinalKeepsInvariant(
    policy: Policy, run: Run, s': Server, objs: seq<Manifest>, opts: Options, result: Result, sel: Selector, key: Key)
    requires SoundPolicy(policy) && Valid(run.applied) && HonestDiscovery(policy, run, opts)
    requires opts.selector == Some(sel) && opts.inventory == Some(key) && !opts.dryRun
    requires FullyApplied(run, objs, opts, result) && FullyPruned(policy, run, objs, opts, result)
    requires PruneStage(policy, run, objs, opts, result)
    requires Covered(policy, run.applied, sel, key) && RecordedKinds(run.applied, key) == run.previous + Kinds(objs)
    requires InventoryWritten(policy.manager, run.pruned, s', key, Kinds(objs))
    requires forall m | m in objs :: Clean(m.gvk.gk)
    ensures Covered(policy, s', sel, key) && RecordedKinds(s', key) == Kinds(objs)
    ensures forall r | Owned(s', sel, r) :: Kept(policy, run.applied.namespaced, objs, opts, r)
  {
    ThinnedValid(run.applied, run.pruned, Doomed(policy, run, objs, opts));
    WritingRecords(policy.manager, run.pruned, s', key, Kinds(objs));
    PrunedLeavesKept(policy, run, objs, opts, result, sel, key);
    forall r | Owned(s', sel, r)
      ensures Kept(policy, run.applied.namespaced, objs, opts, r)
      ensures r.gk in Kinds(objs) + AlwaysKnown(policy)
    {
      if r != InventoryRef(key) {
        WritingKeepsOthers(policy, run.pruned, s', key, Kinds(objs), sel, r);
      }
      KeptKinds(policy, run.applied.namespaced, objs, opts, r);
    }
  }

  // ----- histories -----

  /** Where the stages of an Apply resume, after others have acted: applying, pruning and the final write. */
  datatype Gaps = Gaps(applying: Server, pruning: Server, finishing: Server)

  /**
   Between two stages others may do anything except edit the inventory ConfigMap, end the serving of a type,
   or create objects with the addon's label under kinds other than `kinds` and the always-known ones.
   */
  ghost predicate Amid(policy: Policy, a: Server, b: Server, kinds: set<GroupKind>, sel: Selector, key: Key)
  {
    && Valid(b) && b.namespaced == a.namespaced && a.served <= b.served
    && RecordedKinds(b, key) == RecordedKinds(a, key)
    && forall r | Owned(b, sel, r) :: Owned(a, sel, r) || r.gk in kinds + AlwaysKnown(policy)
  }

  /** The run as pruning sees it: it starts from the state in which pruning resumes. */
  function PruningView(run: Run, gaps: Gaps): Run
  {
    run.(applied := gaps.pruning)
  }

  /**
   The stages of one Apply, each as in an undisturbed run, with others acting in between. What only a run that
   succeeds promises is left open here, so these are more runs than there are.
   */
  ghost predicate ApplyAmid(
    policy: Policy, s: Server, run: Run, gaps: Gaps, s': Server, objs: seq<Manifest>, opts: Options, result: Result,
    failed: bool, sel: Selector, key: Key)
  {
    var kinds := if opts.dryRun then {} else Kinds(objs);
    var view := PruningView(run, gaps);
    && Prepared(policy, s, run.prepared, objs, opts, run.previous, !run.began)
    && (!run.began ==> failed && s' == run.prepared)
    && (run.began ==>
          && Amid(policy, run.prepared, gaps.applying, kinds, sel, key)
          && Settled(gaps.applying, run.applied, objs) && Valid(run.applied)
          && Amid(policy, run.applied, gaps.pruning, kinds, sel, key)
          && Thinned(gaps.pruning, run.pruned, Doomed(policy, view, objs, opts))
          && Amid(policy, run.pruned, gaps.finishing, kinds, sel, key)
          && (s' == gaps.finishing || FinishedAmid(policy, run, gaps, s', objs, opts, result)))
    && (opts.dryRun ==> run.prepared == s && (run.began ==> run.applied == gaps.applying && s' == gaps.finishing))
  }

  /** The inventory is rewritten only after everything was applied and everything stale was pruned. */
  ghost predicate FinishedAmid(
    policy: Policy, run: Run, gaps: Gaps, s': Server, objs: seq<Manifest>, opts: Options, result: Result)
  {
    && opts.inventory.Some? && opts.selector.Some? && !opts.dryRun
    && FullyApplied(run, objs, opts, result) && FullyPruned(policy, PruningView(run, gaps), objs, opts, result)
    && InventoryWritten(policy.manager, gaps.finishing, s', opts.inventory.value, Kinds(objs))
  }

  /** An undisturbed run is one in which every stage resumes where the one before it ended. */
  lemma UndisturbedIsAmid(
    policy: Policy, s: Server, run: Run, s': Server, objs: seq<Manifest>, opts: Options, result: Result, failed: bool,
    sel: Selector, key: Key)
    requires Valid(run.prepared) && ApplyRun(policy, s, run, s', objs, opts, result, failed)
    ensures ApplyAmid(policy, s, run, Gaps(run.prepared, run.applied, run.pruned), s', objs, opts, result, failed,
                      sel, key)
  {
    ThinnedValid(run.applied, run.pruned, Doomed(policy, run, objs, opts));
    assert run == PruningView(run, Gaps(run.prepared, run.applied, run.pruned));
  }

  lemma AmidCovered(policy: Policy, a: Server, b: Server, kinds: set<GroupKind>, sel: Selector, key: Key)
    requires Amid(policy, a, b, kinds, sel, key) && Covered(policy, a, sel, key) && kinds <= RecordedKinds(a, key)
    ensures Covered(policy, b, sel, key)
  {
  }

  /** What covers the addon up to the end of pruning, with others acting in between. */
  lemma StagesCovered(
    policy: Policy, s: Server, run: Run, gaps: Gaps, s': Server, objs: seq<Manifest>, opts: Options, result: Result,
    failed: bool, sel: Selector, key: Key)
    requires SoundPolicy(policy) && Invariant(policy, s, sel, key) && !opts.dryRun && run.began
    requires ApplyAmid(policy, s, run, gaps, s', objs, opts, result, failed, sel, key)
    requires opts.inventory == Some(key) && Orderly(s.namespaced, objs, key)
    ensures Covered(policy, gaps.pruning, sel, key) && Covered(policy, gaps.finishing, sel, key)
    ensures RecordedKinds(gaps.pruning, key) == run.previous + Kinds(objs) == RecordedKinds(gaps.finishing, key)
    ensures run.previous == RecordedKinds(s, key)
  {
    PreparedRecords(policy, s, run.prepared, objs, opts, run.previous, false, sel, key);
    AmidCovered(policy, run.prepared, gaps.applying, Kinds(objs), sel, key);
    AppliedCovered(policy, gaps.applying, run.applied, objs, sel, key);
    AmidCovered(policy, run.applied, gaps.pruning, Kinds(objs), sel, key);
    InventorySpared(policy, PruningView(run, gaps), objs, opts, key);
    ThinnedCovered(policy, gaps.pruning, run.pruned, Doomed(policy, PruningView(run, gaps), objs, opts), sel, key);
    AmidCovered(policy, run.pruned, gaps.finishing, Kinds(objs), sel, key);
  }

  /** When the old kinds are dropped, nothing of them is left, whatever others did since pruning. */
  lemma FinishKeepsInvariant(
    policy: Policy, run: Run, gaps: Gaps, s': Server, objs: seq<Manifest>, opts: Options, result: Result,
    sel: Selector, key: Key)
    requires SoundPolicy(policy) && HonestDiscovery(policy, PruningView(run, gaps), opts)
    requires opts.selector == Some(sel) && opts.inventory == Some(key)
    requires FinishedAmid(policy, run, gaps, s', objs, opts, result)
    requires Amid(policy, run.applied, gaps.pruning, Kinds(objs), sel, key)
    requires Thinned(gaps.pruning, run.pruned, Doomed(policy, PruningView(run, gaps), objs, opts))
    requires Amid(policy, run.pruned, gaps.finishing, Kinds(objs), sel, key)
    requires Covered(policy, gaps.pruning, sel, key)
    requires RecordedKinds(gaps.pruning, key) == run.previous + Kinds(objs)
    requires forall m | m in objs :: Clean(m.gvk.gk)
    ensures Covered(policy, s', sel, key) && RecordedKinds(s', key) == Kinds(objs)
  {
    var view := PruningView(run, gaps);
    PrunedLeavesKept(policy, view, objs, opts, result, sel, key);
    WritingRecords(policy.manager, gaps.finishing, s', key, Kinds(objs));
    forall r | Owned(s', sel, r) ensures r.gk in Kinds(objs) + AlwaysKnown(policy) {
      if r != InventoryRef(key) {
        WritingKeepsOthers(policy, gaps.finishing, s', key, Kinds(objs), sel, r);
        if Owned(run.pruned, sel, r) { KeptKinds(policy, gaps.pruning.namespaced, objs, opts, r); }
      }
    }
  }

  /** One Apply keeps the inventory covering the addon even when others act between its stages. */
  lemma ApplyAmidKeepsInvariant(
    policy: Policy, s: Server, run: Run, gaps: Gaps, s': Server, objs: seq<Manifest>, opts: Options, result: Result,
    failed: bool, sel: Selector, key: Key)
    requires SoundPolicy(policy) && Invariant(policy, s, sel, key) && Valid(s')
    requires ApplyAmid(policy, s, run, gaps, s', objs, opts, result, failed, sel, key)
    requires WellUsed(policy, s, PruningView(run, gaps), objs, opts, sel, key)
    ensures Invariant(policy, s', sel, key)
  {
    if opts.dryRun {
      if run.began { DryAmidCovered(policy, s, run, gaps, s', objs, opts, sel, key); }
    } else {
      PreparedRecords(policy, s, run.prepared, objs, opts, run.previous, !run.began, sel, key);
      if run.began {
        StagesCovered(policy, s, run, gaps, s', objs, opts, result, failed, sel, key);
        if s' != gaps.finishing {
          FinishKeepsInvariant(policy, run, gaps, s', objs, opts, result, sel, key);
        }
      }
    }
  }

  lemma DryAmidCovered(
    policy: Policy, s: Server, run: Run, gaps: Gaps, s': Server, objs: seq<Manifest>, opts: Options, sel: Selector,
    key: Key)
    requires SoundPolicy(policy) && Covered(policy, s, sel, key) && run.prepared == s && run.applied == gaps.applying
    requires Amid(policy, s, gaps.applying, {}, sel, key) && Amid(policy, run.applied, gaps.pruning, {}, sel, key)
    requires opts.inventory == Some(key) && s' == gaps.finishing
    requires Thinned(gaps.pruning, run.pruned, Doomed(policy, PruningView(run, gaps), objs, opts))
    requires Amid(policy, run.pruned, gaps.finishing, {}, sel, key)
    ensures Covered(policy, s', sel, key) && RecordedKinds(s', key) == RecordedKinds(s, key)
  {
    AmidCovered(policy, s, gaps.applying, {}, sel, key);
    AmidCovered(policy, run.applied, gaps.pruning, {}, sel, key);
    InventorySpared(policy, PruningView(run, gaps), objs, opts, key);
    ThinnedCovered(policy, gaps.pruning, run.pruned, Doomed(policy, PruningView(run, gaps), objs, opts), sel, key);
    AmidCovered(policy, run.pruned, gaps.finishing, {}, sel, key);
  }

  /** What happens to the server in a call for the addon, with others acting between its stages, or between calls. */
  datatype Event =
    | Applying(run: Run, gaps: Gaps, objs: seq<Manifest>, opts: Options, result: Result, failed: bool)
    | Deleting(mid: Server, objs: seq<Manifest>, failed: bool)
    | Others

  /**
   Other clients and controllers may do anything except edit the inventory ConfigMap or create objects
   with the addon's label under kinds it does not record: objects may vanish, finish terminating, or change.
   */
  ghost predicate Elsewhere(policy: Policy, s: Server, s': Server, sel: Selector, key: Key)
  {
    && Valid(s') && RecordedKinds(s', key) == RecordedKinds(s, key)
    && (forall r | Owned(s', sel, r) :: Owned(s, sel, r) || r.gk in RecordedKinds(s, key) + AlwaysKnown(policy))
  }

  /** The manifest names every object of the addon outside the always-known kinds. */
  ghost predicate NamesTheRest(policy: Policy, s: Server, objs: seq<Manifest>, sel: Selector)
  {
    forall r | Owned(s, sel, r) && r.gk !in AlwaysKnown(policy) :: r in DeleteTargets(s, objs, Some(sel))
  }

  ghost predicate Happens(policy: Policy, s: Server, e: Event, s': Server, sel: Selector, key: Key)
  {
    match e
    case Others => Elsewhere(policy, s, s', sel, key)
    case Deleting(mid, objs, failed) =>
      && Valid(s') && DeleteRun(s, mid, s', objs, Some(sel), Some(key), failed)
      && InventoryRef(key) !in DeleteTargets(s, objs, Some(sel)) && NamesTheRest(policy, s, objs, sel)
    case Applying(run, gaps, objs, opts, result, failed) =>
      && Valid(s') && ApplyAmid(policy, s, run, gaps, s', objs, opts, result, failed, sel, key)
      && WellUsed(policy, s, PruningView(run, gaps), objs, opts, sel, key)
  }

  ghost predicate History(policy: Policy, states: seq<Server>, events: seq<Event>, sel: Selector, key: Key)
  {
    && |states| == |events| + 1
    && forall i | 0 <= i < |events| :: Happens(policy, states[i], events[i], states[i + 1], sel, key)
  }

  /** A Delete that names the rest of the addon keeps it covered, stopped anywhere or not. */
  lemma DeleteKeepsInvariant(
    policy: Policy, s: Server, mid: Server, s': Server, objs: seq<Manifest>, failed: bool, sel: Selector, key: Key)
    requires Invariant(policy, s, sel, key) && Valid(s') && NamesTheRest(policy, s, objs, sel)
    requires CONFIG_MAP in GvkKinds(policy.defaults) && InventoryRef(key) !in DeleteTargets(s, objs, Some(sel))
    requires DeleteRun(s, mid, s', objs, Some(sel), Some(key), failed)
    ensures Invariant(policy, s', sel, key)
  {
    var targets := DeleteTargets(s, objs, Some(sel));
    ThinnedCovered(policy, s, mid, targets, sel, key);
    if s' != mid {
      forall r | Owned(s', sel, r) && r != InventoryRef(key) ensures r.gk in AlwaysKnown(policy) {
        DeleteSurvivors(s, mid, s', targets, sel, key, r);
      }
      assert RecordedKinds(s', key) <= RecordedKinds(mid, key);
    }
  }

  lemma EventKeepsInvariant(policy: Policy, s: Server, e: Event, s': Server, sel: Selector, key: Key)
    requires SoundPolicy(policy) && Invariant(policy, s, sel, key) && Happens(policy, s, e, s', sel, key)
    ensures Invariant(policy, s', sel, key)
  {
    match e
    case Others =>
    case Deleting(mid, objs, failed) => DeleteKeepsInvariant(policy, s, mid, s', objs, failed, sel, key);
    case Applying(run, gaps, objs, opts, result, failed) =>
      ApplyAmidKeepsInvariant(policy, s, run, gaps, s', objs, opts, result, failed, sel, key);
  }

  /**
   Crash safety. Over every sequence of Apply and Delete calls, with any manifests and each free to stop at
   any request, and others acting between the calls and between the stages of an Apply, the inventory always
   covers every live object of the addon: its kind is recorded, is one of the types pruned by default, or is
   a CRD.
   */
  lemma InventoryAlwaysCovers(
    policy: Policy, states: seq<Server>, events: seq<Event>, sel: Selector, key: Key)
    requires SoundPolicy(policy) && History(policy, states, events, sel, key)
    requires Invariant(policy, states[0], sel, key)
    ensures forall i | 0 <= i < |states| :: Invariant(policy, states[i], sel, key)
  {
    forall i | 0 <= i < |states| ensures Invariant(policy, states[i], sel, key) {
      InvariantAt(policy, states, events, sel, key, i);
    }
  }

  lemma {:induction false} InvariantAt(
    policy: Policy, states: seq<Server>, events: seq<Event>, sel: Selector, key: Key, i: nat)
    requires SoundPolicy(policy) && History(policy, states, events, sel, key)
    requires Invariant(policy, states[0], sel, key) && i < |states|
    ensures Invariant(policy, states[i], sel, key)
    decreases i
  {
    if i > 0 {
      InvariantAt(policy, states, events, sel, key, i - 1);
      assert Happens(policy, states[i - 1], events[i - 1], states[i - 1 + 1], sel, key);
      EventKeepsInvariant(policy, states[i - 1], events[i - 1], states[i], sel, key);
    }
  }

  // ----- what a successful Apply leaves behind -----

  /** A namespace is set only on objects of namespaced kinds. */
  ghost predicate WellScoped(scope: set<GroupKind>, objs: seq<Manifest>)
  {
    forall m | m in objs :: m.namespace != "" ==> m.gvk.gk in scope
  }

  lemma WellScopedDeclares(scope: set<GroupKind>, objs: seq<Manifest>, m: Manifest)
    requires WellScoped(scope, objs) && m in objs
    ensures Declared(scope, m) == Canonical(scope, m)
  {
  }

  /** Every object carries the addon's label. */
  ghost predicate Labelled(objs: seq<Manifest>, sel: Selector)
  {
    forall m | m in objs :: Matches(sel, m.labels)
  }

  lemma MatchesTransitive(sel: Selector, mid: map<string, string>, labels: map<string, string>)
    requires Matches(sel, mid) && Matches(mid, labels)
    ensures Matches(sel, labels)
  {
  }

  lemma WrittenIsSelected(s: Server, objs: seq<Manifest>, sel: Selector, r: Ref)
    requires WrittenBySome(s, objs, r) && Labelled(objs, sel)
    ensures r in s.objects && Matches(sel, s.objects[r].labels)
  {
    var m :| m in objs && Wrote(s, m, r);
    MatchesTransitive(sel, m.labels, s.objects[r].labels);
  }

  /**
   After a successful Apply with the prune selector, the addon's live objects are the applied ones
   and the ones pruning must leave alone (the inventory, protected namespaces, CRDs nobody listed);
   and every applied object is there, unless it was already being deleted.
   */
  lemma SuccessLeavesTheManifest(
    policy: Policy, s: Server, run: Run, s': Server, objs: seq<Manifest>, opts: Options, result: Result,
    sel: Selector, key: Key)
    requires SoundPolicy(policy) && Invariant(policy, s, sel, key) && Valid(s')
    requires ApplyRun(policy, s, run, s', objs, opts, result, false)
    requires WellUsed(policy, s, run, objs, opts, sel, key) && opts.selector == Some(sel) && !opts.dryRun
    ensures forall r | Owned(s', sel, r) :: Kept(policy, s.namespaced, objs, opts, r)
    ensures WellScoped(s.namespaced, objs) && Labelled(objs, sel) ==>
              forall m | m in objs ::
                var r := Canonical(s.namespaced, m);
                r in s'.objects && (Owned(s', sel, r) <==> !(r in s.objects && s.objects[r].terminating))
  {
    PreparedRecords(policy, s, run.prepared, objs, opts, run.previous, false, sel, key);
    AppliedCovered(policy, run.prepared, run.applied, objs, sel, key);
    FinalKeepsInvariant(policy, run, s', objs, opts, result, sel, key);
    if WellScoped(s.namespaced, objs) && Labelled(objs, sel) {
      forall m | m in objs
        ensures var r := Canonical(s.namespaced, m);
                r in s'.objects && (Owned(s', sel, r) <==> !(r in s.objects && s.objects[r].terminating))
      {
        AppliedStays(policy, s, run, s', objs, opts, result, sel, key, m);
      }
    }
  }

  lemma AppliedStays(
    policy: Policy, s: Server, run: Run, s': Server, objs: seq<Manifest>, opts: Options, result: Result,
    sel: Selector, key: Key, m: Manifest)
    requires SoundPolicy(policy) && Invariant(policy, s, sel, key)
    requires ApplyRun(policy, s, run, s', objs, opts, result, false)
    requires WellUsed(policy, s, run, objs, opts, sel, key) && opts.selector == Some(sel) && !opts.dryRun
    requires WellScoped(s.namespaced, objs) && Labelled(objs, sel) && m in objs
    ensures var r := Canonical(s.namespaced, m);
            r in s'.objects && (Owned(s', sel, r) <==> !(r in s.objects && s.objects[r].terminating))
  {
    var r := Canonical(s.namespaced, m);
    PreparedRecords(policy, s, run.prepared, objs, opts, run.previous, false, sel, key);
    assert Find(run.prepared, r) == Find(s, r);
    assert WrittenBySome(run.applied, objs, Canonical(run.applied.namespaced, m));
    WrittenIsSelected(run.applied, objs, sel, r);
    WellScopedDeclares(s.namespaced, objs, m);
    assert r in Spared(run.applied.namespaced, objs, opts.inventory);
    assert r !in Doomed(policy, run, objs, opts);
    assert Find(run.pruned, r) == Find(run.applied, r);
    ThinnedValid(run.applied, run.pruned, Doomed(policy, run, objs, opts));
    WritingRecords(policy.manager, run.pruned, s', key, Kinds(objs));
    assert Find(s', r) == Find(run.pruned, r);
  }

  lemma RunKeepsScope(
    policy: Policy, s: Server, run: Run, s': Server, objs: seq<Manifest>, opts: Options, result: Result, failed: bool)
    requires ApplyRun(policy, s, run, s', objs, opts, result, failed)
    ensures run.prepared.namespaced == s.namespaced && run.applied.namespaced == s.namespaced
    ensures s'.namespaced == s.namespaced
  {
  }

  lemma UnlistedCrdUnreached(policy: Policy, run: Run, objs: seq<Manifest>, opts: Options)
    requires IsPruneList(policy, run.applied, objs, run.previous, run.unmapped, opts, run.gvks)
    requires CRD !in GvkKinds(opts.pruneTypes)
    ensures CRD !in Reached(run.applied, run.gvks)
  {
    forall g | g in run.gvks ensures g.gk != CRD {
      assert PruneTypeOf(policy, run.applied, objs, run.previous, run.unmapped, opts, g.gk) == Some(g);
    }
  }

  lemma NothingDoomed(policy: Policy, s: Server, run: Run, objs: seq<Manifest>, opts: Options, sel: Selector, key: Key)
    requires opts.selector == Some(sel) && opts.inventory == Some(key)
    requires WellScoped(s.namespaced, objs) && s.namespaced == run.prepared.namespaced
    requires forall r | Owned(s, sel, r) :: Kept(policy, s.namespaced, objs, opts, r)
    requires forall r | r != InventoryRef(key) :: Find(run.prepared, r) == Find(s, r)
    requires Settled(run.prepared, run.applied, objs)
    requires IsPruneList(policy, run.applied, objs, run.previous, run.unmapped, opts, run.gvks)
    ensures Doomed(policy, run, objs, opts) == {}
  {
    if CRD !in GvkKinds(opts.pruneTypes) {
      UnlistedCrdUnreached(policy, run, objs, opts);
    }
    forall r | Owned(run.applied, sel, r) ensures Kept(policy, s.namespaced, objs, opts, r) {
      if r != InventoryRef(key) {
        assert Find(run.prepared, r) == Find(s, r);
        if WrittenBySome(run.applied, objs, r) {
          var m :| m in objs && Wrote(run.applied, m, r);
          WellScopedDeclares(s.namespaced, objs, m);
        } else {
          assert Owned(s, sel, r);
        }
      }
    }
    var doomed := Doomed(policy, run, objs, opts);
    assert forall r | r in doomed :: Owned(run.applied, sel, r);
  }

  lemma NoMembers(xs: seq<Ref>)
    ensures Members(xs) == {} ==> xs == []
  {
    if xs != [] { assert xs[0] in Members(xs); }
  }

  lemma NothingThinned(a: Server, b: Server, pruned: seq<Ref>)
    requires Thinned(a, b, {}) && Members(pruned) <= {}
    ensures a == b && pruned == []
  {
    assert a.objects == b.objects;
    NoMembers(pruned);
  }

  /** Applying the same manifest again, with nothing happening in between, prunes nothing. */
  lemma ReapplyPrunesNothing(
    policy: Policy, s: Server, run: Run, s': Server, objs: seq<Manifest>, opts: Options, result: Result,
    run': Run, s'': Server, result': Result, failed': bool, sel: Selector, key: Key)
    requires SoundPolicy(policy) && Invariant(policy, s, sel, key) && Valid(s')
    requires ApplyRun(policy, s, run, s', objs, opts, result, false)
    requires WellUsed(policy, s, run, objs, opts, sel, key) && opts.selector == Some(sel) && !opts.dryRun
    requires WellScoped(s.namespaced, objs)
    requires ApplyRun(policy, s', run', s'', objs, opts, result', failed')
    ensures result'.pruned == [] && run'.pruned == run'.applied
  {
    RunKeepsScope(policy, s, run, s', objs, opts, result, false);
    assert Invariant(policy, s', sel, key) by {
      ApplyKeepsInvariant(policy, s, run, s', objs, opts, result, false, sel, key);
    }
    assert forall r | r != InventoryRef(key) :: Find(run'.prepared, r) == Find(s', r) by {
      PreparedRecords(policy, s', run'.prepared, objs, opts, run'.previous, !run'.began, sel, key);
    }
    assert forall r | Owned(s', sel, r) :: Kept(policy, s'.namespaced, objs, opts, r) by {
      SuccessLeavesTheManifest(policy, s, run, s', objs, opts, result, sel, key);
    }
    RunKeepsScope(policy, s', run', s'', objs, opts, result', failed');
    if IsPruneList(policy, run'.applied, objs, run'.previous, run'.unmapped, opts, run'.gvks) {
      NothingDoomed(policy, s', run', objs, opts, sel, key);
      NothingThinned(run'.applied, run'.pruned, result'.pruned);
    }
  }

  // ----- what is never deleted -----

  ghost predicate Alive(s: Server, r: Ref)
  {
    r in s.objects && !s.objects[r].terminating
  }

  lemma WritingKeepsAlive(policy: Policy, s: Server, s': Server, opts: Options, kinds: set<GroupKind>, r: Ref)
    requires opts.inventory.Some? && InventoryWritten(policy.manager, s, s', opts.inventory.value, kinds) && Alive(s, r)
    ensures Alive(s', r)
  {
  }

  /**
   The objects of a manifest that a successful Apply itself prunes: a cluster-scoped object written
   with a namespace is remembered under that namespace but stored without one, so pruning takes it for
   a stale object, unless another manifest object declares it, it is an unlisted CRD or protected.
   */
  ghost predicate SelfPruned(policy: Policy, scope: set<GroupKind>, objs: seq<Manifest>, opts: Options, m: Manifest)
  {
    && m.namespace != "" && m.gvk.gk !in scope
    && (forall x | x in objs :: Declared(scope, x) != Canonical(scope, m))
    && (m.gvk.gk != CRD || CRD in GvkKinds(opts.pruneTypes))
    && !IsProtected(policy, Canonical(scope, m))
  }

  /**
   What was alive when pruning began and is not when the run ends, failing or not, was stale: it matched
   the selector, is no protected namespace, no inventory and no CRD that was not asked for, and the
   manifest did not declare it. A manifest object is among them only if it is self-pruned. A run that did
   not apply everything, or was given no selector, takes nothing away.
   */
  lemma DeletesOnlyStale(
    policy: Policy, s: Server, run: Run, s': Server, objs: seq<Manifest>, opts: Options, result: Result, failed: bool,
    r: Ref)
    requires Valid(s) && ApplyRun(policy, s, run, s', objs, opts, result, failed)
    requires Alive(run.applied, r) && Gone(s', r)
    ensures opts.selector.Some? && Owned(run.applied, opts.selector.value, r) && !opts.dryRun
    ensures forall m | m in objs :: Declared(s.namespaced, m) != r && m.gvk in run.applied.served
    ensures AllWritten(run.applied, objs, objs)
    ensures !IsProtected(policy, r)
    ensures opts.inventory.Some? ==> r != InventoryRef(opts.inventory.value)
    ensures r.gk == CRD ==> CRD in GvkKinds(opts.pruneTypes)
    ensures forall m | m in objs && Canonical(s.namespaced, m) == r :: SelfPruned(policy, s.namespaced, objs, opts, m)
  {
    RunKeepsScope(policy, s, run, s', objs, opts, result, failed);
    assert !Alive(run.pruned, r) by {
      if s' != run.pruned && Alive(run.pruned, r) {
        WritingKeepsAlive(policy, run.pruned, s', opts, Kinds(objs), r);
      }
    }
    assert r in Doomed(policy, run, objs, opts);
    DoomedIsUndeclared(policy, run, objs, opts, r);
  }

  lemma DoomedIsUndeclared(policy: Policy, run: Run, objs: seq<Manifest>, opts: Options, r: Ref)
    requires r in Doomed(policy, run, objs, opts)
    requires IsPruneList(policy, run.applied, objs, run.previous, run.unmapped, opts, run.gvks)
    ensures forall m | m in objs :: Declared(run.applied.namespaced, m) != r
    ensures r.gk == CRD ==> CRD in GvkKinds(opts.pruneTypes)
    ensures forall m | m in objs && Canonical(run.applied.namespaced, m) == r ::
              SelfPruned(policy, run.applied.namespaced, objs, opts, m)
  {
    var scope := run.applied.namespaced;
    forall m | m in objs ensures Declared(scope, m) != r {
      assert Declared(scope, m) in Spared(scope, objs, opts.inventory);
    }
    if r.gk == CRD && CRD !in GvkKinds(opts.pruneTypes) {
      UnlistedCrdUnreached(policy, run, objs, opts);
    }
  }

  /** Before pruning no run takes anything away: what was alive at the start still is, and so is what it created. */
  lemma NothingGoneBeforePruning(
    policy: Policy, s: Server, run: Run, s': Server, objs: seq<Manifest>, opts: Options, result: Result, failed: bool,
    r: Ref)
    requires Valid(s) && ApplyRun(policy, s, run, s', objs, opts, result, failed)
    requires Alive(s, r) || (r !in s.objects && r in run.applied.objects)
    ensures Alive(run.applied, r)
  {
    if run.prepared != s {
      var kinds := RecordedKinds(s, opts.inventory.value) + Kinds(objs);
      if Alive(s, r) {
        WritingKeepsAlive(policy, s, run.prepared, opts, kinds, r);
      }
    }
  }

  /** Whatever manifest object a run reports as pruned, even a run that fails later on, is self-pruned. */
  lemma ReportedPrunedIsSelfPruned(
    policy: Policy, s: Server, run: Run, s': Server, objs: seq<Manifest>, opts: Options, result: Result, failed: bool,
    m: Manifest)
    requires Valid(s) && ApplyRun(policy, s, run, s', objs, opts, result, failed)
    requires m in objs && Canonical(s.namespaced, m) in result.pruned
    ensures SelfPruned(policy, s.namespaced, objs, opts, m)
  {
    RunKeepsScope(policy, s, run, s', objs, opts, result, failed);
    var r := Canonical(s.namespaced, m);
    assert r in Members(result.pruned) && result.pruned != [];
    DoomedIsUndeclared(policy, run, objs, opts, r);
  }

  /** Exactly when an Apply that succeeds deletes an object it has just applied. */
  lemma PrunesItsOwnObject(
    policy: Policy, s: Server, run: Run, s': Server, objs: seq<Manifest>, opts: Options, result: Result,
    sel: Selector, m: Manifest)
    requires Valid(s) && ApplyRun(policy, s, run, s', objs, opts, result, false)
    requires opts.selector == Some(sel) && !opts.dryRun && Labelled(objs, sel) && HonestDiscovery(policy, run, opts)
    requires m in objs && Alive(run.applied, Canonical(s.namespaced, m))
    ensures Canonical(s.namespaced, m) in result.pruned <==> SelfPruned(policy, s.namespaced, objs, opts, m)
  {
    RunKeepsScope(policy, s, run, s', objs, opts, result, false);
    var r := Canonical(s.namespaced, m);
    assert r in result.pruned <==> r in Doomed(policy, run, objs, opts) by {
      assert r in result.pruned <==> r in Members(result.pruned);
    }
    assert Owned(run.applied, sel, r) by {
      assert WrittenBySome(run.applied, objs, r);
      WrittenIsSelected(run.applied, objs, sel, r);
    }
    assert r.gk in Reached(run.applied, run.gvks) <==> r.gk != CRD || CRD in GvkKinds(opts.pruneTypes) by {
      CoveredIsReached(policy, run, objs, opts, r);
    }
    SparedExactly(run.applied, objs, opts, m);
  }

  /** A manifest object escapes pruning by its own reference, by another one's, or not at all. */
  lemma SparedExactly(s: Server, objs: seq<Manifest>, opts: Options, m: Manifest)
    requires Valid(s) && m in objs
    ensures Canonical(s.namespaced, m) in Spared(s.namespaced, objs, opts.inventory) <==>
            m.namespace == "" || m.gvk.gk in s.namespaced
            || exists x :: x in objs && Declared(s.namespaced, x) == Canonical(s.namespaced, m)
  {
    var r := Canonical(s.namespaced, m);
    if m.namespace == "" || m.gvk.gk in s.namespaced {
      assert Declared(s.namespaced, m) == r;
    } else if opts.inventory.Some? {
      assert r.gk != CONFIG_MAP && r != InventoryRef(opts.inventory.value);
    }
  }

  // ----- the exact condition for dropping kinds from the inventory -----

  /** Every kind that drops out of the inventory while objects of it remain was really listed. */
  ghost predicate DropsOnlyListedKinds(policy: Policy, run: Run, objs: seq<Manifest>, sel: Selector)
  {
    forall r | Owned(run.applied, sel, r) && r.gk !in Kinds(objs) + AlwaysKnown(policy) ::
      r.gk in Reached(run.applied, run.gvks)
  }

  /**
   The guards of the branches that skip a kind: pruning lists a kind under its first requested type, which
   must be served, or else under the type that the lookup of the recorded kind returned. No object of the
   addon that was there before the run has a kind that drops out of the inventory and fails them.
   */
  ghost predicate SkipsNoLeftover(
    policy: Policy, s: Server, run: Run, objs: seq<Manifest>, opts: Options, sel: Selector)
  {
    forall r | Owned(s, sel, r) && r.gk !in Kinds(objs) + AlwaysKnown(policy) :: Looked(run, opts, r.gk)
  }

  ghost predicate Looked(run: Run, opts: Options, gk: GroupKind)
  {
    if gk in GvkKinds(opts.pruneTypes) then FirstOf(opts.pruneTypes, gk).value in run.applied.served
    else gk !in run.unmapped
  }

  /** A recorded kind that drops out and still has objects is listed exactly when it passes the guards. */
  lemma LookedIsReached(policy: Policy, run: Run, objs: seq<Manifest>, opts: Options, gk: GroupKind)
    requires Valid(run.applied) && gk in run.previous && gk in run.applied.preferred
    requires IsPruneList(policy, run.applied, objs, run.previous, run.unmapped, opts, run.gvks)
    requires gk !in Kinds(objs) + AlwaysKnown(policy)
    ensures gk in Reached(run.applied, run.gvks) <==> Looked(run, opts, gk)
  {
    if Looked(run, opts, gk) {
      OtherKinds(policy, objs);
      var t := PruneTypeOf(policy, run.applied, objs, run.previous, run.unmapped, opts, gk);
      assert t.Some? && t.value.gk == gk && t.value in run.applied.served;
      assert t.value in run.gvks;
    } else {
      SkippedIsUnreached(policy, run, objs, opts, gk);
    }
  }

  /** Applying neither adds to nor takes from the objects of kinds outside the manifest. */
  lemma SameOutsideManifest(s: Server, run: Run, objs: seq<Manifest>, sel: Selector, key: Key, r: Ref)
    requires Settled(run.prepared, run.applied, objs) && r.gk !in Kinds(objs)
    requires r != InventoryRef(key) && Find(run.prepared, r) == Find(s, r)
    ensures Owned(run.applied, sel, r) <==> Owned(s, sel, r)
  {
    forall m | m in objs ensures !Wrote(run.applied, m, r) {
      assert m.gvk.gk in Kinds(objs);
    }
  }

  lemma GuardsExactly(
    policy: Policy, s: Server, run: Run, objs: seq<Manifest>, opts: Options, sel: Selector, key: Key)
    requires SoundPolicy(policy) && Covered(policy, s, sel, key) && run.previous == RecordedKinds(s, key)
    requires Valid(run.applied) && Settled(run.prepared, run.applied, objs)
    requires forall r | r != InventoryRef(key) :: Find(run.prepared, r) == Find(s, r)
    requires IsPruneList(policy, run.applied, objs, run.previous, run.unmapped, opts, run.gvks)
    ensures DropsOnlyListedKinds(policy, run, objs, sel) <==> SkipsNoLeftover(policy, s, run, objs, opts, sel)
  {
    forall r: Ref | r.gk !in Kinds(objs) + AlwaysKnown(policy)
      ensures Owned(run.applied, sel, r) <==> Owned(s, sel, r)
      ensures Owned(s, sel, r) ==> (r.gk in Reached(run.applied, run.gvks) <==> Looked(run, opts, r.gk))
    {
      assert r != InventoryRef(key);
      SameOutsideManifest(s, run, objs, sel, key, r);
      if Owned(s, sel, r) { LookedIsReached(policy, run, objs, opts, r.gk); }
    }
  }

  /**
   Without assuming anything about discovery: after a successful Apply the inventory covers the addon if
   and only if no leftover of the addon has a kind that drops out of the inventory and was skipped, because
   its requested version is not served or its lookup failed.
   */
  lemma CoverAfterSuccessExactly(
    policy: Policy, s: Server, run: Run, s': Server, objs: seq<Manifest>, opts: Options, result: Result,
    sel: Selector, key: Key)
    requires SoundPolicy(policy) && Invariant(policy, s, sel, key)
    requires ApplyRun(policy, s, run, s', objs, opts, result, false)
    requires opts.inventory == Some(key) && opts.selector == Some(sel) && !opts.dryRun
    requires Orderly(s.namespaced, objs, key)
    ensures Covered(policy, s', sel, key) <==> SkipsNoLeftover(policy, s, run, objs, opts, sel)
  {
    ListedKindsDecide(policy, s, run, s', objs, opts, result, sel, key);
    assert run.previous == RecordedKinds(s, key)
           && forall r | r != InventoryRef(key) :: Find(run.prepared, r) == Find(s, r) by {
      PreparedRecords(policy, s, run.prepared, objs, opts, run.previous, false, sel, key);
    }
    GuardsExactly(policy, s, run, objs, opts, sel, key);
  }

  lemma ListedKindsDecide(
    policy: Policy, s: Server, run: Run, s': Server, objs: seq<Manifest>, opts: Options, result: Result,
    sel: Selector, key: Key)
    requires SoundPolicy(policy) && Invariant(policy, s, sel, key)
    requires ApplyRun(policy, s, run, s', objs, opts, result, false)
    requires opts.inventory == Some(key) && opts.selector == Some(sel) && !opts.dryRun
    requires Orderly(s.namespaced, objs, key)
    ensures Covered(policy, s', sel, key) <==> DropsOnlyListedKinds(policy, run, objs, sel)
  {
    assert RecordedKinds(s', key) == Kinds(objs) by {
      ThinnedValid(run.applied, run.pruned, Doomed(policy, run, objs, opts));
      WritingRecords(policy.manager, run.pruned, s', key, Kinds(objs));
    }
    forall r | r != InventoryRef(key)
      ensures Owned(s', sel, r) <==> Owned(run.applied, sel, r) && r !in Doomed(policy, run, objs, opts)
    {
      LeftExactly(policy, run, s', objs, opts, result, sel, key, r);
    }
    CoverOfSurvivors(policy, run, s', objs, opts, sel, key);
  }

  /** What is left at the end is what was there before pruning, without the stale objects. */
  lemma LeftExactly(
    policy: Policy, run: Run, s': Server, objs: seq<Manifest>, opts: Options, result: Result, sel: Selector, key: Key,
    r: Ref)
    requires Valid(run.applied) && !opts.dryRun && r != InventoryRef(key)
    requires PruneStage(policy, run, objs, opts, result) && FullyPruned(policy, run, objs, opts, result)
    requires InventoryWritten(policy.manager, run.pruned, s', key, Kinds(objs))
    requires forall m | m in objs :: Clean(m.gvk.gk)
    ensures Owned(s', sel, r) <==> Owned(run.applied, sel, r) && r !in Doomed(policy, run, objs, opts)
  {
    ThinnedValid(run.applied, run.pruned, Doomed(policy, run, objs, opts));
    WritingRecords(policy.manager, run.pruned, s', key, Kinds(objs));
    assert Find(s', r) == Find(run.pruned, r);
    SurvivorExactly(policy, run, objs, opts, result, sel, r);
  }

  lemma CoverOfSurvivors(
    policy: Policy, run: Run, s': Server, objs: seq<Manifest>, opts: Options, sel: Selector, key: Key)
    requires SoundPolicy(policy) && opts.selector == Some(sel) && RecordedKinds(s', key) == Kinds(objs)
    requires forall r | r != InventoryRef(key) ::
               Owned(s', sel, r) <==> Owned(run.applied, sel, r) && r !in Doomed(policy, run, objs, opts)
    ensures Covered(policy, s', sel, key) <==> DropsOnlyListedKinds(policy, run, objs, sel)
  {
    if DropsOnlyListedKinds(policy, run, objs, sel) {
      forall r | Owned(s', sel, r) ensures r.gk in Kinds(objs) + AlwaysKnown(policy) {
        if r != InventoryRef(key) {
          DroppedIsDoomed(policy, run, objs, opts, sel, r);
        }
      }
    } else {
      var r :| Owned(run.applied, sel, r) && r.gk !in Kinds(objs) + AlwaysKnown(policy)
               && r.gk !in Reached(run.applied, run.gvks);
      assert r !in Doomed(policy, run, objs, opts) && r != InventoryRef(key);
      assert Owned(s', sel, r);
    }
  }

  lemma SurvivorExactly(
    policy: Policy, run: Run, objs: seq<Manifest>, opts: Options, result: Result, sel: Selector, r: Ref)
    requires PruneStage(policy, run, objs, opts, result) && FullyPruned(policy, run, objs, opts, result)
    requires !opts.dryRun
    ensures Owned(run.pruned, sel, r) <==> Owned(run.applied, sel, r) && r !in Doomed(policy, run, objs, opts)
  {
    assert r in Doomed(policy, run, objs, opts) ==> Gone(run.pruned, r);
  }

  lemma DroppedIsDoomed(policy: Policy, run: Run, objs: seq<Manifest>, opts: Options, sel: Selector, r: Ref)
    requires SoundPolicy(policy) && opts.selector == Some(sel) && DropsOnlyListedKinds(policy, run, objs, sel)
    requires Owned(run.applied, sel, r)
    ensures r.gk in Kinds(objs) + AlwaysKnown(policy) || r in Doomed(policy, run, objs, opts)
  {
  }

  /** The family of failures: a leftover of a skipped kind is forgotten. */
  lemma SkippedKindIsLost(
    policy: Policy, s: Server, run: Run, s': Server, objs: seq<Manifest>, opts: Options, result: Result,
    sel: Selector, key: Key, r: Ref)
    requires SoundPolicy(policy) && Invariant(policy, s, sel, key)
    requires ApplyRun(policy, s, run, s', objs, opts, result, false)
    requires opts.inventory == Some(key) && opts.selector == Some(sel) && !opts.dryRun
    requires Orderly(s.namespaced, objs, key)
    requires Owned(s, sel, r) && r.gk !in Kinds(objs) + AlwaysKnown(policy) && !Looked(run, opts, r.gk)
    ensures Owned(s', sel, r) && !Covered(policy, s', sel, key)
  {
    CoverAfterSuccessExactly(policy, s, run, s', objs, opts, result, sel, key);
    assert run.previous == RecordedKinds(s, key) && Find(run.prepared, r) == Find(s, r) by {
      PreparedRecords(policy, s, run.prepared, objs, opts, run.previous, false, sel, key);
    }
    SameOutsideManifest(s, run, objs, sel, key, r);
    SkippedIsUnreached(policy, run, objs, opts, r.gk);
    LeftExactly(policy, run, s', objs, opts, result, sel, key, r);
  }

  lemma OtherKinds(policy: Policy, objs: seq<Manifest>)
    ensures GvkKinds(policy.defaults + ObjectGvks(objs)) == GvkKinds(policy.defaults) + Kinds(objs)
  {
    var others := policy.defaults + ObjectGvks(objs);
    forall g | g in others ensures g.gk in GvkKinds(policy.defaults) + Kinds(objs) {
      if g !in policy.defaults {
        var i :| 0 <= i < |objs| && ObjectGvks(objs)[i] == g;
        assert objs[i] in objs;
      }
    }
    forall gk | gk in GvkKinds(policy.defaults) + Kinds(objs) ensures gk in GvkKinds(others) {
      if gk in GvkKinds(policy.defaults) {
        var g :| g in policy.defaults && g.gk == gk;
        assert g in others;
      } else {
        var m :| m in objs && m.gvk.gk == gk;
        var i :| 0 <= i < |objs| && objs[i] == m;
        assert others[|policy.defaults| + i] == m.gvk;
      }
    }
  }

  lemma SkippedIsUnreached(policy: Policy, run: Run, objs: seq<Manifest>, opts: Options, gk: GroupKind)
    requires IsPruneList(policy, run.applied, objs, run.previous, run.unmapped, opts, run.gvks)
    requires gk !in Kinds(objs) + AlwaysKnown(policy)
    requires !Looked(run, opts, gk)
    ensures gk !in Reached(run.applied, run.gvks)
  {
    OtherKinds(policy, objs);
    forall g | g in run.gvks && g in run.applied.served ensures g.gk != gk {
      assert PruneTypeOf(policy, run.applied, objs, run.previous, run.unmapped, opts, g.gk) == Some(g);
    }
  }

  // ----- dry runs -----

  /** A successful dry run reports exactly the objects that a successful run then prunes. */
  lemma DryRunPredicts(
    policy: Policy, s: Server, objs: seq<Manifest>, opts: Options, sel: Selector, key: Key,
    dry: Run, dryAfter: Server, dryResult: Result, run: Run, s': Server, result: Result)
    requires SoundPolicy(policy) && Invariant(policy, s, sel, key) && WellScoped(s.namespaced, objs)
    requires !opts.dryRun && opts.selector == Some(sel) && WellUsed(policy, s, run, objs, opts, sel, key)
    requires HonestDiscovery(policy, dry, opts)
    requires ApplyRun(policy, s, dry, dryAfter, objs, opts.(dryRun := true), dryResult, false)
    requires ApplyRun(policy, s, run, s', objs, opts, result, false)
    ensures dryAfter == s && Members(dryResult.pruned) == Members(result.pruned)
  {
    RunKeepsScope(policy, s, run, s', objs, opts, result, false);
    assert RecordedKinds(s, key) == run.previous
           && forall x | x != InventoryRef(key) :: Find(run.prepared, x) == Find(s, x) by {
      PreparedRecords(policy, s, run.prepared, objs, opts, run.previous, false, sel, key);
    }
    SameDoom(policy, s, dry, run, objs, opts, sel, key);
  }

  lemma SameDoom(
    policy: Policy, s: Server, dry: Run, run: Run, objs: seq<Manifest>, opts: Options, sel: Selector, key: Key)
    requires Covered(policy, s, sel, key) && WellScoped(s.namespaced, objs)
    requires dry.applied == s && Valid(s) && HonestDiscovery(policy, dry, opts)
    requires Valid(run.applied) && HonestDiscovery(policy, run, opts)
    requires opts.selector == Some(sel) && opts.inventory == Some(key)
    requires run.prepared.namespaced == run.applied.namespaced == s.namespaced
    requires Settled(run.prepared, run.applied, objs)
    requires forall x | x != InventoryRef(key) :: Find(run.prepared, x) == Find(s, x)
    requires IsPruneList(policy, dry.applied, objs, dry.previous, dry.unmapped, opts.(dryRun := true), dry.gvks)
    requires IsPruneList(policy, run.applied, objs, run.previous, run.unmapped, opts, run.gvks)
    requires forall m | m in objs :: m.gvk in dry.applied.served && m.gvk in run.applied.served
    requires dry.previous == run.previous == RecordedKinds(s, key)
    ensures Doomed(policy, dry, objs, opts.(dryRun := true)) == Doomed(policy, run, objs, opts)
  {
    forall r
      ensures r in Doomed(policy, dry, objs, opts.(dryRun := true)) <==> r in Doomed(policy, run, objs, opts)
    {
      if r !in Spared(s.namespaced, objs, opts.inventory) {
        SameBeforeAndAfter(s, run, objs, opts, key, r);
        if Owned(s, sel, r) {
          SameReach(policy, dry, run, objs, opts, r);
        }
      }
    }
  }

  lemma SameReach(policy: Policy, dry: Run, run: Run, objs: seq<Manifest>, opts: Options, r: Ref)
    requires Valid(dry.applied) && HonestDiscovery(policy, dry, opts)
    requires Valid(run.applied) && HonestDiscovery(policy, run, opts)
    requires IsPruneList(policy, dry.applied, objs, dry.previous, dry.unmapped, opts.(dryRun := true), dry.gvks)
    requires IsPruneList(policy, run.applied, objs, run.previous, run.unmapped, opts, run.gvks)
    requires forall m | m in objs :: m.gvk in dry.applied.served && m.gvk in run.applied.served
    requires r in dry.applied.objects && r in run.applied.objects && dry.previous == run.previous
    requires r.gk in run.previous + AlwaysKnown(policy)
    ensures r.gk in Reached(dry.applied, dry.gvks) <==> r.gk in Reached(run.applied, run.gvks)
  {
    CoveredIsReached(policy, dry, objs, opts.(dryRun := true), r);
    CoveredIsReached(policy, run, objs, opts, r);
  }

  lemma SameBeforeAndAfter(s: Server, run: Run, objs: seq<Manifest>, opts: Options, key: Key, r: Ref)
    requires WellScoped(s.namespaced, objs) && opts.inventory == Some(key)
    requires run.prepared.namespaced == s.namespaced && Settled(run.prepared, run.applied, objs)
    requires forall x | x != InventoryRef(key) :: Find(run.prepared, x) == Find(s, x)
    requires r !in Spared(s.namespaced, objs, opts.inventory)
    ensures Find(run.applied, r) == Find(s, r)
  {
    forall m | m in objs ensures Canonical(s.namespaced, m) != r {
      WellScopedDeclares(s.namespaced, objs, m);
      assert Declared(s.namespaced, m) in Spared(s.namespaced, objs, opts.inventory);
    }
    assert !WrittenBySome(run.applied, objs, r);
    assert Find(run.prepared, r) == Find(s, r);
  }

  // ----- Delete -----

  /**
   Delete forgets the inventory whatever is left of the addon. The addon stays covered exactly when
   everything of it outside the always-known kinds was in the manifest that was deleted.
   */
  lemma DeleteKeepsCoverExactly(
    policy: Policy, s: Server, mid: Server, s': Server, objs: seq<Manifest>, sel: Selector, key: Key)
    requires SoundPolicy(policy) && InventoryRef(key) !in DeleteTargets(s, objs, Some(sel))
    requires DeleteRun(s, mid, s', objs, Some(sel), Some(key), false) && InventoryRef(key) !in s'.objects
    ensures Covered(policy, s', sel, key) <==>
            NamesTheRest(policy, s, objs, sel)
  {
    var targets := DeleteTargets(s, objs, Some(sel));
    forall r | r != InventoryRef(key) ensures Owned(s', sel, r) <==> Owned(s, sel, r) && r !in targets {
      DeleteSurvivors(s, mid, s', targets, sel, key, r);
    }
    assert InventoryRef(key).gk in AlwaysKnown(policy);
  }

  lemma DeleteSurvivors(s: Server, mid: Server, s': Server, targets: set<Ref>, sel: Selector, key: Key, r: Ref)
    requires Thinned(s, mid, targets) && Deleted(mid, s', InventoryRef(key)) && r != InventoryRef(key)
    requires forall x | x in targets :: Gone(mid, x)
    ensures Owned(s', sel, r) <==> Owned(s, sel, r) && r !in targets
  {
    assert Find(s', r) == Find(mid, r);
  }
}
