/**
 What Apply and Delete take away, said in terms of the manifest, the labels and the names of the objects
 alone: which types are looked through, which objects are pruned and which are deleted.
 */
module ApplyPlain {
  import opened Sequences
  import opened Strings
  import opened Inventory
  import opened Manifests
  import opened ApiServers
  import opened ApplySpec
  import Appliers

  /** The manifest object names the object `r`: same kind and name, and "default" for a missing namespace. */
  predicate NamesObject(scope: set<GroupKind>, m: Manifest, r: Ref)
  {
    && m.gvk.gk == r.gk && m.name == r.name
    && r.namespace == if m.namespace != "" then m.namespace else if m.gvk.gk in scope then "default" else ""
  }

  /** The manifest object is stored as `r`: objects of cluster-scoped kinds are stored without a namespace. */
  predicate StoredAs(scope: set<GroupKind>, m: Manifest, r: Ref)
  {
    && m.gvk.gk == r.gk && m.name == r.name
    && r.namespace == if m.gvk.gk !in scope then "" else if m.namespace == "" then "default" else m.namespace
  }

  lemma NamesInPlain(scope: set<GroupKind>, m: Manifest, r: Ref)
    ensures NamesObject(scope, m, r) <==> Declared(scope, m) == r
    ensures StoredAs(scope, m, r) <==> Canonical(scope, m) == r
  {
  }

  // ----- the types looked through -----

  predicate FirstAt(gvks: seq<Gvk>, g: Gvk, i: nat)
  {
    i < |gvks| && gvks[i] == g && forall j | 0 <= j < i :: gvks[j].gk != g.gk
  }

  /** The first type of its kind in the list. */
  ghost predicate FirstOfKind(gvks: seq<Gvk>, g: Gvk)
  {
    exists i: nat :: FirstAt(gvks, g, i)
  }

  lemma FirstShifts(gvks: seq<Gvk>, g: Gvk, i: nat)
    requires gvks != [] && gvks[0].gk != g.gk
    ensures FirstAt(gvks, g, i + 1) <==> FirstAt(gvks[1..], g, i)
  {
    if FirstAt(gvks[1..], g, i) {
      assert forall j | 0 < j < i + 1 :: gvks[j] == gvks[1..][j - 1];
    }
  }

  lemma {:induction false} FirstInPlain(gvks: seq<Gvk>, g: Gvk)
    ensures FirstOf(gvks, g.gk) == Some(g) <==> FirstOfKind(gvks, g)
  {
    if gvks != [] {
      if gvks[0].gk == g.gk {
        assert FirstAt(gvks, g, 0) <==> gvks[0] == g;
      } else {
        FirstInPlain(gvks[1..], g);
        if i: nat :| FirstAt(gvks[1..], g, i) {
          FirstShifts(gvks, g, i);
        }
        if i: nat :| FirstAt(gvks, g, i) {
          assert i > 0;
          FirstShifts(gvks, g, i - 1);
        }
      }
    }
  }

  /**
   Which types are looked through: of a requested kind, the first one requested; of any other kind but CRDs,
   the first among the default types and those of the manifest; of a kind that is in neither, the version the
   server prefers, if the kind was recorded and its lookup worked.
   */
  lemma ListedTypes(
    policy: Policy, s: Server, objs: seq<Manifest>, previous: set<GroupKind>, unmapped: set<GroupKind>,
    opts: Options, gvks: seq<Gvk>, g: Gvk)
    requires IsPruneList(policy, s, objs, previous, unmapped, opts, gvks)
    ensures var others := policy.defaults + ObjectGvks(objs);
            g in gvks <==>
              if exists t :: t in opts.pruneTypes && t.gk == g.gk then FirstOfKind(opts.pruneTypes, g)
              else if g.gk == GroupKind("apiextensions.k8s.io", "CustomResourceDefinition") then false
              else if exists t :: t in others && t.gk == g.gk then FirstOfKind(others, g)
              else g.gk in previous && g.gk !in unmapped && g.gk in s.preferred && g.version == s.preferred[g.gk]
  {
    var others := policy.defaults + ObjectGvks(objs);
    FirstInPlain(opts.pruneTypes, g);
    FirstInPlain(others, g);
    KindsInPlain(opts.pruneTypes, g.gk);
    KindsInPlain(others, g.gk);
  }

  lemma KindsInPlain(gvks: seq<Gvk>, gk: GroupKind)
    ensures gk in GvkKinds(gvks) <==> exists t :: t in gvks && t.gk == gk
  {
  }

  // ----- what is pruned -----

  predicate Carries(labels: map<string, string>, sel: Selector)
  {
    forall k | k in sel :: k in labels && labels[k] == sel[k]
  }

  /**
   What a successful Apply with a selector prunes: the live objects of the listed and served types that carry
   the selected labels and are not being deleted, except those the manifest names, the inventory ConfigMap and
   the four namespaces that are never pruned.
   */
  lemma PrunedExactly(
    s: Server, run: Run, s': Server, objs: seq<Manifest>, opts: Options, result: Result, sel: Selector, r: Ref)
    requires ApplyRun(Appliers.DEFAULT_POLICY, s, run, s', objs, opts, result, false) && opts.selector == Some(sel)
    ensures var now := run.applied;
            r in result.pruned <==>
              && r in now.objects && !now.objects[r].terminating && Carries(now.objects[r].labels, sel)
              && (exists g :: g in run.gvks && g in now.served && g.gk == r.gk)
              && (forall m | m in objs :: !NamesObject(now.namespaced, m, r))
              && (opts.inventory.Some? ==>
                    r != Ref(GroupKind("", "ConfigMap"), opts.inventory.value.namespace, opts.inventory.value.name))
              && !(r.gk == GroupKind("", "Namespace")
                   && r.name in {"default", "kube-system", "kube-public", "kube-node-lease"})
  {
    assert r in result.pruned <==> r in Members(result.pruned);
    SparedInPlain(run.applied.namespaced, objs, opts.inventory, r);
    ReachedInPlain(run.applied, run.gvks, r.gk);
    ProtectedInPlain(r);
  }

  lemma SparedInPlain(scope: set<GroupKind>, objs: seq<Manifest>, inventory: Option<Key>, r: Ref)
    ensures r in Spared(scope, objs, inventory) <==>
            || (exists m :: m in objs && NamesObject(scope, m, r))
            || (inventory.Some?
                && r == Ref(GroupKind("", "ConfigMap"), inventory.value.namespace, inventory.value.name))
  {
    forall m ensures NamesObject(scope, m, r) <==> Declared(scope, m) == r {
      NamesInPlain(scope, m, r);
    }
  }

  lemma ReachedInPlain(s: Server, gvks: seq<Gvk>, gk: GroupKind)
    ensures gk in Reached(s, gvks) <==> exists g :: g in gvks && g in s.served && g.gk == gk
  {
  }

  lemma ProtectedInPlain(r: Ref)
    ensures IsProtected(Appliers.DEFAULT_POLICY, r) <==>
            r.gk == GroupKind("", "Namespace")
            && r.name in {"default", "kube-system", "kube-public", "kube-node-lease"}
  {
  }

  // ----- what is deleted -----

  /**
   What a successful Delete removes: exactly the live objects that are stored for a manifest object of a served
   type and, with a selector, carry the selected labels.
   */
  lemma DeletedExactly(
    s: Server, mid: Server, s': Server, objs: seq<Manifest>, selector: Option<Selector>, inventory: Option<Key>, r: Ref)
    requires DeleteRun(s, mid, s', objs, selector, inventory, false)
    requires r in s.objects && !s.objects[r].terminating
    ensures Gone(mid, r) <==>
            && (exists m :: m in objs && m.gvk in s.served && StoredAs(s.namespaced, m, r))
            && (selector.Some? ==> Carries(s.objects[r].labels, selector.value))
  {
    forall m ensures StoredAs(s.namespaced, m, r) <==> Canonical(s.namespaced, m) == r {
      NamesInPlain(s.namespaced, m, r);
    }
    TargetInPlain(s, objs, selector, r);
    if r !in DeleteTargets(s, objs, selector) {
      assert r in mid.objects && mid.objects[r] == s.objects[r];
    }
  }

  lemma TargetInPlain(s: Server, objs: seq<Manifest>, selector: Option<Selector>, r: Ref)
    requires r in s.objects
    ensures r in DeleteTargets(s, objs, selector) <==>
            && (exists m :: m in objs && m.gvk in s.served && Canonical(s.namespaced, m) == r)
            && (selector.Some? ==> Carries(s.objects[r].labels, selector.value))
  {
    if m :| m in objs && m.gvk in s.served && Canonical(s.namespaced, m) == r {
      assert selector.Some? ==>
               (Matches(selector.value, s.objects[r].labels) <==> Carries(s.objects[r].labels, selector.value));
    }
  }
}
