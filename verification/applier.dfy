/**
 The Applier (pkg/nativeclient/applier.go and inventory.go): applies a manifest with server-side
 apply, prunes what is no longer part of it and keeps the inventory of applied kinds.
 */
module Appliers {
  import opened Sequences
  import opened Strings
  import opened Inventory
  import opened Manifests
  import opened ApiServers
  import opened ApplySpec

  const DEFAULT_PRUNE_TYPES: seq<Gvk> := [
    Gvk(GroupKind("", "ConfigMap"), "v1"),
    Gvk(GroupKind("", "Namespace"), "v1"),
    Gvk(GroupKind("", "PersistentVolumeClaim"), "v1"),
    Gvk(GroupKind("", "PersistentVolume"), "v1"),
    Gvk(GroupKind("", "Pod"), "v1"),
    Gvk(GroupKind("", "ReplicationController"), "v1"),
    Gvk(GroupKind("", "Secret"), "v1"),
    Gvk(GroupKind("", "Service"), "v1"),
    Gvk(GroupKind("batch", "Job"), "v1"),
    Gvk(GroupKind("batch", "CronJob"), "v1"),
    Gvk(GroupKind("networking.k8s.io", "Ingress"), "v1"),
    Gvk(GroupKind("apps", "DaemonSet"), "v1"),
    Gvk(GroupKind("apps", "Deployment"), "v1"),
    Gvk(GroupKind("apps", "ReplicaSet"), "v1"),
    Gvk(GroupKind("apps", "StatefulSet"), "v1")]

  const PROTECTED_NAMESPACES: set<string> := {"default", "kube-system", "kube-public", "kube-node-lease"}

  const DEFAULT_POLICY := Policy(DEFAULT_PRUNE_TYPES, PROTECTED_NAMESPACES, "kubeone")

  /** Where the goroutine of one object stands; `moved` when managed fields were handed over. */
  datatype Stage = Waiting | Migrating | Reapplying | Applied(moved: bool) | Errored

  predicate Active(st: Stage)
  {
    st.Waiting? || st.Migrating? || st.Reapplying?
  }

  function RequestsLeft(st: Stage): nat
  {
    match st
    case Waiting => 3
    case Migrating => 2
    case Reapplying => 1
    case Applied(_) => 0
    case Errored => 0
  }

  function AllRequestsLeft(stages: seq<Stage>): nat
  {
    if stages == [] then 0 else RequestsLeft(stages[0]) + AllRequestsLeft(stages[1..])
  }

  lemma {:induction false} FewerRequests(stages: seq<Stage>, i: nat, st: Stage)
    requires i < |stages| && RequestsLeft(st) < RequestsLeft(stages[i])
    ensures AllRequestsLeft(stages[i := st]) < AllRequestsLeft(stages)
  {
    if i == 0 {
      assert stages[i := st][1..] == stages[1..];
    } else {
      FewerRequests(stages[1..], i - 1, st);
      assert stages[i := st][1..] == stages[1..][i - 1 := st];
    }
  }

  /** The references of the objects that were applied (or moved), in manifest order. */
  function Outcome(scope: set<GroupKind>, objs: seq<Manifest>, stages: seq<Stage>, movedOnly: bool): seq<Ref>
    requires |objs| == |stages|
  {
    if objs == [] then []
    else
      var n := |objs| - 1;
      Outcome(scope, objs[..n], stages[..n], movedOnly) + Reference(scope, objs[n], stages[n], movedOnly)
  }

  function Reference(scope: set<GroupKind>, m: Manifest, st: Stage, movedOnly: bool): seq<Ref>
  {
    if st.Applied? && (movedOnly ==> st.moved) then [Declared(scope, m)] else []
  }

  lemma {:induction false} AllApplied(scope: set<GroupKind>, objs: seq<Manifest>, stages: seq<Stage>)
    requires |objs| == |stages| && forall st | st in stages :: st.Applied?
    ensures Outcome(scope, objs, stages, false) == DeclaredAll(scope, objs)
  {
    if objs != [] {
      AllApplied(scope, objs[..|objs| - 1], stages[..|objs| - 1]);
    }
  }

  lemma {:induction false} OutcomeMembers(scope: set<GroupKind>, objs: seq<Manifest>, stages: seq<Stage>)
    requires |objs| == |stages|
    ensures Members(Outcome(scope, objs, stages, true)) <= Members(Outcome(scope, objs, stages, false))
    ensures Members(Outcome(scope, objs, stages, false)) <= Spared(scope, objs, None)
  {
    if objs != [] {
      var n := |objs| - 1;
      OutcomeMembers(scope, objs[..n], stages[..n]);
      MembersConcat(Outcome(scope, objs[..n], stages[..n], true), Reference(scope, objs[n], stages[n], true));
      MembersConcat(Outcome(scope, objs[..n], stages[..n], false), Reference(scope, objs[n], stages[n], false));
      SparedMonotone(scope, objs[..n], objs);
      assert objs[n] in objs;
    }
  }

  lemma {:induction false} NoneMoved(scope: set<GroupKind>, objs: seq<Manifest>, stages: seq<Stage>)
    requires |objs| == |stages| && forall i | 0 <= i < |stages| :: stages[i].Applied? ==> !stages[i].moved
    ensures Outcome(scope, objs, stages, true) == []
  {
    if objs != [] {
      NoneMoved(scope, objs[..|objs| - 1], stages[..|objs| - 1]);
    }
  }

  lemma MembersConcat(a: seq<Ref>, b: seq<Ref>)
    ensures Members(a + b) == Members(a) + Members(b)
  {
  }

  lemma SparedMonotone(scope: set<GroupKind>, part: seq<Manifest>, objs: seq<Manifest>)
    requires forall m | m in part :: m in objs
    ensures Spared(scope, part, None) <= Spared(scope, objs, None)
  {
  }

  lemma Reported(scope: set<GroupKind>, phase: seq<Manifest>, stages: seq<Stage>, objs: seq<Manifest>, dryRun: bool)
    requires |phase| == |stages| && forall m | m in phase :: m in objs
    requires dryRun ==> forall i | 0 <= i < |stages| :: stages[i].Applied? ==> !stages[i].moved
    ensures Members(Outcome(scope, phase, stages, true)) <= Members(Outcome(scope, phase, stages, false))
    ensures Members(Outcome(scope, phase, stages, false)) <= Spared(scope, objs, None)
    ensures dryRun ==> Outcome(scope, phase, stages, true) == []
  {
    OutcomeMembers(scope, phase, stages);
    SparedMonotone(scope, phase, objs);
    if dryRun { NoneMoved(scope, phase, stages); }
  }

  class Applier {
    const client: ApiServer
    const policy: Policy

    constructor (c: ApiServer)
      ensures client == c && policy == DEFAULT_POLICY
    {
      client := c;
      policy := DEFAULT_POLICY;
    }

    /** The scope lookup that defaulting needs; only an object without a namespace needs one. */
    method DefaultNamespace(m: Manifest) returns (r: Reply, desired: Manifest)
      ensures r == Ok ==> desired == Defaulted(client.state.namespaced, m)
      ensures r == NoMatch ==> m.gvk !in client.state.served
      ensures client.reliable ==> r != Failed && (m.gvk in client.state.served ==> r == Ok)
    {
      desired := m;
      if m.namespace != "" {
        return Ok, m;
      }
      if m.gvk !in client.state.served {
        return NoMatch, m;
      }
      if !client.reliable { if * { return Failed, m; } }
      if m.gvk.gk in client.state.namespaced {
        desired := m.(namespace := "default");
      }
      return Ok, desired;
    }

    /** The next request for one object, and the stage its reply leads to. */
    method Request(m: Manifest, st: Stage, dryRun: bool, ghost objs: seq<Manifest>) returns (next: Stage)
      requires Valid(client.state) && Active(st) && m in objs
      modifies client
      ensures Valid(client.state) && Settled(old(client.state), client.state, objs)
      ensures client.state.served == old(client.state.served)
      ensures dryRun ==> client.state == old(client.state)
      ensures RequestsLeft(next) < RequestsLeft(st)
      ensures dryRun && st == Waiting ==> next == Errored || next == Applied(false)
      ensures st == Waiting && next != Errored ==> m.gvk in client.state.served
      ensures st == Waiting && next != Errored && !dryRun ==>
                WrittenBySome(client.state, objs, Canonical(client.state.namespaced, m))
      ensures client.reliable && m.gvk in client.state.served ==> next != Errored
      ensures st == Waiting && next != Errored ==> next == if dryRun then Applied(false) else Migrating
      ensures st == Migrating ==> client.state == old(client.state) && next != Applied(true)
      ensures st == Reapplying && next != Errored ==>
                next == Applied(true)
                && (!dryRun ==> Upserted(old(client.state), client.state, Defaulted(old(client.state).namespaced, m)))
    {
      ghost var s0 := client.state;
      SettledRefl(s0, objs);
      if st == Migrating {
        var fails := false;
        if !client.reliable { fails := *; }
        if fails {
          next := Errored;
        } else if * {
          next := Applied(false);
        } else {
          next := Reapplying;
        }
      } else {
        var r, desired := DefaultNamespace(m);
        if r == Ok {
          r := client.Apply(desired, dryRun);
          if client.state != s0 || (r == Ok && !dryRun) {
            UpsertSettles(s0, client.state, m, objs);
          }
        }
        next := if r != Ok then Errored
                else if st == Reapplying then Applied(true)
                else if dryRun then Applied(false)
                else Migrating;
      }
    }

    /** What is known of an object whose goroutine has sent its first apply. */
    ghost predicate Known(m: Manifest, st: Stage, s: Server, dryRun: bool, objs: seq<Manifest>)
    {
      && (dryRun ==> st == Waiting || st == Errored || st == Applied(false))
      && (st != Waiting && st != Errored ==>
            m.gvk in s.served && (!dryRun ==> WrittenBySome(s, objs, Canonical(s.namespaced, m))))
    }

    lemma KnownStays(m: Manifest, st: Stage, s: Server, s': Server, dryRun: bool, objs: seq<Manifest>)
      requires Known(m, st, s, dryRun, objs) && Settled(s, s', objs)
      ensures Known(m, st, s', dryRun, objs)
    {
      if st != Waiting && st != Errored && !dryRun {
        WrittenStays(s, s', objs, Canonical(s.namespaced, m));
      }
    }

    ghost predicate StagesKnown(phase: seq<Manifest>, stages: seq<Stage>, s: Server, dryRun: bool, objs: seq<Manifest>)
      requires |stages| == |phase|
    {
      forall i | 0 <= i < |phase| :: Known(phase[i], stages[i], s, dryRun, objs)
    }

    lemma StageAdvances(
      phase: seq<Manifest>, stages: seq<Stage>, i: nat, next: Stage, before: Server, now: Server, dryRun: bool,
      objs: seq<Manifest>)
      requires |stages| == |phase| && i < |stages| && StagesKnown(phase, stages, before, dryRun, objs)
      requires Settled(before, now, objs)
      requires stages[i] == Waiting ==> Known(phase[i], next, now, dryRun, objs)
      requires stages[i] != Waiting ==> stages[i] != Errored && !dryRun && next != Waiting
      ensures StagesKnown(phase, stages[i := next], now, dryRun, objs)
    {
      forall j | 0 <= j < |phase| ensures Known(phase[j], stages[i := next][j], now, dryRun, objs) {
        KnownStays(phase[j], stages[j], before, now, dryRun, objs);
      }
    }

    lemma AllKnown(phase: seq<Manifest>, stages: seq<Stage>, s: Server, dryRun: bool, objs: seq<Manifest>)
      requires |stages| == |phase| && forall i | 0 <= i < |phase| :: stages[i].Applied?
      requires StagesKnown(phase, stages, s, dryRun, objs)
      ensures forall m | m in phase :: m.gvk in s.served
      ensures !dryRun ==> AllWritten(s, phase, objs)
    {
      forall m | m in phase
        ensures m.gvk in s.served
        ensures !dryRun ==> WrittenBySome(s, objs, Canonical(s.namespaced, m))
      {
        var i :| 0 <= i < |phase| && phase[i] == m;
        assert Known(phase[i], stages[i], s, dryRun, objs);
      }
    }

    static ghost predicate AllServed(objs: seq<Manifest>, served: set<Gvk>)
    {
      forall m | m in objs :: m.gvk in served
    }

    static ghost predicate NoneErrored(stages: seq<Stage>)
    {
      forall i | 0 <= i < |stages| :: stages[i] != Errored
    }

    /** One request of some goroutine of the phase that has one to send. */
    method AnyRequest(phase: seq<Manifest>, stages: seq<Stage>, dryRun: bool, ghost objs: seq<Manifest>)
      returns (now: seq<Stage>)
      requires Valid(client.state) && |stages| == |phase| && forall m | m in phase :: m in objs
      requires exists i :: 0 <= i < |stages| && Active(stages[i])
      requires StagesKnown(phase, stages, client.state, dryRun, objs)
      modifies client
      ensures Valid(client.state) && Settled(old(client.state), client.state, objs)
      ensures client.state.served == old(client.state.served) && (dryRun ==> client.state == old(client.state))
      ensures |now| == |phase| && StagesKnown(phase, now, client.state, dryRun, objs)
      ensures AllRequestsLeft(now) < AllRequestsLeft(stages)
      ensures client.reliable && AllServed(phase, client.state.served) && NoneErrored(stages) ==> NoneErrored(now)
    {
      ghost var before := client.state;
      var i :| 0 <= i < |stages| && Active(stages[i]);
      assert phase[i] in phase;
      var next := Request(phase[i], stages[i], dryRun, objs);
      FewerRequests(stages, i, next);
      assert StagesKnown(phase, stages[i := next], client.state, dryRun, objs) by {
        StageAdvances(phase, stages, i, next, before, client.state, dryRun, objs);
      }
      now := stages[i := next];
    }

    /** All requests of a phase, in any order. */
    method Interleave(phase: seq<Manifest>, dryRun: bool, ghost objs: seq<Manifest>) returns (stages: seq<Stage>)
      requires Valid(client.state) && forall m | m in phase :: m in objs
      modifies client
      ensures Valid(client.state) && Settled(old(client.state), client.state, objs)
      ensures client.state.served == old(client.state.served) && (dryRun ==> client.state == old(client.state))
      ensures |stages| == |phase| && StagesKnown(phase, stages, client.state, dryRun, objs)
      ensures forall i | 0 <= i < |stages| :: !Active(stages[i])
      ensures client.reliable && AllServed(phase, client.state.served) ==> NoneErrored(stages)
    {
      stages := seq(|phase|, _ => Waiting);
      ghost var s0 := client.state;
      SettledRefl(s0, objs);
      while exists i :: 0 <= i < |stages| && Active(stages[i])
        invariant |stages| == |phase|
        invariant Valid(client.state) && Settled(s0, client.state, objs) && client.state.served == s0.served
        invariant dryRun ==> client.state == s0
        invariant StagesKnown(phase, stages, client.state, dryRun, objs)
        invariant client.reliable && AllServed(phase, client.state.served) ==> NoneErrored(stages)
        decreases AllRequestsLeft(stages)
      {
        ghost var before := client.state;
        stages := AnyRequest(phase, stages, dryRun, objs);
        SettledTransitive(s0, before, client.state, objs);
      }
    }

    /**
     Applies a phase. Every object is applied by its own goroutine: an apply, then, outside dry runs,
     the hand-over of managed fields and a second apply if there was one. Requests of different
     objects interleave in any order; a failing object does not stop the others.
     */
    method ApplyPhase(phase: seq<Manifest>, dryRun: bool, ghost objs: seq<Manifest>)
      returns (applied: seq<Ref>, migrated: seq<Ref>, failed: bool)
      requires Valid(client.state)
      requires forall m | m in phase :: m in objs
      modifies client
      ensures Valid(client.state)
      ensures Settled(old(client.state), client.state, objs)
      ensures client.state.served == old(client.state.served)
      ensures dryRun ==> client.state == old(client.state) && migrated == []
      ensures Members(migrated) <= Members(applied) <= Spared(client.state.namespaced, objs, None)
      ensures !failed ==> applied == DeclaredAll(client.state.namespaced, phase)
      ensures !failed ==> forall m | m in phase :: m.gvk in client.state.served
      ensures !failed && !dryRun ==> AllWritten(client.state, phase, objs)
      ensures client.reliable && AllServed(phase, client.state.served) ==> !failed
    {
      var stages := Interleave(phase, dryRun, objs);
      failed := Errored in stages;
      applied := Outcome(client.state.namespaced, phase, stages, false);
      migrated := Outcome(client.state.namespaced, phase, stages, true);
      assert dryRun ==> forall i | 0 <= i < |stages| :: Known(phase[i], stages[i], client.state, dryRun, objs);
      Reported(client.state.namespaced, phase, stages, objs, dryRun);
      if !failed {
        assert forall i | 0 <= i < |stages| :: stages[i].Applied?;
        AllApplied(client.state.namespaced, phase, stages);
        AllKnown(phase, stages, client.state, dryRun, objs);
      }
    }

    // ----- inventory -----

    method PersistKinds(key: Key, kinds: set<GroupKind>) returns (r: Reply)
      requires Valid(client.state)
      modifies client
      ensures Valid(client.state)
      ensures client.state == old(client.state)
              || InventoryWritten(policy.manager, old(client.state), client.state, key, kinds)
      ensures r == Ok ==> InventoryWritten(policy.manager, old(client.state), client.state, key, kinds)
      ensures client.reliable && InventoryServable(old(client.state), Some(key)) ==> r == Ok
    {
      var text := WriteInventory(kinds);
      r := client.Apply(InventoryManifest(policy.manager, key, text), false);
    }

    /** Reads the recorded kinds and, before anything is applied, records them together with the new ones. */
    method PrepareInventory(objs: seq<Manifest>, opts: Options) returns (previous: set<GroupKind>, failed: bool)
      requires Valid(client.state)
      modifies client
      ensures Valid(client.state)
      ensures Prepared(policy, old(client.state), client.state, objs, opts, previous, failed)
      ensures client.state.served == old(client.state).served
      ensures client.reliable && InventoryServable(old(client.state), opts.inventory) ==> !failed
    {
      if opts.inventory.None? {
        return {}, false;
      }
      var key := opts.inventory.value;
      var r, found := client.Get(InventoryRef(key));
      if r != Ok {
        return {}, true;
      }
      previous := {};
      if found.Some? && GROUP_KINDS_KEY in found.value.data {
        previous := ReadInventory(found.value.data[GROUP_KINDS_KEY]);
      }
      if opts.dryRun {
        return previous, false;
      }
      r := PersistKinds(key, previous + Kinds(objs));
      failed := r != Ok;
    }

    // ----- pruning -----

    /** The first type given for each kind that was not seen before. */
    static function Fresh(gvks: seq<Gvk>, seen: set<GroupKind>): seq<Gvk>
    {
      if gvks == [] then []
      else if gvks[0].gk in seen then Fresh(gvks[1..], seen)
      else [gvks[0]] + Fresh(gvks[1..], seen + {gvks[0].gk})
    }

    /** The types that need no lookup: the requested ones, then the default ones and those of the manifest. */
    function KnownTypes(objs: seq<Manifest>, opts: Options): seq<Gvk>
    {
      Fresh(opts.pruneTypes, {}) + Fresh(policy.defaults + ObjectGvks(objs), GvkKinds(opts.pruneTypes) + {CRD})
    }

    static ghost predicate SortedByName(gvks: seq<Gvk>)
    {
      forall i, j | 0 <= i < j < |gvks| :: Leq(Show(gvks[i].gk), Show(gvks[j].gk))
    }

    /**
     The types to look through for stale objects: each kind once, the first type given for it. The known
     types come first, in the order given, then those of recorded kinds, sorted by name.
     */
    method PruneGvks(objs: seq<Manifest>, previous: set<GroupKind>, opts: Options)
      returns (gvks: seq<Gvk>, ghost unmapped: set<GroupKind>)
      requires Valid(client.state)
      ensures IsPruneList(policy, client.state, objs, previous, unmapped, opts, gvks)
      ensures unmapped <= previous
      ensures KnownTypes(objs, opts) <= gvks && SortedByName(gvks[|KnownTypes(objs, opts)|..])
    {
      var seen: set<GroupKind>;
      gvks, seen := AddAll([], {}, opts.pruneTypes);
      seen := seen + {CRD};
      var others := policy.defaults + ObjectGvks(objs);
      assert [] + Fresh(opts.pruneTypes, {}) == Fresh(opts.pruneTypes, {});
      assert {} + GvkKinds(opts.pruneTypes) == GvkKinds(opts.pruneTypes);
      gvks, seen := AddAll(gvks, seen, others);
      ghost var known := gvks;
      assert known == KnownTypes(objs, opts);
      var looked;
      looked, unmapped := LookUp(previous - seen);
      gvks := gvks + looked;
      assert gvks[|known|..] == looked;
      KnownDistinct(objs, opts);
      forall g: Gvk
        ensures g in gvks <==> PruneTypeOf(policy, client.state, objs, previous, unmapped, opts, g.gk) == Some(g)
        ensures g in known ==> g.gk in seen
      {
        KnownExactly(objs, opts, g);
      }
    }

    static lemma {:induction false} LeastKind(kinds: set<GroupKind>) returns (least: GroupKind)
      requires kinds != {}
      ensures least in kinds && forall k | k in kinds :: Leq(Show(least), Show(k))
      decreases kinds
    {
      least :| least in kinds;
      LeqTotal(Show(least), Show(least));
      var rest := kinds - {least};
      if rest != {} {
        var other := LeastKind(rest);
        if Leq(Show(other), Show(least)) {
          least := other;
        } else {
          LeqTotal(Show(least), Show(other));
          forall k | k in rest ensures Leq(Show(least), Show(k)) {
            LeqTransitive(Show(least), Show(other), Show(k));
          }
        }
      }
    }

    /** Looks up the served type of each kind, in the order of their names; a kind whose lookup fails is left out. */
    method LookUp(kinds: set<GroupKind>) returns (looked: seq<Gvk>, ghost unmapped: set<GroupKind>)
      requires Valid(client.state)
      ensures unmapped <= kinds && DistinctKinds(looked) && SortedByName(looked)
      ensures forall g :: g in looked <==>
                && g.gk in kinds - unmapped && g.gk in client.state.preferred
                && g.version == client.state.preferred[g.gk]
    {
      looked, unmapped := [], {};
      var rest := kinds;
      while rest != {}
        invariant rest <= kinds && unmapped <= kinds - rest
        invariant DistinctKinds(looked) && SortedByName(looked)
        invariant forall g :: g in looked <==>
          && g.gk in kinds - rest - unmapped && g.gk in client.state.preferred
          && g.version == client.state.preferred[g.gk]
        invariant forall i | 0 <= i < |looked| :: forall k | k in rest :: Leq(Show(looked[i].gk), Show(k))
        decreases rest
      {
        ghost var least := LeastKind(rest);
        var gk :| gk in rest && forall k | k in rest :: Leq(Show(gk), Show(k));
        rest := rest - {gk};
        var mapping := client.RestMapping(gk);
        if mapping.None? {
          unmapped := unmapped + {gk};
        } else {
          assert forall g | g in looked :: g.gk != gk;
          looked := looked + [mapping.value];
        }
      }
    }

    /** Appends each type whose kind was not seen yet. */
    static method AddAll(start: seq<Gvk>, seen0: set<GroupKind>, more: seq<Gvk>)
      returns (gvks: seq<Gvk>, seen: set<GroupKind>)
      ensures gvks == start + Fresh(more, seen0) && seen == seen0 + GvkKinds(more)
    {
      gvks, seen := start, seen0;
      for i := 0 to |more|
        invariant seen == seen0 + GvkKinds(more[..i])
        invariant gvks + Fresh(more[i..], seen) == start + Fresh(more, seen0)
      {
        var g := more[i];
        assert more[..i + 1] == more[..i] + [g];
        assert more[i..][0] == g && more[i..][1..] == more[i + 1..];
        if g.gk !in seen {
          var rest := Fresh(more[i + 1..], seen + {g.gk});
          assert gvks + ([g] + rest) == (gvks + [g]) + rest;
          seen := seen + {g.gk};
          gvks := gvks + [g];
        }
      }
      assert more[..|more|] == more && more[|more|..] == [] && gvks + [] == gvks;
    }

    /** The fresh types are the first ones of the kinds not seen, each once. */
    static lemma {:induction false} FreshExactly(more: seq<Gvk>, seen: set<GroupKind>, g: Gvk)
      ensures g in Fresh(more, seen) <==> g.gk !in seen && FirstOf(more, g.gk) == Some(g)
    {
      if more != [] {
        FreshExactly(more[1..], if more[0].gk in seen then seen else seen + {more[0].gk}, g);
      }
    }

    static lemma {:induction false} FreshDistinct(more: seq<Gvk>, seen: set<GroupKind>)
      ensures DistinctKinds(Fresh(more, seen))
    {
      if more != [] {
        if more[0].gk in seen {
          FreshDistinct(more[1..], seen);
        } else {
          var now := seen + {more[0].gk};
          FreshDistinct(more[1..], now);
          var rest := Fresh(more[1..], now);
          forall i | 0 <= i < |rest| ensures rest[i].gk != more[0].gk {
            FreshExactly(more[1..], now, rest[i]);
          }
        }
      }
    }

    /** What the known types are, as a set: requested types win, CRDs are known only when requested. */
    lemma KnownExactly(objs: seq<Manifest>, opts: Options, g: Gvk)
      ensures g in KnownTypes(objs, opts) <==>
              if g.gk in GvkKinds(opts.pruneTypes) then FirstOf(opts.pruneTypes, g.gk) == Some(g)
              else g.gk != CRD && FirstOf(policy.defaults + ObjectGvks(objs), g.gk) == Some(g)
    {
      FreshExactly(opts.pruneTypes, {}, g);
      FreshExactly(policy.defaults + ObjectGvks(objs), GvkKinds(opts.pruneTypes) + {CRD}, g);
    }

    lemma KnownDistinct(objs: seq<Manifest>, opts: Options)
      ensures DistinctKinds(KnownTypes(objs, opts))
    {
      var seen, others := GvkKinds(opts.pruneTypes) + {CRD}, policy.defaults + ObjectGvks(objs);
      var a, b := Fresh(opts.pruneTypes, {}), Fresh(others, seen);
      FreshDistinct(opts.pruneTypes, {});
      FreshDistinct(others, seen);
      forall i, j | 0 <= i < |a| && 0 <= j < |b| ensures a[i].gk != b[j].gk {
        FreshExactly(opts.pruneTypes, {}, a[i]);
        FreshExactly(others, seen, b[j]);
      }
    }

    /** The listed items that pruning deletes. */
    function Condemned(items: seq<(Ref, Live)>, spared: set<Ref>): set<Ref>
    {
      set it | it in items && it.0 !in spared && !it.1.terminating && !IsProtected(policy, it.0) :: it.0
    }

    method PruneItems(items: seq<(Ref, Live)>, spared: set<Ref>, dryRun: bool) returns (pruned: seq<Ref>, failed: bool)
      requires Valid(client.state)
      requires forall i | 0 <= i < |items| :: Find(client.state, items[i].0) == Some(items[i].1)
      requires forall i, j | 0 <= i < j < |items| :: items[i].0 != items[j].0
      modifies client
      ensures Valid(client.state)
      ensures Thinned(old(client.state), client.state, Condemned(items, spared))
      ensures dryRun ==> client.state == old(client.state)
      ensures Members(pruned) <= Condemned(items, spared)
      ensures !dryRun ==> forall r | r in pruned :: Gone(client.state, r)
      ensures !failed ==> Members(pruned) == Condemned(items, spared)
      ensures client.reliable ==> !failed
    {
      pruned, failed := [], false;
      ghost var s0 := client.state;
      ghost var doomed := Condemned(items, spared);
      for i := 0 to |items|
        invariant Valid(client.state) && Thinned(s0, client.state, doomed)
        invariant dryRun ==> client.state == s0
        invariant Members(pruned) == Condemned(items[..i], spared)
        invariant !dryRun ==> forall r | r in pruned :: Gone(client.state, r)
      {
        var it := items[i];
        assert items[..i + 1] == items[..i] + [it];
        CondemnedSnoc(items[..i], it, spared);
        CondemnedPrefix(items, i + 1, spared);
        CondemnedPrefix(items, i, spared);
        if it.0 !in spared && !it.1.terminating && !IsProtected(policy, it.0) {
          ghost var before := client.state;
          var r := client.Delete(it.0, dryRun);
          if client.state != before || (r == Ok && !dryRun) {
            DeletedThins(s0, before, client.state, doomed, it.0);
          }
          if r != Ok {
            failed := true;
            return;
          }
          assert Members(pruned + [it.0]) == Members(pruned) + {it.0};
          pruned := pruned + [it.0];
        }
      }
      assert items[..|items|] == items;
    }

    lemma CondemnedPrefix(items: seq<(Ref, Live)>, n: nat, spared: set<Ref>)
      requires n <= |items|
      ensures Condemned(items[..n], spared) <= Condemned(items, spared)
    {
      assert forall it | it in items[..n] :: it in items;
    }

    static lemma DeletedThins(s: Server, t: Server, u: Server, doomed: set<Ref>, r: Ref)
      requires Thinned(s, t, doomed) && Deleted(t, u, r) && r in doomed
      ensures Thinned(s, u, doomed) && Gone(u, r)
      ensures forall x | Gone(t, x) :: Gone(u, x)
    {
    }

    lemma CondemnedSnoc(items: seq<(Ref, Live)>, it: (Ref, Live), spared: set<Ref>)
      ensures Condemned(items + [it], spared) == Condemned(items, spared)
              + if it.0 !in spared && !it.1.terminating && !IsProtected(policy, it.0) then {it.0} else {}
    {
      forall r | r in Condemned(items, spared) ensures r in Condemned(items + [it], spared) {
        var x :| x in items && x.0 == r && x.0 !in spared && !x.1.terminating && !IsProtected(policy, x.0);
        assert x in items + [it];
      }
      assert it in items + [it];
    }

    /** Deletes the stale objects, kind by kind; a kind whose type is not served is skipped. */
    method Prune(gvks: seq<Gvk>, spared: set<Ref>, sel: Selector, dryRun: bool) returns (pruned: seq<Ref>, failed: bool)
      requires Valid(client.state) && DistinctKinds(gvks)
      modifies client
      ensures Valid(client.state)
      ensures var doomed := Stale(policy, old(client.state), Reached(old(client.state), gvks), spared, sel);
              && Thinned(old(client.state), client.state, doomed)
              && Members(pruned) <= doomed
              && (!dryRun ==> forall r | r in pruned :: Gone(client.state, r))
              && (!failed ==> Members(pruned) == doomed)
      ensures dryRun ==> client.state == old(client.state)
      ensures client.reliable ==> !failed
    {
      pruned, failed := [], false;
      ghost var s0 := client.state;
      ghost var doomed := Stale(policy, s0, Reached(s0, gvks), spared, sel);
      for i := 0 to |gvks|
        invariant Valid(client.state) && Thinned(s0, client.state, doomed)
        invariant dryRun ==> client.state == s0
        invariant Members(pruned) == Stale(policy, s0, Reached(s0, gvks[..i]), spared, sel)
        invariant !dryRun ==> forall r | r in pruned :: Gone(client.state, r)
        invariant forall r: Ref | r.gk !in GvkKinds(gvks[..i]) :: Find(client.state, r) == Find(s0, r)
      {
        ghost var before := client.state;
        assert gvks[..i + 1] == gvks[..i] + [gvks[i]];
        assert gvks[i].gk !in GvkKinds(gvks[..i]);
        var r, items := client.List(gvks[i], sel);
        if r == Failed {
          failed := true;
          StaleGrows(s0, gvks, i, spared, sel);
          return;
        }
        if r == Ok {
          ghost var here := Stale(policy, s0, {gvks[i].gk}, spared, sel);
          CondemnedIsStale(before, s0, gvks[i].gk, items, spared, sel);
          assert Reached(s0, gvks[..i + 1]) == Reached(s0, gvks[..i]) + {gvks[i].gk};
          assert Stale(policy, s0, Reached(s0, gvks[..i + 1]), spared, sel)
              == Stale(policy, s0, Reached(s0, gvks[..i]), spared, sel) + here;
          StaleGrows(s0, gvks, i + 1, spared, sel);
          var more, bad := PruneItems(items, spared, dryRun);
          ThinnedTwice(s0, before, client.state, doomed, here);
          pruned := pruned + more;
          if bad {
            failed := true;
            return;
          }
        } else {
          assert Reached(s0, gvks[..i + 1]) == Reached(s0, gvks[..i]);
        }
      }
      assert gvks[..|gvks|] == gvks;
    }

    lemma StaleGrows(s: Server, gvks: seq<Gvk>, i: nat, spared: set<Ref>, sel: Selector)
      requires i <= |gvks|
      ensures Stale(policy, s, Reached(s, gvks[..i]), spared, sel) <= Stale(policy, s, Reached(s, gvks), spared, sel)
    {
      assert Reached(s, gvks[..i]) <= Reached(s, gvks);
    }

    lemma CondemnedIsStale(
      now: Server, s0: Server, gk: GroupKind, items: seq<(Ref, Live)>, spared: set<Ref>, sel: Selector)
      requires IsListing(now, gk, sel, items)
      requires forall r: Ref | r.gk == gk :: Find(now, r) == Find(s0, r)
      ensures Condemned(items, spared) == Stale(policy, s0, {gk}, spared, sel)
      ensures forall i | 0 <= i < |items| :: items[i].0.gk == gk
    {
      forall i | 0 <= i < |items| ensures items[i].0 in Selected(now, gk, sel) {
        assert items[i].0 in Refs(items);
      }
      forall r | r in Stale(policy, s0, {gk}, spared, sel) ensures r in Condemned(items, spared) {
        assert Find(now, r) == Find(s0, r);
        assert r in Selected(now, gk, sel) && r in Refs(items);
        var it :| it in items && it.0 == r;
      }
      forall r | r in Condemned(items, spared) ensures r in Stale(policy, s0, {gk}, spared, sel) {
        var it :| it in items && it.0 == r && it.0 !in spared && !it.1.terminating && !IsProtected(policy, it.0);
        assert r in Refs(items) && Find(now, r) == Find(s0, r);
      }
    }

    static lemma ThinnedTwice(s: Server, t: Server, u: Server, doomed: set<Ref>, here: set<Ref>)
      requires Thinned(s, t, doomed) && Thinned(t, u, here) && here <= doomed
      ensures Thinned(s, u, doomed)
      ensures forall r | Gone(t, r) :: Gone(u, r)
      ensures forall r | r !in here :: Find(u, r) == Find(t, r)
    {
    }

    // ----- Apply -----

    /** Waits for the CRDs of the manifest; `established` are the kinds the server serves from then on. */
    method WaitForCrds(crds: seq<Manifest>, dryRun: bool, established: map<GroupKind, string>) returns (failed: bool)
      requires Valid(client.state)
      modifies client
      ensures Valid(client.state)
      ensures client.state == old(client.state)
              || (!dryRun && client.state == Establish(old(client.state), established))
      ensures !failed && crds != [] && !dryRun ==> client.state == Establish(old(client.state), established)
      ensures client.reliable ==> !failed
    {
      if crds == [] || dryRun {
        return false;
      }
      client.state := Establish(client.state, established);
      if !client.reliable { if * { return true; } }
      return false;
    }

    /** The three apply phases; a failing phase ends the run. */
    method ApplyObjects(objs: seq<Manifest>, dryRun: bool, established: map<GroupKind, string>)
      returns (applied: seq<Ref>, migrated: seq<Ref>, failed: bool)
      requires Valid(client.state)
      modifies client
      ensures Valid(client.state) && Settled(old(client.state), client.state, objs)
      ensures dryRun ==> client.state == old(client.state) && migrated == []
      ensures Members(migrated) <= Members(applied) <= Spared(client.state.namespaced, objs, None)
      ensures !failed ==> applied == DeclaredAll(client.state.namespaced, InApplyOrder(objs))
      ensures !failed ==> forall m | m in objs :: m.gvk in client.state.served
      ensures !failed && !dryRun ==> AllWritten(client.state, objs, objs)
      ensures client.reliable && Servable(old(client.state), objs, dryRun, established) ==> !failed
    {
      var crds, namespaces, rest := SplitPhases(objs);
      forall m ensures (m in crds || m in namespaces || m in rest) <==> m in objs {
        PhaseMembers(objs, 0, m);
        PhaseMembers(objs, 1, m);
        PhaseMembers(objs, 2, m);
      }
      ghost var s0 := client.state;
      if Servable(s0, objs, dryRun, established) { ServedInTurn(s0, objs, dryRun, established); }
      applied, migrated, failed := ApplyPhase(crds, dryRun, objs);
      if failed { return; }
      ghost var s1 := client.state;
      failed := WaitForCrds(crds, dryRun, established);
      ghost var s2 := client.state;
      EstablishSettles(s1, s2, established, objs);
      SettledTransitive(s0, s1, s2, objs);
      if failed { return; }
      var moreApplied, moreMigrated;
      moreApplied, moreMigrated, failed := ApplyPhase(namespaces, dryRun, objs);
      ghost var s3 := client.state;
      SettledTransitive(s0, s2, s3, objs);
      MembersConcat(applied, moreApplied);
      MembersConcat(migrated, moreMigrated);
      applied, migrated := applied + moreApplied, migrated + moreMigrated;
      if failed { return; }
      moreApplied, moreMigrated, failed := ApplyPhase(rest, dryRun, objs);
      SettledTransitive(s0, s3, client.state, objs);
      MembersConcat(applied, moreApplied);
      MembersConcat(migrated, moreMigrated);
      applied, migrated := applied + moreApplied, migrated + moreMigrated;
      if !failed {
        DeclaredConcat(s0.namespaced, crds, namespaces, rest);
        if !dryRun {
          AllWrittenStays(s1, s2, crds, objs);
          AllWrittenStays(s2, s3, crds, objs);
          AllWrittenStays(s3, client.state, crds, objs);
          AllWrittenStays(s3, client.state, namespaces, objs);
        }
      }
    }

    /** What it means for the phases that every type is served when its turn comes. */
    static lemma ServedInTurn(s: Server, objs: seq<Manifest>, dryRun: bool, established: map<GroupKind, string>)
      requires Servable(s, objs, dryRun, established)
      ensures AllServed(Phase(objs, 0), s.served)
      ensures var later := if Phase(objs, 0) != [] && !dryRun then Establish(s, established).served else s.served;
              AllServed(Phase(objs, 1), later) && AllServed(Phase(objs, 2), later)
    {
      forall m
        ensures m in Phase(objs, 0) ==> m in objs && m.gvk.gk == CRD
        ensures m in Phase(objs, 1) || m in Phase(objs, 2) ==> m in objs && m.gvk.gk != CRD
        ensures m in objs && m.gvk.gk == CRD ==> m in Phase(objs, 0)
      {
        PhaseKinds(objs, m);
        PhaseMembers(objs, 0, m);
        PhaseMembers(objs, 1, m);
        PhaseMembers(objs, 2, m);
      }
      if Phase(objs, 0) != [] { assert Phase(objs, 0)[0] in Phase(objs, 0); }
    }

    static lemma EstablishSettles(s: Server, t: Server, established: map<GroupKind, string>, objs: seq<Manifest>)
      requires t == s || t == Establish(s, established)
      ensures Settled(s, t, objs)
      ensures forall m | WrittenBySome(s, objs, Canonical(s.namespaced, m)) ::
              WrittenBySome(t, objs, Canonical(t.namespaced, m))
    {
      forall m | WrittenBySome(s, objs, Canonical(s.namespaced, m))
        ensures WrittenBySome(t, objs, Canonical(t.namespaced, m))
      {
        var x :| x in objs && Wrote(s, x, Canonical(s.namespaced, m));
        assert Wrote(t, x, Canonical(t.namespaced, m));
      }
    }

    static lemma DeclaredConcat(scope: set<GroupKind>, a: seq<Manifest>, b: seq<Manifest>, c: seq<Manifest>)
      ensures DeclaredAll(scope, a) + DeclaredAll(scope, b) + DeclaredAll(scope, c) == DeclaredAll(scope, a + b + c)
    {
    }

    static lemma SparedIsApplied(scope: set<GroupKind>, objs: seq<Manifest>, inventory: Option<Key>, applied: seq<Ref>)
      requires applied == DeclaredAll(scope, InApplyOrder(objs))
      ensures Members(applied) + (if inventory.Some? then {InventoryRef(inventory.value)} else {})
           == Spared(scope, objs, inventory)
    {
      var order := InApplyOrder(objs);
      PhasesPermute(objs);
      assert forall m :: m in order <==> m in multiset(order);
      assert forall m :: m in objs <==> m in multiset(objs);
      forall r | r in Members(applied) ensures exists m :: m in objs && Declared(scope, m) == r {
        var i :| 0 <= i < |applied| && applied[i] == r;
        assert order[i] in order && order[i] in objs;
      }
      forall m | m in objs ensures Declared(scope, m) in Members(applied) {
        assert m in multiset(order);
        var i :| 0 <= i < |order| && order[i] == m;
        assert applied[i] == Declared(scope, m);
      }
    }

    /** Prunes what is stale, given what was applied. */
    method PruneStale(objs: seq<Manifest>, previous: set<GroupKind>, opts: Options, applied: seq<Ref>)
      returns (pruned: seq<Ref>, failed: bool, ghost gvks: seq<Gvk>, ghost unmapped: set<GroupKind>)
      requires Valid(client.state) && opts.selector.Some?
      requires applied == DeclaredAll(client.state.namespaced, InApplyOrder(objs))
      modifies client
      ensures Valid(client.state) && client.state.served == old(client.state).served
      ensures IsPruneList(policy, old(client.state), objs, previous, unmapped, opts, gvks)
      ensures var s := old(client.state);
              var doomed := Stale(policy, s, Reached(s, gvks), Spared(s.namespaced, objs, opts.inventory),
                                  opts.selector.value);
              && Thinned(s, client.state, doomed) && Members(pruned) <= doomed
              && (!opts.dryRun ==> forall r | r in pruned :: Gone(client.state, r))
              && (!failed ==> Members(pruned) == doomed)
      ensures opts.dryRun ==> client.state == old(client.state)
      ensures client.reliable ==> !failed
    {
      SparedIsApplied(client.state.namespaced, objs, opts.inventory, applied);
      var spared := Members(applied) + (if opts.inventory.Some? then {InventoryRef(opts.inventory.value)} else {});
      var types;
      types, unmapped := PruneGvks(objs, previous, opts);
      gvks := types;
      pruned, failed := Prune(types, spared, opts.selector.value, opts.dryRun);
    }

    static lemma ServableByTypes(
      s: Server, t: Server, objs: seq<Manifest>, dryRun: bool, established: map<GroupKind, string>)
      requires s.served == t.served && Servable(s, objs, dryRun, established)
      ensures Servable(t, objs, dryRun, established)
    {
      assert Establish(s, established).served == Establish(t, established).served;
    }

    /**
     Applies `objs` and, with a prune selector, deletes the stale objects. Any request may fail, with
     or without having taken effect; the contract holds of every such run. When no request fails and every
     type is served in its turn, Apply succeeds.
     */
    method Apply(objs: seq<Manifest>, opts: Options, established: map<GroupKind, string>)
      returns (result: Result, failed: bool, ghost run: Run)
      requires Valid(client.state)
      modifies client
      ensures Valid(client.state)
      ensures ApplyRun(policy, old(client.state), run, client.state, objs, opts, result, failed)
      ensures && client.reliable && Servable(old(client.state), objs, opts.dryRun, established)
              && InventoryServable(old(client.state), opts.inventory)
              ==> !failed
    {
      result := Result([], [], []);
      ghost var s0 := client.state;
      ghost var servable := Servable(s0, objs, opts.dryRun, established);
      var previous;
      previous, failed := PrepareInventory(objs, opts);
      ghost var s1 := client.state;
      run := Run(!failed, s1, s1, s1, previous, {}, []);
      SettledRefl(s1, objs);
      if failed { return; }
      if servable { ServableByTypes(s0, s1, objs, opts.dryRun, established); }
      var applied, migrated;
      applied, migrated, failed := ApplyObjects(objs, opts.dryRun, established);
      ghost var s2 := client.state;
      result := result.(applied := applied, migrated := migrated);
      run := run.(applied := s2, pruned := s2);
      if failed { return; }
      if opts.selector.Some? {
        var pruned;
        ghost var gvks, unmapped;
        pruned, failed, gvks, unmapped := PruneStale(objs, previous, opts, applied);
        result := result.(pruned := pruned);
        run := run.(gvks := gvks, unmapped := unmapped, pruned := client.state);
        if failed { return; }
      }
      if opts.inventory.Some? && !opts.dryRun && opts.selector.Some? {
        var r := PersistKinds(opts.inventory.value, Kinds(objs));
        failed := r != Ok;
      }
    }

    // ----- Delete -----

    /** `name` is how the manifest names one of the targets. */
    static ghost predicate IsTargetName(objs: seq<Manifest>, scope: set<GroupKind>, targets: set<Ref>, name: Ref)
    {
      exists m :: m in objs && Declared(scope, m) == name && Canonical(scope, m) in targets
    }

    /** The object stored at `r` is among the deleted ones, under a name the manifest gives it. */
    static ghost predicate IsReported(objs: seq<Manifest>, scope: set<GroupKind>, deleted: seq<Ref>, r: Ref)
    {
      exists m :: m in objs && Canonical(scope, m) == r && Declared(scope, m) in deleted
    }

    /** `xs` is `ys` with some elements left out. */
    static ghost predicate Subsequence(xs: seq<Ref>, ys: seq<Ref>)
    {
      || xs == []
      || (ys != [] && (|| Subsequence(xs, ys[..|ys| - 1])
                       || (xs[|xs| - 1] == ys[|ys| - 1] && Subsequence(xs[..|xs| - 1], ys[..|ys| - 1]))))
    }

    static lemma SubsequenceSnoc(xs: seq<Ref>, ys: seq<Ref>, y: Ref)
      requires Subsequence(xs, ys)
      ensures Subsequence(xs, ys + [y]) && Subsequence(xs + [y], ys + [y])
    {
      assert (ys + [y])[..|ys|] == ys && (xs + [y])[..|xs|] == xs;
    }

    static lemma {:induction false} SubsequencePrefix(xs: seq<Ref>, ys: seq<Ref>, n: nat)
      requires n <= |ys| && Subsequence(xs, ys[..n])
      ensures Subsequence(xs, ys)
      decreases |ys| - n
    {
      if n == |ys| {
        assert ys[..n] == ys;
      } else {
        SubsequenceSnoc(xs, ys[..n], ys[n]);
        assert ys[..n] + [ys[n]] == ys[..n + 1];
        SubsequencePrefix(xs, ys, n + 1);
      }
    }

    /** The targets among the first `i` objects are gone, and reported. */
    static ghost predicate TargetsHandled(
      s: Server, now: Server, order: seq<Manifest>, i: nat, selector: Option<Selector>, deleted: seq<Ref>)
      requires i <= |order|
    {
      forall r | r in DeleteTargets(s, order[..i], selector) ::
        Gone(now, r) && IsReported(order, s.namespaced, deleted, r)
    }

    /** Nothing has changed without being reported. */
    static ghost predicate ChangesReported(s: Server, now: Server, order: seq<Manifest>, deleted: seq<Ref>)
    {
      forall r | r in s.objects :: Find(now, r) == Find(s, r) || IsReported(order, s.namespaced, deleted, r)
    }

    static ghost predicate NamesInOrder(
      s: Server, order: seq<Manifest>, i: nat, selector: Option<Selector>, deleted: seq<Ref>)
      requires i <= |order|
    {
      && Subsequence(deleted, DeclaredAll(s.namespaced, order[..i]))
      && forall r | r in deleted :: IsTargetName(order, s.namespaced, DeleteTargets(s, order, selector), r)
    }

    /**
     Deletes the objects of a manifest that exist and match, in the reverse of the apply order. The
     deleted objects are reported in that order, and unless a request failed, all targets are.
     */
    method Delete(objs: seq<Manifest>, selector: Option<Selector>, inventory: Option<Key>)
      returns (deleted: seq<Ref>, failed: bool, ghost mid: Server)
      requires Valid(client.state)
      modifies client
      ensures Valid(client.state)
      ensures DeleteRun(old(client.state), mid, client.state, objs, selector, inventory, failed)
      ensures NamesInOrder(old(client.state), SortForDelete(objs), |SortForDelete(objs)|, selector, deleted)
      ensures client.state != mid || !failed ==>
                forall r | r in DeleteTargets(old(client.state), objs, selector) ::
                  IsReported(SortForDelete(objs), mid.namespaced, deleted, r)
      ensures client.reliable ==> !failed
    {
      deleted, failed, mid := [], false, client.state;
      ghost var s0 := client.state;
      var order := SortForDelete(objs);
      SameTargets(objs, order, s0, selector);
      for i := 0 to |order|
        invariant Valid(client.state) && mid == client.state
        invariant Thinned(s0, client.state, DeleteTargets(s0, order, selector))
        invariant TargetsHandled(s0, client.state, order, i, selector, deleted)
        invariant ChangesReported(s0, client.state, order, deleted)
        invariant NamesInOrder(s0, order, i, selector, deleted)
      {
        ghost var before := client.state;
        var bad, gone := DeleteOne(order[i], selector);
        mid := client.state;
        ThinnedByOne(s0, before, client.state, order, i, selector, bad, gone);
        if bad {
          failed := true;
          NamesOfPrefix(s0, order, i, selector, deleted);
          return;
        }
        TargetsStep(s0, before, client.state, order, i, selector, deleted, gone);
        ChangesStep(s0, before, client.state, order, order[i], deleted, gone);
        NamesStep(s0, order, i, selector, deleted, gone);
        if gone {
          deleted := deleted + [Declared(client.state.namespaced, order[i])];
        }
      }
      assert order[..|order|] == order;
      if inventory.Some? {
        var r := client.Delete(InventoryRef(inventory.value), false);
        failed := r != Ok;
      }
    }

    static lemma NamesOfPrefix(s: Server, order: seq<Manifest>, i: nat, selector: Option<Selector>, deleted: seq<Ref>)
      requires i <= |order| && NamesInOrder(s, order, i, selector, deleted)
      ensures NamesInOrder(s, order, |order|, selector, deleted)
    {
      var all := DeclaredAll(s.namespaced, order);
      assert DeclaredAll(s.namespaced, order[..i]) == all[..i] && order[..|order|] == order;
      SubsequencePrefix(deleted, all, i);
    }

    /** What handling one manifest object does; `gone` when it was deleted. */
    static ghost predicate DeletedOne(
      before: Server, now: Server, m: Manifest, selector: Option<Selector>, failed: bool, gone: bool)
    {
      var r := Canonical(before.namespaced, m);
      var isTarget := r in DeleteTargets(before, [m], selector);
      && (now == before || (isTarget && Deleted(before, now, r)))
      && (!failed && isTarget ==> gone)
      && (gone ==> isTarget && Gone(now, r))
    }

    static lemma ThinnedByOne(
      s: Server, before: Server, now: Server, order: seq<Manifest>, i: nat, selector: Option<Selector>, failed: bool,
      gone: bool)
      requires i < |order| && Thinned(s, before, DeleteTargets(s, order, selector))
      requires DeletedOne(before, now, order[i], selector, failed, gone)
      ensures Thinned(s, now, DeleteTargets(s, order, selector))
      ensures forall r | Gone(before, r) :: Gone(now, r)
      ensures forall r | r != Canonical(s.namespaced, order[i]) :: Find(now, r) == Find(before, r)
      ensures gone ==> Canonical(s.namespaced, order[i]) in DeleteTargets(s, order, selector)
    {
      TargetStep(s, before, order, i, selector);
      if now != before {
        DeletedThins(s, before, now, DeleteTargets(s, order, selector), Canonical(s.namespaced, order[i]));
      }
    }

    static lemma ReportedStays(objs: seq<Manifest>, scope: set<GroupKind>, deleted: seq<Ref>, name: Ref, r: Ref)
      requires IsReported(objs, scope, deleted, r)
      ensures IsReported(objs, scope, deleted + [name], r)
    {
      var m :| m in objs && Canonical(scope, m) == r && Declared(scope, m) in deleted;
      assert Declared(scope, m) in deleted + [name];
    }

    static lemma NamesStep(
      s: Server, order: seq<Manifest>, i: nat, selector: Option<Selector>, deleted: seq<Ref>, gone: bool)
      requires i < |order| && NamesInOrder(s, order, i, selector, deleted)
      requires gone ==> Canonical(s.namespaced, order[i]) in DeleteTargets(s, order, selector)
      ensures NamesInOrder(s, order, i + 1, selector,
                           if gone then deleted + [Declared(s.namespaced, order[i])] else deleted)
    {
      var name := Declared(s.namespaced, order[i]);
      SubsequenceSnoc(deleted, DeclaredAll(s.namespaced, order[..i]), name);
      assert DeclaredAll(s.namespaced, order[..i + 1]) == DeclaredAll(s.namespaced, order[..i]) + [name];
      assert order[i] in order;
    }

    /** Whatever was reported still is, and so is the object just deleted. */
    static lemma ReportStep(
      objs: seq<Manifest>, scope: set<GroupKind>, deleted: seq<Ref>, m: Manifest, gone: bool, r: Ref)
      requires m in objs && (IsReported(objs, scope, deleted, r) || (gone && r == Canonical(scope, m)))
      ensures IsReported(objs, scope, if gone then deleted + [Declared(scope, m)] else deleted, r)
    {
      if IsReported(objs, scope, deleted, r) {
        if gone { ReportedStays(objs, scope, deleted, Declared(scope, m), r); }
      } else {
        assert Declared(scope, m) in deleted + [Declared(scope, m)];
      }
    }

    /** A target among the first `i + 1` objects is gone and reported once the last of them was handled. */
    static lemma TargetHandled(
      s: Server, before: Server, now: Server, order: seq<Manifest>, i: nat, selector: Option<Selector>,
      deleted: seq<Ref>, gone: bool, r: Ref)
      requires i < |order| && Thinned(s, before, DeleteTargets(s, order, selector))
      requires TargetsHandled(s, before, order, i, selector, deleted) && ChangesReported(s, before, order, deleted)
      requires DeletedOne(before, now, order[i], selector, false, gone)
      requires r in DeleteTargets(s, order[..i + 1], selector)
      ensures Gone(now, r)
      ensures IsReported(order, s.namespaced, deleted, r) || (gone && r == Canonical(s.namespaced, order[i]))
    {
      TargetStep(s, before, order, i, selector);
      ThinnedByOne(s, before, now, order, i, selector, false, gone);
    }

    static lemma ChangesStep(
      s: Server, before: Server, now: Server, order: seq<Manifest>, m: Manifest, deleted: seq<Ref>, gone: bool)
      requires m in order && ChangesReported(s, before, order, deleted) && (now == before || gone)
      requires forall r | r != Canonical(s.namespaced, m) :: Find(now, r) == Find(before, r)
      ensures ChangesReported(s, now, order, if gone then deleted + [Declared(s.namespaced, m)] else deleted)
    {
      forall r | r in s.objects
        ensures Find(now, r) == Find(s, r)
                || IsReported(order, s.namespaced, if gone then deleted + [Declared(s.namespaced, m)] else deleted, r)
      {
        if IsReported(order, s.namespaced, deleted, r) || (gone && r == Canonical(s.namespaced, m)) {
          ReportStep(order, s.namespaced, deleted, m, gone, r);
        }
      }
    }

    static lemma TargetsStep(
      s: Server, before: Server, now: Server, order: seq<Manifest>, i: nat, selector: Option<Selector>,
      deleted: seq<Ref>, gone: bool)
      requires i < |order| && Thinned(s, before, DeleteTargets(s, order, selector))
      requires TargetsHandled(s, before, order, i, selector, deleted) && ChangesReported(s, before, order, deleted)
      requires DeletedOne(before, now, order[i], selector, false, gone)
      ensures TargetsHandled(s, now, order, i + 1, selector,
                             if gone then deleted + [Declared(s.namespaced, order[i])] else deleted)
    {
      assert order[i] in order;
      forall r | r in DeleteTargets(s, order[..i + 1], selector)
        ensures Gone(now, r)
        ensures IsReported(order, s.namespaced,
                           if gone then deleted + [Declared(s.namespaced, order[i])] else deleted, r)
      {
        TargetHandled(s, before, now, order, i, selector, deleted, gone, r);
        ReportStep(order, s.namespaced, deleted, order[i], gone, r);
      }
    }

    static lemma SameTargets(objs: seq<Manifest>, order: seq<Manifest>, s: Server, selector: Option<Selector>)
      requires order == SortForDelete(objs)
      ensures DeleteTargets(s, order, selector) == DeleteTargets(s, objs, selector)
    {
      DeleteOrder(objs);
      assert forall m :: m in order <==> m in multiset(order);
      assert forall m :: m in objs <==> m in multiset(objs);
    }

    /** Deleting so far did not change which of the remaining objects are targets. */
    static lemma TargetStep(s: Server, now: Server, order: seq<Manifest>, i: nat, selector: Option<Selector>)
      requires i < |order| && Thinned(s, now, DeleteTargets(s, order, selector))
      ensures DeleteTargets(now, [order[i]], selector) <= DeleteTargets(s, order, selector)
      ensures forall r | r in DeleteTargets(s, order[..i + 1], selector) ::
                || r in DeleteTargets(s, order[..i], selector)
                || (r == Canonical(s.namespaced, order[i])
                    && (r in DeleteTargets(now, [order[i]], selector) || r !in now.objects))
    {
      var m := order[i];
      assert m in order && m in [m];
      assert order[..i + 1] == order[..i] + [m];
      forall r | r in DeleteTargets(s, order[..i + 1], selector)
        ensures || r in DeleteTargets(s, order[..i], selector)
                || (r == Canonical(s.namespaced, m) && (r in DeleteTargets(now, [m], selector) || r !in now.objects))
      {
        var x :| && x in order[..i + 1] && x.gvk in s.served && Canonical(s.namespaced, x) == r && r in s.objects
                 && (selector.Some? ==> Matches(selector.value, s.objects[r].labels));
        assert x == m || r in DeleteTargets(s, order[..i], selector);
        if r in now.objects {
          assert now.objects[r].labels == s.objects[r].labels;
        }
      }
    }

    method DeleteOne(m: Manifest, selector: Option<Selector>) returns (failed: bool, gone: bool)
      requires Valid(client.state)
      modifies client
      ensures Valid(client.state)
      ensures DeletedOne(old(client.state), client.state, m, selector, failed, gone)
      ensures client.reliable ==> !failed
    {
      var r, live := DefaultNamespace(m);
      if r == NoMatch || (r == Ok && m.gvk !in client.state.served) {
        return false, false;
      }
      if r != Ok {
        return true, false;
      }
      var ref := Identity(client.state.namespaced, live);
      var reply, found := client.Get(ref);
      if reply != Ok {
        return true, false;
      }
      if found.None? || (selector.Some? && !Matches(selector.value, found.value.labels)) {
        return false, false;
      }
      assert m in [m];
      reply := client.Delete(ref, false);
      return reply != Ok, reply == Ok;
    }
  }
}
