/**
 Manifest objects, their identity and the order in which they are applied and deleted
 (pkg/nativeclient/manifest.go).
 */
module Manifests {
  import opened Inventory

  datatype Gvk = Gvk(gk: GroupKind, version: string)

  /** ObjectRef: identifies an object independently of the API version it was read or written with. */
  datatype Ref = Ref(gk: GroupKind, namespace: string, name: string)

  /** An unstructured object, as far as applying and pruning look at it. */
  datatype Manifest = Manifest(
    gvk: Gvk, namespace: string, name: string, labels: map<string, string>, data: map<string, string>)

  const CRD := GroupKind("apiextensions.k8s.io", "CustomResourceDefinition")
  const NAMESPACE := GroupKind("", "Namespace")
  const CONFIG_MAP := GroupKind("", "ConfigMap")

  function RefOf(m: Manifest): Ref
  {
    Ref(m.gvk.gk, m.namespace, m.name)
  }

  function ApplyPriority(m: Manifest): nat
  {
    if m.gvk.gk == CRD then 0 else if m.gvk.gk == NAMESPACE then 1 else 2
  }

  /** The objects of one apply phase, in manifest order. */
  function Phase(objs: seq<Manifest>, p: nat): seq<Manifest>
  {
    if objs == [] then []
    else
      var front := Phase(objs[..|objs| - 1], p);
      var last := objs[|objs| - 1];
      if ApplyPriority(last) == p then front + [last] else front
  }

  function InApplyOrder(objs: seq<Manifest>): seq<Manifest>
  {
    Phase(objs, 0) + Phase(objs, 1) + Phase(objs, 2)
  }

  method SplitPhases(objs: seq<Manifest>)
    returns (crds: seq<Manifest>, namespaces: seq<Manifest>, rest: seq<Manifest>)
    ensures crds == Phase(objs, 0) && namespaces == Phase(objs, 1) && rest == Phase(objs, 2)
    ensures forall m | m in crds :: m.gvk.gk == CRD
    ensures forall m | m in namespaces :: m.gvk.gk == NAMESPACE
    ensures forall m | m in rest :: m.gvk.gk != CRD && m.gvk.gk != NAMESPACE
  {
    crds, namespaces, rest := [], [], [];
    for i := 0 to |objs|
      invariant crds == Phase(objs[..i], 0) && namespaces == Phase(objs[..i], 1) && rest == Phase(objs[..i], 2)
      invariant forall m | m in crds :: m.gvk.gk == CRD
      invariant forall m | m in namespaces :: m.gvk.gk == NAMESPACE
      invariant forall m | m in rest :: m.gvk.gk != CRD && m.gvk.gk != NAMESPACE
    {
      assert objs[..i + 1][..i] == objs[..i];
      if objs[i].gvk.gk == CRD {
        crds := crds + [objs[i]];
      } else if objs[i].gvk.gk == NAMESPACE {
        namespaces := namespaces + [objs[i]];
      } else {
        rest := rest + [objs[i]];
      }
    }
    assert objs[..|objs|] == objs;
  }

  /** One step of a stable sort: `x` goes behind everything that does not come after it. */
  function InsertStable(sorted: seq<Manifest>, x: Manifest): seq<Manifest>
  {
    if sorted == [] then [x]
    else if ApplyPriority(sorted[0]) <= ApplyPriority(x) then [sorted[0]] + InsertStable(sorted[1..], x)
    else [x] + sorted
  }

  /** slices.SortStableFunc by priority. */
  function SortForApply(objs: seq<Manifest>): seq<Manifest>
  {
    if objs == [] then []
    else InsertStable(SortForApply(objs[..|objs| - 1]), objs[|objs| - 1])
  }

  function Reversed<T>(xs: seq<T>): seq<T>
  {
    if xs == [] then [] else Reversed(xs[1..]) + [xs[0]]
  }

  function SortForDelete(objs: seq<Manifest>): seq<Manifest>
  {
    Reversed(SortForApply(objs))
  }

  lemma {:induction false} InsertBehind(low: seq<Manifest>, high: seq<Manifest>, x: Manifest)
    requires forall m | m in low :: ApplyPriority(m) <= ApplyPriority(x)
    requires forall m | m in high :: ApplyPriority(x) < ApplyPriority(m)
    ensures InsertStable(low + high, x) == low + [x] + high
  {
    var all := low + high;
    if low == [] {
      assert all == high;
      if high != [] { assert high[0] in high; }
    } else {
      assert low[0] in low;
      InsertBehind(low[1..], high, x);
      assert all[1..] == low[1..] + high;
      assert [low[0]] + (low[1..] + [x] + high) == low + [x] + high;
    }
  }

  lemma {:induction false} PhaseMembers(objs: seq<Manifest>, p: nat, m: Manifest)
    ensures m in Phase(objs, p) <==> m in objs && ApplyPriority(m) == p
  {
    if objs != [] {
      PhaseMembers(objs[..|objs| - 1], p, m);
      assert objs == objs[..|objs| - 1] + [objs[|objs| - 1]];
    }
  }

  /** Sorting stably by priority is splitting into phases and putting the phases one after the other. */
  lemma {:induction false} SortIsPhases(objs: seq<Manifest>)
    ensures SortForApply(objs) == InApplyOrder(objs)
  {
    if objs != [] {
      var front, x := objs[..|objs| - 1], objs[|objs| - 1];
      SortIsPhases(front);
      var a, b, c := Phase(front, 0), Phase(front, 1), Phase(front, 2);
      forall m ensures (m in a ==> ApplyPriority(m) == 0) && (m in b ==> ApplyPriority(m) == 1)
                       && (m in c ==> ApplyPriority(m) == 2) {
        PhaseMembers(front, 0, m);
        PhaseMembers(front, 1, m);
        PhaseMembers(front, 2, m);
      }
      if ApplyPriority(x) == 0 {
        InsertBehind(a, b + c, x);
        assert a + b + c == a + (b + c);
        assert a + [x] + (b + c) == a + [x] + b + c;
      } else if ApplyPriority(x) == 1 {
        InsertBehind(a + b, c, x);
        assert a + b + [x] + c == a + (b + [x]) + c;
      } else {
        InsertBehind(a + b + c, [], x);
        assert a + b + c + [] == a + b + c;
        assert a + b + c + [x] + [] == a + b + (c + [x]);
      }
    }
  }

  lemma {:induction false} ReversedConcat<T>(xs: seq<T>, ys: seq<T>)
    ensures Reversed(xs + ys) == Reversed(ys) + Reversed(xs)
  {
    if xs == [] {
      assert xs + ys == ys;
    } else {
      ReversedConcat(xs[1..], ys);
      assert (xs + ys)[1..] == xs[1..] + ys;
    }
  }

  lemma {:induction false} PhasesPermute(objs: seq<Manifest>)
    ensures multiset(InApplyOrder(objs)) == multiset(objs)
  {
    if objs != [] {
      PhasesPermute(objs[..|objs| - 1]);
      assert objs == objs[..|objs| - 1] + [objs[|objs| - 1]];
    }
  }

  lemma {:induction false} ReversedPermutes<T>(xs: seq<T>)
    ensures multiset(Reversed(xs)) == multiset(xs)
  {
    if xs != [] {
      ReversedPermutes(xs[1..]);
      assert xs == [xs[0]] + xs[1..];
    }
  }

  /**
   Deletion visits every manifest object, the ordinary objects first, then the Namespaces and the
   CRDs last, so custom resources go before their definitions. (The comment on the source's function
   says that Namespaces are removed last; its code removes the CRDs last.)
   */
  lemma DeleteOrder(objs: seq<Manifest>)
    ensures SortForDelete(objs)
         == Reversed(Phase(objs, 2)) + Reversed(Phase(objs, 1)) + Reversed(Phase(objs, 0))
    ensures multiset(SortForDelete(objs)) == multiset(objs)
  {
    SortIsPhases(objs);
    var a, b, c := Phase(objs, 0), Phase(objs, 1), Phase(objs, 2);
    ReversedConcat(a + b, c);
    ReversedConcat(a, b);
    assert Reversed(c) + (Reversed(b) + Reversed(a)) == Reversed(c) + Reversed(b) + Reversed(a);
    PhasesPermute(objs);
    ReversedPermutes(SortForApply(objs));
  }

  // ----- the order, by kinds -----

  /** Nothing but CRDs comes before a CRD, and nothing but CRDs and Namespaces before a Namespace. */
  ghost predicate CrdsThenNamespaces(order: seq<Manifest>)
  {
    forall i, j | 0 <= i < j < |order| ::
      && (order[j].gvk.gk == CRD ==> order[i].gvk.gk == CRD)
      && (order[j].gvk.gk == NAMESPACE ==> order[i].gvk.gk == CRD || order[i].gvk.gk == NAMESPACE)
  }

  lemma PhaseKinds(objs: seq<Manifest>, m: Manifest)
    ensures m in Phase(objs, 0) ==> m.gvk.gk == CRD
    ensures m in Phase(objs, 1) ==> m.gvk.gk == NAMESPACE
    ensures m in Phase(objs, 2) ==> m.gvk.gk != CRD && m.gvk.gk != NAMESPACE
  {
    PhaseMembers(objs, 0, m);
    PhaseMembers(objs, 1, m);
    PhaseMembers(objs, 2, m);
  }

  /** What is applied first: CRDs come before all other objects, Namespaces before all but CRDs. */
  lemma ApplyOrderByKind(objs: seq<Manifest>)
    ensures CrdsThenNamespaces(SortForApply(objs))
  {
    SortIsPhases(objs);
    var a, b, c := Phase(objs, 0), Phase(objs, 1), Phase(objs, 2);
    var order := SortForApply(objs);
    forall i | 0 <= i < |order|
      ensures i < |a| ==> order[i].gvk.gk == CRD
      ensures |a| <= i < |a| + |b| ==> order[i].gvk.gk == NAMESPACE
      ensures |a| + |b| <= i ==> order[i].gvk.gk != CRD && order[i].gvk.gk != NAMESPACE
    {
      PhaseKinds(objs, order[i]);
      if i < |a| {
        assert order[i] == a[i];
      } else if i < |a| + |b| {
        assert order[i] == b[i - |a|];
      } else {
        assert order[i] == c[i - |a| - |b|];
      }
    }
  }

  lemma {:induction false} ReversedAt<T>(xs: seq<T>, i: nat)
    requires i < |xs|
    ensures |Reversed(xs)| == |xs| && Reversed(xs)[i] == xs[|xs| - 1 - i]
  {
    if |xs| == 1 {
      assert Reversed(xs[1..]) == [];
    } else {
      ReversedAt(xs[1..], if i < |xs| - 1 then i else 0);
    }
  }

  /** What is deleted last: CRDs come after all other objects, Namespaces after all but CRDs. */
  lemma DeleteOrderByKind(objs: seq<Manifest>)
    ensures var order := SortForDelete(objs);
            forall i, j | 0 <= i < j < |order| ::
              && (order[i].gvk.gk == CRD ==> order[j].gvk.gk == CRD)
              && (order[i].gvk.gk == NAMESPACE ==> order[j].gvk.gk == CRD || order[j].gvk.gk == NAMESPACE)
  {
    ApplyOrderByKind(objs);
    var order, sorted := SortForDelete(objs), SortForApply(objs);
    if sorted == [] {
      assert order == [];
    } else {
      forall i | 0 <= i < |sorted| ensures |order| == |sorted| && order[i] == sorted[|sorted| - 1 - i] {
        ReversedAt(sorted, i);
      }
      ReversedAt(sorted, 0);
    }
  }
}
