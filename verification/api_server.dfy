/**
 The Kubernetes API server as the Applier sees it: live objects, the types it serves, and the
 requests the Applier sends. A request that fails may or may not have taken effect.
 */
module ApiServers {
  import opened Strings
  import opened Inventory
  import opened Manifests

  datatype Live = Live(labels: map<string, string>, terminating: bool, data: map<string, string>)

  /**
   `preferred` gives each served kind the version the RESTMapper picks for it; `namespaced` is the
   scope of kinds. An object of a cluster-scoped kind has no namespace in its identity.
   */
  datatype Server = Server(
    objects: map<Ref, Live>, served: set<Gvk>, preferred: map<GroupKind, string>, namespaced: set<GroupKind>)

  datatype Reply = Ok | NoMatch | Failed

  /** labels.SelectorFromSet: every listed label has the listed value. */
  type Selector = map<string, string>

  predicate Matches(sel: Selector, labels: map<string, string>)
  {
    forall k | k in sel :: k in labels && labels[k] == sel[k]
  }

  ghost predicate Valid(s: Server)
  {
    && (forall g | g in s.served :: g.gk in s.preferred)
    && (forall gk | gk in s.preferred :: Gvk(gk, s.preferred[gk]) in s.served)
    && (forall r | r in s.objects :: r.gk in s.preferred)
    && CONFIG_MAP in s.namespaced
  }

  /** The identity the server gives to an applied object. */
  function Identity(scope: set<GroupKind>, m: Manifest): Ref
  {
    Ref(m.gvk.gk, if m.gvk.gk in scope then m.namespace else "", m.name)
  }

  /**
   A server-side apply of `m` turned `old` into `now`: the fields of `m` are set, other fields are
   kept or, when this field manager owned them, dropped. Applying does not revive a terminating object.
   */
  ghost predicate Merged(before: Option<Live>, m: Manifest, now: Live)
  {
    && Matches(m.labels, now.labels) && Matches(m.data, now.data)
    && match before
       case None => now == Live(m.labels, false, m.data)
       case Some(o) =>
         && now.terminating == o.terminating
         && (forall k | k in now.labels && k !in m.labels :: k in o.labels && now.labels[k] == o.labels[k])
         && (forall k | k in now.data && k !in m.data :: k in o.data && now.data[k] == o.data[k])
  }

  function Find(s: Server, r: Ref): Option<Live>
  {
    if r in s.objects then Some(s.objects[r]) else None
  }

  ghost predicate Upserted(s: Server, s': Server, m: Manifest)
  {
    var r := Identity(s.namespaced, m);
    r in s'.objects && Merged(Find(s, r), m, s'.objects[r]) && s' == s.(objects := s.objects[r := s'.objects[r]])
  }

  function Refs(items: seq<(Ref, Live)>): set<Ref>
  {
    set it | it in items :: it.0
  }

  function Selected(s: Server, gk: GroupKind, sel: Selector): set<Ref>
  {
    set r | r in s.objects && r.gk == gk && Matches(sel, s.objects[r].labels)
  }

  /** The objects of a kind that match, each once, with what the server stores for them. */
  ghost predicate IsListing(s: Server, gk: GroupKind, sel: Selector, items: seq<(Ref, Live)>)
  {
    && Refs(items) == Selected(s, gk, sel)
    && (forall i | 0 <= i < |items| :: items[i].0 in s.objects && items[i].1 == s.objects[items[i].0])
    && (forall i, j | 0 <= i < j < |items| :: items[i].0 != items[j].0)
  }

  /** Deleting removes an object, or marks it when finalizers hold it back. */
  ghost predicate Deleted(s: Server, s': Server, r: Ref)
  {
    || s' == s.(objects := s.objects - {r})
    || (r in s.objects && s' == s.(objects := s.objects[r := s.objects[r].(terminating := true)]))
  }

  /** CRDs being established let the server serve more kinds. */
  function Establish(s: Server, kinds: map<GroupKind, string>): (s': Server)
    ensures Valid(s) ==> Valid(s')
    ensures s'.objects == s.objects && s'.namespaced == s.namespaced
    ensures s.served <= s'.served && s.preferred.Keys <= s'.preferred.Keys
    ensures forall gk | gk in s.preferred :: s'.preferred[gk] == s.preferred[gk]
  {
    s.(served := s.served + (set gk | gk in kinds :: Gvk(gk, kinds[gk])), preferred := kinds + s.preferred)
  }

  class ApiServer {
    var state: Server
    const reliable: bool  // no request fails for reasons of its own

    constructor (s: Server, r: bool)
      ensures state == s && reliable == r
    {
      state := s;
      reliable := r;
    }

    method KeepSome(m: map<string, string>) returns (kept: map<string, string>)
      ensures forall k | k in kept :: k in m && kept[k] == m[k]
    {
      kept := m;
      var rest := m.Keys;
      while rest != {}
        invariant forall k | k in kept :: k in m && kept[k] == m[k]
        decreases rest
      {
        var k :| k in rest;
        rest := rest - {k};
        if * {
          kept := kept - {k};
        }
      }
    }

    method Apply(m: Manifest, dryRun: bool) returns (r: Reply)
      requires Valid(state)
      modifies this
      ensures Valid(state)
      ensures r == NoMatch ==> m.gvk !in state.served
      ensures r == Ok ==> m.gvk in state.served
      ensures state == old(state) || (!dryRun && Upserted(old(state), state, m))
      ensures r == Ok && !dryRun ==> Upserted(old(state), state, m)
      ensures r == NoMatch ==> state == old(state)
      ensures reliable && m.gvk in old(state).served && (m.gvk.gk in old(state).namespaced ==> m.namespace != "") ==>
                r == Ok
    {
      if m.gvk !in state.served {
        return NoMatch;
      }
      if m.gvk.gk in state.namespaced && m.namespace == "" {
        return Failed;
      }
      if dryRun {
        if !reliable { if * { return Failed; } }
        return Ok;
      }
      if !reliable { if * { return Failed; } }
      var ref := Identity(state.namespaced, m);
      var now := Live(m.labels, false, m.data);
      if ref in state.objects {
        var o := state.objects[ref];
        var labels := KeepSome(o.labels);
        var data := KeepSome(o.data);
        now := Live(labels + m.labels, o.terminating, data + m.data);
      }
      state := state.(objects := state.objects[ref := now]);
      if !reliable { if * { return Failed; } }
      return Ok;
    }

    method Get(ref: Ref) returns (r: Reply, found: Option<Live>)
      ensures r == Ok ==> found == Find(state, ref)
      ensures reliable ==> r == Ok
    {
      found := Find(state, ref);
      if !reliable { if * { return Failed, None; } }
      return Ok, found;
    }

    method List(gvk: Gvk, sel: Selector) returns (r: Reply, items: seq<(Ref, Live)>)
      ensures r == NoMatch <==> gvk !in state.served
      ensures r == Ok ==> IsListing(state, gvk.gk, sel, items)
      ensures reliable ==> r != Failed
    {
      items := [];
      if gvk !in state.served {
        return NoMatch, [];
      }
      if !reliable { if * { return Failed, []; } }
      var rest := Selected(state, gvk.gk, sel);
      ghost var all := rest;
      while rest != {}
        invariant rest <= all && Refs(items) == all - rest
        invariant forall i | 0 <= i < |items| :: items[i].0 in state.objects && items[i].1 == state.objects[items[i].0]
        invariant forall i, j | 0 <= i < j < |items| :: items[i].0 != items[j].0
        decreases rest
      {
        var ref :| ref in rest;
        assert forall i | 0 <= i < |items| :: items[i].0 in Refs(items);
        assert Refs(items + [(ref, state.objects[ref])]) == Refs(items) + {ref};
        items := items + [(ref, state.objects[ref])];
        rest := rest - {ref};
      }
      return Ok, items;
    }

    /** A delete request; a missing object counts as deleted. */
    method Delete(ref: Ref, dryRun: bool) returns (r: Reply)
      requires Valid(state)
      modifies this
      ensures Valid(state)
      ensures state == old(state) || (!dryRun && Deleted(old(state), state, ref))
      ensures r == Ok && !dryRun ==> Deleted(old(state), state, ref)
      ensures reliable ==> r == Ok
    {
      if dryRun {
        if !reliable { if * { return Failed; } }
        return Ok;
      }
      if !reliable { if * { return Failed; } }
      if * {
        state := state.(objects := state.objects - {ref});
      } else if ref in state.objects {
        state := state.(objects := state.objects[ref := state.objects[ref].(terminating := true)]);
      } else {
        state := state.(objects := state.objects - {ref});
      }
      if !reliable { if * { return Failed; } }
      return Ok;
    }

    method RestMapping(gk: GroupKind) returns (r: Option<Gvk>)
      requires Valid(state)
      ensures r.Some? ==> gk in state.preferred && r.value == Gvk(gk, state.preferred[gk])
      ensures reliable && gk in state.preferred ==> r.Some?
    {
      if gk !in state.preferred {
        return None;
      }
      if !reliable { if * { return None; } }
      return Some(Gvk(gk, state.preferred[gk]));
    }
  }
}
