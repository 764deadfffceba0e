/**
 Document (pkg/yamled/document.go, util.go): the YAML editor. Set works from the leaf upwards, with
 repeated lookups from the root and a recursion that rebuilds each parent; it is proved to compute
 the structural Put.
 */
module YamlDocument {
  import opened Strings
  import opened YamlValues

  // ----- Get's own idea of a key -----

  /** Get compares a key that is not a string as if it were "". */
  function LooseName(k: MapKey): string
  {
    match k case Str(s) => s case NonStr(_) => ""
  }

  function FindLoose(slice: seq<Item>, name: string): (r: Option<nat>)
    ensures r.Some? ==> r.value < |slice| && LooseName(slice[r.value].key) == name
    ensures r.Some? ==> forall j | 0 <= j < r.value :: LooseName(slice[j].key) != name
    ensures r.None? ==> forall j | 0 <= j < |slice| :: LooseName(slice[j].key) != name
  {
    if slice == [] then None
    else if LooseName(slice[0].key) == name then Some(0)
    else
      match FindLoose(slice[1..], name)
      case None => None
      case Some(i) => Some(i + 1)
  }

  function LooseChild(v: Value, s: Step): Option<Value>
  {
    match (v, s)
    case (MapSlice(slice), Name(k)) =>
      (match FindLoose(slice, k)
       case None => None
       case Some(i) => Some(slice[i].value))
    case _ => Child(v, s)
  }

  function LooseLookup(v: Value, path: Path): Option<Value>
  {
    if path == [] then Some(v)
    else
      match LooseChild(v, path[0])
      case None => None
      case Some(c) => LooseLookup(c, path[1..])
  }

  /** A key that is not a string stands before the key "" that the step asks for. */
  predicate Shadows(v: Value, s: Step)
  {
    v.MapSlice? && s.Name? && FindLoose(v.slice, s.name) != FindKey(v.slice, Str(s.name))
  }

  /** Path.Parent */
  function Parent(path: Path): (parent: Path)
    ensures NonNegative(path) ==> NonNegative(parent)
  {
    if path == [] then [] else path[..|path| - 1]
  }

  /** On the way down the path no key is mistaken for another one. */
  predicate Unshadowed(v: Value, path: Path)
  {
    path == []
    || (&& !Shadows(v, path[0])
        && match Child(v, path[0]) case None => true case Some(c) => Unshadowed(c, path[1..]))
  }

  lemma LooseAt(slice: seq<Item>, name: string, i: nat)
    requires i < |slice| && LooseName(slice[i].key) == name
    requires forall j | 0 <= j < i :: LooseName(slice[j].key) != name
    ensures FindLoose(slice, name) == Some(i)
  {
  }

  lemma LooseIsExact(slice: seq<Item>, name: string)
    requires name != "" || forall it | it in slice :: it.key.Str?
    ensures FindLoose(slice, name) == FindKey(slice, Str(name))
  {
    match FindLoose(slice, name)
    case Some(i) =>
      assert slice[i] in slice;
      FirstMatch(slice, Str(name), i);
    case None => NoMatch(slice, Str(name));
  }

  /** Get reads an unshadowed path as written. */
  lemma {:induction false} UnshadowedIsExact(v: Value, path: Path)
    requires Unshadowed(v, path)
    ensures LooseLookup(v, path) == Lookup(v, path)
    decreases |path|
  {
    if path != [] && Child(v, path[0]).Some? {
      UnshadowedIsExact(Child(v, path[0]).value, path[1..]);
    }
  }

  /** All keys, at every depth, are strings. */
  predicate StringKeyed(v: Value)
  {
    match v
    case Array(a) => forall x | x in a :: StringKeyed(x)
    case GoMap(m) => forall k | k in m :: StringKeyed(m[k])
    case MapSlice(slice) => forall it | it in slice :: it.key.Str? && StringKeyed(it.value)
    case _ => true
  }

  lemma ChildKeyed(v: Value, s: Step)
    requires Child(v, s).Some?
    ensures StringKeyed(v) ==> StringKeyed(Child(v, s).value)
  {
    match v
    case Array(a) => assert a[s.index] in a;
    case MapSlice(slice) =>
      var i := FindKey(slice, Str(s.name)).value;
      assert slice[i] in slice;
    case _ =>
  }

  /** Only a step "" over a key that is not a string can be shadowed. */
  lemma {:induction false} OrdinaryIsUnshadowed(v: Value, path: Path)
    requires Name("") !in path || StringKeyed(v)
    ensures Unshadowed(v, path)
    decreases |path|
  {
    if path != [] {
      var s := path[0];
      assert s == Name("") ==> Name("") in path;
      if v.MapSlice? && s.Name? { LooseIsExact(v.slice, s.name); }
      if Child(v, s).Some? {
        ChildKeyed(v, s);
        assert Name("") in path[1..] ==> Name("") in path;
        OrdinaryIsUnshadowed(Child(v, s).value, path[1..]);
      }
    }
  }

  // ----- paths from their ends -----

  lemma {:induction false} LooseConcat(v: Value, p: Path, q: Path)
    ensures LooseLookup(v, p + q) == match LooseLookup(v, p) case None => None case Some(t) => LooseLookup(t, q)
    decreases |p|
  {
    if p == [] {
      assert p + q == q;
    } else {
      assert (p + q)[1..] == p[1..] + q;
      if LooseChild(v, p[0]).Some? { LooseConcat(LooseChild(v, p[0]).value, p[1..], q); }
    }
  }

  lemma LooseSnoc(v: Value, p: Path, s: Step)
    ensures LooseLookup(v, p + [s]) == match LooseLookup(v, p) case None => None case Some(t) => LooseChild(t, s)
  {
    LooseConcat(v, p, [s]);
    assert [s][1..] == [];
  }

  /** A path is unshadowed when its parent is and its last step is not mistaken there. */
  lemma {:induction false} UnshadowedSnoc(v: Value, p: Path, s: Step)
    ensures Unshadowed(v, p + [s]) <==>
            Unshadowed(v, p) && match Lookup(v, p) case None => true case Some(t) => !Shadows(t, s)
    decreases |p|
  {
    if p == [] {
      assert p + [s] == [s] && [s][1..] == [];
    } else {
      assert (p + [s])[1..] == p[1..] + [s];
      if Child(v, p[0]).Some? { UnshadowedSnoc(Child(v, p[0]).value, p[1..], s); }
    }
  }

  /** Replacing a child that is read as written keeps it so. */
  lemma PutChildUnshadowed(v: Value, s: Step, c: Value)
    requires PutChild(v, s, c).Some? && !Shadows(v, s)
    ensures !Shadows(PutChild(v, s, c).value, s)
  {
    if v.MapSlice? {
      var w := SetKey(v.slice, Str(s.name), c);
      FindAfterSet(v.slice, Str(s.name), c, Str(s.name));
      match FindKey(v.slice, Str(s.name))
      case Some(i) => LooseAt(w, s.name, i);
      case None => LooseAt(w, s.name, |v.slice|);
    }
  }

  lemma KeyIsLoose(slice: seq<Item>, name: string)
    ensures FindLoose(slice, name).None? ==> FindKey(slice, Str(name)).None?
  {
    if FindLoose(slice, name).None? { NoMatch(slice, Str(name)); }
  }

  /** Setting a key that is mistaken for another one leaves the other one in the way, with its value. */
  lemma PutChildShadowed(v: Value, s: Step, c: Value)
    requires Shadows(v, s)
    ensures PutChild(v, s, c).Some? && Shadows(PutChild(v, s, c).value, s)
    ensures LooseChild(PutChild(v, s, c).value, s) == LooseChild(v, s)
  {
    var name := s.name;
    var w := SetKey(v.slice, Str(name), c);
    KeyIsLoose(v.slice, name);
    var i := FindLoose(v.slice, name).value;
    if v.slice[i].key == Str(name) { FirstMatch(v.slice, Str(name), i); }
    assert w[i] == v.slice[i];
    LooseAt(w, name, i);
  }

  lemma {:induction false} PutUnshadowed(v: Value, path: Path, x: Value)
    requires Unshadowed(v, path) && Put(v, path, x).Some?
    ensures Unshadowed(Put(v, path, x).value, path)
    decreases |path|
  {
    if path != [] {
      var c := Put(Below(v, path), path[1..], x).value;
      if Child(v, path[0]).None? { SeedUnshadowed(path[1..]); }
      PutUnshadowed(Below(v, path), path[1..], x);
      PutChildUnshadowed(v, path[0], c);
      PutChildLaws(v, path[0], c, c);
    }
  }

  lemma SeedUnshadowed(path: Path)
    ensures Unshadowed(Seed(path), path)
  {
  }

  lemma UnshadowedParent(v: Value, path: Path)
    requires Unshadowed(v, path)
    ensures Unshadowed(v, Parent(path))
  {
    if path != [] {
      assert path == Parent(path) + [path[|path| - 1]];
      UnshadowedSnoc(v, Parent(path), path[|path| - 1]);
    }
  }

  // ----- what setInternal computes, in its own terms -----

  /** The document once the parent of the path is there, and that parent; none when there is no way to have it. */
  function Ready(v: Value, path: Path): (Value, Option<Value>)
    requires path != []
    decreases |path|, 0
  {
    var leaf, parent := path[|path| - 1], path[..|path| - 1];
    match LooseLookup(v, parent)
    case Some(t) => (v, Some(t))
    case None =>
      if leaf.Other? then (v, None)
      else
        var (w, made) := SetSpec(v, parent, Seed([leaf]));
        (w, if made then LooseLookup(w, parent) else None)
  }

  /**
   The document that the recursion leaves, and whether it succeeds, in terms of values. The source writes
   into the maps and slices it has found, so this is what it does as long as each of them is put back where
   it was found: on every path with an unshadowed parent, and where nothing found is written to.
   */
  function SetSpec(v: Value, path: Path, x: Value): (Value, bool)
    decreases |path|, 1
  {
    if path == [] then (x, true)
    else
      var leaf, parent := path[|path| - 1], path[..|path| - 1];
      var (w, target) := Ready(v, path);
      match target
      case None => (w, false)
      case Some(t) =>
        match PutChild(t, leaf, x)
        case None => (w, false)
        case Some(t') => SetSpec(w, parent, t')
  }

  function PutOutcome(v: Value, path: Path, x: Value): (Value, bool)
  {
    match Put(v, path, x) case Some(w) => (w, true) case None => (v, false)
  }

  lemma {:induction false} SettableParent(v: Value, path: Path, x: Value)
    requires Lookup(v, path).Some? && NonNegative(path)
    ensures Put(v, path, x).Some?
    decreases |path|
  {
    if path != [] {
      assert path[0] in path;
      var c := Child(v, path[0]).value;
      SettableParent(c, path[1..], x);
    }
  }

  /** Setting below a parent that is found: change it, then set it. */
  lemma SetBelow(v: Value, parent: Path, leaf: Step, x: Value, t: Value)
    requires LooseLookup(v, parent) == Some(t)
    ensures SetSpec(v, parent + [leaf], x) ==
            match PutChild(t, leaf, x) case None => (v, false) case Some(t') => SetSpec(v, parent, t')
  {
    var path := parent + [leaf];
    assert path[|path| - 1] == leaf && path[..|path| - 1] == parent;
    assert Ready(v, path) == (v, Some(t));
  }

  /**
   If no key is mistaken on the way to the parent, the parent-first recursion computes the structural put,
   and leaves the document as it was where the put is impossible.
   */
  lemma {:induction false} SetIsPut(v: Value, path: Path, x: Value)
    requires Unshadowed(v, Parent(path)) && NonNegative(path)
    ensures SetSpec(v, path, x) == PutOutcome(v, path, x)
    decreases |path|, 0
  {
    if path != [] {
      var leaf, parent := path[|path| - 1], path[..|path| - 1];
      assert path == parent + [leaf];
      UnshadowedIsExact(v, parent);
      PutSnoc(v, parent, leaf, x);
      if Lookup(v, parent).Some? {
        SetAtParent(v, parent, leaf, x, Lookup(v, parent).value);
      } else if !leaf.Other? {
        UnshadowedParent(v, parent);
        SetIsPut(v, parent, Seed([leaf]));
        if Put(v, parent, Seed([leaf])).Some? {
          SetAtMadeParent(v, parent, leaf, x);
        } else if PutChild(Seed([leaf]), leaf, x).Some? {
          PutAnyValue(v, parent, Seed([leaf]), PutChild(Seed([leaf]), leaf, x).value);
        }
      }
    }
  }

  /** The parent is there. */
  lemma {:induction false} SetAtParent(v: Value, parent: Path, leaf: Step, x: Value, t: Value)
    requires Unshadowed(v, parent) && NonNegative(parent + [leaf]) && Lookup(v, parent) == Some(t)
    ensures SetSpec(v, parent + [leaf], x) == PutOutcome(v, parent + [leaf], x)
    decreases |parent|, 1
  {
    assert forall s | s in parent :: s in parent + [leaf];
    UnshadowedIsExact(v, parent);
    SetBelow(v, parent, leaf, x, t);
    PutSnoc(v, parent, leaf, x);
    if PutChild(t, leaf, x).Some? {
      var t' := PutChild(t, leaf, x).value;
      SettableParent(v, parent, t');
      UnshadowedParent(v, parent);
      SetIsPut(v, parent, t');
    }
  }

  /** The parent is made first. */
  lemma {:induction false} SetAtMadeParent(v: Value, parent: Path, leaf: Step, x: Value)
    requires Unshadowed(v, parent) && NonNegative(parent + [leaf]) && Lookup(v, parent).None? && !leaf.Other?
    requires Put(v, parent, Seed([leaf])).Some?
    requires SetSpec(v, parent, Seed([leaf])) == PutOutcome(v, parent, Seed([leaf]))
    ensures SetSpec(v, parent + [leaf], x) == PutOutcome(v, parent + [leaf], x)
    decreases |parent|, 1
  {
    var path := parent + [leaf];
    assert path[|path| - 1] == leaf && path[..|path| - 1] == parent && leaf in path;
    assert forall s | s in parent :: s in path;
    var w := Put(v, parent, Seed([leaf])).value;
    PutGet(v, parent, Seed([leaf]));
    PutUnshadowed(v, parent, Seed([leaf]));
    UnshadowedIsExact(v, parent);
    UnshadowedIsExact(w, parent);
    PutSnoc(v, parent, leaf, x);
    var t := PutChild(Seed([leaf]), leaf, x).value;
    PutPut(v, parent, Seed([leaf]), t);
    UnshadowedParent(w, parent);
    SetIsPut(w, parent, t);
  }

  /** A path at which Get finds something can be set. */
  lemma FoundIsSettable(v: Value, path: Path, x: Value)
    requires path != [] && NonNegative(path) && Unshadowed(v, Parent(path)) && LooseLookup(v, path).Some?
    ensures Put(v, path, x).Some?
  {
    if Unshadowed(v, path) {
      UnshadowedIsExact(v, path);
      SettableParent(v, path, x);
    } else {
      ShadowedSet(v, path, x);
    }
  }

  /** Once the parent is ready, no key is mistaken on the way to it. */
  lemma ReadyUnshadowed(v: Value, path: Path)
    requires path != [] && NonNegative(path) && Unshadowed(v, Parent(path))
    ensures Unshadowed(Ready(v, path).0, Parent(path))
  {
    var leaf, parent := path[|path| - 1], Parent(path);
    if LooseLookup(v, parent).None? && !leaf.Other? {
      UnshadowedParent(v, parent);
      SetIsPut(v, parent, Seed([leaf]));
      if Put(v, parent, Seed([leaf])).Some? { PutUnshadowed(v, parent, Seed([leaf])); }
    }
  }

  /** Putting below a parent that is there and fits. */
  lemma PutBelow(v: Value, parent: Path, leaf: Step, x: Value, t: Value, t': Value)
    requires NonNegative(parent) && Lookup(v, parent) == Some(t) && PutChild(t, leaf, x) == Some(t')
    ensures Put(v, parent + [leaf], x) == Put(v, parent, t') && Put(v, parent, t').Some?
  {
    PutSnoc(v, parent, leaf, x);
    SettableParent(v, parent, t');
  }

  /** When the last key is the one mistaken, a Set succeeds and changes nothing that Get reads at the path. */
  lemma ShadowedSet(v: Value, path: Path, x: Value)
    requires !Unshadowed(v, path) && Unshadowed(v, Parent(path)) && NonNegative(path)
    ensures Put(v, path, x).Some?
    ensures LooseLookup(Put(v, path, x).value, path) == LooseLookup(v, path)
  {
    var leaf, parent := path[|path| - 1], Parent(path);
    assert path == parent + [leaf];
    LeafShadowed(v, parent, leaf, x);
  }

  lemma LeafShadowed(v: Value, parent: Path, leaf: Step, x: Value)
    requires !Unshadowed(v, parent + [leaf]) && Unshadowed(v, parent) && NonNegative(parent)
    ensures var put := Put(v, parent + [leaf], x);
            put.Some? && LooseLookup(put.value, parent + [leaf]) == LooseLookup(v, parent + [leaf])
  {
    UnshadowedSnoc(v, parent, leaf);
    UnshadowedIsExact(v, parent);
    var t := Lookup(v, parent).value;
    PutChildShadowed(t, leaf, x);
    var t' := PutChild(t, leaf, x).value;
    PutBelow(v, parent, leaf, x, t, t');
    var w := Put(v, parent, t').value;
    assert LooseLookup(w, parent) == Some(t') by {
      PutGet(v, parent, t');
      PutUnshadowed(v, parent, t');
      UnshadowedIsExact(w, parent);
    }
    LooseSnoc(v, parent, leaf);
    LooseSnoc(w, parent, leaf);
  }

  /**
   The exact condition for reading back what was put, if no key is mistaken on the way to the parent: after
   a Set that succeeds, Get returns the value set if and only if the last key is not mistaken either, or the
   path read as that value before.
   */
  lemma SetReadsBackExactly(v: Value, path: Path, x: Value)
    requires path != [] && NonNegative(path) && Unshadowed(v, Parent(path)) && Put(v, path, x).Some?
    ensures LooseLookup(Put(v, path, x).value, path) == Some(x) <==>
            Unshadowed(v, path) || LooseLookup(v, path) == Some(x)
  {
    if Unshadowed(v, path) {
      PutGet(v, path, x);
      PutUnshadowed(v, path, x);
      UnshadowedIsExact(Put(v, path, x).value, path);
    } else {
      ShadowedSet(v, path, x);
    }
  }

  /**
   With a key that is not a string in the way, Set can fail and still have changed the document. Here the
   map found under that key is empty, so nothing in it is overwritten.
   */
  lemma FailingSetChanges()
    ensures var v := MapSlice([Item(NonStr(1), MapSlice([]))]);
            var r := SetSpec(v, [Name(""), Name("x"), Name("y")], Null);
            !r.1 && r.0 != v
  {
    var inner := MapSlice([]);
    var v := MapSlice([Item(NonStr(1), inner)]);
    var p1, p2, p3 := [Name("")], [Name(""), Name("x")], [Name(""), Name("x"), Name("y")];
    assert p3[..2] == p2 && p2[..1] == p1 && p1[..0] == [] && p1[1..] == [];
    assert p2[1..] == [Name("x")] && [Name("x")][1..] == [];
    LooseAt(v.slice, "", 0);
    assert LooseLookup(v, p1) == Some(inner);
    BlankThenName(v, inner);
    var t := MapSlice([Item(Str("x"), GoMap(map[]))]);
    assert SetKey([], Str("x"), GoMap(map[])) == [Item(Str("x"), GoMap(map[]))];
    var w := MapSlice([Item(NonStr(1), inner), Item(Str(""), t)]);
    NoMatch(v.slice, Str(""));
    assert SetKey(v.slice, Str(""), t) == w.slice;
    assert SetSpec(v, p1, t) == (w, true);
    assert SetSpec(v, p2, GoMap(map[])) == (w, true);
    LooseAt(w.slice, "", 0);
    BlankThenName(w, inner);
  }

  lemma BlankThenName(v: Value, inner: Value)
    requires v.MapSlice? && LooseChild(v, Name("")) == Some(inner) && inner == MapSlice([])
    ensures LooseLookup(v, [Name(""), Name("x")]) == None
  {
    var p := [Name(""), Name("x")];
    assert p[1..] == [Name("x")];
    assert FindLoose([], "x") == None;
  }

  // ----- Remove's steps -----

  /** removeArrayItem */
  function RemoveAt(a: seq<Value>, i: int): seq<Value>
  {
    if 0 <= i < |a| then a[..i] + a[i + 1..] else a
  }

  /** removeKeyFromMapSlice: the first item with this key goes. */
  function RemoveKey(slice: seq<Item>, key: MapKey): seq<Item>
  {
    match FindKey(slice, key)
    case None => slice
    case Some(i) => slice[..i] + slice[i + 1..]
  }

  function RemoveChild(v: Value, s: Step): Option<Value>
  {
    match (v, s)
    case (GoMap(m), Name(k)) => Some(GoMap(m - {k}))
    case (MapSlice(slice), Name(k)) => Some(MapSlice(RemoveKey(slice, Str(k))))
    case (Array(a), Index(i)) => Some(Array(RemoveAt(a, i)))
    case _ => None
  }

  ghost predicate UniqueKeys(slice: seq<Item>)
  {
    forall i, j | 0 <= i < j < |slice| :: slice[i].key != slice[j].key
  }

  /** Removing a name takes exactly that child away; removing an index moves the later elements down. */
  lemma RemoveChildLaws(v: Value, s: Step, t: Step)
    requires RemoveChild(v, s).Some?
    requires v.MapSlice? ==> UniqueKeys(v.slice)
    ensures var w := RemoveChild(v, s).value;
            && (s.Name? ==> Child(w, s).None? && (t != s ==> Child(w, t) == Child(v, t)))
            && (s.Index? && t.Index? && Child(v, s).Some? ==>
                  Child(w, t) == Child(v, if 0 <= s.index <= t.index then Index(t.index + 1) else t))
            && (Child(v, s).None? ==> w == v)
  {
    match v
    case MapSlice(slice) => RemoveKeyLaws(slice, s.name, if t.Name? then t.name else s.name);
    case GoMap(m) => if s.name !in m { assert m - {s.name} == m; }
    case _ =>
  }

  lemma RemoveKeyLaws(slice: seq<Item>, k: string, t: string)
    requires UniqueKeys(slice)
    ensures var r := RemoveKey(slice, Str(k));
            && FindKey(r, Str(k)).None?
            && (FindKey(slice, Str(k)).None? ==> r == slice)
            && (t != k ==> (FindKey(r, Str(t)).Some? <==> FindKey(slice, Str(t)).Some?))
            && (t != k && FindKey(slice, Str(t)).Some? ==>
                  r[FindKey(r, Str(t)).value] == slice[FindKey(slice, Str(t)).value])
  {
    var r := RemoveKey(slice, Str(k));
    if FindKey(slice, Str(k)).Some? {
      var i := FindKey(slice, Str(k)).value;
      NoMatch(r, Str(k));
      if t != k {
        match FindKey(slice, Str(t))
        case None => NoMatch(r, Str(t));
        case Some(j) => FirstMatch(r, Str(t), if j < i then j else j - 1);
      }
    }
  }

  class Document {
    var root: seq<Item>

    constructor (slice: seq<Item>)
      ensures root == slice
    {
      root := slice;
    }

    /** Walks down from the root, one step at a time. */
    method Get(path: Path) returns (r: Option<Value>)
      ensures r == LooseLookup(MapSlice(root), path)
    {
      var result := MapSlice(root);
      for n := 0 to |path|
        invariant LooseLookup(MapSlice(root), path) == LooseLookup(result, path[n..])
      {
        assert path[n..][1..] == path[n + 1..];
        match path[n] {
          case Name(k) =>
            if result.GoMap? {
              if k !in result.entries { return None; }
              result := result.entries[k];
            } else if result.MapSlice? {
              var found := FindItem(result.slice, k);
              if found.None? { return None; }
              result := result.slice[found.value].value;
            } else {
              return None;
            }
          case Index(i) =>
            if !result.Array? || i < 0 || i >= |result.items| { return None; }
            result := result.items[i];
          case Other => return None;
        }
      }
      return Some(result);
    }

    method FindItem(slice: seq<Item>, name: string) returns (r: Option<nat>)
      ensures r == FindLoose(slice, name)
    {
      for i := 0 to |slice|
        invariant forall j | 0 <= j < i :: LooseName(slice[j].key) != name
      {
        if LooseName(slice[i].key) == name {
          LooseAt(slice, name, i);
          return Some(i);
        }
      }
      return None;
    }

    /** setValueInMapSlice */
    static method SetValueInMapSlice(slice: seq<Item>, key: MapKey, v: Value) returns (r: seq<Item>)
      ensures r == SetKey(slice, key, v)
    {
      for i := 0 to |slice|
        invariant forall j | 0 <= j < i :: slice[j].key != key
      {
        if slice[i].key == key {
          FirstMatch(slice, key, i);
          return slice[i := slice[i].(value := v)];
        }
      }
      NoMatch(slice, key);
      return slice + [Item(key, v)];
    }

    method SetRoot(v: Value) returns (ok: bool)
      modifies this
      ensures v.MapSlice? ==> ok && root == v.slice
      ensures v.GoMap? ==> ok && ListsEntries(root, v.entries)
      ensures !v.MapSlice? && !v.GoMap? ==> !ok && root == old(root)
    {
      if v.GoMap? {
        root := MakeMapSlice(v.entries);
        return true;
      } else if v.MapSlice? {
        root := v.slice;
        return true;
      }
      return false;
    }

    /** The parent of a path: found, or created in the shape the last step needs. */
    method EnsureParent(path: Path) returns (target: Option<Value>)
      requires path != [] && NonNegative(path)
      modifies this
      ensures Unshadowed(MapSlice(old(root)), Parent(path)) ==>
                (MapSlice(root), target) == Ready(MapSlice(old(root)), path)
      decreases |path|, 0
    {
      var leaf, parent := path[|path| - 1], path[..|path| - 1];
      if parent == [] {
        return Some(MapSlice(root));
      }
      if Unshadowed(MapSlice(root), parent) {
        UnshadowedParent(MapSlice(root), parent);
        SetIsPut(MapSlice(root), parent, Seed([leaf]));
      }
      target := Get(parent);
      if target.None? {
        var made;
        match leaf {
          case Index(_) => made := SetInternal(parent, Array([]));
          case Name(_) => made := SetInternal(parent, GoMap(map[]));
          case Other => return None;
        }
        if !made {
          return None;
        }
        target := Get(parent);
      }
    }

    /** The container with one child replaced, if the step fits it. */
    static method ChangeChild(target: Value, leaf: Step, x: Value) returns (r: Option<Value>)
      requires leaf.Index? ==> leaf.index >= 0
      ensures r == PutChild(target, leaf, x)
    {
      match leaf
      case Index(i) =>
        if !target.Array? { return None; }
        var elems := target.items;
        while |elems| <= i
          invariant |elems| <= i + 1 || elems == target.items
          invariant Pad(elems, i + 1) == Pad(target.items, i + 1)
          decreases i - |elems|
        {
          elems := elems + [Null];
        }
        return Some(Array(elems[i := x]));
      case Name(k) =>
        if target.GoMap? {
          return Some(GoMap(target.entries[k := x]));
        } else if target.MapSlice? {
          var slice := SetValueInMapSlice(target.slice, Str(k), x);
          return Some(MapSlice(slice));
        }
        return None;
      case Other => return None;
    }

    /** The recursion behind Set. It ends because every call is for a shorter path. */
    method SetInternal(path: Path, x: Value) returns (ok: bool)
      requires NonNegative(path)
      modifies this
      ensures path == [] && x.MapSlice? ==> ok && MapSlice(root) == x
      ensures path != [] && Unshadowed(MapSlice(old(root)), Parent(path)) ==>
                (MapSlice(root), ok) == PutOutcome(MapSlice(old(root)), path, x)
      decreases |path|, 1
    {
      if path == [] {
        ok := SetRoot(x);
        return;
      }
      var leaf, parent := path[|path| - 1], path[..|path| - 1];
      ghost var v := MapSlice(root);
      ghost var exact := Unshadowed(v, parent);
      var target := EnsureParent(path);
      if exact {
        SetIsPut(v, path, x);
        ReadyUnshadowed(v, path);
        UnshadowedParent(MapSlice(root), parent);
      }
      if target.None? {
        return false;
      }
      var changed := ChangeChild(target.value, leaf, x);
      if changed.None? {
        return false;
      }
      if exact { SetIsPut(MapSlice(root), parent, changed.value); }
      ok := SetInternal(parent, changed.value);
    }

    /**
     If no key is mistaken on the way to the parent, Set is the structural Put: it succeeds exactly when Put
     does, then the document is what Put gives, and a Set that fails leaves the document as it was.
     */
    method Set(path: Path, x: Value) returns (ok: bool)
      requires NonNegative(path)
      modifies this
      ensures path == [] ==> !ok && root == old(root)
      ensures path != [] && Unshadowed(MapSlice(old(root)), Parent(path)) ==>
                (MapSlice(root), ok) == PutOutcome(MapSlice(old(root)), path, x)
    {
      if path == [] {
        return false;
      }
      ok := SetInternal(path, x);
    }

    /** Adds an element to the array that Get finds at the path, creating one when there is nothing. */
    method Append(path: Path, x: Value) returns (ok: bool)
      requires NonNegative(path)
      modifies this
      ensures path == [] ==> !ok && root == old(root)
      ensures path != [] && Unshadowed(MapSlice(old(root)), Parent(path)) ==>
                var v := MapSlice(old(root));
                match LooseLookup(v, path)
                case None => (MapSlice(root), ok) == PutOutcome(v, path, Array([x]))
                case Some(node) =>
                  && ok == node.Array? && (!ok ==> root == old(root))
                  && (ok ==> Put(v, path, Array(node.items + [x])) == Some(MapSlice(root)))
    {
      if path == [] {
        return false;
      }
      ghost var v := MapSlice(root);
      var node := Get(path);
      if node.None? {
        ok := Set(path, Array([x]));
        return;
      }
      if !node.value.Array? {
        return false;
      }
      if Unshadowed(v, Parent(path)) { FoundIsSettable(v, path, Array(node.value.items + [x])); }
      ok := Set(path, Array(node.value.items + [x]));
    }

    /** removeArrayItem / removeKeyFromMapSlice / delete, as far as the step fits the parent. */
    static method DropChild(parent: Value, leaf: Step) returns (r: Option<Value>)
      ensures r == RemoveChild(parent, leaf)
    {
      match leaf
      case Index(i) =>
        if !parent.Array? { return None; }
        var a := parent.items;
        if 0 <= i < |a| { a := a[..i] + a[i + 1..]; }
        return Some(Array(a));
      case Name(k) =>
        if parent.GoMap? {
          return Some(GoMap(parent.entries - {k}));
        } else if parent.MapSlice? {
          var slice := parent.slice;
          for i := 0 to |slice|
            invariant forall j | 0 <= j < i :: slice[j].key != Str(k)
          {
            if slice[i].key == Str(k) {
              FirstMatch(slice, Str(k), i);
              return Some(MapSlice(slice[..i] + slice[i + 1..]));
            }
          }
          NoMatch(slice, Str(k));
          return Some(parent);
        }
        return None;
      case Other => return None;
    }

    /** Removes what the path names; removing what is not there succeeds and changes nothing. */
    method Remove(path: Path) returns (ok: bool)
      requires NonNegative(path)
      modifies this
      ensures path == [] ==> ok && root == []
      ensures path != [] && Unshadowed(MapSlice(old(root)), Parent(path)) ==>
                var v, leaf := MapSlice(old(root)), path[|path| - 1];
                match Lookup(v, Parent(path))
                case None => ok && root == old(root)
                case Some(t) =>
                  (match RemoveChild(t, leaf)
                   case None => !ok && root == old(root)
                   case Some(t') => ok && Put(v, Parent(path), t') == Some(MapSlice(root)))
    {
      if path == [] {
        ok := SetRoot(MapSlice([]));
        return;
      }
      var leaf, parent := path[|path| - 1], path[..|path| - 1];
      ghost var v := MapSlice(root);
      var found := Get(parent);
      if Unshadowed(v, parent) {
        UnshadowedIsExact(v, parent);
        UnshadowedParent(v, parent);
      }
      if found.None? {
        return true;
      }
      var changed := DropChild(found.value, leaf);
      if changed.None? {
        return false;
      }
      if Unshadowed(v, parent) { SettableParent(v, parent, changed.value); }
      ok := SetInternal(parent, changed.value);
    }
  }

  /**
   What Remove does as the reader of the document sees it, for a document whose maps have unique keys:
   the name is gone and every diverging path that does not run through its parent array is as before.
   */
  lemma {:induction false} RemoveSeen(v: Value, parent: Path, leaf: Step, w: Value, q: Path)
    requires NonNegative(parent) && leaf.Name?
    requires Lookup(v, parent).Some? && RemoveChild(Lookup(v, parent).value, leaf).Some?
    requires Lookup(v, parent).value.MapSlice? ==> UniqueKeys(Lookup(v, parent).value.slice)
    requires Put(v, parent, RemoveChild(Lookup(v, parent).value, leaf).value) == Some(w)
    ensures Lookup(w, parent + [leaf]).None?
    ensures Diverge(parent + [leaf], q) && Lookup(v, q).Some? ==> Lookup(w, q) == Lookup(v, q)
    decreases |parent|
  {
    var full := parent + [leaf];
    if parent == [] {
      assert full == [leaf];
      RemovedHere(v, leaf, w, q);
    } else {
      var c := Child(v, parent[0]).value;
      var c' := Put(c, parent[1..], RemoveChild(Lookup(v, parent).value, leaf).value).value;
      assert full[0] == parent[0] && full[1..] == parent[1..] + [leaf];
      RemoveSeen(c, parent[1..], leaf, c', if q == [] then [] else q[1..]);
      assert Child(w, parent[0]) == Some(c') by { PutChildLaws(v, parent[0], c', c'); }
      if q != [] && q[0] != parent[0] && Lookup(v, q).Some? {
        PutChildOthers(v, parent[0], c', q[0]);
      }
    }
  }

  lemma RemovedHere(v: Value, leaf: Step, w: Value, q: Path)
    requires leaf.Name? && RemoveChild(v, leaf) == Some(w) && (v.MapSlice? ==> UniqueKeys(v.slice))
    ensures Lookup(w, [leaf]).None?
    ensures Diverge([leaf], q) && Lookup(v, q).Some? ==> Lookup(w, q) == Lookup(v, q)
  {
    RemoveChildLaws(v, leaf, if q == [] then leaf else q[0]);
    if Diverge([leaf], q) {
      assert [leaf][1..] == [] && !Diverge([], q[1..]);
    }
  }

  lemma {:induction false} LookupConcat(v: Value, p: Path, q: Path)
    ensures Lookup(v, p + q) == match Lookup(v, p) case None => None case Some(t) => Lookup(t, q)
    decreases |p|
  {
    if p == [] {
      assert p + q == q;
    } else {
      assert (p + q)[1..] == p[1..] + q;
      if Child(v, p[0]).Some? { LookupConcat(Child(v, p[0]).value, p[1..], q); }
    }
  }

  lemma LookupStep(v: Value, s: Step, q: Path)
    ensures Lookup(v, [s] + q) == match Child(v, s) case None => None case Some(c) => Lookup(c, q)
  {
    assert ([s] + q)[0] == s && ([s] + q)[1..] == q;
  }

  lemma ElementsMove(t: Value, i: nat, j: nat, q: Path)
    requires Child(t, Index(i)).Some?
    ensures Lookup(RemoveChild(t, Index(i)).value, [Index(j)] + q)
         == Lookup(t, [Index(if i <= j then j + 1 else j)] + q)
  {
    RemoveChildLaws(t, Index(i), Index(j));
    LookupStep(RemoveChild(t, Index(i)).value, Index(j), q);
    LookupStep(t, Index(if i <= j then j + 1 else j), q);
  }

  /**
   The same for an element of an array: below the array the later elements have moved down by one, the
   earlier ones have stayed, and every path that diverges from the array's own reads as before.
   */
  lemma {:induction false} RemoveIndexSeen(v: Value, parent: Path, i: nat, w: Value, j: nat, q: Path, other: Path)
    requires Lookup(v, parent).Some? && Child(Lookup(v, parent).value, Index(i)).Some?
    requires Put(v, parent, RemoveChild(Lookup(v, parent).value, Index(i)).value) == Some(w)
    ensures Lookup(w, parent + ([Index(j)] + q)) == Lookup(v, parent + ([Index(if i <= j then j + 1 else j)] + q))
    ensures Diverge(parent, other) && Lookup(v, other).Some? ==> Lookup(w, other) == Lookup(v, other)
  {
    var t := Lookup(v, parent).value;
    var t' := RemoveChild(t, Index(i)).value;
    PutGet(v, parent, t');
    LookupConcat(w, parent, [Index(j)] + q);
    LookupConcat(v, parent, [Index(if i <= j then j + 1 else j)] + q);
    ElementsMove(t, i, j, q);
    if Diverge(parent, other) && Lookup(v, other).Some? {
      PutElsewhere(v, parent, t', other);
    }
  }

  // ----- Go maps as map slices -----

  /** The slice lists exactly the entries of the map, in some order. */
  ghost predicate ListsEntries(slice: seq<Item>, m: map<string, Value>)
  {
    && (forall it | it in slice :: it.key.Str? && it.key.s in m && it.value == m[it.key.s])
    && (forall k | k in m :: Item(Str(k), m[k]) in slice)
    && UniqueKeys(slice)
  }

  /** makeMapSlice: Go iterates a map in any order. */
  method MakeMapSlice(m: map<string, Value>) returns (slice: seq<Item>)
    ensures ListsEntries(slice, m)
  {
    slice := [];
    var rest := m.Keys;
    while rest != {}
      invariant rest <= m.Keys
      invariant forall it | it in slice :: it.key.Str? && it.key.s in m.Keys - rest && it.value == m[it.key.s]
      invariant forall k | k in m.Keys - rest :: Item(Str(k), m[k]) in slice
      invariant UniqueKeys(slice)
      decreases rest
    {
      var k :| k in rest;
      forall i | 0 <= i < |slice| ensures slice[i].key != Str(k) {
        assert slice[i] in slice;
      }
      slice := slice + [Item(Str(k), m[k])];
      rest := rest - {k};
    }
  }
}
