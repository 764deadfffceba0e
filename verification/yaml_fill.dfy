/**
 Document.Fill (pkg/yamled/document.go): a deep merge that prefers what is already there. Its meaning
 is given on trees that forget the order of keys and whether a map is a Go map or a map slice.
 */
module YamlFill {
  import opened Strings
  import opened YamlValues
  import opened YamlDocument

  datatype Tree = Leaf(v: Value) | Node(children: map<MapKey, Tree>)

  /** The keys of a Go map, as keys of a map slice. */
  ghost function Names(m: map<string, Value>): (keys: set<MapKey>)
    ensures forall k :: k in keys <==> k.Str? && k.s in m
  {
    var keys := set s | s in m :: Str(s);
    assert forall k: MapKey :: k.Str? && k.s in m ==> Str(k.s) in keys;
    keys
  }

  ghost function Meaning(v: Value): Tree
    decreases v
  {
    match v
    case GoMap(m) => Node(map k | k in Names(m) :: Meaning(m[k.s]))
    case MapSlice(slice) => Node(Children(slice))
    case _ => Leaf(v)
  }

  ghost function ItemMeaning(it: Item): Tree
    decreases it
  {
    Meaning(it.value)
  }

  /** The first item of each key. */
  ghost function Children(slice: seq<Item>): map<MapKey, Tree>
    decreases slice
  {
    if slice == [] then map[]
    else
      var n := |slice| - 1;
      var rest := Children(slice[..n]);
      if slice[n].key in rest then rest else rest[slice[n].key := ItemMeaning(slice[n])]
  }

  /** Maps, at every depth reachable through maps, have no key twice. */
  ghost predicate WellKeyed(v: Value)
  {
    match v
    case GoMap(m) => forall k | k in m :: WellKeyed(m[k])
    case MapSlice(slice) => UniqueKeys(slice) && forall it | it in slice :: WellKeyed(it.value)
    case _ => true
  }

  predicate IsMap(v: Value)
  {
    v.GoMap? || v.MapSlice?
  }

  /** Left-biased deep merge: maps are merged, anything else on the left stays. */
  ghost function Merge(a: Tree, b: Tree): Tree
    decreases a
  {
    if a.Node? && b.Node? then
      Node(map k | k in a.children.Keys + b.children.Keys ::
             if k !in a.children then b.children[k]
             else if k !in b.children then a.children[k]
             else Merge(a.children[k], b.children[k]))
    else a
  }

  lemma {:induction false} MergeIdempotent(a: Tree, b: Tree)
    ensures Merge(Merge(a, b), b) == Merge(a, b)
    decreases a
  {
    if a.Node? && b.Node? {
      var m := Merge(a, b);
      forall k | k in m.children ensures Merge(m, b).children[k] == m.children[k] {
        if k in a.children && k in b.children {
          MergeIdempotent(a.children[k], b.children[k]);
        } else if k in b.children {
          MergeSelf(b.children[k]);
        }
      }
      assert Merge(m, b).children == m.children;
    }
  }

  lemma {:induction false} MergeSelf(a: Tree)
    ensures Merge(a, a) == a
    decreases a
  {
    if a.Node? {
      forall k | k in a.children ensures Merge(a, a).children[k] == a.children[k] {
        MergeSelf(a.children[k]);
      }
      assert Merge(a, a).children == a.children;
    }
  }

  // ----- what merging means for a reader -----

  ghost function At(t: Tree, names: seq<string>): Option<Tree>
  {
    if names == [] then Some(t)
    else if t.Leaf? || Str(names[0]) !in t.children then None
    else At(t.children[Str(names[0])], names[1..])
  }

  /** Some value that is not a map lies on the way to `names`. */
  ghost predicate Blocked(t: Tree, names: seq<string>)
  {
    names != [] && (t.Leaf? || (Str(names[0]) in t.children && Blocked(t.children[Str(names[0])], names[1..])))
  }

  /**
   Filling keeps every value that was there and is not a map, adds what was missing, and lets an
   existing value that is not a map hide everything the new value has below it.
   */
  lemma {:induction false} MergeSeen(a: Tree, b: Tree, names: seq<string>)
    requires a.Node? && b.Node?
    ensures At(a, names).Some? && At(a, names).value.Leaf? ==> At(Merge(a, b), names) == At(a, names)
    ensures At(a, names).None? ==> At(Merge(a, b), names) == if Blocked(a, names) then None else At(b, names)
    ensures At(a, names).Some? && At(a, names).value.Node? && At(b, names).Some? ==>
              At(Merge(a, b), names) == Some(Merge(At(a, names).value, At(b, names).value))
    ensures At(a, names).Some? && At(a, names).value.Node? && At(b, names).None? ==>
              At(Merge(a, b), names) == At(a, names)
    decreases |names|
  {
    if names != [] {
      var k := Str(names[0]);
      if k in a.children && k in b.children {
        if a.children[k].Node? && b.children[k].Node? {
          MergeSeen(a.children[k], b.children[k], names[1..]);
        } else if names[1..] != [] && a.children[k].Node? {
          BlockedHere(a.children[k], names[1..]);
          assert At(b.children[k], names[1..]).None?;
        }
      } else if k in a.children {
        BlockedHere(a.children[k], names[1..]);
      }
    }
  }

  lemma {:induction false} BlockedHere(t: Tree, names: seq<string>)
    ensures Blocked(t, names) ==> At(t, names).None?
    decreases |names|
  {
    if names != [] && t.Node? && Str(names[0]) in t.children {
      BlockedHere(t.children[Str(names[0])], names[1..]);
    }
  }

  function NamePath(names: seq<string>): Path
  {
    seq(|names|, i requires 0 <= i < |names| => Name(names[i]))
  }

  /** The tree is what Get sees along names. */
  lemma {:induction false} AtIsLookup(v: Value, names: seq<string>)
    ensures match Lookup(v, NamePath(names))
            case None => At(Meaning(v), names).None?
            case Some(x) => At(Meaning(v), names) == Some(Meaning(x))
    decreases |names|
  {
    if names != [] {
      var k := names[0];
      assert NamePath(names)[0] == Name(k) && NamePath(names)[1..] == NamePath(names[1..]);
      match v
      case GoMap(m) =>
        EntryAt(m, Str(k));
        if k in m { AtIsLookup(m[k], names[1..]); }
      case MapSlice(slice) =>
        ChildAt(slice, Str(k));
        if FindKey(slice, Str(k)).Some? {
          AtIsLookup(slice[FindKey(slice, Str(k)).value].value, names[1..]);
        }
      case _ =>
    }
  }

  // ----- map slices and their children -----

  lemma EntryAt(m: map<string, Value>, k: MapKey)
    ensures var e := Meaning(GoMap(m)).children;
            (k in e <==> k.Str? && k.s in m) && (k in e ==> e[k] == Meaning(m[k.s]))
  {
  }

  lemma {:induction false} ChildAt(slice: seq<Item>, k: MapKey)
    ensures k in Children(slice) <==> FindKey(slice, k).Some?
    ensures k in Children(slice) ==> Children(slice)[k] == Meaning(slice[FindKey(slice, k).value].value)
    decreases |slice|
  {
    if slice == [] {
    } else {
      var n := |slice| - 1;
      ChildAt(slice[..n], k);
      match FindKey(slice[..n], k)
      case Some(i) => FirstMatch(slice, k, i);
      case None => if slice[n].key == k { FirstMatch(slice, k, n); } else { NoMatch(slice, k); }
    }
  }

  lemma ChildrenAfterSet(slice: seq<Item>, k: MapKey, v: Value)
    ensures Children(SetKey(slice, k, v)) == Children(slice)[k := Meaning(v)]
  {
    var w := SetKey(slice, k, v);
    forall x ensures x in Children(w) <==> x in Children(slice)[k := Meaning(v)]
             ensures x in Children(w) ==> Children(w)[x] == Children(slice)[k := Meaning(v)][x] {
      ChildAt(w, x);
      ChildAt(slice, x);
      FindAfterSet(slice, k, v, x);
    }
  }

  lemma SetKeepsWellKeyed(slice: seq<Item>, k: MapKey, v: Value)
    requires WellKeyed(MapSlice(slice)) && WellKeyed(v)
    ensures WellKeyed(MapSlice(SetKey(slice, k, v)))
  {
    var w := SetKey(slice, k, v);
    forall it | it in w ensures WellKeyed(it.value) {
      if it !in slice { assert it == Item(k, v); }
    }
  }

  lemma SameEntries(slice: seq<Item>, m: map<string, Value>)
    requires ListsEntries(slice, m)
    ensures Meaning(MapSlice(slice)) == Meaning(GoMap(m))
    ensures WellKeyed(GoMap(m)) ==> WellKeyed(MapSlice(slice))
  {
    var e := Meaning(GoMap(m)).children;
    forall k ensures k in Children(slice) <==> k in e
             ensures k in e ==> Children(slice)[k] == e[k] {
      EntryAt(m, k);
      ListedAt(slice, m, k);
    }
    assert Children(slice) == e;
  }

  lemma ListedAt(slice: seq<Item>, m: map<string, Value>, k: MapKey)
    requires ListsEntries(slice, m)
    ensures k in Children(slice) <==> k.Str? && k.s in m
    ensures k in Children(slice) ==> Children(slice)[k] == Meaning(m[k.s])
  {
    ChildAt(slice, k);
    if k.Str? && k.s in m {
      assert Item(Str(k.s), m[k.s]) in slice;
      var i :| 0 <= i < |slice| && slice[i] == Item(k, m[k.s]);
      FirstMatch(slice, k, i);
    } else {
      forall j | 0 <= j < |slice| ensures slice[j].key != k { assert slice[j] in slice; }
      NoMatch(slice, k);
    }
  }

  /** unifyMapType: either kind of map as a map slice. */
  method UnifyMapType(v: Value) returns (r: Option<seq<Item>>)
    ensures r.Some? <==> IsMap(v)
    ensures r.Some? ==> Meaning(MapSlice(r.value)) == Meaning(v)
    ensures r.Some? && WellKeyed(v) ==> WellKeyed(MapSlice(r.value))
    ensures v.MapSlice? ==> r == Some(v.slice)
  {
    match v
    case GoMap(m) =>
      var slice := MakeMapSlice(m);
      SameEntries(slice, m);
      return Some(slice);
    case MapSlice(slice) => return Some(slice);
    case _ => return None;
  }

  /** mapSliceGet */
  method MapSliceGet(slice: seq<Item>, key: MapKey) returns (r: Option<Value>)
    ensures r.Some? <==> FindKey(slice, key).Some?
    ensures r.Some? ==> r.value == slice[FindKey(slice, key).value].value
  {
    for i := 0 to |slice|
      invariant forall j | 0 <= j < i :: slice[j].key != key
    {
      if slice[i].key == key {
        FirstMatch(slice, key, i);
        return Some(slice[i].value);
      }
    }
    return None;
  }

  lemma {:induction false} ChildrenSnoc(slice: seq<Item>, i: nat)
    requires i < |slice| && UniqueKeys(slice)
    ensures slice[i].key !in Children(slice[..i])
    ensures Children(slice[..i + 1]) == Children(slice[..i])[slice[i].key := Meaning(slice[i].value)]
    ensures slice[i].key in Children(slice) && Children(slice)[slice[i].key] == Meaning(slice[i].value)
  {
    var k := slice[i].key;
    ChildAt(slice[..i], k);
    assert FindKey(slice[..i], k).None?;
    assert slice[..i + 1][..i] == slice[..i];
    ChildAt(slice, k);
    FirstMatch(slice, k, i);
  }

  /** The step of the merge for one new item. */
  lemma MergeStep(a: map<MapKey, Tree>, b: map<MapKey, Tree>, k: MapKey, t: Tree)
    requires k !in b
    ensures Merge(Node(a), Node(b[k := t])).children
            == Merge(Node(a), Node(b)).children[k := if k in a then Merge(a[k], t) else t]
    ensures k in Merge(Node(a), Node(b)).children <==> k in a
    ensures k in a ==> Merge(Node(a), Node(b)).children[k] == a[k]
  {
  }

  /** The first `n` items of `more` have been merged into `source`, giving `r`. */
  ghost predicate Filled(source: seq<Item>, more: seq<Item>, n: nat, r: seq<Item>)
    requires n <= |more|
  {
    && Children(r) == Merge(Node(Children(source)), Node(Children(more[..n]))).children
    && |source| <= |r| && (forall i | 0 <= i < |source| :: r[i].key == source[i].key)
    && (WellKeyed(MapSlice(source)) ==> WellKeyed(MapSlice(r)))
  }

  /** `value` is what merging `item` puts under its key; None leaves the slice alone. */
  ghost predicate ItemFilled(r: seq<Item>, item: Item, value: Option<Value>)
  {
    && (value.Some? && WellKeyed(MapSlice(r)) ==> WellKeyed(value.value))
    && var k, t := item.key, Meaning(item.value);
       if k in Children(r)
       then Merge(Children(r)[k], t) == if value.Some? then Meaning(value.value) else Children(r)[k]
       else value == Some(item.value)
  }

  lemma FillStep(source: seq<Item>, more: seq<Item>, n: nat, r: seq<Item>, value: Option<Value>)
    requires n < |more| && UniqueKeys(more) && Filled(source, more, n, r) && ItemFilled(r, more[n], value)
    ensures Filled(source, more, n + 1, if value.Some? then SetKey(r, more[n].key, value.value) else r)
  {
    FillStepMeaning(source, more, n, r, value);
    if value.Some? {
      SetKeepsPlaces(source, r, more[n].key, value.value);
      if WellKeyed(MapSlice(r)) { SetKeepsWellKeyed(r, more[n].key, value.value); }
    }
  }

  lemma SetKeepsPlaces(source: seq<Item>, r: seq<Item>, k: MapKey, v: Value)
    requires |source| <= |r| && forall i | 0 <= i < |source| :: r[i].key == source[i].key
    ensures |source| <= |SetKey(r, k, v)| && forall i | 0 <= i < |source| :: SetKey(r, k, v)[i].key == source[i].key
  {
  }

  lemma FillStepMeaning(source: seq<Item>, more: seq<Item>, n: nat, r: seq<Item>, value: Option<Value>)
    requires n < |more| && UniqueKeys(more) && ItemFilled(r, more[n], value)
    requires Children(r) == Merge(Node(Children(source)), Node(Children(more[..n]))).children
    ensures Children(if value.Some? then SetKey(r, more[n].key, value.value) else r)
         == Merge(Node(Children(source)), Node(Children(more[..n + 1]))).children
  {
    var k, t := more[n].key, Meaning(more[n].value);
    var a, b := Children(source), Children(more[..n]);
    assert k !in b && Children(more[..n + 1]) == b[k := t] by { ChildrenSnoc(more, n); }
    MergeStep(a, b, k, t);
    if value.Some? {
      ChildrenAfterSet(r, k, value.value);
    } else {
      assert Children(r)[k := Children(r)[k]] == Children(r);
    }
  }

  lemma FillStart(source: seq<Item>, more: seq<Item>)
    ensures Filled(source, more, 0, source)
  {
    assert more[..0] == [];
    assert Merge(Node(Children(source)), Node(Children([]))).children == Children(source);
  }

  /** fillMap: merges `more` into `source`; the keys of `source` keep their places. */
  method FillMap(source: seq<Item>, more: seq<Item>) returns (r: seq<Item>)
    requires WellKeyed(MapSlice(more))
    ensures Meaning(MapSlice(r)) == Merge(Meaning(MapSlice(source)), Meaning(MapSlice(more)))
    ensures |source| <= |r| && forall i | 0 <= i < |source| :: r[i].key == source[i].key
    ensures WellKeyed(MapSlice(source)) ==> WellKeyed(MapSlice(r))
    decreases Meaning(MapSlice(more))
  {
    r := source;
    FillStart(source, more);
    for n := 0 to |more|
      invariant Filled(source, more, n, r)
    {
      ChildrenSnoc(more, n);
      assert more[n] in more;
      var value := FillItem(r, more[n], Meaning(MapSlice(more)));
      FillStep(source, more, n, r, value);
      if value.Some? {
        r := Document.SetValueInMapSlice(r, more[n].key, value.value);
      }
    }
    assert more[..|more|] == more;
  }

  /** What one new item changes in the slice: nothing when a value that is not a map is in its place. */
  method FillItem(r: seq<Item>, item: Item, ghost bound: Tree) returns (value: Option<Value>)
    requires WellKeyed(item.value)
    requires bound.Node? && item.key in bound.children && bound.children[item.key] == Meaning(item.value)
    ensures ItemFilled(r, item, value)
    decreases bound, 0
  {
    ChildAt(r, item.key);
    var existing := MapSliceGet(r, item.key);
    if existing.None? {
      return Some(item.value);
    }
    ghost var at := FindKey(r, item.key).value;
    assert r[at] in r;
    var sub := UnifyMapType(existing.value);
    if sub.None? {
      return None;
    }
    var newSub := UnifyMapType(item.value);
    if newSub.None? {
      return None;
    }
    var filled := FillMap(sub.value, newSub.value);
    return Some(MapSlice(filled));
  }

  /** What Fill puts where it found a value or none: the new value, the merge of two maps, or what was there. */
  ghost predicate FillValue(found: Option<Value>, x: Value, y: Value)
  {
    match found
    case None => y == x
    case Some(node) =>
      && (if IsMap(node) && IsMap(x) then y.MapSlice? && Meaning(y) == Merge(Meaning(node), Meaning(x)) else y == node)
      && (WellKeyed(node) ==> WellKeyed(y))
  }

  /** What one Fill of `x` at an unshadowed `path` makes of the document `v`. */
  ghost predicate FilledAt(v: Value, path: Path, x: Value, w: Value, ok: bool)
  {
    match Lookup(v, path)
    case None => (w, ok) == PutOutcome(v, path, x)
    case Some(node) =>
      && ok && Lookup(w, path).Some? && Put(v, path, Lookup(w, path).value) == Some(w)
      && (if IsMap(node) && IsMap(x)
          then Meaning(Lookup(w, path).value) == Merge(Meaning(node), Meaning(x))
          else w == v)
      && (WellKeyed(node) ==> WellKeyed(Lookup(w, path).value))
  }

  /**
   On an unshadowed path Fill sets a missing path like Set. At an existing path it merges maps, leaving every
   other value in the document alone; when either side is not a map, the document stays as it is.
   */
  method Fill(doc: Document, path: Path, x: Value) returns (ok: bool)
    requires NonNegative(path) && WellKeyed(x)
    modifies doc
    ensures Unshadowed(MapSlice(old(doc.root)), path) ==>
              FilledAt(MapSlice(old(doc.root)), path, x, MapSlice(doc.root), ok)
  {
    ghost var v := MapSlice(doc.root);
    ghost var exact := Unshadowed(v, path);
    if exact { UnshadowedParent(v, path); }
    var found := doc.Get(path);
    if found.None? {
      if exact { FillIsLocal(v, path, x, x); }
      ok := doc.Set(path, x);
      return;
    }
    var node := found.value;
    var source := UnifyMapType(node);
    if source.Some? {
      var more := UnifyMapType(x);
      if more.Some? {
        var filled := FillMap(source.value, more.value);
        node := MapSlice(filled);
      }
    }
    if exact { FillIsLocal(v, path, x, node); }
    ok := doc.SetInternal(path, node);
  }

  lemma FillIsLocal(v: Value, path: Path, x: Value, y: Value)
    requires Unshadowed(v, path) && NonNegative(path) && FillValue(LooseLookup(v, path), x, y)
    ensures FilledAt(v, path, x, PutOutcome(v, path, y).0, PutOutcome(v, path, y).1)
  {
    UnshadowedIsExact(v, path);
    if Lookup(v, path).Some? {
      SettableParent(v, path, y);
      PutGet(v, path, y);
      GetPut(v, path);
    }
  }

  lemma FilledUnshadowed(v: Value, path: Path, x: Value, w: Value, ok: bool)
    requires Unshadowed(v, path) && FilledAt(v, path, x, w, ok)
    ensures Unshadowed(w, path)
  {
    if Lookup(v, path).Some? {
      PutUnshadowed(v, path, Lookup(w, path).value);
    } else if ok {
      PutUnshadowed(v, path, x);
    }
  }

  /** Filling with the same value again finds nothing more to do, whether the path was there at first or not. */
  lemma FilledTwice(v: Value, path: Path, x: Value, once: Value, twice: Value, ok: bool, again: bool)
    requires FilledAt(v, path, x, once, ok) && FilledAt(once, path, x, twice, again)
    ensures again == ok
    ensures !ok ==> once == v && twice == v
    ensures ok ==>
              && Lookup(once, path).Some? && Lookup(twice, path).Some?
              && Put(once, path, Lookup(twice, path).value) == Some(twice)
              && Meaning(Lookup(twice, path).value) == Meaning(Lookup(once, path).value)
  {
    if Lookup(v, path).None? {
      if ok {
        PutGet(v, path, x);
        MergeSelf(Meaning(x));
      }
    } else {
      SameOnceMore(Lookup(v, path).value, x, Lookup(once, path).value, once == v);
    }
  }

  /** What was filled before merges to itself. */
  lemma SameOnceMore(node: Value, x: Value, filled: Value, kept: bool)
    requires if IsMap(node) && IsMap(x) then Meaning(filled) == Merge(Meaning(node), Meaning(x)) else kept
    requires kept ==> filled == node
    ensures IsMap(filled) && IsMap(x) ==> Merge(Meaning(filled), Meaning(x)) == Meaning(filled)
  {
    MergeIdempotent(Meaning(node), Meaning(x));
  }

  /**
   Filling twice is filling once, up to the order of keys: the second Fill succeeds exactly when the first
   did, and then it changes nothing but, possibly, the order of keys below the path.
   */
  method FillTwice(doc: Document, path: Path, x: Value) returns (ok: bool, again: bool, ghost once: Value)
    requires NonNegative(path) && WellKeyed(x)
    modifies doc
    ensures Unshadowed(MapSlice(old(doc.root)), path) ==>
              var v, twice := MapSlice(old(doc.root)), MapSlice(doc.root);
              && FilledAt(v, path, x, once, ok) && again == ok
              && (!ok ==> once == v && twice == v)
              && (ok ==>
                    && Lookup(once, path).Some? && Lookup(twice, path).Some?
                    && Put(once, path, Lookup(twice, path).value) == Some(twice)
                    && Meaning(Lookup(twice, path).value) == Meaning(Lookup(once, path).value))
  {
    ghost var v := MapSlice(doc.root);
    ok := Fill(doc, path, x);
    once := MapSlice(doc.root);
    if Unshadowed(v, path) { FilledUnshadowed(v, path, x, once, ok); }
    again := Fill(doc, path, x);
    if Unshadowed(v, path) {
      FilledTwice(v, path, x, once, MapSlice(doc.root), ok, again);
    }
  }

  /**
   The same for Get: a value that is not a map reads as before, and a name path that led nowhere and
   is not hidden by such a value reads what the new value has there.
   */
  lemma FillSeen(node: Value, x: Value, filled: Value, names: seq<string>)
    requires IsMap(node) && IsMap(x)
    requires Meaning(filled) == Merge(Meaning(node), Meaning(x))
    ensures var p := NamePath(names);
            match Lookup(node, p)
            case Some(y) => Lookup(filled, p).Some? && (!IsMap(y) ==> Lookup(filled, p) == Some(y))
            case None =>
              if Blocked(Meaning(node), names) || Lookup(x, p).None? then Lookup(filled, p).None?
              else Lookup(filled, p).Some? && Meaning(Lookup(filled, p).value) == Meaning(Lookup(x, p).value)
  {
    var p, a, b, m := NamePath(names), Meaning(node), Meaning(x), Meaning(filled);
    AtIsLookup(node, names);
    AtIsLookup(x, names);
    AtIsLookup(filled, names);
    var ta, tb, tm := At(a, names), At(b, names), At(m, names);
    assert ta.Some? ==> tm.Some? && (ta.value.Leaf? ==> tm == ta) by { MergeSeen(a, b, names); }
    assert ta.None? ==> tm == if Blocked(a, names) then None else tb by { MergeSeen(a, b, names); }
    match Lookup(node, p)
    case None =>
    case Some(y) => if !IsMap(y) { LeafMeaning(Lookup(filled, p).value, y); }
  }

  lemma LeafMeaning(v: Value, y: Value)
    requires Meaning(v) == Meaning(y) && !IsMap(y)
    ensures v == y
  {
  }
}
