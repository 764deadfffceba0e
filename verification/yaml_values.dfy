/**
 YAML values as pkg/yamled handles them, the steps and paths that address parts of them, and a
 structural `Put`: the simple meaning of Document.Set, with its lens laws.
 */
module YamlValues {
  import opened Strings

  /** A key of a yaml.MapSlice; YAML allows keys that are not strings. */
  datatype MapKey = Str(s: string) | NonStr(n: int)

  datatype Item = Item(key: MapKey, value: Value)

  /** nil, a scalar, []any, map[string]any, or yaml.MapSlice. */
  datatype Value =
    | Null
    | Scalar(text: string)
    | Array(items: seq<Value>)
    | GoMap(entries: map<string, Value>)
    | MapSlice(slice: seq<Item>)

  /** A step is a string, an int, or something else, which addresses nothing. */
  datatype Step = Name(name: string) | Index(index: int) | Other

  type Path = seq<Step>

  predicate NonNegative(path: Path)
  {
    forall s | s in path && s.Index? :: s.index >= 0
  }

  // ----- map slices -----

  /** The first item with exactly this key. */
  function FindKey(slice: seq<Item>, key: MapKey): (r: Option<nat>)
    ensures r.Some? ==> r.value < |slice| && slice[r.value].key == key
    ensures r.Some? ==> forall j | 0 <= j < r.value :: slice[j].key != key
    ensures r.None? ==> forall j | 0 <= j < |slice| :: slice[j].key != key
  {
    if slice == [] then None
    else if slice[0].key == key then Some(0)
    else
      match FindKey(slice[1..], key)
      case None => None
      case Some(i) => Some(i + 1)
  }

  /** setValueInMapSlice: overwrite the first item with this key, or append one. */
  function SetKey(slice: seq<Item>, key: MapKey, v: Value): seq<Item>
  {
    match FindKey(slice, key)
    case Some(i) => slice[i := Item(key, v)]
    case None => slice + [Item(key, v)]
  }

  lemma FirstMatch(slice: seq<Item>, key: MapKey, i: nat)
    requires i < |slice| && slice[i].key == key && forall j | 0 <= j < i :: slice[j].key != key
    ensures FindKey(slice, key) == Some(i)
  {
  }

  lemma NoMatch(slice: seq<Item>, key: MapKey)
    requires forall j | 0 <= j < |slice| :: slice[j].key != key
    ensures FindKey(slice, key) == None
  {
  }

  lemma FindAfterSet(slice: seq<Item>, key: MapKey, v: Value, k: MapKey)
    ensures var w := SetKey(slice, key, v);
            FindKey(w, k) == if k == key && FindKey(slice, key).None? then Some(|slice|) else FindKey(slice, k)
    ensures FindKey(SetKey(slice, key, v), key).Some?
    ensures SetKey(slice, key, v)[FindKey(SetKey(slice, key, v), key).value].value == v
  {
    var w := SetKey(slice, key, v);
    match FindKey(slice, k) {
      case Some(i) => FirstMatch(w, k, i);
      case None => if k == key { FirstMatch(w, k, |slice|); } else { NoMatch(w, k); }
    }
    match FindKey(slice, key) {
      case Some(i) => FirstMatch(w, key, i);
      case None => FirstMatch(w, key, |slice|);
    }
  }

  // ----- one step -----

  function Child(v: Value, s: Step): Option<Value>
  {
    match (v, s)
    case (GoMap(m), Name(k)) => if k in m then Some(m[k]) else None
    case (MapSlice(slice), Name(k)) =>
      (match FindKey(slice, Str(k))
       case None => None
       case Some(i) => Some(slice[i].value))
    case (Array(a), Index(i)) => if 0 <= i < |a| then Some(a[i]) else None
    case _ => None
  }

  function Pad(a: seq<Value>, n: int): (r: seq<Value>)
    ensures |r| == if n <= |a| then |a| else n
    ensures r[..|a|] == a
    ensures forall i | |a| <= i < |r| :: r[i] == Null
    decreases n - |a|
  {
    if n <= |a| then a else Pad(a + [Null], n)
  }

  /** Replacing or adding one child; an array grows with nulls up to the index. */
  function PutChild(v: Value, s: Step, c: Value): Option<Value>
  {
    match (v, s)
    case (GoMap(m), Name(k)) => Some(GoMap(m[k := c]))
    case (MapSlice(slice), Name(k)) => Some(MapSlice(SetKey(slice, Str(k), c)))
    case (Array(a), Index(i)) => if i < 0 then None else Some(Array(Pad(a, i + 1)[i := c]))
    case _ => None
  }

  lemma PutChildLaws(v: Value, s: Step, c: Value, d: Value)
    requires PutChild(v, s, c).Some?
    ensures var w := PutChild(v, s, c).value;
            Child(w, s) == Some(c) && PutChild(w, s, d) == PutChild(v, s, d)
    ensures PutChild(v, s, d).Some?
    ensures Child(v, s) == Some(c) ==> PutChild(v, s, c) == Some(v)
  {
    match v
    case GoMap(m) =>
      assert m[s.name := c][s.name := d] == m[s.name := d];
      if Child(v, s) == Some(c) { assert m[s.name := c] == m; }
    case MapSlice(slice) =>
      FindAfterSet(slice, Str(s.name), c, Str(s.name));
      assert SetKey(SetKey(slice, Str(s.name), c), Str(s.name), d) == SetKey(slice, Str(s.name), d);
      if Child(v, s) == Some(c) {
        var i := FindKey(slice, Str(s.name)).value;
        assert slice[i] == Item(Str(s.name), c);
        assert SetKey(slice, Str(s.name), c) == slice;
      }
    case Array(a) =>
      var i := s.index;
      var w := Pad(a, i + 1)[i := c];
      assert Pad(w, i + 1)[i := d] == Pad(a, i + 1)[i := d];
      if Child(v, s) == Some(c) { assert Pad(a, i + 1) == a && a[i := c] == a; }
    case _ =>
  }

  lemma PutChildOthers(v: Value, s: Step, c: Value, t: Step)
    requires PutChild(v, s, c).Some? && s != t && Child(v, t).Some?
    ensures Child(PutChild(v, s, c).value, t) == Child(v, t)
  {
    match v
    case MapSlice(slice) => FindAfterSet(slice, Str(s.name), c, Str(t.name));
    case Array(a) => assert Pad(a, s.index + 1)[..|a|] == a;
    case _ =>
  }

  // ----- paths -----

  function Lookup(v: Value, path: Path): Option<Value>
  {
    if path == [] then Some(v)
    else
      match Child(v, path[0])
      case None => None
      case Some(c) => Lookup(c, path[1..])
  }

  /** What a missing parent is created as, given the path that continues below it. */
  function Seed(path: Path): Value
  {
    if path == [] then Null
    else match path[0] case Name(_) => GoMap(map[]) case Index(_) => Array([]) case Other => Null
  }

  function Below(v: Value, path: Path): Value
    requires path != []
  {
    match Child(v, path[0]) case Some(c) => c case None => Seed(path[1..])
  }

  /** Structural update: descend, creating what is missing; fails where the step does not fit the value. */
  function Put(v: Value, path: Path, x: Value): Option<Value>
    decreases |path|
  {
    if path == [] then Some(x)
    else
      match Put(Below(v, path), path[1..], x)
      case None => None
      case Some(c) => PutChild(v, path[0], c)
  }

  /** The step addresses a child of this kind of value: a name in a map, an index in an array. */
  predicate Fits(v: Value, s: Step)
  {
    match s
    case Name(_) => v.GoMap? || v.MapSlice?
    case Index(i) => v.Array? && i >= 0
    case Other => false
  }

  /**
   Every step fits what is there before it; where nothing is there any more, containers are made, and any
   name or index from zero on will do.
   */
  ghost predicate Settable(v: Value, path: Path)
  {
    forall n | 0 <= n < |path| ::
      match Lookup(v, path[..n])
      case Some(t) => Fits(t, path[n])
      case None => path[n].Name? || (path[n].Index? && path[n].index >= 0)
  }

  lemma FitsExactly(v: Value, s: Step, c: Value)
    ensures PutChild(v, s, c).Some? <==> Fits(v, s)
  {
  }

  /** Exactly when a path can be set. */
  lemma {:induction false} PutExactly(v: Value, path: Path, x: Value)
    ensures Put(v, path, x).Some? <==> Settable(v, path)
    decreases |path|
  {
    if path != [] {
      var below := Put(Below(v, path), path[1..], x);
      PutExactly(Below(v, path), path[1..], x);
      if below.Some? { FitsExactly(v, path[0], below.value); }
      SettableStep(v, path);
    }
  }

  lemma SettableStep(v: Value, path: Path)
    requires path != []
    ensures Settable(v, path) <==> Fits(v, path[0]) && Settable(Below(v, path), path[1..])
  {
    var rest, below := path[1..], Below(v, path);
    assert path[..0] == [] && Lookup(v, path[..0]) == Some(v);
    forall n | 0 <= n < |rest|
      ensures match Lookup(v, path[..n + 1])
              case Some(t) => Lookup(below, rest[..n]) == Some(t)
              case None =>
                Lookup(below, rest[..n]).None? || (n == 0 && Lookup(below, rest[..n]) == Some(Seed(rest)))
    {
      assert path[..n + 1][0] == path[0] && path[..n + 1][1..] == rest[..n];
      if Child(v, path[0]).None? && n > 0 {
        assert rest[..n][0] == rest[0] && Child(Seed(rest), rest[0]).None?;
      }
    }
    if Settable(v, path) {
      forall n | 0 <= n < |rest|
        ensures match Lookup(below, rest[..n])
                case Some(t) => Fits(t, rest[n])
                case None => rest[n].Name? || (rest[n].Index? && rest[n].index >= 0)
      {
        assert path[n + 1] == rest[n];
      }
    }
    if Fits(v, path[0]) && Settable(below, rest) {
      forall n | 0 <= n < |path|
        ensures match Lookup(v, path[..n])
                case Some(t) => Fits(t, path[n])
                case None => path[n].Name? || (path[n].Index? && path[n].index >= 0)
      {
        if n > 0 { assert path[n] == rest[n - 1] && path[..n] == path[..n - 1 + 1]; }
      }
    }
  }

  lemma {:induction false} PutGet(v: Value, path: Path, x: Value)
    requires Put(v, path, x).Some?
    ensures Lookup(Put(v, path, x).value, path) == Some(x)
    decreases |path|
  {
    if path != [] {
      var c := Put(Below(v, path), path[1..], x).value;
      PutGet(Below(v, path), path[1..], x);
      PutChildLaws(v, path[0], c, c);
    }
  }

  /** The container holds the child under the step and nothing else but the nulls before an index. */
  ghost predicate HoldsOnly(t: Value, s: Step, c: Value)
  {
    match s
    case Name(k) => t == GoMap(map[k := c])
    case Index(i) =>
      && t.Array? && i >= 0 && |t.items| == i + 1 && t.items[i] == c && forall j | 0 <= j < i :: t.items[j] == Null
    case Other => false
  }

  lemma SeedHoldsOnly(rest: Path, x: Value)
    requires rest != [] && Put(Seed(rest), rest, x).Some?
    ensures var c := Put(Seed(rest), rest, x).value;
            Lookup(c, [rest[0]]).Some? && HoldsOnly(c, rest[0], Lookup(c, [rest[0]]).value)
  {
    var inner := Put(Below(Seed(rest), rest), rest[1..], x).value;
    PutChildLaws(Seed(rest), rest[0], inner, inner);
    assert [rest[0]][1..] == [];
  }

  /** What is made on the way: where nothing was, a Go map or an array that holds only what the path needs. */
  lemma {:induction false} MadeOnTheWay(v: Value, path: Path, x: Value, n: nat)
    requires Put(v, path, x).Some? && n < |path| && Lookup(v, path[..n]).None?
    ensures var w := Put(v, path, x).value;
            && Lookup(w, path[..n]).Some? && Lookup(w, path[..n + 1]).Some?
            && HoldsOnly(Lookup(w, path[..n]).value, path[n], Lookup(w, path[..n + 1]).value)
    decreases |path|
  {
    assert n > 0 by { assert path[..0] == []; }
    var rest := path[1..];
    var b := Below(v, path);
    var c := Put(b, rest, x).value;
    PutChildLaws(v, path[0], c, c);
    assert path[..n][0] == path[0] && path[..n][1..] == rest[..n - 1];
    assert path[..n + 1][0] == path[0] && path[..n + 1][1..] == rest[..n];
    if Child(v, path[0]).None? && n == 1 {
      SeedHoldsOnly(rest, x);
      assert path[..n][1..] == [] && path[..n + 1][1..] == [rest[0]];
    } else {
      if n > 1 { assert rest[..n - 1][0] == rest[0]; }
      MadeOnTheWay(b, rest, x, n - 1);
    }
  }

  lemma {:induction false} GetPut(v: Value, path: Path)
    requires Lookup(v, path).Some? && NonNegative(path)
    ensures Put(v, path, Lookup(v, path).value) == Some(v)
  {
    if path != [] {
      var c := Child(v, path[0]).value;
      assert path[0] in path;
      GetPut(c, path[1..]);
      PutChildLaws(v, path[0], c, c);
    }
  }

  /** Whether a path can be set does not depend on the value, and a later Set overwrites an earlier one. */
  lemma {:induction false} PutPut(v: Value, path: Path, x: Value, y: Value)
    requires Put(v, path, x).Some?
    ensures Put(v, path, y).Some?
    ensures Put(Put(v, path, x).value, path, y) == Put(v, path, y)
    decreases |path|
  {
    if path != [] {
      var b := Below(v, path);
      var c := Put(b, path[1..], x).value;
      PutPut(b, path[1..], x, y);
      PutChildLaws(v, path[0], c, Put(b, path[1..], y).value);
    }
  }

  lemma {:induction false} PutAnyValue(v: Value, path: Path, x: Value, y: Value)
    ensures Put(v, path, x).Some? <==> Put(v, path, y).Some?
  {
    if Put(v, path, x).Some? { PutPut(v, path, x, y); }
    if Put(v, path, y).Some? { PutPut(v, path, y, x); }
  }

  /** The paths part ways at some step. */
  predicate Diverge(p: Path, q: Path)
  {
    p != [] && q != [] && (p[0] != q[0] || Diverge(p[1..], q[1..]))
  }

  /** Setting one path leaves every value on a diverging path as it was. */
  lemma {:induction false} PutElsewhere(v: Value, p: Path, x: Value, q: Path)
    requires Put(v, p, x).Some? && Diverge(p, q) && Lookup(v, q).Some?
    ensures Lookup(Put(v, p, x).value, q) == Lookup(v, q)
    decreases |p|
  {
    var c := Put(Below(v, p), p[1..], x).value;
    if p[0] != q[0] {
      PutChildOthers(v, p[0], c, q[0]);
    } else {
      PutElsewhere(Below(v, p), p[1..], x, q[1..]);
      PutChildLaws(v, p[0], c, c);
    }
  }

  /** Setting `path + [s]` seen from its parent: change the parent (or its seed), then set the parent. */
  function PutViaParent(v: Value, path: Path, s: Step, x: Value): Option<Value>
  {
    var parent := match Lookup(v, path) case Some(t) => t case None => Seed([s]);
    match PutChild(parent, s, x)
    case None => None
    case Some(t) => Put(v, path, t)
  }

  /** The parent-first view that Document.Set takes agrees with the structural one. */
  lemma {:induction false} PutSnoc(v: Value, path: Path, s: Step, x: Value)
    ensures Put(v, path + [s], x) == PutViaParent(v, path, s, x)
    decreases |path|
  {
    var full := path + [s];
    if path == [] {
      assert full == [s] && full[1..] == [];
      assert Put(Below(v, full), full[1..], x) == Some(x);
    } else {
      assert full[0] == path[0] && full[1..] == path[1..] + [s];
      var b := Below(v, full);
      PutSnoc(b, path[1..], s, x);
      if Child(v, path[0]).None? {
        if path[1..] == [] {
          assert path[1..] + [s] == [s] && b == Seed([s]);
          assert Put(b, full[1..], x) == PutChild(b, s, x);
          if t :| PutChild(b, s, x) == Some(t) {
            assert Put(Below(v, path), path[1..], t) == Some(t);
          }
        } else {
          assert b == Seed(path[1..]) && Child(b, path[1..][0]).None?;
        }
      }
    }
  }
}
