/**
 The text of the inventory ConfigMap (pkg/nativeclient/inventory.go): the sorted, newline-separated
 GroupKinds of the applied objects. The main result is the exact condition under which a written
 set of kinds is read back unchanged.
 */
module Inventory {
  import opened Sequences
  import opened Strings

  datatype GroupKind = GroupKind(group: string, kind: string)

  /** schema.GroupKind.String */
  function Show(gk: GroupKind): string
  {
    if gk.group == "" then gk.kind else gk.kind + "." + gk.group
  }

  /** schema.ParseGroupKind */
  function Parse(s: string): (gk: GroupKind)
    ensures '.' !in gk.kind
  {
    match Cut(s, '.')
    case None => GroupKind("", s)
    case Some((kind, group)) => GroupKind(group, kind)
  }

  /** What one line of the inventory records: nothing when it is blank. */
  function OfLine(line: string): set<GroupKind>
  {
    if TrimSpace(line) == "" then {} else {Parse(TrimSpace(line))}
  }

  function OfLines(lines: seq<string>): set<GroupKind>
  {
    if lines == [] then {} else OfLine(lines[0]) + OfLines(lines[1..])
  }

  /** The kinds an inventory text stands for. */
  function Recorded(text: string): set<GroupKind>
  {
    OfLines(Lines(text))
  }

  method ReadInventory(text: string) returns (kinds: set<GroupKind>)
    ensures kinds == Recorded(text)
  {
    kinds := {};
    var lines := Lines(text);
    for i := 0 to |lines|
      invariant kinds + OfLines(lines[i..]) == Recorded(text)
    {
      var line := TrimSpace(lines[i]);
      assert lines[i..][1..] == lines[i + 1..];
      if line != "" {
        kinds := kinds + {Parse(line)};
      }
    }
  }

  lemma {:induction false} InOfLines(lines: seq<string>, gk: GroupKind)
    ensures gk in OfLines(lines) <==> exists l :: l in lines && gk in OfLine(l)
  {
    if lines != [] {
      InOfLines(lines[1..], gk);
      assert lines == [lines[0]] + lines[1..];
    }
  }

  ghost predicate ListsKinds(lines: seq<string>, kinds: set<GroupKind>)
  {
    && (forall gk | gk in kinds :: Show(gk) in lines)
    && (forall l | l in lines :: exists gk :: gk in kinds && Show(gk) == l)
  }

  /** `text` is what writing `kinds` stores: each kind's name on one line, sorted, without repeats. */
  ghost predicate IsInventoryText(text: string, kinds: set<GroupKind>)
  {
    exists lines :: Sorted(lines) && Distinct(lines) && ListsKinds(lines, kinds) && text == Join(lines, '\n')
  }

  lemma InsertDistinct(x: string, xs: seq<string>)
    requires Distinct(xs) && x !in xs
    ensures Distinct(Insert(x, xs))
    ensures forall y :: y in Insert(x, xs) <==> y == x || y in xs
  {
    var r := Insert(x, xs);
    assert forall y :: y in r <==> y in multiset(r);
    if xs != [] && !Leq(x, xs[0]) {
      InsertDistinct(x, xs[1..]);
      assert r == [xs[0]] + Insert(x, xs[1..]);
      assert xs[0] !in xs[1..];
    }
  }

  method WriteInventory(kinds: set<GroupKind>) returns (text: string)
    ensures IsInventoryText(text, kinds)
  {
    var lines: seq<string> := [];
    var rest := kinds;
    ghost var done: set<GroupKind> := {};
    while rest != {}
      invariant done + rest == kinds
      invariant Sorted(lines) && Distinct(lines) && ListsKinds(lines, done)
      decreases rest
    {
      var gk :| gk in rest;
      var line := Show(gk);
      if line !in lines {
        InsertSorted(line, lines);
        InsertDistinct(line, lines);
        lines := Insert(line, lines);
      }
      rest := rest - {gk};
      done := done + {gk};
    }
    text := Join(lines, '\n');
  }

  /** The kinds whose name survives a line of the inventory. */
  predicate Clean(gk: GroupKind)
  {
    var s := Show(gk);
    '.' !in gk.kind && s != "" && '\n' !in s && TrimSpace(s) == s
  }

  lemma ParseOfShow(gk: GroupKind)
    requires '.' !in gk.kind
    ensures Parse(Show(gk)) == gk
  {
    if gk.group != "" {
      CutAt(gk.kind, gk.group, '.');
    }
  }

  /** A parsed line shows as itself, unless it ended in the dot that separates an empty group. */
  lemma ShowOfParse(w: string)
    ensures Show(Parse(w)) == w || w == Show(Parse(w)) + "."
  {
  }

  lemma {:induction false} TrimLeftSnoc(s: string, c: char, cut: char -> bool)
    requires cut(c)
    ensures TrimLeft(s + [c], cut) == if TrimLeft(s, cut) == [] then [] else TrimLeft(s, cut) + [c]
  {
    if s == [] {
      assert (s + [c])[1..] == [];
    } else if cut(s[0]) {
      TrimLeftSnoc(s[1..], c, cut);
      assert (s + [c])[1..] == s[1..] + [c];
    }
  }

  lemma TrimNewline(s: string)
    ensures TrimSpace(s + "\n") == TrimSpace(s)
  {
    TrimLeftSnoc(s, '\n', IsSpace);
    var t := TrimLeft(s, IsSpace);
    if t != [] {
      assert (t + ['\n'])[..|t|] == t;
    }
  }

  lemma {:induction false} LinesPrefix(p: string, rest: string)
    requires '\n' !in p
    ensures Lines(p + "\n" + rest) == [p + "\n"] + Lines(rest)
  {
    var s := p + "\n" + rest;
    if p == [] {
      assert s[1..] == rest;
      assert p + "\n" == "\n";
    } else {
      LinesPrefix(p[1..], rest);
      assert s[1..] == p[1..] + "\n" + rest;
      assert [p[0]] + (p[1..] + "\n") == p + "\n";
    }
  }

  lemma {:induction false} LinesNone(p: string)
    requires '\n' !in p
    ensures Lines(p) == if p == [] then [] else [p]
  {
    if p != [] {
      LinesNone(p[1..]);
      assert p[0] in p && p == [p[0]] + p[1..];
      if |p| == 1 {
        assert p == [p[0]];
      } else {
        assert Lines(p) == [[p[0]] + p[1..]] + [p[1..]][1..];
      }
    }
  }

  /** Reading by lines records the trimmed pieces between newlines. */
  lemma {:induction false} RecordedPieces(text: string)
    ensures Recorded(text) == OfLines(Split(text, '\n'))
    decreases |text|
  {
    match Cut(text, '\n')
    case None =>
      LinesNone(text);
      SplitNone(text, '\n');
      if text == [] { assert OfLines([""]) == OfLine("") + OfLines([]); }
    case Some((p, rest)) =>
      RecordedPieces(rest);
      LinesPrefix(p, rest);
      SplitPrefix(p, rest, '\n');
      TrimNewline(p);
      assert text == p + "\n" + rest;
      assert ([p + "\n"] + Lines(rest))[1..] == Lines(rest);
      assert ([p] + Split(rest, '\n'))[1..] == Split(rest, '\n');
  }

  lemma {:induction false} SplitShorter(s: string, sep: char, p: string)
    requires p in Split(s, sep)
    ensures |p| <= |s|
    ensures sep !in s ==> p == s
    decreases |s|
  {
    if sep !in s {
      SplitNone(s, sep);
    } else {
      var Some((a, b)) := Cut(s, sep);
      SplitPrefix(a, b, sep);
      if p != a {
        SplitShorter(b, sep, p);
      }
    }
  }

  lemma {:induction false} SplitConcat(a: string, b: string, sep: char)
    ensures Split(a + [sep] + b, sep) == Split(a, sep) + Split(b, sep)
    decreases |a|
  {
    var s := a + [sep] + b;
    if a == [] {
      assert s[0] == sep && s[1..] == b;
    } else {
      SplitConcat(a[1..], b, sep);
      assert s[0] == a[0] && s[1..] == a[1..] + [sep] + b;
      FirstPiece(a[0], Split(a[1..], sep), Split(b, sep));
    }
  }

  /** Extending the first piece, or opening a new one, does not touch what is appended. */
  lemma FirstPiece(c: char, x: seq<string>, y: seq<string>)
    requires x != []
    ensures [[]] + (x + y) == ([[]] + x) + y
    ensures [[c] + (x + y)[0]] + (x + y)[1..] == ([[c] + x[0]] + x[1..]) + y
  {
    assert (x + y)[0] == x[0] && (x + y)[1..] == x[1..] + y;
  }

  /** Every piece of a joined text comes from one of the joined lines. */
  lemma {:induction false} PieceOfJoin(lines: seq<string>, sep: char, p: string) returns (l: string)
    requires lines != [] && p in Split(Join(lines, sep), sep)
    ensures l in lines && |p| <= |l| && (sep !in l ==> p == l)
  {
    if |lines| == 1 {
      l := lines[0];
      SplitShorter(l, sep, p);
    } else {
      SplitConcat(lines[0], Join(lines[1..], sep), sep);
      if p in Split(lines[0], sep) {
        l := lines[0];
        SplitShorter(l, sep, p);
      } else {
        l := PieceOfJoin(lines[1..], sep, p);
      }
    }
  }

  lemma CleanKindsReadBack(text: string, kinds: set<GroupKind>)
    requires IsInventoryText(text, kinds)
    requires forall gk | gk in kinds :: Clean(gk)
    ensures Recorded(text) == kinds
  {
    var lines :| Sorted(lines) && Distinct(lines) && ListsKinds(lines, kinds) && text == Join(lines, '\n');
    if lines != [] {
      SplitOfJoin(lines, '\n');
      RecordedPieces(text);
    }
    forall gk ensures gk in OfLines(lines) <==> gk in kinds {
      InOfLines(lines, gk);
      if gk in kinds {
        ParseOfShow(gk);
        assert gk in OfLine(Show(gk));
      }
      if l :| l in lines && gk in OfLine(l) {
        var g :| g in kinds && Show(g) == l;
        ParseOfShow(g);
      }
    }
  }

  lemma {:induction false} LongestUnclean(kinds: set<GroupKind>) returns (u: GroupKind)
    requires exists gk :: gk in kinds && !Clean(gk)
    ensures u in kinds && !Clean(u)
    ensures forall gk | gk in kinds && !Clean(gk) :: |Show(gk)| <= |Show(u)|
    decreases kinds
  {
    var x :| x in kinds && !Clean(x);
    var rest := kinds - {x};
    if gk :| gk in rest && !Clean(gk) {
      u := LongestUnclean(rest);
      if |Show(u)| < |Show(x)| { u := x; }
    } else {
      u := x;
    }
  }

  /** An unclean kind is never read back from a text in which it was among the longest unclean ones. */
  lemma UncleanKindLost(text: string, kinds: set<GroupKind>)
    requires IsInventoryText(text, kinds)
    requires exists gk :: gk in kinds && !Clean(gk)
    ensures Recorded(text) != kinds
  {
    var u := LongestUnclean(kinds);
    if u in Recorded(text) {
      var lines :| Sorted(lines) && Distinct(lines) && ListsKinds(lines, kinds) && text == Join(lines, '\n');
      assert Show(u) in lines;
      RecordedPieces(text);
      InOfLines(Split(text, '\n'), u);
      var p :| p in Split(text, '\n') && u in OfLine(p);
      var w := TrimSpace(p);
      TrimKeepsOut(p, IsSpace, '\n');
      TrimKeeps(w, IsSpace);
      ShowOfParse(w);
      assert |Show(u)| < |w|;
      var l := PieceOfJoin(lines, '\n', p);
      var v :| v in kinds && Show(v) == l;
      assert Clean(v);
      ParseOfShow(v);
    }
  }

  /**
   Reading an inventory returns the kinds that were written exactly when each of them is clean: no
   dot in its kind, a name that is not empty, holds no newline and has no white space at its ends.
   */
  lemma InventoryRoundTrip(text: string, kinds: set<GroupKind>)
    requires IsInventoryText(text, kinds)
    ensures Recorded(text) == kinds <==> forall gk | gk in kinds :: Clean(gk)
  {
    if forall gk | gk in kinds :: Clean(gk) {
      CleanKindsReadBack(text, kinds);
    } else {
      UncleanKindLost(text, kinds);
    }
  }

  /** The one failing set that needs no dot and no white space: the empty kind is written as no line. */
  lemma EmptyKindIsLost()
    ensures IsInventoryText("", {GroupKind("", "")}) && Recorded("") == {}
  {
    assert ListsKinds([""], {GroupKind("", "")}) by {
      assert Show(GroupKind("", "")) == "";
    }
    assert Join([""], '\n') == "";
    assert Sorted([""]) && Distinct([""]);
  }
}
