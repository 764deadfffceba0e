/**
 The kubelet flags file (pkg/tasks/common.go, kubeadm_env.go): reading it into a map, changing the
 map and writing it back.
 */
module KubeletFlags {
  import opened Strings

  const KUBELET_KUBEADM_ARGS := "KUBELET_KUBEADM_ARGS"

  function Pair(k: string, sep: char, v: string): string
  {
    k + [sep] + v
  }

  /** The pairs of a map in some fixed order of its keys. */
  ghost function PairList(m: map<string, string>, keys: set<string>, sep: char): seq<string>
    requires keys <= m.Keys
    decreases keys
  {
    if keys == {} then []
    else
      var k :| k in keys;
      [Pair(k, sep, m[k])] + PairList(m, keys - {k}, sep)
  }

  /** What sorting the pairs of a map gives, whatever order Go iterates it in. */
  ghost function SortedPairs(m: map<string, string>, sep: char): seq<string>
  {
    Sort(PairList(m, m.Keys, sep))
  }

  lemma {:induction false} PairListAny(m: map<string, string>, keys: set<string>, sep: char, k: string)
    requires k in keys && keys <= m.Keys
    ensures multiset(PairList(m, keys, sep)) == multiset{Pair(k, sep, m[k])} + multiset(PairList(m, keys - {k}, sep))
    decreases keys
  {
    var x :| x in keys && PairList(m, keys, sep) == [Pair(x, sep, m[x])] + PairList(m, keys - {x}, sep);
    if x != k {
      PairListAny(m, keys - {x}, sep, k);
      PairListAny(m, keys - {k}, sep, x);
      assert keys - {x} - {k} == keys - {k} - {x};
    }
  }

  lemma {:induction false} PairListMembers(m: map<string, string>, keys: set<string>, sep: char, p: string)
    requires keys <= m.Keys
    ensures p in PairList(m, keys, sep) <==> exists k :: k in keys && p == Pair(k, sep, m[k])
    ensures |PairList(m, keys, sep)| == |keys|
    decreases keys
  {
    if keys != {} {
      var x :| x in keys && PairList(m, keys, sep) == [Pair(x, sep, m[x])] + PairList(m, keys - {x}, sep);
      PairListMembers(m, keys - {x}, sep, p);
    }
  }

  lemma SortedPairsMembers(m: map<string, string>, sep: char, p: string)
    ensures p in SortedPairs(m, sep) <==> exists k :: k in m && p == Pair(k, sep, m[k])
    ensures |SortedPairs(m, sep)| == |m|
  {
    PairListMembers(m, m.Keys, sep, p);
    assert p in SortedPairs(m, sep) <==> p in multiset(SortedPairs(m, sep));
    assert p in PairList(m, m.Keys, sep) <==> p in multiset(PairList(m, m.Keys, sep));
  }

  method CollectPairs(m: map<string, string>, sep: char) returns (pairs: seq<string>)
    ensures pairs == SortedPairs(m, sep)
  {
    pairs := [];
    var rest := m.Keys;
    while rest != {}
      invariant rest <= m.Keys
      invariant multiset(pairs) + multiset(PairList(m, rest, sep)) == multiset(PairList(m, m.Keys, sep))
      decreases rest
    {
      var k :| k in rest;
      PairListAny(m, rest, sep, k);
      pairs := pairs + [Pair(k, sep, m[k])];
      rest := rest - {k};
    }
    SortSorted(pairs);
    SortSorted(PairList(m, m.Keys, sep));
    SortedUnique(Sort(pairs), SortedPairs(m, sep));
    pairs := Sort(pairs);
  }

  /** MapStringStringToString */
  ghost function MapText(m: map<string, string>, sep: char): string
  {
    Join(SortedPairs(m, sep), ',')
  }

  method MapStringStringToString(m: map<string, string>, sep: char) returns (text: string)
    ensures text == MapText(m, sep)
  {
    var pairs := CollectPairs(m, sep);
    text := Join(pairs, ',');
  }

  ghost function Body(m: map<string, string>): string
  {
    Join(SortedPairs(m, '='), ' ')
  }

  ghost function Marshal(m: map<string, string>): string
  {
    KUBELET_KUBEADM_ARGS + "=" + ("\"" + Body(m) + "\"")
  }

  method MarshalKubeletFlags(m: map<string, string>) returns (text: string)
    ensures text == Marshal(m)
  {
    var pairs := CollectPairs(m, '=');
    text := KUBELET_KUBEADM_ARGS + "=" + ("\"" + Join(pairs, ' ') + "\"");
  }

  predicate IsNewline(c: char) { c == '\n' }

  predicate IsQuote(c: char) { c == '"' }

  /** The flags of the parts; a flag given twice keeps its last value. */
  function ParseFlags(parts: seq<string>): Option<map<string, string>>
  {
    if parts == [] then Some(map[])
    else
      match (ParseFlags(parts[..|parts| - 1]), Cut(parts[|parts| - 1], '='))
      case (Some(m), Some((k, v))) => Some(m[k := v])
      case _ => None
  }

  function Unmarshal(text: string): Option<map<string, string>>
  {
    match Cut(text, '=')
    case None => None
    case Some((_, value)) => ParseFlags(Split(Trim(Trim(value, IsNewline), IsQuote), ' '))
  }

  method UnmarshalKubeletFlags(text: string) returns (r: Option<map<string, string>>)
    ensures r == Unmarshal(text)
  {
    var cut := Cut(text, '=');
    if cut.None? {
      return None;
    }
    var parts := Split(Trim(Trim(cut.value.1, IsNewline), IsQuote), ' ');
    var flags: map<string, string> := map[];
    for i := 0 to |parts|
      invariant ParseFlags(parts[..i]) == Some(flags)
    {
      assert parts[..i + 1][..i] == parts[..i];
      var kv := Cut(parts[i], '=');
      if kv.None? {
        BadFlag(parts, i);
        return None;
      }
      flags := flags[kv.value.0 := kv.value.1];
    }
    assert parts[..|parts|] == parts;
    return Some(flags);
  }

  lemma {:induction false} BadFlag(parts: seq<string>, i: nat)
    requires i < |parts| && Cut(parts[i], '=').None?
    ensures ParseFlags(parts).None?
    decreases |parts|
  {
    if i < |parts| - 1 {
      BadFlag(parts[..|parts| - 1], i);
    }
  }

  // ----- round trip -----

  /** No flag can be torn apart: keys without '=' and space, values without space. */
  predicate Unbroken(m: map<string, string>)
  {
    forall k | k in m :: '=' !in k && ' ' !in k && ' ' !in m[k]
  }

  /** The text between the quotes neither begins nor ends with a quote of its own. */
  predicate Bare(body: string)
  {
    body == "" || (body[0] != '"' && body[|body| - 1] != '"')
  }

  lemma {:induction false} TrimRightShorter(s: string, cut: char -> bool)
    requires s != "" && cut(s[|s| - 1])
    ensures |TrimRight(s, cut)| < |s|
  {
  }

  /** What reading finds between the quotes: all of the body, or less if the body is not bare. */
  lemma TrimQuotes(body: string)
    ensures var t := Trim(Trim("\"" + body + "\"", IsNewline), IsQuote);
            (Bare(body) ==> t == body) && (!Bare(body) ==> |t| < |body|)
  {
    var quoted := "\"" + body + "\"";
    TrimKeeps(quoted, IsNewline);
    assert quoted[1..] == body + "\"";
    if Bare(body) {
      if body == "" {
        assert TrimLeft(quoted, IsQuote) == TrimLeft("\"", IsQuote) == TrimLeft("", IsQuote);
      } else {
        assert TrimLeft(quoted, IsQuote) == body + "\"";
        assert (body + "\"")[..|body|] == body;
        assert TrimRight(body + "\"", IsQuote) == TrimRight(body, IsQuote);
      }
    } else {
      var left := TrimLeft(body + "\"", IsQuote);
      assert TrimLeft(quoted, IsQuote) == left;
      if body[0] == '"' {
        assert (body + "\"")[1..] == body[1..] + "\"";
        if left != "" { TrimLeftKeepsLast(body + "\"", IsQuote); TrimRightShorter(left, IsQuote); }
      } else {
        assert left == body + "\"";
        assert left[..|body|] == body;
        TrimRightShorter(body, IsQuote);
      }
    }
  }

  lemma {:induction false} TrimLeftKeepsLast(s: string, cut: char -> bool)
    requires TrimLeft(s, cut) != ""
    ensures s != "" && TrimLeft(s, cut)[|TrimLeft(s, cut)| - 1] == s[|s| - 1]
  {
    if s != "" && cut(s[0]) { TrimLeftKeepsLast(s[1..], cut); }
  }

  ghost predicate IsPairOf(p: string, m: map<string, string>)
  {
    exists k :: k in m && p == Pair(k, '=', m[k])
  }

  /** Parts that are all pairs of `m` parse to the part of `m` they name. */
  lemma {:induction false} ParsePairs(parts: seq<string>, m: map<string, string>)
    requires Unbroken(m)
    requires forall p | p in parts :: IsPairOf(p, m)
    ensures ParseFlags(parts).Some?
    ensures var r := ParseFlags(parts).value;
            && (forall k | k in r :: k in m && r[k] == m[k])
            && (forall k | k in m && Pair(k, '=', m[k]) in parts :: k in r)
  {
    if parts != [] {
      var n := |parts| - 1;
      assert parts == parts[..n] + [parts[n]];
      ParsePairs(parts[..n], m);
      assert IsPairOf(parts[n], m);
      var k :| k in m && parts[n] == Pair(k, '=', m[k]);
      CutAt(k, m[k], '=');
      forall q | q in m && Pair(q, '=', m[q]) == parts[n] ensures q == k {
        CutAt(q, m[q], '=');
      }
    }
  }

  lemma PairsOfMap(m: map<string, string>)
    ensures forall p :: p in SortedPairs(m, '=') <==> IsPairOf(p, m)
    ensures m != map[] ==> SortedPairs(m, '=') != []
  {
    forall p ensures p in SortedPairs(m, '=') <==> IsPairOf(p, m) {
      SortedPairsMembers(m, '=', p);
    }
    SortedPairsMembers(m, '=', "");
    if m != map[] { assert m.Keys != {}; }
  }

  /** The pairs of an unbroken map parse to the map. */
  lemma PairsParse(m: map<string, string>)
    requires Unbroken(m)
    ensures ParseFlags(SortedPairs(m, '=')) == Some(m)
  {
    PairsOfMap(m);
    ParsePairs(SortedPairs(m, '='), m);
    forall k | k in m ensures Pair(k, '=', m[k]) in SortedPairs(m, '=') {
      assert IsPairOf(Pair(k, '=', m[k]), m);
    }
    var r := ParseFlags(SortedPairs(m, '=')).value;
    assert r == m;
  }

  lemma PairsHaveNoSpace(m: map<string, string>)
    requires Unbroken(m)
    ensures forall p | p in SortedPairs(m, '=') :: ' ' !in p
  {
    PairsOfMap(m);
  }

  /** What is read from a written file: the trimmed text, split at spaces. */
  lemma ReadWritten(m: map<string, string>)
    ensures Unmarshal(Marshal(m))
         == ParseFlags(Split(Trim(Trim("\"" + Body(m) + "\"", IsNewline), IsQuote), ' '))
  {
    assert '=' !in KUBELET_KUBEADM_ARGS;
    CutAt(KUBELET_KUBEADM_ARGS, "\"" + Body(m) + "\"", '=');
  }

  lemma FlagsReadBack(m: map<string, string>)
    requires m != map[] && Unbroken(m) && Bare(Body(m))
    ensures Unmarshal(Marshal(m)) == Some(m)
  {
    ReadWritten(m);
    TrimQuotes(Body(m));
    PairsOfMap(m);
    PairsHaveNoSpace(m);
    SplitOfJoin(SortedPairs(m, '='), ' ');
    PairsParse(m);
  }

  // ----- and only then -----

  /** Flags read from parts between spaces are never broken, and there is at least one. */
  lemma {:induction false} ParsedUnbroken(parts: seq<string>)
    requires forall p | p in parts :: ' ' !in p
    ensures ParseFlags(parts).Some? ==> Unbroken(ParseFlags(parts).value)
    ensures ParseFlags(parts).Some? && parts != [] ==> ParseFlags(parts).value != map[]
    ensures ParseFlags(parts).Some? ==> forall k | k in ParseFlags(parts).value ::
            Pair(k, '=', ParseFlags(parts).value[k]) in parts
  {
    if parts != [] && ParseFlags(parts).Some? {
      var n := |parts| - 1;
      ParsedUnbroken(parts[..n]);
      var Some((k, v)) := Cut(parts[n], '=');
      assert parts[n] in parts && parts[n] == Pair(k, '=', v);
      assert k in ParseFlags(parts).value;
    }
  }

  function TotalLength(xs: seq<string>): nat
  {
    if xs == [] then 0 else |xs[0]| + 1 + TotalLength(xs[1..])
  }

  lemma {:induction false} JoinLength(xs: seq<string>, sep: char)
    requires xs != []
    ensures |Join(xs, sep)| + 1 == TotalLength(xs)
  {
    if |xs| > 1 { JoinLength(xs[1..], sep); }
  }

  lemma {:induction false} TotalLengthConcat(xs: seq<string>, ys: seq<string>)
    ensures TotalLength(xs + ys) == TotalLength(xs) + TotalLength(ys)
  {
    if xs == [] {
      assert xs + ys == ys;
    } else {
      TotalLengthConcat(xs[1..], ys);
      assert (xs + ys)[1..] == xs[1..] + ys;
    }
  }

  lemma {:induction false} TotalLengthAt(xs: seq<string>, i: nat)
    requires i < |xs|
    ensures TotalLength(xs) == TotalLength(xs[..i] + xs[i + 1..]) + |xs[i]| + 1
  {
    assert xs == xs[..i] + ([xs[i]] + xs[i + 1..]);
    TotalLengthConcat(xs[..i], [xs[i]] + xs[i + 1..]);
    TotalLengthConcat(xs[..i], xs[i + 1..]);
    assert ([xs[i]] + xs[i + 1..])[1..] == xs[i + 1..];
  }

  /** The pairs of a map, all found among `parts`, are together no longer than `parts`. */
  lemma {:induction false} PairsFit(m: map<string, string>, keys: set<string>, parts: seq<string>)
    requires keys <= m.Keys && Unbroken(m)
    requires forall k | k in keys :: Pair(k, '=', m[k]) in parts
    ensures TotalLength(PairList(m, keys, '=')) <= TotalLength(parts)
    decreases keys
  {
    if keys != {} {
      var x :| x in keys && PairList(m, keys, '=') == [Pair(x, '=', m[x])] + PairList(m, keys - {x}, '=');
      var i :| 0 <= i < |parts| && parts[i] == Pair(x, '=', m[x]);
      var rest := parts[..i] + parts[i + 1..];
      TotalLengthAt(parts, i);
      forall k | k in keys - {x} ensures Pair(k, '=', m[k]) in rest {
        CutAt(k, m[k], '=');
        CutAt(x, m[x], '=');
        var j :| 0 <= j < |parts| && parts[j] == Pair(k, '=', m[k]);
        assert j != i && (if j < i then rest[j] else rest[j - 1]) == parts[j];
      }
      PairsFit(m, keys - {x}, rest);
    }
  }

  lemma WithoutOne(ys: seq<string>, i: nat)
    requires i < |ys|
    ensures multiset(ys[..i] + ys[i + 1..]) == multiset(ys) - multiset{ys[i]}
  {
    assert ys == ys[..i] + [ys[i]] + ys[i + 1..];
  }

  lemma {:induction false} TotalLengthMultiset(xs: seq<string>, ys: seq<string>)
    requires multiset(xs) == multiset(ys)
    ensures TotalLength(xs) == TotalLength(ys)
    decreases |xs|
  {
    if xs == [] {
      assert |ys| == |multiset(ys)|;
    } else {
      assert xs[0] in multiset(ys);
      var i :| 0 <= i < |ys| && ys[i] == xs[0];
      TailMultiset(xs);
      WithoutOne(ys, i);
      TotalLengthMultiset(xs[1..], ys[..i] + ys[i + 1..]);
      TotalLengthAt(ys, i);
    }
  }

  lemma FlagsReadBackOnlyIf(m: map<string, string>)
    requires Unmarshal(Marshal(m)) == Some(m)
    ensures m != map[] && Unbroken(m) && Bare(Body(m))
  {
    ReadWritten(m);
    TrimQuotes(Body(m));
    var t := Trim(Trim("\"" + Body(m) + "\"", IsNewline), IsQuote);
    var parts := Split(t, ' ');
    ParsedUnbroken(parts);
    PairsFit(m, m.Keys, parts);
    TotalLengthMultiset(SortedPairs(m, '='), PairList(m, m.Keys, '='));
    JoinOfSplit(t, ' ');
    JoinLength(parts, ' ');
    SortedPairsMembers(m, '=', "");
    assert m.Keys != {};
    JoinLength(SortedPairs(m, '='), ' ');
  }

  // ----- the condition, on the map -----

  /** The flag whose `key=value` text sorts first. */
  ghost predicate IsLeast(m: map<string, string>, k: string)
  {
    k in m && forall q | q in m :: Leq(Pair(k, '=', m[k]), Pair(q, '=', m[q]))
  }

  ghost predicate IsGreatest(m: map<string, string>, k: string)
  {
    k in m && forall q | q in m :: Leq(Pair(q, '=', m[q]), Pair(k, '=', m[k]))
  }

  /** The first flag does not begin with a quote and the last one does not end with one. */
  ghost predicate BareEnds(m: map<string, string>)
  {
    && (forall k | IsLeast(m, k) :: k == "" || k[0] != '"')
    && (forall k | IsGreatest(m, k) :: m[k] == "" || m[k][|m[k]| - 1] != '"')
  }

  lemma {:induction false} JoinEnds(parts: seq<string>, sep: char)
    requires parts != [] && forall i | 0 <= i < |parts| :: |parts[i]| > 0
    ensures var t := Join(parts, sep);
            var last := parts[|parts| - 1];
            t != "" && t[0] == parts[0][0] && t[|t| - 1] == last[|last| - 1]
  {
    if |parts| > 1 {
      var rest := Join(parts[1..], sep);
      JoinEnds(parts[1..], sep);
      assert parts[1..][|parts| - 2] == parts[|parts| - 1];
      var t := parts[0] + [sep] + rest;
      assert Join(parts, sep) == t && t[|t| - 1] == rest[|rest| - 1];
    }
  }

  /** Where the sorted pairs begin and end. */
  lemma EndsAreExtreme(m: map<string, string>, first: string, last: string)
    requires m != map[] && first in m && last in m
    requires SortedPairs(m, '=')[0] == Pair(first, '=', m[first])
    requires SortedPairs(m, '=')[|SortedPairs(m, '=')| - 1] == Pair(last, '=', m[last])
    ensures IsLeast(m, first) && IsGreatest(m, last)
  {
    var pairs := SortedPairs(m, '=');
    SortSorted(PairList(m, m.Keys, '='));
    PairsOfMap(m);
    forall q | q in m
      ensures Leq(pairs[0], Pair(q, '=', m[q])) && Leq(Pair(q, '=', m[q]), pairs[|pairs| - 1])
    {
      assert IsPairOf(Pair(q, '=', m[q]), m);
      var i :| 0 <= i < |pairs| && pairs[i] == Pair(q, '=', m[q]);
      LeqTotal(pairs[i], pairs[i]);
    }
  }

  lemma LeastUnique(m: map<string, string>, j: string, k: string)
    requires Unbroken(m) && ((IsLeast(m, j) && IsLeast(m, k)) || (IsGreatest(m, j) && IsGreatest(m, k)))
    ensures j == k
  {
    LeqAntisymmetric(Pair(j, '=', m[j]), Pair(k, '=', m[k]));
    CutAt(j, m[j], '=');
    CutAt(k, m[k], '=');
  }

  lemma PairEnds(k: string, v: string)
    ensures var p := Pair(k, '=', v);
            && p != "" && p[0] == (if k == "" then '=' else k[0])
            && p[|p| - 1] == if v == "" then '=' else v[|v| - 1]
  {
  }

  /** The written text begins with the least flag and ends with the greatest. */
  lemma BodyEnds(m: map<string, string>) returns (first: string, last: string)
    requires m != map[]
    ensures IsLeast(m, first) && IsGreatest(m, last)
    ensures Body(m) != "" && Body(m)[0] == if first == "" then '=' else first[0]
    ensures Body(m)[|Body(m)| - 1] == if m[last] == "" then '=' else m[last][|m[last]| - 1]
  {
    var pairs := SortedPairs(m, '=');
    PairsOfMap(m);
    forall i | 0 <= i < |pairs| ensures |pairs[i]| > 0 {
      assert IsPairOf(pairs[i], m);
    }
    JoinEnds(pairs, ' ');
    assert IsPairOf(pairs[0], m) && IsPairOf(pairs[|pairs| - 1], m);
    first :| first in m && pairs[0] == Pair(first, '=', m[first]);
    last :| last in m && pairs[|pairs| - 1] == Pair(last, '=', m[last]);
    EndsAreExtreme(m, first, last);
    PairEnds(first, m[first]);
    PairEnds(last, m[last]);
  }

  /** The written text is bare exactly when the extreme flags are, so the condition is one on the map. */
  lemma BareExactly(m: map<string, string>)
    requires m != map[] && Unbroken(m)
    ensures Bare(Body(m)) <==> BareEnds(m)
  {
    var first, last := BodyEnds(m);
    forall k | IsLeast(m, k) ensures k == first { LeastUnique(m, k, first); }
    forall k | IsGreatest(m, k) ensures k == last { LeastUnique(m, k, last); }
  }

  /** In particular, no key that begins with a quote and no value that ends with one is enough. */
  lemma QuoteFreeIsBare(m: map<string, string>)
    requires m != map[] && Unbroken(m)
    requires forall k | k in m :: (k == "" || k[0] != '"') && (m[k] == "" || m[k][|m[k]| - 1] != '"')
    ensures Bare(Body(m)) && Unmarshal(Marshal(m)) == Some(m)
  {
    BareExactly(m);
    FlagsReadBack(m);
  }

  /**
   Reading the flags file back gives the flags that were written if and only if there is at least one
   flag, no key holds '=' or a space, no value a space, the first flag in order does not begin with a
   quote and the last one does not end with one.
   */
  lemma FlagsRoundTrip(m: map<string, string>)
    ensures Unmarshal(Marshal(m)) == Some(m) <==> m != map[] && Unbroken(m) && BareEnds(m)
  {
    if m != map[] && Unbroken(m) {
      BareExactly(m);
      if BareEnds(m) { FlagsReadBack(m); }
    }
    if Unmarshal(Marshal(m)) == Some(m) {
      FlagsReadBackOnlyIf(m);
    }
  }

  // ----- read, modify, write -----

  /** The kubelet settings of a host; `maxPods` is already in decimal. */
  datatype Node = Node(
    systemReserved: Option<map<string, string>>, kubeReserved: Option<map<string, string>>,
    evictionHard: Option<map<string, string>>, maxPods: Option<string>)

  /** Sets a flag if the host has a value for it. */
  function SetFrom(flags: map<string, string>, name: string, value: Option<string>): map<string, string>
  {
    match value case None => flags case Some(v) => flags[name := v]
  }

  ghost function Text(m: Option<map<string, string>>, sep: char): Option<string>
  {
    match m case None => None case Some(x) => Some(MapText(x, sep))
  }

  const DEPRECATED_FLAGS: set<string> := {"--network-plugin", "--container-runtime"}

  /** The flags a host's settings demand. */
  ghost function NodeFlags(node: Node): map<string, string>
  {
    var f1 := SetFrom(map[], "--system-reserved", Text(node.systemReserved, '='));
    var f2 := SetFrom(f1, "--kube-reserved", Text(node.kubeReserved, '='));
    var f3 := SetFrom(f2, "--eviction-hard", Text(node.evictionHard, '<'));
    SetFrom(f3, "--max-pods", node.maxPods)
  }

  /** removeDeprecatedKubeletFlags, then updateKubeletNodeValues. */
  ghost function Modify(flags: map<string, string>, node: Node): map<string, string>
  {
    (flags - DEPRECATED_FLAGS) + NodeFlags(node)
  }

  /** The effect of updateKubeadmFlagsEnvFile on the content of the file. */
  ghost function Updated(content: string, node: Node): Option<string>
  {
    match Unmarshal(content)
    case None => None
    case Some(flags) => Some(Marshal(Modify(flags, node)))
  }

  /**
   What the update makes of the flags it read, flag by flag: a setting the host has is written under its own
   flag, in its own text; the two deprecated flags are gone; every other flag is as it was.
   */
  ghost predicate FlagByFlag(flags: map<string, string>, node: Node, m: map<string, string>)
  {
    && (node.systemReserved.Some? ==> Holds(m, "--system-reserved", MapText(node.systemReserved.value, '=')))
    && (node.kubeReserved.Some? ==> Holds(m, "--kube-reserved", MapText(node.kubeReserved.value, '=')))
    && (node.evictionHard.Some? ==> Holds(m, "--eviction-hard", MapText(node.evictionHard.value, '<')))
    && (node.maxPods.Some? ==> Holds(m, "--max-pods", node.maxPods.value))
    && "--network-plugin" !in m && "--container-runtime" !in m
    && forall k |
         && k != "--network-plugin" && k != "--container-runtime"
         && (k == "--system-reserved" ==> node.systemReserved.None?)
         && (k == "--kube-reserved" ==> node.kubeReserved.None?)
         && (k == "--eviction-hard" ==> node.evictionHard.None?)
         && (k == "--max-pods" ==> node.maxPods.None?) ::
         (k in m <==> k in flags) && (k in m ==> m[k] == flags[k])
  }

  predicate Holds(m: map<string, string>, name: string, value: string)
  {
    name in m && m[name] == value
  }

  lemma NodeFlagsByName(node: Node)
    ensures var f := NodeFlags(node);
            && (node.systemReserved.Some? ==> Holds(f, "--system-reserved", MapText(node.systemReserved.value, '=')))
            && (node.kubeReserved.Some? ==> Holds(f, "--kube-reserved", MapText(node.kubeReserved.value, '=')))
            && (node.evictionHard.Some? ==> Holds(f, "--eviction-hard", MapText(node.evictionHard.value, '<')))
            && (node.maxPods.Some? ==> Holds(f, "--max-pods", node.maxPods.value))
    ensures forall k | k in NodeFlags(node) ::
              || (k == "--system-reserved" && node.systemReserved.Some?)
              || (k == "--kube-reserved" && node.kubeReserved.Some?)
              || (k == "--eviction-hard" && node.evictionHard.Some?)
              || (k == "--max-pods" && node.maxPods.Some?)
  {
    var a, b, c, d := "--system-reserved", "--kube-reserved", "--eviction-hard", "--max-pods";
    assert a[2] == 's' && b[2] == 'k' && c[2] == 'e' && d[2] == 'm';
    FourFlags(a, b, c, d, Text(node.systemReserved, '='), Text(node.kubeReserved, '='), Text(node.evictionHard, '<'),
              node.maxPods);
  }

  /** Setting four different flags, each if there is a value for it. */
  lemma FourFlags(a: string, b: string, c: string, d: string,
                  va: Option<string>, vb: Option<string>, vc: Option<string>, vd: Option<string>)
    requires a != b && a != c && a != d && b != c && b != d && c != d
    ensures var f := SetFrom(SetFrom(SetFrom(SetFrom(map[], a, va), b, vb), c, vc), d, vd);
            && (va.Some? ==> Holds(f, a, va.value)) && (vb.Some? ==> Holds(f, b, vb.value))
            && (vc.Some? ==> Holds(f, c, vc.value)) && (vd.Some? ==> Holds(f, d, vd.value))
            && forall k | k in f ::
                 (k == a && va.Some?) || (k == b && vb.Some?) || (k == c && vc.Some?) || (k == d && vd.Some?)
  {
  }

  lemma ModifiedFlagByFlag(flags: map<string, string>, node: Node)
    ensures FlagByFlag(flags, node, Modify(flags, node))
  {
    var e, f := "--network-plugin", "--container-runtime";
    assert e[2] == 'n' && f[2] == 'c' && "--system-reserved"[2] == 's' && "--kube-reserved"[2] == 'k';
    assert "--eviction-hard"[2] == 'e' && "--max-pods"[2] == 'm';
    NodeFlagsByName(node);
  }

  // ----- the text of a map -----

  /** Cut at the commas, the text of a map is its pairs, each once and in order. */
  lemma MapTextReadsBack(m: map<string, string>, sep: char)
    requires m != map[] && sep != ',' && forall k | k in m :: ',' !in k && ',' !in m[k]
    ensures var parts := Split(MapText(m, sep), ',');
            && Sorted(parts) && |parts| == |m|
            && forall p :: p in parts <==> exists k :: k in m && p == k + [sep] + m[k]
  {
    var pairs := SortedPairs(m, sep);
    forall p ensures p in pairs <==> exists k :: k in m && p == k + [sep] + m[k] {
      SortedPairsMembers(m, sep, p);
      if k :| k in m && p == Pair(k, sep, m[k]) { assert p == k + [sep] + m[k]; }
      if k :| k in m && p == k + [sep] + m[k] { assert p == Pair(k, sep, m[k]); }
    }
    SortedPairsMembers(m, sep, "");
    assert m.Keys != {};
    SplitOfJoin(pairs, ',');
    SortSorted(PairList(m, m.Keys, sep));
  }

  /** The file holds one assignment: the variable's name and, between quotes, the flags in order, a space apart. */
  lemma FileReadsBack(m: map<string, string>)
    requires m != map[] && Unbroken(m)
    ensures exists body ::
              && Marshal(m) == "KUBELET_KUBEADM_ARGS=\"" + body + "\""
              && Sorted(Split(body, ' ')) && |Split(body, ' ')| == |m|
              && forall p :: p in Split(body, ' ') <==> exists k :: k in m && p == k + "=" + m[k]
  {
    var body, pairs := Body(m), SortedPairs(m, '=');
    assert Marshal(m) == "KUBELET_KUBEADM_ARGS=\"" + body + "\"";
    PairsOfMap(m);
    PairsHaveNoSpace(m);
    SplitOfJoin(pairs, ' ');
    SortSorted(PairList(m, m.Keys, '='));
    SortedPairsMembers(m, '=', "");
    forall p ensures p in pairs <==> exists k :: k in m && p == k + "=" + m[k] {
      if IsPairOf(p, m) {
        var k :| k in m && p == Pair(k, '=', m[k]);
        assert p == k + "=" + m[k];
      }
      if k :| k in m && p == k + "=" + m[k] { assert p == Pair(k, '=', m[k]); }
    }
  }

  // ----- what reading accepts -----

  /** The part at `i` gives the flag this value, and no later part gives it one. */
  predicate GivenLast(parts: seq<string>, k: string, v: string, i: nat)
  {
    && i < |parts| && Cut(parts[i], '=') == Some((k, v))
    && forall j | i < j < |parts| :: Cut(parts[j], '=').Some? ==> Cut(parts[j], '=').value.0 != k
  }

  /** The parts are read exactly when each is an assignment, and a flag given twice has its last value. */
  lemma {:induction false} FlagsAsRead(parts: seq<string>)
    ensures ParseFlags(parts).Some? <==> forall p | p in parts :: '=' in p
    ensures ParseFlags(parts).Some? ==>
              forall k | k in ParseFlags(parts).value :: exists i :: GivenLast(parts, k, ParseFlags(parts).value[k], i)
    ensures ParseFlags(parts).Some? ==>
              forall i | 0 <= i < |parts| ::
                Cut(parts[i], '=').Some? && Cut(parts[i], '=').value.0 in ParseFlags(parts).value
  {
    if parts != [] {
      var front, p := parts[..|parts| - 1], parts[|parts| - 1];
      FlagsAsRead(front);
      assert parts == front + [p];
      if ParseFlags(parts).Some? {
        var before, r, last := ParseFlags(front).value, ParseFlags(parts).value, Cut(p, '=').value;
        forall k | k in r ensures exists i :: GivenLast(parts, k, r[k], i) {
          if k == last.0 {
            assert GivenLast(parts, k, r[k], |front|);
          } else {
            var i :| GivenLast(front, k, before[k], i);
            GivenBefore(front, p, k, before[k], i);
          }
        }
      }
    }
  }

  lemma GivenBefore(front: seq<string>, p: string, k: string, v: string, i: nat)
    requires GivenLast(front, k, v, i) && (Cut(p, '=').Some? ==> Cut(p, '=').value.0 != k)
    ensures GivenLast(front + [p], k, v, i)
  {
    var parts := front + [p];
    assert parts[i] == front[i];
    assert forall j | i < j < |parts| :: parts[j] == if j < |front| then front[j] else p;
  }

  /** Newlines at the end of the file, as editors leave them, do not matter. */
  lemma NewlinesIgnored(m: map<string, string>, newlines: string)
    requires m != map[] && Unbroken(m) && BareEnds(m) && forall c | c in newlines :: c == '\n'
    ensures Unmarshal(Marshal(m) + newlines) == Some(m)
  {
    var quoted := "\"" + Body(m) + "\"";
    assert '=' !in KUBELET_KUBEADM_ARGS;
    CutAt(KUBELET_KUBEADM_ARGS, quoted + newlines, '=');
    assert Marshal(m) + newlines == KUBELET_KUBEADM_ARGS + ['='] + (quoted + newlines);
    assert TrimLeft(quoted + newlines, IsNewline) == quoted + newlines;
    TrimRightAll(quoted, newlines, IsNewline);
    TrimKeeps(quoted, IsNewline);
    assert Trim(quoted + newlines, IsNewline) == Trim(quoted, IsNewline);
    CutAt(KUBELET_KUBEADM_ARGS, quoted, '=');
    FlagsRoundTrip(m);
    ReadWritten(m);
  }

  lemma {:induction false} TrimRightAll(s: string, tail: string, cut: char -> bool)
    requires forall c | c in tail :: cut(c)
    ensures TrimRight(s + tail, cut) == TrimRight(s, cut)
    decreases |tail|
  {
    if tail == "" {
      assert s + tail == s;
    } else {
      var n := |tail| - 1;
      var all := s + tail;
      assert all[|all| - 1] == tail[n] && tail[n] in tail;
      assert all[..|all| - 1] == s + tail[..n];
      TrimRightAll(s, tail[..n], cut);
    }
  }

  method UpdateKubeadmFlagsEnv(content: string, node: Node) returns (r: Option<string>)
    ensures r == Updated(content, node)
    ensures r.None? <==> Unmarshal(content).None?
    ensures r.Some? ==>
              exists m :: r.value == Marshal(m) && FlagByFlag(Unmarshal(content).value, node, m)
  {
    var parsed := UnmarshalKubeletFlags(content);
    if parsed.None? {
      return None;
    }
    var flags := parsed.value - DEPRECATED_FLAGS;
    ghost var base := flags;
    assert flags == base + map[];
    flags := UpdateKubeletNodeValues(flags, node, base);
    ModifiedFlagByFlag(parsed.value, node);
    var text := MarshalKubeletFlags(flags);
    return Some(text);
  }

  method UpdateKubeletNodeValues(flags: map<string, string>, node: Node, ghost base: map<string, string>)
    returns (r: map<string, string>)
    requires flags == base + map[]
    ensures r == base + NodeFlags(node)
  {
    var t := Render(node.systemReserved, '=');
    SetFromPlus(base, map[], "--system-reserved", t);
    r := SetFrom(flags, "--system-reserved", t);
    ghost var set1 := SetFrom(map[], "--system-reserved", t);
    t := Render(node.kubeReserved, '=');
    SetFromPlus(base, set1, "--kube-reserved", t);
    r := SetFrom(r, "--kube-reserved", t);
    ghost var set2 := SetFrom(set1, "--kube-reserved", t);
    t := Render(node.evictionHard, '<');
    SetFromPlus(base, set2, "--eviction-hard", t);
    r := SetFrom(r, "--eviction-hard", t);
    SetFromPlus(base, SetFrom(set2, "--eviction-hard", t), "--max-pods", node.maxPods);
    r := SetFrom(r, "--max-pods", node.maxPods);
  }

  method Render(m: Option<map<string, string>>, sep: char) returns (t: Option<string>)
    ensures t == Text(m, sep)
  {
    if m.None? {
      return None;
    }
    var text := MapStringStringToString(m.value, sep);
    return Some(text);
  }

  lemma SetFromPlus(base: map<string, string>, more: map<string, string>, name: string, value: Option<string>)
    ensures SetFrom(base + more, name, value) == base + SetFrom(more, name, value)
  {
  }

  /** Dropping some keys and setting others twice is doing it once. */
  lemma DropAndSetTwice(flags: map<string, string>, drop: set<string>, values: map<string, string>)
    ensures ((flags - drop) + values - drop) + values == (flags - drop) + values
  {
  }

  lemma ModifyTwice(flags: map<string, string>, node: Node)
    ensures Modify(Modify(flags, node), node) == Modify(flags, node)
  {
    DropAndSetTwice(flags, DEPRECATED_FLAGS, NodeFlags(node));
  }

  /** Updating the file again changes nothing, as long as what was written can be read back. */
  lemma UpdateTwice(content: string, node: Node)
    requires Unmarshal(content).Some?
    requires var m := Modify(Unmarshal(content).value, node); m != map[] && Unbroken(m) && BareEnds(m)
    ensures Updated(Updated(content, node).value, node) == Updated(content, node)
  {
    var m := Modify(Unmarshal(content).value, node);
    FlagsRoundTrip(m);
    ModifyTwice(Unmarshal(content).value, node);
  }

  /** A file left with no flag at all cannot be read again. */
  lemma NoFlagsUnreadable()
    ensures Unmarshal(Marshal(map[])).None?
  {
    assert SortedPairs(map[], '=') == [];
    ReadWritten(map[]);
    TrimQuotes("");
    assert Split("", ' ') == [""];
  }
}
