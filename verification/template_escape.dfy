/**
 Escaping of template delimiters (pkg/addons/manifest.go): with templating disabled, "{{" is written
 as "^{{" and "}}" as "}}^" before a manifest is parsed, and taken back in every string afterwards.
 */
module TemplateEscape {

  predicate Starts(s: string, prefix: string)
  {
    |prefix| <= |s| && forall i | 0 <= i < |prefix| :: s[i] == prefix[i]
  }

  /** strings.ReplaceAll, for a pattern that is not empty. */
  function ReplaceAll(s: string, from: string, to: string): string
    requires from != ""
  {
    if s == "" then ""
    else if Starts(s, from) then to + ReplaceAll(s[|from|..], from, to)
    else [s[0]] + ReplaceAll(s[1..], from, to)
  }

  /** The escape step of loadAddonsManifests: two replacements, one after the other. */
  function Escape(s: string): string
  {
    ReplaceAll(ReplaceAll(s, "{{", "^{{"), "}}", "}}^")
  }

  /** strings.NewReplacer("^{{", "{{", "}}^", "}}"): one pass, left to right, without overlaps. */
  function Unescape(s: string): string
  {
    if s == "" then ""
    else if Starts(s, "^{{") then "{{" + Unescape(s[3..])
    else if Starts(s, "}}^") then "}}" + Unescape(s[3..])
    else [s[0]] + Unescape(s[1..])
  }

  /** Both replacements in one pass. */
  function EscapeOnce(s: string): string
  {
    if s == "" then ""
    else if Starts(s, "{{") then "^{{" + EscapeOnce(s[2..])
    else if Starts(s, "}}") then "}}^" + EscapeOnce(s[2..])
    else [s[0]] + EscapeOnce(s[1..])
  }

  /** Replacing "{{" keeps whether a text begins with '}'. */
  lemma OpenKeepsFront(s: string)
    ensures var r := ReplaceAll(s, "{{", "^{{");
            (s == "" <==> r == "") && (s != "" ==> (r[0] == '}' <==> s[0] == '}'))
  {
  }

  /** A caret, or a brace of the other kind, is passed over by the second replacement. */
  lemma PassOver(c: char, t: string)
    requires c != '}' || t == "" || t[0] != '}'
    ensures ReplaceAll([c] + t, "}}", "}}^") == [c] + ReplaceAll(t, "}}", "}}^")
  {
    assert ([c] + t)[1..] == t;
  }

  lemma OpeningEscaped(s: string)
    requires Starts(s, "{{")
    ensures Escape(s) == "^{{" + Escape(s[2..])
  {
    var rest := ReplaceAll(s[2..], "{{", "^{{");
    assert ReplaceAll(s, "{{", "^{{") == ['^'] + (['{'] + (['{'] + rest));
    PassOver('^', ['{'] + (['{'] + rest));
    PassOver('{', ['{'] + rest);
    PassOver('{', rest);
  }

  lemma ClosingEscaped(s: string)
    requires Starts(s, "}}")
    ensures Escape(s) == "}}^" + Escape(s[2..])
  {
    var rest := ReplaceAll(s[2..], "{{", "^{{");
    assert s[1..][0] == '}' && s[1..][1..] == s[2..];
    assert ReplaceAll(s[1..], "{{", "^{{") == ['}'] + rest;
    var t := ReplaceAll(s, "{{", "^{{");
    assert t == ['}'] + (['}'] + rest);
    assert t[2..] == rest;
  }

  lemma {:induction false} TwoPassesAreOne(s: string)
    ensures Escape(s) == EscapeOnce(s)
    decreases |s|
  {
    if s == "" {
    } else if Starts(s, "{{") {
      TwoPassesAreOne(s[2..]);
      OpeningEscaped(s);
    } else if Starts(s, "}}") {
      TwoPassesAreOne(s[2..]);
      ClosingEscaped(s);
    } else {
      TwoPassesAreOne(s[1..]);
      OpenKeepsFront(s[1..]);
      PassOver(s[0], ReplaceAll(s[1..], "{{", "^{{"));
    }
  }

  /** Escaping never leaves "{{" at the front, and begins with '}' only if the text does. */
  lemma EscapedFront(s: string)
    ensures !Starts(EscapeOnce(s), "{{")
    ensures s == "" <==> EscapeOnce(s) == ""
    ensures s != "" ==> (EscapeOnce(s)[0] == '}' <==> s[0] == '}')
  {
    if s != "" && !Starts(s, "{{") && s[0] == '{' && |s| > 1 {
      assert s[1..][0] != '{';
      if EscapeOnce(s[1..])[0] == '{' { FrontBrace(s[1..]); }
    }
  }

  lemma FrontBrace(s: string)
    requires s != "" && EscapeOnce(s)[0] == '{'
    ensures s[0] == '{'
  {
  }

  lemma {:induction false} OnePassRoundTrip(s: string)
    ensures Unescape(EscapeOnce(s)) == s
    decreases |s|
  {
    if s == "" {
    } else if Starts(s, "{{") || Starts(s, "}}") {
      OnePassRoundTrip(s[2..]);
      var e := EscapeOnce(s);
      assert e[3..] == EscapeOnce(s[2..]);
      assert s == [s[0], s[1]] + s[2..];
    } else {
      OnePassRoundTrip(s[1..]);
      EscapedFront(s[1..]);
      var r := EscapeOnce(s[1..]);
      var e := EscapeOnce(s);
      assert e == [s[0]] + r && e[1..] == r;
      assert !Starts(e, "^{{") by { assert !Starts(r, "{{"); }
      assert !Starts(e, "}}^") by {
        assert e[0] == s[0] && (|s| > 1 ==> s[1..][0] == s[1]) && (|e| > 1 ==> e[1] == r[0]);
      }
      assert s == [s[0]] + s[1..];
    }
  }

  /** Unescaping undoes escaping on every string, runs of braces and literal carets included. */
  lemma EscapeRoundTrip(s: string)
    ensures Unescape(Escape(s)) == s
  {
    TwoPassesAreOne(s);
    OnePassRoundTrip(s);
  }

  lemma EscapeInjective(a: string, b: string)
    requires Escape(a) == Escape(b)
    ensures a == b
  {
    EscapeRoundTrip(a);
    EscapeRoundTrip(b);
  }

  // ----- what escaping leaves -----

  /** A text without template delimiters is left as it is. */
  lemma {:induction false} PlainTextStays(s: string)
    requires forall i | 0 <= i < |s| :: !Starts(s[i..], "{{") && !Starts(s[i..], "}}")
    ensures Escape(s) == s
  {
    TwoPassesAreOne(s);
    PlainOnce(s);
  }

  lemma {:induction false} PlainOnce(s: string)
    requires forall i | 0 <= i < |s| :: !Starts(s[i..], "{{") && !Starts(s[i..], "}}")
    ensures EscapeOnce(s) == s
  {
    if s != "" {
      assert s[0..] == s;
      forall i | 0 <= i < |s[1..]| ensures !Starts(s[1..][i..], "{{") && !Starts(s[1..][i..], "}}") {
        assert s[1..][i..] == s[i + 1..];
      }
      PlainOnce(s[1..]);
    }
  }

  /** An opening delimiter at `i` is marked: a caret stands before it, or before the brace before it. */
  predicate Marked(e: string, i: nat)
    requires i < |e|
  {
    (i >= 1 && e[i - 1] == '^') || (i >= 2 && e[i - 2] == '^' && e[i - 1] == '{')
  }

  /** No opening delimiter is left without its mark, so no plain one reaches the YAML parser. */
  lemma EveryOpeningMarked(s: string, i: nat)
    requires i < |Escape(s)| && Starts(Escape(s)[i..], "{{")
    ensures Marked(Escape(s), i)
  {
    TwoPassesAreOne(s);
    MarkedOnce(s, i);
  }

  /** A mark stays where it is when something is put in front. */
  lemma MarkedBehind(front: string, rest: string, i: nat)
    requires |front| <= i < |front + rest| && Marked(rest, i - |front|)
    ensures Marked(front + rest, i)
  {
    var e, n := front + rest, |front|;
    assert i > n && e[i - 1] == rest[i - n - 1];
    if i - n >= 2 { assert e[i - 2] == rest[i - n - 2]; }
  }

  lemma MarkedInFront(rest: string, i: nat)
    requires i < 3 && ("^{{" + rest)[i] == '{'
    ensures Marked("^{{" + rest, i)
  {
    var e := "^{{" + rest;
    assert e[0] == '^' && e[1] == '{' && e[2] == '{';
  }

  lemma StartsBehind(front: string, rest: string, i: nat)
    requires |front| <= i < |front + rest| && Starts((front + rest)[i..], "{{")
    ensures Starts(rest[i - |front|..], "{{")
  {
    assert (front + rest)[i..] == rest[i - |front|..];
  }

  lemma {:induction false} MarkedOnce(s: string, i: nat)
    requires i < |EscapeOnce(s)| && Starts(EscapeOnce(s)[i..], "{{")
    ensures Marked(EscapeOnce(s), i)
    decreases |s|, 1
  {
    assert EscapeOnce(s)[i..][0] == EscapeOnce(s)[i];
    EscapedFront(s);
    assert EscapeOnce(s)[0..] == EscapeOnce(s);
    if Starts(s, "{{") {
      MarkedAfter("^{{", s, 2, i);
      if i < 3 { MarkedInFront(EscapeOnce(s[2..]), i); }
    } else if Starts(s, "}}") {
      MarkedAfter("}}^", s, 2, i);
      assert EscapeOnce(s)[1] == "}}^"[1] && EscapeOnce(s)[2] == "}}^"[2];
    } else {
      MarkedAfter([s[0]], s, 1, i);
    }
  }

  lemma {:induction false} MarkedAfter(front: string, s: string, n: nat, i: nat)
    requires 0 < n <= |s| && i < |front + EscapeOnce(s[n..])| && Starts((front + EscapeOnce(s[n..]))[i..], "{{")
    ensures i >= |front| ==> Marked(front + EscapeOnce(s[n..]), i)
    decreases |s|, 0
  {
    if i >= |front| {
      StartsBehind(front, EscapeOnce(s[n..]), i);
      MarkedOnce(s[n..], i - |front|);
      MarkedBehind(front, EscapeOnce(s[n..]), i);
    }
  }

  // ----- decoded manifests -----

  /** A decoded JSON value; scalars that are not strings are left alone. */
  datatype Json = Scalar(text: string) | Text(s: string) | List(items: seq<Json>) | Object(fields: map<string, Json>)

  function EscapedKeys(fields: map<string, Json>): set<string>
  {
    set k | k in fields :: Escape(k)
  }

  /** The value in which every string and key is escaped. */
  function EscapeAll(v: Json): Json
  {
    match v
    case Scalar(_) => v
    case Text(s) => Text(Escape(s))
    case List(items) => List(seq(|items|, i requires 0 <= i < |items| => EscapeAll(items[i])))
    case Object(fields) =>
      Object(map e | e in EscapedKeys(fields) && Unescape(e) in fields :: EscapeAll(fields[Unescape(e)]))
  }

  /** Escaping a map keeps all its entries, each under its escaped key. */
  lemma EscapedFields(fields: map<string, Json>)
    ensures EscapeAll(Object(fields)).fields.Keys == EscapedKeys(fields)
    ensures forall k | k in fields :: Escape(k) in EscapeAll(Object(fields)).fields
              && EscapeAll(Object(fields)).fields[Escape(k)] == EscapeAll(fields[k])
  {
    forall k | k in fields ensures Unescape(Escape(k)) == k {
      EscapeRoundTrip(k);
    }
    forall k | k in fields ensures Escape(k) in EscapedKeys(fields) {}
  }

  /**
   What unescaping a value may give: a Go map is visited in any order, so when two keys unescape to the
   same one, either of their values may be kept.
   */
  ghost predicate IsUnescaped(v: Json, r: Json)
  {
    match v
    case Scalar(_) => r == v
    case Text(s) => r == Text(Unescape(s))
    case List(items) =>
      r.List? && |r.items| == |items| && forall i | 0 <= i < |items| :: IsUnescaped(items[i], r.items[i])
    case Object(fields) =>
      && r.Object? && (forall k | k in fields :: Unescape(k) in r.fields)
      && forall x | x in r.fields :: exists k :: k in fields && Unescape(k) == x && IsUnescaped(fields[k], r.fields[x])
  }

  /** unescapeTemplateDelimiters: lists are overwritten in place, maps are built anew. */
  method UnescapeTemplateDelimiters(v: Json) returns (r: Json)
    ensures IsUnescaped(v, r)
  {
    match v
    case Scalar(_) => r := v;
    case Text(s) => r := Text(Unescape(s));
    case List(items) =>
      var out := items;
      for i := 0 to |items|
        invariant |out| == |items|
        invariant forall j | 0 <= j < i :: IsUnescaped(items[j], out[j])
        invariant forall j | i <= j < |items| :: out[j] == items[j]
      {
        var x := UnescapeTemplateDelimiters(out[i]);
        out := out[i := x];
      }
      r := List(out);
    case Object(fields) =>
      var out: map<string, Json> := map[];
      var rest := fields.Keys;
      while rest != {}
        invariant rest <= fields.Keys
        invariant forall k | k in fields.Keys - rest :: Unescape(k) in out
        invariant forall x | x in out :: exists k :: k in fields && Unescape(k) == x && IsUnescaped(fields[k], out[x])
        decreases rest
      {
        var k :| k in rest;
        var x := UnescapeTemplateDelimiters(fields[k]);
        out := out[Unescape(k) := x];
        rest := rest - {k};
      }
      r := Object(out);
  }

  /** On a value with every string escaped, unescaping restores the original: no key is merged or lost. */
  lemma {:induction false} UnescapeRestores(original: Json, r: Json)
    requires IsUnescaped(EscapeAll(original), r)
    ensures r == original
    decreases original, 1
  {
    match original
    case Scalar(_) =>
    case Text(s) => EscapeRoundTrip(s);
    case List(items) => ListRestores(items, r);
    case Object(fields) =>
      FieldsRestore(fields, r.fields);
  }

  lemma {:induction false} ListRestores(items: seq<Json>, r: Json)
    requires IsUnescaped(EscapeAll(List(items)), r)
    ensures r == List(items)
    decreases List(items), 0
  {
    var e := EscapeAll(List(items)).items;
    forall i | 0 <= i < |items| ensures r.items[i] == items[i] {
      assert e[i] == EscapeAll(items[i]) && IsUnescaped(e[i], r.items[i]);
      UnescapeRestores(items[i], r.items[i]);
    }
    assert r.items == items;
  }

  /** A map whose keys were renamed one to one and renamed back, entry by entry, is the map it was. */
  lemma RenamedBack(
    fields: map<string, Json>, e: map<string, Json>, out: map<string, Json>,
    esc: string -> string, une: string -> string, rel: (Json, Json) -> bool)
    requires forall q | q in fields :: esc(q) in e && une(esc(q)) == q
    requires forall k | k in e :: exists q :: q in fields && esc(q) == k
    requires forall k | k in e :: une(k) in out
    requires forall x | x in out :: exists k :: k in e && une(k) == x && rel(e[k], out[x])
    requires forall q, r | q in fields && rel(e[esc(q)], r) :: r == fields[q]
    ensures out == fields
  {
    forall x | x in out ensures x in fields && out[x] == fields[x] {
      var k :| k in e && une(k) == x && rel(e[k], out[x]);
      var q :| q in fields && esc(q) == k;
    }
    forall q | q in fields ensures q in out {
      assert esc(q) in e;
    }
  }

  lemma {:induction false} FieldsRestore(fields: map<string, Json>, out: map<string, Json>)
    requires IsUnescaped(EscapeAll(Object(fields)), Object(out))
    ensures out == fields
    decreases Object(fields), 0
  {
    var e := EscapeAll(Object(fields)).fields;
    EscapedFields(fields);
    forall q | q in fields ensures Unescape(Escape(q)) == q {
      EscapeRoundTrip(q);
    }
    forall q, r | q in fields && IsUnescaped(e[Escape(q)], r) ensures r == fields[q] {
      UnescapeRestores(fields[q], r);
    }
    RenamedBack(fields, e, out, Escape, Unescape, IsUnescaped);
  }
}
